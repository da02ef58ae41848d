/**
 * The partner registration form (src/app/register/page.tsx): picking services by name, the
 * search box over the services, and the record the form submits.
 */
module PartnerRegister {
  import opened Text
  import opened Seqs

  /** A service as the form lists it; the category is the enum value's name. */
  datatype Service = Service(id: string, name: string, category: string)

  /** The text fields of the form. */
  datatype Form = Form(name: string, email: string, password: string, pincodes: string)

  /** `formattedData`: the form fields, the chosen service names, their categories and the pincodes. */
  datatype Registration = Registration(
    name: string, email: string, password: string,
    services: seq<string>, serviceTypes: seq<string>, pincodes: seq<string>)

  /** `handleServiceChange(serviceName)` applied to the selected names. */
  function ToggleService(selected: seq<string>, serviceName: string): (r: seq<string>)
    ensures serviceName in r <==> serviceName !in selected
    ensures forall x :: x != serviceName ==> (x in r <==> x in selected)
  {
    FilterKeeps(selected, (n: string) => n != serviceName);
    if serviceName in selected then Filter(selected, (n: string) => n != serviceName)
    else selected + [serviceName]
  }

  /** A chosen name is dropped everywhere it occurs and the rest keep their order; a name not chosen
      is added at the end. Either way exactly that name's membership flips. */
  lemma ToggleFlips(selected: seq<string>, serviceName: string)
    ensures var r := ToggleService(selected, serviceName);
      && (serviceName in r <==> serviceName !in selected)
      && (forall x :: x != serviceName ==> (x in r <==> x in selected))
      && (serviceName in selected ==> forall x :: x != serviceName ==> multiset(r)[x] == multiset(selected)[x])
      && (serviceName !in selected ==> r[..|selected|] == selected && r[|selected|..] == [serviceName])
  {
    FilterKeeps(selected, (n: string) => n != serviceName);
  }

  /** Choosing a name that was not chosen and then unchoosing it gives back the same list. */
  lemma ToggleTwiceRestores(selected: seq<string>, serviceName: string)
    requires serviceName !in selected
    ensures ToggleService(ToggleService(selected, serviceName), serviceName) == selected
  {
    var p := (n: string) => n != serviceName;
    FilterAppend(selected, [serviceName], p);
    FilterAll(selected, p);
    assert Filter([serviceName], p) == [];
  }

  /** `filteredServices`: the services whose name contains the search term, ignoring case. */
  function FilteredServices(services: seq<Service>, searchTerm: string): (r: seq<Service>)
    ensures |r| <= |services|
    ensures forall s :: s in r <==> s in services && ContainsIgnoringCase(s.name, searchTerm)
  {
    FilterKeeps(services, (s: Service) => ContainsIgnoringCase(s.name, searchTerm));
    Filter(services, (s: Service) => ContainsIgnoringCase(s.name, searchTerm))
  }

  /** The search keeps exactly the matching services, and an empty term keeps all of them as they are. */
  lemma FilteredServicesExactly(services: seq<Service>, searchTerm: string)
    ensures var r := FilteredServices(services, searchTerm);
      && (forall s :: s in r <==> s in services && Contains(Lower(s.name), Lower(searchTerm)))
      && (searchTerm == "" ==> r == services)
  {
    FilterKeeps(services, (s: Service) => ContainsIgnoringCase(s.name, searchTerm));
    if searchTerm == "" {
      forall s | s in services ensures ContainsIgnoringCase(s.name, searchTerm) {
        EmptyIsContained(s.name);
      }
      FilterAll(services, (s: Service) => ContainsIgnoringCase(s.name, searchTerm));
    }
  }

  /** The categories of the services whose names are chosen, each once. */
  function ServiceTypes(services: seq<Service>, selected: seq<string>): (types: seq<string>)
    ensures NoDuplicates(types)
  {
    Dedup(Map(Filter(services, (s: Service) => s.name in selected), (s: Service) => s.category))
  }

  /** `formattedData` as `handleSubmit` builds it. */
  function FormattedData(form: Form, services: seq<Service>, selected: seq<string>): (r: Registration)
    ensures r.name == form.name && r.email == form.email && r.password == form.password
    ensures r.services == selected
    ensures |r.pincodes| == CountChar(form.pincodes, ',') + 1
    ensures forall k :: 0 <= k < |r.pincodes| ==> |r.pincodes[k]| <= |Split(form.pincodes, ',')[k]|
  {
    Registration(form.name, form.email, form.password, selected,
                 ServiceTypes(services, selected), Map(Split(form.pincodes, ','), Trim))
  }

  /** `serviceTypes` has no duplicates and holds exactly the categories of listed services whose
      names are chosen. */
  lemma ServiceTypesExactly(services: seq<Service>, selected: seq<string>)
    ensures var types := ServiceTypes(services, selected);
      && NoDuplicates(types)
      && (forall c :: c in types <==> exists s :: s in services && s.name in selected && s.category == c)
  {
    var chosen := Filter(services, (s: Service) => s.name in selected);
    var cats := Map(chosen, (s: Service) => s.category);
    FilterKeeps(services, (s: Service) => s.name in selected);
    var types := ServiceTypes(services, selected);
    forall c ensures c in types <==> exists s :: s in services && s.name in selected && s.category == c {
      if c in types {
        var i :| 0 <= i < |types| && types[i] == c;
        var k :| 0 <= k < |cats| && cats[k] == c;
        assert chosen[k] in chosen;
      }
      if exists s :: s in services && s.name in selected && s.category == c {
        var s :| s in services && s.name in selected && s.category == c;
        var k :| 0 <= k < |chosen| && chosen[k] == s;
        assert cats[k] == c;
      }
    }
  }

  /** A trimmed piece of the pincode field holds no comma and no whitespace at either end. */
  lemma TrimmedPiece(piece: string)
    requires ',' !in piece
    ensures ',' !in Trim(piece)
    ensures Trim(piece) != "" ==> !IsJsSpace(Trim(piece)[0]) && !IsJsSpace(Trim(piece)[|Trim(piece)| - 1])
  {
    TrimKeepsMiddle(piece);
    var r := Trim(piece);
    var i := |piece| - |TrimStart(piece)|;
    forall k | 0 <= k < |r| ensures r[k] != ',' {
      assert r[k] == piece[i + k];
    }
  }

  /** The submitted record carries the chosen names as they are, the form's text fields, and one
      pincode per comma-separated piece (one more than there are commas), each the trimmed piece,
      holding no comma and not starting or ending with whitespace. */
  lemma FormattedDataFields(form: Form, services: seq<Service>, selected: seq<string>)
    ensures var r := FormattedData(form, services, selected);
      var pieces := Split(form.pincodes, ',');
      && r.services == selected
      && r.name == form.name && r.email == form.email && r.password == form.password
      && |r.pincodes| == CountChar(form.pincodes, ',') + 1
      && (forall k :: 0 <= k < |r.pincodes| ==> r.pincodes[k] == Trim(pieces[k]) && ',' !in r.pincodes[k])
      && (forall k :: 0 <= k < |r.pincodes| && r.pincodes[k] != "" ==>
            !IsJsSpace(r.pincodes[k][0]) && !IsJsSpace(r.pincodes[k][|r.pincodes[k]| - 1]))
  {
    var pieces := Split(form.pincodes, ',');
    forall k | 0 <= k < |pieces| ensures ',' !in Trim(pieces[k]) {
      TrimmedPiece(pieces[k]);
    }
    forall k | 0 <= k < |pieces| && Trim(pieces[k]) != ""
      ensures !IsJsSpace(Trim(pieces[k])[0]) && !IsJsSpace(Trim(pieces[k])[|Trim(pieces[k])| - 1])
    {
      TrimmedPiece(pieces[k]);
    }
  }
}
