/**
 * The service search behind the services page (src/app/services/page.tsx): the active services,
 * narrowed by name and category, most ordered first, and the category slugs generated for the
 * static pages.
 */
module ServicesSearch {
  import opened Wrappers
  import opened Text
  import opened Seqs

  /** A decimal as the store keeps it: `digits` times ten to the power `-scale`. */
  datatype Decimal = Decimal(digits: int, scale: nat)

  function Pow10(n: nat): (p: nat)
    ensures p >= 1
  {
    if n == 0 then 1 else 10 * Pow10(n - 1)
  }

  /** `Decimal.toNumber()`, without the rounding to a double. */
  function ToNumber(d: Decimal): (x: real)
    ensures x * Pow10(d.scale) as real == d.digits as real
  {
    d.digits as real / Pow10(d.scale) as real
  }

  /** A Service row; `category` is the name of its Category value. */
  datatype Service = Service(
    id: string, name: string, description: string, price: int, threshold: Option<Decimal>,
    numberoforders: int, category: string, isActive: bool)

  /** A service as the search returns it: the row with `threshold` as a number. */
  datatype ListedService = ListedService(
    id: string, name: string, description: string, price: int, threshold: Option<real>,
    numberoforders: int, category: string, isActive: bool)

  /** `{ ...service, threshold: service.threshold?.toNumber() }`. */
  function ToListed(s: Service): ListedService
  {
    ListedService(s.id, s.name, s.description, s.price,
                  if s.threshold.Some? then Some(ToNumber(s.threshold.value)) else None,
                  s.numberoforders, s.category, s.isActive)
  }

  /** Whether the category narrows the search: it is non-empty and not "all". */
  predicate NarrowsByCategory(category: string)
  {
    category != "" && category != "all"
  }

  /** The `where` of the search. */
  predicate Matches(s: Service, query: string, category: string)
  {
    && s.isActive
    && (query != "" ==> ContainsIgnoringCase(s.name, query))
    && (NarrowsByCategory(category) ==> s.category == category)
  }

  /** `orderBy: { numberoforders: "desc" }`. */
  predicate MoreOrders(a: Service, b: Service)
  {
    a.numberoforders >= b.numberoforders
  }

  /** The search either answers or throws: the store refuses a category that is not a Category
      value, or the query fails in the store, and the error is rethrown. */
  datatype SearchResult = Found(services: seq<ListedService>) | Threw

  /** `searchServices(query, category)`; `categories` are the values of the Category enum, and
      `storeFails` says whether the query fails in the store for any other reason. */
  function SearchServices(services: seq<Service>, categories: seq<string>, query: string, category: string,
                          storeFails: bool): (r: SearchResult)
    ensures r.Found? ==> !storeFails && |r.services| <= |services|
    ensures r.Found? ==> forall k :: 0 <= k < |r.services| ==>
      r.services[k].isActive && (NarrowsByCategory(category) ==> r.services[k].category == category)
  {
    if (NarrowsByCategory(category) && category !in categories) || storeFails then Threw
    else
      var ranked := Ranked(services, query, category);
      RankedMatches(services, query, category);
      var listed := Map(ranked, ToListed);
      assert forall k :: 0 <= k < |listed| ==> listed[k] == ToListed(ranked[k]);
      Found(listed)
  }

  /** The matching rows, most ordered first. */
  function Ranked(services: seq<Service>, query: string, category: string): seq<Service>
  {
    assert TotalPreorder(MoreOrders);
    SortBy(Filter(services, (s: Service) => Matches(s, query, category)), MoreOrders)
  }

  /** The ranking holds exactly the matching rows, each as often as it is stored, most ordered first. */
  lemma RankedExactly(services: seq<Service>, query: string, category: string)
    ensures var r := Ranked(services, query, category);
      && |r| == Count(services, (s: Service) => Matches(s, query, category))
      && (forall s :: s in r <==> s in services && Matches(s, query, category))
      && (forall i, j :: 0 <= i < j < |r| ==> r[i].numberoforders >= r[j].numberoforders)
  {
    var r := Ranked(services, query, category);
    var kept := Filter(services, (s: Service) => Matches(s, query, category));
    FilterKeeps(services, (s: Service) => Matches(s, query, category));
    assert multiset(r) == multiset(kept);
    assert |r| == |multiset(r)| == |multiset(kept)| == |kept|;
    forall s ensures s in r <==> s in kept {
      assert s in r <==> multiset(r)[s] > 0;
      assert s in kept <==> multiset(kept)[s] > 0;
    }
  }

  /** Every ranked row matches, and there are no more of them than rows. */
  lemma RankedMatches(services: seq<Service>, query: string, category: string)
    ensures var r := Ranked(services, query, category);
      |r| <= |services| && forall k :: 0 <= k < |r| ==> Matches(r[k], query, category)
  {
    var r := Ranked(services, query, category);
    RankedExactly(services, query, category);
    FilterKeeps(services, (s: Service) => Matches(s, query, category));
    forall k | 0 <= k < |r| ensures Matches(r[k], query, category) {
      assert r[k] in r;
    }
  }

  /** Besides a failing store, only a category that narrows the search and is no Category value
      makes the search throw. */
  lemma SearchThrowsIff(services: seq<Service>, categories: seq<string>, query: string, category: string,
                        storeFails: bool)
    ensures SearchServices(services, categories, query, category, storeFails).Threw? <==>
      storeFails || (NarrowsByCategory(category) && category !in categories)
  {
  }

  /** The query filters by name only when it is non-empty, and the category only when it is neither
      empty nor "all", so "all" and "" select alike. */
  lemma FiltersApplyOnlyWhenGiven(s: Service, query: string, category: string)
    ensures Matches(s, "", category) <==> s.isActive && (NarrowsByCategory(category) ==> s.category == category)
    ensures Matches(s, query, "all") <==> Matches(s, query, "")
    ensures Matches(s, query, "") <==> s.isActive && (query != "" ==> Contains(Lower(s.name), Lower(query)))
    ensures Matches(s, query, category) ==> s.isActive
  {
  }

  /** `l` is the conversion of a stored row that matches the search. */
  predicate ListingOfMatch(l: ListedService, services: seq<Service>, query: string, category: string)
  {
    exists s :: s in services && Matches(s, query, category) && l == ToListed(s)
  }

  /** A search lists each matching service once per row, converted, and nothing else, ordered by
      number of orders, most first; every listed service is active and keeps its other fields. */
  lemma SearchExactly(services: seq<Service>, categories: seq<string>, query: string, category: string)
    requires SearchServices(services, categories, query, category, false).Found?
    ensures var r := SearchServices(services, categories, query, category, false).services;
      && |r| == Count(services, (s: Service) => Matches(s, query, category))
      && (forall k :: 0 <= k < |r| ==>
            ListingOfMatch(r[k], services, query, category))
      && (forall s :: s in services && Matches(s, query, category) ==> ToListed(s) in r)
      && (forall i, j :: 0 <= i < j < |r| ==> r[i].numberoforders >= r[j].numberoforders)
      && (forall k :: 0 <= k < |r| ==> r[k].isActive)
  {
    var ranked := Ranked(services, query, category);
    RankedExactly(services, query, category);
    ConvertedExactly(services, query, category, ranked);
    assert SearchServices(services, categories, query, category, false).services == Map(ranked, ToListed);
  }

  /** Converting a ranking of exactly the matching rows lists exactly the converted matching rows,
      in the same order. */
  lemma ConvertedExactly(services: seq<Service>, query: string, category: string, ranked: seq<Service>)
    requires |ranked| == Count(services, (s: Service) => Matches(s, query, category))
    requires forall s :: s in ranked <==> s in services && Matches(s, query, category)
    requires forall i, j :: 0 <= i < j < |ranked| ==> ranked[i].numberoforders >= ranked[j].numberoforders
    ensures var r := Map(ranked, ToListed);
      && |r| == Count(services, (s: Service) => Matches(s, query, category))
      && (forall k :: 0 <= k < |r| ==>
            ListingOfMatch(r[k], services, query, category))
      && (forall s :: s in services && Matches(s, query, category) ==> ToListed(s) in r)
      && (forall i, j :: 0 <= i < j < |r| ==> r[i].numberoforders >= r[j].numberoforders)
      && (forall k :: 0 <= k < |r| ==> r[k].isActive)
  {
    var r := Map(ranked, ToListed);
    forall k | 0 <= k < |r| ensures ListingOfMatch(r[k], services, query, category) {
      assert ranked[k] in ranked;
      assert ranked[k] in services && Matches(ranked[k], query, category) && r[k] == ToListed(ranked[k]);
    }
    forall s | s in services && Matches(s, query, category) ensures ToListed(s) in r {
      var k :| 0 <= k < |ranked| && ranked[k] == s;
      assert r[k] == ToListed(s);
    }
    forall i, j | 0 <= i < j < |r| ensures r[i].numberoforders >= r[j].numberoforders {
      assert r[i] == ToListed(ranked[i]) && r[j] == ToListed(ranked[j]);
    }
    forall k | 0 <= k < |r| ensures r[k].isActive {
      assert ranked[k] in ranked;
    }
  }

  /** The number `threshold` becomes is the decimal's value, and every other field is copied. */
  lemma ListedKeepsFields(s: Service)
    ensures var l := ToListed(s);
      && l.id == s.id && l.name == s.name && l.description == s.description && l.price == s.price
      && l.numberoforders == s.numberoforders && l.category == s.category && l.isActive == s.isActive
      && (l.threshold.Some? <==> s.threshold.Some?)
      && (s.threshold.Some? ==> l.threshold.value * Pow10(s.threshold.value.scale) as real == s.threshold.value.digits as real)
  {
  }

  datatype StaticParam = StaticParam(category: string)

  /** `generateStaticParams`: one entry per Category value, lower-cased. */
  function GenerateStaticParams(categories: seq<string>): (r: seq<StaticParam>)
    ensures |r| == |categories|
    ensures forall k :: 0 <= k < |r| ==> |r[k].category| == |categories[k]|
    ensures forall k, i :: 0 <= k < |r| && 0 <= i < |r[k].category| ==> !('A' <= r[k].category[i] <= 'Z')
  {
    Map(categories, (c: string) => StaticParam(Lower(c)))
  }

  /** One entry per category value in enum order, each the value lower-cased and therefore
      unchanged by lower-casing again. */
  lemma StaticParamsPerCategory(categories: seq<string>)
    ensures var r := GenerateStaticParams(categories);
      && |r| == |categories|
      && (forall k :: 0 <= k < |r| ==> r[k].category == Lower(categories[k]) && Lower(r[k].category) == r[k].category)
  {
    forall k | 0 <= k < |categories| ensures Lower(Lower(categories[k])) == Lower(categories[k]) {
      LowerIdempotent(categories[k]);
    }
  }
}
