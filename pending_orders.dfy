/**
 * The partner's list of orders waiting to be taken (src/app/api/partner/pending-orders/route.ts):
 * the PENDING orders nobody has accepted, for the services the signed-in partner provides,
 * newest first. The handler only reads, so it is a function of the store and of which read,
 * if any, throws.
 */
module PendingOrders {
  import opened Wrappers
  import opened Text
  import opened Seqs
  import opened Store

  datatype Partner = Partner(id: PartnerId, email: string)

  /** A row of the ServiceProvider table: the partner provides the service. */
  datatype ServiceProvider = ServiceProvider(partnerId: PartnerId, serviceId: ServiceId)

  datatype Reply = Orders(orders: seq<Order>) | Failed(code: int, error: string)

  /** The store read that throws, if any: the partner lookup, or one of the two reads after it
      (the partner's services, the orders). The handler answers any of them with 500. */
  datatype ReadFault = NoReadFault | PartnerReadThrows | LaterReadThrows

  const FetchError: string := "Failed to fetch pending orders"

  /** `serviceProviders.map(sp => sp.serviceId)` for the partner's ServiceProvider rows. */
  function ServiceIdsOf(providers: seq<ServiceProvider>, partnerId: PartnerId): seq<ServiceId>
  {
    Map(Filter(providers, (sp: ServiceProvider) => sp.partnerId == partnerId), (sp: ServiceProvider) => sp.serviceId)
  }

  /** The `where` of the query: one of the services, PENDING, and no partner yet. */
  predicate Claimable(o: Order, serviceIds: seq<ServiceId>)
  {
    o.serviceId in serviceIds && o.status == Pending && o.partnerId.None?
  }

  /** `orderBy: { createdAt: 'desc' }`. */
  predicate NewerOrSame(a: Order, b: Order)
  {
    a.createdAt >= b.createdAt
  }

  /** The claimable orders, newest first. */
  function PendingFor(orders: seq<Order>, serviceIds: seq<ServiceId>): seq<Order>
  {
    assert TotalPreorder(NewerOrSame);
    SortBy(Filter(orders, (o: Order) => Claimable(o, serviceIds)), NewerOrSame)
  }

  /** `GET`, for the signed-in email when there is one. */
  function Get(t: Tables, partners: seq<Partner>, providers: seq<ServiceProvider>, sessionEmail: Option<string>,
               fault: ReadFault): (r: Reply)
    ensures r.Orders? ==> Truthy(sessionEmail) && fault.NoReadFault?
    ensures r.Orders? ==> forall k :: 0 <= k < |r.orders| ==>
      r.orders[k] in t.orders && r.orders[k].status == Pending && r.orders[k].partnerId.None?
    ensures r.Orders? ==> forall i, j :: 0 <= i < j < |r.orders| ==> r.orders[i].createdAt >= r.orders[j].createdAt
  {
    if !Truthy(sessionEmail) then Failed(401, "Unauthorized")
    else if fault.PartnerReadThrows? then Failed(500, FetchError)
    else
      match FindFirst(partners, (p: Partner) => p.email == sessionEmail.value)
      case None => Failed(404, "Partner not found")
      case Some(k) =>
        if fault.LaterReadThrows? then Failed(500, FetchError)
        else
          var serviceIds := ServiceIdsOf(providers, partners[k].id);
          PendingForExactly(t.orders, serviceIds);
          Orders(PendingFor(t.orders, serviceIds))
  }

  /** No session email gives 401; then a failing partner lookup gives 500, an email that is no
      partner's 404, and a failing later read 500. */
  lemma GetRejections(t: Tables, partners: seq<Partner>, providers: seq<ServiceProvider>, sessionEmail: Option<string>,
                      fault: ReadFault)
    ensures !Truthy(sessionEmail) ==> Get(t, partners, providers, sessionEmail, fault) == Failed(401, "Unauthorized")
    ensures Truthy(sessionEmail) && fault.PartnerReadThrows? ==>
      Get(t, partners, providers, sessionEmail, fault) == Failed(500, FetchError)
    ensures Truthy(sessionEmail) && !fault.PartnerReadThrows?
            && (forall k :: 0 <= k < |partners| ==> partners[k].email != sessionEmail.value) ==>
      Get(t, partners, providers, sessionEmail, fault) == Failed(404, "Partner not found")
    ensures Truthy(sessionEmail) && fault.LaterReadThrows?
            && (exists k :: 0 <= k < |partners| && partners[k].email == sessionEmail.value) ==>
      Get(t, partners, providers, sessionEmail, fault) == Failed(500, FetchError)
  {
  }

  /** For a signed-in partner whose reads succeed, the answer is the claimable orders of the
      partner's services, newest first. */
  lemma GetListsPartnersOrders(t: Tables, partners: seq<Partner>, providers: seq<ServiceProvider>,
                               sessionEmail: Option<string>, k: nat)
    requires Truthy(sessionEmail) && k < |partners| && partners[k].email == sessionEmail.value
    requires forall j :: 0 <= j < k ==> partners[j].email != sessionEmail.value
    ensures Get(t, partners, providers, sessionEmail, NoReadFault)
      == Orders(PendingFor(t.orders, ServiceIdsOf(providers, partners[k].id)))
  {
  }

  /** A service id is listed for the partner iff one of the partner's ServiceProvider rows names it. */
  lemma ServiceIdsOfPartner(providers: seq<ServiceProvider>, partnerId: PartnerId, serviceId: ServiceId)
    ensures serviceId in ServiceIdsOf(providers, partnerId) <==> ServiceProvider(partnerId, serviceId) in providers
  {
    var own := Filter(providers, (sp: ServiceProvider) => sp.partnerId == partnerId);
    FilterKeeps(providers, (sp: ServiceProvider) => sp.partnerId == partnerId);
    if serviceId in ServiceIdsOf(providers, partnerId) {
      var k :| 0 <= k < |own| && own[k].serviceId == serviceId;
      assert own[k] in own;
    }
    if ServiceProvider(partnerId, serviceId) in providers {
      var k :| 0 <= k < |own| && own[k] == ServiceProvider(partnerId, serviceId);
      assert ServiceIdsOf(providers, partnerId)[k] == serviceId;
    }
  }

  /** The list holds exactly the claimable orders, each as often as it is stored, newest first. */
  lemma PendingForExactly(orders: seq<Order>, serviceIds: seq<ServiceId>)
    ensures var r := PendingFor(orders, serviceIds);
      && (forall o :: o in r <==> o in orders && Claimable(o, serviceIds))
      && (forall o :: multiset(r)[o] == if Claimable(o, serviceIds) then multiset(orders)[o] else 0)
      && (forall i, j :: 0 <= i < j < |r| ==> r[i].createdAt >= r[j].createdAt)
  {
    var r := PendingFor(orders, serviceIds);
    var kept := Filter(orders, (o: Order) => Claimable(o, serviceIds));
    FilterKeeps(orders, (o: Order) => Claimable(o, serviceIds));
    assert multiset(r) == multiset(kept);
    forall o ensures o in r <==> o in kept {
      assert o in r <==> multiset(r)[o] > 0;
      assert o in kept <==> multiset(kept)[o] > 0;
    }
  }

  /** A partner that provides no service gets an empty list. */
  lemma NoServicesNoOrders(orders: seq<Order>)
    ensures PendingFor(orders, []) == []
  {
    PendingForExactly(orders, []);
  }
}
