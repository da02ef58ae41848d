/**
 * The admin view of services partners asked for
 * (src/app/api/admin/services/partner-requested-services/route.ts): listing the PENDING
 * requests, newest id first, and setting the status of one request. Whether the store call
 * throws is an input; the handlers catch it and answer 500.
 */
module PartnerRequestedServices {
  import opened Wrappers
  import opened Text
  import opened Seqs
  import opened Store

  const ValidStatuses: seq<string> := ["PENDING", "CANCELLED", "COMPLETED"]

  /** `ORDER BY id DESC`, ids compared by code point. */
  predicate IdDescending(a: PartnerRequest, b: PartnerRequest)
  {
    LexLessEq(b.id, a.id)
  }

  lemma IdDescendingIsTotalPreorder()
    ensures TotalPreorder(IdDescending)
  {
    forall a: PartnerRequest, b: PartnerRequest ensures IdDescending(a, b) || IdDescending(b, a) {
      LexTotal(a.id, b.id);
    }
    forall a: PartnerRequest, b: PartnerRequest, c: PartnerRequest | IdDescending(a, b) && IdDescending(b, c)
      ensures IdDescending(a, c)
    {
      LexTransitive(c.id, b.id, a.id);
    }
  }

  /** The rows of `SELECT ... WHERE status = 'PENDING' ORDER BY id DESC`. */
  function PendingRequests(requests: seq<PartnerRequest>): seq<PartnerRequest>
  {
    IdDescendingIsTotalPreorder();
    SortBy(Filter(requests, (r: PartnerRequest) => r.status == "PENDING"), IdDescending)
  }

  datatype ListReply = Listed(requests: seq<PartnerRequest>) | ListFailed(code: int, error: string)

  /** `GET`: the PENDING requests, highest id first, or 500 when the query throws. */
  function Get(requests: seq<PartnerRequest>, queryFails: bool): (r: ListReply)
    ensures r.Listed? <==> !queryFails
    ensures r.ListFailed? ==> r == ListFailed(500, "Failed to fetch services")
    ensures r.Listed? ==> forall k :: 0 <= k < |r.requests| ==>
      r.requests[k] in requests && r.requests[k].status == "PENDING"
    ensures r.Listed? ==> |r.requests| <= |requests|
  {
    if queryFails then ListFailed(500, "Failed to fetch services")
    else
      GetListsPending(requests);
      Listed(PendingRequests(requests))
  }

  /** The query lists exactly the PENDING requests, each as often as it is stored, by descending id. */
  lemma GetListsPending(requests: seq<PartnerRequest>)
    ensures |PendingRequests(requests)| <= |requests|
    ensures var r := PendingRequests(requests);
      && (forall x :: x in r <==> x in requests && x.status == "PENDING")
      && (forall x :: multiset(r)[x] == if x.status == "PENDING" then multiset(requests)[x] else 0)
      && (forall i, j :: 0 <= i < j < |r| ==> LexLessEq(r[j].id, r[i].id))
  {
    var r := PendingRequests(requests);
    var kept := Filter(requests, (x: PartnerRequest) => x.status == "PENDING");
    FilterKeeps(requests, (x: PartnerRequest) => x.status == "PENDING");
    assert multiset(r) == multiset(kept);
    assert |r| == |multiset(r)| == |multiset(kept)| == |kept|;
    forall x ensures x in r <==> x in kept {
      assert x in r <==> multiset(r)[x] > 0;
      assert x in kept <==> multiset(kept)[x] > 0;
    }
  }

  datatype PatchReply = Updated(request: PartnerRequest) | PatchRejected(code: int, error: string)

  /** `PATCH` with body `{ id, status }`: the answer and the table afterwards. An update of an id
      that no row has throws, and so does an update that fails in the store (`updateFails`); the
      handler answers either with 500. */
  function Patch(requests: seq<PartnerRequest>, id: Option<string>, status: Option<string>, updateFails: bool)
    : (r: (PatchReply, seq<PartnerRequest>))
    ensures |r.1| == |requests|
    ensures r.0.PatchRejected? ==> r.1 == requests
    ensures r.0.Updated? ==> r.0.request in r.1 && r.0.request.status in ValidStatuses && !updateFails
  {
    if !Truthy(id) || !Truthy(status) then (PatchRejected(400, "Missing required fields"), requests)
    else if status.value !in ValidStatuses then (PatchRejected(400, "Invalid status"), requests)
    else
      match FindFirst(requests, (r: PartnerRequest) => r.id == id.value)
      case None => (PatchRejected(500, "Failed to update status"), requests)
      case Some(k) =>
        if updateFails then (PatchRejected(500, "Failed to update status"), requests)
        else
          var updated := requests[k].(status := status.value);
          assert requests[k := updated][k] == updated;
          (Updated(updated), requests[k := updated])
  }

  /** `PATCH` over the database. */
  method PatchStatus(db: Db, id: Option<string>, status: Option<string>, updateFails: bool) returns (reply: PatchReply)
    modifies db
    ensures (reply, db.partnerRequests) == Patch(old(db.partnerRequests), id, status, updateFails)
    ensures db.State() == old(db.State()).(partnerRequests := db.partnerRequests)
  {
    if !Truthy(id) || !Truthy(status) {
      return PatchRejected(400, "Missing required fields");
    }
    if status.value !in ValidStatuses {
      return PatchRejected(400, "Invalid status");
    }
    var found := FindFirst(db.partnerRequests, (r: PartnerRequest) => r.id == id.value);
    if found.None? || updateFails {
      return PatchRejected(500, "Failed to update status");
    }
    var k := found.value;
    var updated := db.partnerRequests[k].(status := status.value);
    db.partnerRequests := db.partnerRequests[k := updated];
    reply := Updated(updated);
  }

  /** A missing field or a status outside PENDING, CANCELLED, COMPLETED is answered 400, an unknown
      id or a failing update 500, and none of them writes. */
  lemma PatchRejections(requests: seq<PartnerRequest>, id: Option<string>, status: Option<string>, updateFails: bool)
    ensures !Truthy(id) || !Truthy(status) ==>
      Patch(requests, id, status, updateFails) == (PatchRejected(400, "Missing required fields"), requests)
    ensures Truthy(id) && Truthy(status) && status.value !in ValidStatuses ==>
      Patch(requests, id, status, updateFails) == (PatchRejected(400, "Invalid status"), requests)
    ensures (&& Truthy(id) && Truthy(status) && status.value in ValidStatuses
             && (updateFails || forall k :: 0 <= k < |requests| ==> requests[k].id != id.value)) ==>
      Patch(requests, id, status, updateFails) == (PatchRejected(500, "Failed to update status"), requests)
  {
  }

  /** A successful `PATCH` changes only the `status` of the request with that id, to a valid
      status, and answers with the updated row. */
  lemma PatchChangesOnlyStatus(requests: seq<PartnerRequest>, id: Option<string>, status: Option<string>)
    requires Patch(requests, id, status, false).0.Updated?
    ensures Truthy(id) && Truthy(status) && status.value in ValidStatuses
    ensures var (reply, after) := Patch(requests, id, status, false);
      && |after| == |requests|
      && (exists k :: 0 <= k < |requests| && requests[k].id == id.value
           && after[k] == requests[k].(status := status.value)
           && reply.request == after[k]
           && (forall j :: 0 <= j < |requests| && j != k ==> after[j] == requests[j]))
  {
    var k := FindFirst(requests, (r: PartnerRequest) => r.id == id.value).value;
    assert requests[k].id == id.value;
  }

  /** After a successful `PATCH` the request is listed by `GET` iff its new status is PENDING. */
  lemma PatchThenGet(requests: seq<PartnerRequest>, id: Option<string>, status: Option<string>)
    requires Patch(requests, id, status, false).0.Updated?
    ensures var (reply, after) := Patch(requests, id, status, false);
      reply.request in Get(after, false).requests <==> status.value == "PENDING"
  {
    PatchChangesOnlyStatus(requests, id, status);
    var (reply, after) := Patch(requests, id, status, false);
    GetListsPending(after);
    var k := FindFirst(requests, (r: PartnerRequest) => r.id == id.value).value;
    assert reply.request == after[k];
  }
}
