/**
 * The loaded store object and the POST handlers that change it in place: they
 * post-increment a counter in `nextIds`, push a record onto a collection and, on a
 * successful claim, set the found item's status to `claimed`. Each handler is proved to
 * leave the store and return the response that the Items functions describe, and to keep
 * the Lifecycle invariant.
 */
module ItemStore {
  import opened Wrappers
  import opened Answers
  import opened Records
  import opened Listing
  import opened Items
  import opened Lifecycle

  class Store {
    var lostItems: seq<LostItem>
    var foundItems: seq<FoundItem>
    var claims: seq<Claim>
    var nextIds: NextIds

    /** The store document these fields hold. */
    function Snapshot(): Db
      reads this
    {
      Db(lostItems, foundItems, claims, nextIds)
    }

    /** The store of a fresh start. */
    constructor ()
      ensures Snapshot() == EmptyStore
      ensures Consistent(Snapshot())
    {
      lostItems, foundItems, claims := [], [], [];
      nextIds := NextIds(1, 1, 1);
      EmptyStoreConsistent();
    }

    /** POST /lost */
    method ReportLost(body: LostReport, now: int) returns (r: Response<LostItem>)
      modifies this
      ensures (Snapshot(), r) == PostLost(old(Snapshot()), body, now)
      ensures old(Consistent(Snapshot())) ==> Consistent(Snapshot())
    {
      ghost var before := Snapshot();
      if !(Truthy(body.title) && Truthy(body.description) && Truthy(body.category) &&
           Truthy(body.location) && Truthy(body.contactEmail)) {
        return BadRequest(MissingLostFields);
      }
      var id := nextIds.lostItems;
      nextIds := nextIds.(lostItems := id + 1);
      var item := LostItem(
        id,
        body.title.value, body.description.value, body.category.value,
        body.location.value, body.contactEmail.value,
        RewardDescription(body.rewardDescription), RewardAmount(body.rewardAmount),
        Open, now);
      lostItems := lostItems + [item];
      r := Created(item);
      assert (Snapshot(), r) == PostLost(before, body, now);
      KeepsConsistent(before, Request.ReportLost(body, now));
    }

    /** POST /found */
    method ReportFound(body: FoundReport, now: int) returns (r: Response<PublicFoundItem>)
      modifies this
      ensures (Snapshot(), r) == PostFound(old(Snapshot()), body, now)
      ensures old(Consistent(Snapshot())) ==> Consistent(Snapshot())
    {
      ghost var before := Snapshot();
      if !(Truthy(body.title) && Truthy(body.description) && Truthy(body.category) &&
           Truthy(body.location) && Truthy(body.contactEmail) &&
           Truthy(body.verificationQuestion) && Truthy(body.verificationAnswer)) {
        return BadRequest(MissingFoundFields);
      }
      var id := nextIds.foundItems;
      nextIds := nextIds.(foundItems := id + 1);
      var item := FoundItem(
        id,
        body.title.value, body.description.value, body.category.value,
        body.location.value, body.contactEmail.value,
        body.verificationQuestion.value, NormalizeAnswer(body.verificationAnswer.value),
        Unclaimed, now);
      foundItems := foundItems + [item];
      r := Created(HideAnswer(item));
      assert (Snapshot(), r) == PostFound(before, body, now);
      KeepsConsistent(before, Request.ReportFound(body, now));
    }

    /** `foundItems.find(i => i.id === id)`: a linear search from the front. */
    method Find(id: int) returns (k: Option<nat>)
      ensures k == FindFound(foundItems, id)
    {
      var i := 0;
      while i < |foundItems|
        invariant 0 <= i <= |foundItems|
        invariant forall j :: 0 <= j < i ==> foundItems[j].id != id
      {
        if foundItems[i].id == id {
          FindFoundFirst(foundItems, id, i);
          return Some(i);
        }
        i := i + 1;
      }
      k := None;
    }

    /** POST /found/:id/claim */
    method ClaimFoundItem(id: int, req: ClaimRequest, now: int) returns (r: Response<ClaimApproval>)
      modifies this
      ensures (Snapshot(), r) == PostClaim(old(Snapshot()), id, req, now)
      ensures old(Consistent(Snapshot())) ==> Consistent(Snapshot())
    {
      ghost var before := Snapshot();
      KeepsConsistent(before, ClaimFound(id, req, now));
      r := Attempt(id, req, now);
    }

    /** The claim handler's steps, from validation to the status change. */
    method Attempt(id: int, req: ClaimRequest, now: int) returns (r: Response<ClaimApproval>)
      modifies this
      ensures (Snapshot(), r) == PostClaim(old(Snapshot()), id, req, now)
    {
      ghost var before := Snapshot();
      if !(Truthy(req.claimerEmail) && Truthy(req.answer)) {
        assert PostClaim(before, id, req, now) == (before, BadRequest(MissingClaimFields));
        return BadRequest(MissingClaimFields);
      }
      var found := Find(id);
      assert found == FindFound(before.foundItems, id);
      if found.None? {
        assert PostClaim(before, id, req, now) == (before, NotFound(FoundItemNotFound));
        return NotFound(FoundItemNotFound);
      }
      var k := found.value;
      var item := foundItems[k];
      if item.status == Claimed {
        assert PostClaim(before, id, req, now) == (before, Conflict(AlreadyClaimed));
        return Conflict(AlreadyClaimed);
      }
      var correct := NormalizeAnswer(req.answer.value) == item.verificationAnswer;
      var claim := Claim(nextIds.claims, item.id, req.claimerEmail.value, req.answer.value,
                         if correct then Approved else Rejected, now);
      nextIds := nextIds.(claims := nextIds.claims + 1);
      claims := claims + [claim];
      if !correct {
        r := Forbidden(IncorrectAnswer);
      } else {
        foundItems := foundItems[k := item.(status := Claimed)];
        r := Ok(ClaimApproval(ClaimSuccessMessage, item.contactEmail));
      }
      PostClaimPastChecks(before, id, req, now, k);
    }
  }

}
