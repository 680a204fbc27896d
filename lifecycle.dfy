/**
 * What holds of every store the POST handlers build from the empty store, and how
 * requests relate to each other: ids are never reused, a found item is claimed exactly
 * when one approved claim names it, `claimed` is terminal, and a report followed by a
 * claim with an equivalent answer discloses the finder's e-mail.
 */
module Lifecycle {
  import opened Wrappers
  import opened Answers
  import opened Records
  import opened Items

  // ---------------------------------------------------------------------------
  // The store invariant

  /** Each collection's ids increase strictly in storage order and stay below its counter,
      so a counter value is never handed out twice. */
  ghost predicate LostIdsFresh(db: Db) {
    (forall i :: 0 <= i < |db.lostItems| ==> db.lostItems[i].id < db.nextIds.lostItems) &&
    (forall i, j :: 0 <= i < j < |db.lostItems| ==> db.lostItems[i].id < db.lostItems[j].id)
  }

  ghost predicate FoundIdsFresh(db: Db) {
    (forall i :: 0 <= i < |db.foundItems| ==> db.foundItems[i].id < db.nextIds.foundItems) &&
    (forall i, j :: 0 <= i < j < |db.foundItems| ==> db.foundItems[i].id < db.foundItems[j].id)
  }

  ghost predicate ClaimIdsFresh(db: Db) {
    (forall i :: 0 <= i < |db.claims| ==> db.claims[i].id < db.nextIds.claims) &&
    (forall i, j :: 0 <= i < j < |db.claims| ==> db.claims[i].id < db.claims[j].id)
  }

  /** Every claim names a found item of the store. */
  ghost predicate ClaimsReferenceFoundItems(db: Db) {
    forall i :: 0 <= i < |db.claims| ==> FindFound(db.foundItems, db.claims[i].foundItemId).Some?
  }

  ghost predicate HasApprovedClaim(claims: seq<Claim>, id: int) {
    exists i :: 0 <= i < |claims| && claims[i].status == Approved && claims[i].foundItemId == id
  }

  /** A found item is claimed exactly when an approved claim names it, and no two approved
      claims name the same item. */
  ghost predicate ClaimedIffApproved(db: Db) {
    (forall k :: 0 <= k < |db.foundItems| ==>
       (db.foundItems[k].status == Claimed <==> HasApprovedClaim(db.claims, db.foundItems[k].id))) &&
    (forall i, j :: 0 <= i < j < |db.claims| && db.claims[i].status == Approved && db.claims[j].status == Approved
       ==> db.claims[i].foundItemId != db.claims[j].foundItemId)
  }

  /** Stored answers are in normal form. */
  ghost predicate AnswersNormalized(db: Db) {
    forall k :: 0 <= k < |db.foundItems| ==>
      NormalizeAnswer(db.foundItems[k].verificationAnswer) == db.foundItems[k].verificationAnswer
  }

  ghost predicate Consistent(db: Db) {
    LostIdsFresh(db) && FoundIdsFresh(db) && ClaimIdsFresh(db) &&
    ClaimsReferenceFoundItems(db) && ClaimedIffApproved(db) && AnswersNormalized(db)
  }

  // ---------------------------------------------------------------------------
  // Facts about FindFound

  /** Appending a record does not move an id that is already there. */
  lemma {:induction false} FindFoundAppend(items: seq<FoundItem>, x: FoundItem, id: int)
    requires FindFound(items, id).Some?
    ensures FindFound(items + [x], id) == FindFound(items, id)
  {
    assert (items + [x])[0] == items[0];
    if items[0].id != id {
      assert (items + [x])[1..] == items[1..] + [x];
      FindFoundAppend(items[1..], x, id);
    }
  }

  /** Only the ids matter to the search. */
  lemma {:induction false} FindFoundSameIds(a: seq<FoundItem>, b: seq<FoundItem>, id: int)
    requires |a| == |b| && forall i :: 0 <= i < |a| ==> a[i].id == b[i].id
    ensures FindFound(a, id) == FindFound(b, id)
  {
    if a != [] {
      FindFoundSameIds(a[1..], b[1..], id);
    }
  }

  /** The first index holding the id is what the search returns. */
  lemma FindFoundFirst(items: seq<FoundItem>, id: int, i: nat)
    requires i < |items| && items[i].id == id
    requires forall j :: 0 <= j < i ==> items[j].id != id
    ensures FindFound(items, id) == Some(i)
  {
  }

  /** With strictly increasing ids, the search finds the item at any index. */
  lemma FindFoundUnique(items: seq<FoundItem>, k: nat)
    requires k < |items|
    requires forall i, j :: 0 <= i < j < |items| ==> items[i].id < items[j].id
    ensures FindFound(items, items[k].id) == Some(k)
  {
  }

  // ---------------------------------------------------------------------------
  // Each handler keeps the invariant

  lemma EmptyStoreConsistent()
    ensures Consistent(EmptyStore)
  {
  }

  lemma PostLostKeepsConsistent(db: Db, body: LostReport, now: int)
    requires Consistent(db)
    ensures Consistent(PostLost(db, body, now).0)
  {
  }

  lemma PostFoundKeepsConsistent(db: Db, body: FoundReport, now: int)
    requires Consistent(db)
    ensures Consistent(PostFound(db, body, now).0)
  {
    if FoundFieldsPresent(body) {
      var db' := PostFound(db, body, now).0;
      var item := db'.foundItems[|db.foundItems|];
      assert db'.foundItems == db.foundItems + [item];
      assert db'.claims == db.claims && db'.lostItems == db.lostItems;
      assert item.id == db.nextIds.foundItems && item.status == Unclaimed;
      assert db'.nextIds == db.nextIds.(foundItems := item.id + 1);
      AppendFoundKeepsConsistent(db, db', item);
      assert AnswersNormalized(db') by {
        NormalizeAnswerIdempotent(body.verificationAnswer.value);
      }
    }
  }

  /** Appending a fresh unclaimed found item keeps every part of the invariant except,
      possibly, the normal form of its answer. */
  lemma AppendFoundKeepsConsistent(db: Db, db': Db, item: FoundItem)
    requires Consistent(db)
    requires item.id == db.nextIds.foundItems && item.status == Unclaimed
    requires db' == db.(foundItems := db.foundItems + [item],
                        nextIds := db.nextIds.(foundItems := item.id + 1))
    ensures LostIdsFresh(db') && FoundIdsFresh(db') && ClaimIdsFresh(db')
    ensures ClaimsReferenceFoundItems(db') && ClaimedIffApproved(db')
    ensures forall k :: 0 <= k < |db.foundItems| ==> db'.foundItems[k] == db.foundItems[k]
  {
    forall i | 0 <= i < |db'.claims|
      ensures FindFound(db'.foundItems, db'.claims[i].foundItemId).Some?
    {
      FindFoundAppend(db.foundItems, item, db.claims[i].foundItemId);
    }
    // the new item's id is above every id a claim can name, so no claim names it
    assert !HasApprovedClaim(db.claims, item.id);
  }

  lemma PostClaimKeepsConsistent(db: Db, id: int, req: ClaimRequest, now: int)
    requires Consistent(db)
    ensures Consistent(PostClaim(db, id, req, now).0)
  {
    if ClaimFieldsPresent(req) && FindFound(db.foundItems, id).Some? {
      var k := FindFound(db.foundItems, id).value;
      if db.foundItems[k].status == Unclaimed {
        var correct := AnswerMatches(db.foundItems[k], req.answer.value);
        var claim := Claim(db.nextIds.claims, id, req.claimerEmail.value, req.answer.value,
                           if correct then Approved else Rejected, now);
        PostClaimIsClaimStep(db, id, req, now);
        AppendClaimKeepsConsistent(db, k, claim, correct, PostClaim(db, id, req, now).0);
      }
    }
  }

  /** An attempt that passes the early checks is a ClaimStep. */
  lemma PostClaimIsClaimStep(db: Db, id: int, req: ClaimRequest, now: int)
    requires ClaimFieldsPresent(req) && FindFound(db.foundItems, id).Some?
    requires db.foundItems[FindFound(db.foundItems, id).value].status == Unclaimed
    ensures var k := FindFound(db.foundItems, id).value;
            var correct := AnswerMatches(db.foundItems[k], req.answer.value);
            ClaimStep(db, k, Claim(db.nextIds.claims, id, req.claimerEmail.value, req.answer.value,
                                   if correct then Approved else Rejected, now),
                      correct, PostClaim(db, id, req, now).0)
  {
  }

  /** The store after recording an attempt on unclaimed item `k`, the item being marked
      claimed when the attempt is approved. */
  ghost predicate ClaimStep(db: Db, k: nat, claim: Claim, correct: bool, db': Db) {
    && k < |db.foundItems| && db.foundItems[k].status == Unclaimed
    && claim.id == db.nextIds.claims && claim.foundItemId == db.foundItems[k].id
    && claim.status == (if correct then Approved else Rejected)
    && db' == db.(claims := db.claims + [claim],
                  nextIds := db.nextIds.(claims := claim.id + 1),
                  foundItems := if correct then db.foundItems[k := db.foundItems[k].(status := Claimed)]
                                else db.foundItems)
  }

  lemma AppendClaimKeepsConsistent(db: Db, k: nat, claim: Claim, correct: bool, db': Db)
    requires Consistent(db)
    requires ClaimStep(db, k, claim, correct, db')
    ensures Consistent(db')
  {
    ClaimStepKeepsIds(db, k, claim, correct, db');
    ClaimStepKeepsReferences(db, k, claim, correct, db');
    ClaimStepKeepsClaimedIffApproved(db, k, claim, correct, db');
  }

  lemma ClaimStepKeepsIds(db: Db, k: nat, claim: Claim, correct: bool, db': Db)
    requires LostIdsFresh(db) && FoundIdsFresh(db) && ClaimIdsFresh(db) && AnswersNormalized(db)
    requires ClaimStep(db, k, claim, correct, db')
    ensures LostIdsFresh(db') && FoundIdsFresh(db') && ClaimIdsFresh(db') && AnswersNormalized(db')
  {
    ClaimStepShape(db, k, claim, correct, db');
    SameFoundIdsKeepFresh(db, db');
  }

  /** What a claim step keeps: the lost items, the found items' ids and answers, and the
      earlier claims. */
  lemma ClaimStepShape(db: Db, k: nat, claim: Claim, correct: bool, db': Db)
    requires ClaimStep(db, k, claim, correct, db')
    ensures db'.lostItems == db.lostItems && db'.nextIds.lostItems == db.nextIds.lostItems
    ensures db'.nextIds.foundItems == db.nextIds.foundItems
    ensures SameIdsAndAnswers(db.foundItems, db'.foundItems)
    ensures db'.claims == db.claims + [claim] && db'.nextIds.claims == claim.id + 1
  {
  }

  /** Two found lists that agree on every id and every answer. */
  ghost predicate SameIdsAndAnswers(a: seq<FoundItem>, b: seq<FoundItem>) {
    |a| == |b| &&
    forall i :: 0 <= i < |a| ==> a[i].id == b[i].id && a[i].verificationAnswer == b[i].verificationAnswer
  }

  lemma SameFoundIdsKeepFresh(db: Db, db': Db)
    requires LostIdsFresh(db) && FoundIdsFresh(db) && ClaimIdsFresh(db) && AnswersNormalized(db)
    requires db'.lostItems == db.lostItems && db'.nextIds.lostItems == db.nextIds.lostItems
    requires db'.nextIds.foundItems == db.nextIds.foundItems
    requires SameIdsAndAnswers(db.foundItems, db'.foundItems)
    requires |db'.claims| == |db.claims| + 1 && db'.claims[..|db.claims|] == db.claims
    requires db'.claims[|db.claims|].id == db.nextIds.claims && db'.nextIds.claims == db.nextIds.claims + 1
    ensures LostIdsFresh(db') && FoundIdsFresh(db') && ClaimIdsFresh(db') && AnswersNormalized(db')
  {
    var n := |db.claims|;
    assert forall i :: 0 <= i < n ==> db'.claims[i] == db.claims[i];
  }

  /** Changing a status leaves every search answer alone. */
  lemma ClaimStepKeepsSearch(db: Db, k: nat, claim: Claim, correct: bool, db': Db, id: int)
    requires ClaimStep(db, k, claim, correct, db')
    ensures FindFound(db'.foundItems, id) == FindFound(db.foundItems, id)
  {
    FindFoundSameIds(db.foundItems, db'.foundItems, id);
  }

  lemma ClaimStepKeepsReferences(db: Db, k: nat, claim: Claim, correct: bool, db': Db)
    requires FoundIdsFresh(db) && ClaimsReferenceFoundItems(db)
    requires ClaimStep(db, k, claim, correct, db')
    ensures ClaimsReferenceFoundItems(db')
  {
    var n := |db.claims|;
    forall i | 0 <= i < |db'.claims|
      ensures FindFound(db'.foundItems, db'.claims[i].foundItemId).Some?
    {
      ClaimStepKeepsSearch(db, k, claim, correct, db', db'.claims[i].foundItemId);
      if i == n {
        FindFoundUnique(db.foundItems, k);
      } else {
        assert db'.claims[i] == db.claims[i];
      }
    }
  }

  lemma ClaimStepKeepsClaimedIffApproved(db: Db, k: nat, claim: Claim, correct: bool, db': Db)
    requires FoundIdsFresh(db) && ClaimedIffApproved(db)
    requires ClaimStep(db, k, claim, correct, db')
    ensures ClaimedIffApproved(db')
  {
    var n := |db.claims|;
    var id := claim.foundItemId;
    forall m | 0 <= m < |db'.foundItems|
      ensures db'.foundItems[m].status == Claimed <==> HasApprovedClaim(db'.claims, db'.foundItems[m].id)
    {
      var f := db.foundItems[m];
      assert db'.foundItems[m].id == f.id;
      if HasApprovedClaim(db'.claims, f.id) && !HasApprovedClaim(db.claims, f.id) {
        var i :| 0 <= i < |db'.claims| && db'.claims[i].status == Approved && db'.claims[i].foundItemId == f.id;
        assert i == n;
      }
      if HasApprovedClaim(db.claims, f.id) {
        var i :| 0 <= i < n && db.claims[i].status == Approved && db.claims[i].foundItemId == f.id;
        assert db'.claims[i] == db.claims[i];
      }
      if m != k {
        // ids are distinct, so the new claim does not name f
        assert m < k || k < m;
        assert f.id != id;
      } else if correct {
        assert db'.claims[n].foundItemId == f.id;
      }
    }
    forall i, j | 0 <= i < j < |db'.claims| && db'.claims[i].status == Approved && db'.claims[j].status == Approved
      ensures db'.claims[i].foundItemId != db'.claims[j].foundItemId
    {
      if j == n {
        // the item was unclaimed, so no earlier approved claim names it
        assert !HasApprovedClaim(db.claims, id);
        assert db'.claims[i] == db.claims[i];
      } else {
        assert db'.claims[i] == db.claims[i] && db'.claims[j] == db.claims[j];
      }
    }
  }

  // ---------------------------------------------------------------------------
  // Sequences of requests

  /** A request that changes the store, with the time it is served at. */
  datatype Request =
    | ReportLost(lostBody: LostReport, lostAt: int)
    | ReportFound(foundBody: FoundReport, foundAt: int)
    | ClaimFound(itemId: int, claimBody: ClaimRequest, claimAt: int)

  function Apply(db: Db, r: Request): Db {
    match r
    case ReportLost(body, now) => PostLost(db, body, now).0
    case ReportFound(body, now) => PostFound(db, body, now).0
    case ClaimFound(id, body, now) => PostClaim(db, id, body, now).0
  }

  /** The store after serving `reqs` in order, starting from the empty store. */
  function Run(reqs: seq<Request>): Db {
    if reqs == [] then EmptyStore else Apply(Run(reqs[..|reqs| - 1]), reqs[|reqs| - 1])
  }

  lemma ApplyKeepsConsistent(db: Db, r: Request)
    requires Consistent(db)
    ensures Consistent(Apply(db, r))
  {
    match r
    case ReportLost(body, now) => PostLostKeepsConsistent(db, body, now);
    case ReportFound(body, now) => PostFoundKeepsConsistent(db, body, now);
    case ClaimFound(id, body, now) => PostClaimKeepsConsistent(db, id, body, now);
  }

  /** The same, stated for a store that may not be consistent to begin with: the form the
      Store methods' `old(Consistent(..)) ==> Consistent(..)` clauses need. */
  lemma KeepsConsistent(db: Db, r: Request)
    ensures Consistent(db) ==> Consistent(Apply(db, r))
  {
    if Consistent(db) {
      ApplyKeepsConsistent(db, r);
    }
  }

  /** Every store the handlers can build is consistent. */
  lemma {:induction false} RunConsistent(reqs: seq<Request>)
    ensures Consistent(Run(reqs))
  {
    if reqs == [] {
      EmptyStoreConsistent();
    } else {
      RunConsistent(reqs[..|reqs| - 1]);
      ApplyKeepsConsistent(Run(reqs[..|reqs| - 1]), reqs[|reqs| - 1]);
    }
  }

  /** `claimed` is terminal: a request keeps every found item, and leaves a claimed one
      exactly as it was. */
  lemma ClaimedIsTerminal(db: Db, r: Request, k: nat)
    requires k < |db.foundItems|
    ensures |Apply(db, r).foundItems| >= |db.foundItems|
    ensures Apply(db, r).foundItems[k].id == db.foundItems[k].id
    ensures db.foundItems[k].status == Claimed ==> Apply(db, r).foundItems[k] == db.foundItems[k]
  {
  }

  // ---------------------------------------------------------------------------
  // Claims across requests

  /** Disclosure happens exactly when the fields are present, the item exists and is
      unclaimed, and the normalised answer matches the stored one. */
  lemma ClaimSucceedsIff(db: Db, id: int, req: ClaimRequest, now: int)
    ensures PostClaim(db, id, req, now).1.Ok? <==>
      ClaimFieldsPresent(req) && FindFound(db.foundItems, id).Some? &&
      db.foundItems[FindFound(db.foundItems, id).value].status == Unclaimed &&
      AnswerMatches(db.foundItems[FindFound(db.foundItems, id).value], req.answer.value)
  {
  }

  /** After a successful claim, every further claim on the item with both fields present
      gets 409, whatever its answer, and changes nothing. */
  lemma SecondClaimConflicts(db: Db, id: int, first: ClaimRequest, t1: int, second: ClaimRequest, t2: int)
    requires PostClaim(db, id, first, t1).1.Ok?
    requires ClaimFieldsPresent(second)
    ensures var db1 := PostClaim(db, id, first, t1).0;
            PostClaim(db1, id, second, t2) == (db1, Conflict(AlreadyClaimed))
  {
    var db1 := PostClaim(db, id, first, t1).0;
    FindFoundSameIds(db.foundItems, db1.foundItems, id);
  }

  /** A wrong answer leaves the item as it was: a later attempt is answered exactly as it
      would have been without the failed one. */
  lemma WrongAnswerAllowsRetry(db: Db, id: int, first: ClaimRequest, t1: int, second: ClaimRequest, t2: int)
    requires PostClaim(db, id, first, t1).1.Forbidden?
    ensures PostClaim(PostClaim(db, id, first, t1).0, id, second, t2).1 == PostClaim(db, id, second, t2).1
  {
  }

  /** A newly reported found item is the one its id finds. */
  lemma PostFoundFindsNewItem(db: Db, body: FoundReport, now: int)
    requires FoundIdsFresh(db) && FoundFieldsPresent(body)
    ensures var (db1, created) := PostFound(db, body, now);
            FindFound(db1.foundItems, created.body.id) == Some(|db.foundItems|)
  {
    var (db1, created) := PostFound(db, body, now);
    var n := |db.foundItems|;
    assert forall i :: 0 <= i < n ==> db1.foundItems[i].id < db1.foundItems[n].id;
    FindFoundUnique(db1.foundItems, n);
  }

  /** Reporting a found item and then claiming it with an answer that differs from the
      finder's only in ASCII letter case and in the whitespace around each of them
      succeeds and discloses the finder's e-mail. */
  lemma ReportThenClaim(db: Db, body: FoundReport, t1: int, v1: string, x: string, v2: string,
                        email: string, w1: string, y: string, w2: string, t2: int)
    requires FoundIdsFresh(db)
    requires FoundFieldsPresent(body) && body.verificationAnswer.value == v1 + x + v2
    requires email != [] && w1 + y + w2 != []
    requires AllWhitespace(v1) && AllWhitespace(v2) && AllWhitespace(w1) && AllWhitespace(w2)
    requires ToLower(x) == ToLower(y)
    ensures var (db1, created) := PostFound(db, body, t1);
            PostClaim(db1, created.body.id, ClaimRequest(Some(email), Some(w1 + y + w2)), t2).1
              == Ok(ClaimApproval(ClaimSuccessMessage, body.contactEmail.value))
  {
    PostFoundFindsNewItem(db, body, t1);
    NormalizeAnswersAgree(v1, x, v2, w1, y, w2);
  }

}
