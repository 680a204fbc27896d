/**
 * The three POST handlers of the items API, as functions from the store before the
 * request to the store after it and the response:
 *   POST /lost             report a lost item
 *   POST /found            report a found item (with a verification question and answer)
 *   POST /found/:id/claim  claim a found item by answering its question
 */
module Items {
  import opened Wrappers
  import opened Answers
  import opened Records
  import opened Listing

  const MissingLostFields :=
    "Missing required fields: title, description, category, location, contact_email"
  const MissingFoundFields :=
    "Missing required fields: title, description, category, location, contact_email, verification_question, verification_answer"
  const MissingClaimFields := "Missing required fields: claimer_email, answer"
  const FoundItemNotFound := "Found item not found"
  const AlreadyClaimed := "This item has already been claimed"
  const IncorrectAnswer := "Incorrect verification answer. Please try again."
  const ClaimSuccessMessage :=
    "Verification successful! Contact the finder to arrange the return of your item."

  // ---------------------------------------------------------------------------
  // Validation

  predicate LostFieldsPresent(body: LostReport) {
    Truthy(body.title) && Truthy(body.description) && Truthy(body.category) &&
    Truthy(body.location) && Truthy(body.contactEmail)
  }

  predicate FoundFieldsPresent(body: FoundReport) {
    Truthy(body.title) && Truthy(body.description) && Truthy(body.category) &&
    Truthy(body.location) && Truthy(body.contactEmail) &&
    Truthy(body.verificationQuestion) && Truthy(body.verificationAnswer)
  }

  predicate ClaimFieldsPresent(req: ClaimRequest) {
    Truthy(req.claimerEmail) && Truthy(req.answer)
  }

  /** `reward_amount`: kept when it is a JSON number, 0 otherwise (any number is kept,
      negative ones included). */
  function RewardAmount(v: Option<JsonValue>): real {
    match v
    case Some(Number(n)) => n
    case _ => 0.0
  }

  /** `reward_description`: kept when truthy, null otherwise. */
  function RewardDescription(v: Option<string>): Option<string> {
    if Truthy(v) then v else None
  }

  // ---------------------------------------------------------------------------
  // POST /lost

  /** POST /lost: a 400 that leaves the store alone when a required field is falsy;
      otherwise a new `open` item, numbered by the lost-item counter, appended at the end,
      with that counter advanced by one and nothing else changed. */
  function PostLost(db: Db, body: LostReport, now: int): (out: (Db, Response<LostItem>))
    ensures out.1.Created? || out.1.BadRequest?
    ensures out.1.BadRequest? <==> !LostFieldsPresent(body)
    ensures !LostFieldsPresent(body) ==> out == (db, BadRequest(MissingLostFields))
    ensures LostFieldsPresent(body) ==>
      var item := out.1.body;
      && item.id == db.nextIds.lostItems
      && item.status == Open
      && item.createdAt == now
      && item.title == body.title.value
      && item.description == body.description.value
      && item.category == body.category.value
      && item.location == body.location.value
      && item.contactEmail == body.contactEmail.value
      && item.rewardDescription == RewardDescription(body.rewardDescription)
      && item.rewardAmount == RewardAmount(body.rewardAmount)
      && out.0.lostItems == db.lostItems + [item]
      && out.0.nextIds == db.nextIds.(lostItems := db.nextIds.lostItems + 1)
      && out.0.foundItems == db.foundItems
      && out.0.claims == db.claims
  {
    if !LostFieldsPresent(body) then (db, BadRequest(MissingLostFields))
    else
      var item := LostItem(
        db.nextIds.lostItems,
        body.title.value, body.description.value, body.category.value,
        body.location.value, body.contactEmail.value,
        RewardDescription(body.rewardDescription), RewardAmount(body.rewardAmount),
        Open, now);
      (db.(lostItems := db.lostItems + [item],
           nextIds := db.nextIds.(lostItems := db.nextIds.lostItems + 1)),
       Created(item))
  }

  // ---------------------------------------------------------------------------
  // POST /found

  /** POST /found: a 400 that leaves the store alone when a required field is falsy;
      otherwise a new `unclaimed` item, numbered by the found-item counter, storing the
      normalised answer, appended at the end, with that counter advanced by one and nothing
      else changed. The response is the stored record without its answer. */
  function PostFound(db: Db, body: FoundReport, now: int): (out: (Db, Response<PublicFoundItem>))
    ensures out.1.Created? || out.1.BadRequest?
    ensures out.1.BadRequest? <==> !FoundFieldsPresent(body)
    ensures !FoundFieldsPresent(body) ==> out == (db, BadRequest(MissingFoundFields))
    ensures FoundFieldsPresent(body) ==>
      |out.0.foundItems| == |db.foundItems| + 1 &&
      var item := out.0.foundItems[|db.foundItems|];
      && item.id == db.nextIds.foundItems
      && item.status == Unclaimed
      && item.createdAt == now
      && item.title == body.title.value
      && item.description == body.description.value
      && item.category == body.category.value
      && item.location == body.location.value
      && item.contactEmail == body.contactEmail.value
      && item.verificationQuestion == body.verificationQuestion.value
      && item.verificationAnswer == NormalizeAnswer(body.verificationAnswer.value)
      && out.1 == Created(HideAnswer(item))
      && out.0.foundItems == db.foundItems + [item]
      && out.0.nextIds == db.nextIds.(foundItems := db.nextIds.foundItems + 1)
      && out.0.lostItems == db.lostItems
      && out.0.claims == db.claims
  {
    if !FoundFieldsPresent(body) then (db, BadRequest(MissingFoundFields))
    else
      var item := FoundItem(
        db.nextIds.foundItems,
        body.title.value, body.description.value, body.category.value,
        body.location.value, body.contactEmail.value,
        body.verificationQuestion.value, NormalizeAnswer(body.verificationAnswer.value),
        Unclaimed, now);
      (db.(foundItems := db.foundItems + [item],
           nextIds := db.nextIds.(foundItems := db.nextIds.foundItems + 1)),
       Created(HideAnswer(item)))
  }

  // ---------------------------------------------------------------------------
  // POST /found/:id/claim

  /** `foundItems.find(i => i.id === id)`, as the index of the first match. */
  function FindFound(items: seq<FoundItem>, id: int): (r: Option<nat>)
    ensures r.Some? ==> r.value < |items| && items[r.value].id == id
    ensures r.Some? ==> forall j :: 0 <= j < r.value ==> items[j].id != id
    ensures r.None? ==> forall j :: 0 <= j < |items| ==> items[j].id != id
  {
    if items == [] then None
    else if items[0].id == id then Some(0)
    else
      match FindFound(items[1..], id)
      case None => None
      case Some(k) => Some(k + 1)
  }

  /** The answer check: the submitted answer, normalised, equals the stored one. */
  predicate AnswerMatches(item: FoundItem, answer: string) {
    NormalizeAnswer(answer) == item.verificationAnswer
  }

  /** POST /found/:id/claim. In this order: 400 when the e-mail or answer is falsy, 404
      when no found item has the id, 409 when the item is already claimed; each leaves the
      store alone. Otherwise one claim record is appended (approved exactly when the answer
      matches) and the claim counter advances; a wrong answer gives 403 and changes nothing
      else; a right one marks exactly that item claimed and returns the finder's e-mail. */
  function PostClaim(db: Db, id: int, req: ClaimRequest, now: int): (out: (Db, Response<ClaimApproval>))
    ensures !ClaimFieldsPresent(req) ==> out == (db, BadRequest(MissingClaimFields))
    ensures ClaimFieldsPresent(req) && FindFound(db.foundItems, id).None? ==>
      out == (db, NotFound(FoundItemNotFound))
    ensures ClaimFieldsPresent(req) && FindFound(db.foundItems, id).Some? ==>
      var k := FindFound(db.foundItems, id).value;
      var item := db.foundItems[k];
      (item.status == Claimed ==> out == (db, Conflict(AlreadyClaimed))) &&
      (item.status == Unclaimed ==>
        var correct := AnswerMatches(item, req.answer.value);
        && out.0.claims == db.claims + [Claim(db.nextIds.claims, id, req.claimerEmail.value,
                                              req.answer.value, if correct then Approved else Rejected, now)]
        && out.0.nextIds == db.nextIds.(claims := db.nextIds.claims + 1)
        && out.0.lostItems == db.lostItems
        && (correct ==> out.1 == Ok(ClaimApproval(ClaimSuccessMessage, item.contactEmail))
                        && out.0.foundItems == db.foundItems[k := item.(status := Claimed)])
        && (!correct ==> out.1 == Forbidden(IncorrectAnswer) && out.0.foundItems == db.foundItems))
  {
    if !ClaimFieldsPresent(req) then (db, BadRequest(MissingClaimFields))
    else match FindFound(db.foundItems, id)
      case None => (db, NotFound(FoundItemNotFound))
      case Some(k) =>
        var item := db.foundItems[k];
        if item.status == Claimed then (db, Conflict(AlreadyClaimed))
        else
          var correct := AnswerMatches(item, req.answer.value);
          var claim := Claim(db.nextIds.claims, item.id, req.claimerEmail.value, req.answer.value,
                             if correct then Approved else Rejected, now);
          var db' := db.(claims := db.claims + [claim],
                         nextIds := db.nextIds.(claims := db.nextIds.claims + 1));
          if !correct then (db', Forbidden(IncorrectAnswer))
          else
            (db'.(foundItems := db.foundItems[k := item.(status := Claimed)]),
             Ok(ClaimApproval(ClaimSuccessMessage, item.contactEmail)))
  }

  /** The result of an attempt that passes the three early checks: a proof helper that
      unfolds `PostClaim` for the in-place handler, not a further specification. */
  lemma PostClaimPastChecks(db: Db, id: int, req: ClaimRequest, now: int, k: nat)
    requires ClaimFieldsPresent(req) && FindFound(db.foundItems, id) == Some(k)
    requires db.foundItems[k].status == Unclaimed
    ensures var item := db.foundItems[k];
            var correct := AnswerMatches(item, req.answer.value);
            var claim := Claim(db.nextIds.claims, item.id, req.claimerEmail.value, req.answer.value,
                               if correct then Approved else Rejected, now);
            var db' := db.(claims := db.claims + [claim],
                           nextIds := db.nextIds.(claims := db.nextIds.claims + 1));
            PostClaim(db, id, req, now) ==
              if !correct then (db', Forbidden(IncorrectAnswer))
              else (db'.(foundItems := db.foundItems[k := item.(status := Claimed)]),
                    Ok(ClaimApproval(ClaimSuccessMessage, item.contactEmail)))
  {
  }

}
