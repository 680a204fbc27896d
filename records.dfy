/**
 * The records of the lost-and-found board and the store document that holds them:
 * `{ lostItems, foundItems, claims, nextIds }`, with one id counter per collection.
 * Timestamps (`created_at`) are integers supplied by the caller.
 */
module Records {
  import opened Wrappers

  datatype LostStatus = Open
  datatype FoundStatus = Unclaimed | Claimed
  datatype ClaimStatus = Approved | Rejected

  datatype LostItem = LostItem(
    id: int,
    title: string,
    description: string,
    category: string,
    location: string,
    contactEmail: string,
    rewardDescription: Option<string>,  // None is JSON null
    rewardAmount: real,
    status: LostStatus,
    createdAt: int)

  datatype FoundItem = FoundItem(
    id: int,
    title: string,
    description: string,
    category: string,
    location: string,
    contactEmail: string,
    verificationQuestion: string,
    verificationAnswer: string,  // stored normalised, never sent to a client
    status: FoundStatus,
    createdAt: int)

  /** A found item as it is sent to clients: every field except the verification answer. */
  datatype PublicFoundItem = PublicFoundItem(
    id: int,
    title: string,
    description: string,
    category: string,
    location: string,
    contactEmail: string,
    verificationQuestion: string,
    status: FoundStatus,
    createdAt: int)

  /** The audit record of one claim attempt that got as far as the answer check. */
  datatype Claim = Claim(
    id: int,
    foundItemId: int,
    claimerEmail: string,
    answerGiven: string,  // as submitted, not normalised
    status: ClaimStatus,
    createdAt: int)

  datatype NextIds = NextIds(lostItems: int, foundItems: int, claims: int)

  /** The whole store document. */
  datatype Db = Db(
    lostItems: seq<LostItem>,
    foundItems: seq<FoundItem>,
    claims: seq<Claim>,
    nextIds: NextIds)

  /** The store a missing or unreadable file is replaced by: no records, every counter at 1. */
  const EmptyStore := Db([], [], [], NextIds(1, 1, 1))

  // ---------------------------------------------------------------------------
  // Request bodies

  /** A JSON value sent as `reward_amount`: only its being a number matters. */
  datatype JsonValue = Number(value: real) | Text(text: string) | OtherJson

  datatype LostReport = LostReport(
    title: Option<string>,
    description: Option<string>,
    category: Option<string>,
    location: Option<string>,
    contactEmail: Option<string>,
    rewardDescription: Option<string>,
    rewardAmount: Option<JsonValue>)

  datatype FoundReport = FoundReport(
    title: Option<string>,
    description: Option<string>,
    category: Option<string>,
    location: Option<string>,
    contactEmail: Option<string>,
    verificationQuestion: Option<string>,
    verificationAnswer: Option<string>)

  datatype ClaimRequest = ClaimRequest(claimerEmail: Option<string>, answer: Option<string>)

  /** JavaScript truthiness of a string field: present and not empty. */
  predicate Truthy(field: Option<string>) {
    field.Some? && field.value != ""
  }

  // ---------------------------------------------------------------------------
  // Responses

  /** The body of a successful claim (`success: true` is implied by the constructor). */
  datatype ClaimApproval = ClaimApproval(message: string, finderEmail: string)

  /** An HTTP response: a JSON body on success, `{ error }` otherwise. The status codes
      are 200, 201, 400, 403, 404 and 409, in the order of the constructors. */
  datatype Response<T> =
    | Ok(body: T)
    | Created(body: T)
    | BadRequest(error: string)
    | Forbidden(error: string)
    | NotFound(error: string)
    | Conflict(error: string)

}
