# Campus Reconnect: items API, modelled in Dafny

Campus Reconnect is a lost-and-found board. People report lost items and found items.
They browse both lists. They claim a found item by answering the question its finder set.
This project models the items API (`routes/items.js`) over an in-memory store document:
`lostItems`, `foundItems`, `claims` and one id counter per collection in `nextIds`,
starting from the empty store of `db.js`.

Modules:

- `Answers` (answers.dfy): `normalizeAnswer`, which trims and then lower-cases. It
  contains ECMAScript `trim`, ASCII lower-casing, idempotence, and the proof that answers
  differing only in case and surrounding whitespace are judged equal.
- `Records` (records.dfy): the records, the store document `Db`, request bodies, and
  HTTP responses (200/201/400/403/404/409).
- `Listing` (listing.dfy): the two GET handlers. They use a stable newest-first
  insertion sort, and the found listing removes the verification answer.
- `Items` (items.dfy): the three POST handlers as pure functions from the store and the
  request to the new store and the response.
- `Lifecycle` (lifecycle.dfy): the store invariant and the lemmas about request sequences.
  The invariant says ids are fresh, every claim names a found item, an item is claimed
  exactly when one approved claim names it, and stored answers are normalised. The
  lemmas say `claimed` is terminal, a second claim gets 409, and a report followed by a
  matching claim discloses the finder's e-mail.
- `ItemStore` (store.dfy): class `Store`. Its handler methods update the fields step by
  step: post-increment a counter, push a record, set `status` to claimed in place. Each
  handler is proved to produce exactly what the `Items` function says and to keep the
  invariant; `Find` and `Attempt`, the steps of the claim handler, are proved against
  `Items.FindFound` and `Items.PostClaim`.

Three behaviours of the code are easy to misread, and the model keeps them as written:

- Required fields are checked for truthiness only. A field made of spaces passes
  validation; it is not trimmed first.
- `reward_amount` is kept whenever it is a JSON number, negative numbers included. Any
  other value becomes 0; the string `"10"` is not parsed.
- The finder's `contact_email` is public before any claim. `GET /found` and the
  `POST /found` 201 body remove only `verification_answer`, so every client sees the
  e-mail of every found item. A successful claim is not the only way to learn it.

## Model

| member | source | states |
|---|---|---|
| Answers.TrimIs | routes/items.js:7 | `trim` returns exactly the infix that has only whitespace before and after it and no whitespace at either end |
| Answers.TrimShape | routes/items.js:7 | conversely, whatever `trim` returns is such an infix of its input |
| Answers.TrimIgnoresPadding | routes/items.js:7 | whitespace added around a string does not change what it trims to |
| Answers.TrimIdempotent | routes/items.js:7 | trimming a trimmed string changes nothing |
| Answers.NormalizeAnswerShape | routes/items.js:6-8 | the normalised answer is no longer than the input, has no whitespace at either end and no upper-case ASCII letter |
| Answers.TrimOfLower | routes/items.js:7 | trimming and lower-casing commute |
| Answers.NormalizeAnswerIdempotent | routes/items.js:6-8 | normalising twice equals normalising once, so a stored normalised answer is a fixed point |
| Answers.NormalizeAnswersAgree | routes/items.js:120 | the claimer's answer matches the finder's when they differ only in ASCII case and in the whitespace around each of them, since both are normalised |
| Answers.NormalizeRedExample | routes/items.js:86 | a finder's " Red " is stored as "red", and the claims "RED" and "red " both normalise to it |
| Answers.NormalizeIgnoresCaseAndPadding | routes/items.js:120 | an answer that differs from another only in ASCII case and surrounding whitespace normalises to the same string, so the claim check accepts it |
| Answers.NormalizeAnswerExample | tests/items.test.js:149-156 | "WHITE DOTS" and "White dots" normalise alike |
| Listing.SortNewestFirstCorrect | routes/items.js:19-21 | the sort returns a permutation of its input, newest first, and records with equal timestamps keep their insertion order |
| Listing.ListLost | routes/items.js:17-23 | GET /lost returns every lost item exactly once (same multiset), newest first, stable on ties |
| Listing.HideAnswer | routes/items.js:61 | the public record keeps every field but the answer: putting the answer back gives the stored record |
| Listing.HideAllSort | routes/items.js:59-61 | removing answers then sorting equals sorting then removing answers |
| Listing.ListFound | routes/items.js:57-63 | GET /found returns every found item exactly once without its answer, newest first, stable on ties |
| Listing.ListFoundShowsContact | routes/items.js:57-63 | the found listing holds, for every found item, a record with its id and its `contact_email`, claimed or not |
| Listing.ListFoundIgnoresAnswers | routes/items.js:57-63 | two stores that differ only in stored answers give identical found listings |
| Items.PostLost | routes/items.js:26-52 | 400 with the store unchanged iff a required field is falsy; otherwise an `open` item is appended with id = the old lost counter, `reward_description` kept when truthy and null otherwise, `reward_amount` kept when it is a JSON number of any sign and 0 otherwise; that counter goes up by one, and found items and claims are untouched |
| Items.PostFound | routes/items.js:66-96 | 400 with the store unchanged iff a required field is falsy; otherwise an `unclaimed` item with the normalised answer is appended with id = the old found counter, that counter goes up by one, the rest is untouched, and the 201 body is the stored record without its answer |
| Items.FindFound | routes/items.js:110 | the search returns the first index holding the id, or none when no item has it |
| Items.PostClaim | routes/items.js:101-145 | in order: 400, 404, 409, each leaving the store unchanged; past them exactly one claim (approved iff the normalised answer matches) is appended and the claim counter goes up by one; a wrong answer gives 403 and changes no item; a right one marks exactly that item claimed and returns its `contact_email` |
| Lifecycle.FindFoundAppend | routes/items.js:90 | pushing a found item does not change where an existing id is found |
| Lifecycle.FindFoundSameIds | routes/items.js:137 | changing an item's status does not change any search result |
| Lifecycle.EmptyStoreConsistent | db.js:6-11 | the empty store satisfies the invariant |
| Lifecycle.PostLostKeepsConsistent | routes/items.js:36-51 | reporting a lost item keeps the invariant, so its id is above every earlier lost id |
| Lifecycle.PostFoundKeepsConsistent | routes/items.js:77-91 | reporting a found item keeps the invariant: fresh id, no claim names it, answer in normal form |
| Lifecycle.AppendFoundKeepsConsistent | routes/items.js:79-90 | appending a fresh unclaimed found item keeps ids fresh, claim references valid and claimed-iff-approved |
| Lifecycle.PostClaimKeepsConsistent | routes/items.js:101-145 | a claim attempt keeps the invariant |
| Lifecycle.ClaimStepKeepsReferences | routes/items.js:122-130 | the recorded claim names an existing found item, and earlier claims still do |
| Lifecycle.ClaimStepKeepsClaimedIffApproved | routes/items.js:127-137 | after an attempt, an item is claimed exactly when an approved claim names it, and no item has two approved claims |
| Lifecycle.RunConsistent | routes/items.js:26-145 | every store built from the empty store by any sequence of POST requests satisfies the invariant, so ids are never reused |
| Lifecycle.ClaimedIsTerminal | routes/items.js:116-118 | no request removes or renumbers a found item, and a claimed item is never changed again |
| Lifecycle.ClaimSucceedsIff | routes/items.js:132-143 | the claim response is 200 and carries the finder's e-mail iff both fields are present, the item exists and is unclaimed, and the normalised answer matches |
| Lifecycle.SecondClaimConflicts | tests/items.test.js:158-164 | after a successful claim, any later claim on the item with both fields gets 409 whatever its answer, and changes nothing |
| Lifecycle.WrongAnswerAllowsRetry | routes/items.js:132-135 | a 403 leaves the item as it was, so a later attempt gets the response it would have got without the failed one |
| Lifecycle.PostFoundFindsNewItem | routes/items.js:79-90 | the id returned by a found report finds the new record |
| Lifecycle.ReportThenClaim | tests/items.test.js:125-156 | reporting a found item and then claiming it with an answer equal up to ASCII case, each side with its own surrounding whitespace, gives 200 with the finder's e-mail |
| ItemStore.Store.constructor | db.js:6-11 | a fresh store is the empty store, with all counters at 1 |
| ItemStore.Store.ReportLost | routes/items.js:26-52 | the in-place handler leaves the store and returns the response given by `Items.PostLost`, and keeps the invariant |
| ItemStore.Store.ReportFound | routes/items.js:66-96 | the in-place handler leaves the store and returns the response given by `Items.PostFound`, and keeps the invariant |
| ItemStore.Store.Find | routes/items.js:110 | the linear search returns `Items.FindFound` of the current found items |
| ItemStore.Store.Attempt | routes/items.js:105-144 | the handler's steps leave the store and return the response given by `Items.PostClaim` |
| ItemStore.Store.ClaimFoundItem | routes/items.js:101-145 | the claim handler matches `Items.PostClaim` and keeps the invariant |

## Left out

- File persistence (`loadStore`/`saveStore` in db.js) is not modelled: no JSON parsing or
  serialisation, and no corrupt-file fallback. The store is an in-memory value, and
  `EmptyStore` is the state a fresh start begins from.
- The clock (`nowIso`, `new Date`) is not modelled. Each handler takes `now` as an integer,
  and the listings sort on that integer instead of a parsed ISO date.
- JavaScript truthiness and `String(...)` on arbitrary JSON are not modelled. A request
  field is an optional string, and it is falsy when absent or empty. A number or boolean
  sent as a required field is outside the model.
- `reward_amount` is a JSON number modelled as a `real`. IEEE-754 rounding is not
  modelled, and neither is overflow: a literal such as `1e400` parses to Infinity, passes
  the number test, and is saved and returned as `null`; the model keeps it as that real.
- `parseInt(req.params.id, 10)` is an integer parameter. A non-numeric id, which
  parses to NaN and matches nothing, is not represented separately.
- Answers.ToLower: folds only the ASCII letters A-Z, because Unicode case mapping
  (`toLowerCase` on other scripts) needs tables that are not modelled. `trim` uses the
  full ECMAScript whitespace set.
- Express routing, the rate limiter and static serving in server.js are not modelled.
  Responses are the `Response` datatype with their status codes and error strings.
- server.ts is not part of this model: it is a separate SQLite prototype whose logic is
  SQL run by an external library.
- public/js/app.js (browser UI and its formatting) is not part of this model.
- Concurrent requests are not modelled. The model serves one request at a time;
  simultaneous claims racing on the same item are outside it.
