# Around: account and post-pipeline model

A Dafny model of the decision logic of Around, a location-aware check-in
service written in Go. Two parts are modelled:

- **Accounts** (`user.go`). This covers the username pattern `^[a-z0-9_]+$`
  and `checkUser`, the credential check behind login. It also covers `addUser`,
  the check-then-insert behind signup. The signup and login handlers are
  modelled as pure functions over a credential store. So are the claims a
  successful login puts into its token: `username`, and `exp` = now + 24 h in
  Unix seconds, as in section 4.1.4 of RFC 7519.
- **Post pipeline** (`main.go`). `handlerPost` builds the post and mints one id.
  It requires the `image` file and uploads it with `saveToGCS`. Then it stamps
  the media link onto the post, indexes it with `saveToES`, and writes the
  column row with `saveToBigTable`. `handlerSearch` builds the radius string
  and the geo-distance query, then collects the hits.

Every store is an immutable map. The credential store and the post documents
are maps from document id to record. The image bucket maps object name to
object, and the table maps row key to cells. Every store call is an abstract
step, and whether it succeeds is an explicit input. The same goes for the
minted uuid, the clock, and float formatting. Coordinates are opaque 64-bit
patterns. A Go `panic` inside a handler abandons that request. Here it is an
`Aborted` outcome, or `None` from a store helper.

Modules: `Wrappers` (Option), `Accounts`, `Posts` (shared records and
constants), `BlobStore` (`saveToGCS`), `ColumnStore` (`saveToBigTable`),
`Ingest` (`saveToES`, `handlerPost`), `Search` (`handlerSearch`).

Behaviour of the code worth noting:

- The `image` file is mandatory. Without it `handlerPost` panics before any
  store is touched, so there is no "post without media" path.
- `handlerPost` writes no response body on success.
- The index-write and row-write failures panic; there is no partial-failure
  result. Because the index failure panics, the row write never happens after it.
- A store error during login gives the same 403 as a wrong password. A store
  error during signup gives the same 500 as a duplicate username.
- In `saveToGCS`, a failure of the final object-attributes call does not
  return an error. The code prints `attrs.MediaLink` first, and `attrs` is nil
  then, so the call panics (`NilAttrsPanic`). The handler aborts either way. By
  then the object is already stored and public-read.
- An ACL failure leaves the object in the bucket, because the object exists
  once its writer is closed. Its visibility is then the bucket's default
  object ACL, which the code never sets; the model takes it as an input.

## Model

| member | source | states |
|---|---|---|
| Accounts.UsernamePattern | user.go:26 | true exactly when the name is non-empty and every character is in a–z, 0–9 or `_` |
| Accounts.TermQuery | user.go:45-51 | at most one hit, every hit carries the queried username, and a hit exists exactly when the record filed under that name carries it |
| Accounts.TermQueryFindsEveryMatch | user.go:97-103 | on a store whose records are filed under their own username (as addUser files them), any record with that username is the query's only hit |
| Accounts.CheckUser | user.go:37-66 | true exactly when the client and query calls succeed and the matching record has both the given username and the given password; no match or any store error gives false |
| Accounts.AddUser | user.go:70-109 | added exactly when all three store calls succeed and no record with that username is found; on refusal the store is unchanged; on success the record is filed under its username and no other record changes |
| Accounts.AddUserInsertsFresh | user.go:92-108 | on a store keyed by username, a successful add was for an absent name, grows the store by exactly one, and keeps it keyed by username |
| Accounts.AddUserRejectsDuplicate | user.go:79-95 | an existing record with the same username makes addUser return false and leave the store unchanged |
| Accounts.SignupStatus | user.go:120-134 | a created account answers 200; both failure replies answer 500 |
| Accounts.Signup | user.go:120-134 | rejected without touching the store exactly when username or password is empty or the pattern fails; created exactly when the guard passes and addUser succeeds, with the store then holding the new record; otherwise the store is unchanged |
| Accounts.LoginStatus | user.go:164-167 | a token is answered with 200, a refusal with 403 |
| Accounts.Login | user.go:151-168 | a token is issued exactly when checkUser accepts; its `username` claim is the input name and its `exp` claim is now + 86400 |
| Accounts.SignupThenLogin | user.go:57-108 | after a successful signup, login with the same credentials issues a token for that username expiring 24 h later, since the write is refreshed immediately |
| Accounts.SignupTwiceRefused | user.go:79-95 | a second signup with the same username and a non-empty password is refused as a failed add and changes nothing |
| Accounts.LoginFailuresLookAlike | user.go:151-168 | an unknown username and a wrong password both get 403 and no token |
| Posts.NewPost | main.go:174-181 | the built post carries the given user, message and coordinates and an empty URL |
| BlobStore.FirstFailure | main.go:223-261 | the index of the first failing call: every earlier call succeeds and the one there fails |
| BlobStore.SaveToGcs | main.go:220-265 | calls run in the fixed order client, bucket check, copy, close, ACL, attributes; the calls made are a prefix ending at the first failure; success exactly when all succeed, after all six calls, with a public object holding the image under the name and the store's media link; an object that was not public becomes public (when the bucket default is private) only if copy, close and the ACL call succeeded; a failure before close leaves the bucket unchanged; an ACL failure leaves the written object with the bucket's default visibility and a failing attributes call leaves it public-read; no other object changes |
| BlobStore.UploadStopsAtFirstFailure | main.go:223-261 | the number of calls made is the number of leading successful calls plus the failing one |
| ColumnStore.PostMutation | main.go:281-289 | exactly four cells, `post:user`, `post:message`, `location:lat`, `location:lon`, pairwise distinct, all with one shared timestamp |
| ColumnStore.PostRowReadsBack | main.go:283-292 | reading the four columns of a row after the mutation returns the author, the message and the formatted coordinates, when no cell already in the row is newer than the mutation's timestamp |
| ColumnStore.Apply | main.go:292 | the mutation's cells are appended to the row under that key and every other row is untouched |
| ColumnStore.SaveToBigTable | main.go:267-299 | the row is written exactly when the client and apply calls succeed; a failure (a panic in the source) writes nothing |
| Ingest.SaveToEs | main.go:302-321 | the post is indexed under the given id exactly when the client and index calls succeed, and no other document changes |
| Ingest.HandlePost | main.go:151-216 | the post carries the token's user and the form's message and coordinates; no image aborts with every store unchanged; an upload failure leaves index and table unchanged and the URL empty, leaves the bucket exactly as the upload left it, and before the close leaves every store unchanged; once the upload succeeded the post (indexed or not) carries the media link; an index failure leaves index and table unchanged; a row failure leaves the post indexed under the id with no row; after an index failure, a row failure or a failing attributes call the uploaded image stays in the bucket, public-read, under the id; the table changes only on full success; on success the URL is the media link and one id is the object name, the document id and the row key; no other key changes in any store |
| Ingest.CompletedRowReadsBack | main.go:183-215 | after a completed submission under a fresh id, the post's row reads back the token's user, the form's message and the formatted coordinates |
| Search.RangeString | main.go:333-336 | "200km" for an empty parameter; otherwise the parameter followed by "km", unchecked |
| Search.CollectPosts | main.go:367-379 | one post per hit, in the index's order, nothing dropped or reordered |
| Search.HandleSearch | main.go:324-363 | the query is on field "location" with the derived distance and the given centre; posts are returned exactly when the client and the query succeed, one per hit in order |
| Search.SubmittedPostIsFound | main.go:308-314 | after a completed submission, a hit for the new id carries the submitted post, author, message and media link, because the index write is refreshed immediately |

## Left out

- `ml.go`: a network client to a remote prediction service. It is not part of the account or post logic.
- `main()` startup: the index-existence check, the mapping creation, router and middleware wiring, and the listener. This is plumbing with no decisions about requests.
- JWT signing (HS256) and the validating middleware are library code. Only the claim values are modelled, not token expiry checks.
- Query semantics of the search index, the bucket and the table: the term query is the record filed under the name, and the geo-distance query is an oracle returning hits.
- Reads of the table are not part of the source: the model reads a column as its cell with the newest timestamp, a tie going to the later write, which is how the read-back lemmas are stated.
- Accounts.TermQuery: a record filed under an id other than its own username is not seen by the modelled term query. The index would find it by its `username` field. `addUser` never files records that way, as `AddUserInsertsFresh` shows.
- Float parsing and formatting: `ParseFloat` with its default of 0 on error, and `FormatFloat`. Coordinates arrive already parsed, and formatting is a parameter.
- Decoding of search hits into posts is library reflection. Hits arrive as decoded posts.
- HTTP headers, CORS, status text, JSON body decoding (which panics on a malformed body), multipart parsing, logging, and `defer file.Close()`.
- The signup check-then-insert race under concurrent requests. The model is sequential.
- The response body of `handlerSearch` (JSON marshalling of the collected posts).
