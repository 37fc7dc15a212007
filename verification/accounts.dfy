/**
 * Account logic of the service (user.go): the username pattern, the
 * credential check behind login, the check-then-insert behind signup, and
 * the claims a successful login puts into its bearer token.
 *
 * The credential store is the "user" document type of the search index,
 * seen as a map from document id to record. Every call the source makes to
 * the index (creating a client, running the term query, indexing a record)
 * is an abstract step whose success or failure is an explicit input.
 */
module Accounts {

  /** The account record decoded from the signup or login request body. */
  datatype User = User(username: string, password: string, age: int, gender: string)

  /** The "user" documents of the index, by document id. */
  type CredentialStore = map<string, User>

  /** Outcomes of the store calls one handler makes, in the order it makes them. */
  datatype StoreCalls = StoreCalls(clientOk: bool, queryOk: bool, indexOk: bool)

  /** Seconds a token stays valid: 24 hours. */
  const TokenLifetime: int := 24 * 60 * 60

  /** One character of the class `[a-z0-9_]`. */
  predicate IsUsernameChar(c: char)
  {
    ('a' <= c <= 'z') || ('0' <= c <= '9') || c == '_'
  }

  /**
   * The anchored pattern `^[a-z0-9_]+$`, matched the way the regular
   * expression reads: one character of the class, then the rest.
   */
  function UsernamePattern(s: string): (r: bool)
    ensures r <==> |s| > 0 && forall i :: 0 <= i < |s| ==> IsUsernameChar(s[i])
  {
    |s| > 0 && IsUsernameChar(s[0]) && (|s| == 1 || UsernamePattern(s[1..]))
  }

  /** The guard signup applies before touching the store. */
  predicate ValidSignup(u: User)
  {
    u.username != "" && u.password != "" && UsernamePattern(u.username)
  }

  /** Every record is filed under its own username; signup keeps it so. */
  predicate KeyedByUsername(store: CredentialStore)
  {
    forall k :: k in store ==> store[k].username == k
  }

  /**
   * Hits of the term query `username == name`, in index order. The only
   * record that can match is the one filed under `name`.
   */
  function TermQuery(store: CredentialStore, name: string): (hits: seq<User>)
    ensures |hits| <= 1
    ensures forall i :: 0 <= i < |hits| ==> hits[i].username == name
    ensures |hits| == 1 <==> name in store && store[name].username == name
  {
    if name in store && store[name].username == name then [store[name]] else []
  }

  /** On a store keyed by username, the term query finds every record carrying that username. */
  lemma TermQueryFindsEveryMatch(store: CredentialStore, name: string, k: string)
    requires KeyedByUsername(store)
    requires k in store && store[k].username == name
    ensures TermQuery(store, name) == [store[k]]
  {
  }

  /**
   * checkUser: true only when the client is created, the query runs, and
   * the first hit carries both the given password and the given username.
   */
  function CheckUser(store: CredentialStore, calls: StoreCalls, username: string, password: string): (ok: bool)
    ensures ok <==> calls.clientOk && calls.queryOk
                    && username in store
                    && store[username].username == username
                    && store[username].password == password
  {
    if !calls.clientOk then false
    else if !calls.queryOk then false
    else
      var hits := TermQuery(store, username);
      if |hits| > 0 then hits[0].password == password && hits[0].username == username
      else false
  }

  /** The reply of addUser and the store after it. */
  datatype AddResult = AddResult(added: bool, store: CredentialStore)

  /**
   * addUser: refuse when any store call fails or a record with the same
   * username is found; otherwise index the record under its username with
   * an immediate refresh.
   */
  function AddUser(store: CredentialStore, calls: StoreCalls, u: User): (r: AddResult)
    ensures r.added <==> calls.clientOk && calls.queryOk && calls.indexOk
                         && !(u.username in store && store[u.username].username == u.username)
    ensures !r.added ==> r.store == store
    ensures r.added ==> u.username in r.store && r.store[u.username] == u
    ensures r.added ==> forall k :: k != u.username ==> (k in r.store <==> k in store)
    ensures r.added ==> forall k :: k in store && k != u.username ==> r.store[k] == store[k]
  {
    if !calls.clientOk then AddResult(false, store)
    else if !calls.queryOk then AddResult(false, store)
    else if |TermQuery(store, u.username)| > 0 then AddResult(false, store)
    else if !calls.indexOk then AddResult(false, store)
    else AddResult(true, store[u.username := u])
  }

  /** On a store keyed by username, a successful addUser adds exactly one fresh record and keeps the keying. */
  lemma AddUserInsertsFresh(store: CredentialStore, calls: StoreCalls, u: User)
    requires KeyedByUsername(store)
    requires AddUser(store, calls, u).added
    ensures u.username !in store
    ensures |AddUser(store, calls, u).store| == |store| + 1
    ensures KeyedByUsername(AddUser(store, calls, u).store)
  {
  }

  /** A record with the same username already present makes addUser refuse and leave the store alone. */
  lemma AddUserRejectsDuplicate(store: CredentialStore, calls: StoreCalls, u: User, k: string)
    requires KeyedByUsername(store)
    requires k in store && store[k].username == u.username
    ensures !AddUser(store, calls, u).added
    ensures AddUser(store, calls, u).store == store
  {
  }

  /** What signupHandler answers. */
  datatype SignupReply =
    | Created        // "User added successfully"
    | AddFailed      // 500 "Failed to add a new user"
    | RejectedInput  // 500 "Empty password or username"

  /** The HTTP status each signup reply carries. */
  function SignupStatus(reply: SignupReply): (status: int)
    ensures status == 200 <==> reply == Created
    ensures status != 200 ==> status == 500
  {
    match reply
    case Created => 200
    case AddFailed => 500
    case RejectedInput => 500
  }

  /**
   * signupHandler after the body is decoded: the input guard, then addUser.
   * The store is consulted only when the guard passes.
   */
  function Signup(store: CredentialStore, calls: StoreCalls, u: User): (r: (SignupReply, CredentialStore))
    ensures r.0 == RejectedInput <==> !ValidSignup(u)
    ensures r.0 == RejectedInput ==> r.1 == store
    ensures r.0 == Created <==> ValidSignup(u) && AddUser(store, calls, u).added
    ensures r.0 != Created ==> r.1 == store
    ensures r.0 == Created ==> r.1 == store[u.username := u]
  {
    if ValidSignup(u) then
      var a := AddUser(store, calls, u);
      if a.added then (Created, a.store) else (AddFailed, a.store)
    else (RejectedInput, store)
  }

  /** The claims of a freshly minted token. */
  datatype Claims = Claims(username: string, exp: int)

  /** What loginHandler answers: a signed token, or 403. */
  datatype LoginReply = TokenIssued(claims: Claims) | Forbidden

  function LoginStatus(reply: LoginReply): (status: int)
    ensures status == 200 <==> reply.TokenIssued?
    ensures reply.Forbidden? ==> status == 403
  {
    if reply.TokenIssued? then 200 else 403
  }

  /**
   * loginHandler after the body is decoded: a token is issued exactly when
   * checkUser accepts; its `username` claim is the input name and its `exp`
   * claim is `now` (Unix seconds) plus 24 hours.
   */
  function Login(store: CredentialStore, calls: StoreCalls, username: string, password: string, now: int): (r: LoginReply)
    ensures r.TokenIssued? <==> CheckUser(store, calls, username, password)
    ensures r.TokenIssued? ==> r.claims.username == username
    ensures r.TokenIssued? ==> r.claims.exp - now == 86400
  {
    if CheckUser(store, calls, username, password) then
      TokenIssued(Claims(username, now + TokenLifetime))
    else Forbidden
  }

  /** A signup that succeeds is followed by a login with the same credentials that succeeds. */
  lemma SignupThenLogin(store: CredentialStore, signupCalls: StoreCalls, loginCalls: StoreCalls, u: User, now: int)
    requires Signup(store, signupCalls, u).0 == Created
    requires loginCalls.clientOk && loginCalls.queryOk
    ensures Login(Signup(store, signupCalls, u).1, loginCalls, u.username, u.password, now)
            == TokenIssued(Claims(u.username, now + 86400))
  {
  }

  /** A second signup with the same username is refused and changes nothing. */
  lemma SignupTwiceRefused(store: CredentialStore, first: StoreCalls, second: StoreCalls, u: User, v: User)
    requires Signup(store, first, u).0 == Created
    requires v.username == u.username && v.password != ""
    ensures Signup(Signup(store, first, u).1, second, v).0 == AddFailed
    ensures Signup(Signup(store, first, u).1, second, v).1 == Signup(store, first, u).1
  {
  }

  /** A wrong password and an unknown username get the same answer: 403, no token. */
  lemma LoginFailuresLookAlike(store: CredentialStore, calls: StoreCalls, name: string, password: string, now: int)
    requires name !in store || store[name].password != password
    ensures Login(store, calls, name, password, now) == Forbidden
    ensures LoginStatus(Login(store, calls, name, password, now)) == 403
  {
  }
}
