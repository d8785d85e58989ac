/**
  The credential store: secrets encrypted under data that names their row, and the operations that
  rename rows. The stored tables refine plain tables of cleartexts.
*/
module Credentials {
  import opened Wrappers
  import opened Text
  import opened SecretCrypto

  const SEPARATOR := "::"
  const CANONICAL := "canonical-user:"

  // ----- scoped identities -----

  predicate ClientChar(ch: char) {
    'A' <= ch <= 'Z' || 'a' <= ch <= 'z' || '0' <= ch <= '9' || ch == '.' || ch == '_' || ch == '-'
  }

  predicate ValidClient(client: string) {
    1 <= |client| <= 80 && forall i :: 0 <= i < |client| ==> ClientChar(client[i])
  }

  function ScopeIdentity(client: string, user: string): Result<string, Fault> {
    if !ValidClient(Strip(client)) || Strip(user) == "" then Err(Invalid)
    else Ok(Strip(client) + SEPARATOR + Strip(user))
  }

  /** Position of the first separator. */
  function FirstSeparator(text: string): Option<nat> {
    if |text| < 2 then None
    else if text[..2] == SEPARATOR then Some(0)
    else
      match FirstSeparator(text[1..])
      case None => None
      case Some(i) => Some(i + 1)
  }

  lemma {:induction false} FirstSeparatorBounds(text: string)
    ensures FirstSeparator(text).Some? ==>
              var i := FirstSeparator(text).value; i + 2 <= |text| && text[i..i + 2] == SEPARATOR
  {
    if |text| >= 2 && text[..2] != SEPARATOR {
      FirstSeparatorBounds(text[1..]);
      if FirstSeparator(text[1..]).Some? {
        var i := FirstSeparator(text[1..]).value;
        assert text[1..][i..i + 2] == text[i + 1..i + 3];
      }
    }
  }

  function SplitScoped(value: string): Option<(string, string)> {
    var text := Strip(value);
    FirstSeparatorBounds(text);
    match FirstSeparator(text)
    case None => None
    case Some(i) => if i == 0 || i + 2 == |text| then None else Some((text[..i], text[i + 2..]))
  }

  /** Nothing but the client's own characters stands before its separator. */
  lemma {:induction false} SeparatorAfterClient(client: string, rest: string)
    requires forall i :: 0 <= i < |client| ==> ClientChar(client[i])
    ensures FirstSeparator(client + SEPARATOR + rest) == Some(|client|)
  {
    var text := client + SEPARATOR + rest;
    if client == "" {
      assert text[..2] == SEPARATOR;
    } else {
      assert text[0] == client[0] && text[..2][0] == client[0];
      assert text[1..] == client[1..] + SEPARATOR + rest;
      SeparatorAfterClient(client[1..], rest);
    }
  }

  lemma StripEnds(s: string)
    ensures Strip(s) == "" || (!Whitespace(Strip(s)[0]) && !Whitespace(Strip(s)[|Strip(s)| - 1]))
  {
    StripStartEnd(s);
    StripTailEnds(StripStart(s));
  }

  lemma {:induction false} StripStartEnd(s: string)
    ensures StripStart(s) == "" || !Whitespace(StripStart(s)[0])
  {
    if s != "" && Whitespace(s[0]) {
      StripStartEnd(s[1..]);
    }
  }

  lemma {:induction false} StripTailEnds(s: string)
    requires s == "" || !Whitespace(s[0])
    ensures StripTail(s) == "" || (StripTail(s)[0] == s[0] && !Whitespace(StripTail(s)[|StripTail(s)| - 1]))
    ensures s != "" ==> StripTail(s) != ""
  {
    if s != "" && Whitespace(s[|s| - 1]) {
      StripTailEnds(s[..|s| - 1]);
    }
  }

  /** Stored user names carry no surrounding blanks. */
  predicate Tidy(user: string) { user != "" && Strip(user) == user }

  lemma ClientIsTight(client: string, user: string)
    requires ValidClient(client) && Tidy(user)
    ensures Tidy(client + SEPARATOR + user)
  {
    StripEnds(user);
    StripTight(client + SEPARATOR + user);
  }

  /** Splitting undoes scoping. */
  lemma SplitInvertsScope(client: string, user: string)
    requires ScopeIdentity(client, user).Ok?
    ensures SplitScoped(ScopeIdentity(client, user).value) == Some((Strip(client), Strip(user)))
  {
    var c, u := Strip(client), Strip(user);
    StripEnds(user);
    StripTight(u);
    ClientIsTight(c, u);
    SeparatorAfterClient(c, u);
    var text := c + SEPARATOR + u;
    assert text[..|c|] == c && text[|c| + 2..] == u;
  }

  /** A name scoped to the client, or the client's prefix with an empty user; surrounding blanks are no part of it. */
  predicate BelongsTo(user: string, client: string) {
    Strip(user) == client + SEPARATOR || (SplitScoped(user).Some? && SplitScoped(user).value.0 == client)
  }

  /** The names with a client's prefix are exactly those that belong to it, unless they begin with a blank. */
  lemma PrefixIffScoped(client: string, user: string)
    requires ValidClient(client)
    ensures StartsWith(user, client + SEPARATOR) <==> StripStart(user) == user && BelongsTo(user, client)
  {
    var prefix := client + SEPARATOR;
    if StartsWith(user, prefix) {
      var rest := user[|prefix|..];
      assert user == prefix + rest;
      if Blank(rest) {
        TailOfBlank(prefix, rest);
      } else {
        TailAfterClient(prefix, rest);
        StripTailBlank(rest);
        SeparatorAfterClient(client, StripTail(rest));
        assert Strip(user)[..|client|] == client;
      }
    }
    if StripStart(user) == user && BelongsTo(user, client) {
      OwnHasPrefix(client, user);
    }
  }

  lemma OwnHasPrefix(client: string, user: string)
    requires StripStart(user) == user && BelongsTo(user, client)
    ensures StartsWith(user, client + SEPARATOR)
  {
    var prefix := client + SEPARATOR;
    StripTailIsPrefix(user);
    FirstSeparatorBounds(Strip(user));
    if Strip(user) != prefix {
      var i := FirstSeparator(Strip(user)).value;
      assert Strip(user)[..i + 2] == Strip(user)[..i] + Strip(user)[i..i + 2];
    }
    assert user[..|prefix|] == Strip(user)[..|prefix|];
  }

  lemma {:induction false} StripTailIsPrefix(s: string)
    ensures StripTail(s) <= s
  {
    if s != "" && Whitespace(s[|s| - 1]) {
      StripTailIsPrefix(s[..|s| - 1]);
    }
  }

  lemma {:induction false} TailOfBlank(prefix: string, blank: string)
    requires Blank(blank) && prefix != "" && !Whitespace(prefix[|prefix| - 1])
    ensures StripTail(prefix + blank) == prefix
  {
    var s := prefix + blank;
    if blank == "" {
      assert s == prefix;
    } else {
      assert s[|s| - 1] == blank[|blank| - 1] && s[..|s| - 1] == prefix + blank[..|blank| - 1];
      TailOfBlank(prefix, blank[..|blank| - 1]);
    }
  }

  lemma {:induction false} TailAfterClient(prefix: string, user: string)
    requires !Blank(user)
    ensures StripTail(prefix + user) == prefix + StripTail(user)
  {
    var s := prefix + user;
    assert s[|s| - 1] == user[|user| - 1];
    if Whitespace(user[|user| - 1]) {
      assert s[..|s| - 1] == prefix + user[..|user| - 1];
      TailAfterClient(prefix, user[..|user| - 1]);
    }
  }

  // ----- the tables -----

  datatype CredKey = CredKey(user: string, service: string, account: string)

  datatype Credential = Credential(server: string, username: string, secret: string)

  datatype Flow = Flow(user: string, endpoint: string, token: string, loginUrl: string)

  datatype Session = Session(user: string, server: string, login: string, password: string, csrf: string,
                             active: bool, expires: real)

  datatype User = User(enabled: bool, curation: bool)

  datatype Tables = Tables(credentials: map<CredKey, Credential>, flows: map<string, Flow>, sessions: map<string, Session>,
                           bindings: map<string, string>, clients: set<string>, users: map<string, User>,
                           scopedFor: Option<string>)

  function CredentialAad(k: CredKey): string { "credential|" + k.user + "|" + k.service + "|" + k.account }

  function FlowAad(id: string, user: string): string { "nextcloud-flow|" + id + "|" + user }

  function SessionAad(digest: string, user: string): string { "curation-session|" + digest + "|" + user }

  /** The row an encryption is made for; every encryption of one operation draws its own nonce. */
  datatype RowId = CredentialRow(key: CredKey) | FlowRow(id: string) | SessionRow(digest: string)

  type Nonces = RowId -> nat

  predicate BarFree(s: string) { '|' !in s }

  predicate KeyBarFree(k: CredKey) { BarFree(k.user) && BarFree(k.service) && BarFree(k.account) }

  ghost predicate SharesData(k: CredKey) {
    exists l: CredKey :: l != k && CredentialAad(l) == CredentialAad(k)
  }

  function Bars(s: string): nat {
    if s == "" then 0 else (if s[0] == '|' then 1 else 0) + Bars(s[1..])
  }

  lemma {:induction false} BarsConcat(a: string, b: string)
    ensures Bars(a + b) == Bars(a) + Bars(b)
  {
    if a == "" {
      assert a + b == b;
    } else {
      assert (a + b)[1..] == a[1..] + b;
      BarsConcat(a[1..], b);
    }
  }

  lemma {:induction false} NoBarsIff(s: string)
    ensures Bars(s) == 0 <==> BarFree(s)
  {
    if s != "" {
      NoBarsIff(s[1..]);
      assert s == [s[0]] + s[1..];
    }
  }

  lemma JoinedBars(a: string, b: string, c: string)
    ensures Bars(a + "|" + b + "|" + c) == Bars(a) + Bars(b) + Bars(c) + 2
  {
    BarsConcat(a + "|" + b + "|", c);
    BarsConcat(a + "|" + b, "|");
    BarsConcat(a + "|", b);
    BarsConcat(a, "|");
    assert Bars("|") == 1;
  }

  /** Three parts joined by bars determine the parts as soon as those on one side are free of bars. */
  lemma JoinSeparates(a: string, b: string, c: string, a': string, b': string, c': string)
    requires BarFree(a) && BarFree(b) && BarFree(c)
    requires a + "|" + b + "|" + c == a' + "|" + b' + "|" + c'
    ensures a == a' && b == b' && c == c'
  {
    JoinedBars(a, b, c);
    JoinedBars(a', b', c');
    NoBarsIff(a);
    NoBarsIff(b);
    NoBarsIff(c);
    NoBarsIff(a');
    NoBarsIff(b');
    assert a + "|" + b + "|" + c == a + "|" + (b + "|" + c) && a' + "|" + b' + "|" + c' == a' + "|" + (b' + "|" + c');
    FirstBar(a, b + "|" + c, a', b' + "|" + c');
    FirstBar(b, c, b', c');
  }

  lemma FirstBar(a: string, restA: string, b: string, restB: string)
    requires BarFree(a) && BarFree(b) && a + "|" + restA == b + "|" + restB
    ensures a == b && restA == restB
  {
    var s, t := a + "|" + restA, b + "|" + restB;
    assert s[|a|] == '|' && t[|b|] == '|';
    assert forall i :: 0 <= i < |a| ==> s[i] == a[i] != '|';
    assert forall i :: 0 <= i < |b| ==> t[i] == b[i] != '|';
    assert |a| == |b|;
    assert s[..|a|] == a && t[..|b|] == b && s[|a| + 1..] == restA && t[|b| + 1..] == restB;
  }

  const CREDENTIAL_DATA := "credential|"

  lemma AadOf(k: CredKey)
    ensures CredentialAad(k) == CREDENTIAL_DATA + (k.user + "|" + k.service + "|" + k.account)
    ensures CredentialAad(k)[|CREDENTIAL_DATA|..] == k.user + "|" + k.service + "|" + k.account
  {
  }

  lemma SplitAtBar(s: string) returns (a: string, b: string)
    requires !BarFree(s)
    ensures s == a + "|" + b
  {
    var i :| 0 <= i < |s| && s[i] == '|';
    a, b := s[..i], s[i + 1..];
  }

  /** Another credential row has the same associated data exactly when some part of the key contains a bar. */
  lemma SharesDataIff(k: CredKey)
    ensures SharesData(k) <==> !KeyBarFree(k)
  {
    if KeyBarFree(k) {
      forall l: CredKey | CredentialAad(l) == CredentialAad(k) ensures l == k {
        AadOf(k);
        AadOf(l);
        JoinSeparates(k.user, k.service, k.account, l.user, l.service, l.account);
      }
    } else {
      var l := Confused(k);
      assert l != k && CredentialAad(l) == CredentialAad(k);
    }
  }

  /** Moving the bar from inside a part to a border gives another key with the same data. */
  lemma Confused(k: CredKey) returns (l: CredKey)
    requires !KeyBarFree(k)
    ensures l != k && CredentialAad(l) == CredentialAad(k)
  {
    AadOf(k);
    if !BarFree(k.user) {
      var a, b := SplitAtBar(k.user);
      l := CredKey(a, b + "|" + k.service, k.account);
      assert |l.user| < |k.user|;
    } else if !BarFree(k.service) {
      var a, b := SplitAtBar(k.service);
      l := CredKey(k.user, a, b + "|" + k.account);
      assert |l.service| < |k.service|;
    } else {
      var a, b := SplitAtBar(k.account);
      l := CredKey(k.user, k.service + "|" + a, b);
      assert |l.account| < |k.account|;
    }
    AadOf(l);
    assert l.user + "|" + l.service + "|" + l.account == k.user + "|" + k.service + "|" + k.account;
  }

  /** Without bars in user and service names, the associated data tell two credential rows apart. */
  lemma AadSeparates(k: CredKey, l: CredKey)
    requires BarFree(k.user) && BarFree(k.service) && BarFree(l.user) && BarFree(l.service)
    ensures CredentialAad(k) == CredentialAad(l) <==> k == l
  {
    if CredentialAad(k) == CredentialAad(l) {
      AadOf(k);
      AadOf(l);
      var a, b := k.service + "|" + k.account, l.service + "|" + l.account;
      assert k.user + "|" + k.service + "|" + k.account == k.user + "|" + a;
      assert l.user + "|" + l.service + "|" + l.account == l.user + "|" + b;
      FirstBar(k.user, a, l.user, b);
      FirstBar(k.service, k.account, l.service, l.account);
    }
  }

  /** Credentials, flows and sessions never share associated data, and ids without bars tell flows and sessions apart. */
  lemma KindsSeparate(k: CredKey, id: string, user: string, digest: string, owner: string)
    ensures CredentialAad(k) != FlowAad(id, user) && CredentialAad(k) != SessionAad(digest, owner)
    ensures FlowAad(id, user) != SessionAad(digest, owner)
  {
    assert CredentialAad(k)[..2] == "cr" && FlowAad(id, user)[..2] == "ne" && SessionAad(digest, owner)[..2] == "cu";
  }

  lemma IdsSeparate(id: string, user: string, id': string, user': string)
    requires BarFree(id) && BarFree(id')
    ensures FlowAad(id, user) == FlowAad(id', user') <==> id == id' && user == user'
    ensures SessionAad(id, user) == SessionAad(id', user') <==> id == id' && user == user'
  {
    var n, m := |"nextcloud-flow|"|, |"curation-session|"|;
    assert FlowAad(id, user)[n..] == id + "|" + user && FlowAad(id', user')[n..] == id' + "|" + user';
    assert SessionAad(id, user)[m..] == id + "|" + user && SessionAad(id', user')[m..] == id' + "|" + user';
    if id + "|" + user == id' + "|" + user' {
      FirstBar(id, user, id', user');
    }
  }

  /** The smallest example of two rows that share their data. */
  lemma BarsCanMergeRows()
    ensures CredentialAad(CredKey("a|b", "c", "d")) == CredentialAad(CredKey("a", "b|c", "d"))
  {
    assert CredentialAad(CredKey("a|b", "c", "d")) == "credential|a|b|c|d";
    assert CredentialAad(CredKey("a", "b|c", "d")) == "credential|a|b|c|d";
  }

  // ----- the cleartexts behind the stored tables -----

  function Opened(c: Crypto, stored: string, aad: string): string {
    match Decrypt(c, stored, aad, true)
    case Ok(text) => text
    case Err(_) => stored
  }

  predicate Opens(c: Crypto, stored: string, aad: string) {
    Decrypt(c, stored, aad, true).Ok? && !IsEncrypted(Opened(c, stored, aad))
  }

  function ClearCredential(c: Crypto, k: CredKey, row: Credential): Credential {
    row.(secret := Opened(c, row.secret, CredentialAad(k)))
  }

  function ClearFlow(c: Crypto, id: string, row: Flow): Flow { row.(token := Opened(c, row.token, FlowAad(id, row.user))) }

  function ClearSession(c: Crypto, digest: string, row: Session): Session {
    row.(password := Opened(c, row.password, SessionAad(digest, row.user)))
  }

  function ClearCredentials(c: Crypto, rows: map<CredKey, Credential>): map<CredKey, Credential> {
    map k | k in rows :: ClearCredential(c, k, rows[k])
  }

  function ClearFlows(c: Crypto, rows: map<string, Flow>): map<string, Flow> {
    map id | id in rows :: ClearFlow(c, id, rows[id])
  }

  function ClearSessions(c: Crypto, rows: map<string, Session>): map<string, Session> {
    map d | d in rows :: ClearSession(c, d, rows[d])
  }

  function Clear(c: Crypto, s: Tables): Tables {
    s.(credentials := ClearCredentials(c, s.credentials), flows := ClearFlows(c, s.flows), sessions := ClearSessions(c, s.sessions))
  }

  ghost predicate SoundCredentials(c: Crypto, rows: map<CredKey, Credential>) {
    forall k :: k in rows ==> Tidy(k.user) && Opens(c, rows[k].secret, CredentialAad(k))
  }

  ghost predicate SoundFlows(c: Crypto, rows: map<string, Flow>) {
    forall id :: id in rows ==> Opens(c, rows[id].token, FlowAad(id, rows[id].user))
  }

  ghost predicate SoundSessions(c: Crypto, rows: map<string, Session>) {
    forall d :: d in rows ==> Opens(c, rows[d].password, SessionAad(d, rows[d].user))
  }

  /** Every stored secret opens under the associated data of its own current row. */
  ghost predicate Sound(c: Crypto, s: Tables) {
    SoundCredentials(c, s.credentials) && SoundFlows(c, s.flows) && SoundSessions(c, s.sessions)
  }

  /** An accepted text opens to itself, and is kept sealed by an enabled cipher. */
  lemma EncryptOpens(c: Crypto, nonce: nat, text: string, aad: string)
    requires Authentic(c) && Encrypt(c, nonce, text, aad).Ok? && !IsEncrypted(text)
    ensures Opens(c, Encrypt(c, nonce, text, aad).value, aad) && Opened(c, Encrypt(c, nonce, text, aad).value, aad) == text
  {
    ReadsBackIff(c, nonce, text, aad, true);
  }

  // ----- operations on the stored tables -----

  datatype Op =
    | SetCredential(key: CredKey, row: Credential)
    | DeleteCredential(key: CredKey)
    | CreateFlow(id: string, flow: Flow)
    | CreateSession(digest: string, session: Session)
    | MarkRevoked(digest: string)
    | DeleteSession(digest: string)
    | MigratePlaintext
    | ScopeIdentities(client: string)
    | DeleteClient(client: string, purge: bool)

  function WithCredential(c: Crypto, nonces: Nonces, s: Tables, k: CredKey, row: Credential): Result<Tables, Fault> {
    match Encrypt(c, nonces(CredentialRow(k)), row.secret, CredentialAad(k))
    case Err(f) => Err(f)
    case Ok(stored) => Ok(s.(credentials := s.credentials[k := row.(secret := stored)]))
  }

  function WithFlow(c: Crypto, nonces: Nonces, s: Tables, id: string, flow: Flow): Result<Tables, Fault> {
    match Encrypt(c, nonces(FlowRow(id)), flow.token, FlowAad(id, flow.user))
    case Err(f) => Err(f)
    case Ok(stored) => if id in s.flows then Err(Conflict) else Ok(s.(flows := s.flows[id := flow.(token := stored)]))
  }

  /** What a user must be for a curation session to be opened. */
  function SessionFault(s: Tables, user: string): Option<Fault> {
    if Strip(user) !in s.users then Some(UnknownUser)
    else if !s.users[Strip(user)].enabled then Some(UserDisabled)
    else if !s.users[Strip(user)].curation then Some(CurationDisabled)
    else None
  }

  function WithSession(c: Crypto, nonces: Nonces, s: Tables, digest: string, session: Session): Result<Tables, Fault> {
    if !Enabled(c) then Err(NoKey)
    else if SessionFault(s, session.user).Some? then Err(SessionFault(s, session.user).value)
    else
      match Encrypt(c, nonces(SessionRow(digest)), session.password, SessionAad(digest, session.user))
      case Err(f) => Err(f)
      case Ok(stored) =>
        if digest in s.sessions || session.user !in s.users then Err(Conflict)
        else Ok(s.(sessions := s.sessions[digest := session.(password := stored)]))
  }

  function Marked(sessions: map<string, Session>, digest: string): map<string, Session> {
    if digest in sessions then sessions[digest := sessions[digest].(active := false)] else sessions
  }

  /** What an enabled cipher stores for a value that may be encrypted already. */
  function Protected(c: Crypto, nonce: nat, value: string, aad: string): string
    requires Enabled(c)
  {
    Encrypt(c, nonce, value, aad).value
  }

  function ProtectedCredentials(c: Crypto, nonces: Nonces, rows: map<CredKey, Credential>): map<CredKey, Credential>
    requires Enabled(c)
  {
    map k | k in rows :: rows[k].(secret := Protected(c, nonces(CredentialRow(k)), rows[k].secret, CredentialAad(k)))
  }

  function ProtectedFlows(c: Crypto, nonces: Nonces, rows: map<string, Flow>): map<string, Flow>
    requires Enabled(c)
  {
    map id | id in rows :: rows[id].(token := Protected(c, nonces(FlowRow(id)), rows[id].token, FlowAad(id, rows[id].user)))
  }

  function ProtectedSessions(c: Crypto, nonces: Nonces, rows: map<string, Session>): map<string, Session>
    requires Enabled(c)
  {
    map d | d in rows :: rows[d].(password := Protected(c, nonces(SessionRow(d)), rows[d].password, SessionAad(d, rows[d].user)))
  }

  function AllProtected(c: Crypto, nonces: Nonces, s: Tables): Tables
    requires Enabled(c)
  {
    s.(credentials := ProtectedCredentials(c, nonces, s.credentials),
       flows := ProtectedFlows(c, nonces, s.flows),
       sessions := ProtectedSessions(c, nonces, s.sessions))
  }

  /** Credentials that predate client scoping. */
  predicate Movable(user: string) { SplitScoped(user).None? && !StartsWith(user, CANONICAL) }

  function NewUser(client: string, user: string): string { client + SEPARATOR + user }

  function NewKey(client: string, k: CredKey): CredKey {
    if Movable(k.user) then k.(user := NewUser(client, k.user)) else k
  }

  function NewFlowUser(client: string, user: string): string {
    if SplitScoped(user).None? then NewUser(client, user) else user
  }

  /** A value moved from one row to another: opened under the old data and sealed under the new. */
  function Resealed(c: Crypto, nonce: nat, stored: string, oldAad: string, newAad: string): Result<string, Fault> {
    if !IsEncrypted(stored) then Ok(stored)
    else
      match Decrypt(c, stored, oldAad, false)
      case Err(f) => Err(f)
      case Ok(text) => Encrypt(c, nonce, text, newAad)
  }

  function MovedSecret(c: Crypto, nonces: Nonces, client: string, k: CredKey, secret: string): Result<string, Fault> {
    if Movable(k.user) then Resealed(c, nonces(CredentialRow(k)), secret, CredentialAad(k), CredentialAad(NewKey(client, k)))
    else Ok(secret)
  }

  function MovedToken(c: Crypto, nonces: Nonces, client: string, id: string, row: Flow): Result<string, Fault> {
    if SplitScoped(row.user).None? then
      Resealed(c, nonces(FlowRow(id)), row.token, FlowAad(id, row.user), FlowAad(id, NewUser(client, row.user)))
    else Ok(row.token)
  }

  /** A credential that may not be moved: its new place is taken or its secret does not open. */
  predicate Stuck(c: Crypto, nonces: Nonces, client: string, creds: map<CredKey, Credential>, k: CredKey) {
    k in creds && Movable(k.user) && (NewKey(client, k) in creds || MovedSecret(c, nonces, client, k, creds[k].secret).Err?)
  }

  /** One that cannot be moved in whatever order the rows come: the row in its new place stays there. */
  predicate Doomed(c: Crypto, nonces: Nonces, client: string, creds: map<CredKey, Credential>, k: CredKey) {
    && Stuck(c, nonces, client, creds, k)
    && (MovedSecret(c, nonces, client, k, creds[k].secret).Err? || !Movable(NewKey(client, k).user))
  }

  predicate FlowFails(c: Crypto, nonces: Nonces, client: string, rows: map<string, Flow>) {
    exists id | id in rows :: MovedToken(c, nonces, client, id, rows[id]).Err?
  }

  predicate Blocked(c: Crypto, nonces: Nonces, client: string, s: Tables) {
    (exists k | k in s.credentials :: Stuck(c, nonces, client, s.credentials, k)) || FlowFails(c, nonces, client, s.flows)
  }

  predicate Hopeless(c: Crypto, nonces: Nonces, client: string, s: Tables) {
    (exists k | k in s.credentials :: Doomed(c, nonces, client, s.credentials, k)) || FlowFails(c, nonces, client, s.flows)
  }

  /** Only a blank user name gives a new name that is itself to be moved, so otherwise the order does not matter. */
  lemma BlockedIsHopeless(c: Crypto, nonces: Nonces, client: string, s: Tables)
    requires ValidClient(client)
    ensures Hopeless(c, nonces, client, s) ==> Blocked(c, nonces, client, s)
    ensures (forall k :: k in s.credentials ==> Strip(k.user) != "") ==>
              (Blocked(c, nonces, client, s) <==> Hopeless(c, nonces, client, s))
  {
    forall k | k in s.credentials && Movable(k.user) && Strip(k.user) != "" ensures !Movable(NewKey(client, k).user) {
      NewUserIsScoped(client, k.user);
    }
    hide Movable, NewKey, MovedSecret, FlowFails, Strip;
  }

  lemma NewKeyInjective(client: string, k: CredKey, l: CredKey)
    requires NewKey(client, k) == NewKey(client, l) && (Movable(k.user) <==> Movable(l.user))
    ensures k == l
  {
    if Movable(k.user) {
      var p := client + SEPARATOR;
      assert (p + k.user)[|p|..] == k.user && (p + l.user)[|p|..] == l.user;
    }
  }

  /** Two rows that can both be moved get different places. */
  lemma PlacesDiffer(c: Crypto, nonces: Nonces, client: string, creds: map<CredKey, Credential>, k: CredKey, l: CredKey)
    requires k in creds && l in creds && NewKey(client, k) == NewKey(client, l)
    requires !Doomed(c, nonces, client, creds, k) && !Doomed(c, nonces, client, creds, l)
    ensures k == l
  {
    if Movable(k.user) <==> Movable(l.user) {
      NewKeyInjective(client, k, l);
    }
  }

  function MovedRow(c: Crypto, nonces: Nonces, client: string, k: CredKey, row: Credential): Credential {
    match MovedSecret(c, nonces, client, k, row.secret)
    case Ok(secret) => row.(secret := secret)
    case Err(_) => row
  }

  function MovedFlow(c: Crypto, nonces: Nonces, client: string, id: string, row: Flow): Flow {
    match MovedToken(c, nonces, client, id, row)
    case Ok(token) => row.(user := NewFlowUser(client, row.user), token := token)
    case Err(_) => row
  }

  /** `b` is `a` with every unscoped row renamed: nothing is lost, nothing is added. */
  ghost predicate Renames(c: Crypto, nonces: Nonces, client: string, a: map<CredKey, Credential>, b: map<CredKey, Credential>) {
    && (forall k :: k in a ==> NewKey(client, k) in b && b[NewKey(client, k)] == MovedRow(c, nonces, client, k, a[k]))
    && forall q :: q in b ==> exists k :: k in a && NewKey(client, k) == q
  }

  function Renamed(c: Crypto, nonces: Nonces, client: string, a: map<CredKey, Credential>): map<CredKey, Credential>
    requires forall k :: k in a ==> !Doomed(c, nonces, client, a, k)
  {
    assert forall k, l :: k in a && l in a && NewKey(client, k) == NewKey(client, l) ==> k == l by {
      forall k, l | k in a && l in a && NewKey(client, k) == NewKey(client, l) ensures k == l {
        PlacesDiffer(c, nonces, client, a, k, l);
      }
    }
    map k | k in a :: NewKey(client, k) := MovedRow(c, nonces, client, k, a[k])
  }

  function ScopedFlows(c: Crypto, nonces: Nonces, client: string, rows: map<string, Flow>): map<string, Flow> {
    map id | id in rows :: MovedFlow(c, nonces, client, id, rows[id])
  }

  function AllScoped(c: Crypto, nonces: Nonces, s: Tables, client: string): Tables
    requires !Hopeless(c, nonces, client, s)
  {
    s.(credentials := Renamed(c, nonces, client, s.credentials),
       flows := ScopedFlows(c, nonces, client, s.flows),
       scopedFor := Some(client))
  }

  function CredentialsOutside(prefix: string, rows: map<CredKey, Credential>): map<CredKey, Credential> {
    map k | k in rows && !StartsWith(k.user, prefix) :: rows[k]
  }

  function FlowsOutside(prefix: string, rows: map<string, Flow>): map<string, Flow> {
    map id | id in rows && !StartsWith(rows[id].user, prefix) :: rows[id]
  }

  function BindingsOutside(prefix: string, rows: map<string, string>): map<string, string> {
    map u | u in rows && !StartsWith(u, prefix) :: rows[u]
  }

  function Purged(s: Tables, client: string): Tables {
    var prefix := client + SEPARATOR;
    s.(credentials := CredentialsOutside(prefix, s.credentials),
       flows := FlowsOutside(prefix, s.flows),
       bindings := BindingsOutside(prefix, s.bindings))
  }

  function WithoutClient(s: Tables, client: string, purge: bool): Tables {
    if client !in s.clients then s
    else
      var t := s.(clients := s.clients - {client});
      if purge then Purged(t, client) else t
  }

  /** One operation on the stored tables; a failed one changes nothing. */
  function Step(c: Crypto, nonces: Nonces, s: Tables, op: Op): Result<Tables, Fault> {
    match op
    case SetCredential(k, row) => WithCredential(c, nonces, s, k, row)
    case DeleteCredential(k) => Ok(s.(credentials := s.credentials - {k}))
    case CreateFlow(id, flow) => WithFlow(c, nonces, s, id, flow)
    case CreateSession(d, session) => WithSession(c, nonces, s, d, session)
    case MarkRevoked(d) => Ok(s.(sessions := Marked(s.sessions, d)))
    case DeleteSession(d) => Ok(s.(sessions := s.sessions - {d}))
    case MigratePlaintext => if Enabled(c) then Ok(AllProtected(c, nonces, s)) else Err(NoKey)
    case ScopeIdentities(client) =>
      if !ValidClient(client) then Err(Invalid)
      else if s.scopedFor.Some? then Ok(s)
      else if Blocked(c, nonces, client, s) then Err(Conflict)
      else Ok(AllScoped(c, nonces, s, client))
    case DeleteClient(client, purge) => if ValidClient(client) then Ok(WithoutClient(s, client, purge)) else Err(Invalid)
  }

  // ----- the same operations on plain tables, without any encryption -----

  ghost predicate PlainRenames(client: string, a: map<CredKey, Credential>, b: map<CredKey, Credential>) {
    && (forall k :: k in a ==> NewKey(client, k) in b && b[NewKey(client, k)] == a[k])
    && forall q :: q in b ==> exists k :: k in a && NewKey(client, k) == q
  }

  predicate PlaceTaken(client: string, creds: map<CredKey, Credential>) {
    exists k | k in creds :: Movable(k.user) && NewKey(client, k) in creds
  }

  function RenamedFlows(client: string, rows: map<string, Flow>): map<string, Flow> {
    map id | id in rows :: rows[id].(user := NewFlowUser(client, rows[id].user))
  }

  /** What an operation means for the cleartexts: `t` is the table after it. */
  ghost predicate Means(op: Op, s: Tables, t: Tables) {
    match op
    case SetCredential(k, row) => t == s.(credentials := s.credentials[k := row])
    case DeleteCredential(k) => t == s.(credentials := s.credentials - {k})
    case CreateFlow(id, flow) => id !in s.flows && t == s.(flows := s.flows[id := flow])
    case CreateSession(d, session) =>
      d !in s.sessions && SessionFault(s, session.user).None? && t == s.(sessions := s.sessions[d := session])
    case MarkRevoked(d) => t == s.(sessions := Marked(s.sessions, d))
    case DeleteSession(d) => t == s.(sessions := s.sessions - {d})
    case MigratePlaintext => t == s
    case ScopeIdentities(client) =>
      if s.scopedFor.Some? then t == s
      else
        && PlainRenames(client, s.credentials, t.credentials)
        && t == s.(credentials := t.credentials, scopedFor := Some(client),
                   flows := RenamedFlows(client, s.flows))
    case DeleteClient(client, purge) => t == WithoutClient(s, client, purge)
  }

  /** The texts an operation brings in do not themselves look encrypted, and its user name is tidy. */
  predicate Ordinary(op: Op) {
    match op
    case SetCredential(k, row) => Tidy(k.user) && !IsEncrypted(row.secret)
    case CreateFlow(_, flow) => !IsEncrypted(flow.token)
    case CreateSession(_, session) => !IsEncrypted(session.password)
    case _ => true
  }

  // ----- every operation means the same on the stored tables and on the cleartexts -----

  ghost predicate Refines(c: Crypto, s: Tables, op: Op, t: Tables) {
    Sound(c, t) && Means(op, Clear(c, s), Clear(c, t))
  }

  lemma CredentialPut(c: Crypto, rows: map<CredKey, Credential>, k: CredKey, row: Credential, stored: string)
    requires SoundCredentials(c, rows) && Tidy(k.user)
    requires Opens(c, stored, CredentialAad(k)) && Opened(c, stored, CredentialAad(k)) == row.secret
    ensures SoundCredentials(c, rows[k := row.(secret := stored)])
    ensures ClearCredentials(c, rows[k := row.(secret := stored)]) == ClearCredentials(c, rows)[k := row]
  {
    hide Opens, Opened, CredentialAad, Tidy;
  }

  lemma SetCredentialRefines(c: Crypto, nonces: Nonces, s: Tables, k: CredKey, row: Credential)
    requires Authentic(c) && Sound(c, s) && Tidy(k.user) && !IsEncrypted(row.secret)
    requires WithCredential(c, nonces, s, k, row).Ok?
    ensures Refines(c, s, SetCredential(k, row), WithCredential(c, nonces, s, k, row).value)
  {
    EncryptOpens(c, nonces(CredentialRow(k)), row.secret, CredentialAad(k));
    CredentialPut(c, s.credentials, k, row, Encrypt(c, nonces(CredentialRow(k)), row.secret, CredentialAad(k)).value);
    hide Encrypt, Decrypt, IsEncrypted, Opens, Opened, CredentialAad, Tidy, SoundCredentials, SoundFlows, SoundSessions,
         ClearCredentials, ClearFlows, ClearSessions;
  }

  lemma FlowPut(c: Crypto, rows: map<string, Flow>, id: string, row: Flow, stored: string)
    requires SoundFlows(c, rows)
    requires Opens(c, stored, FlowAad(id, row.user)) && Opened(c, stored, FlowAad(id, row.user)) == row.token
    ensures SoundFlows(c, rows[id := row.(token := stored)])
    ensures ClearFlows(c, rows[id := row.(token := stored)]) == ClearFlows(c, rows)[id := row]
  {
    hide Opens, Opened, FlowAad;
  }

  lemma CreateFlowRefines(c: Crypto, nonces: Nonces, s: Tables, id: string, flow: Flow)
    requires Authentic(c) && Sound(c, s) && !IsEncrypted(flow.token)
    requires WithFlow(c, nonces, s, id, flow).Ok?
    ensures Refines(c, s, CreateFlow(id, flow), WithFlow(c, nonces, s, id, flow).value)
  {
    EncryptOpens(c, nonces(FlowRow(id)), flow.token, FlowAad(id, flow.user));
    FlowPut(c, s.flows, id, flow, Encrypt(c, nonces(FlowRow(id)), flow.token, FlowAad(id, flow.user)).value);
    assert id !in ClearFlows(c, s.flows);
    hide Encrypt, Decrypt, IsEncrypted, Opens, Opened, FlowAad, SoundCredentials, SoundFlows, SoundSessions,
         ClearCredentials, ClearFlows, ClearSessions;
  }

  lemma SessionPut(c: Crypto, rows: map<string, Session>, d: string, row: Session, stored: string)
    requires SoundSessions(c, rows)
    requires Opens(c, stored, SessionAad(d, row.user)) && Opened(c, stored, SessionAad(d, row.user)) == row.password
    ensures SoundSessions(c, rows[d := row.(password := stored)])
    ensures ClearSessions(c, rows[d := row.(password := stored)]) == ClearSessions(c, rows)[d := row]
  {
    hide Opens, Opened, SessionAad;
  }

  lemma CreateSessionRefines(c: Crypto, nonces: Nonces, s: Tables, d: string, session: Session)
    requires Authentic(c) && Sound(c, s) && !IsEncrypted(session.password)
    requires WithSession(c, nonces, s, d, session).Ok?
    ensures Refines(c, s, CreateSession(d, session), WithSession(c, nonces, s, d, session).value)
  {
    EncryptOpens(c, nonces(SessionRow(d)), session.password, SessionAad(d, session.user));
    SessionPut(c, s.sessions, d, session, Encrypt(c, nonces(SessionRow(d)), session.password, SessionAad(d, session.user)).value);
    assert d !in ClearSessions(c, s.sessions);
    hide Encrypt, Decrypt, IsEncrypted, Opens, Opened, SessionAad, SoundCredentials, SoundFlows, SoundSessions,
         ClearCredentials, ClearFlows, ClearSessions;
  }

  lemma RemovalRefines(c: Crypto, s: Tables, op: Op, t: Tables)
    requires Sound(c, s) && (op.DeleteCredential? || op.MarkRevoked? || op.DeleteSession?)
    requires t == match op
                  case DeleteCredential(k) => s.(credentials := s.credentials - {k})
                  case MarkRevoked(d) => s.(sessions := Marked(s.sessions, d))
                  case DeleteSession(d) => s.(sessions := s.sessions - {d})
    ensures Refines(c, s, op, t)
  {
    hide Opens, Opened, SessionAad, CredentialAad, Tidy;
    match op
    case DeleteCredential(k) => assert Clear(c, t).credentials == Clear(c, s).credentials - {k};
    case MarkRevoked(d) => assert Clear(c, t).sessions == Marked(Clear(c, s).sessions, d);
    case DeleteSession(d) => assert Clear(c, t).sessions == Clear(c, s).sessions - {d};
  }

  lemma ProtectedOpens(c: Crypto, nonce: nat, value: string, aad: string)
    requires Authentic(c) && Enabled(c) && Opens(c, value, aad)
    ensures Opens(c, Protected(c, nonce, value, aad), aad)
    ensures Opened(c, Protected(c, nonce, value, aad), aad) == Opened(c, value, aad)
  {
    if !IsEncrypted(value) {
      EncryptOpens(c, nonce, value, aad);
    }
  }

  lemma CredentialsProtected(c: Crypto, nonces: Nonces, rows: map<CredKey, Credential>)
    requires Authentic(c) && Enabled(c) && SoundCredentials(c, rows)
    ensures SoundCredentials(c, ProtectedCredentials(c, nonces, rows))
    ensures ClearCredentials(c, ProtectedCredentials(c, nonces, rows)) == ClearCredentials(c, rows)
  {
    forall k | k in rows
      ensures var value := Protected(c, nonces(CredentialRow(k)), rows[k].secret, CredentialAad(k));
              Opens(c, value, CredentialAad(k)) && Opened(c, value, CredentialAad(k)) == Opened(c, rows[k].secret, CredentialAad(k))
    {
      ProtectedOpens(c, nonces(CredentialRow(k)), rows[k].secret, CredentialAad(k));
    }
    hide Opens, Opened, Protected, CredentialAad, Tidy;
  }

  lemma FlowsProtected(c: Crypto, nonces: Nonces, rows: map<string, Flow>)
    requires Authentic(c) && Enabled(c) && SoundFlows(c, rows)
    ensures SoundFlows(c, ProtectedFlows(c, nonces, rows))
    ensures ClearFlows(c, ProtectedFlows(c, nonces, rows)) == ClearFlows(c, rows)
  {
    forall id | id in rows
      ensures var aad := FlowAad(id, rows[id].user);
              var value := Protected(c, nonces(FlowRow(id)), rows[id].token, aad);
              Opens(c, value, aad) && Opened(c, value, aad) == Opened(c, rows[id].token, aad)
    {
      ProtectedOpens(c, nonces(FlowRow(id)), rows[id].token, FlowAad(id, rows[id].user));
    }
    hide Opens, Opened, Protected, FlowAad;
  }

  lemma SessionsProtected(c: Crypto, nonces: Nonces, rows: map<string, Session>)
    requires Authentic(c) && Enabled(c) && SoundSessions(c, rows)
    ensures SoundSessions(c, ProtectedSessions(c, nonces, rows))
    ensures ClearSessions(c, ProtectedSessions(c, nonces, rows)) == ClearSessions(c, rows)
  {
    forall d | d in rows
      ensures var aad := SessionAad(d, rows[d].user);
              var value := Protected(c, nonces(SessionRow(d)), rows[d].password, aad);
              Opens(c, value, aad) && Opened(c, value, aad) == Opened(c, rows[d].password, aad)
    {
      ProtectedOpens(c, nonces(SessionRow(d)), rows[d].password, SessionAad(d, rows[d].user));
    }
    hide Opens, Opened, Protected, SessionAad;
  }

  lemma MigratePlaintextRefines(c: Crypto, nonces: Nonces, s: Tables)
    requires Authentic(c) && Sound(c, s) && Enabled(c)
    ensures Refines(c, s, MigratePlaintext, AllProtected(c, nonces, s))
  {
    CredentialsProtected(c, nonces, s.credentials);
    FlowsProtected(c, nonces, s.flows);
    SessionsProtected(c, nonces, s.sessions);
    hide SoundCredentials, SoundFlows, SoundSessions, ClearCredentials, ClearFlows, ClearSessions,
         ProtectedCredentials, ProtectedFlows, ProtectedSessions;
  }

  lemma ProtectedIsEncrypted(c: Crypto, nonce: nat, again: nat, value: string, aad: string)
    requires Authentic(c) && Enabled(c)
    ensures IsEncrypted(Protected(c, nonce, value, aad))
    ensures Protected(c, again, Protected(c, nonce, value, aad), aad) == Protected(c, nonce, value, aad)
  {
    ReadsBackIff(c, nonce, value, aad, true);
  }

  lemma CredentialsSettled(c: Crypto, nonces: Nonces, again: Nonces, rows: map<CredKey, Credential>)
    requires Authentic(c) && Enabled(c)
    ensures var t := ProtectedCredentials(c, nonces, rows);
            (forall k :: k in t ==> IsEncrypted(t[k].secret)) && ProtectedCredentials(c, again, t) == t
  {
    forall k | k in rows ensures var v := Protected(c, nonces(CredentialRow(k)), rows[k].secret, CredentialAad(k));
                                 IsEncrypted(v) && Protected(c, again(CredentialRow(k)), v, CredentialAad(k)) == v
    {
      ProtectedIsEncrypted(c, nonces(CredentialRow(k)), again(CredentialRow(k)), rows[k].secret, CredentialAad(k));
    }
    hide Protected, IsEncrypted, CredentialAad;
  }

  lemma FlowsSettled(c: Crypto, nonces: Nonces, again: Nonces, rows: map<string, Flow>)
    requires Authentic(c) && Enabled(c)
    ensures var t := ProtectedFlows(c, nonces, rows);
            (forall id :: id in t ==> IsEncrypted(t[id].token)) && ProtectedFlows(c, again, t) == t
  {
    forall id | id in rows ensures var aad := FlowAad(id, rows[id].user); var v := Protected(c, nonces(FlowRow(id)), rows[id].token, aad);
                                   IsEncrypted(v) && Protected(c, again(FlowRow(id)), v, aad) == v
    {
      ProtectedIsEncrypted(c, nonces(FlowRow(id)), again(FlowRow(id)), rows[id].token, FlowAad(id, rows[id].user));
    }
    hide Protected, IsEncrypted, FlowAad;
  }

  lemma SessionsSettled(c: Crypto, nonces: Nonces, again: Nonces, rows: map<string, Session>)
    requires Authentic(c) && Enabled(c)
    ensures var t := ProtectedSessions(c, nonces, rows);
            (forall d :: d in t ==> IsEncrypted(t[d].password)) && ProtectedSessions(c, again, t) == t
  {
    forall d | d in rows ensures var aad := SessionAad(d, rows[d].user); var v := Protected(c, nonces(SessionRow(d)), rows[d].password, aad);
                                 IsEncrypted(v) && Protected(c, again(SessionRow(d)), v, aad) == v
    {
      ProtectedIsEncrypted(c, nonces(SessionRow(d)), again(SessionRow(d)), rows[d].password, SessionAad(d, rows[d].user));
    }
    hide Protected, IsEncrypted, SessionAad;
  }

  /** After the plaintext migration every stored secret is encrypted, so a second one has nothing left to do. */
  lemma NothingPlainRemains(c: Crypto, nonces: Nonces, again: Nonces, s: Tables)
    requires Authentic(c) && Enabled(c)
    ensures var t := AllProtected(c, nonces, s);
            && (forall k :: k in t.credentials ==> IsEncrypted(t.credentials[k].secret))
            && (forall id :: id in t.flows ==> IsEncrypted(t.flows[id].token))
            && (forall d :: d in t.sessions ==> IsEncrypted(t.sessions[d].password))
            && AllProtected(c, again, t) == t
  {
    CredentialsSettled(c, nonces, again, s.credentials);
    FlowsSettled(c, nonces, again, s.flows);
    SessionsSettled(c, nonces, again, s.sessions);
    hide ProtectedCredentials, ProtectedFlows, ProtectedSessions, IsEncrypted;
  }

  lemma ResealedOpens(c: Crypto, nonce: nat, stored: string, oldAad: string, newAad: string)
    requires Authentic(c) && Opens(c, stored, oldAad)
    ensures Resealed(c, nonce, stored, oldAad, newAad).Ok?
    ensures Opens(c, Resealed(c, nonce, stored, oldAad, newAad).value, newAad)
    ensures Opened(c, Resealed(c, nonce, stored, oldAad, newAad).value, newAad) == Opened(c, stored, oldAad)
  {
    if IsEncrypted(stored) {
      EncryptOpens(c, nonce, Opened(c, stored, oldAad), newAad);
    }
  }

  lemma MovedRowOpens(c: Crypto, nonces: Nonces, client: string, k: CredKey, row: Credential)
    requires Authentic(c) && ValidClient(client) && Tidy(k.user) && Opens(c, row.secret, CredentialAad(k))
    ensures MovedSecret(c, nonces, client, k, row.secret).Ok?
    ensures Opens(c, MovedRow(c, nonces, client, k, row).secret, CredentialAad(NewKey(client, k)))
    ensures ClearCredential(c, NewKey(client, k), MovedRow(c, nonces, client, k, row)) == ClearCredential(c, k, row)
    ensures Tidy(NewKey(client, k).user)
  {
    if Movable(k.user) {
      ResealedOpens(c, nonces(CredentialRow(k)), row.secret, CredentialAad(k), CredentialAad(NewKey(client, k)));
      ClientIsTight(client, k.user);
    }
  }

  lemma MovedFlowOpens(c: Crypto, nonces: Nonces, client: string, id: string, row: Flow)
    requires Authentic(c) && Opens(c, row.token, FlowAad(id, row.user))
    ensures MovedToken(c, nonces, client, id, row).Ok?
    ensures var moved := MovedFlow(c, nonces, client, id, row);
            && Opens(c, moved.token, FlowAad(id, moved.user))
            && ClearFlow(c, id, moved) == ClearFlow(c, id, row).(user := NewFlowUser(client, row.user))
  {
    if SplitScoped(row.user).None? {
      ResealedOpens(c, nonces(FlowRow(id)), row.token, FlowAad(id, row.user), FlowAad(id, NewUser(client, row.user)));
    }
  }

  lemma RenamedRenames(c: Crypto, nonces: Nonces, client: string, a: map<CredKey, Credential>)
    requires forall k :: k in a ==> !Doomed(c, nonces, client, a, k)
    ensures Renames(c, nonces, client, a, Renamed(c, nonces, client, a))
  {
    hide MovedRow, Doomed, NewKey;
    forall k, l | k in a && l in a && NewKey(client, k) == NewKey(client, l) ensures k == l {
      PlacesDiffer(c, nonces, client, a, k, l);
    }
  }

  lemma FlowsScoped(c: Crypto, nonces: Nonces, client: string, rows: map<string, Flow>)
    requires Authentic(c) && SoundFlows(c, rows)
    ensures SoundFlows(c, ScopedFlows(c, nonces, client, rows))
    ensures ClearFlows(c, ScopedFlows(c, nonces, client, rows)) == RenamedFlows(client, ClearFlows(c, rows))
  {
    forall id | id in rows
      ensures var moved := MovedFlow(c, nonces, client, id, rows[id]);
              && Opens(c, moved.token, FlowAad(id, moved.user))
              && ClearFlow(c, id, moved) == ClearFlow(c, id, rows[id]).(user := NewFlowUser(client, rows[id].user))
    {
      MovedFlowOpens(c, nonces, client, id, rows[id]);
    }
    hide Opens, Opened, MovedFlow, NewFlowUser, FlowAad;
  }

  lemma ScopedRow(c: Crypto, nonces: Nonces, client: string, a: map<CredKey, Credential>, b: map<CredKey, Credential>, k: CredKey)
    requires Authentic(c) && ValidClient(client) && Renames(c, nonces, client, a, b) && SoundCredentials(c, a) && k in a
    ensures var q := NewKey(client, k);
            && q in b && Tidy(q.user) && Opens(c, b[q].secret, CredentialAad(q))
            && ClearCredential(c, q, b[q]) == ClearCredential(c, k, a[k])
  {
    MovedRowOpens(c, nonces, client, k, a[k]);
  }

  lemma CredentialsScoped(c: Crypto, nonces: Nonces, client: string, a: map<CredKey, Credential>, b: map<CredKey, Credential>)
    requires Authentic(c) && ValidClient(client) && Renames(c, nonces, client, a, b) && SoundCredentials(c, a)
    ensures SoundCredentials(c, b)
    ensures PlainRenames(client, ClearCredentials(c, a), ClearCredentials(c, b))
  {
    hide Authentic, ValidClient, Opens, ClearCredential, MovedRow, NewKey, CredentialAad, Tidy;
    forall q | q in b ensures Tidy(q.user) && Opens(c, b[q].secret, CredentialAad(q)) {
      var k :| k in a && NewKey(client, k) == q;
      ScopedRow(c, nonces, client, a, b, k);
    }
    var x, y := ClearCredentials(c, a), ClearCredentials(c, b);
    assert x.Keys == a.Keys && y.Keys == b.Keys;
    hide SoundCredentials;
    forall k | k in x ensures NewKey(client, k) in y && y[NewKey(client, k)] == x[k] {
      ScopedRow(c, nonces, client, a, b, k);
    }
  }

  lemma ScopingRefines(c: Crypto, nonces: Nonces, s: Tables, client: string)
    requires Authentic(c) && Sound(c, s) && ValidClient(client) && s.scopedFor.None? && !Hopeless(c, nonces, client, s)
    ensures Refines(c, s, ScopeIdentities(client), AllScoped(c, nonces, s, client))
  {
    RenamedRenames(c, nonces, client, s.credentials);
    CredentialsScoped(c, nonces, client, s.credentials, AllScoped(c, nonces, s, client).credentials);
    FlowsScoped(c, nonces, client, s.flows);
    hide SoundCredentials, SoundFlows, SoundSessions, ClearCredentials, ClearFlows, ClearSessions,
         Renames, Renamed, PlainRenames, ScopedFlows, RenamedFlows, Hopeless;
  }

  /** On sound tables the scoping fails only for an invalid client name or a place already taken. */
  lemma ScopingFailsIff(c: Crypto, nonces: Nonces, s: Tables, client: string)
    requires Authentic(c) && Sound(c, s)
    ensures Step(c, nonces, s, ScopeIdentities(client)).Err? <==>
            !ValidClient(client) || (s.scopedFor.None? && PlaceTaken(client, s.credentials))
  {
    if ValidClient(client) {
      forall k | k in s.credentials ensures MovedSecret(c, nonces, client, k, s.credentials[k].secret).Ok? {
        MovedRowOpens(c, nonces, client, k, s.credentials[k]);
      }
      forall id | id in s.flows ensures MovedToken(c, nonces, client, id, s.flows[id]).Ok? {
        MovedFlowOpens(c, nonces, client, id, s.flows[id]);
      }
      hide MovedSecret, MovedToken, Opens, Tidy;
      assert forall k :: k in s.credentials ==>
        (Stuck(c, nonces, client, s.credentials, k) <==> Movable(k.user) && NewKey(client, k) in s.credentials);
    }
  }

  lemma NoneMovableLeft(c: Crypto, nonces: Nonces, client: string, a: map<CredKey, Credential>, b: map<CredKey, Credential>)
    requires ValidClient(client) && Renames(c, nonces, client, a, b) && forall k :: k in a ==> Strip(k.user) != ""
    ensures forall q :: q in b ==> !Movable(q.user)
  {
    forall k | k in a ensures !Movable(NewKey(client, k).user) {
      if Movable(k.user) {
        NewUserIsScoped(client, k.user);
      }
    }
    hide Movable, NewKey, MovedRow, Strip;
  }

  lemma FlowIsScoped(c: Crypto, nonces: Nonces, client: string, id: string, row: Flow)
    requires ValidClient(client) && MovedToken(c, nonces, client, id, row).Ok? && Strip(row.user) != ""
    ensures SplitScoped(MovedFlow(c, nonces, client, id, row).user).Some?
  {
    if SplitScoped(row.user).None? {
      NewUserIsScoped(client, row.user);
    }
  }

  /** After a successful scoping no unscoped credential or flow is left and scoping again changes nothing. */
  lemma ScopedOnce(c: Crypto, nonces: Nonces, again: Nonces, s: Tables, client: string, other: string)
    requires Authentic(c) && Sound(c, s) && s.scopedFor.None? && ValidClient(other)
    requires Step(c, nonces, s, ScopeIdentities(client)).Ok?
    ensures var t := Step(c, nonces, s, ScopeIdentities(client)).value;
            && (forall q :: q in t.credentials ==> !Movable(q.user))
            && (forall id :: id in t.flows ==> Strip(s.flows[id].user) == "" || SplitScoped(t.flows[id].user).Some?)
            && Step(c, again, t, ScopeIdentities(other)) == Ok(t)
  {
    BlockedIsHopeless(c, nonces, client, s);
    RenamedRenames(c, nonces, client, s.credentials);
    NoneMovableLeft(c, nonces, client, s.credentials, Renamed(c, nonces, client, s.credentials));
    forall id | id in s.flows && Strip(s.flows[id].user) != ""
      ensures SplitScoped(MovedFlow(c, nonces, client, id, s.flows[id]).user).Some?
    {
      MovedFlowOpens(c, nonces, client, id, s.flows[id]);
      FlowIsScoped(c, nonces, client, id, s.flows[id]);
    }
    hide Renames, Renamed, Blocked, Hopeless, Strip, SplitScoped, Movable, MovedFlow, Opens, Authentic, ValidClient;
  }

  lemma NewUserIsScoped(client: string, user: string)
    requires ValidClient(client) && Strip(user) != ""
    ensures SplitScoped(NewUser(client, user)).Some? && SplitScoped(NewUser(client, user)).value.0 == client
  {
    StripAfterClient(client, user);
    SeparatorAfterClient(client, StripTail(user));
    var text := client + SEPARATOR + StripTail(user);
    assert text[..|client|] == client;
  }

  lemma StripAfterClient(client: string, user: string)
    requires ValidClient(client) && Strip(user) != ""
    ensures Strip(NewUser(client, user)) == client + SEPARATOR + StripTail(user) && StripTail(user) != ""
  {
    StripBlank(user);
    StripTailBlank(user);
    TailAfterClient(client + SEPARATOR, user);
  }

  lemma DeleteClientRefines(c: Crypto, s: Tables, client: string, purge: bool)
    requires Sound(c, s)
    ensures Refines(c, s, DeleteClient(client, purge), WithoutClient(s, client, purge))
  {
    var prefix := client + SEPARATOR;
    OutsideIsClear(c, prefix, s.credentials, s.flows);
    hide SoundCredentials, SoundFlows, SoundSessions, ClearCredentials, ClearFlows, ClearSessions, CredentialsOutside, FlowsOutside;
  }

  lemma OutsideIsClear(c: Crypto, prefix: string, creds: map<CredKey, Credential>, flows: map<string, Flow>)
    requires SoundCredentials(c, creds) && SoundFlows(c, flows)
    ensures SoundCredentials(c, CredentialsOutside(prefix, creds)) && SoundFlows(c, FlowsOutside(prefix, flows))
    ensures ClearCredentials(c, CredentialsOutside(prefix, creds)) == CredentialsOutside(prefix, ClearCredentials(c, creds))
    ensures ClearFlows(c, FlowsOutside(prefix, flows)) == FlowsOutside(prefix, ClearFlows(c, flows))
  {
    hide Opens, Opened, CredentialAad, FlowAad, Tidy, StartsWith;
  }

  /** The central step: an accepted operation keeps every secret readable and means what it means on cleartexts. */
  lemma StepRefines(c: Crypto, nonces: Nonces, s: Tables, op: Op)
    requires Authentic(c) && Sound(c, s) && Ordinary(op) && Step(c, nonces, s, op).Ok?
    ensures Refines(c, s, op, Step(c, nonces, s, op).value)
  {
    hide Sound, Clear, WithCredential, WithFlow, WithSession, AllProtected, AllScoped, WithoutClient, Authentic, Blocked, Hopeless, Marked;
    match op
    case SetCredential(k, row) => SetCredentialRefines(c, nonces, s, k, row);
    case DeleteCredential(_) => RemovalRefines(c, s, op, Step(c, nonces, s, op).value);
    case CreateFlow(id, flow) => CreateFlowRefines(c, nonces, s, id, flow);
    case CreateSession(d, session) => CreateSessionRefines(c, nonces, s, d, session);
    case MarkRevoked(_) => RemovalRefines(c, s, op, Step(c, nonces, s, op).value);
    case DeleteSession(_) => RemovalRefines(c, s, op, Step(c, nonces, s, op).value);
    case MigratePlaintext => MigratePlaintextRefines(c, nonces, s);
    case ScopeIdentities(client) =>
      if s.scopedFor.None? {
        BlockedIsHopeless(c, nonces, client, s);
        ScopingRefines(c, nonces, s, client);
      } else {
        assert Clear(c, s).scopedFor == s.scopedFor by { ClearKeepsMarker(c, s); }
      }
    case DeleteClient(client, purge) => DeleteClientRefines(c, s, client, purge);
  }

  lemma ClearKeepsMarker(c: Crypto, s: Tables)
    ensures Clear(c, s).scopedFor == s.scopedFor
  {
  }

  // ----- whole runs -----

  datatype Event = Event(op: Op, nonces: Nonces)

  /** Any sequence of operations; one that fails leaves the tables as they were. */
  function Exec(c: Crypto, s: Tables, events: seq<Event>): Tables {
    if events == [] then s
    else
      var n := |events| - 1;
      var t := Exec(c, s, events[..n]);
      match Step(c, events[n].nonces, t, events[n].op)
      case Ok(u) => u
      case Err(_) => t
  }

  /** A run is its first part and then the rest. */
  lemma {:induction false} ExecSplits(c: Crypto, s: Tables, a: seq<Event>, b: seq<Event>, e: Event)
    ensures Exec(c, s, a + b) == Exec(c, Exec(c, s, a), b)
    ensures Exec(c, s, [e]) == match Step(c, e.nonces, s, e.op) case Ok(t) => t case Err(_) => s
  {
    hide Step;
    assert [e][..0] == [];
    if b == [] {
      assert a + b == a;
    } else {
      assert (a + b)[..|a + b| - 1] == a + b[..|b| - 1];
      ExecSplits(c, s, a, b[..|b| - 1], e);
    }
  }

  /** The operations of a run that succeeded. */
  function Accepted(c: Crypto, s: Tables, events: seq<Event>): seq<Op> {
    if events == [] then []
    else
      var n := |events| - 1;
      Accepted(c, s, events[..n])
        + if Step(c, events[n].nonces, Exec(c, s, events[..n]), events[n].op).Ok? then [events[n].op] else []
  }

  function Front(ops: seq<Op>): seq<Op>
    requires ops != []
  {
    ops[..|ops| - 1]
  }

  function Last(ops: seq<Op>): Op
    requires ops != []
  {
    ops[|ops| - 1]
  }

  /** `b` is what the operations make of `a` on tables without encryption. */
  ghost predicate PlainRun(ops: seq<Op>, a: Tables, b: Tables) {
    if ops == [] then a == b
    else exists mid :: PlainRun(Front(ops), a, mid) && Means(Last(ops), mid, b)
  }

  ghost predicate AllOrdinary(events: seq<Event>) {
    forall i :: 0 <= i < |events| ==> Ordinary(events[i].op)
  }

  /**
    The store is a plain table in disguise: after any run every secret still opens under its own row's
    data, and the cleartexts are those that the successful operations give on tables without encryption.
  */
  lemma {:induction false} EveryRunRefines(c: Crypto, s: Tables, events: seq<Event>)
    requires Authentic(c) && Sound(c, s) && AllOrdinary(events)
    ensures Sound(c, Exec(c, s, events))
    ensures PlainRun(Accepted(c, s, events), Clear(c, s), Clear(c, Exec(c, s, events)))
  {
    hide Authentic, Sound, Clear, Step, Means, Ordinary;
    if events != [] {
      var n := |events| - 1;
      var t := Exec(c, s, events[..n]);
      EveryRunRefines(c, s, events[..n]);
      var before := Accepted(c, s, events[..n]);
      if Step(c, events[n].nonces, t, events[n].op).Ok? {
        StepRefines(c, events[n].nonces, t, events[n].op);
        assert Front(before + [events[n].op]) == before;
      } else {
        assert before + [] == before;
      }
    }
  }

  /** Where an operation takes a credential: nowhere if it overwrites or deletes it. */
  function Follow(s: Tables, op: Op, k: CredKey): Option<CredKey> {
    match op
    case SetCredential(l, _) => if l == k then None else Some(k)
    case DeleteCredential(l) => if l == k then None else Some(k)
    case ScopeIdentities(client) => Some(if s.scopedFor.None? then NewKey(client, k) else k)
    case DeleteClient(client, purge) =>
      if client in s.clients && purge && StartsWith(k.user, client + SEPARATOR) then None else Some(k)
    case _ => Some(k)
  }

  lemma FollowKeeps(op: Op, s: Tables, t: Tables, k: CredKey)
    requires Means(op, s, t) && k in s.credentials && Follow(s, op, k).Some?
    ensures Follow(s, op, k).value in t.credentials && t.credentials[Follow(s, op, k).value] == s.credentials[k]
  {
    hide StartsWith, Movable, NewUser, SessionFault;
  }

  function FollowRun(c: Crypto, s: Tables, events: seq<Event>, k: CredKey): Option<CredKey> {
    if events == [] then Some(k)
    else
      var n := |events| - 1;
      var t := Exec(c, s, events[..n]);
      match FollowRun(c, s, events[..n], k)
      case None => None
      case Some(l) => if Step(c, events[n].nonces, t, events[n].op).Ok? then Follow(t, events[n].op, l) else Some(l)
  }

  /** A credential that no operation overwrites or deletes keeps its secret through every renaming and re-encryption. */
  lemma {:induction false} SecretsSurvive(c: Crypto, s: Tables, events: seq<Event>, k: CredKey)
    requires Authentic(c) && Sound(c, s) && AllOrdinary(events) && k in s.credentials
    requires FollowRun(c, s, events, k).Some?
    ensures var q := FollowRun(c, s, events, k).value;
            var t := Exec(c, s, events);
            q in t.credentials && ClearCredential(c, q, t.credentials[q]) == ClearCredential(c, k, s.credentials[k])
  {
    hide Authentic, Sound, Step, Means, Ordinary, ClearCredential, Follow;
    if events != [] {
      var n := |events| - 1;
      var t := Exec(c, s, events[..n]);
      SecretsSurvive(c, s, events[..n], k);
      EveryRunRefines(c, s, events[..n]);
      if Step(c, events[n].nonces, t, events[n].op).Ok? {
        var l := FollowRun(c, s, events[..n], k).value;
        var u := Step(c, events[n].nonces, t, events[n].op).value;
        StepRefines(c, events[n].nonces, t, events[n].op);
        FollowIgnoresSecrets(c, t, events[n].op, l);
        FollowKeeps(events[n].op, Clear(c, t), Clear(c, u), l);
      }
    }
  }

  lemma FollowIgnoresSecrets(c: Crypto, t: Tables, op: Op, k: CredKey)
    ensures Follow(Clear(c, t), op, k) == Follow(t, op, k)
  {
  }

  /**
    Deleting a client with its identity state removes, from credentials, login flows and bindings, exactly
    the rows whose name belongs to it (a name that begins with a blank belongs to nobody), and nothing else.
  */
  lemma DeleteClientIsExact(s: Tables, client: string)
    requires ValidClient(client) && client in s.clients
    ensures var t := WithoutClient(s, client, true);
            && t.sessions == s.sessions && t.users == s.users && t.scopedFor == s.scopedFor
            && t.clients == s.clients - {client}
            && (forall k :: k in t.credentials <==> k in s.credentials && !Owned(k.user, client))
            && (forall id :: id in t.flows <==> id in s.flows && !Owned(s.flows[id].user, client))
            && (forall u :: u in t.bindings <==> u in s.bindings && !Owned(u, client))
            && (forall k :: k in t.credentials ==> t.credentials[k] == s.credentials[k])
            && (forall id :: id in t.flows ==> t.flows[id] == s.flows[id])
            && (forall u :: u in t.bindings ==> t.bindings[u] == s.bindings[u])
  {
    forall user ensures StartsWith(user, client + SEPARATOR) <==> Owned(user, client) {
      PrefixIffScoped(client, user);
    }
    hide StartsWith, Owned;
  }

  predicate Owned(user: string, client: string) { StripStart(user) == user && BelongsTo(user, client) }

  // ----- reading a credential -----

  function LowerChar(ch: char): char { if 'A' <= ch <= 'Z' then (ch as int + 32) as char else ch }

  function Lower(s: string): (r: string) { seq(|s|, i requires 0 <= i < |s| => LowerChar(s[i])) }

  /** The row `set_credential` writes. */
  function StoreKey(user: string, service: string, account: string): CredKey {
    CredKey(Strip(user), Lower(Strip(service)), if Strip(account) == "" then "primary" else Strip(account))
  }

  /** The row `get_credential` and `delete_credential` look for: here the account is not stripped. */
  function LookupKey(user: string, service: string, account: string): CredKey {
    CredKey(Strip(user), Lower(Strip(service)), if account == "" then "primary" else account)
  }

  lemma LookupFindsStoredIff(user: string, service: string, account: string)
    ensures LookupKey(user, service, account) == StoreKey(user, service, account) <==> Strip(account) == account
  {
    StripBlank(account);
    StripEnds(account);
    if account != "" && Strip(account) == "" {
      assert Whitespace(account[0]);
    }
  }

  function Reading(c: Crypto, s: Tables, k: CredKey): Result<Option<Credential>, Fault> {
    if k !in s.credentials then Ok(None)
    else
      match Decrypt(c, s.credentials[k].secret, CredentialAad(k), false)
      case Err(f) => Err(f)
      case Ok(secret) => Ok(Some(s.credentials[k].(secret := secret)))
  }

  /** A stored secret is read back exactly when it does not itself look encrypted; no other row reads differently. */
  lemma SetThenGetIff(c: Crypto, nonces: Nonces, s: Tables, k: CredKey, row: Credential)
    requires Authentic(c) && WithCredential(c, nonces, s, k, row).Ok?
    ensures var t := WithCredential(c, nonces, s, k, row).value;
            && (Reading(c, t, k) == Ok(Some(row)) <==> !IsEncrypted(row.secret))
            && forall l :: l != k ==> Reading(c, t, l) == Reading(c, s, l)
  {
    ReadsBackIff(c, nonces(CredentialRow(k)), row.secret, CredentialAad(k), false);
    hide Encrypt, Decrypt, IsEncrypted, CredentialAad;
  }

  /**
    A sealed secret copied by hand into another row opens there exactly when the two rows share their
    associated data, so never if its own key is free of bars.
  */
  lemma CopiedSecretOpensIff(c: Crypto, nonces: Nonces, s: Tables, k: CredKey, row: Credential, l: CredKey)
    requires Authentic(c) && Enabled(c) && !IsEncrypted(row.secret)
    requires WithCredential(c, nonces, s, k, row).Ok?
    ensures var rows := WithCredential(c, nonces, s, k, row).value.credentials;
            var reading := Reading(c, s.(credentials := rows[l := rows[k]]), l);
            && (reading == if CredentialAad(l) == CredentialAad(k) then Ok(Some(row)) else Err(Unreadable))
            && (KeyBarFree(k) && l != k ==> reading == Err(Unreadable))
  {
    BoundToItsData(c, nonces(CredentialRow(k)), row.secret, CredentialAad(k), CredentialAad(l));
    SharesDataIff(k);
    hide Encrypt, Decrypt, IsEncrypted, CredentialAad, Enabled;
  }

  /** On sound tables a credential reads as its cleartext, unless it is plain and plaintext is refused. */
  lemma SoundReads(c: Crypto, s: Tables, k: CredKey)
    requires Sound(c, s) && k in s.credentials
    ensures Reading(c, s, k) ==
            if c.mode.Required? && !IsEncrypted(s.credentials[k].secret) then Err(PlaintextRefused)
            else Ok(Some(Clear(c, s).credentials[k]))
  {
  }
}
