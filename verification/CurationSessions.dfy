/** The life of a curation session: opened, accepted, revoked locally first and then at the server. */
module CurationSessions {
  import opened Wrappers
  import opened Text
  import opened SecretCrypto
  import opened Credentials
  import Stores = CredentialStore

  /** Whether the server confirms the revocation of a session's app password; any answer is possible. */
  type Revocation = string -> bool

  datatype Outcome = Accepted(session: Session) | NotFound | Unauthorized | Forbidden | Failed(fault: Fault)

  predicate Live(s: Tables, digest: string) { digest in s.sessions && s.sessions[digest].active }

  function Password(c: Crypto, s: Tables, digest: string): Result<string, Fault>
    requires digest in s.sessions
  {
    Decrypt(c, s.sessions[digest].password, SessionAad(digest, s.sessions[digest].user), false)
  }

  /** Marked first, deleted once the server has revoked the password. */
  function Invalidated(sessions: map<string, Session>, digest: string, revoked: bool): map<string, Session> {
    if revoked then sessions - {digest} else Marked(sessions, digest)
  }

  method InvalidateSession(store: Stores.CredentialStore, digest: string, revokes: Revocation) returns (revoked: bool)
    modifies store`sessions
    ensures revoked == revokes(digest)
    ensures store.sessions == Invalidated(old(store.sessions), digest, revoked)
  {
    store.MarkRevocationPending(digest);
    revoked := revokes(digest);
    if revoked {
      var found := store.DeleteSession(digest);
    }
  }

  // ----- start-up cleanup -----

  predicate Readable(c: Crypto, sessions: map<string, Session>, d: string) {
    d in sessions && Decrypt(c, sessions[d].password, SessionAad(d, sessions[d].user), false).Ok?
  }

  /** The sessions a cleanup revokes for good. */
  function Gone(c: Crypto, revokes: Revocation, sessions: map<string, Session>): set<string> {
    set d | d in sessions && Readable(c, sessions, d) && revokes(d)
  }

  /** What is left: every other session, its secret untouched, none of them active. */
  function Cleaned(c: Crypto, revokes: Revocation, sessions: map<string, Session>): map<string, Session> {
    map d | d in sessions && !(Readable(c, sessions, d) && revokes(d)) :: sessions[d].(active := false)
  }

  ghost predicate PartlyCleaned(c: Crypto, revokes: Revocation, all: map<string, Session>, table: map<string, Session>, todo: set<string>) {
    && todo <= all.Keys
    && (forall d :: d in table <==> d in all && (d in todo || d !in Gone(c, revokes, all)))
    && forall d :: d in table ==> table[d] == if d in todo then all[d] else all[d].(active := false)
  }

  lemma CleanStart(c: Crypto, revokes: Revocation, all: map<string, Session>)
    ensures PartlyCleaned(c, revokes, all, all, all.Keys)
  {
  }

  lemma CleanOne(c: Crypto, revokes: Revocation, all: map<string, Session>, table: map<string, Session>, todo: set<string>, d: string)
    requires PartlyCleaned(c, revokes, all, table, todo) && d in todo
    ensures PartlyCleaned(c, revokes, all, Invalidated(table, d, d in Gone(c, revokes, all)), todo - {d})
  {
    hide Readable;
  }

  lemma CleanEnd(c: Crypto, revokes: Revocation, all: map<string, Session>, table: map<string, Session>)
    requires PartlyCleaned(c, revokes, all, table, {})
    ensures table == Cleaned(c, revokes, all)
  {
    hide Readable;
  }

  /** Undecryptable sessions are kept, unusable, for a later start with the right key. */
  method MarkUndecryptable(store: Stores.CredentialStore, ghost revokes: Revocation, ghost all: map<string, Session>,
                           undecryptable: set<string>, ghost readable: set<string>)
    requires PartlyCleaned(store.crypto, revokes, all, store.sessions, undecryptable + readable)
    requires undecryptable * readable == {} && Gone(store.crypto, revokes, all) <= readable
    modifies store`sessions
    ensures PartlyCleaned(store.crypto, revokes, all, store.sessions, readable)
  {
    hide PartlyCleaned, Gone;
    var waiting := undecryptable;
    while waiting != {}
      invariant waiting <= undecryptable
      invariant PartlyCleaned(store.crypto, revokes, all, store.sessions, waiting + readable)
    {
      var d :| d in waiting;
      CleanOne(store.crypto, revokes, all, store.sessions, waiting + readable, d);
      assert (waiting + readable) - {d} == (waiting - {d}) + readable;
      store.MarkRevocationPending(d);
      waiting := waiting - {d};
    }
    assert waiting + readable == readable;
  }

  /** Readable sessions are revoked at the server one by one. */
  method RevokeReadable(store: Stores.CredentialStore, revokes: Revocation, ghost all: map<string, Session>, readable: set<string>)
    returns (revoked: nat, pending: nat)
    requires PartlyCleaned(store.crypto, revokes, all, store.sessions, readable)
    requires forall d :: d in readable ==> (d in Gone(store.crypto, revokes, all) <==> revokes(d))
    modifies store`sessions
    ensures PartlyCleaned(store.crypto, revokes, all, store.sessions, {})
    ensures revoked == |Gone(store.crypto, revokes, all) - {}| - |Gone(store.crypto, revokes, all) - readable|
    ensures revoked + pending == |readable|
  {
    hide PartlyCleaned, Gone, Invalidated;
    revoked, pending := 0, 0;
    var todo := readable;
    ghost var gone := Gone(store.crypto, revokes, all);
    while todo != {}
      invariant todo <= readable && PartlyCleaned(store.crypto, revokes, all, store.sessions, todo)
      invariant revoked == |gone - todo| - |gone - readable| && revoked + pending == |readable| - |todo|
    {
      var d :| d in todo;
      CleanOne(store.crypto, revokes, all, store.sessions, todo, d);
      Stores.RemoveOne(todo, gone, d);
      var ok := InvalidateSession(store, d, revokes);
      if ok {
        revoked := revoked + 1;
      } else {
        pending := pending + 1;
      }
      todo := todo - {d};
    }
  }

  /** Sessions left by an earlier process end here: revoked for good, or kept but no longer accepted. */
  method CleanupStaleSessions(store: Stores.CredentialStore, revokes: Revocation) returns (found: nat, revoked: nat, pending: nat)
    modifies store`sessions
    ensures store.sessions == Cleaned(store.crypto, revokes, old(store.sessions))
    ensures found == |old(store.sessions)| == revoked + pending
    ensures revoked == |Gone(store.crypto, revokes, old(store.sessions))|
  {
    ghost var all := store.sessions;
    var readable := set d | d in store.sessions && Readable(store.crypto, store.sessions, d);
    var undecryptable := store.sessions.Keys - readable;
    ghost var gone := Gone(store.crypto, revokes, all);
    CleanStart(store.crypto, revokes, all);
    assert undecryptable + readable == all.Keys && gone - readable == {} && gone - {} == gone;
    assert forall d :: d in readable ==> (d in gone <==> revokes(d));
    hide Readable, Gone, Cleaned, PartlyCleaned;
    MarkUndecryptable(store, revokes, all, undecryptable, readable);
    revoked, pending := RevokeReadable(store, revokes, all, readable);
    CleanEnd(store.crypto, revokes, all, store.sessions);
    pending := pending + |undecryptable|;
    found := |readable| + |undecryptable|;
    assert |all.Keys| == found;
  }

  /** After a restart no session is live; those retained keep the encrypted password they had. */
  lemma RestartEndsAll(c: Crypto, revokes: Revocation, sessions: map<string, Session>, d: string)
    ensures d in Cleaned(c, revokes, sessions) ==>
              d in sessions && !Cleaned(c, revokes, sessions)[d].active && Cleaned(c, revokes, sessions)[d].password == sessions[d].password
    ensures d in Cleaned(c, revokes, sessions) ==> Cleaned(c, revokes, sessions)[d] == sessions[d].(active := false)
    ensures d in sessions ==>
              (d !in Cleaned(c, revokes, sessions) <==>
               Decrypt(c, sessions[d].password, SessionAad(d, sessions[d].user), false).Ok? && revokes(d))
  {
    hide Decrypt, SessionAad;
  }

  /** What one start leaves pending a later one can still revoke, once the key opens it and the server agrees. */
  lemma PendingCanBeRevokedLater(c: Crypto, later: Crypto, first: Revocation, second: Revocation, sessions: map<string, Session>, d: string)
    requires d in sessions && Readable(later, sessions, d) && second(d)
    ensures d !in Cleaned(later, second, Cleaned(c, first, sessions))
  {
  }

  // ----- requests -----

  datatype Request = Request(enabled: bool, cookie: string, now: real, revokes: Revocation)

  predicate MayCurate(s: Tables, user: string) {
    Strip(user) in s.users && s.users[Strip(user)].enabled && s.users[Strip(user)].curation
  }

  /** The answer to a request and the sessions after it. */
  function Answer(c: Crypto, hash: string -> string, s: Tables, q: Request): (Outcome, map<string, Session>) {
    if !q.enabled then (NotFound, s.sessions)
    else if Strip(q.cookie) == "" then (Unauthorized, s.sessions)
    else
      var d := hash(Strip(q.cookie));
      if d !in s.sessions then (Unauthorized, s.sessions)
      else
        match Password(c, s, d)
        case Err(f) => (Failed(f), s.sessions)
        case Ok(password) =>
          if !s.sessions[d].active || s.sessions[d].expires <= q.now then
            (Unauthorized, Invalidated(s.sessions, d, q.revokes(d)))
          else if !MayCurate(s, s.sessions[d].user) then (Forbidden, Invalidated(s.sessions, d, q.revokes(d)))
          else (Accepted(s.sessions[d].(password := password)), s.sessions)
  }

  method SessionFromRequest(store: Stores.CredentialStore, hash: string -> string, q: Request) returns (r: Outcome)
    modifies store`sessions
    ensures (r, store.sessions) == Answer(store.crypto, hash, old(store.State()), q)
  {
    if !q.enabled {
      return NotFound;
    }
    var token := Strip(q.cookie);
    if token == "" {
      return Unauthorized;
    }
    var d := hash(token);
    if d !in store.sessions {
      return Unauthorized;
    }
    var session := store.sessions[d];
    var password := Password(store.crypto, store.State(), d);
    if !session.active || session.expires <= q.now {
      // The expired row is read once more, now whatever its state, so that it can be invalidated.
      if password.Err? {
        return Failed(password.error);
      }
      var revoked := InvalidateSession(store, d, q.revokes);
      return Unauthorized;
    }
    if password.Err? {
      return Failed(password.error);
    }
    if !MayCurate(store.State(), session.user) {
      var revoked := InvalidateSession(store, d, q.revokes);
      return Forbidden;
    }
    r := Accepted(session.(password := password.value));
  }

  /** The user of a session is known, enabled and has the right to curate. */
  ghost predicate HasRight(users: map<string, User>, user: string) {
    Strip(user) in users && users[Strip(user)].enabled && users[Strip(user)].curation
  }

  /** Which answer a request gets: the first of six conditions that holds decides. */
  lemma AnswerIs(c: Crypto, hash: string -> string, s: Tables, q: Request)
    ensures var d := hash(Strip(q.cookie));
            var (r, after) := Answer(c, hash, s, q);
            var known := q.enabled && Strip(q.cookie) != "" && d in s.sessions;
            var secret := if d in s.sessions then Decrypt(c, s.sessions[d].password, SessionAad(d, s.sessions[d].user), false)
                          else Err(Unreadable);
            var live := d in s.sessions && s.sessions[d].active && q.now < s.sessions[d].expires;
            && (r == NotFound <==> !q.enabled)
            && (r.Failed? <==> known && secret.Err?) && (r.Failed? ==> r.fault == secret.error)
            && (r == Forbidden <==> known && secret.Ok? && live && !HasRight(s.users, s.sessions[d].user))
            && (r.Accepted? <==> known && secret.Ok? && live && HasRight(s.users, s.sessions[d].user))
            && (r.Accepted? ==> r.session == s.sessions[d].(password := secret.value))
            && (r == Unauthorized <==> q.enabled && (!known || (secret.Ok? && !live)))
            && (if r == Forbidden || (r == Unauthorized && known)
                then if q.revokes(d) then after == s.sessions - {d} else after == s.sessions[d := s.sessions[d].(active := false)]
                else after == s.sessions)
  {
    hide Decrypt, SessionAad, Strip;
  }

  /** When a request is accepted; every other request for a readable session ends that session. */
  lemma AcceptedIff(c: Crypto, hash: string -> string, s: Tables, q: Request)
    ensures var d := hash(Strip(q.cookie));
            var (r, after) := Answer(c, hash, s, q);
            && (r.Accepted? <==>
                && q.enabled && Strip(q.cookie) != "" && Live(s, d) && s.sessions[d].expires > q.now
                && HasRight(s.users, s.sessions[d].user) && Password(c, s, d).Ok?)
            && (r.Accepted? ==> after == s.sessions)
            && (!r.Accepted? && q.enabled && Strip(q.cookie) != "" && d in s.sessions && Password(c, s, d).Ok? ==>
                !(d in after && after[d].active))
            && (forall e :: e != d ==> (e in after <==> e in s.sessions) && (e in after ==> after[e] == s.sessions[e]))
  {
  }

  // ----- whole runs -----

  datatype Event =
    | Store(op: Op, nonces: Nonces)
    | SetUser(id: string, user: User)
    | Ask(request: Request)
    | Invalidate(digest: string, revoked: bool)
    | Restart(revokes: Revocation)

  function Next(c: Crypto, hash: string -> string, s: Tables, e: Event): Tables {
    match e
    case Store(op, nonces) => (match Step(c, nonces, s, op) case Ok(t) => t case Err(_) => s)
    case SetUser(id, user) => s.(users := s.users[id := user])
    case Ask(q) => s.(sessions := Answer(c, hash, s, q).1)
    case Invalidate(d, revoked) => s.(sessions := Invalidated(s.sessions, d, revoked))
    case Restart(revokes) => s.(sessions := Cleaned(c, revokes, s.sessions))
  }

  function Run(c: Crypto, hash: string -> string, s: Tables, events: seq<Event>): Tables {
    if events == [] then s
    else Next(c, hash, Run(c, hash, s, events[..|events| - 1]), events[|events| - 1])
  }

  /** A history is its first part and then the rest. */
  lemma {:induction false} RunSplits(c: Crypto, hash: string -> string, s: Tables, a: seq<Event>, b: seq<Event>, e: Event)
    ensures Run(c, hash, s, a + b) == Run(c, hash, Run(c, hash, s, a), b)
    ensures Run(c, hash, s, [e]) == Next(c, hash, s, e)
  {
    hide Next;
    assert [e][..0] == [];
    if b == [] {
      assert a + b == a;
    } else {
      var n := |b| - 1;
      assert (a + b)[..|a + b| - 1] == a + b[..n];
      RunSplits(c, hash, s, a, b[..n], e);
    }
  }

  predicate Opens(e: Event, digest: string) {
    e.Store? && e.op.CreateSession? && e.op.digest == digest
  }

  lemma StepRevivesNone(c: Crypto, nonces: Nonces, s: Tables, op: Op, digest: string)
    requires !Live(s, digest) && Step(c, nonces, s, op).Ok? && !(op.CreateSession? && op.digest == digest)
    ensures !Live(Step(c, nonces, s, op).value, digest)
  {
    hide Encrypt, Decrypt, Protected, Blocked, Renamed, ScopedFlows, SessionFault, ProtectedCredentials, ProtectedFlows,
         CredentialsOutside, FlowsOutside, BindingsOutside, CredentialAad, FlowAad, SessionAad, StartsWith;
  }

  lemma AskRevivesNone(c: Crypto, hash: string -> string, s: Tables, q: Request, digest: string)
    requires !Live(s, digest)
    ensures !Live(s.(sessions := Answer(c, hash, s, q).1), digest)
  {
    hide Password, MayCurate;
  }

  /** Nothing but opening a new session under the same digest makes a session live. */
  lemma NothingRevives(c: Crypto, hash: string -> string, s: Tables, e: Event, digest: string)
    requires !Live(s, digest) && !Opens(e, digest)
    ensures !Live(Next(c, hash, s, e), digest)
  {
    hide Step, Answer;
    match e
    case Store(op, nonces) =>
      if Step(c, nonces, s, op).Ok? {
        StepRevivesNone(c, nonces, s, op, digest);
      }
    case Ask(q) => AskRevivesNone(c, hash, s, q, digest);
    case _ =>
  }

  lemma {:induction false} DeadStaysDead(c: Crypto, hash: string -> string, s: Tables, events: seq<Event>, digest: string)
    requires !Live(s, digest) && forall i :: 0 <= i < |events| ==> !Opens(events[i], digest)
    ensures !Live(Run(c, hash, s, events), digest)
  {
    if events != [] {
      var n := |events| - 1;
      DeadStaysDead(c, hash, s, events[..n], digest);
      NothingRevives(c, hash, Run(c, hash, s, events[..n]), events[n], digest);
    }
  }

  /**
    A session that was invalidated, has failed a readable request, or was met by a restart is never accepted
    again, whatever happens in between, until its digest is issued anew.
  */
  lemma RevokedIsNeverAccepted(c: Crypto, hash: string -> string, s: Tables, first: Event, events: seq<Event>, q: Request)
    requires var d := hash(Strip(q.cookie));
             || (first.Invalidate? && first.digest == d)
             || first.Restart?
             || (first.Ask? && first.request.enabled && Strip(first.request.cookie) == Strip(q.cookie) != ""
                 && (d in s.sessions ==> Password(c, s, d).Ok?) && !Answer(c, hash, s, first.request).0.Accepted?)
    requires forall i :: 0 <= i < |events| ==> !Opens(events[i], hash(Strip(q.cookie)))
    ensures !Answer(c, hash, Run(c, hash, Next(c, hash, s, first), events), q).0.Accepted?
  {
    var d := hash(Strip(q.cookie));
    var t := Next(c, hash, s, first);
    if first.Ask? {
      AcceptedIff(c, hash, s, first.request);
    }
    hide Answer, Password;
    assert !Live(t, d);
    DeadStaysDead(c, hash, t, events, d);
    AcceptedIff(c, hash, Run(c, hash, t, events), q);
  }
}
