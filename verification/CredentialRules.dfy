/** The store's operations read off their inputs: which rows are written and read, and what is refused. */
module CredentialRules {
  import opened Wrappers
  import opened Text
  import opened SecretCrypto
  import opened Credentials

  /** A client name: 1 to 80 letters, digits, dots, underscores and hyphens, all ASCII. */
  lemma ValidClientIff(client: string)
    ensures ValidClient(client) <==>
            && 1 <= |client| <= 80
            && forall ch :: ch in client ==>
                 || ch in "abcdefghijklmnopqrstuvwxyz" || ch in "ABCDEFGHIJKLMNOPQRSTUVWXYZ" || ch in "0123456789" || ch in "._-"
  {
    forall ch: char ensures ClientChar(ch) <==>
        ch in "abcdefghijklmnopqrstuvwxyz" || ch in "ABCDEFGHIJKLMNOPQRSTUVWXYZ" || ch in "0123456789" || ch in "._-"
    {
      InAlphabets(ch);
    }
    hide ClientChar;
    assert forall i :: 0 <= i < |client| ==> client[i] in client;
  }

  /** Consecutive characters from `first` on. */
  ghost predicate Consecutive(alphabet: string, first: char) {
    forall n :: 0 <= n < |alphabet| ==> alphabet[n] as int == first as int + n
  }

  lemma InConsecutive(alphabet: string, first: char, ch: char)
    requires Consecutive(alphabet, first)
    ensures ch in alphabet <==> first as int <= ch as int < first as int + |alphabet|
  {
    if first as int <= ch as int < first as int + |alphabet| {
      assert alphabet[ch as int - first as int] as int == ch as int;
    }
  }

  lemma AlphabetsAreConsecutive()
    ensures Consecutive("abcdefghijklmnopqrstuvwxyz", 'a') && Consecutive("ABCDEFGHIJKLMNOPQRSTUVWXYZ", 'A')
    ensures Consecutive("0123456789", '0')
  {
  }

  lemma InAlphabets(ch: char)
    ensures ClientChar(ch) <==>
            ch in "abcdefghijklmnopqrstuvwxyz" || ch in "ABCDEFGHIJKLMNOPQRSTUVWXYZ" || ch in "0123456789" || ch in "._-"
  {
    AlphabetsAreConsecutive();
    hide Consecutive;
    InConsecutive("abcdefghijklmnopqrstuvwxyz", 'a', ch);
    InConsecutive("ABCDEFGHIJKLMNOPQRSTUVWXYZ", 'A', ch);
    InConsecutive("0123456789", '0', ch);
    assert ch in "._-" <==> ch == '.' || ch == '_' || ch == '-';
  }

  /** Where a credential is written and where it is looked for: stripped names, the service in lower case, `primary` for no account. */
  lemma KeysAre(user: string, service: string, account: string)
    ensures var k, q := StoreKey(user, service, account), LookupKey(user, service, account);
            && k.user == q.user == Strip(user) && k.service == q.service && |k.service| == |Strip(service)|
            && (forall i :: 0 <= i < |k.service| ==>
                  var ch := Strip(service)[i];
                  k.service[i] == if 'A' <= ch <= 'Z' then (ch as int - 'A' as int + 'a' as int) as char else ch)
            && (account == "" ==> k.account == q.account == "primary")
            && (account != "" && Strip(account) == "" ==> k.account == "primary" && q.account == account)
            && (Strip(account) != "" ==> k.account == Strip(account) && q.account == account)
  {
    StripBlank(account);
    hide Strip;
  }

  /**
    A curation session is opened exactly with a usable key, for a known, enabled user with the right to curate, under
    a digest not in use (the row refers to the user by its exact id); it is then stored with a sealed password.
  */
  lemma SessionOpensIff(c: Crypto, nonces: Nonces, s: Tables, digest: string, session: Session)
    ensures var r, user := WithSession(c, nonces, s, digest, session), Strip(session.user);
            var sealed := Encrypt(c, nonces(SessionRow(digest)), session.password, SessionAad(digest, session.user));
            && (r.Ok? <==>
                && c.key != None && c.mode != Disabled && user in s.users && s.users[user].enabled && s.users[user].curation
                && digest !in s.sessions && session.user in s.users)
            && (r.Ok? ==> sealed.Ok? && r.value == s.(sessions := s.sessions[digest := session.(password := sealed.value)]))
  {
    EncryptIs(c, nonces(SessionRow(digest)), session.password, SessionAad(digest, session.user));
    hide Strip, SessionAad, Encrypt;
  }

  /** Why it is refused: the first of these reasons. */
  lemma SessionRefused(c: Crypto, nonces: Nonces, s: Tables, digest: string, session: Session)
    requires WithSession(c, nonces, s, digest, session).Err?
    ensures var e, user := WithSession(c, nonces, s, digest, session).error, Strip(session.user);
            if c.key == None || c.mode == Disabled then e == NoKey
            else if user !in s.users then e == UnknownUser
            else if !s.users[user].enabled then e == UserDisabled
            else if !s.users[user].curation then e == CurationDisabled
            else e == Conflict
  {
    EncryptIs(c, nonces(SessionRow(digest)), session.password, SessionAad(digest, session.user));
    hide Strip, SessionAad, Encrypt;
  }

  /** A login flow is added exactly under a new id whose token may be stored. */
  lemma FlowAddedIff(c: Crypto, nonces: Nonces, s: Tables, id: string, flow: Flow)
    ensures var r, sealed := WithFlow(c, nonces, s, id, flow), Encrypt(c, nonces(FlowRow(id)), flow.token, FlowAad(id, flow.user));
            && (r.Ok? <==> sealed.Ok? && id !in s.flows)
            && (r.Ok? ==> r.value == s.(flows := s.flows[id := flow.(token := sealed.value)]))
  {
    hide Encrypt, FlowAad;
  }

  /** Deleting a client that does not exist changes nothing; keeping its identity state deletes the client only. */
  lemma DeleteClientKeeps(s: Tables, client: string)
    ensures forall purge :: client !in s.clients ==> WithoutClient(s, client, purge) == s
    ensures WithoutClient(s, client, false) == s.(clients := s.clients - {client})
  {
  }

  /** Revoking marks one session, and only if it is there. */
  lemma MarkedIs(sessions: map<string, Session>, digest: string)
    ensures Marked(sessions, digest).Keys == sessions.Keys
    ensures forall d :: d in sessions ==>
              Marked(sessions, digest)[d] == if d == digest then sessions[d].(active := false) else sessions[d]
  {
  }
}
