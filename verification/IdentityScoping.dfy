/**
  Scoping old identities to a client, read off the names alone: which rows move, where they go, and what
  they hold afterwards.
*/
module IdentityScoping {
  import opened Wrappers
  import opened Text
  import opened SecretCrypto
  import opened Credentials

  // ----- names -----

  ghost predicate SeparatorAt(text: string, i: int) {
    0 <= i && i + 2 <= |text| && text[i] == ':' && text[i + 1] == ':'
  }

  lemma {:induction false} FirstSeparatorIs(text: string)
    ensures match FirstSeparator(text)
            case Some(i) => SeparatorAt(text, i) && forall j :: 0 <= j < i ==> !SeparatorAt(text, j)
            case None => forall j :: !SeparatorAt(text, j)
  {
    if |text| >= 2 {
      assert text[..2] == SEPARATOR <==> text[0] == ':' && text[1] == ':';
      if text[..2] != SEPARATOR {
        FirstSeparatorIs(text[1..]);
        forall j | SeparatorAt(text, j) ensures j > 0 && SeparatorAt(text[1..], j - 1) {
        }
      }
    }
  }

  /** Without surrounding blanks the name is client, first separator, user; neither part is empty. */
  ghost predicate SplitsAs(name: string, client: string, user: string) {
    && Strip(name) == client + "::" + user && client != "" && user != ""
    && forall j :: 0 <= j < |client| ==> !SeparatorAt(Strip(name), j)
  }

  lemma SplitScopedIff(name: string, client: string, user: string)
    ensures SplitScoped(name) == Some((client, user)) <==> SplitsAs(name, client, user)
  {
    hide Strip;
    var text := Strip(name);
    FirstSeparatorIs(text);
    if SplitsAs(name, client, user) {
      assert SeparatorAt(text, |client|);
      assert text[..|client|] == client && text[|client| + 2..] == user;
    }
    if SplitScoped(name) == Some((client, user)) {
      assert text == client + "::" + user;
    }
  }

  /** A name that carries no client yet. */
  ghost predicate Unscoped(name: string) {
    forall client, user :: !SplitsAs(name, client, user)
  }

  lemma UnscopedIff(name: string)
    ensures SplitScoped(name).None? <==> Unscoped(name)
  {
    hide SplitScoped, SplitsAs;
    forall client, user ensures SplitScoped(name) == Some((client, user)) <==> SplitsAs(name, client, user) {
      SplitScopedIff(name, client, user);
    }
    if SplitScoped(name).Some? {
      assert SplitsAs(name, SplitScoped(name).value.0, SplitScoped(name).value.1);
    }
  }

  /** Which credentials move: those of unscoped names, except the canonical ones. */
  ghost predicate Legacy(name: string) {
    Unscoped(name) && !("canonical-user:" <= name)
  }

  lemma MovableIff(name: string)
    ensures Movable(name) <==> Legacy(name)
  {
    UnscopedIff(name);
    hide Unscoped, SplitScoped;
    if "canonical-user:" <= name {
      assert name[..|CANONICAL|] == CANONICAL;
    }
  }

  /** Where a credential is found afterwards. */
  ghost function NewPlace(client: string, k: CredKey): CredKey {
    if Legacy(k.user) then CredKey(client + "::" + k.user, k.service, k.account) else k
  }

  lemma NewKeyIs(client: string, k: CredKey)
    ensures NewKey(client, k) == NewPlace(client, k)
  {
    MovableIff(k.user);
    hide Movable, Legacy;
  }

  // ----- the tables -----

  /** `b` holds the rows of `a`, each in its new place, and nothing else. */
  ghost predicate InNewPlaces(client: string, a: map<CredKey, Credential>, b: map<CredKey, Credential>) {
    && (forall k :: k in a ==> NewPlace(client, k) in b && b[NewPlace(client, k)] == a[k])
    && forall q :: q in b ==> exists k :: k in a && NewPlace(client, k) == q
  }

  ghost predicate FlowsInNewPlaces(client: string, a: map<string, Flow>, b: map<string, Flow>) {
    && b.Keys == a.Keys
    && forall id :: id in a ==>
         b[id] == a[id].(user := if Unscoped(a[id].user) then client + "::" + a[id].user else a[id].user)
  }

  lemma RenamesInNewPlaces(client: string, a: map<CredKey, Credential>, b: map<CredKey, Credential>)
    requires PlainRenames(client, a, b)
    ensures InNewPlaces(client, a, b)
  {
    hide NewKey, NewPlace;
    forall k ensures NewKey(client, k) == NewPlace(client, k) {
      NewKeyIs(client, k);
    }
    forall q | q in b ensures exists k :: k in a && NewPlace(client, k) == q {
      var k :| k in a && NewKey(client, k) == q;
    }
  }

  lemma FlowsRenamed(client: string, rows: map<string, Flow>)
    ensures FlowsInNewPlaces(client, rows, RenamedFlows(client, rows))
  {
    forall id | id in rows ensures SplitScoped(rows[id].user).None? <==> Unscoped(rows[id].user) {
      UnscopedIff(rows[id].user);
    }
    hide Unscoped, SplitScoped;
  }

  /**
    On readable tables: a successful first scoping leaves every cleartext in its new place, in the same row
    otherwise, and touches nothing but credentials, login flows and the marker.
  */
  lemma ScopingMovesLegacy(c: Crypto, nonces: Nonces, s: Tables, client: string)
    requires Authentic(c) && Sound(c, s) && s.scopedFor.None?
    requires Step(c, nonces, s, ScopeIdentities(client)).Ok?
    ensures var a, b := Clear(c, s), Clear(c, Step(c, nonces, s, ScopeIdentities(client)).value);
            && InNewPlaces(client, a.credentials, b.credentials) && FlowsInNewPlaces(client, a.flows, b.flows)
            && b == a.(credentials := b.credentials, flows := b.flows, scopedFor := Some(client))
  {
    hide Authentic, Sound, Clear, Step, InNewPlaces, FlowsInNewPlaces, PlainRenames, RenamedFlows;
    var t := Step(c, nonces, s, ScopeIdentities(client)).value;
    StepRefines(c, nonces, s, ScopeIdentities(client));
    ClearKeepsMarker(c, s);
    RenamesInNewPlaces(client, Clear(c, s).credentials, Clear(c, t).credentials);
    FlowsRenamed(client, Clear(c, s).flows);
  }

  /** It fails exactly for an invalid client name, or when the new place of a legacy row is taken. */
  lemma ScopingFailsIff(c: Crypto, nonces: Nonces, s: Tables, client: string)
    requires Authentic(c) && Sound(c, s) && s.scopedFor.None?
    ensures Step(c, nonces, s, ScopeIdentities(client)).Err? <==>
            !ValidClient(client) || exists k :: k in s.credentials && Legacy(k.user) && NewPlace(client, k) in s.credentials
  {
    hide Authentic, Sound, Step, Legacy, NewPlace, Movable, NewKey;
    Credentials.ScopingFailsIff(c, nonces, s, client);
    forall k ensures NewKey(client, k) == NewPlace(client, k) && (Movable(k.user) <==> Legacy(k.user)) {
      NewKeyIs(client, k);
      MovableIff(k.user);
    }
  }

  /** What a renamed row holds, whatever the table: only an encrypted secret that moves is opened and sealed again. */
  lemma RenamedRow(c: Crypto, nonces: Nonces, client: string, rows: map<CredKey, Credential>, k: CredKey)
    requires (forall l :: l in rows ==> !Doomed(c, nonces, client, rows, l)) && k in rows
    ensures var q, table := NewPlace(client, k), Renamed(c, nonces, client, rows);
            && q in table
            && if Legacy(k.user) && "enc:v1:" <= rows[k].secret
               then var text := Decrypt(c, rows[k].secret, CredentialAad(k), false);
                    && text.Ok? && Encrypt(c, nonces(CredentialRow(k)), text.value, CredentialAad(q)).Ok?
                    && table[q] == rows[k].(secret := Encrypt(c, nonces(CredentialRow(k)), text.value, CredentialAad(q)).value)
               else table[q] == rows[k]
  {
    NewKeyIs(client, k);
    MovableIff(k.user);
    RenamedRenames(c, nonces, client, rows);
    PrefixMeans(rows[k].secret);
    hide Renamed, NewPlace, Legacy, Movable, NewKey, Decrypt, Encrypt, CredentialAad, IsEncrypted;
    assert !Doomed(c, nonces, client, rows, k);
  }

  lemma PrefixMeans(stored: string)
    ensures IsEncrypted(stored) <==> "enc:v1:" <= stored
  {
    if "enc:v1:" <= stored {
      assert stored[..|PREFIX|] == PREFIX;
    }
  }

  /** Moving keeps what is sealed sealed and what is plain plain; a disabled cipher is set up without a key. */
  lemma MovedStaysSealed(c: Crypto, nonces: Nonces, client: string, rows: map<CredKey, Credential>, k: CredKey)
    requires Authentic(c) && (c.mode == Disabled ==> c.key == None) && SoundCredentials(c, rows) && k in rows
    requires forall l :: l in rows ==> !Doomed(c, nonces, client, rows, l)
    ensures NewPlace(client, k) in Renamed(c, nonces, client, rows)
    ensures IsEncrypted(Renamed(c, nonces, client, rows)[NewPlace(client, k)].secret) <==> IsEncrypted(rows[k].secret)
  {
    RenamedRow(c, nonces, client, rows, k);
    PrefixMeans(rows[k].secret);
    assert Opens(c, rows[k].secret, CredentialAad(k));
    if Legacy(k.user) && IsEncrypted(rows[k].secret) {
      var text := Opened(c, rows[k].secret, CredentialAad(k));
      ReadsBackIff(c, nonces(CredentialRow(k)), text, CredentialAad(NewPlace(client, k)), true);
    }
    hide Renamed, Doomed, NewPlace, Legacy, Encrypt, CredentialAad, Authentic, IsEncrypted;
  }
}
