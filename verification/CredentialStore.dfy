/** The store as an object: its tables are fields and every method is one transaction. */
module CredentialStore {
  import opened Wrappers
  import opened Text
  import opened SecretCrypto
  import opened Credentials

  /** The rows that still hold plaintext. */
  function PlainCredentials(rows: map<CredKey, Credential>): set<CredKey> {
    set k | k in rows && !IsEncrypted(rows[k].secret)
  }

  function PlainFlows(rows: map<string, Flow>): set<string> {
    set id | id in rows && !IsEncrypted(rows[id].token)
  }

  function PlainSessions(rows: map<string, Session>): set<string> {
    set d | d in rows && !IsEncrypted(rows[d].password)
  }

  lemma RemoveOne<T>(todo: set<T>, plain: set<T>, x: T)
    requires x in todo
    ensures |plain - (todo - {x})| == |plain - todo| + if x in plain then 1 else 0
  {
    if x in plain {
      assert plain - (todo - {x}) == (plain - todo) + {x};
    } else {
      assert plain - (todo - {x}) == plain - todo;
    }
  }

  lemma NoneLeft<T>(plain: set<T>)
    ensures plain - {} == plain
  {
  }

  /** What a loop over all rows has made of them when those in `todo` are still waiting. */
  ghost predicate Merged<K, V>(rows: map<K, V>, target: map<K, V>, table: map<K, V>, todo: set<K>) {
    && todo <= rows.Keys && table.Keys == rows.Keys && target.Keys == rows.Keys
    && forall k :: k in rows ==> table[k] == if k in todo then rows[k] else target[k]
  }

  lemma MergedStart<K, V>(rows: map<K, V>, target: map<K, V>)
    requires target.Keys == rows.Keys
    ensures Merged(rows, target, rows, rows.Keys)
  {
  }

  lemma MergedStep<K, V>(rows: map<K, V>, target: map<K, V>, table: map<K, V>, todo: set<K>, k: K)
    requires Merged(rows, target, table, todo) && k in todo
    ensures k in rows && k in target && Merged(rows, target, table[k := target[k]], todo - {k})
    ensures target[k] == rows[k] ==> Merged(rows, target, table, todo - {k})
  {
  }

  lemma MergedEnd<K, V>(rows: map<K, V>, target: map<K, V>, table: map<K, V>)
    requires Merged(rows, target, table, {})
    ensures table == target
  {
  }

  lemma CredentialTarget(c: Crypto, nonces: Nonces, rows: map<CredKey, Credential>, k: CredKey)
    requires Enabled(c) && k in rows
    ensures var target, stored := ProtectedCredentials(c, nonces, rows), Encrypt(c, nonces(CredentialRow(k)), rows[k].secret, CredentialAad(k));
            && k in target && stored.Ok?
            && (k in PlainCredentials(rows) <==> !IsEncrypted(rows[k].secret))
            && target[k] == if IsEncrypted(rows[k].secret) then rows[k] else rows[k].(secret := stored.value)
  {
  }

  /** The rows come in no particular order; each plaintext is encrypted under its own row's data. */
  method ProtectCredentials(c: Crypto, nonces: Nonces, rows: map<CredKey, Credential>) returns (table: map<CredKey, Credential>, changed: nat)
    requires Enabled(c)
    ensures table == ProtectedCredentials(c, nonces, rows)
    ensures changed == |PlainCredentials(rows)|
  {
    table, changed := rows, 0;
    var todo := rows.Keys;
    ghost var target := ProtectedCredentials(c, nonces, rows);
    MergedStart(rows, target);
    hide Merged, Encrypt, IsEncrypted, ProtectedCredentials, PlainCredentials, Enabled, CredentialAad;
    while todo != {}
      invariant todo <= rows.Keys && Merged(rows, target, table, todo)
      invariant changed == |PlainCredentials(rows) - todo|
    {
      var k :| k in todo;
      CredentialTarget(c, nonces, rows, k);
      MergedStep(rows, target, table, todo, k);
      RemoveOne(todo, PlainCredentials(rows), k);
      todo := todo - {k};
      var value := rows[k].secret;
      if !IsEncrypted(value) {
        var stored := Encrypt(c, nonces(CredentialRow(k)), value, CredentialAad(k));
        table := table[k := rows[k].(secret := stored.value)];
        changed := changed + 1;
      }
    }
    MergedEnd(rows, target, table);
    NoneLeft(PlainCredentials(rows));
  }

  lemma FlowTarget(c: Crypto, nonces: Nonces, rows: map<string, Flow>, id: string)
    requires Enabled(c) && id in rows
    ensures var target, stored := ProtectedFlows(c, nonces, rows), Encrypt(c, nonces(FlowRow(id)), rows[id].token, FlowAad(id, rows[id].user));
            && id in target && stored.Ok?
            && (id in PlainFlows(rows) <==> !IsEncrypted(rows[id].token))
            && target[id] == if IsEncrypted(rows[id].token) then rows[id] else rows[id].(token := stored.value)
  {
  }

  method ProtectFlows(c: Crypto, nonces: Nonces, rows: map<string, Flow>) returns (table: map<string, Flow>, changed: nat)
    requires Enabled(c)
    ensures table == ProtectedFlows(c, nonces, rows)
    ensures changed == |PlainFlows(rows)|
  {
    table, changed := rows, 0;
    var todo := rows.Keys;
    ghost var target := ProtectedFlows(c, nonces, rows);
    MergedStart(rows, target);
    hide Merged, Encrypt, IsEncrypted, ProtectedFlows, PlainFlows, Enabled, FlowAad;
    while todo != {}
      invariant todo <= rows.Keys && Merged(rows, target, table, todo)
      invariant changed == |PlainFlows(rows) - todo|
    {
      var id :| id in todo;
      FlowTarget(c, nonces, rows, id);
      MergedStep(rows, target, table, todo, id);
      RemoveOne(todo, PlainFlows(rows), id);
      todo := todo - {id};
      var value := rows[id].token;
      if !IsEncrypted(value) {
        var stored := Encrypt(c, nonces(FlowRow(id)), value, FlowAad(id, rows[id].user));
        table := table[id := rows[id].(token := stored.value)];
        changed := changed + 1;
      }
    }
    MergedEnd(rows, target, table);
    NoneLeft(PlainFlows(rows));
  }

  lemma SessionTarget(c: Crypto, nonces: Nonces, rows: map<string, Session>, d: string)
    requires Enabled(c) && d in rows
    ensures var target, stored := ProtectedSessions(c, nonces, rows), Encrypt(c, nonces(SessionRow(d)), rows[d].password, SessionAad(d, rows[d].user));
            && d in target && stored.Ok?
            && (d in PlainSessions(rows) <==> !IsEncrypted(rows[d].password))
            && target[d] == if IsEncrypted(rows[d].password) then rows[d] else rows[d].(password := stored.value)
  {
  }

  method ProtectSessions(c: Crypto, nonces: Nonces, rows: map<string, Session>) returns (table: map<string, Session>, changed: nat)
    requires Enabled(c)
    ensures table == ProtectedSessions(c, nonces, rows)
    ensures changed == |PlainSessions(rows)|
  {
    table, changed := rows, 0;
    var todo := rows.Keys;
    ghost var target := ProtectedSessions(c, nonces, rows);
    MergedStart(rows, target);
    hide Merged, Encrypt, IsEncrypted, ProtectedSessions, PlainSessions, Enabled, SessionAad;
    while todo != {}
      invariant todo <= rows.Keys && Merged(rows, target, table, todo)
      invariant changed == |PlainSessions(rows) - todo|
    {
      var d :| d in todo;
      SessionTarget(c, nonces, rows, d);
      MergedStep(rows, target, table, todo, d);
      RemoveOne(todo, PlainSessions(rows), d);
      todo := todo - {d};
      var value := rows[d].password;
      if !IsEncrypted(value) {
        var stored := Encrypt(c, nonces(SessionRow(d)), value, SessionAad(d, rows[d].user));
        table := table[d := rows[d].(password := stored.value)];
        changed := changed + 1;
      }
    }
    MergedEnd(rows, target, table);
    NoneLeft(PlainSessions(rows));
  }

  function MovableKeys(rows: map<CredKey, Credential>): set<CredKey> {
    set k | k in rows && Movable(k.user)
  }

  ghost predicate Untouched(rows: map<CredKey, Credential>, table: map<CredKey, Credential>, todo: set<CredKey>)
    requires todo <= rows.Keys
  {
    forall k :: k in todo ==> k in table && table[k] == rows[k]
  }

  ghost predicate Handled(c: Crypto, nonces: Nonces, client: string, rows: map<CredKey, Credential>,
                          table: map<CredKey, Credential>, todo: set<CredKey>)
    requires todo <= rows.Keys
  {
    forall k :: k in rows && k !in todo ==>
      && !Doomed(c, nonces, client, rows, k)
      && (Movable(k.user) ==> NewKey(client, k) !in todo)
      && NewKey(client, k) in table && table[NewKey(client, k)] == MovedRow(c, nonces, client, k, rows[k])
  }

  ghost predicate NothingElse(client: string, rows: map<CredKey, Credential>, table: map<CredKey, Credential>, todo: set<CredKey>) {
    forall q :: q in table ==> q in todo || exists k :: k in rows && k !in todo && NewKey(client, k) == q
  }

  /** What the renaming loop has done when the rows in `todo` are still waiting. */
  ghost predicate PartlyRenamed(c: Crypto, nonces: Nonces, client: string, rows: map<CredKey, Credential>,
                                table: map<CredKey, Credential>, todo: set<CredKey>)
  {
    && todo <= rows.Keys
    && Untouched(rows, table, todo)
    && Handled(c, nonces, client, rows, table, todo)
    && NothingElse(client, rows, table, todo)
  }

  /** When the new place of the next row is taken: by a row that is still waiting or never moves. */
  lemma TakenIff(c: Crypto, nonces: Nonces, client: string, rows: map<CredKey, Credential>,
                 table: map<CredKey, Credential>, todo: set<CredKey>, k: CredKey)
    requires PartlyRenamed(c, nonces, client, rows, table, todo) && k in todo && Movable(k.user)
    ensures var q := NewKey(client, k); q in table <==> q in rows && (q in todo || !Movable(q.user))
  {
    var q := NewKey(client, k);
    if q in rows && !Movable(q.user) && q !in todo {
      assert NewKey(client, q) == q;
    }
    if q in table && q !in todo {
      var l :| l in rows && l !in todo && NewKey(client, l) == q;
      if Movable(l.user) {
        NewKeyInjective(client, k, l);
      }
    }
  }

  lemma PassOne(c: Crypto, nonces: Nonces, client: string, rows: map<CredKey, Credential>,
                table: map<CredKey, Credential>, todo: set<CredKey>, k: CredKey)
    requires PartlyRenamed(c, nonces, client, rows, table, todo) && k in todo && !Movable(k.user)
    ensures PartlyRenamed(c, nonces, client, rows, table, todo - {k})
  {
    assert NewKey(client, k) == k && MovedRow(c, nonces, client, k, rows[k]) == rows[k] && !Doomed(c, nonces, client, rows, k);
    hide Doomed, MovedRow, NewKey, Movable;
    assert Untouched(rows, table, todo - {k}) by { hide Handled, NothingElse; }
    assert Handled(c, nonces, client, rows, table, todo - {k}) by { hide NothingElse; }
    assert NothingElse(client, rows, table, todo - {k}) by { hide Handled, Untouched; }
    hide Untouched, Handled, NothingElse;
  }

  lemma StillHandled(c: Crypto, nonces: Nonces, client: string, rows: map<CredKey, Credential>,
                     table: map<CredKey, Credential>, todo: set<CredKey>, k: CredKey)
    requires todo <= rows.Keys && Untouched(rows, table, todo) && Handled(c, nonces, client, rows, table, todo)
    requires k in todo && Movable(k.user) && NewKey(client, k) !in table && !Doomed(c, nonces, client, rows, k)
    ensures Handled(c, nonces, client, rows, (table - {k})[NewKey(client, k) := MovedRow(c, nonces, client, k, rows[k])], todo - {k})
  {
    var q := NewKey(client, k);
    assert q !in todo && k in table;
    hide Untouched;
    forall l | l in rows && l !in todo ensures NewKey(client, l) != k && NewKey(client, l) != q {
      hide Doomed, MovedRow, Movable;
    }
    hide Doomed, MovedRow, Movable, NewKey;
  }

  /** Renaming one row carries the loop's state on. */
  lemma RenameOne(c: Crypto, nonces: Nonces, client: string, rows: map<CredKey, Credential>,
                  table: map<CredKey, Credential>, todo: set<CredKey>, k: CredKey)
    requires PartlyRenamed(c, nonces, client, rows, table, todo) && k in todo && Movable(k.user)
    requires NewKey(client, k) !in table && !Doomed(c, nonces, client, rows, k)
    ensures PartlyRenamed(c, nonces, client, rows,
                          (table - {k})[NewKey(client, k) := MovedRow(c, nonces, client, k, rows[k])], todo - {k})
  {
    var row := MovedRow(c, nonces, client, k, rows[k]);
    hide Doomed, MovedRow, Movable, NewKey, Handled, NothingElse;
    StillHandled(c, nonces, client, rows, table, todo, k);
    StillNothingElse(client, rows, table, todo, k, row);
    assert Untouched(rows, (table - {k})[NewKey(client, k) := row], todo - {k});
  }

  lemma StillNothingElse(client: string, rows: map<CredKey, Credential>, table: map<CredKey, Credential>, todo: set<CredKey>,
                         k: CredKey, row: Credential)
    requires NothingElse(client, rows, table, todo) && k in todo && k in rows && todo <= rows.Keys
    ensures NothingElse(client, rows, (table - {k})[NewKey(client, k) := row], todo - {k})
  {
    var q := NewKey(client, k);
    var next := (table - {k})[q := row];
    hide NewKey;
    forall p | p in next ensures p in todo - {k} || exists l :: l in rows && l !in todo - {k} && NewKey(client, l) == p {
      if p != q && p !in todo {
        var l :| l in rows && l !in todo && NewKey(client, l) == p;
      }
    }
  }

  lemma RenamesUnique(c: Crypto, nonces: Nonces, client: string, a: map<CredKey, Credential>,
                      b: map<CredKey, Credential>, b': map<CredKey, Credential>)
    requires Renames(c, nonces, client, a, b) && Renames(c, nonces, client, a, b')
    ensures b == b'
  {
    hide NewKey, MovedRow;
    forall q ensures (q in b ==> q in b' && b'[q] == b[q]) && (q in b' ==> q in b) {
    }
  }

  lemma AllRenamed(c: Crypto, nonces: Nonces, client: string, rows: map<CredKey, Credential>, table: map<CredKey, Credential>)
    requires PartlyRenamed(c, nonces, client, rows, table, {})
    ensures forall k :: k in rows ==> !Doomed(c, nonces, client, rows, k)
    ensures table == Renamed(c, nonces, client, rows)
  {
    hide Doomed, MovedRow, NewKey, Movable;
    RenamedRenames(c, nonces, client, rows);
    assert Renames(c, nonces, client, rows, table);
    hide Renamed, Renames;
    RenamesUnique(c, nonces, client, rows, table, Renamed(c, nonces, client, rows));
  }

  // ----- the rows in the order the database returns them -----

  /** `order` lists the elements of `keys`, each once. */
  ghost predicate Enumerates(order: seq<CredKey>, keys: set<CredKey>) {
    && (forall i, j :: 0 <= i < j < |order| ==> order[i] != order[j])
    && forall k :: k in order <==> k in keys
  }

  /** The table after the rows of `order` were renamed one by one; `None` when one of them cannot be. */
  function InOrder(c: Crypto, nonces: Nonces, client: string, rows: map<CredKey, Credential>, order: seq<CredKey>)
    : Option<map<CredKey, Credential>>
  {
    if order == [] then Some(rows)
    else
      var n := |order| - 1;
      var k := order[n];
      match InOrder(c, nonces, client, rows, order[..n])
      case None => None
      case Some(table) =>
        if k !in rows || !Movable(k.user) then Some(table)
        else if MovedSecret(c, nonces, client, k, rows[k].secret).Err? || NewKey(client, k) in table then None
        else Some((table - {k})[NewKey(client, k) := MovedRow(c, nonces, client, k, rows[k])])
  }

  /** Row number `i` can be renamed when its turn comes: its secret opens and a row in its place has moved on before. */
  predicate Passes(c: Crypto, nonces: Nonces, client: string, rows: map<CredKey, Credential>, order: seq<CredKey>, i: nat)
    requires i < |order| && order[i] in rows
  {
    var k := order[i];
    Movable(k.user) ==>
      && MovedSecret(c, nonces, client, k, rows[k].secret).Ok?
      && (NewKey(client, k) in rows ==> Movable(NewKey(client, k).user) && NewKey(client, k) in order[..i])
  }

  function Waiting(rows: map<CredKey, Credential>, order: seq<CredKey>, n: nat): set<CredKey>
    requires n <= |order|
  {
    set k | k in rows && k !in order[..n]
  }

  /** An order succeeds exactly when every row passes, and what has been done is then a partial renaming. */
  lemma {:induction false} InOrderIff(c: Crypto, nonces: Nonces, client: string, rows: map<CredKey, Credential>,
                                      order: seq<CredKey>, n: nat)
    requires Enumerates(order, rows.Keys) && n <= |order|
    ensures InOrder(c, nonces, client, rows, order[..n]).Some? <==>
            forall i :: 0 <= i < n ==> order[i] in rows && Passes(c, nonces, client, rows, order, i)
    ensures InOrder(c, nonces, client, rows, order[..n]).Some? ==>
              PartlyRenamed(c, nonces, client, rows, InOrder(c, nonces, client, rows, order[..n]).value, Waiting(rows, order, n))
  {
    hide InOrder, Passes, PartlyRenamed, Waiting, Enumerates;
    if n == 0 {
      NothingDone(c, nonces, client, rows, order);
    } else {
      InOrderIff(c, nonces, client, rows, order, n - 1);
      NoneStays(c, nonces, client, rows, order[..n], n - 1);
      assert order[..n][..n - 1] == order[..n - 1];
      if InOrder(c, nonces, client, rows, order[..n - 1]).Some? {
        OneMoreInOrder(c, nonces, client, rows, order, n - 1, InOrder(c, nonces, client, rows, order[..n - 1]).value);
      }
    }
  }

  lemma NothingDone(c: Crypto, nonces: Nonces, client: string, rows: map<CredKey, Credential>, order: seq<CredKey>)
    ensures InOrder(c, nonces, client, rows, order[..0]) == Some(rows)
    ensures PartlyRenamed(c, nonces, client, rows, rows, Waiting(rows, order, 0))
  {
    assert Waiting(rows, order, 0) == rows.Keys;
    NothingRenamed(c, nonces, client, rows);
    hide PartlyRenamed;
  }

  lemma OneMoreInOrder(c: Crypto, nonces: Nonces, client: string, rows: map<CredKey, Credential>, order: seq<CredKey>, n: nat,
                       table: map<CredKey, Credential>)
    requires Enumerates(order, rows.Keys) && n < |order|
    requires InOrder(c, nonces, client, rows, order[..n]) == Some(table)
    requires PartlyRenamed(c, nonces, client, rows, table, Waiting(rows, order, n))
    ensures order[n] in rows
    ensures var next := InOrder(c, nonces, client, rows, order[..n + 1]);
            && (next.Some? <==> Passes(c, nonces, client, rows, order, n))
            && (next.Some? ==> PartlyRenamed(c, nonces, client, rows, next.value, Waiting(rows, order, n + 1)))
  {
    var k, todo := order[n], Waiting(rows, order, n);
    assert order[..n + 1][..n] == order[..n] && order[n] in order;
    assert k in todo && Waiting(rows, order, n + 1) == todo - {k} by { NextWaiting(rows, order, n); }
    hide PartlyRenamed, MovedRow, MovedSecret, Waiting, Enumerates, Doomed;
    if Movable(k.user) {
      TakenIff(c, nonces, client, rows, table, todo, k);
      StuckIff(c, nonces, client, rows, k);
      assert NewKey(client, k) in rows ==> (NewKey(client, k) in todo <==> NewKey(client, k) !in order[..n]) by {
        WaitingMeans(rows, order, n, NewKey(client, k));
      }
      if NewKey(client, k) !in table && MovedSecret(c, nonces, client, k, rows[k].secret).Ok? {
        RenameOne(c, nonces, client, rows, table, todo, k);
      }
    } else {
      PassOne(c, nonces, client, rows, table, todo, k);
    }
  }

  /** One row's turn, case by case. */
  lemma Turn(c: Crypto, nonces: Nonces, client: string, rows: map<CredKey, Credential>, order: seq<CredKey>, n: nat,
             table: map<CredKey, Credential>)
    requires n < |order| && order[n] in rows && InOrder(c, nonces, client, rows, order[..n]) == Some(table)
    ensures var k, next := order[n], InOrder(c, nonces, client, rows, order[..n + 1]);
            var moved := MovedSecret(c, nonces, client, k, rows[k].secret);
            if !Movable(k.user) then next == Some(table)
            else if moved.Err? || NewKey(client, k) in table then next == None
            else next == Some((table - {k})[NewKey(client, k) := rows[k].(secret := moved.value)])
  {
    assert order[..n + 1][..n] == order[..n];
    hide MovedSecret, NewKey, Movable;
  }

  lemma WaitingMeans(rows: map<CredKey, Credential>, order: seq<CredKey>, n: nat, k: CredKey)
    requires n <= |order|
    ensures k in Waiting(rows, order, n) <==> k in rows && k !in order[..n]
  {
  }

  lemma NextWaiting(rows: map<CredKey, Credential>, order: seq<CredKey>, n: nat)
    requires Enumerates(order, rows.Keys) && n < |order|
    ensures order[n] in Waiting(rows, order, n)
    ensures Waiting(rows, order, n + 1) == Waiting(rows, order, n) - {order[n]}
  {
    assert order[..n + 1] == order[..n] + [order[n]];
    assert order[n] in order;
  }

  lemma {:induction false} NoneStays(c: Crypto, nonces: Nonces, client: string, rows: map<CredKey, Credential>,
                                     order: seq<CredKey>, n: nat)
    requires n <= |order|
    ensures InOrder(c, nonces, client, rows, order[..n]).None? ==> InOrder(c, nonces, client, rows, order).None?
    decreases |order|
  {
    hide MovedSecret, MovedRow, NewKey, Movable;
    if n < |order| {
      assert order[..|order| - 1][..n] == order[..n];
      NoneStays(c, nonces, client, rows, order[..|order| - 1], n);
    } else {
      assert order[..n] == order;
    }
  }

  /** A complete renaming is the renamed table whatever the order; a failed one had a row in the way or unreadable. */
  lemma InOrderIsRenamed(c: Crypto, nonces: Nonces, client: string, rows: map<CredKey, Credential>, order: seq<CredKey>)
    requires Enumerates(order, rows.Keys)
    ensures InOrder(c, nonces, client, rows, order).Some? ==>
              && (forall k :: k in rows ==> !Doomed(c, nonces, client, rows, k))
              && InOrder(c, nonces, client, rows, order).value == Renamed(c, nonces, client, rows)
    ensures InOrder(c, nonces, client, rows, order).None? ==> exists k :: k in rows && Stuck(c, nonces, client, rows, k)
  {
    InOrderIff(c, nonces, client, rows, order, |order|);
    assert order[..|order|] == order;
    hide PartlyRenamed, Renamed, InOrder;
    if InOrder(c, nonces, client, rows, order).Some? {
      assert Waiting(rows, order, |order|) == {};
      AllRenamed(c, nonces, client, rows, InOrder(c, nonces, client, rows, order).value);
    } else {
      var i :| 0 <= i < |order| && !(order[i] in rows && Passes(c, nonces, client, rows, order, i));
      assert order[i] in order;
      assert Stuck(c, nonces, client, rows, order[i]);
    }
  }

  // ----- when the order decides -----

  lemma {:induction false} LongestUser(keys: set<CredKey>) returns (k: CredKey)
    requires keys != {}
    ensures k in keys && forall l :: l in keys ==> |l.user| <= |k.user|
  {
    k :| k in keys;
    if keys != {k} {
      assert keys - {k} != {};
      var l := LongestUser(keys - {k});
      if |l.user| > |k.user| {
        k := l;
      }
    }
  }

  ghost predicate LongestFirst(order: seq<CredKey>) {
    forall i, j :: 0 <= i < j < |order| ==> |order[i].user| >= |order[j].user|
  }

  lemma {:induction false} ByLength(keys: set<CredKey>) returns (order: seq<CredKey>)
    ensures Enumerates(order, keys) && LongestFirst(order)
  {
    if keys == {} {
      order := [];
    } else {
      var k := LongestUser(keys);
      var rest := ByLength(keys - {k});
      order := [k] + rest;
      FirstAdded(k, rest, keys);
    }
  }

  lemma FirstAdded(k: CredKey, rest: seq<CredKey>, keys: set<CredKey>)
    requires k in keys && Enumerates(rest, keys - {k})
    ensures Enumerates([k] + rest, keys)
    ensures (forall l :: l in keys ==> |l.user| <= |k.user|) && LongestFirst(rest) ==> LongestFirst([k] + rest)
  {
    assert forall l :: l in [k] + rest <==> l == k || l in rest;
    assert forall i :: 0 <= i < |rest| ==> rest[i] in rest;
  }

  lemma LongestFirstPasses(c: Crypto, nonces: Nonces, client: string, rows: map<CredKey, Credential>, order: seq<CredKey>, i: nat)
    requires Enumerates(order, rows.Keys) && LongestFirst(order) && i < |order| && order[i] in rows
    requires !Doomed(c, nonces, client, rows, order[i])
    ensures Passes(c, nonces, client, rows, order, i)
  {
    var k := order[i];
    if Movable(k.user) && NewKey(client, k) in rows {
      assert NewKey(client, k) in order;
      var j :| 0 <= j < |order| && order[j] == NewKey(client, k);
      assert |order[j].user| > |k.user|;
      assert j < i && order[..i][j] == order[j];
    }
    hide Movable, MovedSecret, NewKey, LongestFirst, Enumerates;
  }

  /** With the longest names first, a row whose place is taken by a movable one finds it moved. */
  lemma LongestFirstSucceeds(c: Crypto, nonces: Nonces, client: string, rows: map<CredKey, Credential>)
    requires forall k :: k in rows ==> !Doomed(c, nonces, client, rows, k)
    ensures exists order :: Enumerates(order, rows.Keys) && InOrder(c, nonces, client, rows, order).Some?
  {
    var order := ByLength(rows.Keys);
    forall i | 0 <= i < |order| ensures order[i] in rows && Passes(c, nonces, client, rows, order, i) {
      assert order[i] in order;
      LongestFirstPasses(c, nonces, client, rows, order, i);
    }
    hide Passes, InOrder, Doomed;
    InOrderIff(c, nonces, client, rows, order, |order|);
    assert order[..|order|] == order;
  }

  /** Put first, a row that may not be moved fails. */
  lemma StuckFirstFails(c: Crypto, nonces: Nonces, client: string, rows: map<CredKey, Credential>, k: CredKey)
    requires Stuck(c, nonces, client, rows, k)
    ensures exists order :: Enumerates(order, rows.Keys) && InOrder(c, nonces, client, rows, order).None?
  {
    var rest := ByLength(rows.Keys - {k});
    var order := [k] + rest;
    FirstAdded(k, rest, rows.Keys);
    assert order[..0] == [];
    assert !Passes(c, nonces, client, rows, order, 0);
    InOrderIff(c, nonces, client, rows, order, |order|);
    assert order[..|order|] == order;
  }

  /**
    Some order fails exactly when some row may not be moved, and some order succeeds exactly when no row is
    doomed: so the order decides exactly when there is a row of the first kind and none of the second.
  */
  lemma OrderDecidesIff(c: Crypto, nonces: Nonces, client: string, rows: map<CredKey, Credential>)
    ensures (exists order :: Enumerates(order, rows.Keys) && InOrder(c, nonces, client, rows, order).None?) <==>
            exists k :: k in rows && Stuck(c, nonces, client, rows, k)
    ensures (exists order :: Enumerates(order, rows.Keys) && InOrder(c, nonces, client, rows, order).Some?) <==>
            forall k :: k in rows ==> !Doomed(c, nonces, client, rows, k)
  {
    hide Enumerates, InOrder, Stuck, Doomed;
    forall order | Enumerates(order, rows.Keys)
      ensures InOrder(c, nonces, client, rows, order).Some? ==> forall k :: k in rows ==> !Doomed(c, nonces, client, rows, k)
      ensures InOrder(c, nonces, client, rows, order).None? ==> exists k :: k in rows && Stuck(c, nonces, client, rows, k)
    {
      InOrderIsRenamed(c, nonces, client, rows, order);
    }
    if k :| k in rows && Stuck(c, nonces, client, rows, k) {
      StuckFirstFails(c, nonces, client, rows, k);
    }
    if forall k :: k in rows ==> !Doomed(c, nonces, client, rows, k) {
      LongestFirstSucceeds(c, nonces, client, rows);
    }
  }

  /** A row with an empty user name beside one whose name is the bare prefix of client `c`. */
  function BlankNameRows(): map<CredKey, Credential> {
    map[CredKey("", "s", "a") := Credential("", "u", "x"), CredKey("c::", "s", "a") := Credential("", "u", "y")]
  }

  /** In such a table the first row may not be moved, and neither is doomed, so the order decides. */
  lemma BlankNameExample(c: Crypto, nonces: Nonces)
    ensures exists k :: k in BlankNameRows() && Stuck(c, nonces, "c", BlankNameRows(), k)
    ensures forall k :: k in BlankNameRows() ==> !Doomed(c, nonces, "c", BlankNameRows(), k)
  {
    var k, l := CredKey("", "s", "a"), CredKey("c::", "s", "a");
    var rows := BlankNameRows();
    assert Movable("") && Movable("c::") by { BothMovable(); }
    assert NewKey("c", k) == l;
    assert |NewKey("c", l).user| == 6;
    assert NewKey("c", l) !in rows;
    assert !IsEncrypted("x") && !IsEncrypted("y");
    hide Movable, NewKey, IsEncrypted;
    assert k in rows && Stuck(c, nonces, "c", rows, k);
  }

  lemma BothMovable()
    ensures Movable("") && Movable("c::")
  {
    StripTight("");
    StripTight("c::");
    SeparatorAfterClient("c", "");
    assert "c" + SEPARATOR + "" == "c::";
    assert FirstSeparator("c::") == Some(1) && SplitScoped("c::") == None;
    assert |CANONICAL| == 15;
  }

  /** Unscoped credentials get the client's prefix, row by row; one that cannot be moved fails the whole transaction. */
  method RenameCredentials(c: Crypto, nonces: Nonces, client: string, rows: map<CredKey, Credential>, order: seq<CredKey>)
    returns (table: Option<map<CredKey, Credential>>, changed: nat)
    requires Enumerates(order, rows.Keys)
    ensures table == InOrder(c, nonces, client, rows, order)
    ensures table.None? ==> exists k :: k in rows && Stuck(c, nonces, client, rows, k)
    ensures table.Some? ==>
              && (forall k :: k in rows ==> !Doomed(c, nonces, client, rows, k))
              && table.value == Renamed(c, nonces, client, rows) && changed == |MovableKeys(rows)|
  {
    hide Stuck, Doomed, Renamed, Movable, Waiting, InOrder, MovedSecret, NewKey, MovableKeys;
    InOrderIsRenamed(c, nonces, client, rows, order);
    assert InOrder(c, nonces, client, rows, order[..0]) == Some(rows) by { NothingDone(c, nonces, client, rows, order); }
    var current := rows;
    changed := 0;
    var i := 0;
    assert changed == |MovableKeys(rows) - Waiting(rows, order, 0)| by { NoneMoved(rows, order); }
    while i < |order|
      invariant 0 <= i <= |order|
      invariant InOrder(c, nonces, client, rows, order[..i]) == Some(current)
      invariant changed == |MovableKeys(rows) - Waiting(rows, order, i)|
    {
      var k := order[i];
      assert k in order;
      Turn(c, nonces, client, rows, order, i, current);
      NextWaiting(rows, order, i);
      RemoveOne(Waiting(rows, order, i), MovableKeys(rows), k);
      MovableMeans(rows, k);
      if Movable(k.user) {
        var moved := MovedSecret(c, nonces, client, k, rows[k].secret);
        if moved.Err? || NewKey(client, k) in current {
          NoneStays(c, nonces, client, rows, order, i + 1);
          return None, changed;
        }
        current := (current - {k})[NewKey(client, k) := rows[k].(secret := moved.value)];
        changed := changed + 1;
      }
      i := i + 1;
    }
    assert order[..i] == order;
    AllMoved(rows, order);
    table := Some(current);
  }

  lemma MovableMeans(rows: map<CredKey, Credential>, k: CredKey)
    ensures k in MovableKeys(rows) <==> k in rows && Movable(k.user)
  {
  }

  lemma NoneMoved(rows: map<CredKey, Credential>, order: seq<CredKey>)
    ensures MovableKeys(rows) - Waiting(rows, order, 0) == {}
  {
    hide Movable;
  }

  lemma AllMoved(rows: map<CredKey, Credential>, order: seq<CredKey>)
    requires Enumerates(order, rows.Keys)
    ensures MovableKeys(rows) - Waiting(rows, order, |order|) == MovableKeys(rows)
  {
    hide Movable;
    assert order[..|order|] == order;
  }

  lemma NothingRenamed(c: Crypto, nonces: Nonces, client: string, rows: map<CredKey, Credential>)
    ensures PartlyRenamed(c, nonces, client, rows, rows, rows.Keys)
  {
  }

  lemma StuckIff(c: Crypto, nonces: Nonces, client: string, rows: map<CredKey, Credential>, k: CredKey)
    requires k in rows && Movable(k.user)
    ensures var fails := MovedSecret(c, nonces, client, k, rows[k].secret).Err?;
            && (Stuck(c, nonces, client, rows, k) <==> fails || NewKey(client, k) in rows)
            && (Doomed(c, nonces, client, rows, k) <==> fails || (NewKey(client, k) in rows && !Movable(NewKey(client, k).user)))
  {
  }

  lemma MovedRowIs(c: Crypto, nonces: Nonces, client: string, k: CredKey, row: Credential)
    requires MovedSecret(c, nonces, client, k, row.secret).Ok?
    ensures MovedRow(c, nonces, client, k, row) == row.(secret := MovedSecret(c, nonces, client, k, row.secret).value)
  {
  }

  method RenameFlows(c: Crypto, nonces: Nonces, client: string, rows: map<string, Flow>) returns (table: Option<map<string, Flow>>)
    ensures table.None? <==> exists id :: id in rows && MovedToken(c, nonces, client, id, rows[id]).Err?
    ensures table.Some? ==> table.value == ScopedFlows(c, nonces, client, rows)
  {
    hide MovedToken, NewFlowUser;
    var current := rows;
    var todo := rows.Keys;
    while todo != {}
      invariant todo <= rows.Keys == current.Keys
      invariant forall id :: id in todo ==> current[id] == rows[id]
      invariant forall id :: id in rows && id !in todo ==>
                  MovedToken(c, nonces, client, id, rows[id]).Ok? && current[id] == MovedFlow(c, nonces, client, id, rows[id])
    {
      var id :| id in todo;
      var moved := MovedToken(c, nonces, client, id, rows[id]);
      if moved.Err? {
        return None;
      }
      current := current[id := rows[id].(user := NewFlowUser(client, rows[id].user), token := moved.value)];
      todo := todo - {id};
    }
    table := Some(current);
  }

  class CredentialStore {
    const crypto: Crypto
    var credentials: map<CredKey, Credential>
    var flows: map<string, Flow>
    var sessions: map<string, Session>
    var bindings: map<string, string>
    var clients: set<string>
    var users: map<string, User>
    var scopedFor: Option<string>

    function State(): Tables
      reads this
    {
      Tables(credentials, flows, sessions, bindings, clients, users, scopedFor)
    }

    constructor (c: Crypto)
      ensures crypto == c && State() == Tables(map[], map[], map[], map[], {}, map[], None)
    {
      crypto := c;
      credentials, flows, sessions, bindings := map[], map[], map[], map[];
      clients, users, scopedFor := {}, map[], None;
    }

    method SetCredential(nonces: Nonces, ragUser: string, service: string, username: string, secret: string,
                         account: string, server: string)
      returns (r: Result<(), Fault>)
      modifies this`credentials
      ensures var k := StoreKey(ragUser, service, account);
              var row := Credential(server, Strip(username), secret);
              if k.user == "" || k.service == "" || row.username == "" || secret == "" then
                r == Err(Invalid) && State() == old(State())
              else
                match WithCredential(crypto, nonces, old(State()), k, row)
                case Ok(t) => r == Ok(()) && State() == t
                case Err(f) => r == Err(f) && State() == old(State())
    {
      var k := StoreKey(ragUser, service, account);
      if k.user == "" || k.service == "" || Strip(username) == "" || secret == "" {
        return Err(Invalid);
      }
      var stored := Encrypt(crypto, nonces(CredentialRow(k)), secret, CredentialAad(k));
      if stored.Err? {
        return Err(stored.error);
      }
      credentials := credentials[k := Credential(server, Strip(username), stored.value)];
      r := Ok(());
    }

    method GetCredential(ragUser: string, service: string, account: string) returns (r: Result<Option<Credential>, Fault>)
      ensures r == Reading(crypto, State(), LookupKey(ragUser, service, account))
    {
      var k := LookupKey(ragUser, service, account);
      if k !in credentials {
        return Ok(None);
      }
      var clear := Decrypt(crypto, credentials[k].secret, CredentialAad(k), false);
      r := if clear.Ok? then Ok(Some(credentials[k].(secret := clear.value))) else Err(clear.error);
    }

    method DeleteCredential(ragUser: string, service: string, account: string) returns (found: bool)
      modifies this`credentials
      ensures var k := LookupKey(ragUser, service, account);
              found == (k in old(credentials)) && credentials == old(credentials) - {k}
    {
      var k := LookupKey(ragUser, service, account);
      found := k in credentials;
      credentials := credentials - {k};
    }

    method CreateNextcloudFlow(nonces: Nonces, id: string, ragUser: string, endpoint: string, token: string, loginUrl: string)
      returns (r: Result<(), Fault>)
      modifies this`flows
      ensures match WithFlow(crypto, nonces, old(State()), id, Flow(Strip(ragUser), endpoint, token, loginUrl))
              case Ok(t) => r == Ok(()) && State() == t
              case Err(f) => r == Err(f) && State() == old(State())
    {
      var user := Strip(ragUser);
      var stored := Encrypt(crypto, nonces(FlowRow(id)), token, FlowAad(id, user));
      if stored.Err? {
        return Err(stored.error);
      }
      if id in flows {
        return Err(Conflict);
      }
      flows := flows[id := Flow(user, endpoint, stored.value, loginUrl)];
      r := Ok(());
    }

    method CreateCurationSession(nonces: Nonces, digest: string, csrf: string, now: real, userId: string, server: string,
                                 login: string, password: string, lifetime: real)
      returns (r: Result<(), Fault>)
      modifies this`sessions
      ensures match WithSession(crypto, nonces, old(State()), digest, NewSession(userId, server, login, password, csrf, now, lifetime))
              case Ok(t) => r == Ok(()) && State() == t
              case Err(f) => r == Err(f) && State() == old(State())
      ensures r.Ok? ==>
                && digest in sessions
                && sessions[digest] == Session(userId, server, Strip(login), sessions[digest].password, csrf, true, sessions[digest].expires)
                && sessions[digest].expires == if lifetime < 60.0 then now + 60.0 else now + lifetime
    {
      if !Enabled(crypto) {
        return Err(NoKey);
      }
      var fault := SessionFault(State(), userId);
      if fault.Some? {
        return Err(fault.value);
      }
      var stored := Encrypt(crypto, nonces(SessionRow(digest)), password, SessionAad(digest, userId));
      if stored.Err? {
        return Err(stored.error);
      }
      if digest in sessions || userId !in users {
        return Err(Conflict);
      }
      var session := NewSession(userId, server, login, password, csrf, now, lifetime);
      sessions := sessions[digest := session.(password := stored.value)];
      r := Ok(());
    }

    method MarkRevocationPending(digest: string)
      modifies this`sessions
      ensures sessions == Marked(old(sessions), digest)
    {
      if digest in sessions {
        sessions := sessions[digest := sessions[digest].(active := false)];
      }
    }

    method DeleteSession(digest: string) returns (found: bool)
      modifies this`sessions
      ensures found == (digest in old(sessions)) && sessions == old(sessions) - {digest}
    {
      found := digest in sessions;
      sessions := sessions - {digest};
    }

    method MigratePlaintextSecrets(nonces: Nonces) returns (r: Result<(nat, nat, nat), Fault>)
      modifies this
      ensures if !Enabled(crypto) then r == Err(NoKey) && State() == old(State())
              else
                && r == Ok((|PlainCredentials(old(credentials))|, |PlainFlows(old(flows))|, |PlainSessions(old(sessions))|))
                && State() == AllProtected(crypto, nonces, old(State()))
    {
      if !Enabled(crypto) {
        return Err(NoKey);
      }
      var newCredentials, credentialsChanged := ProtectCredentials(crypto, nonces, credentials);
      var newFlows, flowsChanged := ProtectFlows(crypto, nonces, flows);
      var newSessions, sessionsChanged := ProtectSessions(crypto, nonces, sessions);
      credentials, flows, sessions := newCredentials, newFlows, newSessions;
      r := Ok((credentialsChanged, flowsChanged, sessionsChanged));
    }

    /**
      All rows move or none; `order` is the order in which the database returns the credentials.  Without
      blank user names the outcome does not depend on it and is that of `Step`.
    */
    method MigrateLegacyIdentities(nonces: Nonces, clientId: string, order: seq<CredKey>) returns (r: Result<nat, Fault>)
      requires Enumerates(order, credentials.Keys)
      modifies this
      ensures r.Err? ==> State() == old(State())
      ensures var s, client := old(State()), Strip(clientId);
              if !ValidClient(client) then r == Err(Invalid)
              else if s.scopedFor.Some? then r == Ok(0) && State() == s
              else if InOrder(crypto, nonces, client, s.credentials, order).None? || FlowFails(crypto, nonces, client, s.flows)
              then r == Err(Conflict) && Blocked(crypto, nonces, client, s)
              else
                && !Hopeless(crypto, nonces, client, s) && State() == AllScoped(crypto, nonces, s, client)
                && r == Ok(|MovableKeys(s.credentials)|)
      ensures (forall k :: k in old(credentials) ==> Strip(k.user) != "") ==>
                match Step(crypto, nonces, old(State()), ScopeIdentities(Strip(clientId)))
                case Ok(t) => r.Ok? && State() == t
                case Err(f) => r == Err(f)
    {
      hide AllScoped, Renamed, ScopedFlows, MovableKeys, Stuck, Doomed, Strip, InOrder;
      var client := Strip(clientId);
      if !ValidClient(client) {
        return Err(Invalid);
      }
      if scopedFor.Some? {
        return Ok(0);
      }
      ghost var s := State();
      BlockedIsHopeless(crypto, nonces, client, s);
      var newCredentials, changed := RenameCredentials(crypto, nonces, client, credentials, order);
      if newCredentials.None? {
        assert Blocked(crypto, nonces, client, s);
        return Err(Conflict);
      }
      var newFlows := RenameFlows(crypto, nonces, client, flows);
      if newFlows.None? {
        assert FlowFails(crypto, nonces, client, s.flows);
        return Err(Conflict);
      }
      assert !Hopeless(crypto, nonces, client, s);
      credentials, flows, scopedFor := newCredentials.value, newFlows.value, Some(client);
      AllScopedIs(crypto, nonces, s, client);
      r := Ok(changed);
    }

    method DeleteClient(clientId: string, purge: bool) returns (r: Result<bool, Fault>)
      modifies this
      ensures match Step(crypto, NoNonces(), old(State()), Op.DeleteClient(Strip(clientId), purge))
              case Ok(t) => State() == t && r == Ok(Strip(clientId) in old(clients))
              case Err(f) => r == Err(f) && State() == old(State())
    {
      var client := Strip(clientId);
      if !ValidClient(client) {
        return Err(Invalid);
      }
      if client !in clients {
        return Ok(false);
      }
      clients := clients - {client};
      if purge {
        var prefix := client + SEPARATOR;
        flows := FlowsOutside(prefix, flows);
        credentials := CredentialsOutside(prefix, credentials);
        bindings := BindingsOutside(prefix, bindings);
      }
      r := Ok(true);
    }
  }

  function NewSession(user: string, server: string, login: string, password: string, csrf: string, now: real, lifetime: real): Session {
    Session(user, server, Strip(login), password, csrf, true, now + if lifetime > 60.0 then lifetime else 60.0)
  }

  /** For operations that encrypt nothing. */
  function NoNonces(): Nonces { (_: RowId) => 0 }

  lemma AllScopedIs(c: Crypto, nonces: Nonces, s: Tables, client: string)
    requires !Hopeless(c, nonces, client, s)
    ensures AllScoped(c, nonces, s, client) ==
            s.(credentials := Renamed(c, nonces, client, s.credentials), flows := ScopedFlows(c, nonces, client, s.flows),
               scopedFor := Some(client))
  {
  }
}
