/**
  IMAP mailbox synchronisation with two watermarks.

  A mailbox row stores `liveUid`, which climbs as new messages are archived, and
  `backfillBefore`, which sinks as history is archived from new to old.  A run
  spends one message budget on the live side first and on the backfill second.
  UIDs grow strictly within one UIDVALIDITY epoch (section 2.3.1.1 of RFC 3501).
*/
module MailSync {
  import opened Wrappers
  import opened Seqs

  datatype Key = Key(account: string, mailbox: string)

  /** One row of the table `mail_sync_state`. */
  datatype Row = Row(uidvalidity: nat, liveUid: int, backfillBefore: int, legacyLast: int)

  /** One row of the older, read-only table `mail_cursors`. */
  datatype Cursor = Cursor(uidvalidity: nat, lastUid: int)

  // ----- opening a mailbox -----

  /** A UIDVALIDITY of 0 on either side (the value used when it could not be read) matches anything. */
  predicate Matches(stored: nat, current: nat) {
    current == 0 || stored == 0 || stored == current
  }

  function LegacyCursor(cursors: map<Key, Cursor>, key: Key, validity: nat): int {
    if key !in cursors || !Matches(cursors[key].uidvalidity, validity) then 0
    else Max(0, cursors[key].lastUid)
  }

  /** The older cursor table knows `u` of this epoch, or of an epoch that cannot be told apart from it. */
  ghost predicate InCursor(cursors: map<Key, Cursor>, key: Key, validity: nat, u: int) {
    && key in cursors && u <= cursors[key].lastUid
    && (cursors[key].uidvalidity == 0 || validity == 0 || cursors[key].uidvalidity == validity)
  }

  lemma LegacyIff(cursors: map<Key, Cursor>, key: Key, validity: nat)
    ensures forall u: int :: u > 0 ==> (u <= LegacyCursor(cursors, key, validity) <==> InCursor(cursors, key, validity, u))
  {
  }

  function FreshRow(cursors: map<Key, Cursor>, key: Key, validity: nat, mailboxMaxUid: int): Row {
    var live := Max(0, mailboxMaxUid);
    Row(validity, live, live + 1, LegacyCursor(cursors, key, validity))
  }

  /** The watermarks a run works with: the stored row if its epoch matches, otherwise a fresh one. */
  function OpenRow(rows: map<Key, Row>, cursors: map<Key, Cursor>, key: Key, validity: nat, mailboxMaxUid: int): Row {
    if key in rows && Matches(rows[key].uidvalidity, validity) then rows[key]
    else FreshRow(cursors, key, validity, mailboxMaxUid)
  }

  // ----- what is pending, and what a run takes -----

  function Newer(row: Row): int -> bool { uid => uid > row.liveUid }

  function Older(row: Row): int -> bool { uid => row.legacyLast < uid < row.backfillBefore }

  function LivePending(row: Row, uids: seq<int>): seq<int> {
    Keep(uids, Newer(row))
  }

  function BackfillPending(row: Row, uids: seq<int>): seq<int> {
    Reverse(Keep(uids, Older(row)))
  }

  /** The work queue of a mailbox: new messages upwards, then history downwards. */
  function Pending(row: Row, uids: seq<int>): seq<int> {
    LivePending(row, uids) + BackfillPending(row, uids)
  }

  /** How many of `n` pending messages a run may take; a limit of 0 or less means no limit. */
  function Quota(maxMessages: int, n: nat): (q: nat)
    ensures q <= n
  {
    if maxMessages > 0 then Min(maxMessages, n) else n
  }

  /** The row after the messages of `live` and then those of `back` were committed one by one. */
  function Advanced(row: Row, validity: nat, live: seq<int>, back: seq<int>): Row {
    Row(if live == [] && back == [] then row.uidvalidity else validity,
        if live == [] then row.liveUid else live[|live| - 1],
        if back == [] then row.backfillBefore else back[|back| - 1],
        row.legacyLast)
  }

  /** The row after the first `k` messages of the work queue were committed. */
  function After(row: Row, validity: nat, uids: seq<int>, k: nat): Row
    requires k <= |Pending(row, uids)|
  {
    var live := LivePending(row, uids);
    var n := Min(k, |live|);
    Advanced(row, validity, live[..n], BackfillPending(row, uids)[..k - n])
  }

  function LastOrZero(uids: seq<int>): int {
    if uids == [] then 0 else uids[|uids| - 1]
  }

  function MaxMessages(cliMax: Option<int>, configuredMax: int): int {
    if cliMax.Some? then cliMax.value else configuredMax
  }

  /** How many messages a run handles when the import of message number `good` (if reached) raises. */
  function Handled(row: Row, uids: seq<int>, maxMessages: int, good: nat): (k: nat)
    ensures k <= |Pending(row, uids)|
  {
    Min(Quota(maxMessages, |Pending(row, uids)|), good)
  }

  lemma HandledCount(row: Row, uids: seq<int>, maxMessages: int, good: nat)
    ensures var n := |Pending(row, uids)|;
            var batch := if maxMessages > 0 && maxMessages < n then maxMessages else n;
            && Quota(maxMessages, n) == batch
            && Handled(row, uids, maxMessages, good) == if good < batch then good else batch
  {
    hide Pending;
  }

  // ----- the stateful program -----

  class StateDB {
    var rows: map<Key, Row>
    const cursors: map<Key, Cursor>

    constructor (cursors: map<Key, Cursor>)
      ensures rows == map[] && this.cursors == cursors
    {
      rows := map[];
      this.cursors := cursors;
    }

    method LoadOrInitialize(key: Key, validity: nat, mailboxMaxUid: int, persist: bool) returns (row: Row)
      modifies this`rows
      ensures row == OpenRow(old(rows), cursors, key, validity, mailboxMaxUid)
      ensures if key in old(rows) && (validity == 0 || old(rows)[key].uidvalidity in {0, validity}) then row == old(rows)[key]
              else
                && row.uidvalidity == validity && row.liveUid == Max(0, mailboxMaxUid)
                && row.backfillBefore == row.liveUid + 1 && row.legacyLast >= 0
                && forall u: int :: u > 0 ==> (u <= row.legacyLast <==> InCursor(cursors, key, validity, u))
      ensures rows == if persist then old(rows)[key := row] else old(rows)
    {
      if key in rows {
        var stored := rows[key];
        if validity == 0 || stored.uidvalidity == 0 || stored.uidvalidity == validity {
          assert rows == rows[key := stored];
          return stored;
        }
        if persist {
          rows := rows - {key};
        }
      }
      var legacyLast := 0;
      if key in cursors {
        var cursor := cursors[key];
        if !(validity != 0 && cursor.uidvalidity != 0 && cursor.uidvalidity != validity) {
          legacyLast := Max(0, cursor.lastUid);
        }
      }
      var liveUid := Max(0, mailboxMaxUid);
      row := Row(validity, liveUid, liveUid + 1, legacyLast);
      if persist {
        rows := rows[key := row];
      }
    }

    /** An UPDATE: it touches nothing when the row is missing. */
    method SaveLive(key: Key, validity: nat, uid: int)
      modifies this`rows
      ensures rows == if key in old(rows)
                      then old(rows)[key := old(rows)[key].(uidvalidity := validity, liveUid := uid)]
                      else old(rows)
    {
      if key in rows {
        rows := rows[key := rows[key].(uidvalidity := validity, liveUid := uid)];
      }
    }

    method SaveBackfillBefore(key: Key, validity: nat, uid: int)
      modifies this`rows
      ensures rows == if key in old(rows)
                      then old(rows)[key := old(rows)[key].(uidvalidity := validity, backfillBefore := uid)]
                      else old(rows)
    {
      if key in rows {
        rows := rows[key := rows[key].(uidvalidity := validity, backfillBefore := uid)];
      }
    }
  }

  /**
    One mailbox run.  `everyUid` and `eligible` are the answers of the unfiltered and of the
    date-filtered UID SEARCH.  Fetching, policy hook, rendering and upload of one message are
    abstracted to success or an exception: message number `good` of the run raises.
  */
  method SyncMailbox(db: StateDB, key: Key, validity: nat, everyUid: seq<int>, eligible: seq<int>,
                     cliMax: Option<int>, configuredMax: int, dryRun: bool, good: nat)
    returns (handled: seq<int>, available: nat, raised: bool)
    modifies db`rows
    ensures var row := OpenRow(old(db.rows), db.cursors, key, validity, LastOrZero(everyUid));
            var k := Handled(row, eligible, MaxMessages(cliMax, configuredMax), good);
            && handled == Pending(row, eligible)[..k]
            && available == |Pending(row, eligible)|
            && (raised <==> good < Quota(MaxMessages(cliMax, configuredMax), available))
            && db.rows == if dryRun then old(db.rows) else old(db.rows)[key := After(row, validity, eligible, k)]
    ensures var limit := if cliMax.Some? then cliMax.value else configuredMax;
            var batch := if limit > 0 && limit < available then limit else available;
            |handled| == (if raised then good else batch) && (raised <==> good < batch)
  {
    hide Keep, OpenRow, After, Quota, Handled, LivePending, BackfillPending, Advanced;
    var row := db.LoadOrInitialize(key, validity, LastOrZero(everyUid), !dryRun);
    ghost var rows0 := db.rows;
    var livePending := LivePending(row, eligible);
    var backfillPending := BackfillPending(row, eligible);

    var maxMessages := if cliMax.Some? then cliMax.value else configuredMax;
    var remaining: Option<int> := if maxMessages > 0 then Some(maxMessages) else None;
    var liveBatch := if remaining.None? then livePending else livePending[..Min(remaining.value, |livePending|)];
    if remaining.Some? {
      remaining := Some(remaining.value - |liveBatch|);
    }
    var backfillBatch := if remaining.None? then backfillPending
                         else backfillPending[..Min(Max(0, remaining.value), |backfillPending|)];
    available := |livePending| + |backfillPending|;

    BatchesAreQueuePrefix(row, validity, eligible, maxMessages, liveBatch, backfillBatch, good);
    handled, raised := ImportLive(db, key, validity, liveBatch, dryRun, good);
    if raised {
      assert backfillBatch[..0] == [];
    } else {
      var older;
      older, raised := ImportBackfill(db, key, validity, backfillBatch, dryRun, good - |liveBatch|);
      AdvancedCompose(row, validity, handled, older);
      handled := handled + older;
    }
    var k := Handled(row, eligible, maxMessages, good);
    assert handled == Pending(row, eligible)[..k];
    HandledCount(row, eligible, maxMessages, good);
  }

  lemma AdvancedCompose(row: Row, validity: nat, live: seq<int>, back: seq<int>)
    ensures Advanced(Advanced(row, validity, live, []), validity, [], back) == Advanced(row, validity, live, back)
  {
  }

  /** First loop of a run: archive and commit upwards; message number `good` raises. */
  method ImportLive(db: StateDB, key: Key, validity: nat, batch: seq<int>, dryRun: bool, good: nat)
    returns (handled: seq<int>, raised: bool)
    requires !dryRun ==> key in db.rows
    modifies db`rows
    ensures handled == batch[..Min(|batch|, good)] && (raised <==> good < |batch|)
    ensures db.rows == if dryRun then old(db.rows)
                       else old(db.rows)[key := Advanced(old(db.rows)[key], validity, handled, [])]
  {
    handled, raised := [], false;
    var i := 0;
    while i < |batch|
      invariant 0 <= i <= |batch| && i <= good
      invariant handled == batch[..i]
      invariant db.rows == if dryRun then old(db.rows)
                           else old(db.rows)[key := Advanced(old(db.rows)[key], validity, handled, [])]
    {
      if i == good {
        return handled, true;
      }
      if !dryRun {
        db.SaveLive(key, validity, batch[i]);
      }
      handled := handled + [batch[i]];
      i := i + 1;
    }
  }

  /** Second loop of a run: archive and commit downwards. */
  method ImportBackfill(db: StateDB, key: Key, validity: nat, batch: seq<int>, dryRun: bool, good: nat)
    returns (handled: seq<int>, raised: bool)
    requires !dryRun ==> key in db.rows
    modifies db`rows
    ensures handled == batch[..Min(|batch|, good)] && (raised <==> good < |batch|)
    ensures db.rows == if dryRun then old(db.rows)
                       else old(db.rows)[key := Advanced(old(db.rows)[key], validity, [], handled)]
  {
    handled, raised := [], false;
    var i := 0;
    while i < |batch|
      invariant 0 <= i <= |batch| && i <= good
      invariant handled == batch[..i]
      invariant db.rows == if dryRun then old(db.rows)
                           else old(db.rows)[key := Advanced(old(db.rows)[key], validity, [], handled)]
    {
      if i == good {
        return handled, true;
      }
      if !dryRun {
        db.SaveBackfillBefore(key, validity, batch[i]);
      }
      handled := handled + [batch[i]];
      i := i + 1;
    }
  }

  /** The two batches together are the first entries of the work queue, and so is every part handled. */
  lemma BatchesAreQueuePrefix(row: Row, validity: nat, uids: seq<int>, maxMessages: int,
                              liveBatch: seq<int>, backBatch: seq<int>, good: nat)
    requires var live, back := LivePending(row, uids), BackfillPending(row, uids);
             && liveBatch == (if maxMessages > 0 then live[..Min(maxMessages, |live|)] else live)
             && backBatch == (if maxMessages > 0 then back[..Min(Max(0, maxMessages - |liveBatch|), |back|)] else back)
    ensures |liveBatch| + |backBatch| == Quota(maxMessages, |Pending(row, uids)|)
    ensures var k := Handled(row, uids, maxMessages, good);
            var l, b := Min(|liveBatch|, good), Min(|backBatch|, Max(0, good - |liveBatch|));
            && l + b == k
            && liveBatch[..l] + backBatch[..b] == Pending(row, uids)[..k]
            && Advanced(row, validity, liveBatch[..l], backBatch[..b]) == After(row, validity, uids, k)
  {
    hide Keep, Reverse, Newer, Older;
    var live, back := LivePending(row, uids), BackfillPending(row, uids);
    var l, b := Min(|liveBatch|, good), Min(|backBatch|, Max(0, good - |liveBatch|));
    assert liveBatch[..l] == live[..l] && backBatch[..b] == back[..b];
    assert b > 0 ==> l == |live|;
    assert Pending(row, uids)[..l + b] == live[..l] + back[..b];
  }

  /** What a run leaves in the row: nothing taken changes nothing; otherwise the epoch read and the last UID taken on each side. */
  lemma AfterIs(row: Row, validity: nat, uids: seq<int>, k: nat)
    requires k <= |Pending(row, uids)|
    ensures k == 0 ==> After(row, validity, uids, k) == row
    ensures k > 0 ==>
              var live, back, r := LivePending(row, uids), BackfillPending(row, uids), After(row, validity, uids, k);
              && r.uidvalidity == validity && r.legacyLast == row.legacyLast
              && r.liveUid == (if live == [] then row.liveUid else if k < |live| then live[k - 1] else live[|live| - 1])
              && r.backfillBefore == if k <= |live| then row.backfillBefore else back[k - |live| - 1]
  {
    hide Keep, Reverse, LivePending, BackfillPending;
  }

  // ----- one run drops a prefix of the work queue -----

  lemma PendingMembers(row: Row, uids: seq<int>, uid: int)
    ensures uid in LivePending(row, uids) <==> uid in uids && uid > row.liveUid
    ensures uid in BackfillPending(row, uids) <==> uid in uids && row.legacyLast < uid < row.backfillBefore
    ensures uid in Pending(row, uids) <==>
            uid in uids && (uid > row.liveUid || row.legacyLast < uid < row.backfillBefore)
  {
    KeepMembers(uids, Newer(row), uid);
    KeepMembers(uids, Older(row), uid);
    var kept := Keep(uids, Older(row));
    assert uid in Reverse(kept) ==> uid in kept;
    if uid in kept {
      var i :| 0 <= i < |kept| && kept[i] == uid;
      assert Reverse(kept)[|kept| - 1 - i] == uid;
    }
  }

  /** All live UIDs come first, ascending; then the backfill UIDs, descending. */
  lemma PendingOrder(row: Row, uids: seq<int>)
    requires Ascending(uids)
    ensures Ascending(LivePending(row, uids)) && Descending(BackfillPending(row, uids))
  {
    KeepAscending(uids, Newer(row));
    KeepAscending(uids, Older(row));
  }

  /** An ascending list from which everything up to its (k-1)st element is removed. */
  lemma {:induction false} KeepAboveDrops(xs: seq<int>, p: int -> bool, q: int -> bool, k: nat)
    requires Ascending(xs) && 0 < k <= |Keep(xs, p)|
    requires forall x :: x in xs ==> (q(x) <==> p(x) && x > Keep(xs, p)[k - 1])
    ensures Keep(xs, q) == Keep(xs, p)[k..]
  {
    var kept := Keep(xs, p);
    var bound := kept[k - 1];
    KeepAscending(xs, p);
    KeepTwice(xs, p, x => x > bound, q);
    KeepConcat(kept[..k], kept[k..], x => x > bound);
    assert kept == kept[..k] + kept[k..];
    KeepNone(kept[..k], x => x > bound);
    KeepAll(kept[k..], x => x > bound);
  }

  lemma {:induction false} KeepBelowDrops(xs: seq<int>, p: int -> bool, q: int -> bool, k: nat)
    requires Ascending(xs) && 0 < k <= |Keep(xs, p)|
    requires forall x :: x in xs ==> (q(x) <==> p(x) && x < Reverse(Keep(xs, p))[k - 1])
    ensures Reverse(Keep(xs, q)) == Reverse(Keep(xs, p))[k..]
  {
    var kept := Keep(xs, p);
    var n := |kept| - k;
    var bound := kept[n];
    KeepAscending(xs, p);
    KeepTwice(xs, p, x => x < bound, q);
    KeepConcat(kept[..n], kept[n..], x => x < bound);
    assert kept == kept[..n] + kept[n..];
    KeepAll(kept[..n], x => x < bound);
    KeepNone(kept[n..], x => x < bound);
    ReversePrefix(kept, n);
  }

  /** The two watermarks never cross. */
  ghost predicate Sound(row: Row) {
    row.backfillBefore <= row.liveUid + 1
  }

  /**
    Committing `k` messages removes exactly the first `k` entries of the work queue
    and leaves the rest untouched and in the same order.
  */
  lemma RunDropsPrefix(row: Row, validity: nat, uids: seq<int>, k: nat)
    requires Ascending(uids) && Sound(row) && k <= |Pending(row, uids)|
    ensures Pending(After(row, validity, uids, k), uids) == Pending(row, uids)[k..]
    ensures Sound(After(row, validity, uids, k))
    ensures After(row, validity, uids, k).liveUid >= row.liveUid
    ensures After(row, validity, uids, k).backfillBefore <= row.backfillBefore
    ensures After(row, validity, uids, k).legacyLast == row.legacyLast
  {
    hide Keep, Reverse;
    var row' := After(row, validity, uids, k);
    var live, back := LivePending(row, uids), BackfillPending(row, uids);
    var n := Min(k, |live|);
    PendingOrder(row, uids);
    if n > 0 {
      PendingMembers(row, uids, live[n - 1]);
      KeepAboveDrops(uids, Newer(row), Newer(row'), n);
    }
    assert LivePending(row', uids) == live[n..];
    if k > n {
      PendingMembers(row, uids, back[k - n - 1]);
      KeepBelowDrops(uids, Older(row), Older(row'), k - n);
    }
    assert BackfillPending(row', uids) == back[k - n..];
  }

  // ----- the mailbox as a transition system -----

  /** Everything that stays fixed while one mailbox is in one UIDVALIDITY epoch. */
  datatype Epoch = Epoch(key: Key, validity: nat, cursors: map<Key, Cursor>)

  /** `top` is the largest UID ever assigned; `committed` lists archived UIDs in commit order. */
  datatype System = System(rows: map<Key, Row>, listing: seq<int>, top: int, committed: seq<int>)

  datatype Event =
    | Arrive(gap: nat)
    | Expunge(index: nat)
    | CrashInReset
    | Run(eligible: set<int>, maxMessages: int, dryRun: bool, good: nat)

  function InSet(uids: set<int>): int -> bool { uid => uid in uids }

  function Eligible(s: System, eligible: set<int>): seq<int> {
    Keep(s.listing, InSet(eligible))
  }

  function Opened(e: Epoch, s: System): Row {
    OpenRow(s.rows, e.cursors, e.key, e.validity, LastOrZero(s.listing))
  }

  function Step(e: Epoch, s: System, event: Event): System {
    match event
    case Arrive(gap) =>
      var uid := s.top + 1 + gap;
      s.(listing := s.listing + [uid], top := uid)
    case Expunge(i) =>
      if i < |s.listing| then s.(listing := s.listing[..i] + s.listing[i + 1..]) else s
    case CrashInReset =>
      // The foreign row was deleted and committed; the process died before the INSERT.
      if e.key in s.rows && !Matches(s.rows[e.key].uidvalidity, e.validity) then s.(rows := s.rows - {e.key}) else s
    case Run(eligible, maxMessages, dryRun, good) =>
      if dryRun then s
      else
        var row, uids := Opened(e, s), Eligible(s, eligible);
        var k := Handled(row, uids, maxMessages, good);
        s.(rows := s.rows[e.key := After(row, e.validity, uids, k)],
           committed := s.committed + Pending(row, uids)[..k])
  }

  function Exec(e: Epoch, s: System, events: seq<Event>): System
    decreases |events|
  {
    if events == [] then s else Exec(e, Step(e, s, events[0]), events[1..])
  }

  /** A run of the model is what one call does to the table and which messages it archives. */
  method PerformRun(db: StateDB, ghost e: Epoch, ghost s: System, key: Key, validity: nat, listing: seq<int>,
                    eligible: set<int>, maxMessages: int, dryRun: bool, good: nat)
    returns (handled: seq<int>)
    requires db.rows == s.rows && listing == s.listing && e == Epoch(key, validity, db.cursors)
    modifies db`rows
    ensures var s' := Step(e, s, Run(eligible, maxMessages, dryRun, good));
            && s'.rows == db.rows && s'.listing == s.listing && s'.top == s.top
            && s'.committed == if dryRun then s.committed else s.committed + handled
  {
    hide OpenRow, After, Handled, Pending, Keep;
    var available, raised;
    handled, available, raised :=
      SyncMailbox(db, key, validity, listing, Keep(listing, InSet(eligible)), None, maxMessages, dryRun, good);
  }

  /** What happens around the runs: a new UID above all others, one message gone, a foreign row gone. */
  lemma EventsAround(e: Epoch, s: System, gap: nat, i: nat)
    requires Listed(s)
    ensures var t := Step(e, s, Arrive(gap));
            t.top == s.top + 1 + gap && t.rows == s.rows && forall u :: u in t.listing <==> u in s.listing || u == t.top
    ensures var t := Step(e, s, Expunge(i));
            t.rows == s.rows && t.top == s.top && forall u :: u in t.listing <==> u in s.listing && (i < |s.listing| ==> u != s.listing[i])
    ensures var t := Step(e, s, CrashInReset);
            && t.listing == s.listing && t.top == s.top && t.committed == s.committed
            && forall k :: k in t.rows <==>
                 k in s.rows && !(k == e.key && e.validity != 0 && s.rows[k].uidvalidity !in {0, e.validity})
  {
    if i < |s.listing| {
      forall u | u in s.listing && u != s.listing[i] ensures u in s.listing[..i] + s.listing[i + 1..] {
        var j :| 0 <= j < |s.listing| && s.listing[j] == u;
        assert if j < i then s.listing[..i][j] == u else s.listing[i + 1..][j - i - 1] == u;
      }
    }
  }

  /** A history is its first part and then the rest. */
  lemma {:induction false} ExecSplits(e: Epoch, s: System, a: seq<Event>, b: seq<Event>)
    ensures Exec(e, s, a + b) == Exec(e, Exec(e, s, a), b)
    ensures a != [] ==> Exec(e, s, [a[0]]) == Step(e, s, a[0])
    decreases |a|
  {
    hide Step;
    if a == [] {
      assert a + b == b;
    } else {
      assert (a + b)[1..] == a[1..] + b && [a[0]][1..] == [];
      ExecSplits(e, Step(e, s, a[0]), a[1..], b);
    }
  }

  /** The mailbox has been initialised in this epoch. */
  ghost predicate Started(e: Epoch, s: System) {
    e.key in s.rows && s.rows[e.key].uidvalidity == e.validity
  }

  /** Before the first run of the epoch: nothing archived, no row of this or of an unknown epoch. */
  ghost predicate Initial(e: Epoch, s: System) {
    && e.validity != 0
    && (e.key in s.rows ==> !Matches(s.rows[e.key].uidvalidity, e.validity))
    && s.committed == []
    && Listed(s)
  }

  ghost predicate Listed(s: System) {
    Ascending(s.listing) && s.top >= 0 && forall u :: u in s.listing ==> 0 < u <= s.top
  }

  /** Archived UIDs fill the window between the watermarks. */
  ghost predicate InWindow(row: Row, committed: seq<int>) {
    forall u :: u in committed ==> row.backfillBefore <= u <= row.liveUid
  }

  ghost predicate Inv(e: Epoch, s: System) {
    && e.validity != 0
    && Listed(s)
    && Distinct(s.committed)
    && if Started(e, s)
       then var row := s.rows[e.key]; Sound(row) && row.liveUid <= s.top && InWindow(row, s.committed)
       else s.committed == [] && (e.key in s.rows ==> !Matches(s.rows[e.key].uidvalidity, e.validity))
  }

  /** Watermarks only move apart once the epoch has started, and archived messages stay archived. */
  ghost predicate Progress(e: Epoch, s: System, s': System) {
    && s.committed <= s'.committed
    && (Started(e, s) ==>
          && Started(e, s')
          && s.rows[e.key].liveUid <= s'.rows[e.key].liveUid
          && s'.rows[e.key].backfillBefore <= s.rows[e.key].backfillBefore
          && s'.rows[e.key].legacyLast == s.rows[e.key].legacyLast)
  }

  lemma OpenedIsSound(e: Epoch, s: System)
    requires Inv(e, s)
    ensures var row := Opened(e, s);
            && Sound(row) && row.liveUid <= s.top && InWindow(row, s.committed)
            && row.uidvalidity == e.validity
            && (Started(e, s) ==> row == s.rows[e.key])
            && (!Started(e, s) ==>
                  && row.legacyLast == LegacyCursor(e.cursors, e.key, e.validity)
                  && row.liveUid == LastOrZero(s.listing) && row.backfillBefore == row.liveUid + 1)
  {
    if s.listing != [] {
      assert s.listing[|s.listing| - 1] in s.listing;
    }
  }

  /** The messages a run takes are new, pairwise distinct, and end up inside the window. */
  lemma TakenAreNew(row: Row, validity: nat, uids: seq<int>, k: nat, committed: seq<int>)
    requires Ascending(uids) && Sound(row) && k <= |Pending(row, uids)|
    requires Distinct(committed) && InWindow(row, committed)
    ensures Distinct(committed + Pending(row, uids)[..k])
    ensures InWindow(After(row, validity, uids, k), committed + Pending(row, uids)[..k])
  {
    hide Keep, Reverse, Newer, Older;
    var row' := After(row, validity, uids, k);
    var live, back := LivePending(row, uids), BackfillPending(row, uids);
    var n := Min(k, |live|);
    PendingOrder(row, uids);
    RunDropsPrefix(row, validity, uids, k);
    forall u | u in live ensures u > row.liveUid {
      PendingMembers(row, uids, u);
    }
    forall u | u in back ensures u < row.backfillBefore {
      PendingMembers(row, uids, u);
    }
    assert Pending(row, uids)[..k] == live[..n] + back[..k - n];
    forall u | u in back[..k - n] ensures u in back && u < row.backfillBefore && u !in committed {
    }
    forall u | u in live[..n] ensures u in live && u > row.liveUid && u !in committed {
    }
    DistinctConcat(live[..n], back[..k - n]);
    DistinctConcat(committed, Pending(row, uids)[..k]);
  }

  lemma StepKeepsInv(e: Epoch, s: System, event: Event)
    requires Inv(e, s)
    ensures Inv(e, Step(e, s, event)) && Progress(e, s, Step(e, s, event))
  {
    match event
    case Arrive(_) =>
      forall i | 0 <= i < |s.listing| ensures s.listing[i] <= s.top {
        assert s.listing[i] in s.listing;
      }
    case Expunge(i) =>
      forall u | u in Step(e, s, event).listing ensures u in s.listing {
      }
    case CrashInReset =>
    case Run(eligible, maxMessages, dryRun, good) =>
      if !dryRun {
        var row, uids := Opened(e, s), Eligible(s, eligible);
        var k := Handled(row, uids, maxMessages, good);
        OpenedIsSound(e, s);
        KeepAscending(s.listing, InSet(eligible));
        RunDropsPrefix(row, e.validity, uids, k);
        TakenAreNew(row, e.validity, uids, k, s.committed);
        forall u | u in uids ensures u <= s.top {
          KeepMembers(s.listing, InSet(eligible), u);
        }
        AfterIsBounded(row, e.validity, uids, k, s.top);
      }
  }

  lemma AfterIsBounded(row: Row, validity: nat, uids: seq<int>, k: nat, top: int)
    requires k <= |Pending(row, uids)| && row.liveUid <= top
    requires forall u :: u in uids ==> u <= top
    ensures After(row, validity, uids, k).liveUid <= top
  {
    var live := LivePending(row, uids);
    var n := Min(k, |live|);
    if n > 0 {
      PendingMembers(row, uids, live[n - 1]);
    }
  }

  /**
    Over every sequence of arrivals, expunges, runs, dry runs and crashes of one epoch:
    no UID is archived twice, the watermarks never cross, the live watermark only rises
    and the backfill watermark only falls.
  */
  lemma {:induction false} WatermarksAreSafe(e: Epoch, s: System, events: seq<Event>)
    requires Inv(e, s)
    ensures Inv(e, Exec(e, s, events)) && Progress(e, s, Exec(e, s, events))
    decreases |events|
  {
    if events != [] {
      StepKeepsInv(e, s, events[0]);
      WatermarksAreSafe(e, Step(e, s, events[0]), events[1..]);
    }
  }

  // ----- nothing is lost -----

  /** `u` is present, or may still be assigned. */
  ghost predicate Alive(s: System, u: int) {
    u in s.listing || u > s.top
  }

  ghost predicate OutsideWindow(row: Row, u: int) {
    u > row.liveUid || row.legacyLast < u < row.backfillBefore
  }

  /** `u` is archived, belongs to the legacy prefix, or a later run will still find it. */
  ghost predicate Accounted(e: Epoch, s: System, u: int) {
    !Started(e, s) || u <= s.rows[e.key].legacyLast || u in s.committed || OutsideWindow(s.rows[e.key], u)
  }

  /** Every run of the history has `u` among its date-filtered UIDs. */
  ghost predicate EligibleThroughout(events: seq<Event>, u: int) {
    forall i :: 0 <= i < |events| && events[i].Run? ==> u in events[i].eligible
  }

  lemma StepKeepsAccounted(e: Epoch, s: System, event: Event, u: int)
    requires Inv(e, s) && u > 0
    requires Alive(s, u) ==> Accounted(e, s, u)
    requires event.Run? ==> u in event.eligible
    ensures Alive(Step(e, s, event), u) ==> Alive(s, u) && Accounted(e, Step(e, s, event), u)
  {
    hide Keep, Reverse, Newer, Older, After, Handled, LivePending, BackfillPending;
    var s' := Step(e, s, event);
    if Alive(s', u) && event.Run? && !event.dryRun {
      var row, uids := Opened(e, s), Eligible(s, event.eligible);
      var k := Handled(row, uids, event.maxMessages, event.good);
      OpenedIsSound(e, s);
      KeepAscending(s.listing, InSet(event.eligible));
      KeepMembers(s.listing, InSet(event.eligible), u);
      RunDropsPrefix(row, e.validity, uids, k);
      StepKeepsInv(e, s, event);
      PendingMembers(row, uids, u);
      PendingMembers(s'.rows[e.key], uids, u);
      if u in s.listing {
        LastIsLargest(s.listing, u);
        var queue := Pending(row, uids);
        assert queue == queue[..k] + queue[k..];
      }
    }
  }

  lemma LastIsLargest(uids: seq<int>, u: int)
    requires Ascending(uids) && u in uids
    ensures u <= LastOrZero(uids)
  {
  }

  lemma {:induction false} ExecKeepsAccounted(e: Epoch, s: System, events: seq<Event>, u: int)
    requires Inv(e, s) && u > 0
    requires Alive(s, u) ==> Accounted(e, s, u)
    requires EligibleThroughout(events, u)
    ensures Alive(Exec(e, s, events), u) ==> Accounted(e, Exec(e, s, events), u)
    decreases |events|
  {
    if events != [] {
      StepKeepsInv(e, s, events[0]);
      StepKeepsAccounted(e, s, events[0], u);
      ExecKeepsAccounted(e, Step(e, s, events[0]), events[1..], u);
    }
  }

  /**
    Exactly-once accounting.  After any history of one non-zero epoch, every UID that is present, was
    eligible in every run and is not known to the older cursor table (an entry of another non-zero
    epoch does not count) is archived or is in the work queue of any next run for which it is eligible;
    and it is never both.
  */
  lemma ExactlyOnce(e: Epoch, s: System, events: seq<Event>, u: int, next: set<int>)
    requires Initial(e, s)
    requires EligibleThroughout(events, u) && u in next
    requires u in Exec(e, s, events).listing
    requires e.key in e.cursors && e.cursors[e.key].uidvalidity in {0, e.validity} ==> u > e.cursors[e.key].lastUid
    ensures var s' := Exec(e, s, events);
            var queue := Pending(Opened(e, s'), Eligible(s', next));
            && Distinct(s'.committed)
            && (u in s'.committed || u in queue)
            && !(u in s'.committed && u in queue)
  {
    var s' := Exec(e, s, events);
    var row := Opened(e, s');
    WatermarksAreSafe(e, s, events);
    LegacyIff(e.cursors, e.key, e.validity);
    assert !InCursor(e.cursors, e.key, e.validity, u);
    ExecKeepsAccounted(e, s, events, u);
    LegacyIsKept(e, s, events);
    OpenedIsSound(e, s');
    KeepMembers(s'.listing, uid => uid in next, u);
    PendingMembers(row, Eligible(s', next), u);
    LastIsLargest(s'.listing, u);
  }

  /** The legacy prefix is the one the older cursor table prescribes, in every reachable state. */
  lemma {:induction false} LegacyIsKept(e: Epoch, s: System, events: seq<Event>)
    requires Inv(e, s)
    requires Started(e, s) ==> s.rows[e.key].legacyLast == LegacyCursor(e.cursors, e.key, e.validity)
    ensures var s' := Exec(e, s, events);
            Started(e, s') ==> s'.rows[e.key].legacyLast == LegacyCursor(e.cursors, e.key, e.validity)
    decreases |events|
  {
    if events != [] {
      StepKeepsInv(e, s, events[0]);
      OpenedIsSound(e, s);
      LegacyIsKept(e, Step(e, s, events[0]), events[1..]);
    }
  }

  /** A UID that was assigned before a history and is present after it was present all along. */
  lemma {:induction false} ListedAllAlong(e: Epoch, s: System, events: seq<Event>, u: int)
    requires u <= s.top && u in Exec(e, s, events).listing
    ensures u in s.listing
    decreases |events|
  {
    if events != [] {
      var s' := Step(e, s, events[0]);
      ListedAllAlong(e, s', events[1..], u);
    }
  }

  /** `u` lies in the legacy prefix and was never archived. */
  ghost predicate Excluded(e: Epoch, s: System, u: int) {
    && u !in s.committed && (Started(e, s) ==> u <= s.rows[e.key].legacyLast && u <= s.rows[e.key].liveUid)
  }

  lemma StepKeepsExcluded(e: Epoch, s: System, event: Event, u: int)
    requires Inv(e, s) && u in s.listing && u <= LegacyCursor(e.cursors, e.key, e.validity) && Excluded(e, s, u)
    ensures Excluded(e, Step(e, s, event), u)
  {
    hide Keep, Reverse, Newer, Older, After, Handled, LivePending, BackfillPending, LegacyCursor;
    if event.Run? && !event.dryRun {
      var row, uids := Opened(e, s), Eligible(s, event.eligible);
      OpenedIsSound(e, s);
      LastIsLargest(s.listing, u);
      KeepAscending(s.listing, InSet(event.eligible));
      RunDropsPrefix(row, e.validity, uids, Handled(row, uids, event.maxMessages, event.good));
      PendingMembers(row, uids, u);
    }
  }

  lemma {:induction false} ExecKeepsExcluded(e: Epoch, s: System, events: seq<Event>, u: int)
    requires Inv(e, s) && u in s.listing && u <= LegacyCursor(e.cursors, e.key, e.validity) && Excluded(e, s, u)
    requires u in Exec(e, s, events).listing
    ensures Excluded(e, Exec(e, s, events), u)
    decreases |events|
  {
    if events != [] {
      hide LegacyCursor, Excluded;
      var s' := Step(e, s, events[0]);
      StepKeepsInv(e, s, events[0]);
      StepKeepsExcluded(e, s, events[0], u);
      assert s.top <= s'.top && u <= s.top;
      ListedAllAlong(e, s', events[1..], u);
      ExecKeepsExcluded(e, s', events[1..], u);
    }
  }

  /**
    Read off the older cursor table alone: a message that is there from the start of the epoch and stays
    eligible is archived or queued, unless the table has an entry of this epoch, or one without epoch,
    that reaches it; then it is neither, in no history.
  */
  lemma ReachedIff(e: Epoch, s: System, events: seq<Event>, u: int, next: set<int>)
    requires Initial(e, s) && u in s.listing
    requires EligibleThroughout(events, u) && u in next
    requires u in Exec(e, s, events).listing
    ensures var s' := Exec(e, s, events);
            (u in s'.committed || u in Pending(Opened(e, s'), Eligible(s', next))) <==>
            !(e.key in e.cursors && e.cursors[e.key].uidvalidity in {0, e.validity} && u <= e.cursors[e.key].lastUid)
  {
    LegacyIff(e.cursors, e.key, e.validity);
    if InCursor(e.cursors, e.key, e.validity, u) {
      var s' := Exec(e, s, events);
      ExecKeepsExcluded(e, s, events, u);
      WatermarksAreSafe(e, s, events);
      OpenedIsSound(e, s');
      LastIsLargest(s'.listing, u);
      PendingMembers(Opened(e, s'), Eligible(s', next), u);
      hide Pending, Keep, Exec;
    } else {
      ExactlyOnce(e, s, events, u, next);
    }
  }

  // ----- draining -----

  function RepeatRun(e: Epoch, s: System, eligible: set<int>, maxMessages: int, runs: nat): System
    decreases runs
  {
    if runs == 0 then s
    else RepeatRun(e, Step(e, s, Run(eligible, maxMessages, false, |s.listing|)), eligible, maxMessages, runs - 1)
  }

  function Backlog(e: Epoch, s: System, eligible: set<int>): seq<int> {
    Pending(Opened(e, s), Eligible(s, eligible))
  }

  lemma PendingLength(row: Row, uids: seq<int>)
    requires Ascending(uids) && Sound(row)
    ensures |Pending(row, uids)| <= |uids|
  {
    SplitLength(uids, Newer(row), Older(row));
  }

  lemma {:induction false} SplitLength(xs: seq<int>, p: int -> bool, q: int -> bool)
    requires forall i :: 0 <= i < |xs| ==> !(p(xs[i]) && q(xs[i]))
    ensures |Keep(xs, p)| + |Keep(xs, q)| <= |xs|
  {
    if xs != [] {
      SplitLength(xs[1..], p, q);
      assert Keep(xs, p) == (if p(xs[0]) then [xs[0]] else []) + Keep(xs[1..], p);
      assert Keep(xs, q) == (if q(xs[0]) then [xs[0]] else []) + Keep(xs[1..], q);
    }
  }

  /** Between the two states exactly the first `k` entries of the backlog were archived, in order. */
  ghost predicate Took(e: Epoch, s: System, s': System, eligible: set<int>, k: nat) {
    && k <= |Backlog(e, s, eligible)|
    && s'.committed == s.committed + Backlog(e, s, eligible)[..k]
    && Backlog(e, s', eligible) == Backlog(e, s, eligible)[k..]
  }

  lemma TookCompose(e: Epoch, s: System, mid: System, s': System, eligible: set<int>, j: nat, k: nat)
    requires Took(e, s, mid, eligible, j) && Took(e, mid, s', eligible, k)
    ensures Took(e, s, s', eligible, j + k)
  {
    hide Backlog;
    var queue := Backlog(e, s, eligible);
    assert queue[..j + k] == queue[..j] + queue[j..][..k];
  }

  /** A run without failures archives exactly the first min(limit, backlog) entries of the backlog. */
  lemma FullRun(e: Epoch, s: System, eligible: set<int>, maxMessages: int)
    requires Inv(e, s)
    ensures var s' := Step(e, s, Run(eligible, maxMessages, false, |s.listing|));
            Took(e, s, s', eligible, Quota(maxMessages, |Backlog(e, s, eligible)|)) && Inv(e, s')
  {
    var run := Run(eligible, maxMessages, false, |s.listing|);
    var row, uids := Opened(e, s), Eligible(s, eligible);
    OpenedIsSound(e, s);
    KeepAscending(s.listing, InSet(eligible));
    KeepLength(s.listing, InSet(eligible));
    PendingLength(row, uids);
    StepKeepsInv(e, s, run);
    RunDropsPrefix(row, e.validity, uids, Handled(row, uids, maxMessages, |s.listing|));
  }

  /**
    Drain bound: without arrivals, expunges and failures, `runs` runs with a positive limit archive
    the first runs * limit entries of the backlog in queue order and leave the rest.
  */
  lemma {:induction false} DrainBound(e: Epoch, s: System, eligible: set<int>, limit: nat, runs: nat)
    requires Inv(e, s) && limit > 0
    ensures Took(e, s, RepeatRun(e, s, eligible, limit, runs), eligible, Min(|Backlog(e, s, eligible)|, runs * limit))
    decreases runs
  {
    hide Step, Inv, Keep;
    if runs > 0 {
      var mid := Step(e, s, Run(eligible, limit, false, |s.listing|));
      FullRun(e, s, eligible, limit);
      DrainBound(e, mid, eligible, limit, runs - 1);
      DrainCompose(e, s, mid, RepeatRun(e, mid, eligible, limit, runs - 1), eligible, limit, runs);
    }
  }

  lemma DrainCompose(e: Epoch, s: System, mid: System, s': System, eligible: set<int>,
                                        limit: nat, runs: nat)
    requires limit > 0 && runs > 0
    requires Took(e, s, mid, eligible, Min(limit, |Backlog(e, s, eligible)|))
    requires Took(e, mid, s', eligible, Min(|Backlog(e, mid, eligible)|, (runs - 1) * limit))
    ensures Took(e, s, s', eligible, Min(|Backlog(e, s, eligible)|, runs * limit))
  {
    var j := Min(limit, |Backlog(e, s, eligible)|);
    var k := Min(|Backlog(e, mid, eligible)|, (runs - 1) * limit);
    TookCompose(e, s, mid, s', eligible, j, k);
    assert runs * limit == limit + (runs - 1) * limit;
  }

  /** With a limit of `limit`, ceil(n / limit) runs are exactly what an n-message backlog needs. */
  lemma RunsToEmpty(e: Epoch, s: System, eligible: set<int>, limit: nat, runs: nat)
    requires Inv(e, s) && limit > 0
    ensures Backlog(e, RepeatRun(e, s, eligible, limit, runs), eligible) == [] <==>
            runs * limit >= |Backlog(e, s, eligible)|
  {
    hide Backlog, RepeatRun, Inv;
    DrainBound(e, s, eligible, limit, runs);
  }

  lemma UnlimitedRunEmpties(e: Epoch, s: System, eligible: set<int>, maxMessages: int)
    requires Inv(e, s) && maxMessages <= 0
    ensures Backlog(e, Step(e, s, Run(eligible, maxMessages, false, |s.listing|)), eligible) == []
  {
    FullRun(e, s, eligible, maxMessages);
  }

  // ----- where the guarantees stop -----

  /**
    A UIDVALIDITY that was read as 0 is written back with the first archived message; from then on
    the stored watermarks are adopted by every epoch, whatever its UIDVALIDITY.
  */
  lemma ZeroReadDisarmsEpochCheck(rows: map<Key, Row>, cursors: map<Key, Cursor>, key: Key,
                                                     uids: seq<int>, maxUid: int, k: nat, later: nat, laterMaxUid: int)
    requires 0 < k <= |Pending(OpenRow(rows, cursors, key, 0, maxUid), uids)|
    ensures var row := After(OpenRow(rows, cursors, key, 0, maxUid), 0, uids, k);
            OpenRow(rows[key := row], cursors, key, later, laterMaxUid) == row
  {
  }

  /**
    Which present messages a run does not look for, for every table and every value read: if a stored
    row is adopted (one value is 0 or both agree), those between its watermarks or in its legacy prefix,
    even when the mailbox was rebuilt meanwhile; otherwise only the legacy prefix.
  */
  lemma UnseenIff(rows: map<Key, Row>, cursors: map<Key, Cursor>, key: Key, read: nat, listing: seq<int>, u: int)
    requires Ascending(listing) && u in listing && u > 0
    ensures u !in Pending(OpenRow(rows, cursors, key, read, LastOrZero(listing)), listing) <==>
            if key in rows && (read == 0 || rows[key].uidvalidity == 0 || read == rows[key].uidvalidity)
            then u <= rows[key].liveUid && !(rows[key].legacyLast < u < rows[key].backfillBefore)
            else key in cursors && (read == 0 || cursors[key].uidvalidity in {0, read}) && u <= cursors[key].lastUid
  {
    LegacyIff(cursors, key, read);
    assert u <= LegacyCursor(cursors, key, read) <==> InCursor(cursors, key, read, u);
    PendingMembers(OpenRow(rows, cursors, key, read, LastOrZero(listing)), listing, u);
    LastIsLargest(listing, u);
  }

  /** A concrete loss: a rebuilt mailbox whose UIDVALIDITY could not be read archives nothing. */
  lemma ZeroReadLosesMessages()
    ensures var key := Key("a", "INBOX");
            var rows := map[key := Row(7, 100, 1, 0)];
            var row := OpenRow(rows, map[], key, 0, 3);
            Pending(row, [1, 2, 3]) == [] && Pending(OpenRow(rows, map[], key, 8, 3), [1, 2, 3]) == [3, 2, 1]
  {
    hide Keep, Reverse;
    var key := Key("a", "INBOX");
    var rows := map[key := Row(7, 100, 1, 0)];
    var row := OpenRow(rows, map[], key, 0, 3);
    KeepNone([1, 2, 3], Newer(row));
    KeepNone([1, 2, 3], Older(row));
    var anew := OpenRow(rows, map[], key, 8, 3);
    KeepNone([1, 2, 3], Newer(anew));
    KeepAll([1, 2, 3], Older(anew));
    assert Reverse([1, 2, 3]) == [3, 2, 1];
  }

  /** An eligible message that a run moves into the window was archived by it; any other one was not. */
  lemma LeftBehind(row: Row, validity: nat, listing: seq<int>, eligible: set<int>, k: nat, u: int)
    requires Ascending(listing) && Sound(row) && u in listing && u > row.legacyLast && OutsideWindow(row, u)
    requires k <= |Pending(row, Keep(listing, InSet(eligible)))|
    ensures var uids := Keep(listing, InSet(eligible));
            var row' := After(row, validity, uids, k);
            && (!OutsideWindow(row', u) && u !in Pending(row, uids)[..k] <==> !OutsideWindow(row', u) && u !in eligible)
            && row'.backfillBefore <= row.backfillBefore && row.liveUid <= row'.liveUid && row'.legacyLast == row.legacyLast
  {
    var uids := Keep(listing, InSet(eligible));
    var row' := After(row, validity, uids, k);
    KeepAscending(listing, InSet(eligible));
    KeepMembers(listing, InSet(eligible), u);
    RunDropsPrefix(row, validity, uids, k);
    PendingMembers(row, uids, u);
    PendingMembers(row', uids, u);
    hide Keep, After, Pending;
    var queue := Pending(row, uids);
    assert queue == queue[..k] + queue[k..];
  }

  /** The last message a run takes from each side is eligible and lies on that side. */
  lemma TakenEnds(row: Row, listing: seq<int>, eligible: set<int>, i: nat, j: nat)
    ensures var uids := Keep(listing, InSet(eligible));
            && (i < |LivePending(row, uids)| ==> LivePending(row, uids)[i] in eligible)
            && (j < |BackfillPending(row, uids)| ==> BackfillPending(row, uids)[j] in eligible)
  {
    var uids := Keep(listing, InSet(eligible));
    var live, back := LivePending(row, uids), BackfillPending(row, uids);
    if i < |live| {
      PendingMembers(row, uids, live[i]);
      KeepMembers(listing, InSet(eligible), live[i]);
    }
    if j < |back| {
      PendingMembers(row, uids, back[j]);
      KeepMembers(listing, InSet(eligible), back[j]);
    }
  }

  /**
    Exactly when a present message above the legacy prefix drops out of reach in a run that handles `k`
    messages: it was not eligible in that run, and the run archives a message beyond it, a newer one of
    the live side or an older one of the backfill.
  */
  lemma StrandedIff(row: Row, validity: nat, listing: seq<int>, eligible: set<int>, k: nat, u: int)
    requires Ascending(listing) && Sound(row) && u in listing && u > row.legacyLast
    requires OutsideWindow(row, u)
    requires k <= |Pending(row, Keep(listing, InSet(eligible)))|
    ensures var uids := Keep(listing, InSet(eligible));
            var live, back := LivePending(row, uids), BackfillPending(row, uids);
            var n := Min(k, |live|);
            (!OutsideWindow(After(row, validity, uids, k), u) && u !in Pending(row, uids)[..k]) <==>
            && u !in eligible
            && if u > row.liveUid then n > 0 && live[n - 1] > u else k > n && back[k - n - 1] < u
  {
    var uids := Keep(listing, InSet(eligible));
    var live, back := LivePending(row, uids), BackfillPending(row, uids);
    var n := Min(k, |live|);
    LeftBehind(row, validity, listing, eligible, k, u);
    TakenEnds(row, listing, eligible, if n > 0 then n - 1 else 0, if k > n then k - n - 1 else 0);
    hide Keep, LivePending, BackfillPending;
  }
}
