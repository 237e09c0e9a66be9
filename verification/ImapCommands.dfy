/** The IMAP commands on a selected mailbox: STORE, COPY, MOVE, EXPUNGE and APPEND, with what they write and push. */
module ImapCommands {
  import ExpungeReplay
  import opened ImapQueue
  import ImapView
  import opened MailTable
  import opened Wrappers

  // ---------- Number sets ----------

  /** 0 stands for "*". */
  datatype Range = Range(start: nat, stop: nat)

  datatype NumSet = SeqSet(ranges: seq<Range>) | UidSet(ranges: seq<Range>)

  predicate RangeHits(r: Range, n: nat, max: nat) {
    r.start <= n <= if r.stop == 0 then max else r.stop
  }

  predicate NumSetContains(numSet: NumSet, pos: nat, uid: nat, maxSeq: nat, maxUid: nat) {
    match numSet
    case SeqSet(ranges) => exists i :: 0 <= i < |ranges| && RangeHits(ranges[i], pos, maxSeq)
    case UidSet(ranges) => exists i :: 0 <= i < |ranges| && RangeHits(ranges[i], uid, maxUid)
  }

  /** seq-range of RFC 3501 section 9: either end may be "*", in either order. */
  predicate RfcRangeHits(r: Range, n: nat, max: nat) {
    var a := if r.start == 0 then max else r.start;
    var b := if r.stop == 0 then max else r.stop;
    if a <= b then a <= n <= b else b <= n <= a
  }

  // ---------- The listing a command works on ----------

  function MaxId(list: Rows): nat {
    if list == [] then 0
    else
      var before, id := MaxId(list[..|list| - 1]), list[|list| - 1].id;
      if id > before then id else before
  }

  method MaxUid(list: Rows) returns (maxUid: nat)
    ensures maxUid == MaxId(list)
  {
    maxUid := 0;
    for i := 0 to |list|
      invariant maxUid == MaxId(list[..i])
    {
      assert list[..i + 1][..i] == list[..i];
      if list[i].id > maxUid {
        maxUid := list[i].id;
      }
    }
    assert list[..|list|] == list;
  }

  predicate Matches(list: Rows, numSet: NumSet, i: nat)
    requires i < |list|
  {
    NumSetContains(numSet, i + 1, list[i].id, |list|, MaxId(list))
  }

  // ---------- Number sets against RFC 3501 ----------

  /** What the ranges of the set are compared with: the message's sequence number, or its UID. */
  function NumberAt(list: Rows, numSet: NumSet, i: nat): nat
    requires i < |list|
  {
    if numSet.SeqSet? then i + 1 else list[i].id
  }

  function MaxNumber(list: Rows, numSet: NumSet): nat {
    if numSet.SeqSet? then |list| else MaxId(list)
  }

  predicate RfcMatches(list: Rows, numSet: NumSet, i: nat)
    requires i < |list|
  {
    exists j :: 0 <= j < |numSet.ranges| && RfcRangeHits(numSet.ranges[j], NumberAt(list, numSet, i), MaxNumber(list, numSet))
  }

  /** The set picks exactly the messages of the mailbox that it picks by RFC 3501 section 9. */
  predicate FollowsRfc(list: Rows, numSet: NumSet) {
    forall i: nat :: i < |list| ==> (Matches(list, numSet, i) <==> RfcMatches(list, numSet, i))
  }

  /** No message of the mailbox has a number from `lo` to `hi`. */
  predicate NoneBetween(list: Rows, numSet: NumSet, lo: nat, hi: nat) {
    forall i: nat :: i < |list| ==> !(lo <= NumberAt(list, numSet, i) <= hi)
  }

  predicate Suits(list: Rows, numSet: NumSet, r: Range) {
    if r.start == 0 then list == [] || (|list| == 1 && (r.stop == 0 || r.stop >= MaxNumber(list, numSet)))
    else if r.stop == 0 then list == [] || r.start <= MaxNumber(list, numSet)
    else r.start <= r.stop || NoneBetween(list, numSet, r.stop, r.start)
  }

  lemma {:induction false} MaxIdIsLast(list: Rows)
    requires Keyed(list)
    ensures MaxId(list) == if list == [] then 0 else list[|list| - 1].id
  {
    if |list| > 1 {
      MaxIdIsLast(list[..|list| - 1]);
    }
  }

  predicate OneRangeFollows(list: Rows, numSet: NumSet, r: Range) {
    forall i: nat :: i < |list| ==>
      (RangeHits(r, NumberAt(list, numSet, i), MaxNumber(list, numSet))
       <==> RfcRangeHits(r, NumberAt(list, numSet, i), MaxNumber(list, numSet)))
  }

  lemma NumbersRise(list: Rows, numSet: NumSet)
    requires Keyed(list)
    ensures forall i: nat :: i < |list| ==> NumberAt(list, numSet, i) <= MaxNumber(list, numSet)
    ensures list != [] ==> NumberAt(list, numSet, |list| - 1) == MaxNumber(list, numSet)
    ensures |list| >= 2 ==> NumberAt(list, numSet, 0) < MaxNumber(list, numSet)
  {
    MaxIdIsLast(list);
  }

  lemma OneRangeFollowsIff(list: Rows, numSet: NumSet, r: Range)
    requires Keyed(list)
    ensures OneRangeFollows(list, numSet, r) <==> Suits(list, numSet, r)
  {
    NumbersRise(list, numSet);
    hide NumberAt, MaxNumber;
    var max := MaxNumber(list, numSet);
    if list != [] {
      var first, last := NumberAt(list, numSet, 0), NumberAt(list, numSet, |list| - 1);
      assert OneRangeFollows(list, numSet, r) ==> (RangeHits(r, first, max) <==> RfcRangeHits(r, first, max));
      assert OneRangeFollows(list, numSet, r) ==> (RangeHits(r, last, max) <==> RfcRangeHits(r, last, max));
    }
  }

  /**
   A set of one range is read as RFC 3501 reads it exactly in these cases. With "*" in front: in a mailbox of one message, not
   above the end of the range, or of none. From a number to "*": if that number is not above the mailbox. From a number to
   a number: if not turned round, or if no message lies between the two.
   */
  lemma RangeFollowsRfcIff(list: Rows, numSet: NumSet)
    requires Keyed(list) && |numSet.ranges| == 1
    ensures FollowsRfc(list, numSet) <==> Suits(list, numSet, numSet.ranges[0])
  {
    var r, max := numSet.ranges[0], MaxNumber(list, numSet);
    OneRangeFollowsIff(list, numSet, r);
    hide Suits, RangeHits, RfcRangeHits;
    forall i: nat | i < |list|
      ensures Matches(list, numSet, i) <==> RangeHits(r, NumberAt(list, numSet, i), max)
      ensures RfcMatches(list, numSet, i) <==> RfcRangeHits(r, NumberAt(list, numSet, i), max)
    {
    }
  }

  /** A lone "*" is read as every message, where RFC 3501 means the last: right exactly in a mailbox of at most one. */
  lemma LoneStarFollowsRfcIff(list: Rows, numSet: NumSet)
    requires Keyed(list) && numSet.ranges == [Range(0, 0)]
    ensures FollowsRfc(list, numSet) <==> |list| <= 1
  {
    RangeFollowsRfcIff(list, numSet);
  }

  /** A set whose ranges are each read rightly is. */
  lemma RangesFollowRfc(list: Rows, numSet: NumSet)
    requires Keyed(list) && forall j :: 0 <= j < |numSet.ranges| ==> Suits(list, numSet, numSet.ranges[j])
    ensures FollowsRfc(list, numSet)
  {
    forall j | 0 <= j < |numSet.ranges| ensures OneRangeFollows(list, numSet, numSet.ranges[j]) {
      OneRangeFollowsIff(list, numSet, numSet.ranges[j]);
    }
    hide Suits, RangeHits, RfcRangeHits;
    forall i: nat | i < |list| ensures Matches(list, numSet, i) <==> RfcMatches(list, numSet, i) {
      assert forall j :: 0 <= j < |numSet.ranges| ==> OneRangeFollows(list, numSet, numSet.ranges[j]);
    }
  }

  ghost function MatchedIds(list: Rows, numSet: NumSet): set<nat> {
    set i | 0 <= i < |list| && Matches(list, numSet, i) :: list[i].id
  }

  /** The sessions the hub of the selected mailbox reaches. */
  ghost function Listeners(me: ImapSession): set<ImapSession>
    reads me, me.hub
  {
    if me.hub == null then {} else me.hub.sessions
  }

  ghost function SessionsOf(hub: MailboxHub?): set<ImapSession>
    reads hub
  {
    if hub == null then {} else hub.sessions
  }

  function FlagsOf(m: Message): seq<Flag> {
    (if m.seen then [Seen] else []) + (if m.flagged then [Flagged] else []) + (if m.deleted then [Flag.Deleted] else [])
  }

  /** The flags are exactly those the message's columns hold, each once. */
  predicate Tells(flags: seq<Flag>, m: Message) {
    && (Seen in flags <==> m.seen) && (Flagged in flags <==> m.flagged) && (Flag.Deleted in flags <==> m.deleted)
    && (forall f :: f in flags ==> f == Seen || f == Flagged || f == Flag.Deleted)
    && forall i, j :: 0 <= i < j < |flags| ==> flags[i] != flags[j]
  }

  lemma FlagsAreTold(m: Message)
    ensures Tells(FlagsOf(m), m)
  {
    var a := if m.seen then [Seen] else [];
    var b := if m.flagged then [Flagged] else [];
    var c := if m.deleted then [Flag.Deleted] else [];
    assert FlagsOf(m) == a + b + c;
    assert forall f :: f in FlagsOf(m) <==> f in a || f in b || f in c;
  }

  // ---------- STORE ----------

  datatype StoreOp = SetFlags | AddFlags | DelFlags

  /** RFC 3501 section 6.4.6, for the three flags the table holds. */
  function ApplyFlags(op: StoreOp, flags: set<Flag>, m: Message): Message {
    match op
    case SetFlags => m.(seen := Seen in flags, flagged := Flagged in flags, deleted := Flag.Deleted in flags)
    case AddFlags =>
      m.(seen := m.seen || Seen in flags, flagged := m.flagged || Flagged in flags, deleted := m.deleted || Flag.Deleted in flags)
    case DelFlags =>
      m.(seen := m.seen && Seen !in flags, flagged := m.flagged && Flagged !in flags, deleted := m.deleted && Flag.Deleted !in flags)
  }

  /** What a message becomes when the statements in `failing` do not go through. */
  function ApplyUnless(op: StoreOp, flags: set<Flag>, failing: set<(Column, bool)>, m: Message): Message {
    var want := ApplyFlags(op, flags, m);
    m.(seen := if (SEEN, want.seen) in failing then m.seen else want.seen,
       flagged := if (FLAGGED, want.flagged) in failing then m.flagged else want.flagged,
       deleted := if (DELETED, want.deleted) in failing then m.deleted else want.deleted)
  }

  function StoredRows(rows: Rows, ids: set<nat>, op: StoreOp, flags: set<Flag>, failing: set<(Column, bool)>): Rows {
    Mapped(rows, (m: Message) => if m.id in ids then ApplyUnless(op, flags, failing, m) else m)
  }

  /** A matched message and the values STORE is to give its columns, None where it leaves one alone. */
  datatype Change = Change(msg: Message, pos: nat, read: Option<bool>, flagged: Option<bool>, deleted: Option<bool>)

  function Wanted(op: StoreOp, flags: set<Flag>, f: Flag): Option<bool> {
    match op
    case SetFlags => Some(f in flags)
    case AddFlags => if f in flags then Some(true) else None
    case DelFlags => if f in flags then Some(false) else None
  }

  function ChangeOf(msg: Message, pos: nat, op: StoreOp, flags: set<Flag>): Change {
    Change(msg, pos, Wanted(op, flags, Seen), Wanted(op, flags, Flagged), Wanted(op, flags, Flag.Deleted))
  }

  /** The changes among the first `k` listed messages. */
  function Changes(list: Rows, numSet: NumSet, op: StoreOp, flags: set<Flag>, k: nat): seq<Change>
    requires k <= |list|
  {
    if k == 0 then []
    else
      Changes(list, numSet, op, flags, k - 1)
      + if Matches(list, numSet, k - 1) then [ChangeOf(list[k - 1], k, op, flags)] else []
  }

  function ApplyTo(c: Change, f: Flag, enabled: bool): Change {
    match f
    case Seen => c.(read := Some(enabled))
    case Flagged => c.(flagged := Some(enabled))
    case Deleted => c.(deleted := Some(enabled))
    case _ => c
  }

  method MakeChange(msg: Message, pos: nat, op: StoreOp, flags: set<Flag>) returns (c: Change)
    ensures c == ChangeOf(msg, pos, op, flags)
  {
    c := Change(msg, pos, None, None, None);
    if op.SetFlags? {
      c := ApplyTo(c, Seen, Seen in flags);
      c := ApplyTo(c, Flagged, Flagged in flags);
      c := ApplyTo(c, Flag.Deleted, Flag.Deleted in flags);
      return;
    }
    var left, on := flags, op.AddFlags?;
    while left != {}
      invariant left <= flags
      invariant c == Change(msg, pos, Wanted(op, flags - left, Seen), Wanted(op, flags - left, Flagged), Wanted(op, flags - left, Flag.Deleted))
    {
      var f := AnyOf(left);
      left := left - {f};
      c := ApplyTo(c, f, on);
    }
    assert flags - left == flags;
  }

  function Ask(c: Change, col: Column): Option<bool> {
    match col
    case SEEN => c.read
    case FLAGGED => c.flagged
    case DELETED => c.deleted
  }

  /** The ids of the messages one of the six statements is run on. */
  function Toggled(changes: seq<Change>, col: Column, v: bool): set<nat> {
    set c | c in changes && Ask(c, col) == Some(v) && Get(c.msg, col) != v :: c.msg.id
  }

  function Report(c: Change): Update {
    var m := c.msg;
    Fetch(c.pos, m.id, FlagsOf(m.(seen := if c.read.Some? then c.read.value else m.seen,
                                  flagged := if c.flagged.Some? then c.flagged.value else m.flagged,
                                  deleted := if c.deleted.Some? then c.deleted.value else m.deleted)))
  }

  function Reports(changes: seq<Change>): (us: seq<Update>)
    ensures |us| == |changes| && forall i :: 0 <= i < |changes| ==> us[i] == Report(changes[i])
  {
    seq(|changes|, i requires 0 <= i < |changes| => Report(changes[i]))
  }

  /** Every change is of a matched message, at its place in the listing, and every matched message has one. */
  lemma {:induction false} ChangesAre(list: Rows, numSet: NumSet, op: StoreOp, flags: set<Flag>, k: nat)
    requires k <= |list|
    ensures forall c :: c in Changes(list, numSet, op, flags, k) <==>
              1 <= c.pos <= k && Matches(list, numSet, c.pos - 1) && c == ChangeOf(list[c.pos - 1], c.pos, op, flags)
  {
    if k > 0 {
      ChangesAre(list, numSet, op, flags, k - 1);
    }
  }

  /** The listed message with the id of a row is that row. */
  lemma ListedRow(rows: Rows, list: Rows, i: nat, m: Message)
    requires Keyed(rows) && m in rows && (forall x :: x in list ==> x in rows) && i < |list| && list[i].id == m.id
    ensures list[i] == m
  {
    assert list[i] in list;
    SameId(rows, list[i], m);
  }

  /** The six statements hit a row exactly where STORE means to change it. */
  lemma ToggledAre(rows: Rows, list: Rows, numSet: NumSet, op: StoreOp, flags: set<Flag>, col: Column, v: bool, m: Message)
    requires Keyed(rows) && m in rows && forall x :: x in list ==> x in rows
    ensures m.id in Toggled(Changes(list, numSet, op, flags, |list|), col, v) <==>
            m.id in MatchedIds(list, numSet) && Get(m, col) != v && Get(ApplyFlags(op, flags, m), col) == v
  {
    hide Toggled, Changes, MatchedIds, ApplyFlags;
    if m.id in Toggled(Changes(list, numSet, op, flags, |list|), col, v) {
      ToggledIsMeant(rows, list, numSet, op, flags, col, v, m);
    }
    if m.id in MatchedIds(list, numSet) && Get(m, col) != v && Get(ApplyFlags(op, flags, m), col) == v {
      MeantIsToggled(rows, list, numSet, op, flags, col, v, m);
    }
  }

  lemma ToggledIsMeant(rows: Rows, list: Rows, numSet: NumSet, op: StoreOp, flags: set<Flag>, col: Column, v: bool, m: Message)
    requires Keyed(rows) && m in rows && forall x :: x in list ==> x in rows
    requires m.id in Toggled(Changes(list, numSet, op, flags, |list|), col, v)
    ensures m.id in MatchedIds(list, numSet) && Get(m, col) != v && Get(ApplyFlags(op, flags, m), col) == v
  {
    hide Matches, Changes, ChangeOf, ApplyFlags, Get, Ask;
    var changes := Changes(list, numSet, op, flags, |list|);
    ChangesAre(list, numSet, op, flags, |list|);
    var c :| c in changes && Ask(c, col) == Some(v) && Get(c.msg, col) != v && c.msg.id == m.id;
    ChangeIsOf(list[c.pos - 1], c.pos, op, flags);
    ListedRow(rows, list, c.pos - 1, m);
    AskedIsWanted(op, flags, m, c.pos, col, v);
  }

  lemma AskedIsWanted(op: StoreOp, flags: set<Flag>, m: Message, pos: nat, col: Column, v: bool)
    ensures Get(m, col) != v ==>
              (Ask(ChangeOf(m, pos, op, flags), col) == Some(v) <==> Get(ApplyFlags(op, flags, m), col) == v)
  {
  }

  lemma ChangeIsOf(m: Message, pos: nat, op: StoreOp, flags: set<Flag>)
    ensures ChangeOf(m, pos, op, flags).msg == m && ChangeOf(m, pos, op, flags).pos == pos
  {
  }

  lemma MeantIsToggled(rows: Rows, list: Rows, numSet: NumSet, op: StoreOp, flags: set<Flag>, col: Column, v: bool, m: Message)
    requires Keyed(rows) && m in rows && forall x :: x in list ==> x in rows
    requires m.id in MatchedIds(list, numSet) && Get(m, col) != v && Get(ApplyFlags(op, flags, m), col) == v
    ensures m.id in Toggled(Changes(list, numSet, op, flags, |list|), col, v)
  {
    hide Matches, Changes, ChangeOf, ApplyFlags, Get, Ask;
    ChangesAre(list, numSet, op, flags, |list|);
    var i :| 0 <= i < |list| && Matches(list, numSet, i) && list[i].id == m.id;
    ListedRow(rows, list, i, m);
    ChangeIsOf(m, i + 1, op, flags);
    AskedIsWanted(op, flags, m, i + 1, col, v);
    assert ChangeOf(m, i + 1, op, flags) in Changes(list, numSet, op, flags, |list|);
  }

  lemma SameId(rows: Rows, a: Message, b: Message)
    requires Keyed(rows) && a in rows && b in rows && a.id == b.id
    ensures a == b
  {
    var i :| 0 <= i < |rows| && rows[i] == a;
    var j :| 0 <= j < |rows| && rows[j] == b;
  }

  function Updated(changes: seq<Change>, failing: set<(Column, bool)>, col: Column, v: bool, m: Message): Message {
    if m.id in Toggled(changes, col, v) && (col, v) !in failing then Put(m, col, v) else m
  }

  /** The six statements, in the order they are sent, on one row. */
  function SixUpdates(changes: seq<Change>, failing: set<(Column, bool)>): Message -> Message {
    (m: Message) =>
      var m1 := Updated(changes, failing, SEEN, true, m);
      var m2 := Updated(changes, failing, SEEN, false, m1);
      var m3 := Updated(changes, failing, FLAGGED, true, m2);
      var m4 := Updated(changes, failing, FLAGGED, false, m3);
      var m5 := Updated(changes, failing, DELETED, true, m4);
      Updated(changes, failing, DELETED, false, m5)
  }

  /** Sorts the messages that need changing into the six id lists. */
  method Classify(changes: seq<Change>)
    returns (readTrue: set<nat>, readFalse: set<nat>, flagTrue: set<nat>, flagFalse: set<nat>, delTrue: set<nat>, delFalse: set<nat>)
    ensures readTrue == Toggled(changes, SEEN, true) && readFalse == Toggled(changes, SEEN, false)
    ensures flagTrue == Toggled(changes, FLAGGED, true) && flagFalse == Toggled(changes, FLAGGED, false)
    ensures delTrue == Toggled(changes, DELETED, true) && delFalse == Toggled(changes, DELETED, false)
  {
    readTrue, readFalse, flagTrue, flagFalse, delTrue, delFalse := {}, {}, {}, {}, {}, {};
    NoneToggled();
    hide Toggled;
    assert changes[..0] == [];
    for i := 0 to |changes|
      invariant readTrue == Toggled(changes[..i], SEEN, true) && readFalse == Toggled(changes[..i], SEEN, false)
      invariant flagTrue == Toggled(changes[..i], FLAGGED, true) && flagFalse == Toggled(changes[..i], FLAGGED, false)
      invariant delTrue == Toggled(changes[..i], DELETED, true) && delFalse == Toggled(changes[..i], DELETED, false)
    {
      var c := changes[i];
      ToggledSnoc(changes[..i], c);
      assert changes[..i + 1] == changes[..i] + [c];
      if c.read.Some? && c.read.value != c.msg.seen {
        if c.read.value {
          readTrue := readTrue + {c.msg.id};
        } else {
          readFalse := readFalse + {c.msg.id};
        }
      }
      if c.flagged.Some? && c.flagged.value != c.msg.flagged {
        if c.flagged.value {
          flagTrue := flagTrue + {c.msg.id};
        } else {
          flagFalse := flagFalse + {c.msg.id};
        }
      }
      if c.deleted.Some? && c.deleted.value != c.msg.deleted {
        if c.deleted.value {
          delTrue := delTrue + {c.msg.id};
        } else {
          delFalse := delFalse + {c.msg.id};
        }
      }
    }
    assert changes[..|changes|] == changes;
  }

  lemma NoneToggled()
    ensures forall col, v :: Toggled([], col, v) == {}
  {
  }

  lemma ToggledSnoc(changes: seq<Change>, c: Change)
    ensures forall col, v ::
              Toggled(changes + [c], col, v)
              == Toggled(changes, col, v) + if Ask(c, col) == Some(v) && Get(c.msg, col) != v then {c.msg.id} else {}
  {
  }

  /** The second table is the first after one of the statements. */
  ghost predicate UpdatedRows(changes: seq<Change>, failing: set<(Column, bool)>, col: Column, v: bool, before: Rows, after: Rows) {
    |after| == |before| && forall i :: 0 <= i < |before| ==> after[i] == Updated(changes, failing, col, v, before[i])
  }

  /** One of the six statements; an empty id list is not sent to the database. */
  method RunUpdate(store: MailStore, ids: set<nat>, col: Column, v: bool, failing: set<(Column, bool)>, ghost changes: seq<Change>)
    returns (failed: bool)
    requires store.Valid() && ids == Toggled(changes, col, v)
    modifies store`rows
    ensures store.Valid() && UpdatedRows(changes, failing, col, v, old(store.rows), store.rows)
    ensures failed <==> ids != {} && (col, v) in failing
  {
    failed := ids != {} && (col, v) in failing;
    if ids != {} && !failed {
      store.SetColumn(ids, col, v);
    }
  }

  /** A statement with work to do does not go through. */
  predicate Fails(changes: seq<Change>, failing: set<(Column, bool)>, col: Column, v: bool) {
    (col, v) in failing && Toggled(changes, col, v) != {}
  }

  lemma SixInARow(changes: seq<Change>, failing: set<(Column, bool)>,
                  r0: Rows, r1: Rows, r2: Rows, r3: Rows, r4: Rows, r5: Rows, r6: Rows)
    requires UpdatedRows(changes, failing, SEEN, true, r0, r1) && UpdatedRows(changes, failing, SEEN, false, r1, r2)
    requires UpdatedRows(changes, failing, FLAGGED, true, r2, r3) && UpdatedRows(changes, failing, FLAGGED, false, r3, r4)
    requires UpdatedRows(changes, failing, DELETED, true, r4, r5) && UpdatedRows(changes, failing, DELETED, false, r5, r6)
    ensures r6 == Mapped(r0, SixUpdates(changes, failing))
  {
    hide Updated, UpdatedRows, SixUpdates;
    SameLength(changes, failing, r0, r1, r2, r3, r4, r5, r6);
    forall i | 0 <= i < |r0| ensures r6[i] == SixUpdates(changes, failing)(r0[i]) {
      UpdatedRow(changes, failing, SEEN, true, r0, r1, i);
      UpdatedRow(changes, failing, SEEN, false, r1, r2, i);
      UpdatedRow(changes, failing, FLAGGED, true, r2, r3, i);
      UpdatedRow(changes, failing, FLAGGED, false, r3, r4, i);
      UpdatedRow(changes, failing, DELETED, true, r4, r5, i);
      UpdatedRow(changes, failing, DELETED, false, r5, r6, i);
      SixOnRow(changes, failing, r0[i]);
    }
  }

  lemma SixOnRow(changes: seq<Change>, failing: set<(Column, bool)>, m: Message)
    ensures var m2 := Updated(changes, failing, SEEN, false, Updated(changes, failing, SEEN, true, m));
            var m4 := Updated(changes, failing, FLAGGED, false, Updated(changes, failing, FLAGGED, true, m2));
            SixUpdates(changes, failing)(m) == Updated(changes, failing, DELETED, false, Updated(changes, failing, DELETED, true, m4))
  {
    hide Updated;
  }

  lemma UpdatedRow(changes: seq<Change>, failing: set<(Column, bool)>, col: Column, v: bool, before: Rows, after: Rows, i: nat)
    requires UpdatedRows(changes, failing, col, v, before, after) && i < |before|
    ensures |after| == |before| && after[i] == Updated(changes, failing, col, v, before[i])
  {
    hide Updated;
  }

  lemma SameLength(changes: seq<Change>, failing: set<(Column, bool)>,
                   r0: Rows, r1: Rows, r2: Rows, r3: Rows, r4: Rows, r5: Rows, r6: Rows)
    requires UpdatedRows(changes, failing, SEEN, true, r0, r1) && UpdatedRows(changes, failing, SEEN, false, r1, r2)
    requires UpdatedRows(changes, failing, FLAGGED, true, r2, r3) && UpdatedRows(changes, failing, FLAGGED, false, r3, r4)
    requires UpdatedRows(changes, failing, DELETED, true, r4, r5) && UpdatedRows(changes, failing, DELETED, false, r5, r6)
    ensures |r6| == |r5| == |r4| == |r3| == |r2| == |r1| == |r0|
  {
    hide Updated;
  }

  method Persist(store: MailStore, changes: seq<Change>, failing: set<(Column, bool)>) returns (failed: bool)
    requires store.Valid()
    modifies store`rows
    ensures store.Valid() && store.rows == Mapped(old(store.rows), SixUpdates(changes, failing))
    ensures failed <==> exists col, v :: Fails(changes, failing, col, v)
  {
    hide Toggled, Updated, SixUpdates, UpdatedRows;
    var readTrue, readFalse, flagTrue, flagFalse, delTrue, delFalse := Classify(changes);
    var e1 := RunUpdate(store, readTrue, SEEN, true, failing, changes);
    ghost var r1 := store.rows;
    var e2 := RunUpdate(store, readFalse, SEEN, false, failing, changes);
    ghost var r2 := store.rows;
    var e3 := RunUpdate(store, flagTrue, FLAGGED, true, failing, changes);
    ghost var r3 := store.rows;
    var e4 := RunUpdate(store, flagFalse, FLAGGED, false, failing, changes);
    ghost var r4 := store.rows;
    var e5 := RunUpdate(store, delTrue, DELETED, true, failing, changes);
    ghost var r5 := store.rows;
    var e6 := RunUpdate(store, delFalse, DELETED, false, failing, changes);
    failed := e1 || e2 || e3 || e4 || e5 || e6;
    SomeFails(changes, failing);
    SixInARow(changes, failing, old(store.rows), r1, r2, r3, r4, r5, store.rows);
  }

  lemma SomeFails(changes: seq<Change>, failing: set<(Column, bool)>)
    ensures (exists col, v :: Fails(changes, failing, col, v)) <==>
              || Fails(changes, failing, SEEN, true) || Fails(changes, failing, SEEN, false)
              || Fails(changes, failing, FLAGGED, true) || Fails(changes, failing, FLAGGED, false)
              || Fails(changes, failing, DELETED, true) || Fails(changes, failing, DELETED, false)
  {
    hide Fails;
    if col, v :| Fails(changes, failing, col, v) {
      match col
      case SEEN => assert v || !v;
      case FLAGGED => assert v || !v;
      case DELETED => assert v || !v;
    }
  }

  lemma GetUnless(op: StoreOp, flags: set<Flag>, failing: set<(Column, bool)>, m: Message, col: Column)
    ensures var want := Get(ApplyFlags(op, flags, m), col);
            Get(ApplyUnless(op, flags, failing, m), col) == if (col, want) in failing then Get(m, col) else want
  {
  }

  /** What the two statements of a column do to a row whose column is still as listed. */
  lemma ColumnOutcome(rows: Rows, list: Rows, numSet: NumSet, op: StoreOp, flags: set<Flag>, failing: set<(Column, bool)>,
                      col: Column, m: Message, n: Message)
    requires Keyed(rows) && m in rows && (forall x :: x in list ==> x in rows)
    requires n.id == m.id && Get(n, col) == Get(m, col)
    ensures var changes := Changes(list, numSet, op, flags, |list|);
            Updated(changes, failing, col, false, Updated(changes, failing, col, true, n))
            == if m.id in MatchedIds(list, numSet) then Put(n, col, Get(ApplyUnless(op, flags, failing, m), col)) else n
  {
    ToggledAre(rows, list, numSet, op, flags, col, true, m);
    ToggledAre(rows, list, numSet, op, flags, col, false, m);
    GetUnless(op, flags, failing, m, col);
    hide Toggled, Changes, MatchedIds, ApplyFlags, ApplyUnless;
  }

  lemma SixOnOneRow(rows: Rows, list: Rows, numSet: NumSet, op: StoreOp, flags: set<Flag>, failing: set<(Column, bool)>, m: Message)
    requires Keyed(rows) && m in rows && forall x :: x in list ==> x in rows
    ensures SixUpdates(Changes(list, numSet, op, flags, |list|), failing)(m)
            == if m.id in MatchedIds(list, numSet) then ApplyUnless(op, flags, failing, m) else m
  {
    hide Toggled, Changes, MatchedIds, ApplyFlags, ApplyUnless, Updated;
    var changes := Changes(list, numSet, op, flags, |list|);
    var on, want := m.id in MatchedIds(list, numSet), ApplyUnless(op, flags, failing, m);
    UnlessTouchesThreeColumns(op, flags, failing, m);
    var m1 := Updated(changes, failing, SEEN, false, Updated(changes, failing, SEEN, true, m));
    ColumnOutcome(rows, list, numSet, op, flags, failing, SEEN, m, m);
    var m2 := Updated(changes, failing, FLAGGED, false, Updated(changes, failing, FLAGGED, true, m1));
    ColumnOutcome(rows, list, numSet, op, flags, failing, FLAGGED, m, m1);
    var m3 := Updated(changes, failing, DELETED, false, Updated(changes, failing, DELETED, true, m2));
    ColumnOutcome(rows, list, numSet, op, flags, failing, DELETED, m, m2);
    assert SixUpdates(changes, failing)(m) == m3;
  }

  lemma UnlessTouchesThreeColumns(op: StoreOp, flags: set<Flag>, failing: set<(Column, bool)>, m: Message)
    ensures var want := ApplyUnless(op, flags, failing, m);
            want == Put(Put(Put(m, SEEN, Get(want, SEEN)), FLAGGED, Get(want, FLAGGED)), DELETED, Get(want, DELETED))
  {
  }

  /** On every row the six statements amount to the pointwise flag change. */
  lemma SixUpdatesArePointwise(rows: Rows, list: Rows, numSet: NumSet, op: StoreOp, flags: set<Flag>, failing: set<(Column, bool)>)
    requires Keyed(rows) && forall x :: x in list ==> x in rows
    ensures Mapped(rows, SixUpdates(Changes(list, numSet, op, flags, |list|), failing))
            == StoredRows(rows, MatchedIds(list, numSet), op, flags, failing)
  {
    hide SixUpdates, Changes, MatchedIds, ApplyUnless;
    forall i | 0 <= i < |rows|
      ensures SixUpdates(Changes(list, numSet, op, flags, |list|), failing)(rows[i])
              == if rows[i].id in MatchedIds(list, numSet) then ApplyUnless(op, flags, failing, rows[i]) else rows[i]
    {
      SixOnOneRow(rows, list, numSet, op, flags, failing, rows[i]);
    }
  }

  lemma FailedStatementShows(rows: Rows, list: Rows, numSet: NumSet, op: StoreOp, flags: set<Flag>, failing: set<(Column, bool)>,
                             col: Column, v: bool, id: nat)
    requires Keyed(rows) && forall x :: x in list ==> x in rows
    requires (col, v) in failing && id in Toggled(Changes(list, numSet, op, flags, |list|), col, v)
    ensures StoredRows(rows, MatchedIds(list, numSet), op, flags, failing) != StoredRows(rows, MatchedIds(list, numSet), op, flags, {})
  {
    var changes := Changes(list, numSet, op, flags, |list|);
    ChangesAre(list, numSet, op, flags, |list|);
    var c :| c in changes && Ask(c, col) == Some(v) && Get(c.msg, col) != v && c.msg.id == id;
    assert list[c.pos - 1] in list;
    var i :| 0 <= i < |rows| && rows[i] == c.msg;
    ToggledAre(rows, list, numSet, op, flags, col, v, rows[i]);
    GetUnless(op, flags, failing, rows[i], col);
    GetUnless(op, flags, {}, rows[i], col);
    hide Toggled, Changes, MatchedIds, ApplyFlags, ApplyUnless;
    assert Get(StoredRows(rows, MatchedIds(list, numSet), op, flags, failing)[i], col) != v;
  }

  /** Some statement with work to do failed exactly when the table falls short of what was asked. */
  lemma FailureShows(rows: Rows, list: Rows, numSet: NumSet, op: StoreOp, flags: set<Flag>, failing: set<(Column, bool)>)
    requires Keyed(rows) && forall x :: x in list ==> x in rows
    ensures (exists col, v :: Fails(Changes(list, numSet, op, flags, |list|), failing, col, v))
            <==> StoredRows(rows, MatchedIds(list, numSet), op, flags, failing)
                 != StoredRows(rows, MatchedIds(list, numSet), op, flags, {})
  {
    hide Changes, MatchedIds, ApplyFlags, Toggled;
    var changes, ids := Changes(list, numSet, op, flags, |list|), MatchedIds(list, numSet);
    var got, asked := StoredRows(rows, ids, op, flags, failing), StoredRows(rows, ids, op, flags, {});
    if col, v :| Fails(changes, failing, col, v) {
      var id :| id in Toggled(changes, col, v);
      FailedStatementShows(rows, list, numSet, op, flags, failing, col, v, id);
    }
    if got != asked {
      var i :| 0 <= i < |rows| && got[i] != asked[i];
      var m := rows[i];
      var col := if got[i].seen != asked[i].seen then SEEN else if got[i].flagged != asked[i].flagged then FLAGGED else DELETED;
      var v := Get(ApplyFlags(op, flags, m), col);
      GetUnless(op, flags, failing, m, col);
      GetUnless(op, flags, {}, m, col);
      assert (col, v) in failing;
      ToggledAre(rows, list, numSet, op, flags, col, v, m);
      assert m.id in Toggled(changes, col, v);
      assert Fails(changes, failing, col, v);
    }
  }

  /** The changes of a STORE, gathered over the listing. */
  method GatherChanges(list: Rows, numSet: NumSet, op: StoreOp, flags: set<Flag>) returns (changes: seq<Change>)
    ensures changes == Changes(list, numSet, op, flags, |list|)
  {
    changes := [];
    var maxUid := MaxUid(list);
    for i := 0 to |list|
      invariant changes == Changes(list, numSet, op, flags, i)
    {
      if NumSetContains(numSet, i + 1, list[i].id, |list|, maxUid) {
        var c := MakeChange(list[i], i + 1, op, flags);
        changes := changes + [c];
      }
    }
  }

  /** Writes the reports to this client, unless silenced, and pushes them to the other sessions. */
  method WriteReports(me: ImapSession, reports: seq<Update>, silent: bool) returns (told: seq<Update>)
    modifies Listeners(me)`queue, Listeners(me)`notify
    ensures told == if silent then [] else reports
    ensures forall s :: s in Listeners(me) ==> s.queue == old(s.queue) + (if s == me then [] else reports)
  {
    told := [];
    for i := 0 to |reports|
      invariant told == if silent then [] else reports[..i]
      invariant forall s :: s in Listeners(me) ==> s.queue == old(s.queue) + (if s == me then [] else reports[..i])
    {
      assert reports[..i + 1] == reports[..i] + [reports[i]];
      if !silent {
        told := told + [reports[i]];
      }
      if me.hub != null {
        me.hub.Enqueue(reports[i], me);
      }
    }
    assert reports[..|reports|] == reports;
  }

  /** The part of STORE that reads and writes the table. */
  method SaveFlags(store: MailStore, user: nat, folder: string, numSet: NumSet, op: StoreOp, flags: set<Flag>,
                   failing: set<(Column, bool)>)
    returns (ok: bool, changes: seq<Change>)
    requires store.Valid()
    modifies store`rows
    ensures var list := Listing(old(store.rows), user, folder);
            && store.Valid()
            && changes == Changes(list, numSet, op, flags, |list|)
            && store.rows == StoredRows(old(store.rows), MatchedIds(list, numSet), op, flags, failing)
            && (ok <==> store.rows == StoredRows(old(store.rows), MatchedIds(list, numSet), op, flags, {}))
  {
    hide Filter, Changes, MatchedIds, SixUpdates, Fails, StoredRows;
    var list := Listing(store.rows, user, folder);
    FilterKeeps(store.rows, InFolder(user, folder));
    changes := GatherChanges(list, numSet, op, flags);
    SixUpdatesArePointwise(store.rows, list, numSet, op, flags, failing);
    FailureShows(store.rows, list, numSet, op, flags, failing);
    var failed := Persist(store, changes, failing);
    ok := !failed;
  }

  /**
   STORE. The client is told NO exactly when the table falls short of what was asked;
   the reports go to it and to the other sessions either way.
   */
  method Store(me: ImapSession, store: MailStore, user: nat, numSet: NumSet, op: StoreOp, flags: set<Flag>, silent: bool,
               failing: set<(Column, bool)>)
    returns (ok: bool, told: seq<Update>)
    requires store.Valid()
    modifies store`rows, Listeners(me)`queue, Listeners(me)`notify
    ensures store.Valid()
    ensures me.readOnly ==> !ok && told == [] && store.rows == old(store.rows) && forall s :: s in Listeners(me) ==> s.queue == old(s.queue)
    ensures var list := Listing(old(store.rows), user, me.selected);
            var ids := MatchedIds(list, numSet);
            var reports := Reports(Changes(list, numSet, op, flags, |list|));
            !me.readOnly ==>
              && store.rows == StoredRows(old(store.rows), ids, op, flags, failing)
              && (ok <==> store.rows == StoredRows(old(store.rows), ids, op, flags, {}))
              && told == (if silent then [] else reports)
              && forall s :: s in Listeners(me) ==> s.queue == old(s.queue) + (if s == me then [] else reports)
  {
    if me.readOnly {
      return false, [];
    }
    hide Listing, Changes, MatchedIds, StoredRows, Reports;
    var changes: seq<Change>;
    ok, changes := SaveFlags(store, user, me.selected, numSet, op, flags, failing);
    told := WriteReports(me, Reports(changes), silent);
  }

  lemma FlagsTell(a: Message, b: Message)
    ensures FlagsOf(a) == FlagsOf(b) <==> a.seen == b.seen && a.flagged == b.flagged && a.deleted == b.deleted
  {
    FlagsAreTold(a);
    FlagsAreTold(b);
  }

  /** Some failing statement was to change this message. */
  ghost predicate LeftBehind(c: Change, failing: set<(Column, bool)>) {
    exists col, v :: Misses(c, failing, col, v)
  }

  predicate Misses(c: Change, failing: set<(Column, bool)>, col: Column, v: bool) {
    (col, v) in failing && Ask(c, col) == Some(v) && Get(c.msg, col) != v
  }

  lemma MissedColumn(op: StoreOp, flags: set<Flag>, failing: set<(Column, bool)>, m: Message, pos: nat, col: Column)
    ensures var want := Get(ApplyFlags(op, flags, m), col);
            && (Get(ApplyUnless(op, flags, failing, m), col) != want <==> Misses(ChangeOf(m, pos, op, flags), failing, col, want))
            && forall v :: Misses(ChangeOf(m, pos, op, flags), failing, col, v) ==> v == want
  {
  }

  lemma LeftBehindIff(op: StoreOp, flags: set<Flag>, failing: set<(Column, bool)>, m: Message, pos: nat)
    ensures FlagsOf(ApplyUnless(op, flags, failing, m)) == FlagsOf(ApplyFlags(op, flags, m))
            <==> !LeftBehind(ChangeOf(m, pos, op, flags), failing)
  {
    var got, want, c := ApplyUnless(op, flags, failing, m), ApplyFlags(op, flags, m), ChangeOf(m, pos, op, flags);
    FlagsTell(got, want);
    MissedColumn(op, flags, failing, m, pos, SEEN);
    MissedColumn(op, flags, failing, m, pos, FLAGGED);
    MissedColumn(op, flags, failing, m, pos, DELETED);
    hide ApplyUnless, ApplyFlags, Misses, ChangeOf, FlagsOf;
    forall col, v | Misses(c, failing, col, v) ensures Get(got, col) != Get(want, col) {
      match col
      case SEEN =>
      case FLAGGED =>
      case DELETED =>
    }
  }

  /** Every report names a message by its place in the new listing, with the flags asked for. */
  lemma ReportPlaced(rows: Rows, user: nat, folder: string, numSet: NumSet, op: StoreOp, flags: set<Flag>,
                     failing: set<(Column, bool)>, k: nat)
    requires Keyed(rows)
    requires k < |Changes(Listing(rows, user, folder), numSet, op, flags, |Listing(rows, user, folder)|)|
    ensures var list := Listing(rows, user, folder);
            var c := Changes(list, numSet, op, flags, |list|)[k];
            var after := Listing(StoredRows(rows, MatchedIds(list, numSet), op, flags, failing), user, folder);
            && 1 <= c.pos <= |list| == |after| && c == ChangeOf(list[c.pos - 1], c.pos, op, flags)
            && Report(c) == Fetch(c.pos, after[c.pos - 1].id, FlagsOf(ApplyFlags(op, flags, list[c.pos - 1])))
            && after[c.pos - 1] == ApplyUnless(op, flags, failing, list[c.pos - 1])
  {
    hide Listing, ApplyFlags, ApplyUnless, FlagsOf, Report, ChangeOf, Matches;
    var list := Listing(rows, user, folder);
    var changes := Changes(list, numSet, op, flags, |list|);
    ChangesAre(list, numSet, op, flags, |list|);
    var c := changes[k];
    assert c in changes;
    ReportAsks(op, flags, list[c.pos - 1], c.pos);
    StoredListing(rows, user, folder, MatchedIds(list, numSet), op, flags, failing);
    assert list[c.pos - 1].id in MatchedIds(list, numSet);
  }

  lemma ReportAsks(op: StoreOp, flags: set<Flag>, m: Message, pos: nat)
    ensures Report(ChangeOf(m, pos, op, flags)) == Fetch(pos, m.id, FlagsOf(ApplyFlags(op, flags, m)))
  {
  }

  lemma StoredListing(rows: Rows, user: nat, folder: string, ids: set<nat>, op: StoreOp, flags: set<Flag>, failing: set<(Column, bool)>)
    ensures var list := Listing(rows, user, folder);
            var after := Listing(StoredRows(rows, ids, op, flags, failing), user, folder);
            && |after| == |list|
            && forall i :: 0 <= i < |list| ==>
                 after[i].id == list[i].id &&
                 after[i] == if list[i].id in ids then ApplyUnless(op, flags, failing, list[i]) else list[i]
  {
    var f := (m: Message) => if m.id in ids then ApplyUnless(op, flags, failing, m) else m;
    ListingMapped(rows, f, user, folder);
    assert StoredRows(rows, ids, op, flags, failing) == Mapped(rows, f);
  }

  /** The report carries the flags stored for the message at its place. */
  predicate Stored(after: Rows, report: Update) {
    report.Fetch? && 1 <= report.pos <= |after|
    && after[report.pos - 1].id == report.uid && FlagsOf(after[report.pos - 1]) == report.flags
  }

  lemma StoredIff(rows: Rows, user: nat, folder: string, numSet: NumSet, op: StoreOp, flags: set<Flag>,
                  failing: set<(Column, bool)>, k: nat)
    requires Keyed(rows)
    requires k < |Changes(Listing(rows, user, folder), numSet, op, flags, |Listing(rows, user, folder)|)|
    ensures var list := Listing(rows, user, folder);
            var c := Changes(list, numSet, op, flags, |list|)[k];
            var after := Listing(StoredRows(rows, MatchedIds(list, numSet), op, flags, failing), user, folder);
            Stored(after, Report(c)) <==> !LeftBehind(c, failing)
  {
    var list := Listing(rows, user, folder);
    var c := Changes(list, numSet, op, flags, |list|)[k];
    ReportPlaced(rows, user, folder, numSet, op, flags, failing, k);
    LeftBehindIff(op, flags, failing, list[c.pos - 1], c.pos);
    hide Listing, Changes, StoredRows, MatchedIds, ApplyFlags, ApplyUnless, FlagsOf, ChangeOf, Report, LeftBehind;
  }

  lemma LeftBehindShows(changes: seq<Change>, failing: set<(Column, bool)>)
    ensures (exists col, v :: Fails(changes, failing, col, v)) <==> exists k :: 0 <= k < |changes| && LeftBehind(changes[k], failing)
  {
    if col, v :| Fails(changes, failing, col, v) {
      var id :| id in Toggled(changes, col, v);
      var c :| c in changes && Ask(c, col) == Some(v) && Get(c.msg, col) != v && c.msg.id == id;
      assert Misses(c, failing, col, v);
      var k :| 0 <= k < |changes| && changes[k] == c;
    }
    if k :| 0 <= k < |changes| && LeftBehind(changes[k], failing) {
      var col, v :| Misses(changes[k], failing, col, v);
      assert changes[k] in changes;
      assert changes[k].msg.id in Toggled(changes, col, v);
      assert Fails(changes, failing, col, v);
    }
  }

  /** The flags reported, to this session and the others, are all the stored ones exactly if no statement with work to do failed. */
  lemma ReportsAreStoredIff(rows: Rows, user: nat, folder: string, numSet: NumSet, op: StoreOp, flags: set<Flag>,
                            failing: set<(Column, bool)>)
    requires Keyed(rows)
    ensures var list := Listing(rows, user, folder);
            var changes := Changes(list, numSet, op, flags, |list|);
            var after := Listing(StoredRows(rows, MatchedIds(list, numSet), op, flags, failing), user, folder);
            (forall k :: 0 <= k < |Reports(changes)| ==> Stored(after, Reports(changes)[k]))
            <==> !exists col, v :: Fails(changes, failing, col, v)
  {
    var list := Listing(rows, user, folder);
    var changes := Changes(list, numSet, op, flags, |list|);
    var after := Listing(StoredRows(rows, MatchedIds(list, numSet), op, flags, failing), user, folder);
    LeftBehindShows(changes, failing);
    forall k | 0 <= k < |changes| ensures Stored(after, Reports(changes)[k]) <==> !LeftBehind(changes[k], failing) {
      StoredIff(rows, user, folder, numSet, op, flags, failing, k);
    }
    hide Listing, Changes, StoredRows, MatchedIds, Stored, LeftBehind, Fails;
    assert forall k :: 0 <= k < |changes| ==> Reports(changes)[k] == Report(changes[k]);
  }

  /** Where no statement with work to do fails, every report tells the columns of the message at its place. */
  lemma ReportsTellColumns(rows: Rows, user: nat, folder: string, numSet: NumSet, op: StoreOp, flags: set<Flag>,
                           failing: set<(Column, bool)>, k: nat)
    requires Keyed(rows)
    requires var list := Listing(rows, user, folder);
             var changes := Changes(list, numSet, op, flags, |list|);
             k < |changes| && !exists col, v :: Fails(changes, failing, col, v)
    ensures var list := Listing(rows, user, folder);
            var r := Reports(Changes(list, numSet, op, flags, |list|))[k];
            var after := Listing(StoredRows(rows, MatchedIds(list, numSet), op, flags, failing), user, folder);
            r.Fetch? && 1 <= r.pos <= |after| && after[r.pos - 1].id == r.uid && Tells(r.flags, after[r.pos - 1])
  {
    hide Listing, Changes, StoredRows, MatchedIds, Fails, FlagsOf, Report;
    var list := Listing(rows, user, folder);
    var r := Reports(Changes(list, numSet, op, flags, |list|))[k];
    var after := Listing(StoredRows(rows, MatchedIds(list, numSet), op, flags, failing), user, folder);
    ReportsAreStoredIff(rows, user, folder, numSet, op, flags, failing);
    assert Stored(after, r);
    FlagsAreTold(after[r.pos - 1]);
  }

  /** FETCH responses about the first `k` listed messages, each under its own number, the numbers ascending. */
  ghost predicate Located(us: seq<Update>, list: Rows, k: nat)
    requires k <= |list|
  {
    && (forall i :: 0 <= i < |us| ==> us[i].Fetch? && 1 <= us[i].pos <= k && us[i].uid == list[us[i].pos - 1].id)
    && (forall i, j :: 0 <= i < j < |us| ==> us[i].pos < us[j].pos)
  }

  ghost predicate HasNumber(us: seq<Update>, n: nat) {
    exists i :: 0 <= i < |us| && !us[i].Exists? && us[i].pos == n
  }

  /** STORE reports, in the order of the listing, exactly the matched messages, each once, whether or not a flag changes. */
  lemma {:induction false} ReportsCover(list: Rows, numSet: NumSet, op: StoreOp, flags: set<Flag>, k: nat, n: nat)
    requires k <= |list|
    ensures var us := Reports(Changes(list, numSet, op, flags, k));
            Located(us, list, k) && (HasNumber(us, n) <==> 1 <= n <= k && Matches(list, numSet, n - 1))
  {
    hide Matches, Reports;
    if k == 0 {
      assert |Reports([])| == 0;
    } else {
      ReportsCover(list, numSet, op, flags, k - 1, n);
      hide Changes;
      var before := Reports(Changes(list, numSet, op, flags, k - 1));
      OneMoreReport(list, numSet, op, flags, k);
      var u := Report(ChangeOf(list[k - 1], k, op, flags));
      if Matches(list, numSet, k - 1) {
        LocatedSnoc(before, u, list, k, n);
      } else {
        assert Located(before, list, k);
      }
      hide Located, HasNumber, Report, ChangeOf;
    }
  }

  lemma LocatedSnoc(us: seq<Update>, u: Update, list: Rows, k: nat, n: nat)
    requires 1 <= k <= |list| && Located(us, list, k - 1) && u.Fetch? && u.pos == k && u.uid == list[k - 1].id
    ensures Located(us + [u], list, k) && (HasNumber(us + [u], n) <==> HasNumber(us, n) || n == k)
  {
    var all := us + [u];
    assert forall i :: 0 <= i < |us| ==> all[i] == us[i];
    assert all[|us|] == u;
  }

  lemma OneMoreReport(list: Rows, numSet: NumSet, op: StoreOp, flags: set<Flag>, k: nat)
    requires 1 <= k <= |list|
    ensures Reports(Changes(list, numSet, op, flags, k))
            == var before := Reports(Changes(list, numSet, op, flags, k - 1));
               if Matches(list, numSet, k - 1) then before + [Report(ChangeOf(list[k - 1], k, op, flags))] else before
  {
    hide Matches, Report, ChangeOf;
    if Matches(list, numSet, k - 1) {
      assert Changes(list, numSet, op, flags, k) == Changes(list, numSet, op, flags, k - 1) + [ChangeOf(list[k - 1], k, op, flags)];
    } else {
      assert Changes(list, numSet, op, flags, k) == Changes(list, numSet, op, flags, k - 1);
    }
  }

  /** A column after STORE: set, added to or taken from, unless the statement that would have flipped it failed. */
  predicate ColumnStored(op: StoreOp, asked: bool, flipFails: bool, before: bool, after: bool) {
    if flipFails then after == before
    else
      match op
      case SetFlags => after == asked
      case AddFlags => after == (before || asked)
      case DelFlags => after == (before && !asked)
  }

  /**
   RFC 3501 section 6.4.6, row by row: owner, folder and content stay; a message that is not of the mailbox and in the set
   stays altogether; of one that is, each of the three columns is set, added to or taken from by its own flag, unless the
   statement that would have flipped it failed.
   */
  lemma StoreColumns(rows: Rows, user: nat, folder: string, numSet: NumSet, op: StoreOp, flags: set<Flag>,
                     failing: set<(Column, bool)>, i: nat)
    requires Keyed(rows) && i < |rows|
    ensures var list := Listing(rows, user, folder);
            var m, r := rows[i], StoredRows(rows, MatchedIds(list, numSet), op, flags, failing)[i];
            && r.id == m.id && r.user == m.user && r.folder == m.folder && r.raw == m.raw
            && if exists j: nat :: j < |list| && list[j] == m && Matches(list, numSet, j) then
                 && ColumnStored(op, Seen in flags, (SEEN, !m.seen) in failing, m.seen, r.seen)
                 && ColumnStored(op, Flagged in flags, (FLAGGED, !m.flagged) in failing, m.flagged, r.flagged)
                 && ColumnStored(op, Flag.Deleted in flags, (DELETED, !m.deleted) in failing, m.deleted, r.deleted)
               else r == m
  {
    hide Matches;
    var list := Listing(rows, user, folder);
    FilterKeeps(rows, InFolder(user, folder));
    MatchedAre(rows, list, numSet, rows[i]);
  }

  lemma MatchedAre(rows: Rows, list: Rows, numSet: NumSet, m: Message)
    requires Keyed(rows) && m in rows && forall x :: x in list ==> x in rows
    ensures m.id in MatchedIds(list, numSet) <==> exists j: nat :: j < |list| && list[j] == m && Matches(list, numSet, j)
  {
    hide Matches;
    if m.id in MatchedIds(list, numSet) {
      var j :| 0 <= j < |list| && Matches(list, numSet, j) && list[j].id == m.id;
      ListedRow(rows, list, j, m);
    }
  }

  // ---------- Picking messages by place ----------

  /** The sequence numbers of the picked among the first `k` listed messages, ascending. */
  function Nums(pick: nat -> bool, k: nat): (nums: seq<nat>)
    ensures forall i :: 0 <= i < |nums| ==> 1 <= nums[i] <= k
  {
    if k == 0 then [] else Nums(pick, k - 1) + if pick(k - 1) then [k] else []
  }

  ghost function IdsAt(list: Rows, pick: nat -> bool, k: nat): set<nat>
    requires k <= |list|
  {
    set i: nat | i < k && pick(i) :: list[i].id
  }

  lemma {:induction false} NonePicked(list: Rows, pick: nat -> bool, k: nat)
    requires k <= |list| && Nums(pick, k) == []
    ensures IdsAt(list, pick, k) == {}
  {
    if k > 0 {
      NonePicked(list, pick, k - 1);
    }
  }

  lemma {:induction false} NumsAscend(pick: nat -> bool, k: nat)
    ensures ExpungeReplay.Positions(Nums(pick, k), k)
  {
    if k > 0 {
      NumsAscend(pick, k - 1);
    }
  }

  lemma {:induction false} NumsName(pick: nat -> bool, k: nat, i: nat)
    requires i < k
    ensures ExpungeReplay.Kept(Nums(pick, k), i) <==> !pick(i)
  {
    var nums := Nums(pick, k);
    if i == k - 1 {
      if pick(i) {
        assert nums[|nums| - 1] == i + 1;
      }
    } else {
      NumsName(pick, k - 1, i);
      var before := Nums(pick, k - 1);
      assert nums == before + if pick(k - 1) then [k] else [];
      assert forall j :: 0 <= j < |before| ==> nums[j] == before[j];
    }
  }

  /** Deleting the picked rows leaves, in the listing, the survivors of their sequence numbers. */
  lemma RemovalLeavesSurvivors(rows: Rows, user: nat, folder: string, pick: nat -> bool)
    requires Keyed(rows)
    ensures var list := Listing(rows, user, folder);
            var nums := Nums(pick, |list|);
            && ExpungeReplay.Positions(nums, |list|)
            && Ids(Listing(Without(rows, IdsAt(list, pick, |list|)), user, folder)) == ExpungeReplay.Survivors(Ids(list), nums)
  {
    var list := Listing(rows, user, folder);
    var nums, gone := Nums(pick, |list|), IdsAt(list, pick, |list|);
    FilterKeeps(rows, InFolder(user, folder));
    ListingWithout(rows, gone, user, folder);
    NumsAscend(pick, |list|);
    FilterKeeps(list, NotIn(gone));
    ExpungeReplay.SurvivorsOrdered(Ids(list), nums);
    ExpungeReplay.SurvivorsAre(Ids(list), nums);
    forall id: nat ensures id in Ids(Without(list, gone)) <==> id in ExpungeReplay.Survivors(Ids(list), nums) {
      SurvivesEitherWay(list, pick, id);
    }
    ExpungeReplay.AscendingUnique(Ids(Without(list, gone)), ExpungeReplay.Survivors(Ids(list), nums));
  }

  lemma SurvivesEitherWay(list: Rows, pick: nat -> bool, id: nat)
    requires Keyed(list)
    ensures id in Ids(Without(list, IdsAt(list, pick, |list|))) <==>
            exists k: nat :: k < |Ids(list)| && Ids(list)[k] == id && ExpungeReplay.Kept(Nums(pick, |list|), k)
  {
    var gone := IdsAt(list, pick, |list|);
    var left := Without(list, gone);
    FilterKeeps(list, NotIn(gone));
    if id in Ids(left) {
      var j :| 0 <= j < |Ids(left)| && Ids(left)[j] == id;
      assert left[j] in left && left[j].id == id;
      var k: nat :| k < |list| && list[k] == left[j];
      NumsName(pick, |list|, k);
      assert Ids(list)[k] == id;
    }
    if k: nat :| k < |Ids(list)| && Ids(list)[k] == id && ExpungeReplay.Kept(Nums(pick, |list|), k) {
      NumsName(pick, |list|, k);
      assert list[k] in list && list[k].id !in gone;
      var j :| 0 <= j < |left| && left[j] == list[k];
      assert Ids(left)[j] == id;
    }
  }

  /** What EXPUNGE and MOVE emit, replayed by a client in step, gives the new listing exactly for at most one message. */
  lemma EmittedNumbersReplayIff(rows: Rows, user: nat, folder: string, pick: nat -> bool)
    requires Keyed(rows)
    ensures var list := Listing(rows, user, folder);
            var after := Listing(Without(rows, IdsAt(list, pick, |list|)), user, folder);
            var nums := Nums(pick, |list|);
            ExpungeReplay.Replay(Ids(list), nums) == Some(Ids(after)) <==> |nums| <= 1
  {
    var list := Listing(rows, user, folder);
    RemovalLeavesSurvivors(rows, user, folder, pick);
    FilterKeeps(rows, InFolder(user, folder));
    ExpungeReplay.AscendingReplayIff(Ids(list), Nums(pick, |list|));
  }

  // ---------- EXPUNGE ----------

  predicate Doomed(m: Message, uids: Option<set<nat>>) {
    m.deleted && (uids.None? || m.id in uids.value)
  }

  function DoomedAt(list: Rows, uids: Option<set<nat>>): nat -> bool {
    (i: nat) => i < |list| && Doomed(list[i], uids)
  }

  method FindDoomed(list: Rows, uids: Option<set<nat>>) returns (ids: set<nat>, nums: seq<nat>)
    ensures ids == IdsAt(list, DoomedAt(list, uids), |list|) && nums == Nums(DoomedAt(list, uids), |list|)
  {
    ids, nums := {}, [];
    for i := 0 to |list|
      invariant ids == IdsAt(list, DoomedAt(list, uids), i) && nums == Nums(DoomedAt(list, uids), i)
    {
      if Doomed(list[i], uids) {
        ids := ids + {list[i].id};
        nums := nums + [i + 1];
      }
    }
  }

  /** Exactly the mailbox's messages marked \Deleted, and in the set if there is one, go. */
  lemma DoomedGo(rows: Rows, user: nat, folder: string, uids: Option<set<nat>>)
    requires Keyed(rows)
    ensures var list := Listing(rows, user, folder);
            forall m :: m in Without(rows, IdsAt(list, DoomedAt(list, uids), |list|)) <==>
              m in rows && !(m.user == user && m.folder == folder && m.deleted && (uids.None? || m.id in uids.value))
  {
    var list := Listing(rows, user, folder);
    var gone := IdsAt(list, DoomedAt(list, uids), |list|);
    FilterKeeps(rows, InFolder(user, folder));
    FilterKeeps(rows, NotIn(gone));
    forall m | m in rows
      ensures m.id in gone <==> m.user == user && m.folder == folder && m.deleted && (uids.None? || m.id in uids.value)
    {
      if m.id in gone {
        var i: nat :| i < |list| && DoomedAt(list, uids)(i) && list[i].id == m.id;
        ListedRow(rows, list, i, m);
        assert list[i] in list;
      }
      if In(m, user, folder) && m.deleted && (uids.None? || m.id in uids.value) {
        assert m in list;
        var i: nat :| i < |list| && list[i] == m;
        assert DoomedAt(list, uids)(i);
      }
    }
  }

  /** A picked place has its number among those emitted, and no other. */
  lemma {:induction false} NumsHas(pick: nat -> bool, k: nat, n: nat)
    ensures n in Nums(pick, k) <==> 1 <= n <= k && pick(n - 1)
  {
    if k > 0 {
      NumsHas(pick, k - 1, n);
    }
  }

  lemma DoomedNumber(list: Rows, uids: Option<set<nat>>, n: nat)
    ensures n in Nums(DoomedAt(list, uids), |list|)
            <==> 1 <= n <= |list| && list[n - 1].deleted && (uids.None? || list[n - 1].id in uids.value)
  {
    NumsHas(DoomedAt(list, uids), |list|, n);
    hide Nums;
  }

  lemma DoomedNumbers(list: Rows, uids: Option<set<nat>>)
    ensures var nums := Nums(DoomedAt(list, uids), |list|);
            && ExpungeReplay.Ascending(nums)
            && forall n: nat :: n in nums <==> 1 <= n <= |list| && list[n - 1].deleted && (uids.None? || list[n - 1].id in uids.value)
  {
    NumsAscend(DoomedAt(list, uids), |list|);
    hide Nums, DoomedAt;
    forall n: nat
      ensures n in Nums(DoomedAt(list, uids), |list|)
              <==> 1 <= n <= |list| && list[n - 1].deleted && (uids.None? || list[n - 1].id in uids.value)
    {
      DoomedNumber(list, uids, n);
    }
  }

  /** EXPUNGE and UID EXPUNGE; `dbFails` when the DELETE does not go through. */
  method Expunge(me: ImapSession, store: MailStore, user: nat, uids: Option<set<nat>>, dbFails: bool)
    returns (ok: bool, told: seq<nat>)
    requires store.Valid()
    modifies store`rows, Listeners(me)`queue, Listeners(me)`notify
    ensures store.Valid()
    ensures ok ==> forall m :: m in store.rows <==>
              m in old(store.rows)
              && !(m.user == user && m.folder == me.selected && m.deleted && (uids.None? || m.id in uids.value))
    ensures ok ==> forall n: nat :: n in told <==>
              var list := Listing(old(store.rows), user, me.selected);
              1 <= n <= |list| && list[n - 1].deleted && (uids.None? || list[n - 1].id in uids.value)
    ensures ok ==> ExpungeReplay.Ascending(told)
    ensures var list := Listing(old(store.rows), user, me.selected);
            var nums := Nums(DoomedAt(list, uids), |list|);
            && (ok <==> !me.readOnly && (nums == [] || !dbFails))
            && told == (if ok then nums else [])
            && store.rows == (if ok then Without(old(store.rows), IdsAt(list, DoomedAt(list, uids), |list|)) else old(store.rows))
            && forall s :: s in Listeners(me) ==>
                 s.queue == old(s.queue) + (if s == me then [] else ImapView.Expunges(told))
  {
    told := [];
    if me.readOnly {
      return false, [];
    }
    var list := Listing(store.rows, user, me.selected);
    var ids, nums := FindDoomed(list, uids);
    DoomedGo(store.rows, user, me.selected, uids);
    DoomedNumbers(list, uids);
    if nums == [] {
      NonePicked(list, DoomedAt(list, uids), |list|);
      WithoutNone(store.rows);
      return true, [];
    }
    if dbFails {
      return false, [];
    }
    hide Filter, Nums, IdsAt, DoomedAt;
    store.DeleteMany(ids);
    ok, told := true, nums;
    if me.hub != null {
      me.hub.EnqueueAll(ImapView.Expunges(nums), me);
    }
  }

  // ---------- MOVE ----------

  /** The message is in the set and its UPDATE or INSERT goes through. */
  function TakenAt(list: Rows, numSet: NumSet, failing: set<nat>): nat -> bool {
    (i: nat) => i < |list| && Matches(list, numSet, i) && list[i].id !in failing
  }

  function MovedRows(rows: Rows, ids: set<nat>, dest: string): Rows {
    Mapped(rows, (m: Message) => if m.id in ids then m.(folder := dest) else m)
  }

  lemma TakenHere(list: Rows, numSet: NumSet, failing: set<nat>, i: nat)
    requires i < |list|
    ensures TakenAt(list, numSet, failing)(i) <==>
            NumSetContains(numSet, i + 1, list[i].id, |list|, MaxId(list)) && list[i].id !in failing
  {
  }

  /** The loop of MOVE: one UPDATE a message, those in `failing` skipped. */
  method MoveAll(store: MailStore, list: Rows, numSet: NumSet, dest: string, failing: set<nat>)
    returns (ids: set<nat>, nums: seq<nat>)
    requires store.Valid()
    modifies store`rows
    ensures store.Valid()
    ensures ids == IdsAt(list, TakenAt(list, numSet, failing), |list|) && nums == Nums(TakenAt(list, numSet, failing), |list|)
    ensures store.rows == MovedRows(old(store.rows), ids, dest)
  {
    ids, nums := {}, [];
    var maxUid := MaxUid(list);
    assert MovedRows(store.rows, ids, dest) == store.rows;
    hide TakenAt, NumSetContains, MaxId;
    for i := 0 to |list|
      invariant store.Valid()
      invariant ids == IdsAt(list, TakenAt(list, numSet, failing), i) && nums == Nums(TakenAt(list, numSet, failing), i)
      invariant store.rows == MovedRows(old(store.rows), ids, dest)
    {
      TakenHere(list, numSet, failing, i);
      if NumSetContains(numSet, i + 1, list[i].id, |list|, maxUid) && list[i].id !in failing {
        store.MoveToFolder(list[i].id, dest);
        ids := ids + {list[i].id};
        nums := nums + [i + 1];
      }
    }
  }

  /** The COPYUID response: which UIDs were taken, which given, and the UIDVALIDITY they are given under. */
  datatype CopyData = CopyData(uidValidity: nat, sources: set<nat>, dests: set<nat>)

  /** A UIDVALIDITY that cannot be had is answered as 0. */
  function ValidityOr0(validity: Option<nat>): nat {
    if validity.None? then 0 else validity.value
  }

  /**
   MOVE: `dest` and its hub are what the name resolves to, None where there is no such mailbox; `validity` is what the
   state table answers. Moved messages keep their UIDs.
   */
  method Move(me: ImapSession, store: MailStore, user: nat, numSet: NumSet, dest: Option<string>, destHub: MailboxHub?,
              failing: set<nat>, validity: Option<nat>)
    returns (copied: Option<CopyData>, moved: seq<nat>)
    requires store.Valid()
    modifies store`rows, Listeners(me)`queue, Listeners(me)`notify
    modifies SessionsOf(destHub)`queue, SessionsOf(destHub)`notify
    ensures store.Valid() && (copied.Some? <==> !me.readOnly && dest.Some?)
    ensures var list := Listing(old(store.rows), user, me.selected);
            var pick := TakenAt(list, numSet, failing);
            var ids := IdsAt(list, pick, |list|);
            && (copied.Some? ==> copied.value == CopyData(ValidityOr0(validity), ids, ids))
            && moved == (if copied.Some? then Nums(pick, |list|) else [])
            && store.rows == (if copied.Some? then MovedRows(old(store.rows), ids, dest.value) else old(store.rows))
    ensures forall s :: s in Listeners(me) + SessionsOf(destHub) ==>
              s.queue == old(s.queue)
                         + (if s in Listeners(me) && s != me then ImapView.Expunges(moved) else [])
                         + (if s in SessionsOf(destHub) && copied.Some? then [Exists(|Listing(store.rows, user, dest.value)|)] else [])
  {
    copied, moved := None, [];
    if me.readOnly {
      return;
    }
    if dest.None? {
      return;
    }
    hide Filter, Nums, IdsAt, MovedRows;
    var list := Listing(store.rows, user, me.selected);
    var ids;
    ids, moved := MoveAll(store, list, numSet, dest.value, failing);
    copied := Some(CopyData(ValidityOr0(validity), ids, ids));
    if me.hub != null {
      me.hub.EnqueueAll(ImapView.Expunges(moved), me);
    }
    if destHub != null {
      destHub.Enqueue(Exists(|Listing(store.rows, user, dest.value)|), null);
    }
  }

  /** Which messages MOVE takes, and what it leaves of each row; a COPY takes the same. */
  lemma MoveTakes(rows: Rows, user: nat, folder: string, numSet: NumSet, failing: set<nat>, dest: string, i: nat)
    requires Keyed(rows) && i < |rows|
    ensures var list := Listing(rows, user, folder);
            var m, r := rows[i], MovedRows(rows, IdsAt(list, TakenAt(list, numSet, failing), |list|), dest)[i];
            && r.id == m.id && r.user == m.user && r.raw == m.raw
            && r.seen == m.seen && r.flagged == m.flagged && r.deleted == m.deleted
            && r.folder == if m.id !in failing && exists j: nat :: j < |list| && list[j] == m && Matches(list, numSet, j)
                           then dest else m.folder
  {
    hide Matches;
    var list, m := Listing(rows, user, folder), rows[i];
    FilterKeeps(rows, InFolder(user, folder));
    if m.id in IdsAt(list, TakenAt(list, numSet, failing), |list|) {
      var j: nat :| j < |list| && TakenAt(list, numSet, failing)(j) && list[j].id == m.id;
      ListedRow(rows, list, j, m);
    }
    if j: nat :| m.id !in failing && j < |list| && list[j] == m && Matches(list, numSet, j) {
      assert TakenAt(list, numSet, failing)(j);
    }
  }

  lemma MoveNumbers(list: Rows, numSet: NumSet, failing: set<nat>, n: nat)
    ensures n in Nums(TakenAt(list, numSet, failing), |list|) <==>
            1 <= n <= |list| && Matches(list, numSet, n - 1) && list[n - 1].id !in failing
  {
    NumsHas(TakenAt(list, numSet, failing), |list|, n);
  }

  /** The mailbox a MOVE was made in loses exactly the moved messages, unless it was moved into itself. */
  lemma MoveLeavesOrStays(rows: Rows, user: nat, folder: string, pick: nat -> bool, dest: string)
    requires Keyed(rows)
    ensures var list := Listing(rows, user, folder);
            var ids := IdsAt(list, pick, |list|);
            Listing(MovedRows(rows, ids, dest), user, folder) == if dest == folder then list else Without(list, ids)
  {
    var list := Listing(rows, user, folder);
    FilterKeeps(rows, InFolder(user, folder));
    var ids := IdsAt(list, pick, |list|);
    forall m | m in rows && m.id in ids ensures In(m, user, folder) {
      var i: nat :| i < |list| && pick(i) && list[i].id == m.id;
      ListedRow(rows, list, i, m);
      assert m in list;
    }
    MovedListing(rows, user, folder, ids, dest);
  }

  lemma {:induction false} MovedListing(rows: Rows, user: nat, folder: string, ids: set<nat>, dest: string)
    requires forall m :: m in rows && m.id in ids ==> In(m, user, folder)
    ensures Listing(MovedRows(rows, ids, dest), user, folder)
            == if dest == folder then Listing(rows, user, folder) else Without(Listing(rows, user, folder), ids)
  {
    if rows != [] {
      MovedListing(rows[1..], user, folder, ids, dest);
      assert rows[0] in rows;
      assert MovedRows(rows, ids, dest)[1..] == MovedRows(rows[1..], ids, dest);
      var kept := Listing(rows, user, folder);
      if In(rows[0], user, folder) {
        assert kept[0] == rows[0] && kept[1..] == Listing(rows[1..], user, folder);
      }
    }
  }
}
