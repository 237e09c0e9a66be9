/**
 A session that removes a message while updates are pending for it: its own EXPUNGE response reaches the client
 ahead of them.
 */
module ImapPending {
  import opened ExpungeReplay
  import opened ImapQueue
  import opened ImapView
  import opened Wrappers

  lemma ReplayOne(view: seq<nat>, p: nat)
    requires 1 <= p <= |view|
    ensures Replay(view, [p]) == Some(RemoveAt(view, p)) && Survivors(view, [p]) == RemoveAt(view, p)
  {
    AtMostOneReplays(view, [p]);
    assert [p][1..] == [];
    hide Survivors;
  }

  /** Once an EXISTS has filled both up to the same length, the view that lacked messages knows of too many arrivals. */
  lemma {:induction false} TooManyKnown(a: seq<nat>, b: seq<nat>, known: nat, extra: nat, us: seq<Update>, arrivals: seq<nat>)
    requires |a| == |b| && known + extra <= |arrivals| && ReadAll(a, known, us, arrivals).Some?
    ensures ReadAll(b, known + extra, us, arrivals).Some? ==>
              ReadAll(b, known + extra, us, arrivals).value.1 == ReadAll(a, known, us, arrivals).value.1 + extra <= |arrivals|
    decreases |us|
  {
    if us != [] {
      var (a', known') := Read(a, known, us[0], arrivals).value;
      match Read(b, known + extra, us[0], arrivals)
      case None =>
      case Some((b', _)) => TooManyKnown(a', b', known', extra, us[1..], arrivals);
    }
  }

  /** A view shorter by some messages does not catch up through a queue with an EXISTS in it. */
  lemma {:induction false} ExistsMisleads(a: seq<nat>, b: seq<nat>, known: nat, us: seq<Update>, arrivals: seq<nat>)
    requires |b| < |a| && (exists i :: 0 <= i < |us| && us[i].Exists?)
    requires ReadAll(a, known, us, arrivals).Some? && ReadAll(a, known, us, arrivals).value.1 == |arrivals|
    ensures ReadAll(b, known, us, arrivals).None?
    decreases |us|
  {
    var (a', known') := Read(a, known, us[0], arrivals).value;
    match Read(b, known, us[0], arrivals)
    case None =>
    case Some((b', known'')) =>
      if us[0].Exists? {
        TooManyKnown(a', b', known', known'' - known', us[1..], arrivals);
      } else {
        assert exists i :: 0 <= i < |us[1..]| && us[1..][i].Exists? by {
          var i :| 0 <= i < |us| && us[i].Exists?;
          assert us[1..][i - 1].Exists?;
        }
        ExistsMisleads(a', b', known, us[1..], arrivals);
      }
  }

  predicate HasExists(us: seq<Update>) {
    exists i :: 0 <= i < |us| && us[i].Exists?
  }

  /** The numbers of the EXPUNGEs. */
  function Numbers(us: seq<Update>): (ps: seq<nat>)
    ensures |ps| <= |us|
  {
    if us == [] then [] else (if us[0].Expunge? then [us[0].pos] else []) + Numbers(us[1..])
  }

  /** The FETCH at `i` in the queue, if there is one, names the message it is about. */
  predicate Names(view: seq<nat>, us: seq<Update>, i: nat)
    requires i < |us|
  {
    us[i].Fetch? ==>
      1 <= us[i].pos && Origin(Numbers(us[..i]), us[i].pos - 1) < |view|
      && view[Origin(Numbers(us[..i]), us[i].pos - 1)] == us[i].uid
  }

  ghost predicate AllNamed(view: seq<nat>, us: seq<Update>) {
    forall i: nat :: i < |us| ==> Names(view, us, i)
  }

  lemma NumbersCons(us: seq<Update>, i: nat)
    requires 1 <= i <= |us|
    ensures Numbers(us[..i]) == (if us[0].Expunge? then [us[0].pos] else []) + Numbers(us[1..][..i - 1])
  {
    assert us[..i][1..] == us[1..][..i - 1];
  }

  lemma NamesShift(view: seq<nat>, us: seq<Update>, i: nat)
    requires 1 <= i < |us| && !us[0].Exists? && (us[0].Expunge? ==> 1 <= us[0].pos <= |view|)
    ensures var next := if us[0].Expunge? then RemoveAt(view, us[0].pos) else view;
            Names(view, us, i) <==> Names(next, us[1..], i - 1)
  {
    NumbersCons(us, i);
    if us[0].Expunge? && us[i].Fetch? && us[i].pos >= 1 {
      var q, rest := us[0].pos, Numbers(us[1..][..i - 1]);
      assert ([q] + rest)[1..] == rest;
      assert Numbers(us[..i]) == [q] + rest;
      RemovedIndex(view, q);
      hide RemoveAt, Numbers;
    } else if us[0].Fetch? {
      assert [] + Numbers(us[1..][..i - 1]) == Numbers(us[1..][..i - 1]);
    }
  }

  lemma AllNamedShift(view: seq<nat>, us: seq<Update>)
    requires us != [] && !us[0].Exists? && (us[0].Expunge? ==> 1 <= us[0].pos <= |view|)
    ensures var next := if us[0].Expunge? then RemoveAt(view, us[0].pos) else view;
            AllNamed(view, us) <==> Names(view, us, 0) && AllNamed(next, us[1..])
  {
    hide Names;
    var next := if us[0].Expunge? then RemoveAt(view, us[0].pos) else view;
    forall i: nat | 1 <= i < |us| ensures Names(view, us, i) <==> Names(next, us[1..], i - 1) {
      NamesShift(view, us, i);
    }
    if Names(view, us, 0) && AllNamed(next, us[1..]) {
      forall i: nat | i < |us| ensures Names(view, us, i) {
        if i >= 1 {
          assert Names(next, us[1..], i - 1);
        }
      }
    }
    if AllNamed(view, us) {
      forall i: nat | i < |us[1..]| ensures Names(next, us[1..], i) {
        assert Names(view, us, i + 1);
      }
    }
  }

  lemma FirstNamed(view: seq<nat>, known: nat, us: seq<Update>, arrivals: seq<nat>)
    requires us != [] && !us[0].Exists?
    ensures Read(view, known, us[0], arrivals).Some? <==>
            Names(view, us, 0) && (us[0].Expunge? ==> 1 <= us[0].pos <= |view|)
  {
    assert us[..0] == [];
  }

  /** Without an EXISTS, a queue is read to the end exactly if its numbers can be replayed and its FETCHes name their messages. */
  lemma {:induction false} ReadIff(view: seq<nat>, known: nat, us: seq<Update>, arrivals: seq<nat>)
    requires !HasExists(us)
    ensures ReadAll(view, known, us, arrivals)
            == if AllNamed(view, us) && Replay(view, Numbers(us)).Some? then Some((Replay(view, Numbers(us)).value, known)) else None
    decreases |us|
  {
    if us != [] {
      var u, rest := us[0], us[1..];
      assert !HasExists(rest) by {
        assert forall i :: 0 <= i < |rest| ==> rest[i] == us[i + 1];
      }
      FirstNamed(view, known, us, arrivals);
      hide AllNamed, Names, HasExists;
      if u.Expunge? {
        assert ([u.pos] + Numbers(rest))[1..] == Numbers(rest);
        if 1 <= u.pos <= |view| {
          ReadIff(RemoveAt(view, u.pos), known, rest, arrivals);
          AllNamedShift(view, us);
        }
      } else {
        assert [] + Numbers(rest) == Numbers(rest);
        ReadIff(view, known, rest, arrivals);
        AllNamedShift(view, us);
        if !Names(view, us, 0) {
          NotNamed(view, us);
        }
      }
    } else {
      NothingToName(view);
    }
  }

  lemma NotNamed(view: seq<nat>, us: seq<Update>)
    requires us != [] && !Names(view, us, 0)
    ensures !AllNamed(view, us)
  {
  }

  lemma NothingToName(view: seq<nat>)
    ensures AllNamed(view, [])
  {
  }

  // ---------- The pending numbers and the own one ----------

  /** What the numbers took were the messages from number `p` on, one after the other. */
  predicate TookBlock(view: seq<nat>, left: seq<nat>, p: nat, n: nat) {
    1 <= p && p - 1 + n <= |view| && left == view[..p - 1] + view[p - 1 + n..]
  }

  lemma BlockOrigins(view: seq<nat>, ps: seq<nat>, p: nat)
    requires Distinct(view) && Replay(view, ps).Some? && 1 <= p <= |Replay(view, ps).value| && p <= |view|
    requires TookBlock(view, Replay(view, ps).value, p, |ps|)
    ensures forall j: nat :: j < |view| - |ps| ==> Origin(ps, j) == if j < p - 1 then j else j + |ps|
  {
    var left := Replay(view, ps).value;
    ReplayIndex(view, ps);
    hide Replay, Origin;
    forall j: nat | j < |left| ensures Origin(ps, j) == if j < p - 1 then j else j + |ps| {
      var o, k := Origin(ps, j), if j < p - 1 then j else j + |ps|;
      assert view[o] == left[j] == view[k];
      assert o < k || k < o || o == k;
    }
  }

  lemma BlockValid(view: seq<nat>, ps: seq<nat>, p: nat)
    requires Distinct(view) && Replay(view, ps).Some? && 1 <= p <= |Replay(view, ps).value| && p <= |view|
    requires TookBlock(view, Replay(view, ps).value, p, |ps|)
    ensures Replay(RemoveAt(view, p), ps).Some?
  {
    ReplayIndex(view, ps);
    BlockOrigins(view, ps, p);
    OneShorter(view, RemoveAt(view, p), ps);
  }

  lemma BlockPasses(view: seq<nat>, ps: seq<nat>, p: nat)
    requires Distinct(view) && Replay(view, ps).Some? && 1 <= p <= |Replay(view, ps).value| && p <= |view|
    requires TookBlock(view, Replay(view, ps).value, p, |ps|)
    ensures Replay(RemoveAt(view, p), ps) == Some(RemoveAt(Replay(view, ps).value, p))
  {
    hide Replay, Origin, RemoveAt, TookBlock, Distinct;
    var left, shorter := Replay(view, ps).value, RemoveAt(view, p);
    BlockValid(view, ps, p);
    BlockOrigins(view, ps, p);
    ReplayIndex(view, ps);
    ReplayIndex(shorter, ps);
    RemovedIndex(view, p);
    RemovedIndex(left, p);
    var got, want := Replay(shorter, ps).value, RemoveAt(left, p);
    forall j: nat | j < |got| ensures got[j] == want[j] {
      BlockElement(view, left, ps, p, j);
      assert got[j] == shorter[Origin(ps, j)];
    }
    assert got == want;
  }

  lemma BlockElement(view: seq<nat>, left: seq<nat>, ps: seq<nat>, p: nat, j: nat)
    requires 1 <= p <= |view| && p <= |left| && |left| + |ps| == |view| && j < |left| - 1
    requires TookBlock(view, left, p, |ps|) && Origin(ps, j) == if j < p - 1 then j else j + |ps|
    ensures Origin(ps, j) < |view| - 1 && RemoveAt(view, p)[Origin(ps, j)] == RemoveAt(left, p)[j]
  {
    hide Origin;
    RemovedIndex(view, p);
    RemovedIndex(left, p);
  }

  /** Both ends of what remains are where they were; between them origins rise by one from `p` on. */
  lemma PassedOrigins(view: seq<nat>, ps: seq<nat>, p: nat, j: nat)
    requires Distinct(view) && Replay(view, ps).Some? && 1 <= p <= |Replay(view, ps).value| && p <= |view|
    requires Replay(RemoveAt(view, p), ps) == Some(RemoveAt(Replay(view, ps).value, p))
    requires j < |view| - |ps| - 1
    ensures if j < p - 1 then Origin(ps, j) < p - 1 else Origin(ps, j) >= p - 1 && Origin(ps, j + 1) == Origin(ps, j) + 1
  {
    var left, shorter := Replay(view, ps).value, RemoveAt(view, p);
    ReplayIndex(view, ps);
    ReplayIndex(shorter, ps);
    RemovedIndex(view, p);
    RemovedIndex(left, p);
    OriginRises(ps, j, j + 1);
    hide Replay, Origin, RemoveAt;
    var o := Origin(ps, j);
    assert RemoveAt(left, p)[j] == shorter[o];
  }

  lemma {:induction false} OriginsBelow(view: seq<nat>, ps: seq<nat>, p: nat, j: nat)
    requires Distinct(view) && Replay(view, ps).Some? && 1 <= p <= |Replay(view, ps).value| && p <= |view|
    requires Replay(RemoveAt(view, p), ps) == Some(RemoveAt(Replay(view, ps).value, p))
    requires j < p - 1
    ensures Origin(ps, j) == j
    decreases p - j
  {
    ReplayIndex(view, ps);
    PassedOrigins(view, ps, p, j);
    OriginRises(ps, j, j + 1);
    hide Replay, Origin, RemoveAt;
    if j + 1 < p - 1 {
      OriginsBelow(view, ps, p, j + 1);
    }
  }

  lemma {:induction false} OriginsAbove(view: seq<nat>, ps: seq<nat>, p: nat, j: nat)
    requires Distinct(view) && Replay(view, ps).Some? && 1 <= p <= |Replay(view, ps).value| && p <= |view|
    requires Replay(RemoveAt(view, p), ps) == Some(RemoveAt(Replay(view, ps).value, p))
    requires p - 1 <= j < |view| - |ps|
    ensures Origin(ps, j) == j + |ps|
    decreases |view| - j
  {
    ReplayIndex(view, ps);
    if j == |view| - |ps| - 1 {
      OneShorter(view, RemoveAt(view, p), ps);
    } else {
      PassedOrigins(view, ps, p, j);
      OriginsAbove(view, ps, p, j + 1);
    }
  }

  lemma PassesIsBlock(view: seq<nat>, ps: seq<nat>, p: nat)
    requires Distinct(view) && Replay(view, ps).Some? && 1 <= p <= |Replay(view, ps).value| && p <= |view|
    requires Replay(RemoveAt(view, p), ps) == Some(RemoveAt(Replay(view, ps).value, p))
    ensures TookBlock(view, Replay(view, ps).value, p, |ps|)
  {
    hide Replay, Origin, RemoveAt, Distinct;
    var left, n := Replay(view, ps).value, |ps|;
    ReplayIndex(view, ps);
    var block := view[..p - 1] + view[p - 1 + n..];
    forall j: nat | j < |left| ensures left[j] == block[j] {
      if j < p - 1 {
        OriginsBelow(view, ps, p, j);
      } else {
        OriginsAbove(view, ps, p, j);
      }
    }
    assert |block| == |left|;
  }

  /** A number applied ahead of others does what it would do behind them exactly if they take the messages that stand from it on. */
  lemma AheadIff(view: seq<nat>, ps: seq<nat>, p: nat)
    requires Distinct(view) && Replay(view, ps).Some? && 1 <= p <= |Replay(view, ps).value| && p <= |view|
    ensures Replay(RemoveAt(view, p), ps) == Some(RemoveAt(Replay(view, ps).value, p))
            <==> TookBlock(view, Replay(view, ps).value, p, |ps|)
  {
    if TookBlock(view, Replay(view, ps).value, p, |ps|) {
      BlockPasses(view, ps, p);
    }
    if Replay(RemoveAt(view, p), ps) == Some(RemoveAt(Replay(view, ps).value, p)) {
      PassesIsBlock(view, ps, p);
    }
  }

  lemma {:induction false} OriginConcat(a: seq<nat>, b: seq<nat>, j: nat)
    ensures Origin(a + b, j) == Origin(a, Origin(b, j))
  {
    if a == [] {
      assert a + b == b;
    } else {
      assert (a + b)[1..] == a[1..] + b;
      OriginConcat(a[1..], b, j);
    }
  }

  lemma NumbersFirst(u: Update, us: seq<Update>)
    ensures Numbers([u] + us) == (if u.Expunge? then [u.pos] else []) + Numbers(us)
    ensures Numbers([]) == []
  {
    assert ([u] + us)[1..] == us;
  }

  lemma {:induction false} NumbersAppend(a: seq<Update>, b: seq<Update>)
    ensures Numbers(a + b) == Numbers(a) + Numbers(b)
  {
    hide Numbers;
    if a == [] {
      NumbersFirst(Exists(0), []);
      assert a + b == b;
    } else {
      var u, rest := a[0], a[1..];
      assert a == [u] + rest && a + b == [u] + (rest + b);
      NumbersAppend(rest, b);
      NumbersFirst(u, rest);
      NumbersFirst(u, rest + b);
    }
  }

  lemma NumbersSplit(us: seq<Update>, i: nat)
    requires i <= |us|
    ensures Numbers(us) == Numbers(us[..i]) + Numbers(us[i..])
  {
    NumbersAppend(us[..i], us[i..]);
    assert us[..i] + us[i..] == us;
  }

  /** Numbers that take only messages from `p` on leave the earlier ones in place, at every point of the queue. */
  lemma PrefixKeeps(us: seq<Update>, i: nat, j: nat)
    requires i <= |us| && Origin(Numbers(us), j) == j
    ensures Origin(Numbers(us[..i]), j) == j
  {
    NumbersSplit(us, i);
    var a, b := Numbers(us[..i]), Numbers(us[i..]);
    OriginConcat(a, b, j);
    OriginRises(b, j, j + 1);
    OriginRises(a, j, j + 1);
    if j < Origin(b, j) {
      OriginRises(a, j, Origin(b, j));
    }
  }

  predicate FetchesBelow(us: seq<Update>, p: nat) {
    forall i :: 0 <= i < |us| && us[i].Fetch? ==> us[i].pos < p
  }

  lemma NamesBelow(view: seq<nat>, us: seq<Update>, p: nat, i: nat)
    requires Distinct(view) && 1 <= p <= |view| && i < |us| && us[i].Fetch? && Names(view, us, i)
    requires us[i].pos < p ==> Origin(Numbers(us), us[i].pos - 1) == us[i].pos - 1
    ensures Names(RemoveAt(view, p), us, i) <==> us[i].pos < p
  {
    var j := us[i].pos - 1;
    var o := Origin(Numbers(us[..i]), j);
    RemovedIndex(view, p);
    OriginRises(Numbers(us[..i]), j, j + 1);
    if us[i].pos < p {
      PrefixKeeps(us, i, j);
    }
    hide RemoveAt, Origin, Numbers;
  }

  lemma BlockNames(view: seq<nat>, us: seq<Update>, p: nat)
    requires Distinct(view) && AllNamed(view, us) && Replay(view, Numbers(us)).Some?
    requires 1 <= p <= |Replay(view, Numbers(us)).value| && p <= |view|
    requires TookBlock(view, Replay(view, Numbers(us)).value, p, |Numbers(us)|)
    ensures AllNamed(RemoveAt(view, p), us) <==> FetchesBelow(us, p)
  {
    BlockOrigins(view, Numbers(us), p);
    ReplayIndex(view, Numbers(us));
    forall i: nat | i < |us| && us[i].Fetch? ensures Names(RemoveAt(view, p), us, i) <==> us[i].pos < p {
      assert Names(view, us, i);
      NamesBelow(view, us, p, i);
    }
    hide Replay, Origin, Numbers, RemoveAt, TookBlock, Distinct;
    NamedIff(RemoveAt(view, p), us, p);
  }

  lemma NamedIff(view: seq<nat>, us: seq<Update>, p: nat)
    requires forall i: nat :: i < |us| && us[i].Fetch? ==> (Names(view, us, i) <==> us[i].pos < p)
    ensures AllNamed(view, us) <==> FetchesBelow(us, p)
  {
    if AllNamed(view, us) {
      forall i | 0 <= i < |us| && us[i].Fetch? ensures us[i].pos < p {
        assert Names(view, us, i);
      }
    }
  }

  /** The session is told its own number first and reads its queue after. */
  ghost predicate EndsInStep(s: State, c: Client, p: nat)
    requires 1 <= p <= |s.list|
  {
    p <= |c.view| && ReadAll(RemoveAt(c.view, p), c.known, c.queue, s.arrivals) == Some((RemoveAt(s.list, p), |s.arrivals|))
  }

  lemma QuietQueueIff(s: State, c: Client, p: nat)
    requires CatchesUp(s, c) && Distinct(c.view) && !HasExists(c.queue) && 1 <= p <= |s.list|
    ensures EndsInStep(s, c, p) <==>
            TookBlock(c.view, s.list, p, |Numbers(c.queue)|) && FetchesBelow(c.queue, p)
  {
    var ps := Numbers(c.queue);
    ReadIff(c.view, c.known, c.queue, s.arrivals);
    ReplayIndex(c.view, ps);
    ReadIff(RemoveAt(c.view, p), c.known, c.queue, s.arrivals);
    hide ReadAll, Replay, Numbers, RemoveAt, TookBlock, Distinct, AllNamed, FetchesBelow, HasExists;
    AheadIff(c.view, ps, p);
    if TookBlock(c.view, s.list, p, |ps|) {
      BlockNames(c.view, c.queue, p);
    }
  }

  /** Any EXISTS pending, whatever else is, and the session counts one message too many. */
  lemma ExistsQueueFails(s: State, c: Client, p: nat)
    requires CatchesUp(s, c) && HasExists(c.queue) && 1 <= p <= |s.list|
    ensures !EndsInStep(s, c, p)
  {
    if p <= |c.view| {
      ExistsMisleads(c.view, RemoveAt(c.view, p), c.known, c.queue, s.arrivals);
    }
  }

  lemma ActorsOwnRemoval(s: State, who: nat, p: nat)
    requires who in s.clients && CatchesUp(s, s.clients[who]) && 1 <= p <= |s.list|
    ensures var s' := Next(s, Remove(Some(who), [p]));
            CatchesUp(s', s'.clients[who]) <==> EndsInStep(s, s.clients[who], p)
  {
    var c := s.clients[who];
    ReplayOne(s.list, p);
    RemovedIndex(s.list, p);
    if p <= |c.view| {
      ReplayOne(c.view, p);
    } else {
      assert Replay(c.view, [p]).None?;
    }
    hide ReadAll, Replay, Survivors, RemoveAt;
    var s' := Next(s, Remove(Some(who), [p]));
    assert s'.list == RemoveAt(s.list, p) && s'.arrivals == s.arrivals;
  }

  /**
   From any reachable state, a session that removes one message itself with whatever updates pending is right in the end
   exactly if no EXISTS is pending, the pending EXPUNGEs took the messages from its own number on, one after the other,
   and the pending FETCHes are about messages in front of it.
   */
  lemma PendingActorConvergesIff(r: Run, who: nat, p: nat)
    requires TameRun(r) && who in Now(r).clients && 1 <= p <= |Now(r).list|
    ensures var s, c := Now(r), Now(r).clients[who];
            var s' := Next(s, Remove(Some(who), [p]));
            CatchesUp(s', s'.clients[who]) <==>
            !HasExists(c.queue) && TookBlock(c.view, s.list, p, |Numbers(c.queue)|) && FetchesBelow(c.queue, p)
  {
    var s, c := Now(r), Now(r).clients[who];
    ViewsConverge(r);
    ViewsStaySorted(r);
    assert CatchesUp(s, c) && Sorted(s, c);
    ActorsOwnRemoval(s, who, p);
    if HasExists(c.queue) {
      ExistsQueueFails(s, c, p);
    } else {
      QuietQueueIff(s, c, p);
    }
  }
}
