/**
 What a client makes of its updates. Messages are named by id; a client's view is its
 sequence-number table.
 */
module ExpungeReplay {
  import opened Wrappers

  ghost predicate Ascending(s: seq<nat>) {
    forall i, j :: 0 <= i < j < |s| ==> s[i] < s[j]
  }

  ghost predicate Distinct(s: seq<nat>) {
    forall i, j :: 0 <= i < j < |s| ==> s[i] != s[j]
  }

  /** 1-based positions within `n` messages, strictly ascending: those of the messages to delete, before the deletion. */
  ghost predicate Positions(ps: seq<nat>, n: nat) {
    && (forall i :: 0 <= i < |ps| ==> 1 <= ps[i] <= n)
    && Ascending(ps)
  }

  function RemoveAt(view: seq<nat>, p: nat): seq<nat>
    requires 1 <= p <= |view|
  {
    view[..p - 1] + view[p..]
  }

  /** A client applying EXPUNGE responses one by one; None once a number names no message. */
  function Replay(view: seq<nat>, ps: seq<nat>): Option<seq<nat>> {
    if ps == [] then Some(view)
    else if !(1 <= ps[0] <= |view|) then None
    else Replay(RemoveAt(view, ps[0]), ps[1..])
  }

  /** The server's list after one DELETE of the messages at the positions. */
  function Survivors(view: seq<nat>, ps: seq<nat>): seq<nat> {
    if view == [] then []
    else
      var n := |view|;
      if ps != [] && ps[|ps| - 1] == n then Survivors(view[..n - 1], ps[..|ps| - 1])
      else Survivors(view[..n - 1], ps) + [view[n - 1]]
  }

  function Reversed(ps: seq<nat>): (r: seq<nat>)
    ensures |r| == |ps| && forall i :: 0 <= i < |ps| ==> r[i] == ps[|ps| - 1 - i]
  {
    seq(|ps|, i requires 0 <= i < |ps| => ps[|ps| - 1 - i])
  }

  /** The message at index `k` is not among the deleted ones. */
  predicate Kept(ps: seq<nat>, k: nat) {
    forall i :: 0 <= i < |ps| ==> ps[i] != k + 1
  }

  /** Survivors are exactly the messages at the other positions. */
  lemma {:induction false} SurvivorsAre(view: seq<nat>, ps: seq<nat>)
    requires Positions(ps, |view|)
    ensures forall id :: id in Survivors(view, ps) <==>
                         exists k: nat :: k < |view| && view[k] == id && Kept(ps, k)
  {
    if view != [] {
      var n := |view|;
      var shorter := view[..n - 1];
      if ps != [] && ps[|ps| - 1] == n {
        var rest := ps[..|ps| - 1];
        SurvivorsAre(shorter, rest);
        assert !Kept(ps, n - 1) by {
          assert ps[|ps| - 1] == n;
        }
        assert forall k: nat :: k < n - 1 ==> (Kept(ps, k) <==> Kept(rest, k));
      } else {
        assert Kept(ps, n - 1);
        SurvivorsAre(shorter, ps);
      }
    }
  }

  lemma {:induction false} SurvivorsOrdered(view: seq<nat>, ps: seq<nat>)
    requires Ascending(view)
    ensures var r := Survivors(view, ps);
            Ascending(r) && (r != [] ==> view != [] && r[|r| - 1] <= view[|view| - 1])
  {
    if view != [] {
      var n := |view|;
      if ps != [] && ps[|ps| - 1] == n {
        SurvivorsOrdered(view[..n - 1], ps[..|ps| - 1]);
      } else {
        SurvivorsOrdered(view[..n - 1], ps);
      }
    }
  }

  lemma HasMember(s: seq<nat>)
    ensures s != [] ==> exists x: nat :: x in s
  {
    if s != [] {
      assert s[0] in s;
    }
  }

  /** A set has one ascending enumeration. */
  lemma {:induction false} AscendingUnique(a: seq<nat>, b: seq<nat>)
    requires Ascending(a) && Ascending(b) && forall x: nat :: x in a <==> x in b
    ensures a == b
    decreases |a|
  {
    if a == [] {
      HasMember(b);
    } else {
      assert a[|a| - 1] in b;
      var i :| 0 <= i < |b| && b[i] == a[|a| - 1];
      var n, m := |a| - 1, |b| - 1;
      assert b[m] in a;
      var j :| 0 <= j < |a| && a[j] == b[m];
      assert a[n] == b[m];
      forall x: nat ensures x in a[..n] <==> x in b[..m] {
        assert x in a <==> x in b;
        assert x in a <==> x in a[..n] || x == a[n];
        assert x in b <==> x in b[..m] || x == b[m];
      }
      AscendingUnique(a[..n], b[..m]);
      assert a == a[..n] + [a[n]] && b == b[..m] + [b[m]];
    }
  }

  /** Highest number first: the replay always gives the server's list. */
  lemma {:induction false} DescendingReplay(view: seq<nat>, ps: seq<nat>)
    requires Positions(ps, |view|)
    ensures Replay(view, Reversed(ps)) == Some(Survivors(view, ps))
    decreases |ps|
  {
    if ps == [] {
      NoneDeleted(view);
    } else {
      var k := |ps| - 1;
      var rest := ps[..k];
      var next := RemoveAt(view, ps[k]);
      assert Reversed(ps)[0] == ps[k] && Reversed(ps)[1..] == Reversed(rest);
      DescendingReplay(next, rest);
      LastDeleted(view, ps);
    }
  }

  lemma {:induction false} NoneDeleted(view: seq<nat>)
    ensures Survivors(view, []) == view
  {
    if view != [] {
      NoneDeleted(view[..|view| - 1]);
    }
  }

  lemma {:induction false} LastDeleted(view: seq<nat>, ps: seq<nat>)
    requires Positions(ps, |view|) && ps != []
    ensures var k := |ps| - 1;
            Survivors(RemoveAt(view, ps[k]), ps[..k]) == Survivors(view, ps)
    decreases |view|
  {
    var n, k := |view|, |ps| - 1;
    var next := RemoveAt(view, ps[k]);
    if ps[k] == n {
      assert next == view[..n - 1];
    } else {
      LastDeleted(view[..n - 1], ps);
      assert next[..n - 2] == RemoveAt(view[..n - 1], ps[k]) && next[n - 2] == view[n - 1];
      if k > 0 {
        assert ps[..k][k - 1] < ps[k] < n;
      }
    }
  }

  lemma {:induction false} StaysInFront(view: seq<nat>, ps: seq<nat>, k: nat)
    requires k < |view| && forall i :: 0 <= i < |ps| ==> k + 1 < ps[i]
    ensures Replay(view, ps).Some? ==> k < |Replay(view, ps).value| && Replay(view, ps).value[k] == view[k]
    decreases |ps|
  {
    if ps != [] && 1 <= ps[0] <= |view| {
      StaysInFront(RemoveAt(view, ps[0]), ps[1..], k);
    }
  }

  /** After the lowest of several numbers, the second names the wrong message: its own stays to the end. */
  lemma SecondIsMissed(view: seq<nat>, ps: seq<nat>)
    requires Positions(ps, |view|) && |ps| >= 2 && Replay(view, ps).Some?
    ensures view[ps[1] - 1] in Replay(view, ps).value
  {
    var next, rest := RemoveAt(view, ps[0]), ps[1..];
    assert Replay(next, rest).Some? && 1 <= rest[0] <= |next|;
    assert next[ps[1] - 2] == view[ps[1] - 1];
    StaysInFront(RemoveAt(next, rest[0]), rest[1..], ps[1] - 2);
    assert Replay(view, ps).value[ps[1] - 2] == view[ps[1] - 1];
  }

  /**
   Lowest number first, as EXPUNGE and MOVE emit them: the replay gives the server's list
   exactly when at most one message goes.
   */
  lemma AscendingReplayIff(view: seq<nat>, ps: seq<nat>)
    requires Distinct(view) && Positions(ps, |view|)
    ensures Replay(view, ps) == Some(Survivors(view, ps)) <==> |ps| <= 1
  {
    hide Replay, Survivors;
    if |ps| <= 1 {
      DescendingReplay(view, ps);
      assert Reversed(ps) == ps;
    } else if Replay(view, ps).Some? {
      SecondIsMissed(view, ps);
      SurvivorsAre(view, ps);
      assert !Kept(ps, ps[1] - 1);
      assert view[ps[1] - 1] !in Survivors(view, ps);
    }
  }

  // ---------- Where what remains comes from ----------

  /** The place, before the numbers are replayed, of the message that stands at index `j` after. */
  function Origin(ps: seq<nat>, j: nat): nat {
    if ps == [] then j
    else
      var i := Origin(ps[1..], j);
      if i + 1 < ps[0] then i else i + 1
  }

  lemma {:induction false} OriginRises(ps: seq<nat>, j: nat, k: nat)
    requires j < k
    ensures j <= Origin(ps, j) < Origin(ps, k)
  {
    if ps != [] {
      OriginRises(ps[1..], j, k);
    }
  }

  /** With a number at or below it replayed, a message came from further on than where it stands. */
  lemma {:induction false} OriginPushed(ps: seq<nat>, i: nat, j: nat)
    requires i < |ps| && ps[i] <= j + 1
    ensures Origin(ps, j) > j
  {
    OriginRises(ps[1..], j, j + 1);
    if i > 0 {
      OriginPushed(ps[1..], i - 1, j);
    }
  }

  /** What replay leaves, index by index. */
  lemma {:induction false} ReplayIndex(view: seq<nat>, ps: seq<nat>)
    requires Replay(view, ps).Some?
    ensures var r := Replay(view, ps).value;
            && |r| + |ps| == |view|
            && (forall j: nat :: j < |r| ==> Origin(ps, j) < |view| && r[j] == view[Origin(ps, j)])
            && Origin(ps, |r|) == |view|
  {
    if ps != [] {
      var next := RemoveAt(view, ps[0]);
      ReplayIndex(next, ps[1..]);
      var r := Replay(view, ps).value;
      RemovedIndex(view, ps[0]);
      hide RemoveAt;
      forall j: nat | j < |r| ensures Origin(ps, j) < |view| && r[j] == view[Origin(ps, j)] {
        assert r[j] == next[Origin(ps[1..], j)];
      }
    }
  }

  lemma RemovedIndex(v: seq<nat>, p: nat)
    requires 1 <= p <= |v|
    ensures |RemoveAt(v, p)| == |v| - 1
    ensures forall i :: 0 <= i < |v| - 1 ==> RemoveAt(v, p)[i] == if i < p - 1 then v[i] else v[i + 1]
  {
  }

  /** Whether numbers can be replayed depends on how many messages there are only. */
  lemma {:induction false} SameValidity(a: seq<nat>, b: seq<nat>, ps: seq<nat>)
    requires |a| == |b|
    ensures Replay(a, ps).Some? <==> Replay(b, ps).Some?
    decreases |ps|
  {
    if ps != [] && 1 <= ps[0] <= |a| {
      SameValidity(RemoveAt(a, ps[0]), RemoveAt(b, ps[0]), ps[1..]);
    }
  }

  /** Numbers good for a view are good for one shorter by a message exactly if its last message is not among those they take. */
  lemma {:induction false} OneShorter(view: seq<nat>, shorter: seq<nat>, ps: seq<nat>)
    requires Replay(view, ps).Some? && |view| == |shorter| + 1 && |view| > |ps|
    ensures Replay(shorter, ps).Some? <==> Origin(ps, |view| - 1 - |ps|) == |view| - 1
    decreases |ps|
  {
    if ps != [] {
      var q, n := ps[0], |view|;
      var next := RemoveAt(view, q);
      if q < n {
        OneShorter(next, RemoveAt(shorter, q), ps[1..]);
      } else {
        ReplayIndex(next, ps[1..]);
        OriginRises(ps[1..], n - 1 - |ps|, n - |ps|);
      }
    }
  }

  // ---------- Numbers in any order ----------

  ghost predicate Descending(ps: seq<nat>) {
    forall i, j :: 0 <= i < j < |ps| ==> ps[i] > ps[j]
  }

  /** Distinct 1-based positions within `n` messages, in any order. */
  ghost predicate Picks(ps: seq<nat>, n: nat) {
    Distinct(ps) && forall i :: 0 <= i < |ps| ==> 1 <= ps[i] <= n
  }

  /** Those of the first `k` messages whose positions are not among the numbers. */
  function Remaining(view: seq<nat>, ps: seq<nat>, k: nat): seq<nat>
    requires k <= |view|
  {
    if k == 0 then [] else Remaining(view, ps, k - 1) + if Kept(ps, k - 1) then [view[k - 1]] else []
  }

  lemma {:induction false} RemainingSame(a: seq<nat>, b: seq<nat>, ps: seq<nat>, qs: seq<nat>, k: nat)
    requires k <= |a| && k <= |b| && forall i: nat :: i < k ==> a[i] == b[i] && (Kept(ps, i) <==> Kept(qs, i))
    ensures Remaining(a, ps, k) == Remaining(b, qs, k)
  {
    hide Kept;
    if k > 0 {
      RemainingSame(a, b, ps, qs, k - 1);
    }
  }

  lemma {:induction false} RemainingHas(view: seq<nat>, ps: seq<nat>, k: nat, i: nat)
    requires i < k <= |view| && Kept(ps, i)
    ensures view[i] in Remaining(view, ps, k)
  {
    hide Kept;
    if i < k - 1 {
      RemainingHas(view, ps, k - 1, i);
    }
  }

  /** For ascending positions these are the survivors. */
  lemma {:induction false} SurvivorsRemain(view: seq<nat>, ps: seq<nat>)
    requires Positions(ps, |view|)
    ensures Survivors(view, ps) == Remaining(view, ps, |view|)
  {
    hide Kept;
    if view != [] {
      var n := |view|;
      var shorter := view[..n - 1];
      if ps != [] && ps[|ps| - 1] == n {
        var rest := ps[..|ps| - 1];
        SurvivorsRemain(shorter, rest);
        LastTaken(ps, n);
        RemainingSame(shorter, view, rest, ps, n - 1);
      } else {
        SurvivorsRemain(shorter, ps);
        LastKept(ps, n);
        RemainingSame(shorter, view, ps, ps, n - 1);
      }
    }
  }

  lemma LastKept(ps: seq<nat>, n: nat)
    requires Positions(ps, n) && n >= 1 && (ps == [] || ps[|ps| - 1] != n)
    ensures Kept(ps, n - 1)
  {
  }

  lemma LastTaken(ps: seq<nat>, n: nat)
    requires ps != [] && ps[|ps| - 1] == n && n >= 1
    ensures !Kept(ps, n - 1) && forall i: nat :: i < n - 1 ==> (Kept(ps, i) <==> Kept(ps[..|ps| - 1], i))
  {
    forall i: nat | i < n - 1 && Kept(ps[..|ps| - 1], i) ensures Kept(ps, i) {
      assert forall j :: 0 <= j < |ps| - 1 ==> ps[..|ps| - 1][j] == ps[j];
    }
  }

  lemma DescendingRemains(view: seq<nat>, ps: seq<nat>)
    requires Picks(ps, |view|) && Descending(ps)
    ensures Replay(view, ps) == Some(Remaining(view, ps, |view|))
  {
    var up := Reversed(ps);
    assert Positions(up, |view|);
    assert Reversed(up) == ps;
    ReversedKeeps(ps);
    hide Kept, Reversed, Replay, Survivors, Descending, Picks;
    DescendingReplay(view, up);
    SurvivorsRemain(view, up);
    RemainingSame(view, view, up, ps, |view|);
  }

  lemma ReversedKeeps(ps: seq<nat>)
    ensures forall i: nat :: Kept(Reversed(ps), i) <==> Kept(ps, i)
  {
    var up := Reversed(ps);
    assert forall j :: 0 <= j < |ps| ==> ps[j] == up[|ps| - 1 - j];
  }

  lemma {:induction false} OriginAvoids(ps: seq<nat>, i: nat, j: nat)
    requires i < |ps| && ps[i] >= 1
    ensures Origin(ps, j) != Origin(ps[..i], ps[i] - 1)
  {
    if i > 0 {
      OriginAvoids(ps[1..], i - 1, j);
      assert ps[..i][1..] == ps[1..][..i - 1];
    }
  }

  lemma {:induction false} NumberInRange(view: seq<nat>, ps: seq<nat>, i: nat)
    requires Replay(view, ps).Some? && i < |ps|
    ensures ps[i] >= 1 && Origin(ps[..i], ps[i] - 1) < |view|
    decreases i
  {
    if i > 0 {
      NumberInRange(RemoveAt(view, ps[0]), ps[1..], i - 1);
      assert ps[..i][1..] == ps[1..][..i - 1];
    }
  }

  /** The message a number takes is gone in the end. */
  lemma TakenIsGone(view: seq<nat>, ps: seq<nat>, i: nat)
    requires Distinct(view) && Replay(view, ps).Some? && i < |ps|
    ensures ps[i] >= 1 && Origin(ps[..i], ps[i] - 1) < |view|
    ensures view[Origin(ps[..i], ps[i] - 1)] !in Replay(view, ps).value
  {
    NumberInRange(view, ps, i);
    ReplayIndex(view, ps);
    var o, r := Origin(ps[..i], ps[i] - 1), Replay(view, ps).value;
    forall j: nat | j < |r| ensures r[j] != view[o] {
      OriginAvoids(ps, i, j);
    }
  }

  ghost predicate KeepsAll(view: seq<nat>, ps: seq<nat>, r: seq<nat>) {
    forall k: nat :: k < |view| && Kept(ps, k) ==> view[k] in r
  }

  /** The largest number has to come first: behind a smaller one it takes a message further on. */
  lemma LargestFirst(view: seq<nat>, ps: seq<nat>, i: nat)
    requires Distinct(view) && Replay(view, ps).Some? && KeepsAll(view, ps, Replay(view, ps).value)
    requires i < |ps| && forall j :: 0 <= j < |ps| ==> ps[j] <= ps[i]
    ensures i == 0
  {
    if i > 0 {
      TakenIsGone(view, ps, i);
      OriginPushed(ps[..i], 0, ps[i] - 1);
    }
  }

  lemma {:induction false} Largest(ps: seq<nat>) returns (i: nat)
    requires ps != []
    ensures i < |ps| && forall j :: 0 <= j < |ps| ==> ps[j] <= ps[i]
  {
    var k := |ps| - 1;
    if k == 0 {
      i := 0;
    } else {
      i := Largest(ps[..k]);
      assert forall j :: 0 <= j < k ==> ps[..k][j] == ps[j];
      if ps[k] > ps[i] {
        i := k;
      }
    }
  }

  /** The largest taken, the others are as before in a list without it. */
  lemma RestKeeps(view: seq<nat>, ps: seq<nat>, r: seq<nat>)
    requires Picks(ps, |view|) && ps != [] && (forall j :: 0 <= j < |ps| ==> ps[j] <= ps[0])
    requires KeepsAll(view, ps, r)
    ensures Picks(ps[1..], |view| - 1) && KeepsAll(RemoveAt(view, ps[0]), ps[1..], r)
  {
    var m, next, rest := ps[0], RemoveAt(view, ps[0]), ps[1..];
    RemovedIndex(view, m);
    assert forall j :: 0 <= j < |rest| ==> rest[j] == ps[j + 1] < m;
    hide RemoveAt;
    forall k: nat | k < |next| && Kept(rest, k) ensures next[k] in r {
      var o := if k < m - 1 then k else k + 1;
      assert forall j :: 0 < j < |ps| ==> ps[j] == rest[j - 1];
      assert Kept(ps, o);
    }
  }

  lemma {:induction false} OnlyDescending(view: seq<nat>, ps: seq<nat>)
    requires Distinct(view) && Picks(ps, |view|)
    requires Replay(view, ps).Some? && KeepsAll(view, ps, Replay(view, ps).value)
    ensures Descending(ps)
    decreases |ps|
  {
    if ps != [] {
      var r := Replay(view, ps).value;
      var i := Largest(ps);
      LargestFirst(view, ps, i);
      RestKeeps(view, ps, r);
      var next := RemoveAt(view, ps[0]);
      RemovedIndex(view, ps[0]);
      hide RemoveAt;
      OnlyDescending(next, ps[1..]);
      assert forall j :: 0 < j < |ps| ==> ps[j] == ps[1..][j - 1];
    }
  }

  /** Distinct numbers replayed in any order leave the other messages exactly if the order is descending. */
  lemma AnyOrderReplayIff(view: seq<nat>, ps: seq<nat>)
    requires Distinct(view) && Picks(ps, |view|)
    ensures Replay(view, ps) == Some(Remaining(view, ps, |view|)) <==> Descending(ps)
  {
    if Descending(ps) {
      DescendingRemains(view, ps);
    }
    if Replay(view, ps) == Some(Remaining(view, ps, |view|)) {
      forall k: nat | k < |view| && Kept(ps, k) ensures view[k] in Replay(view, ps).value {
        RemainingHas(view, ps, |view|, k);
      }
      OnlyDescending(view, ps);
    }
  }
}
