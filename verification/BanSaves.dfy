/**
 RecordAuthFailure running against itself: N failures from one address that has a row, each statement one step,
 interleaved in any order. The last statement writes back the whole row that was read two statements before.
 */
module BanSaves {
  import opened BanStore
  import Wrappers

  /** `seen` is how many rows had been written back when this one was read. */
  datatype Call = Begun | Counted | Knows(count: nat) | Holds(count: nat, row: BanEntry, seen: nat) | Done

  /** `incs` and `saves` count the UPDATEs and the write-backs so far, `stale` the write-backs of a row that another had replaced. */
  datatype State = State(row: BanEntry, calls: seq<Call>, incs: nat, saves: nat, stale: nat, last: Write)

  /** The latest write-back: the failure count it wrote, and how many failures had been counted by then. */
  datatype Write = NoWrite | Wrote(count: nat, incs: nat)

  function Initial(row: BanEntry, n: nat): State {
    State(row, seq(n, i => Begun), 0, 0, 0, NoWrite)
  }

  /** The row a trigger writes back. */
  function Saved(p: Policy, row: BanEntry, count: nat, f: Failure): BanEntry {
    var triggers := row.banCount + 1;
    var banNum := triggers - if f.known then FREE_TRIGGERS else 0;
    if banNum <= 0 then row.(banCount := triggers, failCount := count)
    else
      BanEntry(count, triggers, Wrappers.Some(f.stampedAt + StageDuration(banNum, p.firstBanMin)), Staged(banNum, f.known, triggers, count))
  }

  /** With nothing between its statements, a call writes what the failure alone would make of the row. */
  lemma SavedAlone(p: Policy, row: BanEntry, f: Failure)
    requires row.failCount + 1 >= p.maxFail && !Active(row, f.at)
    ensures Saved(p, row.(failCount := row.failCount + 1), row.failCount + 1, f) == Punish(p, Wrappers.Some(row), f).0
  {
  }

  /** The next statement of call `i`, which records the failure `f`. */
  function Step(p: Policy, s: State, i: nat, f: Failure): State {
    if i >= |s.calls| then s else
    match s.calls[i]
    case Begun =>
      s.(row := s.row.(failCount := s.row.failCount + 1), incs := s.incs + 1, calls := s.calls[i := Counted])
    case Counted =>
      s.(calls := s.calls[i := if s.row.failCount < p.maxFail then Done else Knows(s.row.failCount)])
    case Knows(count) =>
      s.(calls := s.calls[i := if Active(s.row, f.at) then Done else Holds(count, s.row, s.saves)])
    case Holds(count, row, seen) =>
      s.(row := Saved(p, row, count, f), calls := s.calls[i := Done], saves := s.saves + 1,
         stale := s.stale + (if seen == s.saves then 0 else 1), last := Wrote(count, s.incs))
    case Done => s
  }

  /** An interleaving: which call takes a step, for which failure, the latest last. */
  datatype Schedule = Nobody | Then(before: Schedule, call: nat, f: Failure)

  function Run(p: Policy, s: State, order: Schedule): State {
    if order.Nobody? then s else Step(p, Run(p, s, order.before), order.call, order.f)
  }

  // ---------- What every interleaving keeps ----------

  ghost predicate CallFits(base: BanEntry, s: State, c: Call) {
    match c
    case Knows(count) => count <= base.failCount + s.incs
    case Holds(count, row, seen) =>
      && count <= base.failCount + s.incs && seen <= s.saves
      && row.banCount <= base.banCount + seen && (seen == s.saves ==> row.banCount == s.row.banCount)
    case _ => true
  }

  /** Failures the latest write-back took out of the count. */
  function Lost(base: BanEntry, s: State): int {
    if s.last.NoWrite? then 0 else base.failCount + s.last.incs - s.last.count
  }

  ghost predicate Inv(base: BanEntry, s: State) {
    && (forall i :: 0 <= i < |s.calls| ==> CallFits(base, s, s.calls[i]))
    && (if s.stale == 0 then s.row.banCount == base.banCount + s.saves else s.row.banCount < base.banCount + s.saves)
    && s.row.failCount + Lost(base, s) == base.failCount + s.incs && Lost(base, s) >= 0
  }

  lemma InvStep(p: Policy, base: BanEntry, s: State, i: nat, f: Failure)
    requires Inv(base, s)
    ensures Inv(base, Step(p, s, i, f))
  {
    if i < |s.calls| {
      var s' := Step(p, s, i, f);
      assert CallFits(base, s, s.calls[i]);
      hide StageDuration, Active;
      forall j | 0 <= j < |s'.calls| ensures CallFits(base, s', s'.calls[j]) {
        assert j != i ==> CallFits(base, s, s.calls[j]);
      }
    }
  }

  lemma {:induction false} InvRun(p: Policy, base: BanEntry, n: nat, order: Schedule)
    ensures Inv(base, Run(p, Initial(base, n), order))
  {
    if order.Then? {
      InvRun(p, base, n, order.before);
      InvStep(p, base, Run(p, Initial(base, n), order.before), order.call, order.f);
    }
  }

  /** BanCount never exceeds the triggers, and counts all of them exactly if none wrote back a row that another had replaced. */
  lemma TriggersCountedIff(p: Policy, base: BanEntry, n: nat, order: Schedule)
    ensures var s := Run(p, Initial(base, n), order);
            && s.row.banCount <= base.banCount + s.saves
            && (s.row.banCount == base.banCount + s.saves <==> s.stale == 0)
  {
    InvRun(p, base, n, order);
  }

  /**
   FailCount is the failures counted, less those the latest write-back took out: it counts all of them exactly if that
   wrote a count that was up to date.
   */
  lemma FailuresCountedIff(p: Policy, base: BanEntry, n: nat, order: Schedule)
    ensures var s := Run(p, Initial(base, n), order);
            && s.row.failCount == base.failCount + s.incs - Lost(base, s) <= base.failCount + s.incs
            && (s.row.failCount == base.failCount + s.incs <==>
                s.last.NoWrite? || s.last.count == base.failCount + s.last.incs)
  {
    InvRun(p, base, n, order);
  }

  // ---------- Two triggers at once ----------

  /** Any two triggers can be counted as one: both read before either writes back. */
  lemma OverlappingTriggers(p: Policy, base: BanEntry, f: Failure, g: Failure)
    requires base.failCount + 1 >= p.maxFail && !Active(base, f.at) && !Active(base, g.at)
    ensures exists order: Schedule ::
              var s := Run(p, Initial(base, 2), order);
              s.saves == 2 && s.row.banCount == base.banCount + 1
  {
    var s0 := Initial(base, 2);
    var o1 := Then(Then(Then(Nobody, 0, f), 0, f), 0, f);
    var r1 := base.(failCount := base.failCount + 1);
    assert Run(p, s0, Then(Nobody, 0, f)) == s0.(row := r1, incs := 1, calls := [Counted, Begun]);
    assert Run(p, s0, Then(Then(Nobody, 0, f), 0, f)).calls == [Knows(r1.failCount), Begun];
    var s3 := Run(p, s0, o1);
    assert s3.calls == [Holds(r1.failCount, r1, 0), Begun] && s3.row == r1;
    var o2 := Then(Then(Then(o1, 1, g), 1, g), 1, g);
    var r2 := base.(failCount := base.failCount + 2);
    assert Run(p, s0, Then(o1, 1, g)).calls == [Holds(r1.failCount, r1, 0), Counted];
    assert Run(p, s0, Then(Then(o1, 1, g), 1, g)).calls == [Holds(r1.failCount, r1, 0), Knows(r2.failCount)];
    var s6 := Run(p, s0, o2);
    assert s6.calls == [Holds(r1.failCount, r1, 0), Holds(r2.failCount, r2, 0)];
    var o3 := Then(Then(o2, 0, f), 1, g);
    assert Run(p, s0, Then(o2, 0, f)).calls == [Done, Holds(r2.failCount, r2, 0)];
    assert Run(p, s0, o3).saves == 2;
  }
}
