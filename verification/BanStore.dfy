/**
 The ban ladder: one row per address counting failures and triggers, and the
 staged bans that authentication failures earn.
 Times are nanoseconds.
 */
module BanStore {
  import opened Clock
  import opened Wrappers

  const FREE_TRIGGERS: nat := 3

  datatype Reason = NoReason | Manual(text: string) | Staged(banNum: int, known: bool, banCount: nat, failCount: nat)

  /** `expiresAt` is None where the stored time is the zero time. */
  datatype BanEntry = BanEntry(failCount: nat, banCount: nat, expiresAt: Option<int>, reason: Reason)

  /** ip_address carries a unique index, so the table is a map. */
  type Rows = map<string, BanEntry>

  predicate Active(e: BanEntry, now: int) {
    e.expiresAt.Some? && e.expiresAt.value > now
  }

  function StageDuration(banCount: int, firstBanMin: int): int {
    if banCount == 1 then (if firstBanMin <= 0 then 30 else firstBanMin) * MINUTE
    else if banCount == 2 then 180 * MINUTE
    else if banCount == 3 then 90 * DAY
    else 180 * DAY
  }

  // ---------- The statements of IncrementFail ----------

  /** UPDATE ... SET fail_count = fail_count + 1 WHERE ip_address = ? */
  function UpdateFail(rows: Rows, ip: string): Rows {
    if ip in rows then rows[ip := rows[ip].(failCount := rows[ip].failCount + 1)] else rows
  }

  /** INSERT ... ON CONFLICT DO NOTHING */
  function InsertFirst(rows: Rows, ip: string): Rows {
    if ip in rows then rows else rows[ip := BanEntry(1, 0, None, NoReason)]
  }

  /** SELECT fail_count; a missing row scans as 0. */
  function ReadCount(rows: Rows, ip: string): nat {
    if ip in rows then rows[ip].failCount else 0
  }

  // ---------- One failure ----------

  datatype Policy = Policy(maxFail: int, firstBanMin: int)

  /** An authentication failure; `at` is the clock at the active-ban test, `stampedAt` when the expiry is computed. */
  datatype Failure = Failure(known: bool, at: int, stampedAt: int)

  /** The statement of an increment that reports an error, if any. */
  datatype IncrementFault = NoFault | AtUpdate | AtInsert | AtSelect

  /** Which store calls report an error. */
  datatype Faults = Faults(increment: IncrementFault, read: bool, update: bool)

  const NO_FAULTS := Faults(NoFault, false, false)

  /** The failure gets counted; the INSERT is not sent where there is a row. */
  predicate GetsCounted(rows: Rows, ip: string, fault: IncrementFault) {
    !fault.AtUpdate? && (fault.AtInsert? ==> ip in rows)
  }

  /** The count is read back. */
  predicate ReadsBack(rows: Rows, ip: string, fault: IncrementFault) {
    GetsCounted(rows, ip, fault) && !fault.AtSelect?
  }

  function Counted(e: Option<BanEntry>): BanEntry {
    if e.None? then BanEntry(1, 0, None, NoReason) else e.value.(failCount := e.value.failCount + 1)
  }

  function Lookup(rows: Rows, ip: string): Option<BanEntry> {
    if ip in rows then Some(rows[ip]) else None
  }

  /** The row after a failure that meets no store error, and whether the caller is told "banned". */
  function Punish(p: Policy, e: Option<BanEntry>, f: Failure): (BanEntry, bool) {
    var row := Counted(e);
    if row.failCount < p.maxFail then (row, false)
    else if Active(row, f.at) then (row, true)
    else
      var triggers := row.banCount + 1;
      var banNum := triggers - if f.known then FREE_TRIGGERS else 0;
      if banNum <= 0 then (row.(banCount := triggers), false)
      else
        (BanEntry(row.failCount, triggers, Some(f.stampedAt + StageDuration(banNum, p.firstBanMin)),
                  Staged(banNum, f.known, triggers, row.failCount)), true)
  }

  class BanTable {
    var rows: Rows

    constructor ()
      ensures rows == map[]
    {
      rows := map[];
    }

    /** On an error the count is 0, whether or not the failure was counted by then. */
    method IncrementFail(ip: string, fault: IncrementFault) returns (count: nat)
      modifies this
      ensures rows == if GetsCounted(old(rows), ip, fault) then old(rows)[ip := Counted(Lookup(old(rows), ip))] else old(rows)
      ensures count == if ReadsBack(old(rows), ip, fault) then rows[ip].failCount else 0
    {
      if fault.AtUpdate? {
        return 0;
      }
      var affected := ip in rows;
      rows := UpdateFail(rows, ip);
      if !affected {
        if fault.AtInsert? {
          return 0;
        }
        rows := InsertFirst(rows, ip);
      }
      if fault.AtSelect? {
        return 0;
      }
      count := ReadCount(rows, ip);
    }

    /** A manual ban: whatever row there was is replaced, counters at zero. */
    method BanIP(ip: string, reason: string, duration: int, now: int) returns (ok: bool)
      modifies this
      ensures ok <==> ip != "" && duration > 0
      ensures rows == if ok then old(rows)[ip := BanEntry(0, 0, Some(now + duration), Manual(reason))] else old(rows)
    {
      if ip == "" || duration <= 0 {
        return false;
      }
      rows := rows - {ip};
      rows := rows[ip := BanEntry(0, 0, Some(now + duration), Manual(reason))];
      return true;
    }

    method ResetFail(ip: string)
      modifies this
      ensures rows == old(rows) - {ip}
    {
      rows := rows - {ip};
    }

    predicate IsBanned(ip: string, now: int)
      reads this
    {
      ip in rows && Active(rows[ip], now)
    }

    method RecordAuthFailure(ip: string, p: Policy, f: Failure, faults: Faults) returns (banned: bool, failCount: nat)
      modifies this
      ensures ip == "" || p.maxFail <= 0 || !GetsCounted(old(rows), ip, faults.increment) ==>
                rows == old(rows) && !banned && failCount == 0
      ensures ip != "" && p.maxFail > 0 && GetsCounted(old(rows), ip, faults.increment) && faults.increment.AtSelect? ==>
                rows == old(rows)[ip := Counted(Lookup(old(rows), ip))] && !banned && failCount == 0
      ensures ip != "" && p.maxFail > 0 && ReadsBack(old(rows), ip, faults.increment) && !faults.read && !faults.update ==>
                && rows == old(rows)[ip := Punish(p, Lookup(old(rows), ip), f).0]
                && banned == Punish(p, Lookup(old(rows), ip), f).1
                && failCount == rows[ip].failCount
      ensures ip != "" && p.maxFail > 0 && ReadsBack(old(rows), ip, faults.increment) && faults.read ==>
                rows == old(rows)[ip := Counted(Lookup(old(rows), ip))] && !banned && failCount == rows[ip].failCount
      ensures ip != "" && p.maxFail > 0 && ReadsBack(old(rows), ip, faults.increment) && !faults.read && faults.update ==>
                && rows == old(rows)[ip := Counted(Lookup(old(rows), ip))]
                && failCount == rows[ip].failCount
                && (banned <==> failCount >= p.maxFail && Active(rows[ip], f.at))
    {
      if ip == "" || p.maxFail <= 0 {
        return false, 0;
      }
      failCount := IncrementFail(ip, faults.increment);
      if failCount < p.maxFail || faults.read {
        return false, failCount;
      }
      var entry := rows[ip];
      if Active(entry, f.at) {
        return true, failCount;
      }
      var banCount := entry.banCount + 1;
      entry := entry.(banCount := banCount, failCount := failCount);
      var effectiveCount := banCount;
      if !f.known {
        effectiveCount := effectiveCount + FREE_TRIGGERS;
      }
      if effectiveCount <= FREE_TRIGGERS {
        if !faults.update {
          rows := rows[ip := entry];
        }
        return false, failCount;
      }
      var banNum := effectiveCount - FREE_TRIGGERS;
      entry := entry.(reason := Staged(banNum, f.known, banCount, failCount),
                      expiresAt := Some(f.stampedAt + StageDuration(banNum, p.firstBanMin)));
      if faults.update {
        return false, failCount;
      }
      rows := rows[ip := entry];
      return true, failCount;
    }
  }
}

/** Whole runs of failures from one address, told without the row. */
module BanLadder {
  import opened BanStore
  import opened Clock
  import opened Wrappers

  /** Failures since the last clean state, the latest last. */
  datatype History = Clean | Then(before: History, last: Failure)

  function Length(h: History): nat {
    if h.Clean? then 0 else Length(h.before) + 1
  }

  /** The stored row after a history. */
  function Row(p: Policy, h: History): Option<BanEntry> {
    if h.Clean? then None else Some(Punish(p, Row(p, h.before), h.last).0)
  }

  function ToldBanned(p: Policy, h: History): bool
    requires h.Then?
  {
    Punish(p, Row(p, h.before), h.last).1
  }

  predicate Timed(h: History) {
    h.Then? ==> h.last.at <= h.last.stampedAt && Timed(h.before)
  }

  /** Some ban of the history is still running. */
  predicate BanRunning(p: Policy, h: History, now: int)
    decreases h, 3
  {
    h.Then? && ((IssuesBan(p, h) && h.last.stampedAt + Duration(p, h) > now) || BanRunning(p, h.before, now))
  }

  /** The last failure arrived at or above the threshold while no ban was running. */
  predicate Triggers(p: Policy, h: History)
    requires h.Then?
    decreases h, 0
  {
    Length(h) >= p.maxFail && !BanRunning(p, h.before, h.last.at)
  }

  function TriggerCount(p: Policy, h: History): nat
    decreases h, 1
  {
    if h.Clean? then 0 else TriggerCount(p, h.before) + if Triggers(p, h) then 1 else 0
  }

  /** A trigger bans, except the first three where the user exists. */
  predicate IssuesBan(p: Policy, h: History)
    requires h.Then?
    decreases h, 2
  {
    Triggers(p, h) && (h.last.known ==> TriggerCount(p, h) > FREE_TRIGGERS)
  }

  function Duration(p: Policy, h: History): int
    requires h.Then?
    decreases h, 2
  {
    StageDuration(TriggerCount(p, h) - (if h.last.known then FREE_TRIGGERS else 0), p.firstBanMin)
  }

  /** The row and the answers are those of the history, for known and unknown users in any mixture. */
  lemma {:induction false} ClosedForm(p: Policy, h: History)
    requires Timed(h) && p.maxFail > 0
    ensures h.Then? ==>
              && Row(p, h).Some?
              && Row(p, h).value.failCount == Length(h)
              && Row(p, h).value.banCount == TriggerCount(p, h)
              && (ToldBanned(p, h) <==> Length(h) >= p.maxFail && (BanRunning(p, h.before, h.last.at) || IssuesBan(p, h)))
    ensures forall now :: BanRunning(p, h, now) <==> Row(p, h).Some? && Active(Row(p, h).value, now)
  {
    if h.Then? {
      ClosedForm(p, h.before);
      assert BanRunning(p, h.before, h.last.at) <==> Active(Counted(Row(p, h.before)), h.last.at);
      assert Counted(Row(p, h.before)).failCount == Length(h);
    }
  }

  /** A failure during a running ban is counted and nothing else. */
  lemma RunningBanIsLeftAlone(p: Policy, h: History)
    requires Timed(h) && p.maxFail > 0 && h.Then? && BanRunning(p, h.before, h.last.at)
    ensures Row(p, h) == Some(Row(p, h.before).value.(failCount := Length(h)))
  {
    ClosedForm(p, h.before);
    ClosedForm(p, h);
  }

  predicate AllKnown(h: History, known: bool) {
    h.Then? ==> h.last.known == known && AllKnown(h.before, known)
  }

  /** `h` is a beginning of `later`. */
  predicate Begins(h: History, later: History) {
    h == later || (later.Then? && Begins(h, later.before))
  }

  lemma {:induction false} TriggerCountGrows(p: Policy, h: History, later: History)
    requires Begins(h, later)
    ensures TriggerCount(p, h) <= TriggerCount(p, later)
    ensures h != later && later.Then? && Triggers(p, later) ==> TriggerCount(p, h) < TriggerCount(p, later)
  {
    if h != later {
      TriggerCountGrows(p, h, later.before);
    }
  }

  /** Within a run of one kind the bans follow the ladder: no later ban is shorter, none exceeds 180 days. */
  lemma BansNeverShrink(p: Policy, h: History, later: History, known: bool)
    requires AllKnown(later, known) && Begins(h, later) && h.Then? && later.Then?
    requires IssuesBan(p, h) && IssuesBan(p, later) && p.firstBanMin <= 180
    ensures Duration(p, h) <= Duration(p, later) <= 180 * DAY
  {
    TriggerCountGrows(p, h, later);
    BeginsKeepsKind(h, later, known);
    assert TriggerCount(p, h) >= 1;
  }

  lemma {:induction false} BeginsKeepsKind(h: History, later: History, known: bool)
    requires AllKnown(later, known) && Begins(h, later)
    ensures AllKnown(h, known)
  {
    if h != later {
      BeginsKeepsKind(h, later.before, known);
    }
  }

  /** The ladder rises exactly for a first ban of at most three hours. */
  lemma LadderRisesIff(firstBanMin: int)
    ensures (forall i, j :: 1 <= i <= j ==> StageDuration(i, firstBanMin) <= StageDuration(j, firstBanMin))
            <==> firstBanMin <= 180
  {
    if firstBanMin > 180 {
      assert StageDuration(1, firstBanMin) > StageDuration(2, firstBanMin);
    }
  }

  /** No ban exceeds 180 days exactly for a first ban of at most 180 days. */
  lemma LadderCappedIff(firstBanMin: int)
    ensures (forall i :: i >= 1 ==> StageDuration(i, firstBanMin) <= 180 * DAY) <==> firstBanMin <= 259200
  {
    if firstBanMin > 259200 {
      assert StageDuration(1, firstBanMin) > 180 * DAY;
    }
  }

  /**
   Across kinds the ladder falls: a known user's trigger right after a ban for an unknown name earns a ban as long exactly
   from the seventh trigger on, for a first ban of at most three hours.
   */
  lemma MixedRunsFallIff(p: Policy, h: History, later: History)
    requires h.Then? && IssuesBan(p, h) && !h.last.known && p.firstBanMin <= 180
    requires later.Then? && Triggers(p, later) && later.last.known && TriggerCount(p, later) == TriggerCount(p, h) + 1
    ensures IssuesBan(p, later) && Duration(p, later) >= Duration(p, h) <==> TriggerCount(p, later) >= 7
  {
    assert TriggerCount(p, h) >= 1;
  }
}
