/** The ban ladder in figures: when bans come, how long they last and what is recorded of them. */
module BanSchedule {
  import opened BanLadder
  import opened BanStore
  import opened Clock
  import opened Wrappers

  /** The configured minutes, or half an hour; three hours; 90 days; 180 days from then on. */
  lemma StagesAre(stage: int, firstBanMin: int)
    requires stage >= 1
    ensures stage == 1 ==> StageDuration(stage, firstBanMin) == (if firstBanMin >= 1 then firstBanMin else 30) * 60 * SECOND
    ensures stage == 2 ==> StageDuration(stage, firstBanMin) == 3 * 60 * 60 * SECOND
    ensures stage == 3 ==> StageDuration(stage, firstBanMin) == 90 * 24 * 60 * 60 * SECOND
    ensures stage >= 4 ==> StageDuration(stage, firstBanMin) == 180 * 24 * 60 * 60 * SECOND
  {
  }

  /** The stage of the ban a trigger earns; none up to zero. Where the user exists, the first three triggers are free. */
  function Stage(p: Policy, h: History): int
    requires h.Then?
  {
    TriggerCount(p, h) - if h.last.known then 3 else 0
  }

  /** A ban is issued exactly by a trigger past the free ones; it runs for its stage from its stamp, and says why it was issued. */
  lemma BanIsRecorded(p: Policy, h: History)
    requires Timed(h) && p.maxFail > 0 && h.Then?
    ensures IssuesBan(p, h) <==> Length(h) >= p.maxFail && !BanRunning(p, h.before, h.last.at) && Stage(p, h) >= 1
    ensures if IssuesBan(p, h) then
              && Row(p, h).value.expiresAt == Some(h.last.stampedAt + StageDuration(Stage(p, h), p.firstBanMin))
              && Row(p, h).value.reason == Staged(Stage(p, h), h.last.known, TriggerCount(p, h), Length(h))
            else
              Row(p, h).value.(failCount := 0, banCount := 0)
              == if h.before.Clean? then BanEntry(0, 0, None, NoReason) else Row(p, h.before).value.(failCount := 0, banCount := 0)
  {
    ClosedForm(p, h.before);
    ClosedForm(p, h);
    hide StageDuration;
  }

  // ---------- When the first ban comes ----------

  /** No ban runs after so few failures that none was issued. */
  lemma {:induction false} NoneIssuedYet(p: Policy, h: History, known: bool, now: int)
    requires Timed(h) && p.maxFail > 0 && AllKnown(h, known) && Length(h) < p.maxFail + if known then 3 else 0
    ensures !BanRunning(p, h, now)
    ensures TriggerCount(p, h) == if Length(h) < p.maxFail then 0 else Length(h) - p.maxFail + 1
    ensures h.Then? ==> !ToldBanned(p, h)
  {
    if h.Then? {
      NoneIssuedYet(p, h.before, known, now);
      NoneIssuedYet(p, h.before, known, h.last.at);
      ClosedForm(p, h);
      hide Punish, StageDuration;
    }
  }

  /**
   Where all the failures are of unknown users the first ban comes with the failure that reaches the threshold; where all are
   of users that exist, three failures later. It is of the first stage, and no earlier failure is answered "banned".
   */
  lemma FirstBanComesAt(p: Policy, h: History, known: bool)
    requires Timed(h) && p.maxFail > 0 && AllKnown(h, known) && h.Then?
    ensures var first := p.maxFail + if known then 3 else 0;
            && (Length(h) < first ==> !ToldBanned(p, h) && Row(p, h).value.expiresAt == None)
            && (Length(h) == first ==>
                  && ToldBanned(p, h)
                  && Row(p, h).value.expiresAt == Some(h.last.stampedAt + StageDuration(1, p.firstBanMin))
                  && Row(p, h).value.banCount == if known then 4 else 1)
  {
    hide Punish, StageDuration;
    ClosedForm(p, h);
    BanIsRecorded(p, h);
    if Length(h) < p.maxFail + if known then 3 else 0 {
      NoneIssuedYet(p, h, known, h.last.at);
      NeverBannedYet(p, h, known);
    } else if Length(h) == p.maxFail + if known then 3 else 0 {
      NoneIssuedYet(p, h.before, known, h.last.at);
    }
  }

  lemma {:induction false} NeverBannedYet(p: Policy, h: History, known: bool)
    requires Timed(h) && p.maxFail > 0 && AllKnown(h, known) && Length(h) < p.maxFail + if known then 3 else 0
    ensures h.Then? ==> Row(p, h).value.expiresAt == None && Row(p, h).value.reason == NoReason
  {
    if h.Then? {
      hide Punish, StageDuration;
      NeverBannedYet(p, h.before, known);
      NoneIssuedYet(p, h, known, 0);
      ClosedForm(p, h);
      BanIsRecorded(p, h);
    }
  }

  // ---------- Who is turned away ----------

  /** A ban issued by the last failure of `h`, within its time. */
  predicate Runs(p: Policy, h: History, now: int) {
    h.Then? && IssuesBan(p, h) && now < h.last.stampedAt + StageDuration(Stage(p, h), p.firstBanMin)
  }

  lemma RunsIff(p: Policy, h: History, now: int)
    ensures Runs(p, h, now) <==> h.Then? && IssuesBan(p, h) && h.last.stampedAt + Duration(p, h) > now
  {
    hide StageDuration, TriggerCount, IssuesBan;
  }

  lemma {:induction false} RunningIff(p: Policy, h: History, now: int)
    ensures BanRunning(p, h, now) <==> exists issued :: Begins(issued, h) && Runs(p, issued, now)
  {
    hide StageDuration, TriggerCount, IssuesBan, Runs, Duration;
    RunsIff(p, h, now);
    if h.Then? {
      RunningIff(p, h.before, now);
      if issued :| Begins(issued, h.before) && Runs(p, issued, now) {
        assert Begins(issued, h);
      }
      if issued :| Begins(issued, h) && Runs(p, issued, now) {
        assert issued == h || Begins(issued, h.before);
      }
      assert Begins(h, h);
    }
  }

  /** An address is turned away exactly while some ban issued to it runs, up to but not at the end of its stage. */
  lemma TurnedAwayIff(table: BanTable, ip: string, p: Policy, h: History, now: int)
    requires Timed(h) && p.maxFail > 0 && Lookup(table.rows, ip) == Row(p, h)
    ensures table.IsBanned(ip, now) <==> exists issued :: Begins(issued, h) && Runs(p, issued, now)
  {
    ClosedForm(p, h);
    hide Punish, StageDuration, Runs;
    RunningIff(p, h, now);
  }
}
