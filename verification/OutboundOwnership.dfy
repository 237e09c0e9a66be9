/** Who holds a message: at most one of dispatcher, channel and workers, as long as administrators keep off rows being sent. */
module OutboundOwnership {
  import opened OutboundMachine
  import opened OutboundManager
  import opened OutboundPool
  import opened OutboundQueue
  import opened Tally

  predicate Holds(w: Worker, id: nat) {
    (w.Got? || w.Delivering? || w.Writing?) && w.item.id == id
  }

  function HeldBy(id: nat): Worker -> bool {
    (w: Worker) => Holds(w, id)
  }

  /** How many hold the message between its claim and the writing back of its row. */
  function Held(s: State, id: nat): nat {
    ByDispatcher(s.dispatcher, id) + Count(s.jobs, Of(id)) + Count(s.workers, HeldBy(id))
  }

  predicate IsSending(rows: Table, id: nat) {
    id in rows && rows[id].status.Sending?
  }

  /** A row is being sent exactly when one holder has it, or its update was lost. */
  ghost predicate Owned(s: State) {
    forall id: nat :: Owner(s, id)
  }

  predicate Owner(s: State, id: nat) {
    Held(s, id) + s.unsaved[id] == if IsSending(s.rows, id) then 1 else 0
  }

  /** Administrators' requests take effect at once, and never on a row being sent. */
  predicate Gentle(s: State, e: Event) {
    !e.AdminRead? && !e.AdminWrite? && (e.Admin? ==> !IsSending(s.rows, e.id))
  }

  ghost predicate GentleRun(c: Config, from: State, r: Run) {
    r.Then? ==> GentleRun(c, from, r.before) && Gentle(Now(c, from, r.before), r.e)
  }

  // ---------- One step ----------

  lemma HoldsAfter(c: Config, jobs: seq<Item>, w: Worker, e: Work, id: nat)
    requires At(w, e) && (e.Take? ==> jobs != [])
    ensures Holds(WorkerAfter(c, jobs, w, e), id) <==>
            if e.Take? then jobs[0].id == id else (e.Acquire? || e.Finish?) && w.item.id == id
  {
    hide Settled;
    if e.Finish? {
      SettledKeeps(c, w.item, e.out, e.now);
    }
  }

  /** A worker's step moves its item on; only the writing back of the row lets go of it. */
  lemma WorkHolds(c: Config, s: State, i: nat, e: Work, id: nat)
    requires WorkEnabled(c, s, i, e)
    ensures Held(WorkNext(c, s, i, e), id) + (if e.Save? && s.workers[i].item.id == id then 1 else 0) == Held(s, id)
  {
    hide Count, WorkerAfter, SemsAfter, RowsAfter;
    CountUpdate(s.workers, i, WorkerAfter(c, s.jobs, s.workers[i], e), HeldBy(id));
    HoldsAfter(c, s.jobs, s.workers[i], e, id);
    if e.Take? {
      CountRest(s.jobs, Of(id));
    }
  }

  lemma HolderCounts(s: State, i: nat, id: nat)
    requires i < |s.workers| && Holds(s.workers[i], id)
    ensures Held(s, id) >= 1
  {
    assert HeldBy(id)(s.workers[i]);
    CountHas(s.workers, HeldBy(id));
  }

  lemma WorkOwned(c: Config, s: State, i: nat, e: Work, id: nat)
    requires Good(c, s) && WorkEnabled(c, s, i, e) && Owner(s, id)
    ensures Owner(WorkNext(c, s, i, e), id)
  {
    WorkHolds(c, s, i, e, id);
    WorkerIsGood(c, s.rows, s.workers, i);
    if e.Save? && s.workers[i].item.id == id {
      HolderCounts(s, i, id);
    }
    hide Held, Count, WorkerAfter, SemsAfter, GoodRow;
  }

  lemma ClaimHolds(c: Config, s: State, ok: bool, id: nat)
    requires Enabled(c, s, ClaimNext(ok))
    ensures var s', first := Next(c, s, ClaimNext(ok)), s.dispatcher.left[0].id;
            Held(s', id) == Held(s, id) + if ok && Claimable(s.rows, first) && first == id then 1 else 0
  {
    hide Count, Claimable, Claimed;
  }

  lemma SendHolds(c: Config, s: State, id: nat)
    requires Enabled(c, s, Send)
    ensures Held(Next(c, s, Send), id) == Held(s, id)
  {
    hide Count;
    CountSnoc(s.jobs, s.dispatcher.item, Of(id));
  }

  lemma ClaimOwned(c: Config, s: State, ok: bool, id: nat)
    requires Good(c, s) && Owner(s, id) && Enabled(c, s, ClaimNext(ok))
    ensures Owner(Next(c, s, ClaimNext(ok)), id)
  {
    ClaimHolds(c, s, ok, id);
    hide Held, GoodRow, DispatcherGood, JobsGood, WorkersGood;
  }

  lemma StepOwned(c: Config, s: State, e: Event, id: nat)
    requires Good(c, s) && Gentle(s, e) && Owner(s, id)
    ensures Owner(Next(c, s, e), id)
  {
    hide Held, Good, IsSending, WorkNext, WorkEnabled, Claimed, Apply, IsDueList;
    if Enabled(c, s, e) {
      match e
      case Worker(i, work) => WorkOwned(c, s, i, work, id);
      case ClaimNext(ok) => ClaimOwned(c, s, ok, id);
      case Send => SendHolds(c, s, id);
      case _ => QuietOwned(c, s, e, id);
    }
  }

  lemma QuietOwned(c: Config, s: State, e: Event, id: nat)
    requires Good(c, s) && Gentle(s, e) && Owner(s, id) && Enabled(c, s, e)
    requires !e.Worker? && !e.ClaimNext? && !e.Send?
    ensures Owner(Next(c, s, e), id)
  {
    hide Count, GoodRow, DispatcherGood, JobsGood, WorkersGood, IsDueList;
  }

  // ---------- Runs ----------

  /** In every gentle run, whatever updates are lost: a row is being sent exactly when it has its one holder, or its update was lost. */
  lemma {:induction false} OwnershipHolds(c: Config, from: State, r: Run)
    requires c.maxAttempts >= 1 && Good(c, from) && Owned(from) && GentleRun(c, from, r)
    ensures Owned(Now(c, from, r))
  {
    if r.Then? {
      OwnershipHolds(c, from, r.before);
      RowsStayGood(c, from, r.before);
      var s := Now(c, from, r.before);
      forall id: nat ensures Owner(Next(c, s, r.e), id) {
        assert Owner(s, id);
        StepOwned(c, s, r.e, id);
      }
    }
  }

  predicate SavesWork(r: Run) {
    r.Then? ==> SavesWork(r.before) && (r.e.Worker? && r.e.work.Save? ==> r.e.work.ok)
  }

  lemma {:induction false} NothingUnsaved(c: Config, from: State, r: Run)
    requires SavesWork(r)
    ensures Now(c, from, r).unsaved == from.unsaved
  {
    hide WorkEnabled, WorkNext, IsDueList, Claimed, Apply;
    if r.Then? {
      NothingUnsaved(c, from, r.before);
      var s := Now(c, from, r.before);
      if r.e.Worker? && Enabled(c, s, r.e) {
        SavedWork(c, s, r.e.i, r.e.work);
      }
    }
  }

  lemma SavedWork(c: Config, s: State, i: nat, e: Work)
    requires WorkEnabled(c, s, i, e) && (e.Save? ==> e.ok)
    ensures WorkNext(c, s, i, e).unsaved == s.unsaved
  {
    hide WorkerAfter, SemsAfter, RowsAfter;
  }

  /** When every update goes through, a row is being sent if and only if exactly one holder has it; never do two. */
  lemma ExclusiveOwnership(c: Config, from: State, r: Run, id: nat)
    requires c.maxAttempts >= 1 && Good(c, from) && Owned(from) && from.unsaved == multiset{}
    requires GentleRun(c, from, r) && SavesWork(r)
    ensures Held(Now(c, from, r), id) <= 1
    ensures IsSending(Now(c, from, r).rows, id) <==> Held(Now(c, from, r), id) == 1
  {
    OwnershipHolds(c, from, r);
    NothingUnsaved(c, from, r);
    assert Owner(Now(c, from, r), id);
    hide Held;
  }

  lemma InitialOwned(rows: Table, lastId: nat, workers: nat, users: set<string>)
    requires forall id: nat :: !IsSending(rows, id)
    ensures Owned(Initial(rows, lastId, workers, users))
  {
    var s := Initial(rows, lastId, workers, users);
    forall id: nat ensures Owner(s, id) {
      CountNone(s.workers, HeldBy(id));
    }
  }

  /** A retry or cancel keeps the ownership exactly when the row is not being sent. */
  lemma AdminOwnedIff(c: Config, s: State, action: Action, id: nat, now: int)
    requires Good(c, s) && Owned(s) && Allowed(s.rows, action, id)
    ensures Owned(Next(c, s, Admin(action, id, now, true))) <==> !IsSending(s.rows, id)
  {
    var e := Admin(action, id, now, true);
    var s' := Next(c, s, e);
    if IsSending(s.rows, id) {
      assert Owner(s, id);
      hide Count, GoodRow;
      assert Held(s', id) == Held(s, id);
      assert !Owner(s', id);
    } else {
      forall other: nat ensures Owner(s', other) {
        assert Owner(s, other);
        StepOwned(c, s, e, other);
      }
    }
  }

  /** The damage: a retry of a message being sent lets the next scan hand it out a second time. */
  lemma RetryHandsOutTwice(c: Config, s: State, id: nat, now: int, items: seq<Item>)
    requires Good(c, s) && s.dispatcher.Idle? && id in s.rows && Held(s, id) >= 1
    requires IsDueList(Next(c, s, Admin(Retry, id, now, true)).rows, now, c.batchSize, items) && items != [] && items[0].id == id
    ensures var s' := Next(c, Next(c, Next(c, s, Admin(Retry, id, now, true)), Scan(now, items)), ClaimNext(true));
            Held(s', id) >= 2
  {
    hide Count, GoodRow;
    var s1 := Next(c, s, Admin(Retry, id, now, true));
    assert Held(s1, id) == Held(s, id);
    var s2 := Next(c, s1, Scan(now, items));
    assert Held(s2, id) == Held(s1, id);
    assert Due(items[0], now) && Claimable(s2.rows, id);
    ClaimHolds(c, s2, true, id);
  }

  // ---------- Stopping ----------

  /**
   When Stop returns, every claimed message has been delivered, and a row is left as being sent exactly when its
   update was lost.
   */
  lemma StopLeavesOnlyLost(c: Config, s: State, id: nat)
    requires Owned(s) && Closing(s) && s.workers != [] && Done(s)
    requires s.claims[id] == s.delivers[id] + Undelivered(s, id)
    ensures s.claims[id] == s.delivers[id]
    ensures IsSending(s.rows, id) <==> s.unsaved[id] > 0
  {
    assert s.workers[0].Exited?;
    CountNone(s.workers, HeldBy(id));
    CountNone(s.workers, GotBy(id));
    assert Owner(s, id);
  }

  /** So none is, in a gentle run that loses no update. */
  lemma StopLeavesNoneSending(c: Config, rows: Table, lastId: nat, workers: nat, users: set<string>, r: Run, id: nat)
    requires c.maxAttempts >= 1 && workers >= 1 && TableGood(c, rows, lastId) && forall i: nat :: !IsSending(rows, i)
    requires var from := Initial(rows, lastId, workers, users);
             GentleRun(c, from, r) && SavesWork(r) && Done(Now(c, from, r))
    ensures var s := Now(c, Initial(rows, lastId, workers, users), r);
            !IsSending(s.rows, id) && s.claims[id] == s.delivers[id]
  {
    var from := Initial(rows, lastId, workers, users);
    InitialGood(c, rows, lastId, workers, users);
    InitialOwned(rows, lastId, workers, users);
    InitialUndelivered(rows, lastId, workers, users, id);
    OwnershipHolds(c, from, r);
    NothingUnsaved(c, from, r);
    WorkersLeaveLast(c, from, r);
    ClaimsAreDeliveries(c, from, r, id);
    hide Undelivered, Owned, Done, Closing;
    StopLeavesOnlyLost(c, Now(c, from, r), id);
  }

  // ---------- Messages at rest ----------

  /** Nobody waits to send the message, and nobody holds it. */
  predicate Resting(s: State, id: nat) {
    id in s.rows && !Open(s.rows[id]) && Held(s, id) == 0
  }

  /** No request on the message is in flight, other than cancels if those are let pass. */
  ghost predicate NoneInFlight(s: State, id: nat, cancels: bool) {
    forall a: nat :: a in s.admins && s.admins[a].1.id == id ==> cancels && s.admins[a].0.Cancel?
  }

  predicate LeavesAlone(e: Event, id: nat, cancels: bool) {
    && (e.AdminRead? && e.id == id ==> cancels && e.action.Cancel?)
    && (e.Admin? && e.id == id ==> cancels && e.action.Cancel?)
  }

  /** From one state to the next the message rests on. */
  ghost predicate Rests(s: State, s': State, id: nat, cancels: bool) {
    && Resting(s', id) && NoneInFlight(s', id, cancels) && s'.delivers[id] == s.delivers[id]
    && (!cancels ==> id in s.rows && s'.rows[id] == s.rows[id])
  }

  lemma WorkRests(c: Config, s: State, i: nat, e: Work, id: nat, cancels: bool)
    requires WorkEnabled(c, s, i, e) && Resting(s, id) && NoneInFlight(s, id, cancels)
    ensures Rests(s, WorkNext(c, s, i, e), id, cancels)
  {
    WorkHolds(c, s, i, e, id);
    if (e.Save? || e.Acquire?) && s.workers[i].item.id == id {
      HolderCounts(s, i, id);
    }
    hide Held, WorkerAfter, SemsAfter;
  }

  lemma ClaimRests(c: Config, s: State, ok: bool, id: nat, cancels: bool)
    requires Enabled(c, s, ClaimNext(ok)) && Resting(s, id) && NoneInFlight(s, id, cancels)
    ensures Rests(s, Next(c, s, ClaimNext(ok)), id, cancels)
  {
    ClaimHolds(c, s, ok, id);
    hide Held;
  }

  lemma SendRests(c: Config, s: State, id: nat, cancels: bool)
    requires Enabled(c, s, Send) && Resting(s, id) && NoneInFlight(s, id, cancels)
    ensures Rests(s, Next(c, s, Send), id, cancels)
  {
    SendHolds(c, s, id);
    hide Held;
  }

  lemma QuietRests(c: Config, s: State, e: Event, id: nat, cancels: bool)
    requires c.maxAttempts >= 1 && Good(c, s) && Resting(s, id) && NoneInFlight(s, id, cancels) && LeavesAlone(e, id, cancels)
    requires Enabled(c, s, e) && !e.Worker? && !e.ClaimNext? && !e.Send?
    ensures Rests(s, Next(c, s, e), id, cancels)
  {
    hide Count, GoodRow, DispatcherGood, JobsGood, WorkersGood, IsDueList;
  }

  lemma StepRests(c: Config, s: State, e: Event, id: nat, cancels: bool)
    requires c.maxAttempts >= 1 && Good(c, s) && Resting(s, id) && NoneInFlight(s, id, cancels) && LeavesAlone(e, id, cancels)
    ensures Rests(s, Next(c, s, e), id, cancels)
  {
    if !Enabled(c, s, e) {
      assert Next(c, s, e) == s;
    } else if e.Worker? {
      WorkRests(c, s, e.i, e.work, id, cancels);
    } else if e.ClaimNext? {
      ClaimRests(c, s, e.ok, id, cancels);
    } else if e.Send? {
      SendRests(c, s, id, cancels);
    } else {
      QuietRests(c, s, e, id, cancels);
    }
  }

  predicate LeftAlone(r: Run, id: nat, cancels: bool) {
    r.Then? ==> LeftAlone(r.before, id, cancels) && LeavesAlone(r.e, id, cancels)
  }

  /**
   Under every interleaving, a message neither waiting nor held, be it sent, failed, canceled, or left as being sent
   by a lost update, is never delivered again unless it is retried; untouched by administrators its row stays as it is.
   */
  lemma {:induction false} AtRestStaysAtRest(c: Config, from: State, r: Run, id: nat, cancels: bool)
    requires c.maxAttempts >= 1 && Good(c, from) && Resting(from, id) && NoneInFlight(from, id, cancels) && LeftAlone(r, id, cancels)
    ensures var s := Now(c, from, r);
            && Resting(s, id) && NoneInFlight(s, id, cancels) && s.delivers[id] == from.delivers[id]
            && (!cancels ==> s.rows[id] == from.rows[id])
  {
    hide Resting, NoneInFlight, LeavesAlone;
    if r.Then? {
      AtRestStaysAtRest(c, from, r.before, id, cancels);
      RowsStayGood(c, from, r.before);
      StepRests(c, Now(c, from, r.before), r.e, id, cancels);
    }
  }

  /** A message canceled, once or again, while it waited is not being held: it rests. */
  lemma CanceledRests(c: Config, s: State, id: nat, now: int)
    requires c.maxAttempts >= 1 && Good(c, s) && Owned(s) && id in s.rows && Open(s.rows[id])
    ensures Resting(Next(c, s, Admin(Cancel, id, now, true)), id)
  {
    assert Owner(s, id);
    hide Count, GoodRow;
  }

  /** In a gentle run a message rests exactly if it is not open, and not being sent but for a lost update. */
  lemma RestingIff(s: State, id: nat)
    requires Owned(s) && id in s.rows
    ensures Resting(s, id) <==> !Open(s.rows[id]) && (s.rows[id].status.Sending? ==> s.unsaved[id] > 0)
  {
    assert Owner(s, id);
    hide Held;
  }
}
