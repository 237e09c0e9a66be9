/** The life of a message that administrators leave alone: bounded attempts, then one outcome, and at most one bounce. */
module OutboundLife {
  import opened OutboundMachine
  import opened OutboundManager
  import opened OutboundOwnership
  import opened OutboundPool
  import opened OutboundQueue
  import opened Tally

  predicate Unattended(r: Run) {
    r.Then? ==> Unattended(r.before) && !r.e.AdminRead? && !r.e.AdminWrite? && !r.e.Admin?
  }

  lemma {:induction false} UnattendedIsGentle(c: Config, from: State, r: Run)
    requires Unattended(r)
    ensures GentleRun(c, from, r)
  {
    if r.Then? {
      UnattendedIsGentle(c, from, r.before);
    }
  }

  // ---------- The copies held are up to date ----------

  /** The copy is `k` attempts ahead of its row. */
  predicate Level(rows: Table, item: Item, k: nat) {
    item.id in rows && item.attempts == rows[item.id].attempts + k
  }

  ghost predicate ListLevel(rows: Table, left: seq<Item>) {
    && (forall i :: 0 <= i < |left| ==> Claimable(rows, left[i].id) && Level(rows, left[i], 0))
    && (forall i, j :: 0 <= i < j < |left| ==> left[i].id != left[j].id)
  }

  ghost predicate DispatcherLevel(rows: Table, d: Dispatcher) {
    match d
    case Scanning(left) => ListLevel(rows, left)
    case Holding(item, left) => Level(rows, item, 0) && ListLevel(rows, left)
    case _ => true
  }

  ghost predicate JobsLevel(rows: Table, jobs: seq<Item>) {
    forall i :: 0 <= i < |jobs| ==> Level(rows, jobs[i], 0)
  }

  predicate WorkerLevel(rows: Table, w: Worker) {
    match w
    case Got(item) => Level(rows, item, 0)
    case Delivering(item) => Level(rows, item, 0)
    case Writing(item) => Level(rows, item, 1)
    case _ => true
  }

  ghost predicate WorkersLevel(rows: Table, workers: seq<Worker>) {
    forall i :: 0 <= i < |workers| ==> WorkerLevel(rows, workers[i])
  }

  ghost predicate AllLevel(s: State) {
    DispatcherLevel(s.rows, s.dispatcher) && JobsLevel(s.rows, s.jobs) && WorkersLevel(s.rows, s.workers)
  }

  /** Nobody but worker `i` has the message. */
  ghost predicate OnlyWorker(s: State, i: nat, id: nat) {
    && (s.dispatcher.Holding? ==> s.dispatcher.item.id != id)
    && (forall j :: 0 <= j < |s.jobs| ==> s.jobs[j].id != id)
    && (forall j :: 0 <= j < |s.workers| && j != i ==> !Holds(s.workers[j], id))
  }

  lemma SoleHolder(s: State, i: nat, id: nat)
    requires i < |s.workers| && Holds(s.workers[i], id) && Held(s, id) <= 1
    ensures OnlyWorker(s, i, id)
  {
    CountUpdate(s.workers, i, Waiting, HeldBy(id));
    CountHas(s.workers[i := Waiting], HeldBy(id));
    CountHas(s.jobs, Of(id));
    forall j | 0 <= j < |s.jobs| ensures s.jobs[j].id != id {
      assert !Of(id)(s.jobs[j]);
    }
    forall j | 0 <= j < |s.workers| && j != i ensures !Holds(s.workers[j], id) {
      assert s.workers[i := Waiting][j] == s.workers[j];
      assert !HeldBy(id)(s.workers[i := Waiting][j]);
    }
  }

  lemma SaveLevel(c: Config, s: State, i: nat, ok: bool)
    requires Good(c, s) && Owned(s) && AllLevel(s) && WorkEnabled(c, s, i, Save(ok))
    ensures AllLevel(WorkNext(c, s, i, Save(ok)))
  {
    var item := s.workers[i].item;
    assert Owner(s, item.id);
    HolderCounts(s, i, item.id);
    SoleHolder(s, i, item.id);
    hide Held, Owned, Owner, Good, SemsAfter;
    var rows := if ok then s.rows[item.id := item] else s.rows;
    SaveLeft(s, rows, item);
    var workers := s.workers[i := WorkerAfter(c, s.jobs, s.workers[i], Save(ok))];
    forall j | 0 <= j < |workers| ensures WorkerLevel(rows, workers[j]) {
      assert j != i ==> WorkerLevel(s.rows, s.workers[j]);
    }
  }

  /** Rows still listed are open, so the row being written is none of them. */
  lemma SaveLeft(s: State, rows: Table, item: Item)
    requires AllLevel(s) && IsSending(s.rows, item.id) && (rows == s.rows || rows == s.rows[item.id := item])
    requires s.dispatcher.Holding? ==> s.dispatcher.item.id != item.id
    requires forall j :: 0 <= j < |s.jobs| ==> s.jobs[j].id != item.id
    ensures DispatcherLevel(rows, s.dispatcher) && JobsLevel(rows, s.jobs)
  {
  }

  lemma LevelAfter(c: Config, rows: Table, jobs: seq<Item>, w: Worker, e: Work)
    requires At(w, e) && !e.Save? && (e.Take? ==> jobs != []) && WorkerLevel(rows, w) && JobsLevel(rows, jobs)
    ensures WorkerLevel(rows, WorkerAfter(c, jobs, w, e))
  {
    hide Settled;
    if e.Finish? {
      SettledKeeps(c, w.item, e.out, e.now);
    }
  }

  lemma WorkLevel(c: Config, s: State, i: nat, e: Work)
    requires Good(c, s) && Owned(s) && AllLevel(s) && WorkEnabled(c, s, i, e)
    ensures AllLevel(WorkNext(c, s, i, e))
  {
    if e.Save? {
      SaveLevel(c, s, i, e.ok);
    } else {
      hide Good, Owned, SemsAfter, DispatcherLevel, WorkerLevel, WorkerAfter, Level;
      assert WorkerLevel(s.rows, s.workers[i]);
      LevelAfter(c, s.rows, s.jobs, s.workers[i], e);
    }
  }

  lemma ClaimLevel(c: Config, s: State, ok: bool)
    requires AllLevel(s) && Enabled(c, s, ClaimNext(ok))
    ensures AllLevel(Next(c, s, ClaimNext(ok)))
  {
    var left, rows := s.dispatcher.left, Claimed(s.rows, s.dispatcher.left[0].id);
    assert Level(s.rows, left[0], 0);
    assert forall i :: 0 < i < |left| ==> left[i].id != left[0].id;
    forall item: Item, k: nat | Level(s.rows, item, k) ensures Level(rows, item, k) {
    }
    hide Level;
    assert JobsLevel(rows, s.jobs);
    forall i | 0 <= i < |s.workers| ensures WorkerLevel(rows, s.workers[i]) {
      assert WorkerLevel(s.rows, s.workers[i]);
    }
  }

  lemma QuietLevel(c: Config, s: State, e: Event)
    requires Good(c, s) && AllLevel(s) && Enabled(c, s, e) && (e.Enqueue? || e.Scan? || e.Send? || e.Rest? || e.Stop? || e.Halt?)
    ensures AllLevel(Next(c, s, e))
  {
    hide GoodRow, DispatcherGood, JobsGood, WorkersGood, AdminsGood;
    if e.Enqueue? {
      assert s.lastId + 1 !in s.rows;
      var rows := Next(c, s, e).rows;
      forall item: Item, k: nat | Level(s.rows, item, k) ensures Level(rows, item, k) {
      }
      hide Level;
      forall i | 0 <= i < |s.workers| ensures WorkerLevel(rows, s.workers[i]) {
        assert WorkerLevel(s.rows, s.workers[i]);
      }
    }
  }

  lemma StepLevel(c: Config, s: State, e: Event)
    requires Good(c, s) && Owned(s) && AllLevel(s) && !e.AdminRead? && !e.AdminWrite? && !e.Admin?
    ensures AllLevel(Next(c, s, e))
  {
    hide Good, Owned, AllLevel, WorkEnabled, WorkNext, IsDueList, Claimed;
    if Enabled(c, s, e) {
      match e
      case Worker(i, work) => WorkLevel(c, s, i, work);
      case ClaimNext(ok) => ClaimLevel(c, s, ok);
      case _ => QuietLevel(c, s, e);
    }
  }

  // ---------- Accounting for every delivery ----------

  function Attempts(rows: Table, id: nat): nat {
    if id in rows then rows[id].attempts else 0
  }

  function Flying(id: nat): Worker -> bool {
    (w: Worker) => (w.Delivering? || w.Writing?) && w.item.id == id
  }

  /** Every delivery has been counted in the row, or is under way, or its row update was lost. */
  predicate Accounted(before: Table, s: State, id: nat) {
    s.delivers[id] + Attempts(before, id) == Attempts(s.rows, id) + Count(s.workers, Flying(id)) + s.unsaved[id]
  }

  lemma FlyingAfter(c: Config, jobs: seq<Item>, w: Worker, e: Work, id: nat)
    requires At(w, e) && (e.Take? ==> jobs != [])
    ensures Flying(id)(w) <==> (e.Finish? || e.Save?) && w.item.id == id
    ensures Flying(id)(WorkerAfter(c, jobs, w, e)) <==> (e.Acquire? || e.Finish?) && w.item.id == id
  {
    hide Settled;
    if e.Finish? {
      SettledKeeps(c, w.item, e.out, e.now);
    }
  }

  lemma AttemptsAfter(rows: Table, w: Worker, e: Work, id: nat)
    requires At(w, e) && WorkerLevel(rows, w)
    ensures Attempts(RowsAfter(rows, w, e), id) == Attempts(rows, id) + if e.Save? && e.ok && w.item.id == id then 1 else 0
  {
  }

  lemma WorkAccounted(c: Config, before: Table, s: State, i: nat, e: Work, id: nat)
    requires WorkEnabled(c, s, i, e) && WorkerLevel(s.rows, s.workers[i]) && Accounted(before, s, id)
    ensures Accounted(before, WorkNext(c, s, i, e), id)
  {
    hide Count, WorkNext, WorkerAfter, RowsAfter, WorkerLevel, Attempts, Flying;
    CountUpdate(s.workers, i, WorkerAfter(c, s.jobs, s.workers[i], e), Flying(id));
    FlyingAfter(c, s.jobs, s.workers[i], e, id);
    AttemptsAfter(s.rows, s.workers[i], e, id);
    LogsAfter(c, s, i, e, id);
  }

  lemma StepAccounted(c: Config, before: Table, s: State, e: Event, id: nat)
    requires Good(c, s) && AllLevel(s) && Accounted(before, s, id) && !e.AdminRead? && !e.AdminWrite? && !e.Admin?
    ensures Accounted(before, Next(c, s, e), id)
  {
    if !e.Worker? {
      QuietLogs(c, s, e);
      QuietAttempts(c, s, e, id);
      hide Count, Next, Enabled, Good, Attempts;
    } else if Enabled(c, s, e) {
      hide At, WorkNext, Accounted, DispatcherLevel, JobsLevel, WorkerLevel, Good;
      WorkAccounted(c, before, s, e.i, e.work, id);
    }
  }

  lemma QuietAttempts(c: Config, s: State, e: Event, id: nat)
    requires TableGood(c, s.rows, s.lastId) && !e.Worker? && !e.AdminRead? && !e.AdminWrite? && !e.Admin?
    ensures Attempts(Next(c, s, e).rows, id) == Attempts(s.rows, id)
  {
    hide GoodRow, IsDueList;
  }

  lemma {:induction false} DeliveriesAreAccounted(c: Config, from: State, r: Run, id: nat)
    requires c.maxAttempts >= 1 && Good(c, from) && Owned(from) && AllLevel(from) && Unattended(r)
    requires Accounted(from.rows, from, id)
    ensures var s := Now(c, from, r);
            Good(c, s) && Owned(s) && AllLevel(s) && Accounted(from.rows, s, id)
  {
    hide Good, Owned, AllLevel, Accounted;
    if r.Then? {
      DeliveriesAreAccounted(c, from, r.before, id);
      UnattendedIsGentle(c, from, r);
      RowsStayGood(c, from, r);
      OwnershipHolds(c, from, r);
      StepLevel(c, Now(c, from, r.before), r.e);
      StepAccounted(c, from.rows, Now(c, from, r.before), r.e, id);
    }
  }

  /** The start of the manager on a table with no row being sent. */
  lemma FreshStart(c: Config, rows: Table, lastId: nat, workers: nat, users: set<string>, id: nat)
    requires TableGood(c, rows, lastId) && forall i: nat :: !IsSending(rows, i)
    ensures var s := Initial(rows, lastId, workers, users);
            Good(c, s) && Owned(s) && AllLevel(s) && Accounted(rows, s, id) && BouncesAccounted(rows, s, id)
  {
    var s := Initial(rows, lastId, workers, users);
    InitialGood(c, rows, lastId, workers, users);
    InitialOwned(rows, lastId, workers, users);
    CountNone(s.workers, Flying(id));
    CountNone(s.workers, BouncingFor(s.users, id));
  }

  /**
   Left alone, a message is delivered at most as often as it has attempts left, whatever updates are lost;
   a new one at most the maximum.
   */
  lemma AttemptsAreBounded(c: Config, rows: Table, lastId: nat, workers: nat, users: set<string>, r: Run, id: nat)
    requires c.maxAttempts >= 1 && TableGood(c, rows, lastId) && (forall i: nat :: !IsSending(rows, i)) && Unattended(r)
    ensures Now(c, Initial(rows, lastId, workers, users), r).delivers[id] + Attempts(rows, id) <= c.maxAttempts
  {
    var from := Initial(rows, lastId, workers, users);
    FreshStart(c, rows, lastId, workers, users, id);
    DeliveriesAreAccounted(c, from, r, id);
    var s := Now(c, from, r);
    assert Owner(s, id);
    CountMono(s.workers, Flying(id), HeldBy(id));
    hide Count, AllLevel, DispatcherGood, JobsGood, WorkersGood, AdminsGood;
    assert id in s.rows ==> GoodRow(c, s.rows[id]);
  }

  // ---------- Accounting for every bounce ----------

  /** Failed, with a local sender. */
  predicate OwesBounce(rows: Table, users: set<string>, id: nat) {
    id in rows && rows[id].status.Failed? && rows[id].from in users
  }

  function BouncingFor(users: set<string>, id: nat): Worker -> bool {
    (w: Worker) => w.Bouncing? && w.item.id == id && w.item.from in users
  }

  /** A failure of a local sender's message has its bounce filed, or lost, or on its way. */
  predicate BouncesAccounted(before: Table, s: State, id: nat) {
    s.bounces[id] + s.lost[id] + Count(s.workers, BouncingFor(s.users, id)) + (if OwesBounce(before, s.users, id) then 1 else 0)
    == if OwesBounce(s.rows, s.users, id) then 1 else 0
  }

  lemma BouncingAfter(c: Config, jobs: seq<Item>, users: set<string>, w: Worker, e: Work, id: nat)
    requires At(w, e) && (e.Take? ==> jobs != [])
    ensures BouncingFor(users, id)(WorkerAfter(c, jobs, w, e)) <==>
            e.Save? && e.ok && w.item.status.Failed? && w.item.id == id && w.item.from in users
  {
  }

  lemma OwesAfter(rows: Table, users: set<string>, w: Worker, e: Work, id: nat)
    requires At(w, e) && (e.Save? ==> IsSending(rows, w.item.id))
    ensures OwesBounce(RowsAfter(rows, w, e), users, id) <==>
            OwesBounce(rows, users, id) || (e.Save? && e.ok && w.item.id == id && w.item.status.Failed? && w.item.from in users)
    ensures e.Save? && w.item.id == id ==> !OwesBounce(rows, users, id)
  {
  }

  lemma WorkBounces(c: Config, before: Table, s: State, i: nat, e: Work, id: nat)
    requires WorkEnabled(c, s, i, e) && BouncesAccounted(before, s, id)
    requires e.Save? ==> IsSending(s.rows, s.workers[i].item.id)
    ensures BouncesAccounted(before, WorkNext(c, s, i, e), id)
  {
    hide Count, WorkNext, WorkerAfter, RowsAfter, OwesBounce, IsSending;
    CountUpdate(s.workers, i, WorkerAfter(c, s.jobs, s.workers[i], e), BouncingFor(s.users, id));
    BouncingAfter(c, s.jobs, s.users, s.workers[i], e, id);
    OwesAfter(s.rows, s.users, s.workers[i], e, id);
    LogsAfter(c, s, i, e, id);
  }

  lemma SavedIsSending(s: State, i: nat)
    requires Owned(s) && i < |s.workers| && s.workers[i].Writing?
    ensures IsSending(s.rows, s.workers[i].item.id)
  {
    var id := s.workers[i].item.id;
    assert Owner(s, id);
    HolderCounts(s, i, id);
  }

  lemma QuietOwes(c: Config, s: State, e: Event, id: nat)
    requires TableGood(c, s.rows, s.lastId) && !e.Worker? && !e.AdminRead? && !e.AdminWrite? && !e.Admin?
    ensures OwesBounce(Next(c, s, e).rows, s.users, id) <==> OwesBounce(s.rows, s.users, id)
  {
    hide GoodRow, IsDueList;
  }

  lemma QuietBounces(c: Config, before: Table, s: State, e: Event, id: nat)
    requires Good(c, s) && BouncesAccounted(before, s, id)
    requires !e.Worker? && !e.AdminRead? && !e.AdminWrite? && !e.Admin?
    ensures BouncesAccounted(before, Next(c, s, e), id)
  {
    QuietOwes(c, s, e, id);
    QuietLogs(c, s, e);
    hide Count, OwesBounce, Good, Next, Enabled;
  }

  lemma QuietLogs(c: Config, s: State, e: Event)
    requires !e.Worker?
    ensures var s' := Next(c, s, e);
            s'.workers == s.workers && s'.users == s.users && s'.delivers == s.delivers && s'.unsaved == s.unsaved
            && s'.bounces == s.bounces && s'.lost == s.lost
  {
    hide IsDueList, Claimed, Claimable, Apply;
  }

  lemma StepBounces(c: Config, before: Table, s: State, e: Event, id: nat)
    requires Good(c, s) && Owned(s) && BouncesAccounted(before, s, id) && !e.AdminRead? && !e.AdminWrite? && !e.Admin?
    ensures BouncesAccounted(before, Next(c, s, e), id)
  {
    hide Owned, WorkNext, WorkEnabled, Good, BouncesAccounted;
    if !e.Worker? {
      QuietBounces(c, before, s, e, id);
    } else if Enabled(c, s, e) {
      WorkerBounces(c, before, s, e.i, e.work, id);
    }
  }

  lemma WorkerBounces(c: Config, before: Table, s: State, i: nat, e: Work, id: nat)
    requires WorkEnabled(c, s, i, e) && Owned(s) && BouncesAccounted(before, s, id)
    ensures BouncesAccounted(before, WorkNext(c, s, i, e), id)
  {
    hide Owned, WorkNext, BouncesAccounted;
    if e.Save? {
      SavedIsSending(s, i);
    }
    WorkBounces(c, before, s, i, e, id);
  }

  lemma {:induction false} BouncesAreAccounted(c: Config, from: State, r: Run, id: nat)
    requires c.maxAttempts >= 1 && Good(c, from) && Owned(from) && Unattended(r) && BouncesAccounted(from.rows, from, id)
    ensures BouncesAccounted(from.rows, Now(c, from, r), id)
  {
    hide Good, Owned, BouncesAccounted;
    if r.Then? {
      BouncesAreAccounted(c, from, r.before, id);
      UnattendedIsGentle(c, from, r.before);
      RowsStayGood(c, from, r.before);
      OwnershipHolds(c, from, r.before);
      StepBounces(c, from.rows, Now(c, from, r.before), r.e, id);
    }
  }

  /**
   Left alone, a message not failed at the start is bounced at most once ever. Once no worker is about to file its
   bounce it has had exactly one, filed or lost, if it failed and its sender is local, and none otherwise.
   */
  lemma BouncedOnceIff(c: Config, rows: Table, lastId: nat, workers: nat, users: set<string>, r: Run, id: nat)
    requires c.maxAttempts >= 1 && TableGood(c, rows, lastId) && (forall i: nat :: !IsSending(rows, i)) && Unattended(r)
    requires id in rows ==> !rows[id].status.Failed?
    ensures var s := Now(c, Initial(rows, lastId, workers, users), r);
            && s.bounces[id] + s.lost[id] <= 1
            && ((forall i :: 0 <= i < |s.workers| ==> !BouncingFor(s.users, id)(s.workers[i])) ==>
                 (s.bounces[id] + s.lost[id] == 1 <==> OwesBounce(s.rows, s.users, id)))
  {
    var from := Initial(rows, lastId, workers, users);
    FreshStart(c, rows, lastId, workers, users, id);
    BouncesAreAccounted(c, from, r, id);
    var s := Now(c, from, r);
    CountHas(s.workers, BouncingFor(s.users, id));
    hide Good, Owned, AllLevel, Count;
  }
}
