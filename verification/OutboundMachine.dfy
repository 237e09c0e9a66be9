/**
 The queue at work: one dispatcher, a bounded channel, a pool of workers with a semaphore per recipient address, and
 administrators, every statement and channel operation a step of its own.
 */
module OutboundMachine {
  import Mailer
  import opened OutboundManager
  import opened OutboundQueue
  import opened Tally
  import opened Wrappers

  // ---------- State ----------

  /** `Holding` has claimed an item and waits for room in the channel. */
  datatype Dispatcher = Idle | Scanning(left: seq<Item>) | Holding(item: Item, left: seq<Item>) | Stopped

  /** `Got` waits for the semaphore; `Delivering`, `Writing` and `Bouncing` hold it. */
  datatype Worker = Waiting | Got(item: Item) | Delivering(item: Item) | Writing(item: Item) | Bouncing(item: Item) | Exited

  datatype Action = Retry | Cancel

  /**
   `admins` are the requests between their read and their write. Successful claims, deliver calls, bounces filed, bounces
   lost and row updates lost are logged by message id.
   */
  datatype State = State(rows: Table, lastId: nat, dispatcher: Dispatcher, jobs: seq<Item>, closed: bool, stopping: bool,
                         workers: seq<Worker>, sems: multiset<string>, admins: map<nat, (Action, Item)>, users: set<string>,
                         claims: multiset<nat>, delivers: multiset<nat>, bounces: multiset<nat>, lost: multiset<nat>,
                         unsaved: multiset<nat>)

  function Initial(rows: Table, lastId: nat, workers: nat, users: set<string>): State {
    State(rows, lastId, Idle, [], false, false, seq(workers, i => Waiting), multiset{}, map[], users,
          multiset{}, multiset{}, multiset{}, multiset{}, multiset{})
  }

  datatype Work = Take | Exit | Acquire | Finish(out: Mailer.Outcome, now: int) | Save(ok: bool) | Bounce(ok: bool)

  datatype Event =
    | Enqueue(from: string, to: string, raw: string, now: int)
    | Scan(now: int, items: seq<Item>)
    | ClaimNext(ok: bool)
    | Send
    | Rest
    | Stop
    | Halt
    | Worker(i: nat, work: Work)
    | AdminRead(a: nat, action: Action, id: nat)
    | AdminWrite(a: nat, now: int, ok: bool)
    | Admin(action: Action, id: nat, now: int, ok: bool)

  // ---------- Steps ----------

  predicate Allowed(rows: Table, action: Action, id: nat) {
    id in rows && !(action.Cancel? && rows[id].status.Sent?)
  }

  /** The worker stands where the step begins. */
  predicate At(w: Worker, e: Work) {
    match e
    case Take => w.Waiting?
    case Exit => w.Waiting?
    case Acquire => w.Got?
    case Finish(_, _) => w.Delivering?
    case Save(_) => w.Writing?
    case Bounce(_) => w.Bouncing?
  }

  predicate WorkEnabled(c: Config, s: State, i: nat, e: Work) {
    && i < |s.workers| && At(s.workers[i], e)
    && (e.Take? ==> s.jobs != [])
    && (e.Exit? ==> s.jobs == [] && s.closed)
    && (e.Acquire? ==> c.limit <= 0 || s.sems[s.workers[i].item.to] < c.limit)
  }

  ghost predicate Enabled(c: Config, s: State, e: Event) {
    match e
    case Enqueue(_, _, _, _) => true
    case Scan(now, items) => s.dispatcher.Idle? && IsDueList(s.rows, now, c.batchSize, items)
    case ClaimNext(_) => s.dispatcher.Scanning? && s.dispatcher.left != []
    case Send => s.dispatcher.Holding? && |s.jobs| < c.batchSize
    case Rest => s.dispatcher.Scanning? && s.dispatcher.left == []
    case Stop => true
    case Halt => s.dispatcher.Idle? && s.stopping
    case Worker(i, work) => WorkEnabled(c, s, i, work)
    case AdminRead(a, action, id) => a !in s.admins && Allowed(s.rows, action, id)
    case AdminWrite(a, _, _) => a in s.admins
    case Admin(action, id, _, _) => Allowed(s.rows, action, id)
  }

  function Apply(action: Action, item: Item, now: int): Item {
    if action.Retry? then AfterRetry(item, now) else AfterCancel(item, now)
  }

  function Only<K>(k: K, b: bool): multiset<K> {
    if b then multiset{k} else multiset{}
  }

  function WorkerAfter(c: Config, jobs: seq<Item>, w: Worker, e: Work): Worker
    requires At(w, e) && (e.Take? ==> jobs != [])
  {
    match e
    case Take => Got(jobs[0])
    case Exit => Exited
    case Acquire => Delivering(w.item)
    case Finish(out, now) => Writing(Settled(c, w.item, out, now))
    case Save(ok) => if ok && w.item.status.Failed? then Bouncing(w.item) else Waiting
    case Bounce(_) => Waiting
  }

  /** The semaphore is taken before delivery and given back at the end, on every path. */
  function SemsAfter(c: Config, sems: multiset<string>, w: Worker, e: Work): multiset<string>
    requires At(w, e)
  {
    if c.limit <= 0 then sems
    else if e.Acquire? then sems + multiset{w.item.to}
    else if e.Bounce? || (e.Save? && !(e.ok && w.item.status.Failed?)) then sems - multiset{w.item.to}
    else sems
  }

  function RowsAfter(rows: Table, w: Worker, e: Work): Table
    requires At(w, e)
  {
    if e.Save? && e.ok then rows[w.item.id := w.item] else rows
  }

  predicate BouncesTo(users: set<string>, w: Worker, e: Work) {
    w.Bouncing? && e.Bounce? && w.item.from in users
  }

  function WorkNext(c: Config, s: State, i: nat, e: Work): State
    requires WorkEnabled(c, s, i, e)
  {
    var w := s.workers[i];
    var id := if w.Waiting? || w.Exited? then 0 else w.item.id;
    s.(rows := RowsAfter(s.rows, w, e),
       jobs := if e.Take? then s.jobs[1..] else s.jobs,
       workers := s.workers[i := WorkerAfter(c, s.jobs, w, e)],
       sems := SemsAfter(c, s.sems, w, e),
       delivers := s.delivers + Only(id, e.Acquire?),
       bounces := s.bounces + Only(id, BouncesTo(s.users, w, e) && e.ok),
       lost := s.lost + Only(id, BouncesTo(s.users, w, e) && !e.ok),
       unsaved := s.unsaved + Only(id, e.Save? && !e.ok))
  }

  /** One step; an event that is not enabled leaves the state as it is. */
  ghost function Next(c: Config, s: State, e: Event): State {
    if !Enabled(c, s, e) then s else
    match e
    case Enqueue(from, to, raw, now) =>
      var id := s.lastId + 1;
      s.(rows := s.rows[id := Item(id, from, to, raw, Pending, 0, now, "", "", None)], lastId := id)
    case Scan(_, items) => s.(dispatcher := Scanning(items))
    case ClaimNext(ok) =>
      var item, rest := s.dispatcher.left[0], s.dispatcher.left[1..];
      if ok && Claimable(s.rows, item.id) then
        s.(rows := Claimed(s.rows, item.id), dispatcher := Holding(item.(status := Sending), rest),
           claims := s.claims + multiset{item.id})
      else s.(dispatcher := Scanning(rest))
    case Send => s.(jobs := s.jobs + [s.dispatcher.item], dispatcher := Scanning(s.dispatcher.left))
    case Rest => s.(dispatcher := Idle)
    case Stop => s.(stopping := true)
    case Halt => s.(dispatcher := Stopped, closed := true)
    case Worker(i, work) => WorkNext(c, s, i, work)
    case AdminRead(a, action, id) => s.(admins := s.admins[a := (action, s.rows[id])])
    case AdminWrite(a, now, ok) =>
      var item := Apply(s.admins[a].0, s.admins[a].1, now);
      s.(rows := if ok then s.rows[item.id := item] else s.rows, admins := s.admins - {a})
    case Admin(action, id, now, ok) =>
      var item := Apply(action, s.rows[id], now);
      s.(rows := if ok then s.rows[item.id := item] else s.rows)
  }

  /** Events in any order, the latest last. */
  datatype Run = Start | Then(before: Run, e: Event)

  ghost function Now(c: Config, from: State, r: Run): State {
    if r.Start? then from else Next(c, Now(c, from, r.before), r.e)
  }

  // ---------- What holds under every interleaving ----------

  predicate GoodRow(c: Config, item: Item) {
    && item.attempts <= c.maxAttempts
    && (Open(item) || item.status.Sending? ==> item.attempts < c.maxAttempts)
    && (item.completedAt.Some? <==> item.status.Sent? || item.status.Failed? || item.status.Canceled?)
  }

  predicate GoodJob(c: Config, item: Item) {
    item.status.Sending? && GoodRow(c, item)
  }

  /** The row exists and is of the same message. */
  predicate Known(rows: Table, item: Item) {
    item.id in rows && rows[item.id].from == item.from && rows[item.id].to == item.to && rows[item.id].raw == item.raw
  }

  ghost predicate TableGood(c: Config, rows: Table, lastId: nat) {
    forall id: nat :: id in rows ==> rows[id].id == id && id <= lastId && GoodRow(c, rows[id])
  }

  ghost predicate ListGood(c: Config, rows: Table, left: seq<Item>) {
    forall i :: 0 <= i < |left| ==> GoodRow(c, left[i]) && Open(left[i]) && Known(rows, left[i])
  }

  ghost predicate DispatcherGood(c: Config, rows: Table, d: Dispatcher) {
    match d
    case Scanning(left) => ListGood(c, rows, left)
    case Holding(item, left) => GoodJob(c, item) && Known(rows, item) && ListGood(c, rows, left)
    case _ => true
  }

  ghost predicate JobsGood(c: Config, rows: Table, jobs: seq<Item>) {
    forall i :: 0 <= i < |jobs| ==> GoodJob(c, jobs[i]) && Known(rows, jobs[i])
  }

  predicate WorkerGood(c: Config, rows: Table, w: Worker) {
    match w
    case Got(item) => GoodJob(c, item) && Known(rows, item)
    case Delivering(item) => GoodJob(c, item) && Known(rows, item)
    case Writing(item) =>
      GoodRow(c, item) && Known(rows, item) && (item.status.Sent? || item.status.Failed? || item.status.Deferred?)
    case Bouncing(item) => item.status.Failed? && Known(rows, item)
    case _ => true
  }

  ghost predicate WorkersGood(c: Config, rows: Table, workers: seq<Worker>) {
    forall i :: 0 <= i < |workers| ==> WorkerGood(c, rows, workers[i])
  }

  ghost predicate AdminsGood(c: Config, rows: Table, admins: map<nat, (Action, Item)>) {
    forall a: nat :: a in admins ==> GoodRow(c, admins[a].1) && Known(rows, admins[a].1)
  }

  ghost predicate Good(c: Config, s: State) {
    && TableGood(c, s.rows, s.lastId) && DispatcherGood(c, s.rows, s.dispatcher) && JobsGood(c, s.rows, s.jobs)
    && WorkersGood(c, s.rows, s.workers) && AdminsGood(c, s.rows, s.admins)
  }

  ghost predicate SameMail(a: Table, b: Table) {
    forall id: nat :: id in a ==> Known(b, a[id].(id := id))
  }

  lemma StillKnown(c: Config, s: State, rows: Table)
    requires Good(c, s) && SameMail(s.rows, rows)
    ensures DispatcherGood(c, rows, s.dispatcher) && JobsGood(c, rows, s.jobs)
    ensures WorkersGood(c, rows, s.workers) && AdminsGood(c, rows, s.admins)
  {
    hide GoodRow, Open;
    forall item: Item | Known(s.rows, item) ensures Known(rows, item) {
      assert Known(rows, s.rows[item.id].(id := item.id));
    }
  }

  /** Writing back a good snapshot of a known message keeps the table good. */
  lemma WriteKeeps(c: Config, s: State, item: Item)
    requires Good(c, s) && GoodRow(c, item) && Known(s.rows, item)
    ensures TableGood(c, s.rows[item.id := item], s.lastId) && SameMail(s.rows, s.rows[item.id := item])
  {
    hide GoodRow;
  }

  lemma SettledGood(c: Config, item: Item, out: Mailer.Outcome, now: int)
    requires GoodJob(c, item)
    ensures var after := Settled(c, item, out, now);
            && GoodRow(c, after) && (after.status.Sent? || after.status.Failed? || after.status.Deferred?)
            && after.id == item.id && after.from == item.from && after.to == item.to && after.raw == item.raw
            && after.attempts == item.attempts + 1
  {
  }

  lemma ApplyGood(c: Config, rows: Table, action: Action, item: Item, now: int)
    requires c.maxAttempts >= 1 && GoodRow(c, item) && Known(rows, item)
    ensures GoodRow(c, Apply(action, item, now)) && Known(rows, Apply(action, item, now))
  {
  }

  lemma ClaimGood(c: Config, s: State, ok: bool)
    requires Good(c, s) && Enabled(c, s, ClaimNext(ok))
    ensures Good(c, Next(c, s, ClaimNext(ok)))
  {
    var item := s.dispatcher.left[0];
    assert GoodRow(c, item);
    if ok && Claimable(s.rows, item.id) {
      var row := s.rows[item.id].(status := Sending);
      WriteKeeps(c, s, row);
      StillKnown(c, s, s.rows[item.id := row]);
    }
  }

  lemma ReplaceGood(c: Config, rows: Table, workers: seq<Worker>, i: nat, w: Worker)
    requires i < |workers| && WorkersGood(c, rows, workers) && WorkerGood(c, rows, w)
    ensures WorkersGood(c, rows, workers[i := w])
  {
    hide WorkerGood;
  }

  lemma SaveGood(c: Config, s: State, i: nat, ok: bool)
    requires Good(c, s) && WorkEnabled(c, s, i, Save(ok))
    ensures Good(c, WorkNext(c, s, i, Save(ok)))
  {
    hide GoodRow, Known, WorkersGood;
    var item := s.workers[i].item;
    var rows := if ok then s.rows[item.id := item] else s.rows;
    WorkerIsGood(c, s.rows, s.workers, i);
    WriteKeeps(c, s, item);
    StillKnown(c, s, s.rows[item.id := item]);
    KnownAfter(s.rows, item);
    var w := if ok && item.status.Failed? then Bouncing(item) else Waiting;
    ReplaceGood(c, rows, s.workers, i, w);
    hide WorkerGood, TableGood, DispatcherGood, JobsGood, AdminsGood;
  }

  lemma KnownAfter(rows: Table, item: Item)
    ensures Known(rows[item.id := item], item)
  {
  }

  lemma WorkerIsGood(c: Config, rows: Table, workers: seq<Worker>, i: nat)
    requires i < |workers| && WorkersGood(c, rows, workers)
    ensures WorkerGood(c, rows, workers[i])
  {
  }

  lemma TakeGood(c: Config, s: State, i: nat)
    requires Good(c, s) && WorkEnabled(c, s, i, Take)
    ensures Good(c, WorkNext(c, s, i, Take))
  {
    hide GoodJob, Known, WorkersGood, TableGood, DispatcherGood, AdminsGood;
    ReplaceGood(c, s.rows, s.workers, i, Got(s.jobs[0]));
  }

  lemma WorkGood(c: Config, s: State, i: nat, e: Work)
    requires Good(c, s) && WorkEnabled(c, s, i, e)
    ensures Good(c, WorkNext(c, s, i, e))
  {
    hide GoodRow, Known, Settled, WorkersGood, TableGood, DispatcherGood, JobsGood, AdminsGood;
    var w := s.workers[i];
    WorkerIsGood(c, s.rows, s.workers, i);
    match e
    case Take => TakeGood(c, s, i);
    case Exit => ReplaceGood(c, s.rows, s.workers, i, Exited);
    case Acquire => ReplaceGood(c, s.rows, s.workers, i, Delivering(w.item));
    case Finish(out, now) =>
      FinishGood(c, s.rows, w.item, out, now);
      ReplaceGood(c, s.rows, s.workers, i, Writing(Settled(c, w.item, out, now)));
    case Save(ok) => SaveGood(c, s, i, ok);
    case Bounce(_) => ReplaceGood(c, s.rows, s.workers, i, Waiting);
  }

  lemma FinishGood(c: Config, rows: Table, item: Item, out: Mailer.Outcome, now: int)
    requires GoodJob(c, item) && Known(rows, item)
    ensures WorkerGood(c, rows, Writing(Settled(c, item, out, now)))
  {
    hide GoodRow, Settled;
    SettledGood(c, item, out, now);
  }

  lemma AdminGood(c: Config, s: State, action: Action, item: Item, now: int)
    requires c.maxAttempts >= 1 && Good(c, s) && GoodRow(c, item) && Known(s.rows, item)
    ensures var after := Apply(action, item, now);
            Good(c, s.(rows := s.rows[after.id := after]))
  {
    hide GoodRow;
    ApplyGood(c, s.rows, action, item, now);
    var after := Apply(action, item, now);
    WriteKeeps(c, s, after);
    StillKnown(c, s, s.rows[after.id := after]);
  }

  lemma EnqueueGood(c: Config, s: State, e: Event)
    requires c.maxAttempts >= 1 && Good(c, s) && e.Enqueue?
    ensures Good(c, Next(c, s, e))
  {
    StillKnown(c, s, Next(c, s, e).rows);
  }

  lemma StepGood(c: Config, s: State, e: Event)
    requires c.maxAttempts >= 1 && Good(c, s)
    ensures Good(c, Next(c, s, e))
  {
    hide GoodRow, Apply, Settled, WorkNext, WorkEnabled;
    if Enabled(c, s, e) {
      match e
      case Enqueue(_, _, _, _) => EnqueueGood(c, s, e);
      case Scan(_, items) => assert forall i :: 0 <= i < |items| ==> Known(s.rows, items[i]);
      case ClaimNext(ok) => ClaimGood(c, s, ok);
      case Worker(i, work) => WorkGood(c, s, i, work);
      case AdminRead(_, _, id) => assert Known(s.rows, s.rows[id]);
      case AdminWrite(a, now, ok) => AdminGood(c, s, s.admins[a].0, s.admins[a].1, now);
      case Admin(action, id, now, ok) => AdminGood(c, s, action, s.rows[id], now);
      case _ =>
    }
  }

  lemma InitialGood(c: Config, rows: Table, lastId: nat, workers: nat, users: set<string>)
    requires TableGood(c, rows, lastId)
    ensures Good(c, Initial(rows, lastId, workers, users))
  {
  }

  /**
   Under every interleaving, administrators' reads and writes split and any update failing: attempts never exceed the
   maximum, rows waiting for an attempt are below it, and a completion time is set exactly on sent, failed and canceled rows.
   */
  lemma {:induction false} RowsStayGood(c: Config, from: State, r: Run)
    requires c.maxAttempts >= 1 && Good(c, from)
    ensures Good(c, Now(c, from, r))
  {
    if r.Then? {
      RowsStayGood(c, from, r.before);
      StepGood(c, Now(c, from, r.before), r.e);
    }
  }
}
