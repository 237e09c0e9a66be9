/** The channel, the workers and the semaphores, under every interleaving whatever. */
module OutboundPool {
  import opened OutboundMachine
  import opened OutboundManager
  import opened OutboundQueue
  import opened Tally

  // ---------- Semaphores ----------

  /** The worker has a connection to the address, and its semaphore. */
  predicate Connected(w: Worker, to: string) {
    (w.Delivering? || w.Writing? || w.Bouncing?) && w.item.to == to
  }

  function ConnectedTo(to: string): Worker -> bool {
    (w: Worker) => Connected(w, to)
  }

  /** The semaphore of every address counts the connections to it, within the limit. */
  ghost predicate SemsExact(c: Config, s: State) {
    c.limit > 0 ==> forall to :: s.sems[to] == Count(s.workers, ConnectedTo(to)) && s.sems[to] <= c.limit
  }

  lemma SettledKeeps(c: Config, item: Item, out: Mailer.Outcome, now: int)
    ensures var after := Settled(c, item, out, now);
            after.id == item.id && after.to == item.to && after.attempts == item.attempts + 1
  {
  }

  lemma ConnectedAfter(c: Config, jobs: seq<Item>, w: Worker, e: Work, to: string)
    requires At(w, e) && (e.Take? ==> jobs != [])
    ensures Connected(WorkerAfter(c, jobs, w, e), to) <==>
            !w.Waiting? && w.item.to == to && (e.Acquire? || e.Finish? || (e.Save? && e.ok && w.item.status.Failed?))
  {
    hide Settled;
    if e.Finish? {
      SettledKeeps(c, w.item, e.out, e.now);
    }
  }

  /** On one worker: the token moves with the connection. */
  lemma TokenFollows(c: Config, sems: multiset<string>, jobs: seq<Item>, w: Worker, e: Work, to: string)
    requires At(w, e) && (e.Take? ==> jobs != []) && c.limit > 0
    requires Connected(w, to) ==> sems[to] >= 1
    requires e.Acquire? ==> sems[w.item.to] < c.limit
    ensures SemsAfter(c, sems, w, e)[to] + (if Connected(w, to) then 1 else 0)
            == sems[to] + if Connected(WorkerAfter(c, jobs, w, e), to) then 1 else 0
    ensures sems[to] <= c.limit ==> SemsAfter(c, sems, w, e)[to] <= c.limit
  {
    hide WorkerAfter;
    ConnectedAfter(c, jobs, w, e, to);
  }

  lemma WorkSems(c: Config, s: State, i: nat, e: Work, to: string)
    requires WorkEnabled(c, s, i, e) && c.limit > 0
    requires s.sems[to] == Count(s.workers, ConnectedTo(to)) && s.sems[to] <= c.limit
    ensures var s' := WorkNext(c, s, i, e);
            s'.sems[to] == Count(s'.workers, ConnectedTo(to)) && s'.sems[to] <= c.limit
  {
    hide Settled, Count, Connected, SemsAfter, WorkerAfter, RowsAfter;
    CountUpdate(s.workers, i, WorkerAfter(c, s.jobs, s.workers[i], e), ConnectedTo(to));
    CountHas(s.workers, ConnectedTo(to));
    TokenFollows(c, s.sems, s.jobs, s.workers[i], e, to);
  }

  lemma StepSems(c: Config, s: State, e: Event)
    requires SemsExact(c, s)
    ensures SemsExact(c, Next(c, s, e))
  {
    hide WorkNext, WorkEnabled, Count, IsDueList, Claimed, Apply;
    if e.Worker? && Enabled(c, s, e) && c.limit > 0 {
      forall to ensures Next(c, s, e).sems[to] == Count(Next(c, s, e).workers, ConnectedTo(to)) && Next(c, s, e).sems[to] <= c.limit {
        WorkSems(c, s, e.i, e.work, to);
      }
    }
  }

  lemma InitialSems(c: Config, rows: Table, lastId: nat, workers: nat, users: set<string>)
    ensures SemsExact(c, Initial(rows, lastId, workers, users))
  {
    var s := Initial(rows, lastId, workers, users);
    forall to ensures Count(s.workers, ConnectedTo(to)) == 0 {
      CountNone(s.workers, ConnectedTo(to));
    }
  }

  /** Connections to one recipient address never exceed the configured limit, and its semaphore counts exactly them. */
  lemma {:induction false} ConnectionsAreLimited(c: Config, from: State, r: Run)
    requires SemsExact(c, from)
    ensures SemsExact(c, Now(c, from, r))
    ensures c.limit > 0 ==> forall to :: Count(Now(c, from, r).workers, ConnectedTo(to)) <= c.limit
  {
    hide Count;
    if r.Then? {
      ConnectionsAreLimited(c, from, r.before);
      StepSems(c, Now(c, from, r.before), r.e);
    }
  }

  // ---------- Every claim is one delivery ----------

  function Of(id: nat): Item -> bool {
    (item: Item) => item.id == id
  }

  function GotBy(id: nat): Worker -> bool {
    (w: Worker) => w.Got? && w.item.id == id
  }

  function ByDispatcher(d: Dispatcher, id: nat): nat {
    if d.Holding? && d.item.id == id then 1 else 0
  }

  /** How often the message is claimed and not yet handed to `deliver`. */
  function Undelivered(s: State, id: nat): nat {
    ByDispatcher(s.dispatcher, id) + Count(s.jobs, Of(id)) + Count(s.workers, GotBy(id))
  }

  lemma WorkDelivers(c: Config, s: State, i: nat, e: Work, id: nat)
    requires WorkEnabled(c, s, i, e)
    ensures var s' := WorkNext(c, s, i, e);
            s'.delivers[id] + Undelivered(s', id) == s.delivers[id] + Undelivered(s, id) && s'.claims == s.claims
  {
    hide Settled, Count, SemsAfter, RowsAfter;
    CountUpdate(s.workers, i, WorkerAfter(c, s.jobs, s.workers[i], e), GotBy(id));
    if e.Take? {
      CountRest(s.jobs, Of(id));
    }
  }

  lemma StepDelivers(c: Config, s: State, e: Event, id: nat)
    requires s.claims[id] == s.delivers[id] + Undelivered(s, id)
    ensures Next(c, s, e).claims[id] == Next(c, s, e).delivers[id] + Undelivered(Next(c, s, e), id)
  {
    hide WorkNext, WorkEnabled, Count, IsDueList, Claimed, Claimable, Apply, Allowed;
    if Enabled(c, s, e) {
      if e.Worker? {
        hide Undelivered;
        WorkDelivers(c, s, e.i, e.work, id);
      } else if e.Send? {
        CountSnoc(s.jobs, s.dispatcher.item, Of(id));
      }
    }
  }

  /** Every successful claim has had its one deliver call, or waits for it with the dispatcher, in the channel or at a semaphore. */
  lemma {:induction false} ClaimsAreDeliveries(c: Config, from: State, r: Run, id: nat)
    requires from.claims[id] == from.delivers[id] + Undelivered(from, id)
    ensures Now(c, from, r).claims[id] == Now(c, from, r).delivers[id] + Undelivered(Now(c, from, r), id)
  {
    hide Undelivered;
    if r.Then? {
      ClaimsAreDeliveries(c, from, r.before, id);
      StepDelivers(c, Now(c, from, r.before), r.e, id);
    }
  }

  /** What a worker's step writes to the logs. */
  lemma LogsAfter(c: Config, s: State, i: nat, e: Work, id: nat)
    requires WorkEnabled(c, s, i, e)
    ensures var s', w := WorkNext(c, s, i, e), s.workers[i];
            var on := !w.Waiting? && w.item.id == id;
            && s'.delivers[id] == s.delivers[id] + (if e.Acquire? && on then 1 else 0)
            && s'.unsaved[id] == s.unsaved[id] + (if e.Save? && !e.ok && on then 1 else 0)
            && s'.bounces[id] + s'.lost[id] == s.bounces[id] + s.lost[id] + (if BouncesTo(s.users, w, e) && on then 1 else 0)
            && s'.rows == RowsAfter(s.rows, w, e) && s'.workers == s.workers[i := WorkerAfter(c, s.jobs, w, e)] && s'.users == s.users
  {
    hide WorkerAfter, SemsAfter, RowsAfter;
  }

  lemma InitialUndelivered(rows: Table, lastId: nat, workers: nat, users: set<string>, id: nat)
    ensures Undelivered(Initial(rows, lastId, workers, users), id) == 0
  {
    CountNone(Initial(rows, lastId, workers, users).workers, GotBy(id));
  }

  // ---------- No deadlock ----------

  /** The channel is closed when the dispatcher stops, and a worker leaves only when it is closed and drained. */
  ghost predicate Closing(s: State) {
    && (s.closed <==> s.dispatcher.Stopped?)
    && forall i :: 0 <= i < |s.workers| && s.workers[i].Exited? ==> s.closed && s.jobs == []
  }

  lemma WorkCloses(c: Config, s: State, i: nat, e: Work)
    requires Closing(s) && WorkEnabled(c, s, i, e)
    ensures Closing(WorkNext(c, s, i, e)) && |WorkNext(c, s, i, e).workers| == |s.workers|
  {
    hide Settled;
  }

  lemma StepCloses(c: Config, s: State, e: Event)
    requires Closing(s)
    ensures Closing(Next(c, s, e)) && |Next(c, s, e).workers| == |s.workers|
  {
    hide IsDueList, Claimed, Apply, WorkNext, WorkEnabled;
    if e.Worker? && Enabled(c, s, e) {
      WorkCloses(c, s, e.i, e.work);
    }
  }

  lemma {:induction false} WorkersLeaveLast(c: Config, from: State, r: Run)
    requires Closing(from)
    ensures Closing(Now(c, from, r)) && |Now(c, from, r).workers| == |from.workers|
  {
    if r.Then? {
      WorkersLeaveLast(c, from, r.before);
      StepCloses(c, Now(c, from, r.before), r.e);
    }
  }

  predicate Busy(w: Worker) {
    !w.Waiting? && !w.Exited?
  }

  lemma HolderMoves(c: Config, s: State, i: nat)
    requires i < |s.workers| && (s.workers[i].Delivering? || s.workers[i].Writing? || s.workers[i].Bouncing?)
    ensures exists j: nat, e: Work :: WorkEnabled(c, s, j, e)
  {
    match s.workers[i]
    case Delivering(_) => assert WorkEnabled(c, s, i, Finish(Mailer.Outcome.Ok(""), 0));
    case Writing(_) => assert WorkEnabled(c, s, i, Save(true));
    case Bouncing(_) => assert WorkEnabled(c, s, i, Bounce(true));
  }

  lemma SomeWorkerMoves(c: Config, s: State)
    requires SemsExact(c, s) && Closing(s) && s.workers != []
    requires s.jobs != [] || exists i :: 0 <= i < |s.workers| && Busy(s.workers[i])
    ensures exists j: nat, e: Work :: WorkEnabled(c, s, j, e)
  {
    if i :| 0 <= i < |s.workers| && Busy(s.workers[i]) {
      if !s.workers[i].Got? {
        HolderMoves(c, s, i);
      } else if c.limit <= 0 || s.sems[s.workers[i].item.to] < c.limit {
        assert WorkEnabled(c, s, i, Acquire);
      } else {
        var to := s.workers[i].item.to;
        CountHas(s.workers, ConnectedTo(to));
        var j :| 0 <= j < |s.workers| && ConnectedTo(to)(s.workers[j]);
        HolderMoves(c, s, j);
      }
    } else {
      assert !Busy(s.workers[0]) && !s.workers[0].Exited?;
      assert WorkEnabled(c, s, 0, Take);
    }
  }

  /** In every reachable state in which a worker is busy or a job is queued, some worker can take a step. */
  lemma NoDeadlock(c: Config, rows: Table, lastId: nat, workers: nat, users: set<string>, r: Run)
    requires workers >= 1
    requires var s := Now(c, Initial(rows, lastId, workers, users), r);
             s.jobs != [] || exists i :: 0 <= i < |s.workers| && Busy(s.workers[i])
    ensures exists j: nat, e: Work :: WorkEnabled(c, Now(c, Initial(rows, lastId, workers, users), r), j, e)
  {
    var from := Initial(rows, lastId, workers, users);
    PoolInvariants(c, rows, lastId, workers, users, r);
    SomeWorkerMoves(c, Now(c, from, r));
  }

  lemma PoolInvariants(c: Config, rows: Table, lastId: nat, workers: nat, users: set<string>, r: Run)
    ensures var s := Now(c, Initial(rows, lastId, workers, users), r);
            SemsExact(c, s) && Closing(s) && |s.workers| == workers
  {
    var from := Initial(rows, lastId, workers, users);
    InitialSems(c, rows, lastId, workers, users);
    ConnectionsAreLimited(c, from, r);
    WorkersLeaveLast(c, from, r);
  }

  // ---------- Stopping ----------

  /** The steps the manager takes by itself between two scans. */
  predicate Inner(e: Event) {
    e.ClaimNext? || e.Send? || e.Rest? || e.Halt? || e.Worker?
  }

  /** Stop has returned. */
  ghost predicate Done(s: State) {
    s.dispatcher.Stopped? && forall i :: 0 <= i < |s.workers| ==> s.workers[i].Exited?
  }

  /** Once asked to stop, the manager can in every reachable state go on until it has. */
  lemma StopIsNeverStuck(c: Config, rows: Table, lastId: nat, workers: nat, users: set<string>, r: Run)
    requires workers >= 1 && c.batchSize >= 1
    requires var s := Now(c, Initial(rows, lastId, workers, users), r);
             s.stopping && !Done(s)
    ensures exists e :: Inner(e) && Enabled(c, Now(c, Initial(rows, lastId, workers, users), r), e)
  {
    PoolInvariants(c, rows, lastId, workers, users, r);
    StoppingMoves(c, Now(c, Initial(rows, lastId, workers, users), r));
  }

  lemma StoppingMoves(c: Config, s: State)
    requires SemsExact(c, s) && Closing(s) && s.workers != [] && c.batchSize >= 1
    requires s.stopping && !Done(s)
    ensures exists e :: Inner(e) && Enabled(c, s, e)
  {
    if s.jobs != [] || exists i :: 0 <= i < |s.workers| && Busy(s.workers[i]) {
      SomeWorkerMoves(c, s);
      var j: nat, e: Work :| WorkEnabled(c, s, j, e);
      assert Enabled(c, s, Event.Worker(j, e)) && Inner(Event.Worker(j, e));
    } else {
      match s.dispatcher
      case Idle => assert Enabled(c, s, Halt) && Inner(Halt);
      case Scanning(left) =>
        if left == [] {
          assert Enabled(c, s, Rest) && Inner(Rest);
        } else {
          assert Enabled(c, s, ClaimNext(true)) && Inner(ClaimNext(true));
        }
      case Holding(_, _) => assert Enabled(c, s, Send) && Inner(Send);
      case Stopped =>
        var i :| 0 <= i < |s.workers| && !s.workers[i].Exited?;
        assert !Busy(s.workers[i]);
        assert WorkEnabled(c, s, i, Exit);
        assert Enabled(c, s, Event.Worker(i, Exit)) && Inner(Event.Worker(i, Exit));
    }
  }

  function WorkerLoad(w: Worker): nat {
    match w
    case Exited => 0
    case Waiting => 1
    case Bouncing(_) => 2
    case Writing(_) => 3
    case Delivering(_) => 4
    case Got(_) => 5
  }

  function PoolLoad(workers: seq<Worker>): nat {
    if workers == [] then 0 else PoolLoad(workers[..|workers| - 1]) + WorkerLoad(workers[|workers| - 1])
  }

  function DispatcherLoad(d: Dispatcher): nat {
    match d
    case Stopped => 0
    case Idle => 1
    case Scanning(left) => 2 + 9 * |left|
    case Holding(_, left) => 10 + 9 * |left|
  }

  /** An upper bound on the steps left to take. */
  function Load(s: State): nat {
    DispatcherLoad(s.dispatcher) + 7 * |s.jobs| + PoolLoad(s.workers)
  }

  lemma {:induction false} LoadUpdate(workers: seq<Worker>, i: nat, w: Worker)
    requires i < |workers|
    ensures PoolLoad(workers[i := w]) + WorkerLoad(workers[i]) == PoolLoad(workers) + WorkerLoad(w)
  {
    var k := |workers| - 1;
    if i < k {
      LoadUpdate(workers[..k], i, w);
      assert workers[i := w][..k] == workers[..k][i := w];
    } else {
      assert workers[i := w][..k] == workers[..k];
    }
  }

  lemma StepSpendsLoad(c: Config, s: State, e: Event)
    requires Inner(e) && Enabled(c, s, e)
    ensures Load(Next(c, s, e)) < Load(s)
  {
    hide PoolLoad, Claimed, WorkNext, WorkEnabled;
    if e.Worker? {
      WorkSpendsLoad(c, s, e.i, e.work);
    }
  }

  lemma WorkSpendsLoad(c: Config, s: State, i: nat, e: Work)
    requires WorkEnabled(c, s, i, e)
    ensures Load(WorkNext(c, s, i, e)) < Load(s)
  {
    hide PoolLoad, Settled, SemsAfter, RowsAfter;
    LoadUpdate(s.workers, i, WorkerAfter(c, s.jobs, s.workers[i], e));
  }

  function Steps(r: Run): nat {
    if r.Start? then 0 else Steps(r.before) + 1
  }

  /** Every event is one of the manager's own, and enabled when it comes. */
  ghost predicate InnerRun(c: Config, from: State, r: Run) {
    r.Then? ==> InnerRun(c, from, r.before) && Inner(r.e) && Enabled(c, Now(c, from, r.before), r.e)
  }

  /** Left to itself between scans the manager comes to rest: it takes at most as many steps as its load. */
  lemma {:induction false} InnerRunsEnd(c: Config, from: State, r: Run)
    requires InnerRun(c, from, r)
    ensures Load(Now(c, from, r)) + Steps(r) <= Load(from)
  {
    if r.Then? {
      InnerRunsEnd(c, from, r.before);
      StepSpendsLoad(c, Now(c, from, r.before), r.e);
    }
  }
}
