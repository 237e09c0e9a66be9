/** What each step of the queue writes into the rows, and the order in which claimed messages reach the workers. */
module OutboundOrder {
  import Mailer
  import opened OutboundMachine
  import opened OutboundManager
  import opened OutboundQueue
  import opened Wrappers

  // ---------- What a step writes ----------

  /** The step writes to a row of this id. */
  predicate Writes(s: State, e: Event, id: nat) {
    match e
    case Enqueue(_, _, _, _) => id == s.lastId + 1
    case ClaimNext(ok) => ok && s.dispatcher.Scanning? && s.dispatcher.left != [] && s.dispatcher.left[0].id == id && Claimable(s.rows, id)
    case Worker(i, Save(ok)) => ok && i < |s.workers| && s.workers[i].Writing? && s.workers[i].item.id == id
    case AdminWrite(a, _, ok) => ok && a in s.admins && s.admins[a].1.id == id
    case Admin(_, read, _, ok) => ok && read in s.rows && s.rows[read].id == id
    case _ => false
  }

  /** No step touches a row but the one it writes: new messages, claims, write-backs and administrators' changes. */
  lemma OthersStay(c: Config, s: State, e: Event, id: nat)
    requires !Writes(s, e, id)
    ensures id in Next(c, s, e).rows <==> id in s.rows
    ensures id in s.rows ==> Next(c, s, e).rows[id] == s.rows[id]
  {
    hide IsDueList, Settled, WorkNext, WorkEnabled;
    if e.Worker? && Enabled(c, s, e) {
      WorkRows(c, s, e.i, e.work);
    }
  }

  /** Of a worker's steps the saving alone touches the rows. */
  lemma WorkRows(c: Config, s: State, i: nat, e: Work)
    requires WorkEnabled(c, s, i, e)
    ensures WorkNext(c, s, i, e).rows == if e.Save? && e.ok then s.rows[s.workers[i].item.id := s.workers[i].item] else s.rows
    ensures i < |s.workers| && (e.Save? ==> s.workers[i].Writing?)
    ensures WorkNext(c, s, i, e).workers == s.workers[i := WorkerAfter(c, s.jobs, s.workers[i], e)]
    ensures WorkNext(c, s, i, e).dispatcher == s.dispatcher
    ensures WorkNext(c, s, i, e).jobs == if e.Take? then s.jobs[1..] else s.jobs
  {
    hide SemsAfter, WorkerAfter, Settled;
  }

  /** A message handed in is due at once, has no attempt behind it and keeps its addresses and its text. */
  lemma EnqueuedIsDue(c: Config, s: State, from: string, to: string, raw: string, now: int)
    requires TableGood(c, s.rows, s.lastId)
    ensures var after, id := Next(c, s, Enqueue(from, to, raw, now)), s.lastId + 1;
            && id !in s.rows && id in after.rows && after.lastId == id
            && var row := after.rows[id];
            && row.id == id && row.from == from && row.to == to && row.raw == raw
            && row.status.Pending? && row.attempts == 0 && row.nextAttemptAt == now && row.completedAt == None
            && forall t :: Due(row, t) <==> now <= t
  {
  }

  /** A claim changes the status alone, from pending or deferred to sending, and the copy handed on is the one scanned. */
  lemma ClaimMarks(c: Config, s: State, id: nat)
    requires Writes(s, ClaimNext(true), id)
    ensures var after := Next(c, s, ClaimNext(true));
            && (s.rows[id].status.Pending? || s.rows[id].status.Deferred?)
            && id in after.rows && after.rows[id].status.Sending? && after.rows[id].(status := s.rows[id].status) == s.rows[id]
            && after.dispatcher.Holding? && after.dispatcher.item.status.Sending?
            && after.dispatcher.item.(status := s.dispatcher.left[0].status) == s.dispatcher.left[0]
            && after.dispatcher.left == s.dispatcher.left[1..]
  {
  }

  /** A worker's message from its delivery to its row: one attempt more, the outcome's status, saved as settled. */
  lemma DeliveryIsSaved(c: Config, s: State, i: nat, out: Mailer.Outcome, now: int)
    requires i < |s.workers| && s.workers[i].Delivering?
    ensures var item, s2 := s.workers[i].item, Next(c, Next(c, s, Worker(i, Finish(out, now))), Worker(i, Save(true)));
            && item.id in s2.rows
            && var row := s2.rows[item.id];
            && row.attempts == item.attempts + 1 && row.from == item.from && row.to == item.to && row.raw == item.raw
            && (row.status.Sent? <==> out.Ok?)
            && (row.status.Failed? <==> out.Err? && (out.error.permanent || item.attempts + 1 >= c.maxAttempts))
            && (row.status.Deferred? <==> out.Err? && !out.error.permanent && item.attempts + 1 < c.maxAttempts)
            && (row.completedAt == Some(now) || row.status.Deferred?)
            && (s2.workers[i].Bouncing? <==> row.status.Failed?)
  {
    var item, row := s.workers[i].item, Settled(c, s.workers[i].item, out, now);
    AttemptWrites(c, item, out, now);
    WorkRows(c, s, i, Finish(out, now));
    hide Settled, WorkNext, IsDueList;
    var s1 := Next(c, s, Worker(i, Finish(out, now)));
    assert s1.workers[i] == Writing(row);
    WorkRows(c, s1, i, Save(true));
    var s2 := Next(c, s1, Worker(i, Save(true)));
    assert s2.rows[item.id] == row;
  }

  // ---------- First claimed, first taken ----------

  /** What a step from `s` to `after` claims: at most one message. */
  function ClaimedBy(s: State, e: Event, after: State): seq<Item> {
    if e.ClaimNext? && s.dispatcher.Scanning? && after.dispatcher.Holding? then [after.dispatcher.item] else []
  }

  /** What it hands to a worker: at most one message. */
  function TakenBy(s: State, e: Event, after: State): seq<Item> {
    if e.Worker? && e.work.Take? && e.i < |s.workers| && e.i < |after.workers| && s.workers[e.i].Waiting? && after.workers[e.i].Got?
    then [after.workers[e.i].item] else []
  }

  /** The messages claimed in a run, in order. */
  ghost function ClaimOrder(c: Config, from: State, r: Run): seq<Item> {
    if r.Start? then [] else ClaimOrder(c, from, r.before) + ClaimedBy(Now(c, from, r.before), r.e, Now(c, from, r))
  }

  /** The messages the workers took from the channel, in order. */
  ghost function TakeOrder(c: Config, from: State, r: Run): seq<Item> {
    if r.Start? then [] else TakeOrder(c, from, r.before) + TakenBy(Now(c, from, r.before), r.e, Now(c, from, r))
  }

  /** Claimed, and not with the workers yet. */
  function OnTheWay(s: State): seq<Item> {
    s.jobs + if s.dispatcher.Holding? then [s.dispatcher.item] else []
  }

  lemma WorkMoves(c: Config, s: State, i: nat, e: Work)
    requires WorkEnabled(c, s, i, e)
    ensures TakenBy(s, Worker(i, e), WorkNext(c, s, i, e)) + OnTheWay(WorkNext(c, s, i, e)) == OnTheWay(s)
  {
    WorkRows(c, s, i, e);
    hide WorkNext, Settled;
    if e.Take? {
      assert s.jobs == [s.jobs[0]] + s.jobs[1..];
    }
  }

  lemma StepMoves(c: Config, s: State, e: Event)
    ensures var after := Next(c, s, e);
            TakenBy(s, e, after) + OnTheWay(after) == OnTheWay(s) + ClaimedBy(s, e, after)
  {
    hide IsDueList, Apply, Claimed, Claimable, WorkNext, WorkEnabled;
    if e.Worker? && Enabled(c, s, e) {
      WorkMoves(c, s, e.i, e.work);
      hide OnTheWay;
    }
  }

  lemma Regroup<T>(a: seq<T>, b: seq<T>, c: seq<T>, d: seq<T>, e: seq<T>)
    requires d + e == b + c
    ensures (a + b) + c == (a + d) + e
  {
    assert (a + b) + c == a + (b + c) && (a + d) + e == a + (d + e);
  }

  /** Under every interleaving the workers take the messages in the order claimed; what is claimed and not taken is on its way. */
  lemma {:induction false} FirstClaimedFirstTaken(c: Config, from: State, r: Run)
    requires OnTheWay(from) == []
    ensures ClaimOrder(c, from, r) == TakeOrder(c, from, r) + OnTheWay(Now(c, from, r))
  {
    hide Next, OnTheWay, ClaimedBy, TakenBy;
    if r.Then? {
      FirstClaimedFirstTaken(c, from, r.before);
      var s, after, taken := Now(c, from, r.before), Now(c, from, r), TakeOrder(c, from, r.before);
      StepMoves(c, s, r.e);
      assert after == Next(c, s, r.e);
      Regroup(taken, OnTheWay(s), ClaimedBy(s, r.e, after), TakenBy(s, r.e, after), OnTheWay(after));
    }
  }
}
