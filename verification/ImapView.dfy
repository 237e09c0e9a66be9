/** Sessions that have one mailbox selected, its message list, and their update queues; every command is one step. */
module ImapView {
  import opened ExpungeReplay
  import opened ImapQueue
  import opened Wrappers

  /**
   `view` is the client's table after everything written to it, `known` how many arrivals it has been
   told of, `queue` what is pending for it.
   */
  datatype Client = Client(view: seq<nat>, known: nat, queue: seq<Update>)

  /** `list` is the mailbox in id order, `arrivals` every message that ever entered it, in id order. */
  datatype State = State(list: seq<nat>, arrivals: seq<nat>, clients: map<nat, Client>)

  const INITIAL := State([], [], map[])

  /**
   `Arrive` is a delivery, an APPEND or a COPY; `Remove` an EXPUNGE, MOVE out or purge, by a session or from
   outside; `Remark` a flag change.
   */
  datatype Event =
    | Arrive(ids: seq<nat>)
    | Remove(actor: Option<nat>, ps: seq<nat>)
    | Remark(actor: Option<nat>, pos: nat, flags: seq<Flag>)
    | Poll(who: nat, allowExpunge: bool)
    | Select(who: nat)
    | Unselect(who: nat)

  predicate Acts(s: State, actor: Option<nat>) {
    actor.Some? ==> actor.value in s.clients
  }

  ghost predicate Enabled(s: State, e: Event) {
    match e
    case Arrive(ids) => Ascending(s.arrivals + ids)
    case Remove(actor, ps) => Acts(s, actor) && Positions(ps, |s.list|)
    case Remark(actor, pos, _) => Acts(s, actor) && 1 <= pos <= |s.list|
    case Poll(who, _) => who in s.clients
    case Select(who) => who !in s.clients
    case Unselect(who) => who in s.clients
  }

  function Expunges(ps: seq<nat>): (us: seq<Update>)
    ensures |us| == |ps| && forall i :: 0 <= i < |ps| ==> us[i] == Update.Expunge(ps[i])
  {
    seq(|ps|, i requires 0 <= i < |ps| => Update.Expunge(ps[i]))
  }

  /** Appends updates to every queue but the actor's. */
  function Push(clients: map<nat, Client>, us: seq<Update>, actor: Option<nat>): map<nat, Client> {
    map c | c in clients :: if actor == Some(c) then clients[c] else clients[c].(queue := clients[c].queue + us)
  }

  /** The acting client reads its own EXPUNGE responses as they are written. */
  function Tell(clients: map<nat, Client>, ps: seq<nat>, actor: Option<nat>): map<nat, Client> {
    if actor.None? || actor.value !in clients || Replay(clients[actor.value].view, ps).None? then clients
    else clients[actor.value := clients[actor.value].(view := Replay(clients[actor.value].view, ps).value)]
  }

  // ---------- The client ----------

  /** One update read by a client: a larger EXISTS stands for the next arrivals it has not seen. */
  function Read(view: seq<nat>, known: nat, u: Update, arrivals: seq<nat>): Option<(seq<nat>, nat)> {
    match u
    case Expunge(p) => if 1 <= p <= |view| then Some((RemoveAt(view, p), known)) else None
    case Exists(count) =>
      if |view| <= count && known + (count - |view|) <= |arrivals| then
        Some((view + arrivals[known..known + (count - |view|)], known + (count - |view|)))
      else None
    case Fetch(p, uid, _) => if 1 <= p <= |view| && view[p - 1] == uid then Some((view, known)) else None
  }

  function ReadAll(view: seq<nat>, known: nat, us: seq<Update>, arrivals: seq<nat>): Option<(seq<nat>, nat)>
    decreases |us|
  {
    if us == [] then Some((view, known))
    else
      match Read(view, known, us[0], arrivals)
      case None => None
      case Some((view', known')) => ReadAll(view', known', us[1..], arrivals)
  }

  /** One step; an event that is not enabled leaves the state as it is. */
  ghost function Next(s: State, e: Event): State {
    if !Enabled(s, e) then s else
    match e
    case Arrive(ids) =>
      var list := s.list + ids;
      State(list, s.arrivals + ids, Push(s.clients, [Exists(|list|)], None))
    case Remove(actor, ps) =>
      State(Survivors(s.list, ps), s.arrivals, Push(Tell(s.clients, ps, actor), Expunges(ps), actor))
    case Remark(actor, pos, flags) =>
      s.(clients := Push(s.clients, [Fetch(pos, s.list[pos - 1], flags)], actor))
    case Poll(who, allow) =>
      var c := s.clients[who];
      var read := ReadAll(c.view, c.known, Taken(c.queue, allow), s.arrivals);
      if read.None? then s
      else s.(clients := s.clients[who := Client(read.value.0, read.value.1, Left(c.queue, allow))])
    case Select(who) => s.(clients := s.clients[who := Client(s.list, |s.arrivals|, [])])
    case Unselect(who) => s.(clients := s.clients - {who})
  }

  // ---------- Convergence ----------

  /** Reading the rest of its queue, this client ends with exactly the server's list. */
  ghost predicate CatchesUp(s: State, c: Client) {
    ReadAll(c.view, c.known, c.queue, s.arrivals) == Some((s.list, |s.arrivals|))
  }

  ghost predicate Converges(s: State) {
    forall who :: who in s.clients ==> CatchesUp(s, s.clients[who])
  }

  /** A removal takes at most one message, and a removing session has nothing pending itself. */
  ghost predicate Tame(s: State, e: Event) {
    e.Remove? ==> |e.ps| <= 1 && (e.actor.Some? && e.actor.value in s.clients ==> s.clients[e.actor.value].queue == [])
  }

  lemma {:induction false} ReadAppend(view: seq<nat>, known: nat, a: seq<Update>, b: seq<Update>, arrivals: seq<nat>)
    ensures ReadAll(view, known, a + b, arrivals)
            == match ReadAll(view, known, a, arrivals)
               case None => None
               case Some((v, k)) => ReadAll(v, k, b, arrivals)
    decreases |a|
  {
    if a == [] {
      assert a + b == b;
    } else {
      assert (a + b)[1..] == a[1..] + b;
      match Read(view, known, a[0], arrivals)
      case None =>
      case Some((v, k)) => ReadAppend(v, k, a[1..], b, arrivals);
    }
  }

  lemma {:induction false} ReadWithMoreArrivals(view: seq<nat>, known: nat, us: seq<Update>, arrivals: seq<nat>, more: seq<nat>)
    requires ReadAll(view, known, us, arrivals).Some?
    ensures ReadAll(view, known, us, arrivals + more) == ReadAll(view, known, us, arrivals)
    decreases |us|
  {
    if us != [] {
      var (v, k) := Read(view, known, us[0], arrivals).value;
      if us[0].Exists? {
        assert (arrivals + more)[known..k] == arrivals[known..k];
      }
      assert Read(view, known, us[0], arrivals + more) == Some((v, k));
      ReadWithMoreArrivals(v, k, us[1..], arrivals, more);
    }
  }

  lemma {:induction false} ReadExpunges(view: seq<nat>, known: nat, ps: seq<nat>, arrivals: seq<nat>)
    ensures ReadAll(view, known, Expunges(ps), arrivals)
            == match Replay(view, ps) case None => None case Some(v) => Some((v, known))
    decreases |ps|
  {
    if ps != [] {
      assert Expunges(ps)[1..] == Expunges(ps[1..]);
      if 1 <= ps[0] <= |view| {
        ReadExpunges(RemoveAt(view, ps[0]), known, ps[1..], arrivals);
      }
    }
  }

  lemma AtMostOneReplays(view: seq<nat>, ps: seq<nat>)
    requires Positions(ps, |view|) && |ps| <= 1
    ensures Replay(view, ps) == Some(Survivors(view, ps))
  {
    DescendingReplay(view, ps);
    assert Reversed(ps) == ps;
  }

  /** Updates that lead from the old list to the new one keep a client that would have caught up catching up. */
  lemma PushedClient(s: State, s': State, c: Client, us: seq<Update>)
    requires CatchesUp(s, c) && s.arrivals <= s'.arrivals
    requires ReadAll(s.list, |s.arrivals|, us, s'.arrivals) == Some((s'.list, |s'.arrivals|))
    ensures CatchesUp(s', c.(queue := c.queue + us))
  {
    var more := s'.arrivals[|s.arrivals|..];
    assert s'.arrivals == s.arrivals + more;
    ReadWithMoreArrivals(c.view, c.known, c.queue, s.arrivals, more);
    ReadAppend(c.view, c.known, c.queue, us, s'.arrivals);
  }

  lemma StepConverges(s: State, e: Event)
    requires Converges(s) && Tame(s, e)
    ensures Converges(Next(s, e))
  {
    hide ReadAll;
    var s' := Next(s, e);
    if Enabled(s, e) {
      forall who | who in s'.clients ensures CatchesUp(s', s'.clients[who]) {
        match e
        case Arrive(ids) => ArriveConverges(s, ids, who);
        case Remove(actor, ps) => RemoveConverges(s, actor, ps, who);
        case Remark(actor, pos, flags) => RemarkConverges(s, actor, pos, flags, who);
        case Poll(polled, allow) => PollConverges(s, polled, allow, who);
        case Select(joined) => SelectConverges(s, joined, who);
        case Unselect(left) =>
      }
    }
  }

  lemma ArriveConverges(s: State, ids: seq<nat>, who: nat)
    requires Converges(s) && Enabled(s, Arrive(ids)) && who in s.clients
    ensures var s' := Next(s, Arrive(ids));
            CatchesUp(s', s'.clients[who])
  {
    var s' := Next(s, Arrive(ids));
    var u := Exists(|s'.list|);
    assert s'.arrivals[|s.arrivals|..|s'.arrivals|] == ids;
    assert Read(s.list, |s.arrivals|, u, s'.arrivals) == Some((s'.list, |s'.arrivals|));
    ReadOne(s.list, |s.arrivals|, u, s'.arrivals);
    PushedClient(s, s', s.clients[who], [u]);
  }

  lemma ReadOne(view: seq<nat>, known: nat, u: Update, arrivals: seq<nat>)
    ensures ReadAll(view, known, [u], arrivals) == Read(view, known, u, arrivals)
  {
    assert [u][1..] == [];
  }

  lemma RemoveConverges(s: State, actor: Option<nat>, ps: seq<nat>, who: nat)
    requires Converges(s) && Enabled(s, Remove(actor, ps)) && Tame(s, Remove(actor, ps)) && who in s.clients
    ensures var s' := Next(s, Remove(actor, ps));
            CatchesUp(s', s'.clients[who])
  {
    var s' := Next(s, Remove(actor, ps));
    AtMostOneReplays(s.list, ps);
    if actor == Some(who) {
      assert s.clients[who] == Client(s.list, |s.arrivals|, []);
    } else {
      ReadExpunges(s.list, |s.arrivals|, ps, s.arrivals);
      PushedClient(s, s', s.clients[who], Expunges(ps));
    }
  }

  lemma RemarkConverges(s: State, actor: Option<nat>, pos: nat, flags: seq<Flag>, who: nat)
    requires Converges(s) && Enabled(s, Remark(actor, pos, flags)) && who in s.clients
    ensures var s' := Next(s, Remark(actor, pos, flags));
            CatchesUp(s', s'.clients[who])
  {
    var s' := Next(s, Remark(actor, pos, flags));
    if actor != Some(who) {
      var u := Fetch(pos, s.list[pos - 1], flags);
      ReadOne(s.list, |s.arrivals|, u, s.arrivals);
      PushedClient(s, s', s.clients[who], [u]);
    }
  }

  lemma PollConverges(s: State, polled: nat, allow: bool, who: nat)
    requires Converges(s) && polled in s.clients && who in s.clients
    ensures var s' := Next(s, Event.Poll(polled, allow));
            CatchesUp(s', s'.clients[who])
  {
    hide ReadAll;
    var c := s.clients[polled];
    assert CatchesUp(s, c);
    TakenIsLongest(c.queue, allow);
    ReadAppend(c.view, c.known, Taken(c.queue, allow), Left(c.queue, allow), s.arrivals);
  }

  lemma SelectConverges(s: State, joined: nat, who: nat)
    requires Converges(s) && joined !in s.clients && (who in s.clients || who == joined)
    ensures var s' := Next(s, Select(joined));
            CatchesUp(s', s'.clients[who])
  {
  }

  /** Events in any order, the latest last. */
  datatype Run = Start | Then(before: Run, e: Event)

  ghost function Now(r: Run): State {
    if r.Start? then INITIAL else Next(Now(r.before), r.e)
  }

  ghost predicate TameRun(r: Run) {
    r.Then? ==> TameRun(r.before) && Tame(Now(r.before), r.e)
  }

  /**
   In every reachable state every session that reads its remaining queue ends with exactly the server's
   id-ordered list, each EXPUNGE and FETCH naming the right message on the way.
   */
  lemma {:induction false} ViewsConverge(r: Run)
    requires TameRun(r)
    ensures Converges(Now(r))
  {
    if r.Then? {
      ViewsConverge(r.before);
      StepConverges(Now(r.before), r.e);
    }
  }

  /** Removing several messages in one command breaks every other session, and the acting one too. */
  lemma ManyRemovedDiverges(s: State, actor: Option<nat>, ps: seq<nat>, who: nat)
    requires Converges(s) && Distinct(s.list) && Enabled(s, Remove(actor, ps)) && |ps| >= 2 && who in s.clients
    requires actor == Some(who) ==> s.clients[who].queue == []
    ensures var s' := Next(s, Remove(actor, ps));
            !CatchesUp(s', s'.clients[who])
  {
    var s' := Next(s, Remove(actor, ps));
    var c := s.clients[who];
    AscendingReplayIff(s.list, ps);
    if actor == Some(who) {
      assert c == Client(s.list, |s.arrivals|, []);
      if Replay(s.list, ps).None? {
        FewerSurvive(s.list, ps);
      }
    } else {
      ReadExpunges(s.list, |s.arrivals|, ps, s.arrivals);
      ReadAppend(c.view, c.known, c.queue, Expunges(ps), s.arrivals);
    }
  }

  lemma {:induction false} FewerSurvive(view: seq<nat>, ps: seq<nat>)
    requires Positions(ps, |view|)
    ensures |Survivors(view, ps)| == |view| - |ps|
  {
    if view != [] {
      if ps != [] && ps[|ps| - 1] == |view| {
        FewerSurvive(view[..|view| - 1], ps[..|ps| - 1]);
      } else {
        FewerSurvive(view[..|view| - 1], ps);
      }
    }
  }

  ghost predicate Ordered(s: State) {
    && Ascending(s.arrivals) && Ascending(s.list)
    && (s.list != [] ==> s.arrivals != [] && s.list[|s.list| - 1] <= s.arrivals[|s.arrivals| - 1])
  }

  lemma AppendOrdered(list: seq<nat>, arrivals: seq<nat>, ids: seq<nat>)
    requires Ascending(list) && Ascending(arrivals + ids)
    requires list != [] ==> arrivals != [] && list[|list| - 1] <= arrivals[|arrivals| - 1]
    ensures Ascending(list + ids)
  {
    var a := arrivals + ids;
    forall i, j | 0 <= i < j < |list + ids| ensures (list + ids)[i] < (list + ids)[j] {
      if |list| <= j {
        assert (list + ids)[j] == a[|arrivals| + (j - |list|)];
        if i < |list| {
          assert list[i] <= list[|list| - 1] <= a[|arrivals| - 1];
        } else {
          assert (list + ids)[i] == a[|arrivals| + (i - |list|)];
        }
      }
    }
  }

  lemma StepOrdered(s: State, e: Event)
    requires Ordered(s)
    ensures Ordered(Next(s, e))
  {
    hide Survivors, ReadAll, Replay, Push, Tell;
    if Enabled(s, e) {
      if e.Arrive? {
        AppendOrdered(s.list, s.arrivals, e.ids);
      } else if e.Remove? {
        SurvivorsOrdered(s.list, e.ps);
      } else {
        assert Next(s, e).list == s.list && Next(s, e).arrivals == s.arrivals;
      }
    }
  }

  /** The list is in strict id order in every reachable state. */
  lemma {:induction false} ListStaysOrdered(r: Run)
    ensures Ordered(Now(r))
  {
    if r.Then? {
      ListStaysOrdered(r.before);
      StepOrdered(Now(r.before), r.e);
    }
  }

  /** From any reachable state with a session listening, a removal keeps the views converging exactly when it takes at most one message. */
  lemma RemovalConvergesIff(r: Run, actor: Option<nat>, ps: seq<nat>)
    requires TameRun(r) && Enabled(Now(r), Remove(actor, ps)) && Now(r).clients != map[]
    requires actor.Some? ==> Now(r).clients[actor.value].queue == []
    ensures Converges(Next(Now(r), Remove(actor, ps))) <==> |ps| <= 1
  {
    var s := Now(r);
    ViewsConverge(r);
    ListStaysOrdered(r);
    if |ps| <= 1 {
      StepConverges(s, Remove(actor, ps));
    } else {
      var who :| who in s.clients;
      ManyRemovedDiverges(s, actor, ps, who);
      assert who in Next(s, Remove(actor, ps)).clients;
    }
  }

  // ---------- Views are in id order ----------

  /** The view is in id order and holds nothing beyond the arrivals known of. */
  ghost predicate Sorted(s: State, c: Client) {
    && Ascending(c.view) && c.known <= |s.arrivals|
    && (c.view != [] ==> c.known > 0 && c.view[|c.view| - 1] <= s.arrivals[c.known - 1])
  }

  ghost predicate SortedView(view: seq<nat>, known: nat, arrivals: seq<nat>) {
    Sorted(State([], arrivals, map[]), Client(view, known, []))
  }

  lemma RemoveSorts(view: seq<nat>, p: nat, known: nat, arrivals: seq<nat>)
    requires SortedView(view, known, arrivals) && 1 <= p <= |view|
    ensures SortedView(RemoveAt(view, p), known, arrivals)
  {
    RemovedIndex(view, p);
    hide RemoveAt;
  }

  lemma {:induction false} ReplaySorts(view: seq<nat>, ps: seq<nat>, known: nat, arrivals: seq<nat>)
    requires SortedView(view, known, arrivals) && Replay(view, ps).Some?
    ensures SortedView(Replay(view, ps).value, known, arrivals)
    decreases |ps|
  {
    if ps != [] {
      RemoveSorts(view, ps[0], known, arrivals);
      ReplaySorts(RemoveAt(view, ps[0]), ps[1..], known, arrivals);
    }
  }

  lemma ReadSorts(view: seq<nat>, known: nat, u: Update, arrivals: seq<nat>)
    requires SortedView(view, known, arrivals) && Ascending(arrivals) && Read(view, known, u, arrivals).Some?
    ensures SortedView(Read(view, known, u, arrivals).value.0, Read(view, known, u, arrivals).value.1, arrivals)
  {
    if u.Expunge? {
      RemoveSorts(view, u.pos, known, arrivals);
    } else if u.Exists? {
      var more := arrivals[known..known + (u.count - |view|)];
      forall i, j | 0 <= i < j < |view + more| ensures (view + more)[i] < (view + more)[j] {
        if i < |view| <= j {
          assert view[i] <= view[|view| - 1] <= arrivals[known - 1] < more[j - |view|];
        }
      }
    }
  }

  lemma {:induction false} ReadAllSorts(view: seq<nat>, known: nat, us: seq<Update>, arrivals: seq<nat>)
    requires SortedView(view, known, arrivals) && Ascending(arrivals) && ReadAll(view, known, us, arrivals).Some?
    ensures SortedView(ReadAll(view, known, us, arrivals).value.0, ReadAll(view, known, us, arrivals).value.1, arrivals)
    decreases |us|
  {
    if us != [] {
      ReadSorts(view, known, us[0], arrivals);
      var (v, k) := Read(view, known, us[0], arrivals).value;
      hide SortedView;
      ReadAllSorts(v, k, us[1..], arrivals);
    }
  }

  ghost predicate AllSorted(s: State) {
    forall who :: who in s.clients ==> Sorted(s, s.clients[who])
  }

  lemma MoreArrivalsSorted(s: State, s': State, c: Client, c': Client)
    requires Sorted(s, c) && s.arrivals <= s'.arrivals && c'.view == c.view && c'.known == c.known
    ensures Sorted(s', c')
  {
    assert forall i :: 0 <= i < |s.arrivals| ==> s'.arrivals[i] == s.arrivals[i];
  }

  lemma RemoveKeepsSorted(s: State, actor: Option<nat>, ps: seq<nat>, who: nat)
    requires AllSorted(s) && Enabled(s, Remove(actor, ps)) && who in s.clients
    ensures var s' := Next(s, Remove(actor, ps));
            who in s'.clients && Sorted(s', s'.clients[who])
  {
    hide Replay, ReadAll, Survivors;
    var c := s.clients[who];
    assert Sorted(s, c);
    if actor == Some(who) && Replay(c.view, ps).Some? {
      ReplaySorts(c.view, ps, c.known, s.arrivals);
    }
  }

  lemma PollKeepsSorted(s: State, polled: nat, allow: bool, who: nat)
    requires Ordered(s) && AllSorted(s) && polled in s.clients && who in s.clients
    ensures var s' := Next(s, Event.Poll(polled, allow));
            who in s'.clients && Sorted(s', s'.clients[who])
  {
    hide ReadAll, Taken, Left;
    var c := s.clients[polled];
    assert Sorted(s, c) && Sorted(s, s.clients[who]);
    hide Ascending;
    if ReadAll(c.view, c.known, Taken(c.queue, allow), s.arrivals).Some? {
      ReadAllSorts(c.view, c.known, Taken(c.queue, allow), s.arrivals);
    }
  }

  lemma StepSorted(s: State, e: Event, who: nat)
    requires Ordered(s) && AllSorted(s) && Enabled(s, e) && who in Next(s, e).clients
    ensures Sorted(Next(s, e), Next(s, e).clients[who])
  {
    match e
    case Remove(actor, ps) => RemoveKeepsSorted(s, actor, ps, who);
    case Poll(polled, allow) => PollKeepsSorted(s, polled, allow, who);
    case _ => QuietSorted(s, e, who);
  }

  lemma QuietSorted(s: State, e: Event, who: nat)
    requires Ordered(s) && AllSorted(s) && Enabled(s, e) && who in Next(s, e).clients && !e.Remove? && !e.Poll?
    ensures Sorted(Next(s, e), Next(s, e).clients[who])
  {
    if !e.Select? || e.who != who {
      hide Sorted;
      assert who in s.clients && Sorted(s, s.clients[who]);
      MoreArrivalsSorted(s, Next(s, e), s.clients[who], Next(s, e).clients[who]);
    }
  }

  /** In every reachable state each session's view is in strict id order. */
  lemma {:induction false} ViewsStaySorted(r: Run)
    ensures AllSorted(Now(r))
  {
    if r.Then? {
      ViewsStaySorted(r.before);
      ListStaysOrdered(r.before);
      var s := Now(r.before);
      if Enabled(s, r.e) {
        forall who | who in Next(s, r.e).clients ensures Sorted(Next(s, r.e), Next(s, r.e).clients[who]) {
          StepSorted(s, r.e, who);
        }
      }
    }
  }

  // ---------- What a client sees ----------

  /** In every state a tame run reaches, a poll that allows EXPUNGE shows the client the list of the server, and leaves nothing pending. */
  lemma PollShowsTheList(r: Run, who: nat)
    requires TameRun(r) && who in Now(r).clients
    ensures var s, after := Now(r), Next(Now(r), Event.Poll(who, true));
            && after.clients.Keys == s.clients.Keys
            && after.clients[who] == Client(s.list, |s.arrivals|, [])
            && after.list == s.list && after.arrivals == s.arrivals
  {
    ViewsConverge(r);
    hide ReadAll;
  }

  /** A poll that does not allow it shows what stands before the first EXPUNGE; the rest stays pending in its order. */
  lemma BarredPollShowsAPart(r: Run, who: nat)
    requires TameRun(r) && who in Now(r).clients
    ensures var s, c, after := Now(r), Now(r).clients[who], Next(Now(r), Event.Poll(who, false));
            exists k: nat :: k <= |c.queue| && (forall i :: 0 <= i < k ==> !c.queue[i].Expunge?)
              && (k < |c.queue| ==> c.queue[k].Expunge?)
              && who in after.clients && after.clients[who].queue == c.queue[k..]
              && ReadAll(c.view, c.known, c.queue[..k], s.arrivals) == Some((after.clients[who].view, after.clients[who].known))
  {
    ViewsConverge(r);
    FirstExpunge(Now(r).clients[who].queue);
    PartIsRead(Now(r), who, UntilExpunge(Now(r).clients[who].queue));
    hide *;
  }

  lemma PartIsRead(s: State, who: nat, k: nat)
    requires who in s.clients && CatchesUp(s, s.clients[who]) && k == UntilExpunge(s.clients[who].queue)
    ensures var c, after := s.clients[who], Next(s, Event.Poll(who, false));
            && k <= |c.queue| && who in after.clients && after.clients[who].queue == c.queue[k..]
            && ReadAll(c.view, c.known, c.queue[..k], s.arrivals) == Some((after.clients[who].view, after.clients[who].known))
  {
    var c := s.clients[who];
    assert c.queue[..k] + c.queue[k..] == c.queue;
    ReadAppend(c.view, c.known, c.queue[..k], c.queue[k..], s.arrivals);
    hide ReadAll, UntilExpunge;
  }

  /** What arrives stands at the end of the list, and what is removed is what stood at the positions. */
  lemma ListIs(s: State, e: Event, id: nat)
    requires Enabled(s, e)
    ensures e.Arrive? ==> Next(s, e).list == s.list + e.ids
    ensures e.Remove? ==> (id in Next(s, e).list <==> exists k: nat :: k < |s.list| && s.list[k] == id && Kept(e.ps, k))
    ensures !e.Arrive? && !e.Remove? ==> Next(s, e).list == s.list
  {
    if e.Remove? {
      SurvivorsAre(s.list, e.ps);
    }
  }
}
