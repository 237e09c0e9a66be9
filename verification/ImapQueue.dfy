/**
 The pending-update queue of an IMAP session, the hub that fans updates out to the sessions
 of one mailbox, and the wake-up protocol of IDLE.
 */
module ImapQueue {
  import opened Wrappers

  datatype Flag = Seen | Flagged | Deleted | Answered | Draft | Keyword(name: string)

  datatype Update =
    | Expunge(pos: nat)
    | Exists(count: nat)
    | Fetch(pos: nat, uid: nat, flags: seq<Flag>)

  // ---------- Taking from the queue ----------

  function UntilExpunge(q: seq<Update>): (n: nat)
    ensures n <= |q|
  {
    if q == [] || q[0].Expunge? then 0 else 1 + UntilExpunge(q[1..])
  }

  /** What a poll writes out. */
  function Taken(q: seq<Update>, allowExpunge: bool): seq<Update> {
    if allowExpunge then q else q[..UntilExpunge(q)]
  }

  function Left(q: seq<Update>, allowExpunge: bool): seq<Update> {
    if allowExpunge then [] else q[UntilExpunge(q)..]
  }

  lemma {:induction false} FirstExpunge(q: seq<Update>)
    ensures var n := UntilExpunge(q);
            (forall i :: 0 <= i < n ==> !q[i].Expunge?) && (n < |q| ==> q[n].Expunge?)
  {
    if q != [] && !q[0].Expunge? {
      FirstExpunge(q[1..]);
    }
  }

  /** A poll takes the longest beginning it may: where EXPUNGE is barred, up to the first one. */
  lemma TakenIsLongest(q: seq<Update>, allowExpunge: bool)
    ensures Taken(q, allowExpunge) + Left(q, allowExpunge) == q
    ensures !allowExpunge ==> forall i :: 0 <= i < |Taken(q, false)| ==> !Taken(q, false)[i].Expunge?
    ensures Left(q, allowExpunge) != [] ==> !allowExpunge && Left(q, false)[0].Expunge?
  {
    FirstExpunge(q);
    hide UntilExpunge;
  }

  // ---------- Session and hub ----------

  class ImapSession {
    var selected: string
    var readOnly: bool
    var hub: MailboxHub?
    var queue: seq<Update>
    var notify: bool

    constructor ()
      ensures selected == "" && !readOnly && hub == null && queue == [] && !notify
    {
      selected, readOnly, hub, queue, notify := "", false, null, [], false;
    }

    method PushUpdate(u: Update)
      modifies `queue, `notify
      ensures queue == old(queue) + [u] && notify
    {
      queue := queue + [u];
      notify := true;
    }

    method TakeUpdates(allowExpunge: bool) returns (updates: seq<Update>)
      modifies `queue
      ensures updates == Taken(old(queue), allowExpunge) && queue == Left(old(queue), allowExpunge)
    {
      if allowExpunge {
        updates := queue;
        queue := [];
        return;
      }
      var stop := 0;
      while stop < |queue| && !queue[stop].Expunge?
        invariant stop <= |queue| && UntilExpunge(queue) == stop + UntilExpunge(queue[stop..])
      {
        assert queue[stop..][1..] == queue[stop + 1..];
        stop := stop + 1;
      }
      updates := queue[..stop];
      queue := queue[stop..];
    }

    /** Leaves the selected state; what was still queued for it is dropped. */
    method Unselect()
      modifies this, hub
      ensures selected == "" && !readOnly && hub == null && queue == [] && notify == old(notify)
      ensures old(hub) != null ==> old(hub).sessions == old(hub.sessions) - {this}
    {
      var h := hub;
      hub, selected, readOnly, queue := null, "", false, [];
      if h != null {
        h.Remove(this);
      }
    }

    /** Binds the session to the hub of the mailbox it selects, off any former one; nothing changes for the other sessions. */
    method Select(name: string, readOnly: bool, server: HubIndex, email: string)
      modifies this, hub, server, server.hubs.Values
      ensures selected == name && this.readOnly == readOnly && queue == old(queue) && notify == old(notify)
      ensures (email, name) in server.hubs && hub == server.hubs[(email, name)]
      ensures if (email, name) in old(server.hubs) then server.hubs == old(server.hubs) && hub.sessions == old(server.hubs[(email, name)].sessions) + {this}
              else fresh(hub) && server.hubs == old(server.hubs)[(email, name) := hub] && hub.sessions == {this}
      ensures old(hub) != null && old(hub) != hub ==> old(hub).sessions == old(hub.sessions) - {this}
      ensures forall h :: h in old(server.hubs).Values && h != hub && h != old(hub) ==> h.sessions == old(h.sessions)
    {
      var oldHub := hub;
      hub := null;
      if oldHub != null {
        oldHub.Remove(this);
      }
      var h := server.HubForOrCreate(email, name);
      h.Add(this);
      this.selected, this.readOnly, this.hub := name, readOnly, h;
    }
  }

  class MailboxHub {
    var sessions: set<ImapSession>

    constructor ()
      ensures sessions == {}
    {
      sessions := {};
    }

    method Add(s: ImapSession)
      modifies this
      ensures sessions == old(sessions) + {s}
    {
      sessions := sessions + {s};
    }

    method Remove(s: ImapSession)
      modifies this
      ensures sessions == old(sessions) - {s}
    {
      sessions := sessions - {s};
    }

    /** Appends an update to the queue of every session but its source. */
    method Enqueue(u: Update, source: ImapSession?)
      modifies sessions`queue, sessions`notify
      ensures forall s :: s in sessions ==> s.queue == old(s.queue) + (if s == source then [] else [u])
      ensures forall s :: s in sessions && s != source ==> s.notify
    {
      var targets := sessions - {source};
      while targets != {}
        invariant targets <= sessions - {source}
        invariant forall s :: s in sessions ==>
                    s.queue == old(s.queue) + (if s == source || s in targets then [] else [u])
        invariant forall s :: s in sessions && s != source && s !in targets ==> s.notify
      {
        var s := AnyOf(targets);
        targets := targets - {s};
        s.PushUpdate(u);
      }
    }

    method EnqueueAll(us: seq<Update>, source: ImapSession?)
      modifies sessions`queue, sessions`notify
      ensures forall s :: s in sessions ==> s.queue == old(s.queue) + (if s == source then [] else us)
    {
      for i := 0 to |us|
        invariant forall s :: s in sessions ==> s.queue == old(s.queue) + (if s == source then [] else us[..i])
      {
        Enqueue(us[i], source);
        assert us[..i + 1] == us[..i] + [us[i]];
      }
      assert us[..|us|] == us;
    }
  }

  /** The server's hubs, by user address and mailbox name. */
  class HubIndex {
    var hubs: map<(string, string), MailboxHub>

    constructor ()
      ensures hubs == map[]
    {
      hubs := map[];
    }

    method HubForOrCreate(email: string, name: string) returns (h: MailboxHub)
      modifies this
      ensures (email, name) in old(hubs) ==> hubs == old(hubs)
      ensures (email, name) !in old(hubs) ==> fresh(h) && h.sessions == {} && hubs == old(hubs)[(email, name) := h]
      ensures (email, name) in hubs && h == hubs[(email, name)]
    {
      if (email, name) in hubs {
        return hubs[(email, name)];
      }
      h := new MailboxHub();
      hubs := hubs[(email, name) := h];
    }
  }

  // ---------- Conservation ----------

  /** Pushes and polls of one session, the latest last. */
  datatype Traffic = Idle | Push(before: Traffic, u: Update) | Poll(before: Traffic, allowExpunge: bool)

  function Queue(t: Traffic): seq<Update> {
    match t
    case Idle => []
    case Push(before, u) => Queue(before) + [u]
    case Poll(before, allowExpunge) => Left(Queue(before), allowExpunge)
  }

  function Written(t: Traffic): seq<Update> {
    match t
    case Idle => []
    case Push(before, _) => Written(before)
    case Poll(before, allowExpunge) => Written(before) + Taken(Queue(before), allowExpunge)
  }

  function Pushed(t: Traffic): seq<Update> {
    match t
    case Idle => []
    case Push(before, u) => Pushed(before) + [u]
    case Poll(before, _) => Pushed(before)
  }

  /** Nothing is lost, repeated or reordered: written then queued is what was pushed. */
  lemma {:induction false} NothingIsLost(t: Traffic)
    ensures Written(t) + Queue(t) == Pushed(t)
  {
    hide Taken, Left;
    match t
    case Idle =>
    case Push(before, u) =>
      NothingIsLost(before);
      assert Written(t) + Queue(t) == Written(before) + Queue(before) + [u];
    case Poll(before, allowExpunge) =>
      NothingIsLost(before);
      TakenIsLongest(Queue(before), allowExpunge);
      assert Written(t) + Queue(t) == Written(before) + (Taken(Queue(before), allowExpunge) + Left(Queue(before), allowExpunge));
  }
}

/** IDLE against any number of concurrent pushers: appends, sends on the one-slot channel, takes and waits interleave. */
module ImapIdle {
  import opened ImapQueue

  datatype Idler = Taking | Waiting | Away

  /** `senders` counts the pushers between their append and their send. */
  datatype State = State(queue: seq<Update>, token: bool, senders: nat, idler: Idler, written: seq<Update>, pushed: seq<Update>)

  datatype Event = Append(u: Update) | Send | Take | Wake | StopIdle | StartIdle | PollOnce(allowExpunge: bool)

  const INITIAL := State([], false, 0, Away, [], [])

  predicate Enabled(s: State, e: Event) {
    match e
    case Append(_) => true
    case Send => s.senders > 0
    case Take => s.idler.Taking?
    case Wake => s.idler.Waiting? && s.token
    case StopIdle => s.idler.Waiting?
    case StartIdle => s.idler.Away?
    case PollOnce(_) => s.idler.Away?
  }

  /** One step; an event that is not enabled leaves the state as it is. */
  function Next(s: State, e: Event): State {
    if !Enabled(s, e) then s else
    match e
    case Append(u) => s.(queue := s.queue + [u], pushed := s.pushed + [u], senders := s.senders + 1)
    case Send => s.(token := true, senders := s.senders - 1)
    case Take => s.(written := s.written + Taken(s.queue, true), queue := Left(s.queue, true), idler := Waiting)
    case Wake => s.(token := false, idler := Taking)
    case StopIdle => s.(idler := Away)
    case StartIdle => s.(idler := Taking)
    case PollOnce(allow) => s.(written := s.written + Taken(s.queue, allow), queue := Left(s.queue, allow))
  }

  /** Events in any order, the latest last. */
  datatype Run = Start | Then(before: Run, e: Event)

  function Now(r: Run): State {
    if r.Start? then INITIAL else Next(Now(r.before), r.e)
  }

  ghost predicate Inv(s: State) {
    && (s.idler.Waiting? && s.queue != [] ==> s.token || s.senders > 0)
    && s.written + s.queue == s.pushed
  }

  lemma InvStep(s: State, e: Event)
    requires Inv(s)
    ensures Inv(Next(s, e))
  {
    if Enabled(s, e) {
      match e
      case Append(u) => assert s.written + (s.queue + [u]) == s.pushed + [u];
      case Take =>
        TakenIsLongest(s.queue, true);
        assert Next(s, e).written == s.pushed && Next(s, e).queue == [];
      case PollOnce(allow) =>
        TakenIsLongest(s.queue, allow);
        hide Taken, Left;
        assert s.written + Taken(s.queue, allow) + Left(s.queue, allow)
            == s.written + (Taken(s.queue, allow) + Left(s.queue, allow));
      case _ =>
    }
  }

  /** A blocked IDLE with something queued has a wake-up in the channel or on its way; and the queue conserves. */
  lemma {:induction false} NoLostWakeup(r: Run)
    ensures var s := Now(r);
            && (s.idler.Waiting? && s.queue != [] ==> s.token || s.senders > 0)
            && s.written + s.queue == s.pushed
  {
    if r.Then? {
      NoLostWakeup(r.before);
      InvStep(Now(r.before), r.e);
    }
  }

  /** So the update gets out without anything further being pushed: send if need be, wake, take. */
  lemma BlockedIdleDrains(r: Run)
    requires Now(r).idler.Waiting? && Now(r).queue != []
    ensures var sent := if Now(r).token then Now(r) else Next(Now(r), Send);
            && (Now(r).token || Enabled(Now(r), Send)) && Enabled(sent, Wake) && Enabled(Next(sent, Wake), Take)
            && Next(Next(sent, Wake), Take).queue == []
            && Next(Next(sent, Wake), Take).written == Now(r).pushed
  {
    NoLostWakeup(r);
    InvStep(Now(r), Send);
    InvStep(if Now(r).token then Now(r) else Next(Now(r), Send), Wake);
    var woken := Next(if Now(r).token then Now(r) else Next(Now(r), Send), Wake);
    InvStep(woken, Take);
    assert Next(woken, Take).written + [] == Next(woken, Take).written;
  }
}
