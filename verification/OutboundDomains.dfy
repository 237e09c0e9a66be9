/**
 The limit the semaphores are meant to enforce, on connections to one mail domain (or to the relay), against the one they
 do enforce, on connections to one recipient address.
 */
module OutboundDomains {
  import opened MailboxNames
  import opened OutboundMachine
  import opened OutboundManager
  import opened OutboundPool
  import opened OutboundQueue
  import opened Tally
  import Wrappers

  // ---------- The key that was meant ----------

  function LowerAll(s: string): string {
    if s == "" then "" else [Lower(s[0])] + LowerAll(s[1..])
  }

  /** What stands behind the last '@'; empty where there is none. */
  function AfterAt(to: string): string {
    if to == "" || to[|to| - 1] == '@' then ""
    else if '@' !in to then ""
    else AfterAt(to[..|to| - 1]) + [to[|to| - 1]]
  }

  /** All deliveries go to the relay if there is one, else to the recipient's domain, in lower case. */
  function DeliverKey(relay: bool, to: string): string {
    if relay then "relay" else LowerAll(AfterAt(to))
  }

  predicate ConnectedUnder(relay: bool, key: string, w: Worker) {
    (w.Delivering? || w.Writing? || w.Bouncing?) && DeliverKey(relay, w.item.to) == key
  }

  function UnderKey(relay: bool, key: string): Worker -> bool {
    (w: Worker) => ConnectedUnder(relay, key, w)
  }

  /** How many connections to the domain, or to the relay, are open. */
  function DomainConnections(relay: bool, s: State, key: string): nat {
    Count(s.workers, UnderKey(relay, key))
  }

  // ---------- Any number of addresses of one domain ----------

  /** "a@d", "aa@d", ...: the `i`-th recipient. */
  function Address(i: nat): string {
    seq(i + 1, _ => 'a') + "@d"
  }

  lemma AddressesDiffer(i: nat, j: nat)
    requires i != j
    ensures Address(i) != Address(j)
  {
    assert |Address(i)| == i + 3 && |Address(j)| == j + 3;
  }

  lemma AddressKey(relay: bool, i: nat)
    ensures DeliverKey(relay, Address(i)) == if relay then "relay" else "d"
  {
    var to := Address(i);
    var at := to[..|to| - 1];
    assert to[|to| - 1] == 'd' && to[|to| - 2] == '@' && '@' in to;
    assert at != "" && at[|at| - 1] == '@';
    assert AfterAt(at) == "";
    assert AfterAt(to) == "" + ['d'] == "d";
    assert "d"[1..] == "";
    assert LowerAll("d") == ['d'] + LowerAll("");
  }

  // ---------- One more connection ----------

  /** The first `i` workers deliver to the first `i` addresses, and nothing else is going on. */
  ghost predicate Round(s: State, i: nat) {
    && s.dispatcher.Idle? && s.jobs == [] && i <= |s.workers|
    && (forall j :: 0 <= j < i ==> s.workers[j].Delivering? && s.workers[j].item.to == Address(j))
    && (forall j :: i <= j < |s.workers| ==> s.workers[j].Waiting?)
    && (forall id: nat :: id in s.rows ==> id <= s.lastId && s.rows[id].status.Sending?)
  }

  function NewItem(s: State, i: nat): Item {
    Item(s.lastId + 1, "", Address(i), "", Pending, 0, 0, "", "", Wrappers.None)
  }

  lemma OnlyOneDue(s: State, i: nat, limit: nat)
    requires Round(s, i) && limit >= 1
    ensures var item := NewItem(s, i);
            IsDueList(s.rows[item.id := item], 0, limit, [item])
  {
    var item := NewItem(s, i);
    var rows := s.rows[item.id := item];
    forall id: nat | id in rows && Due(rows[id], 0) ensures rows[id] in [item] {
      assert id == item.id;
    }
  }

  lemma ScannedAlone(c: Config, s: State, item: Item)
    requires s.dispatcher.Idle? && IsDueList(s.rows, 0, c.batchSize, [item])
    ensures Next(c, s, Scan(0, [item])) == s.(dispatcher := Scanning([item]))
  {
    hide IsDueList;
  }

  lemma ClaimedAlone(c: Config, s: State, item: Item)
    requires s.dispatcher == Scanning([item]) && item.id in s.rows && s.rows[item.id] == item && item.status.Pending?
    ensures var job := item.(status := Sending);
            Next(c, s, ClaimNext(true))
            == s.(rows := s.rows[item.id := job], dispatcher := Holding(job, []), claims := s.claims + multiset{item.id})
  {
    assert [item][1..] == [];
    assert s.dispatcher.left[0] == item;
  }

  lemma HandedOn(c: Config, s: State, job: Item)
    requires s.dispatcher == Holding(job, []) && s.jobs == [] && c.batchSize >= 1
    ensures Next(c, Next(c, s, Send), Rest) == s.(jobs := [job], dispatcher := Idle)
  {
    assert [] + [job] == [job];
    assert Next(c, s, Send) == s.(jobs := [job], dispatcher := Scanning([]));
  }

  /** The new message is claimed by the one scan that finds it, and put into the channel. */
  lemma Queued(c: Config, from: State, r: Run, i: nat) returns (q: Run)
    requires var s := Now(c, from, r); Round(s, i) && c.batchSize >= 1
    ensures var s, s' := Now(c, from, r), Now(c, from, q);
            var job := NewItem(s, i).(status := Sending);
            s' == s.(rows := s.rows[job.id := job], lastId := job.id, jobs := [job], claims := s.claims + multiset{job.id})
  {
    hide IsDueList, Address;
    var s, item := Now(c, from, r), NewItem(Now(c, from, r), i);
    var job := item.(status := Sending);
    OnlyOneDue(s, i, c.batchSize);
    var s1 := Next(c, s, Enqueue("", Address(i), "", 0));
    assert s1 == s.(rows := s.rows[item.id := item], lastId := item.id);
    var s2 := s1.(dispatcher := Scanning([item]));
    ScannedAlone(c, s1, item);
    ClaimedAlone(c, s2, item);
    assert s.rows[item.id := item][item.id := job] == s.rows[item.id := job];
    HandedOn(c, Next(c, s2, ClaimNext(true)), job);
    q := Then(Then(Then(Then(Then(r, Enqueue("", Address(i), "", 0)), Scan(0, [item])), ClaimNext(true)), Send), Rest);
    hide Next, Round;
    QueuedRun(c, from, r, Enqueue("", Address(i), "", 0), Scan(0, [item]));
  }

  lemma QueuedRun(c: Config, from: State, r: Run, a: Event, b: Event)
    ensures Now(c, from, Then(Then(Then(Then(Then(r, a), b), ClaimNext(true)), Send), Rest))
            == Next(c, Next(c, Next(c, Next(c, Next(c, Now(c, from, r), a), b), ClaimNext(true)), Send), Rest)
  {
    hide Next;
    var r1 := Then(r, a);
    var r2 := Then(r1, b);
    var r3 := Then(r2, ClaimNext(true));
    var r4 := Then(r3, Send);
    assert Now(c, from, r1) == Next(c, Now(c, from, r), a);
    assert Now(c, from, r2) == Next(c, Now(c, from, r1), b);
    assert Now(c, from, r3) == Next(c, Now(c, from, r2), ClaimNext(true));
    assert Now(c, from, r4) == Next(c, Now(c, from, r3), Send);
  }

  lemma NotConnected(s: State, i: nat)
    requires Round(s, i)
    ensures Count(s.workers, ConnectedTo(Address(i))) == 0
  {
    forall j | 0 <= j < |s.workers| ensures !ConnectedTo(Address(i))(s.workers[j]) {
      if j < i {
        AddressesDiffer(j, i);
      }
    }
    CountNone(s.workers, ConnectedTo(Address(i)));
  }

  /** With a worker to spare, one more delivery begins, to an address not yet connected to. */
  lemma OneMore(c: Config, from: State, r: Run, i: nat) returns (q: Run)
    requires var s := Now(c, from, r); Round(s, i) && SemsExact(c, s) && i < |s.workers|
    requires c.batchSize >= 1
    ensures Round(Now(c, from, q), i + 1) && SemsExact(c, Now(c, from, q))
    ensures |Now(c, from, q).workers| == |Now(c, from, r).workers|
  {
    hide Address, IsDueList, SemsExact, Next;
    var s := Now(c, from, r);
    var r5 := Queued(c, from, r, i);
    var s5 := Now(c, from, r5);
    var job := s5.jobs[0];
    var r6 := Then(r5, Event.Worker(i, Take));
    q := Then(r6, Event.Worker(i, Acquire));
    var s6 := Now(c, from, r6);
    NotConnected(s, i);
    SameSems(c, s, s5);
    Started(c, s5, i, job);
    StepSems(c, s5, Event.Worker(i, Take));
    StepSems(c, s6, Event.Worker(i, Acquire));
    RoundGrows(s, Now(c, from, q), i, job);
  }

  lemma RoundGrows(s: State, s': State, i: nat, job: Item)
    requires Round(s, i) && i < |s.workers| && job == NewItem(s, i).(status := Sending)
    requires s'.workers == s.workers[i := Delivering(job)] && s'.jobs == [] && s'.dispatcher == s.dispatcher
    requires s'.rows == s.rows[job.id := job] && s'.lastId == job.id
    ensures Round(s', i + 1)
  {
    hide Address;
  }

  lemma SameSems(c: Config, s: State, s': State)
    requires SemsExact(c, s) && s'.sems == s.sems && s'.workers == s.workers
    ensures SemsExact(c, s')
  {
  }

  lemma Taken(c: Config, s: State, i: nat, job: Item)
    requires i < |s.workers| && s.workers[i].Waiting? && s.jobs == [job]
    ensures var s' := Next(c, s, Event.Worker(i, Take));
            && s'.workers == s.workers[i := Got(job)] && s'.jobs == [] && s'.sems == s.sems
            && s'.rows == s.rows && s'.lastId == s.lastId && s'.dispatcher == s.dispatcher
  {
    assert [job][1..] == [];
  }

  lemma Acquired(c: Config, s: State, i: nat)
    requires WorkEnabled(c, s, i, Acquire)
    ensures var s' := Next(c, s, Event.Worker(i, Acquire));
            && s'.workers == s.workers[i := Delivering(s.workers[i].item)] && s'.jobs == s.jobs
            && s'.rows == s.rows && s'.lastId == s.lastId && s'.dispatcher == s.dispatcher
  {
    hide SemsAfter;
  }

  /** A waiting worker takes the one job queued and gets the semaphore of an address nobody is connected to. */
  lemma Started(c: Config, s: State, i: nat, job: Item)
    requires i < |s.workers| && s.workers[i].Waiting? && s.jobs == [job]
    requires SemsExact(c, s) && Count(s.workers, ConnectedTo(job.to)) == 0
    ensures var s1 := Next(c, s, Event.Worker(i, Take));
            var s2 := Next(c, s1, Event.Worker(i, Acquire));
            && s2.workers == s.workers[i := Delivering(job)] && s2.jobs == []
            && s2.rows == s.rows && s2.lastId == s.lastId && s2.dispatcher == s.dispatcher
  {
    hide Count, ConnectedTo, Next;
    Taken(c, s, i, job);
    assert c.limit > 0 ==> s.sems[job.to] == 0;
    var s1 := Next(c, s, Event.Worker(i, Take));
    assert s1.workers[i] == Got(job);
    Acquired(c, s1, i);
    assert s1.workers[i := Delivering(job)] == s.workers[i := Delivering(job)];
  }

  lemma {:induction false} Reached(c: Config, from: State, i: nat) returns (q: Run)
    requires Round(from, 0) && SemsExact(c, from) && i <= |from.workers| && c.batchSize >= 1
    ensures Round(Now(c, from, q), i) && SemsExact(c, Now(c, from, q))
    ensures |Now(c, from, q).workers| == |from.workers|
  {
    hide Round, SemsExact;
    if i == 0 {
      q := Start;
    } else {
      var r := Reached(c, from, i - 1);
      q := OneMore(c, from, r, i - 1);
    }
  }

  lemma {:induction false} RoundCounts(relay: bool, workers: seq<Worker>)
    requires forall j :: 0 <= j < |workers| ==> workers[j].Delivering? && workers[j].item.to == Address(j)
    ensures Count(workers, UnderKey(relay, if relay then "relay" else "d")) == |workers|
  {
    if workers != [] {
      var k := |workers| - 1;
      RoundCounts(relay, workers[..k]);
      AddressKey(relay, k);
    }
  }

  lemma {:induction false} CountWithin<T>(s: seq<T>, p: T -> bool)
    ensures Count(s, p) <= |s|
  {
    if s != [] {
      CountWithin(s[..|s| - 1], p);
    }
  }

  /** In every run there are at most `c.limit` connections to every domain, or to the relay. */
  ghost predicate DomainsLimited(c: Config, relay: bool, workers: nat, users: set<string>) {
    forall r: Run, key: string :: DomainConnections(relay, Now(c, Initial(map[], 0, workers, users), r), key) <= c.limit
  }

  lemma TooManyConnected(c: Config, relay: bool, workers: nat, users: set<string>) returns (r: Run)
    requires 1 <= c.limit < workers && c.batchSize >= 1
    ensures var key := if relay then "relay" else "d";
            DomainConnections(relay, Now(c, Initial(map[], 0, workers, users), r), key) > c.limit
  {
    var from, n := Initial(map[], 0, workers, users), c.limit + 1;
    InitialSems(c, map[], 0, workers, users);
    r := Reached(c, from, n);
    var s, key := Now(c, from, r), if relay then "relay" else "d";
    RoundCounts(relay, s.workers[..n]);
    assert s.workers == s.workers[..n] + s.workers[n..];
    CountAppend(s.workers[..n], s.workers[n..], UnderKey(relay, key));
  }

  /**
   Keyed by the recipient address, the semaphores keep the connections to every domain, or to the relay, within the limit
   exactly if there are no more workers than that: beyond it, one more address of the same domain is enough.
   */
  lemma DomainsLimitedIff(c: Config, relay: bool, workers: nat, users: set<string>)
    requires c.limit >= 1 && c.batchSize >= 1
    ensures DomainsLimited(c, relay, workers, users) <==> workers <= c.limit
  {
    var from := Initial(map[], 0, workers, users);
    if workers > c.limit {
      var r := TooManyConnected(c, relay, workers, users);
      assert DomainConnections(relay, Now(c, from, r), if relay then "relay" else "d") > c.limit;
    } else {
      forall r: Run, key: string ensures DomainConnections(relay, Now(c, from, r), key) <= c.limit {
        WorkersLeaveLast(c, from, r);
        CountWithin(Now(c, from, r).workers, UnderKey(relay, key));
      }
    }
  }
}
