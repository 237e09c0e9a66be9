/**
 IncrementFail running against itself: N calls for one address, each SQL statement one step,
 interleaved in any order.
 */
module BanIncrement {
  import opened BanStore
  import opened Wrappers

  /** How a call came to be counted: its UPDATE hit the row, its INSERT made it, or its INSERT found one. */
  datatype Way = Hit | Won | Lost

  datatype Call = Begun | MissedUpdate | Stored(way: Way) | Returned(way: Way, count: nat)

  datatype State = State(rows: Rows, calls: seq<Call>)

  function Start(rows: Rows, n: nat): State {
    State(rows, seq(n, i => Begun))
  }

  /** The next statement of call `i`; a returned call, or one that is not there, has none. */
  function Step(s: State, ip: string, i: nat): State {
    if i >= |s.calls| then s else
    match s.calls[i]
    case Begun =>
      State(UpdateFail(s.rows, ip), s.calls[i := if ip in s.rows then Stored(Hit) else MissedUpdate])
    case MissedUpdate =>
      State(InsertFirst(s.rows, ip), s.calls[i := Stored(if ip in s.rows then Lost else Won)])
    case Stored(way) =>
      s.(calls := s.calls[i := Returned(way, ReadCount(s.rows, ip))])
    case Returned(_, _) => s
  }

  /** An interleaving: the numbers of the calls that take a step, the latest last. */
  datatype Schedule = Nobody | Then(before: Schedule, call: nat)

  function Run(s: State, ip: string, order: Schedule): (r: State)
    ensures |r.calls| == |s.calls|
  {
    if order.Nobody? then s else Step(Run(s, ip, order.before), ip, order.call)
  }

  predicate Went(c: Call, way: Way) {
    (c.Stored? || c.Returned?) && c.way == way
  }

  function CountWay(calls: seq<Call>, way: Way): nat {
    if calls == [] then 0 else (if Went(calls[0], way) then 1 else 0) + CountWay(calls[1..], way)
  }

  lemma {:induction false} CountAfterUpdate(calls: seq<Call>, i: nat, c: Call, way: Way)
    requires i < |calls|
    ensures CountWay(calls[i := c], way)
            == CountWay(calls, way) - (if Went(calls[i], way) then 1 else 0) + (if Went(c, way) then 1 else 0)
  {
    if i == 0 {
      assert calls[i := c][1..] == calls[1..];
    } else {
      CountAfterUpdate(calls[1..], i - 1, c, way);
      assert calls[i := c][1..] == calls[1..][i - 1 := c];
    }
  }

  lemma {:induction false} CountAll(calls: seq<Call>)
    requires forall c :: c in calls ==> c.Stored? || c.Returned?
    ensures CountWay(calls, Hit) + CountWay(calls, Won) + CountWay(calls, Lost) == |calls|
  {
    if calls != [] {
      CountAll(calls[1..]);
    }
  }

  lemma {:induction false} CountNone(calls: seq<Call>, way: Way)
    requires forall c :: c in calls ==> !Went(c, way)
    ensures CountWay(calls, way) == 0
  {
    if calls != [] {
      CountNone(calls[1..], way);
    }
  }

  /** What every interleaving keeps; `base` is the table the calls started on. */
  ghost predicate Inv(base: Rows, ip: string, s: State) {
    && s.rows.Keys == base.Keys + (if ip in s.rows then {ip} else {})
    && (forall other :: other in base && other != ip ==> s.rows[other] == base[other])
    && (ip !in s.rows ==> forall c :: c in s.calls ==> c.Begun? || c.MissedUpdate?)
    && (ip in base ==> ip in s.rows && forall c :: c in s.calls ==> c.Begun? || Went(c, Hit))
    && (ip in s.rows ==>
          && s.rows[ip].failCount == ReadCount(base, ip) + CountWay(s.calls, Hit) + CountWay(s.calls, Won)
          && CountWay(s.calls, Won) == (if ip in base then 0 else 1)
          && s.rows[ip] == (if ip in base then base[ip] else BanEntry(0, 0, None, NoReason)).(failCount := s.rows[ip].failCount)
          && forall c :: c in s.calls && c.Returned? ==> 1 <= c.count <= s.rows[ip].failCount)
  }

  lemma InvInit(base: Rows, ip: string, n: nat)
    ensures Inv(base, ip, Start(base, n))
  {
    CountNone(Start(base, n).calls, Hit);
    CountNone(Start(base, n).calls, Won);
  }

  lemma InvStep(base: Rows, ip: string, s: State, i: nat)
    requires Inv(base, ip, s)
    ensures Inv(base, ip, Step(s, ip, i))
  {
    hide CountWay;
    if i >= |s.calls| {
      return;
    }
    var s' := Step(s, ip, i);
    var c := s'.calls[i];
    assert s'.calls == s.calls[i := c];
    assert forall d :: d in s'.calls ==> d == c || d in s.calls;
    assert s.calls[i] in s.calls;
    CountAfterUpdate(s.calls, i, c, Hit);
    CountAfterUpdate(s.calls, i, c, Won);
    CountAfterUpdate(s.calls, i, Begun, Hit);
    if ip !in s.rows {
      CountNone(s.calls, Hit);
      CountNone(s.calls, Won);
    }
  }

  lemma {:induction false} InvRun(base: Rows, ip: string, n: nat, order: Schedule)
    ensures Inv(base, ip, Run(Start(base, n), ip, order))
  {
    if order.Nobody? {
      InvInit(base, ip, n);
    } else {
      InvRun(base, ip, n, order.before);
      InvStep(base, ip, Run(Start(base, n), ip, order.before), order.call);
    }
  }

  predicate Finished(s: State) {
    forall c :: c in s.calls ==> c.Returned?
  }

  /**
   A fresh address: exactly one row results, and it counts N failures less the calls whose UPDATE
   matched nothing and whose INSERT lost; it counts all N exactly when at most one UPDATE came too early.
   */
  lemma FreshAddress(base: Rows, ip: string, n: nat, order: Schedule)
    requires ip !in base && n > 0 && Finished(Run(Start(base, n), ip, order))
    ensures var s := Run(Start(base, n), ip, order);
            var early := CountWay(s.calls, Won) + CountWay(s.calls, Lost);
            && CountWay(s.calls, Won) == 1
            && CountWay(s.calls, Lost) < n
            && s.rows == base[ip := BanEntry(n - CountWay(s.calls, Lost), 0, None, NoReason)]
            && (s.rows[ip].failCount == n <==> early <= 1)
            && forall c :: c in s.calls ==> 1 <= c.count <= s.rows[ip].failCount
  {
    var s := Run(Start(base, n), ip, order);
    InvRun(base, ip, n, order);
    CountAll(s.calls);
    assert s.calls[0] in s.calls;
  }

  /** An address with a row: every call is counted, and nothing but the count changes. */
  lemma KnownAddress(base: Rows, ip: string, n: nat, order: Schedule)
    requires ip in base && Finished(Run(Start(base, n), ip, order))
    ensures Run(Start(base, n), ip, order).rows == base[ip := base[ip].(failCount := base[ip].failCount + n)]
  {
    var s := Run(Start(base, n), ip, order);
    InvRun(base, ip, n, order);
    CountAll(s.calls);
    CountNone(s.calls, Lost);
  }

  // ---------- Every undercount happens ----------

  function WayOf(early: nat, i: nat): Way {
    if i == 0 then Won else if i < early then Lost else Hit
  }

  function Fresh(base: Rows, ip: string, count: nat): Rows {
    base[ip := BanEntry(count, 0, None, NoReason)]
  }

  /** The UPDATEs of the first `m` calls find no row. */
  lemma {:induction false} Missing(base: Rows, ip: string, n: nat, m: nat) returns (order: Schedule)
    requires ip !in base && m <= n
    ensures Run(Start(base, n), ip, order) == State(base, seq(n, i => if i < m then MissedUpdate else Begun))
  {
    if m == 0 {
      order := Nobody;
    } else {
      var before := Missing(base, ip, n, m - 1);
      order := Then(before, m - 1);
    }
  }

  /** Of the first `early` calls the first `m` have sent their INSERT. */
  lemma {:induction false} Inserting(base: Rows, ip: string, n: nat, early: nat, m: nat) returns (order: Schedule)
    requires ip !in base && 1 <= m <= early <= n
    ensures Run(Start(base, n), ip, order)
            == State(Fresh(base, ip, 1), seq(n, i requires i >= 0 =>
                 if i < m then Stored(WayOf(early, i)) else if i < early then MissedUpdate else Begun))
  {
    var before: Schedule;
    if m == 1 {
      before := Missing(base, ip, n, early);
    } else {
      before := Inserting(base, ip, n, early, m - 1);
    }
    order := Then(before, m - 1);
  }

  /** Then the calls from `early` to `m` hit the row. */
  lemma {:induction false} Hitting(base: Rows, ip: string, n: nat, early: nat, m: nat) returns (order: Schedule)
    requires ip !in base && 1 <= early <= m <= n
    ensures Run(Start(base, n), ip, order)
            == State(Fresh(base, ip, 1 + m - early), seq(n, i requires i >= 0 => if i < m then Stored(WayOf(early, i)) else Begun))
  {
    if m == early {
      order := Inserting(base, ip, n, early, early);
    } else {
      var before := Hitting(base, ip, n, early, m - 1);
      order := Then(before, m - 1);
      assert Fresh(base, ip, m - early)[ip := BanEntry(1 + m - early, 0, None, NoReason)] == Fresh(base, ip, 1 + m - early);
    }
  }

  /** Then the first `m` calls read the count back. */
  lemma {:induction false} Returning(base: Rows, ip: string, n: nat, early: nat, m: nat) returns (order: Schedule)
    requires ip !in base && 1 <= early <= n && m <= n
    ensures var count := 1 + n - early;
            Run(Start(base, n), ip, order)
            == State(Fresh(base, ip, count), seq(n, i requires i >= 0 =>
                 if i < m then Returned(WayOf(early, i), count) else Stored(WayOf(early, i))))
  {
    if m == 0 {
      order := Hitting(base, ip, n, early, n);
    } else {
      var before := Returning(base, ip, n, early, m - 1);
      order := Then(before, m - 1);
    }
  }

  /** For a fresh address every count from 1 to N is the result of some interleaving of N calls, and no other is. */
  lemma CountReachableIff(base: Rows, ip: string, n: nat, k: nat)
    requires ip !in base && n > 0
    ensures (exists order :: EndsWith(base, ip, n, k, order)) <==> 1 <= k <= n
  {
    if 1 <= k <= n {
      var order := Returning(base, ip, n, 1 + n - k, n);
      assert EndsWith(base, ip, n, k, order);
    }
    forall order | EndsWith(base, ip, n, k, order) ensures 1 <= k <= n {
      FreshAddress(base, ip, n, order);
    }
  }

  /** All calls have returned, and the row counts `k` failures. */
  predicate EndsWith(base: Rows, ip: string, n: nat, k: nat, order: Schedule) {
    var s := Run(Start(base, n), ip, order);
    Finished(s) && ReadCount(s.rows, ip) == k
  }
}
