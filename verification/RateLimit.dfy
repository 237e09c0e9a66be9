/**
 Per-user sending limits: one fixed minute window and one fixed day window per user,
 both restarted lazily by the first call that finds them expired.
 Times are nanoseconds.
 */
module RateLimit {
  import opened Clock
  import opened Wrappers

  datatype Config = Config(maxPerMin: int, maxPerDay: int)

  datatype Window = Window(minuteStart: int, minuteCount: nat, dayStart: int, dayCount: nat)

  datatype Verdict = Accepted | MinuteExceeded | DayExceeded

  /** One call of the limiter, by user and time. */
  datatype Call = Call(user: nat, at: int)

  /** The window a call at `now` is judged against. */
  function Roll(w: Option<Window>, now: int): Window {
    if w.None? || now - w.value.dayStart >= DAY then Window(now, 0, now, 0)
    else if now - w.value.minuteStart >= MINUTE then w.value.(minuteStart := now, minuteCount := 0)
    else w.value
  }

  function Judge(c: Config, w: Window): Verdict {
    if c.maxPerMin > 0 && w.minuteCount >= c.maxPerMin then MinuteExceeded
    else if c.maxPerDay > 0 && w.dayCount >= c.maxPerDay then DayExceeded
    else Accepted
  }

  function Charge(w: Window, v: Verdict): Window {
    if v.Accepted? then w.(minuteCount := w.minuteCount + 1, dayCount := w.dayCount + 1) else w
  }

  function Lookup(ws: map<nat, Window>, u: nat): Option<Window> {
    if u in ws then Some(ws[u]) else None
  }

  function Outcome(c: Config, ws: map<nat, Window>, call: Call): Verdict {
    Judge(c, Roll(Lookup(ws, call.user), call.at))
  }

  function Next(c: Config, ws: map<nat, Window>, call: Call): map<nat, Window> {
    ws[call.user := Charge(Roll(Lookup(ws, call.user), call.at), Outcome(c, ws, call))]
  }

  // ---------- The limiter object ----------

  class UserWindow {
    var minuteStart: int
    var minuteCount: nat
    var dayStart: int
    var dayCount: nat

    constructor (now: int)
      ensures Value() == Window(now, 0, now, 0)
    {
      minuteStart, minuteCount, dayStart, dayCount := now, 0, now, 0;
    }

    function Value(): Window
      reads this
    {
      Window(minuteStart, minuteCount, dayStart, dayCount)
    }
  }

  class Limiter {
    const cfg: Config
    var lim: map<nat, UserWindow>
    ghost var Repr: set<UserWindow>

    constructor (cfg: Config)
      ensures this.cfg == cfg && Valid() && fresh(Repr) && Windows() == map[]
    {
      this.cfg := cfg;
      lim := map[];
      Repr := {};
    }

    /** No two users share a window object. */
    ghost predicate Valid()
      reads this
    {
      && (forall u :: u in lim ==> lim[u] in Repr)
      && (forall u, v :: u in lim && v in lim && u != v ==> lim[u] != lim[v])
    }

    ghost function Windows(): map<nat, Window>
      requires Valid()
      reads this, Repr
    {
      map u | u in lim :: lim[u].Value()
    }

    /** Looks the user's window up, restarting it where it has expired. */
    method CurrentWindow(userID: nat, now: int) returns (w: UserWindow)
      requires Valid()
      modifies this, Repr
      ensures Valid() && fresh(Repr - old(Repr))
      ensures userID in lim && w == lim[userID]
      ensures Windows() == old(Windows())[userID := Roll(Lookup(old(Windows()), userID), now)]
    {
      if userID !in lim || now - lim[userID].dayStart >= DAY {
        w := new UserWindow(now);
        lim := lim[userID := w];
        Repr := Repr + {w};
      } else {
        w := lim[userID];
        if now - w.minuteStart >= MINUTE {
          w.minuteStart := now;
          w.minuteCount := 0;
        }
      }
    }

    method Accept(userID: nat)
      requires Valid() && userID in lim
      modifies Repr
      ensures Valid() && Windows() == old(Windows())[userID := Charge(old(lim[userID].Value()), Accepted)]
    {
      var w := lim[userID];
      w.minuteCount := w.minuteCount + 1;
      w.dayCount := w.dayCount + 1;
    }

    method CheckRateLimit(userID: nat, now: int) returns (v: Verdict)
      requires Valid()
      modifies this, Repr
      ensures Valid() && fresh(Repr - old(Repr))
      ensures v == Outcome(cfg, old(Windows()), Call(userID, now))
      ensures Windows() == Next(cfg, old(Windows()), Call(userID, now))
    {
      var w := CurrentWindow(userID, now);
      assert w.Value() == Windows()[userID];
      if cfg.maxPerMin > 0 && w.minuteCount >= cfg.maxPerMin {
        return MinuteExceeded;
      }
      if cfg.maxPerDay > 0 && w.dayCount >= cfg.maxPerDay {
        return DayExceeded;
      }
      Accept(userID);
      return Accepted;
    }
  }

  // ---------- Histories ----------

  /** Calls by any users, the latest last. */
  datatype History = Start | Then(before: History, last: Call)

  /** The windows after a history, starting with none. */
  function After(c: Config, h: History): map<nat, Window> {
    match h
    case Start => map[]
    case Then(before, last) => Next(c, After(c, before), last)
  }

  /** How many calls of user `u` were accepted at times in [from, to). */
  function AcceptedIn(c: Config, h: History, u: nat, from: int, to: int): nat {
    match h
    case Start => 0
    case Then(before, last) =>
      AcceptedIn(c, before, u, from, to)
      + if last.user == u && from <= last.at < to && Outcome(c, After(c, before), last).Accepted? then 1 else 0
  }

  /** How many in the half-open minute, and in the half-open day, from `from` on. */
  function InMinute(c: Config, h: History, u: nat, from: int): nat {
    AcceptedIn(c, h, u, from, from + MINUTE)
  }

  function InDay(c: Config, h: History, u: nat, from: int): nat {
    AcceptedIn(c, h, u, from, from + DAY)
  }

  /** The clock never runs backwards. */
  predicate Ordered(h: History) {
    match h
    case Start => true
    case Then(before, last) => Ordered(before) && (before.Then? ==> before.last.at <= last.at)
  }

  /** Facts about a user's window that every history keeps. */
  ghost predicate Sane(c: Config, w: Window) {
    && (c.maxPerMin > 0 ==> w.minuteCount <= c.maxPerMin)
    && (c.maxPerDay > 0 ==> w.dayCount <= c.maxPerDay)
    && (w.minuteCount == 0 ==> c.maxPerDay > 0 && w.dayCount >= c.maxPerDay)
    && w.dayCount >= 1
    && w.dayStart <= w.minuteStart
  }

  /** What the current window says about the `n` calls accepted so far in [from, from + MINUTE). */
  ghost predicate MinuteLedger(c: Config, w: Option<Window>, from: int, n: nat) {
    var m := c.maxPerMin;
    if w.None? then n == 0
    else if w.value.minuteStart < from then n == 0 || n < w.value.minuteCount
    else if w.value.minuteStart < from + MINUTE then
      || n <= m - 1 + w.value.minuteCount
      || (w.value.dayStart == w.value.minuteStart && n <= 2 * m - 1 + w.value.minuteCount)
    else n <= 3 * m - 1
  }

  ghost predicate DayLedger(c: Config, w: Option<Window>, from: int, n: nat) {
    var d := c.maxPerDay;
    if w.None? then n == 0
    else if w.value.dayStart < from then n < w.value.dayCount
    else if w.value.dayStart < from + DAY then n <= d - 1 + w.value.dayCount
    else n <= 2 * d - 1
  }

  /** The user's window after a call of theirs. */
  function Stepped(c: Config, w: Option<Window>, now: int): Window {
    Charge(Roll(w, now), Judge(c, Roll(w, now)))
  }

  lemma SaneStep(c: Config, w: Option<Window>, now: int)
    requires w.Some? ==> Sane(c, w.value) && w.value.minuteStart <= now
    ensures Sane(c, Stepped(c, w, now)) && Stepped(c, w, now).minuteStart <= now
  {
  }

  lemma MinuteStep(c: Config, w: Option<Window>, now: int, from: int, n: nat)
    requires c.maxPerMin > 0 && MinuteLedger(c, w, from, n) && (now < from ==> n == 0)
    requires w.Some? ==> Sane(c, w.value) && w.value.minuteStart <= now
    ensures var one := if from <= now < from + MINUTE && Judge(c, Roll(w, now)).Accepted? then 1 else 0;
            MinuteLedger(c, Some(Stepped(c, w, now)), from, n + one)
  {
  }

  lemma DayStep(c: Config, w: Option<Window>, now: int, from: int, n: nat)
    requires c.maxPerDay > 0 && DayLedger(c, w, from, n) && (now < from ==> n == 0)
    requires w.Some? ==> Sane(c, w.value) && w.value.minuteStart <= now
    ensures var one := if from <= now < from + DAY && Judge(c, Roll(w, now)).Accepted? then 1 else 0;
            DayLedger(c, Some(Stepped(c, w, now)), from, n + one)
  {
  }

  lemma {:induction false} Ledgers(c: Config, h: History, u: nat, from: int)
    requires Ordered(h)
    ensures var w := Lookup(After(c, h), u);
            var inMinute := AcceptedIn(c, h, u, from, from + MINUTE);
            var inDay := AcceptedIn(c, h, u, from, from + DAY);
            && (w.Some? ==> Sane(c, w.value) && h.Then? && w.value.minuteStart <= h.last.at)
            && (h.Then? && h.last.at < from ==> inMinute == inDay == 0)
            && (c.maxPerMin > 0 ==> MinuteLedger(c, w, from, inMinute))
            && (c.maxPerDay > 0 ==> DayLedger(c, w, from, inDay))
  {
    if h.Then? {
      Ledgers(c, h.before, u, from);
      hide Sane, MinuteLedger, DayLedger, Roll, Judge, Charge;
      if h.last.user == u {
        var w := Lookup(After(c, h.before), u);
        SaneStep(c, w, h.last.at);
        if c.maxPerMin > 0 {
          MinuteStep(c, w, h.last.at, from, AcceptedIn(c, h.before, u, from, from + MINUTE));
        }
        if c.maxPerDay > 0 {
          DayStep(c, w, h.last.at, from, AcceptedIn(c, h.before, u, from, from + DAY));
        }
      }
    }
  }

  /** In any half-open 60 s interval a user gets at most 3 * MaxPerMin - 1 messages through. */
  lemma MinuteBound(c: Config, h: History, u: nat, from: int)
    requires Ordered(h) && c.maxPerMin > 0
    ensures InMinute(c, h, u, from) <= 3 * c.maxPerMin - 1
  {
    Ledgers(c, h, u, from);
  }

  /** In any half-open 24 h interval a user gets at most 2 * MaxPerDay - 1 messages through. */
  lemma DayBound(c: Config, h: History, u: nat, from: int)
    requires Ordered(h) && c.maxPerDay > 0
    ensures InDay(c, h, u, from) <= 2 * c.maxPerDay - 1
  {
    Ledgers(c, h, u, from);
  }

  // ---------- Both bounds are attained ----------

  function Burst(h: History, u: nat, t: int, k: nat): History {
    if k == 0 then h else Then(Burst(h, u, t, k - 1), Call(u, t))
  }

  function Filled(w: Window, k: nat): Window {
    w.(minuteCount := w.minuteCount + k, dayCount := w.dayCount + k)
  }

  lemma NothingYet(c: Config, u: nat, from: int, to: int)
    ensures Ordered(Start) && Lookup(After(c, Start), u) == None && AcceptedIn(c, Start, u, from, to) == 0
  {
  }

  lemma OneAccepted(c: Config, h: History, u: nat, t: int, w: Window, from: int, to: int)
    requires w == Roll(Lookup(After(c, h), u), t) && Judge(c, w).Accepted?
    ensures Lookup(After(c, Then(h, Call(u, t))), u) == Some(Filled(w, 1))
    ensures AcceptedIn(c, Then(h, Call(u, t)), u, from, to) == AcceptedIn(c, h, u, from, to) + (if from <= t < to then 1 else 0)
  {
  }

  /** A burst that fits into both windows is accepted in full. */
  lemma {:induction false} BurstAccepted(c: Config, h: History, u: nat, t: int, w: Window, k: nat, from: int, to: int)
    requires Ordered(h) && (h.Then? ==> h.last.at <= t)
    requires w == Roll(Lookup(After(c, h), u), t)
    requires c.maxPerMin > 0 ==> w.minuteCount + k <= c.maxPerMin
    requires c.maxPerDay > 0 ==> w.dayCount + k <= c.maxPerDay
    ensures Ordered(Burst(h, u, t, k)) && (Burst(h, u, t, k).Then? ==> Burst(h, u, t, k).last.at <= t)
    ensures if k == 0 then Burst(h, u, t, k) == h else Burst(h, u, t, k).Then?
    ensures k > 0 ==> Lookup(After(c, Burst(h, u, t, k)), u) == Some(Filled(w, k))
    ensures AcceptedIn(c, Burst(h, u, t, k), u, from, to) == AcceptedIn(c, h, u, from, to) + (if from <= t < to then k else 0)
    decreases k
  {
    hide After, AcceptedIn;
    if k > 0 {
      BurstAccepted(c, h, u, t, w, k - 1, from, to);
      var before := Burst(h, u, t, k - 1);
      assert Roll(Lookup(After(c, before), u), t) == Filled(w, k - 1);
      OneAccepted(c, before, u, t, Filled(w, k - 1), from, to);
      assert Burst(h, u, t, k) == Then(before, Call(u, t));
    }
  }

  function MinuteWorstCase(m: nat, u: nat): History
    requires m >= 1
  {
    var warm := Burst(Burst(Start, u, 0, 1), u, DAY - 100 * SECOND, 1);
    Burst(Burst(Burst(warm, u, DAY - 50 * SECOND, m - 1), u, DAY - 40 * SECOND, m), u, DAY, m)
  }

  /** No smaller bound than that of MinuteBound holds, for any positive minute limit that the day limit leaves room for. */
  lemma MinuteBoundAttained(c: Config, u: nat)
    requires c.maxPerMin >= 1 && (c.maxPerDay <= 0 || c.maxPerDay >= 2 * c.maxPerMin + 1)
    ensures var h := MinuteWorstCase(c.maxPerMin, u);
            Ordered(h) && InMinute(c, h, u, DAY - 50 * SECOND) == 3 * c.maxPerMin - 1
  {
    hide After, AcceptedIn, Burst, Ordered;
    var m, from, to := c.maxPerMin, DAY - 50 * SECOND, DAY - 50 * SECOND + MINUTE;
    var h1 := Burst(Start, u, 0, 1);
    var h2 := Burst(h1, u, DAY - 100 * SECOND, 1);
    var h3 := Burst(h2, u, from, m - 1);
    var h4 := Burst(h3, u, DAY - 40 * SECOND, m);
    NothingYet(c, u, from, to);
    BurstAccepted(c, Start, u, 0, Window(0, 0, 0, 0), 1, from, to);
    BurstAccepted(c, h1, u, DAY - 100 * SECOND, Window(DAY - 100 * SECOND, 0, 0, 1), 1, from, to);
    BurstAccepted(c, h2, u, from, Window(DAY - 100 * SECOND, 1, 0, 2), m - 1, from, to);
    BurstAccepted(c, h3, u, DAY - 40 * SECOND, Window(DAY - 40 * SECOND, 0, 0, m + 1), m, from, to);
    BurstAccepted(c, h4, u, DAY, Window(DAY, 0, DAY, 0), m, from, to);
  }

  // ---------- Spread over minutes ----------

  /** How many minutes `n` messages take at `m` a minute. */
  function Minutes(n: nat, m: nat): nat
    requires m >= 1
  {
    if n == 0 then 0 else 1 + Minutes(if n < m then 0 else n - m, m)
  }

  lemma {:induction false} MinutesAre(n: nat, m: nat)
    requires m >= 1
    ensures m * Minutes(n, m) < n + m
  {
    if n >= m {
      MinutesAre(n - m, m);
      assert m * Minutes(n, m) == m + m * Minutes(n - m, m);
    }
  }

  /** `n` calls, `m` of them at once and the others a minute later, and so on. */
  function Spread(h: History, u: nat, t: int, n: nat, m: nat): History
    requires m >= 1
    decreases n
  {
    if n == 0 then h
    else if n < m then Burst(h, u, t, n)
    else Spread(Burst(h, u, t, m), u, t + MINUTE, n - m, m)
  }

  /** The calls a minute lets through at once; without a minute limit all of them. */
  function PerMinute(c: Config, n: nat): (m: nat)
    ensures m >= 1
  {
    if c.maxPerMin > 0 then c.maxPerMin else n + 1
  }

  /** Spread over minutes that all lie within one day window, the calls are accepted in full. */
  lemma {:induction false} SpreadAccepted(c: Config, h: History, u: nat, t: int, w: Window, n: nat, m: nat, from: int, to: int)
    requires Ordered(h) && (h.Then? ==> h.last.at <= t)
    requires w == Roll(Lookup(After(c, h), u), t) && w.minuteCount == 0 && w.minuteStart == t
    requires m >= 1 && (c.maxPerMin > 0 ==> m <= c.maxPerMin)
    requires c.maxPerDay > 0 ==> w.dayCount + n <= c.maxPerDay
    requires from <= t && t + Minutes(n, m) * MINUTE <= to && t + Minutes(n, m) * MINUTE <= w.dayStart + DAY
    ensures var r := Spread(h, u, t, n, m);
            && Ordered(r) && (r.Then? ==> r.last.at <= t + Minutes(n, m) * MINUTE)
            && (n > 0 ==> r.Then? && r.last.at < t + Minutes(n, m) * MINUTE)
            && (n == 0 ==> r == h)
            && (n > 0 ==> Lookup(After(c, r), u).Some? && Lookup(After(c, r), u).value.dayStart == w.dayStart)
            && AcceptedIn(c, r, u, from, to) == AcceptedIn(c, h, u, from, to) + n
    decreases n
  {
    hide After, AcceptedIn, Burst, Ordered, Lookup, Judge;
    if n > 0 {
      var k := if n < m then n else m;
      var next := Burst(h, u, t, k);
      BurstAccepted(c, h, u, t, w, k, from, to);
      if n > m {
        SpreadAccepted(c, next, u, t + MINUTE, Window(t + MINUTE, 0, w.dayStart, w.dayCount + k), n - m, m, from, to);
      }
    }
  }

  /** One call, d - 1 more at the end of its day, then d at the start of the next. */
  function DayWorstCase(d: nat, m: nat, u: nat): History
    requires d >= 1 && m >= 1
  {
    Spread(Spread(Burst(Start, u, 0, 1), u, DAY - Minutes(d - 1, m) * MINUTE, d - 1, m), u, DAY, d, m)
  }

  /** The first day of the worst case: its calls are accepted, and its window began at time 0. */
  lemma FirstDay(c: Config, u: nat, d: nat, m: nat, to: int)
    requires d == c.maxPerDay >= 1 && m == PerMinute(c, d) && Minutes(d - 1, m) < 24 * 60 && to >= DAY
    ensures var from := DAY - Minutes(d - 1, m) * MINUTE;
            var h := Spread(Burst(Start, u, 0, 1), u, from, d - 1, m);
            && Ordered(h) && h.Then? && h.last.at <= DAY && AcceptedIn(c, h, u, from, to) == d - 1
            && Lookup(After(c, h), u).Some? && Lookup(After(c, h), u).value.dayStart == 0
  {
    var from := DAY - Minutes(d - 1, m) * MINUTE;
    var h1 := Burst(Start, u, 0, 1);
    assert d == 1 ==> from == DAY && Spread(h1, u, from, d - 1, m) == h1;
    assert d > 1 ==> Minutes(d - 1, m) >= 1;
    hide After, AcceptedIn, Burst, Ordered, Lookup, Judge, Minutes, Spread;
    NothingYet(c, u, from, to);
    BurstAccepted(c, Start, u, 0, Window(0, 0, 0, 0), 1, from, to);
    assert Lookup(After(c, h1), u) == Some(Window(0, 1, 0, 1));
    if d > 1 {
      SpreadAccepted(c, h1, u, from, Window(from, 0, 0, 1), d - 1, m, from, to);
    }
  }

  /** Any history whose window began at time 0, followed by the calls of the next day. */
  lemma SecondDay(c: Config, h: History, u: nat, m: nat, from: int, to: int)
    requires c.maxPerDay >= 1 && m == PerMinute(c, c.maxPerDay) && Ordered(h) && h.Then? && h.last.at <= DAY
    requires Lookup(After(c, h), u).Some? && Lookup(After(c, h), u).value.dayStart == 0
    requires from <= DAY && DAY + Minutes(c.maxPerDay, m) * MINUTE <= to && Minutes(c.maxPerDay, m) <= 24 * 60
    ensures var r := Spread(h, u, DAY, c.maxPerDay, m);
            Ordered(r) && AcceptedIn(c, r, u, from, to) == AcceptedIn(c, h, u, from, to) + c.maxPerDay
  {
    hide After, AcceptedIn, Burst, Ordered, Lookup, Judge, Minutes, Spread;
    assert Roll(Lookup(After(c, h), u), DAY) == Window(DAY, 0, DAY, 0);
    SpreadAccepted(c, h, u, DAY, Window(DAY, 0, DAY, 0), c.maxPerDay, m, from, to);
  }

  /**
   No smaller bound than that of DayBound holds, for any positive day limit, whatever the minute limit, as long as the
   minutes that so many messages take fit into a day.
   */
  lemma DayBoundAttained(c: Config, u: nat)
    requires var d := c.maxPerDay;
             d >= 1 && Minutes(d - 1, PerMinute(c, d)) + Minutes(d, PerMinute(c, d)) <= 24 * 60
    ensures var d, m := c.maxPerDay, PerMinute(c, c.maxPerDay);
            var h, from := DayWorstCase(d, m, u), DAY - Minutes(d - 1, m) * MINUTE;
            Ordered(h) && InDay(c, h, u, from) == 2 * d - 1
  {
    hide After, AcceptedIn, Burst, Ordered, Lookup, Judge, Minutes, Spread, PerMinute;
    var d, m := c.maxPerDay, PerMinute(c, c.maxPerDay);
    var from := DAY - Minutes(d - 1, m) * MINUTE;
    MinutesPositive(d, m);
    FirstDay(c, u, d, m, from + DAY);
    SecondDay(c, Spread(Burst(Start, u, 0, 1), u, from, d - 1, m), u, m, from, from + DAY);
  }

  lemma MinutesPositive(n: nat, m: nat)
    requires n >= 1 && m >= 1
    ensures Minutes(n, m) >= 1
  {
  }

  /** The shipped limits, 30 a minute and 500 a day, let 999 messages through in 24 hours. */
  lemma ShippedDayBoundAttained(u: nat)
    ensures var h, from := DayWorstCase(500, 30, u), DAY - Minutes(499, 30) * MINUTE;
            Ordered(h) && InDay(Config(30, 500), h, u, from) == 999
  {
    MinutesAre(499, 30);
    MinutesAre(500, 30);
    hide Minutes;
    DayBoundAttained(Config(30, 500), u);
  }

  // ---------- When a limit holds in every interval ----------

  /** In no half-open minute of any history does any user get more than the minute limit through. */
  ghost predicate MinuteLimitHolds(c: Config) {
    forall h, u: nat, from: int :: Ordered(h) ==> InMinute(c, h, u, from) <= c.maxPerMin
  }

  ghost predicate DayLimitHolds(c: Config) {
    forall h, u: nat, from: int :: Ordered(h) ==> InDay(c, h, u, from) <= c.maxPerDay
  }

  lemma {:induction false} AcceptedInPart(c: Config, h: History, u: nat, from: int, to: int, later: int)
    requires to <= later
    ensures AcceptedIn(c, h, u, from, to) <= AcceptedIn(c, h, u, from, later)
  {
    hide After;
    if h.Then? {
      AcceptedInPart(c, h.before, u, from, to, later);
    }
  }

  /** `a` calls in the last instant of a day and `b` in the first of the next. */
  function Midnight(u: nat, a: nat, b: nat): History {
    Burst(Burst(Burst(Start, u, 0, 1), u, DAY - 1, a), u, DAY, b)
  }

  lemma FirstCall(c: Config, u: nat, from: int, to: int)
    requires 0 < from
    ensures var h := Burst(Start, u, 0, 1);
            && Ordered(h) && h.Then? && h.last.at <= 0 && AcceptedIn(c, h, u, from, to) == 0
            && Lookup(After(c, h), u) == Some(Window(0, 1, 0, 1))
  {
    hide After, AcceptedIn, Burst, Ordered, Lookup, Judge;
    NothingYet(c, u, from, to);
    BurstAccepted(c, Start, u, 0, Window(0, 0, 0, 0), 1, from, to);
  }

  lemma BeforeMidnight(c: Config, u: nat, a: nat, to: int)
    requires c.maxPerMin > 0 ==> a <= c.maxPerMin
    requires c.maxPerDay > 0 ==> 1 + a <= c.maxPerDay
    requires to >= DAY
    ensures var h := Burst(Burst(Start, u, 0, 1), u, DAY - 1, a);
            && Ordered(h) && h.Then? && h.last.at <= DAY && AcceptedIn(c, h, u, DAY - 1, to) == a
            && Lookup(After(c, h), u).Some? && Lookup(After(c, h), u).value.dayStart == 0
  {
    hide After, AcceptedIn, Burst, Ordered, Lookup, Judge;
    var h1 := Burst(Start, u, 0, 1);
    FirstCall(c, u, DAY - 1, to);
    assert Roll(Lookup(After(c, h1), u), DAY - 1) == Window(DAY - 1, 0, 0, 1);
    hide Roll;
    BurstAccepted(c, h1, u, DAY - 1, Window(DAY - 1, 0, 0, 1), a, DAY - 1, to);
  }

  lemma MidnightAccepted(c: Config, u: nat, a: nat, b: nat)
    requires c.maxPerMin > 0 ==> a <= c.maxPerMin && b <= c.maxPerMin
    requires c.maxPerDay > 0 ==> 1 + a <= c.maxPerDay && b <= c.maxPerDay
    ensures Ordered(Midnight(u, a, b)) && InMinute(c, Midnight(u, a, b), u, DAY - 1) == a + b
  {
    hide After, AcceptedIn, Burst, Ordered, Lookup, Judge;
    var h := Burst(Burst(Start, u, 0, 1), u, DAY - 1, a);
    BeforeMidnight(c, u, a, DAY - 1 + MINUTE);
    assert Roll(Lookup(After(c, h), u), DAY) == Window(DAY, 0, DAY, 0);
    BurstAccepted(c, h, u, DAY, Window(DAY, 0, DAY, 0), b, DAY - 1, DAY - 1 + MINUTE);
  }

  /** The minute limit holds in every minute exactly where twice the day limit cannot exceed it. */
  lemma MinuteLimitHoldsIff(c: Config)
    requires c.maxPerMin >= 1
    ensures MinuteLimitHolds(c) <==> 0 < c.maxPerDay && 2 * c.maxPerDay - 1 <= c.maxPerMin
  {
    var m, d := c.maxPerMin, c.maxPerDay;
    hide After, AcceptedIn, Ordered, Midnight;
    if 0 < d && 2 * d - 1 <= m {
      forall h, u: nat, from: int | Ordered(h) ensures InMinute(c, h, u, from) <= m {
        DayBound(c, h, u, from);
        AcceptedInPart(c, h, u, from, from + MINUTE, from + DAY);
      }
    } else {
      var a: nat := if 0 < d <= m then d - 1 else m;
      var b: nat := if 0 < d <= m then d else m;
      MidnightAccepted(c, 0, a, b);
      assert InMinute(c, Midnight(0, a, b), 0, DAY - 1) > m;
    }
  }

  /** Where the minutes fit into a day, the day limit holds in every day exactly if it is one message. */
  lemma DayLimitHoldsIff(c: Config)
    requires var d := c.maxPerDay;
             d >= 1 && Minutes(d - 1, PerMinute(c, d)) + Minutes(d, PerMinute(c, d)) <= 24 * 60
    ensures DayLimitHolds(c) <==> c.maxPerDay == 1
  {
    hide After, AcceptedIn, Ordered, Minutes, PerMinute, DayWorstCase;
    var d, m := c.maxPerDay, PerMinute(c, c.maxPerDay);
    if d == 1 {
      forall h, u: nat, from: int | Ordered(h) ensures InDay(c, h, u, from) <= 1 {
        DayBound(c, h, u, from);
      }
    } else {
      DayBoundAttained(c, 0);
      var from := DAY - Minutes(d - 1, m) * MINUTE;
      assert InDay(c, DayWorstCase(d, m, 0), 0, from) > d;
    }
  }
}
