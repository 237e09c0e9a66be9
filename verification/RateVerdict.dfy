/** What the limiter's verdicts mean in terms of the messages let through before, without its windows. */
module RateVerdict {
  import opened Clock
  import opened RateLimit
  import opened Wrappers

  // ---------- What a window counts ----------

  /** Nothing of the user's was let through after the end of a window that is still theirs. */
  lemma {:induction false} NothingSince(c: Config, h: History, u: nat, x: int, to: int)
    requires Ordered(h)
    ensures var w := Lookup(After(c, h), u);
            && (w.None? ==> AcceptedIn(c, h, u, x, to) == 0)
            && (w.Some? && (x >= w.value.minuteStart + MINUTE || x >= w.value.dayStart + DAY) ==> AcceptedIn(c, h, u, x, to) == 0)
            && (w.Some? ==> h.Then? && w.value.dayStart <= w.value.minuteStart <= h.last.at)
  {
    hide Judge, Charge;
    if h.Then? {
      NothingSince(c, h.before, u, x, to);
      if h.last.user == u {
        var w := Lookup(After(c, h.before), u);
        KeepsStarts(Roll(w, h.last.at), Outcome(c, After(c, h.before), h.last));
      }
    }
  }

  lemma KeepsStarts(w: Window, v: Verdict)
    ensures Charge(w, v).minuteStart == w.minuteStart && Charge(w, v).dayStart == w.dayStart
  {
  }

  /** A user's two counters are the messages let through since the two windows began; refused calls are not counted. */
  lemma {:induction false} WindowCounts(c: Config, h: History, u: nat, to: int)
    requires Ordered(h) && h.Then? && h.last.at < to && Lookup(After(c, h), u).Some?
    ensures var w := Lookup(After(c, h), u).value;
            && w.minuteCount == AcceptedIn(c, h, u, w.minuteStart, to)
            && w.dayCount == AcceptedIn(c, h, u, w.dayStart, to)
    decreases h, 1
  {
    NothingSince(c, h.before, u, to, to);
    if h.last.user == u {
      CountsRolled(c, h, u, to);
      KeepsStarts(Roll(Lookup(After(c, h.before), u), h.last.at), Outcome(c, After(c, h.before), h.last));
      hide Roll, Judge;
    } else {
      WindowCounts(c, h.before, u, to);
    }
  }

  /** The window a call is judged against counts exactly the messages let through since its two beginnings. */
  lemma {:induction false} CountsRolled(c: Config, h: History, u: nat, to: int)
    requires Ordered(h) && h.Then? && h.last.at < to && h.last.user == u
    ensures var w := Roll(Lookup(After(c, h.before), u), h.last.at);
            && w.minuteCount == AcceptedIn(c, h.before, u, w.minuteStart, to)
            && w.dayCount == AcceptedIn(c, h.before, u, w.dayStart, to)
            && h.last.at - MINUTE < w.minuteStart <= h.last.at && h.last.at - DAY < w.dayStart <= h.last.at
    decreases h, 0
  {
    var now, before := h.last.at, h.before;
    NothingSince(c, before, u, now, to);
    if Lookup(After(c, before), u).Some? {
      WindowCounts(c, before, u, to);
    }
    hide Judge, Charge, AcceptedIn;
  }

  // ---------- Verdicts ----------

  /** Let through by either limit of zero or less, or with fewer than that many since the window's beginning. */
  predicate Below(limit: int, n: nat) {
    limit <= 0 || n < limit
  }

  /** The verdict by the messages let through since two moments, at most a minute and a day ago: refusal exactly at a limit, the minute's first. */
  lemma VerdictIff(c: Config, h: History)
    requires Ordered(h) && h.Then?
    ensures var u, now, v := h.last.user, h.last.at, Outcome(c, After(c, h.before), h.last);
            exists minute, day :: now - MINUTE < minute <= now && now - DAY < day <= now
              && (v.Accepted? <==> Below(c.maxPerMin, LetThrough(c, h.before, u, minute, now))
                                   && Below(c.maxPerDay, LetThrough(c, h.before, u, day, now)))
              && (v.MinuteExceeded? <==> !Below(c.maxPerMin, LetThrough(c, h.before, u, minute, now)))
  {
    CountsRolled(c, h, h.last.user, h.last.at + 1);
    var w := Roll(Lookup(After(c, h.before), h.last.user), h.last.at);
    hide Roll, AcceptedIn, After;
    assert LetThrough(c, h.before, h.last.user, w.minuteStart, h.last.at) == w.minuteCount;
    assert LetThrough(c, h.before, h.last.user, w.dayStart, h.last.at) == w.dayCount;
  }

  /** How many of the user's messages were let through from `from` up to and including `now`. */
  function LetThrough(c: Config, h: History, u: nat, from: int, now: int): nat {
    AcceptedIn(c, h, u, from, now + 1)
  }

  lemma {:induction false} MoreFromEarlier(c: Config, h: History, u: nat, from: int, later: int, to: int)
    requires from <= later
    ensures AcceptedIn(c, h, u, later, to) <= AcceptedIn(c, h, u, from, to)
  {
    hide After;
    if h.Then? {
      MoreFromEarlier(c, h.before, u, from, later, to);
    }
  }

  /** No message is refused unless its user had a limit's worth of them let through within the last minute, or the last day. */
  lemma RefusedOnlyAtTheLimit(c: Config, h: History)
    requires Ordered(h) && h.Then?
    ensures var u, now, v := h.last.user, h.last.at, Outcome(c, After(c, h.before), h.last);
            && (v.MinuteExceeded? ==> 0 < c.maxPerMin <= LetThrough(c, h.before, u, now - MINUTE + 1, now))
            && (v.DayExceeded? ==> 0 < c.maxPerDay <= LetThrough(c, h.before, u, now - DAY + 1, now))
  {
    var u, now := h.last.user, h.last.at;
    CountsRolled(c, h, u, now + 1);
    var w := Roll(Lookup(After(c, h.before), u), now);
    MoreFromEarlier(c, h.before, u, now - MINUTE + 1, w.minuteStart, now + 1);
    MoreFromEarlier(c, h.before, u, now - DAY + 1, w.dayStart, now + 1);
    hide Roll, AcceptedIn, After;
  }

  // ---------- Users ----------

  /** The history without the calls of others. */
  function Own(h: History, u: nat): History {
    if h.Start? then h else if h.last.user == u then Then(Own(h.before, u), h.last) else Own(h.before, u)
  }

  /** What others send makes no difference: a call is judged by its user's own calls. */
  lemma {:induction false} UsersAreIndependent(c: Config, h: History, u: nat, now: int)
    ensures Lookup(After(c, h), u) == Lookup(After(c, Own(h, u)), u)
    ensures Outcome(c, After(c, h), Call(u, now)) == Outcome(c, After(c, Own(h, u)), Call(u, now))
  {
    hide Roll, Judge, Charge;
    if h.Then? {
      UsersAreIndependent(c, h.before, u, h.last.at);
    }
  }
}
