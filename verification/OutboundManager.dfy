/** The queue manager's operations on the rows: one delivery attempt, bounces, retry and cancel, and the dispatcher's scan. */
module OutboundManager {
  import Backoff
  import opened Clock
  import Mailer
  import MailTable
  import opened OutboundQueue
  import opened Wrappers

  datatype Config = Config(maxAttempts: nat, baseMin: int, batchSize: nat, limit: int)

  // ---------- Row transitions ----------

  /** The row a delivery attempt leaves behind. */
  function Settled(c: Config, item: Item, out: Mailer.Outcome, now: int): Item {
    var n := item.attempts + 1;
    match out
    case Ok(resp) => item.(attempts := n, status := Sent, lastResponse := resp, lastError := "", completedAt := Some(now))
    case Err(e) =>
      var tried := item.(attempts := n, lastResponse := "", lastError := e.msg);
      if e.permanent || n >= c.maxAttempts then tried.(status := Failed, completedAt := Some(now))
      else tried.(status := Deferred, nextAttemptAt := now + Backoff.Delay(c.baseMin, n))
  }

  function AfterRetry(item: Item, now: int): Item {
    item.(status := Pending, attempts := 0, lastError := "", lastResponse := "", completedAt := None, nextAttemptAt := now)
  }

  function AfterCancel(item: Item, now: int): Item {
    item.(status := Status.Canceled, lastError := "canceled by the administrator", completedAt := Some(now))
  }

  /** What the dispatcher leaves of the rows, and hands on, after the listed items; `errs` are the claims that error. */
  function Dispatched(rows: Table, items: seq<Item>, errs: set<nat>): (Table, seq<Item>) {
    if items == [] then (rows, [])
    else
      var first, rest := items[0], items[1..];
      if first.id in errs || !Claimable(rows, first.id) then Dispatched(rows, rest, errs)
      else
        var (after, jobs) := Dispatched(Claimed(rows, first.id), rest, errs);
        (after, [first.(status := Sending)] + jobs)
  }

  // ---------- The manager ----------

  /** `users` are the local addresses and their ids. */
  class Manager {
    const config: Config
    const store: OutboundStore
    const mails: MailTable.MailStore
    var users: map<string, nat>
    var jobs: seq<Item>
    var kicked: bool
    var dom: map<string, nat>

    constructor (config: Config, store: OutboundStore, mails: MailTable.MailStore)
      ensures this.config == config && this.store == store && this.mails == mails && jobs == [] && !kicked
    {
      this.config, this.store, this.mails := config, store, mails;
      users, jobs, kicked, dom := map[], [], false, map[];
    }

    /** Files a notice in the sender's INBOX, if the sender is local. */
    method Bounce(item: Item, notice: MailTable.Message, mailOk: bool) returns (created: bool)
      requires mails.Valid()
      modifies mails
      ensures mails.Valid() && created == (item.from in users && mailOk)
      ensures mails.rows == old(mails.rows)
              + if created then [notice.(id := mails.lastId, user := users[item.from], folder := "INBOX", seen := false)] else []
    {
      if item.from !in users || !mailOk {
        assert mails.rows + [] == mails.rows;
        return false;
      }
      var id := mails.Create(notice.(user := users[item.from], folder := "INBOX", seen := false));
      created := true;
    }

    /** How many deliveries hold the semaphore of the address. */
    function Tokens(to: string): nat
      reads this
    {
      if to in dom then dom[to] else 0
    }

    /** Takes the semaphore, at the moment there is room; until then the worker waits. */
    method AcquireDomain(to: string)
      requires config.limit <= 0 || Tokens(to) < config.limit
      modifies `dom
      ensures forall key :: Tokens(key) == old(Tokens(key)) + if config.limit > 0 && key == to then 1 else 0
    {
      if config.limit <= 0 {
        return;
      }
      if to !in dom {
        dom := dom[to := 0];
      }
      dom := dom[to := dom[to] + 1];
    }

    method ReleaseDomain(to: string)
      requires config.limit <= 0 || Tokens(to) > 0
      modifies `dom
      ensures forall key :: Tokens(key) == old(Tokens(key)) - if config.limit > 0 && key == to then 1 else 0
    {
      if config.limit > 0 {
        dom := dom[to := dom[to] - 1];
      }
    }

    /**
     One attempt on a claimed item: `out` is what the network makes of it, `saveOk` whether the row's UPDATE goes
     through. Only a saved failure bounces; the semaphore of the recipient is given back on every path.
     */
    method DeliverOne(item: Item, out: Mailer.Outcome, now: int, saveOk: bool, notice: MailTable.Message, mailOk: bool)
      requires mails.Valid() && (config.limit <= 0 || Tokens(item.to) < config.limit)
      modifies store`rows, mails, `dom
      ensures mails.Valid() && forall key :: Tokens(key) == old(Tokens(key))
      ensures store.rows == if saveOk then old(store.rows)[item.id := Settled(config, item, out, now)] else old(store.rows)
      ensures mails.rows == old(mails.rows)
              + if saveOk && Settled(config, item, out, now).status.Failed? && item.from in users && mailOk
                then [notice.(id := mails.lastId, user := users[item.from], folder := "INBOX", seen := false)] else []
    {
      hide Settled;
      AcquireDomain(item.to);
      Attempt(item, out, now, saveOk, notice, mailOk);
      ReleaseDomain(item.to);
    }

    /** The attempt itself, the semaphore held. */
    method Attempt(item: Item, out: Mailer.Outcome, now: int, saveOk: bool, notice: MailTable.Message, mailOk: bool)
      requires mails.Valid()
      modifies store`rows, mails
      ensures mails.Valid()
      ensures store.rows == if saveOk then old(store.rows)[item.id := Settled(config, item, out, now)] else old(store.rows)
      ensures mails.rows == old(mails.rows)
              + if saveOk && Settled(config, item, out, now).status.Failed? && item.from in users && mailOk
                then [notice.(id := mails.lastId, user := users[item.from], folder := "INBOX", seen := false)] else []
    {
      var row := item.(attempts := item.attempts + 1);
      assert mails.rows + [] == mails.rows;
      if out.Ok? {
        row := row.(status := Sent, lastResponse := out.value, lastError := "", completedAt := Some(now));
        if saveOk {
          store.Update(row);
        }
        return;
      }
      row := row.(lastResponse := "", lastError := out.error.msg);
      if out.error.permanent || row.attempts >= config.maxAttempts {
        row := row.(status := Failed, completedAt := Some(now));
        if !saveOk {
          return;
        }
        store.Update(row);
        var created := Bounce(row, notice, mailOk);
        return;
      }
      row := row.(status := Deferred);
      var backoff := Backoff.ShiftLeft64(Backoff.Wrap64(config.baseMin * MINUTE), row.attempts - 1);
      if backoff > DAY {
        backoff := DAY;
      }
      row := row.(nextAttemptAt := now + backoff);
      if saveOk {
        store.Update(row);
      }
    }

    /** Resets a row, whatever its status, for immediate redelivery. */
    method Retry(id: nat, now: int, saveOk: bool) returns (ok: bool)
      modifies store`rows, `kicked
      ensures ok == (id in old(store.rows) && saveOk) && kicked == (old(kicked) || ok)
      ensures store.rows == if ok then old(store.rows)[old(store.rows)[id].id := AfterRetry(old(store.rows)[id], now)] else old(store.rows)
      ensures ok ==> var r := store.rows[old(store.rows)[id].id]; r.status.Pending? && r.attempts == 0 && r.nextAttemptAt == now
    {
      var found := store.GetByID(id);
      if found.None? || !saveOk {
        return false;
      }
      var item := found.value;
      item := item.(status := Pending, attempts := 0, lastError := "", lastResponse := "", completedAt := None, nextAttemptAt := now);
      store.Update(item);
      kicked := true;
      ok := true;
    }

    /** Cancels a row unless it is sent. */
    method Cancel(id: nat, now: int, saveOk: bool) returns (ok: bool)
      modifies store`rows
      ensures ok == (id in old(store.rows) && !old(store.rows)[id].status.Sent? && saveOk)
      ensures store.rows == if ok then old(store.rows)[old(store.rows)[id].id := AfterCancel(old(store.rows)[id], now)] else old(store.rows)
      ensures ok ==> var r := store.rows[old(store.rows)[id].id]; r.status == Status.Canceled && r.completedAt == Some(now)
    {
      var found := store.GetByID(id);
      if found.None? {
        return false;
      }
      var item := found.value;
      if item.status.Sent? || !saveOk {
        return false;
      }
      item := item.(status := Status.Canceled, lastError := "canceled by the administrator", completedAt := Some(now));
      store.Update(item);
      ok := true;
    }

    /**
     One scan: `items` is what ListDue answers, `errs` the claims that error. Every other listed row is claimed and
     handed on in the order listed. The wait for room in the channel is not seen here.
     */
    method ProcessDue(now: int, items: seq<Item>, errs: set<nat>)
      requires IsDueList(store.rows, now, config.batchSize, items)
      modifies store`rows, `jobs
      ensures store.rows == MarkSending(old(store.rows), Granted(items, errs))
      ensures jobs == old(jobs) + Granted(items, errs)
    {
      assert items[0..] == items;
      ScanClaimsAll(store.rows, items, errs);
      hide MarkSending, Granted, IsDueList, AllOpen;
      ghost var after, handed := Dispatched(store.rows, items, errs).0, Dispatched(store.rows, items, errs).1;
      ghost var sent := [];
      for i := 0 to |items|
        invariant after == Dispatched(store.rows, items[i..], errs).0
        invariant handed == sent + Dispatched(store.rows, items[i..], errs).1
        invariant jobs == old(jobs) + sent
      {
        assert items[i..][1..] == items[i + 1..];
        if items[i].id in errs {
          continue;
        }
        var claimed := store.Claim(items[i].id);
        if !claimed {
          continue;
        }
        var item := items[i].(status := Sending);
        jobs := jobs + [item];
        sent := sent + [item];
      }
      assert sent + [] == sent;
    }
  }

  // ---------- What a scan hands on ----------

  /** The listed rows are still open. */
  ghost predicate AllOpen(rows: Table, items: seq<Item>) {
    && (forall i :: 0 <= i < |items| ==> Claimable(rows, items[i].id))
    && (forall i, j :: 0 <= i < j < |items| ==> items[i].id != items[j].id)
  }

  /** The listed items whose claim does not error, marked as being sent. */
  function Granted(items: seq<Item>, errs: set<nat>): seq<Item> {
    if items == [] then []
    else (if items[0].id in errs then [] else [items[0].(status := Sending)]) + Granted(items[1..], errs)
  }

  function MarkSending(rows: Table, jobs: seq<Item>): Table {
    map id: nat | id in rows :: if exists i :: 0 <= i < |jobs| && jobs[i].id == id then rows[id].(status := Sending) else rows[id]
  }

  lemma MarkSendingCons(rows: Table, job: Item, jobs: seq<Item>)
    requires Claimable(rows, job.id)
    ensures MarkSending(rows, [job] + jobs) == MarkSending(Claimed(rows, job.id), jobs)
  {
    var all := [job] + jobs;
    forall id: nat | id in rows ensures MarkSending(rows, all)[id] == MarkSending(Claimed(rows, job.id), jobs)[id] {
      if i :| 0 <= i < |jobs| && jobs[i].id == id {
        assert all[i + 1].id == id;
      } else if job.id == id {
        assert all[0].id == id;
      }
    }
  }

  /** Nothing coming between, the scan claims exactly the listed rows whose claim does not error, in order, and touches no other. */
  lemma {:induction false} ScanClaimsAll(rows: Table, items: seq<Item>, errs: set<nat>)
    requires AllOpen(rows, items)
    ensures Dispatched(rows, items, errs) == (MarkSending(rows, Granted(items, errs)), Granted(items, errs))
  {
    if items == [] {
      assert MarkSending(rows, []) == rows;
    } else {
      var first, rest := items[0], items[1..];
      assert forall i :: 0 <= i < |rest| ==> rest[i] == items[i + 1];
      if first.id in errs {
        ScanClaimsAll(rows, rest, errs);
        assert [] + Granted(rest, errs) == Granted(rest, errs);
      } else {
        ClaimedOnce(rows, first.id);
        assert AllOpen(Claimed(rows, first.id), rest);
        ScanClaimsAll(Claimed(rows, first.id), rest, errs);
        MarkSendingCons(rows, first.(status := Sending), Granted(rest, errs));
      }
    }
  }

  // ---------- An attempt ----------

  /** What an attempt writes into the row, and what it leaves alone. */
  lemma AttemptWrites(c: Config, item: Item, out: Mailer.Outcome, now: int)
    ensures var after := Settled(c, item, out, now);
            && after.id == item.id && after.from == item.from && after.to == item.to && after.raw == item.raw
            && after.attempts == item.attempts + 1
            && match out
               case Ok(resp) =>
                 && after.status.Sent? && after.completedAt == Some(now) && after.lastResponse == resp && after.lastError == ""
               case Err(e) =>
                 && after.lastResponse == "" && after.lastError == e.msg
                 && if e.permanent || item.attempts + 1 >= c.maxAttempts then after.status.Failed? && after.completedAt == Some(now)
                    else after.status.Deferred? && after.completedAt == item.completedAt
  {
  }

  /** With a base that fits, a deferred message waits the intended delay of the attempt just made. */
  lemma DeferredAsIntended(c: Config, item: Item, out: Mailer.Outcome, now: int)
    requires c.baseMin >= 1 && Settled(c, item, out, now).status.Deferred? && Backoff.Fits(c.baseMin, item.attempts + 1)
    ensures Settled(c, item, out, now).nextAttemptAt == now + Backoff.Intended(c.baseMin, item.attempts + 1)
  {
    Backoff.DelayByWrap(c.baseMin, item.attempts + 1);
  }

  /** The first deferral of a message waits the base interval, at most a day. */
  lemma FirstDeferral(c: Config, item: Item, out: Mailer.Outcome, now: int)
    requires c.baseMin >= 1 && Settled(c, item, out, now).status.Deferred? && Backoff.Fits(c.baseMin, 1) && item.attempts == 0
    ensures Settled(c, item, out, now).nextAttemptAt - now == if c.baseMin * MINUTE <= DAY then c.baseMin * MINUTE else DAY
  {
    DeferredAsIntended(c, item, out, now);
    Backoff.IntendedDoubles(c.baseMin, 1);
  }

  /** Each further deferral waits twice as long as the one before, up to a day. */
  lemma DeferralsDouble(c: Config, item: Item, out: Mailer.Outcome, now: int, again: Mailer.Outcome, later: int)
    requires c.baseMin >= 1 && Backoff.Fits(c.baseMin, item.attempts + 2)
    requires Settled(c, item, out, now).status.Deferred?
    requires Settled(c, Settled(c, item, out, now).(status := Sending), again, later).status.Deferred?
    ensures var first := Settled(c, item, out, now);
            var second := Settled(c, first.(status := Sending), again, later);
            var wait := first.nextAttemptAt - now;
            second.nextAttemptAt - later == if 2 * wait <= DAY then 2 * wait else DAY
  {
    var first := Settled(c, item, out, now);
    Backoff.Positive(c.baseMin * MINUTE, Backoff.Pow2(item.attempts));
    Backoff.Doubled(c.baseMin * MINUTE, Backoff.Pow2(item.attempts));
    DeferredAsIntended(c, item, out, now);
    DeferredAsIntended(c, first.(status := Sending), again, later);
    Backoff.IntendedDoubles(c.baseMin, item.attempts + 1);
  }

  // ---------- Administrators ----------

  /** A retried message is due from now on, as good as new. */
  lemma RetriedIsDue(item: Item, now: int, t: int)
    ensures var after := AfterRetry(item, now);
            && (Due(after, t) <==> now <= t) && after.status.Pending? && after.attempts == 0
            && after.completedAt.None? && after.lastError == "" && after.lastResponse == ""
            && after.id == item.id && after.from == item.from && after.to == item.to && after.raw == item.raw
  {
  }

  /** A canceled message is never due, and was completed now. */
  lemma CanceledIsNeverDue(item: Item, now: int, t: int)
    ensures var after := AfterCancel(item, now);
            && !Due(after, t) && after.status == Status.Canceled && after.completedAt == Some(now)
            && after.attempts == item.attempts && after.lastResponse == item.lastResponse
            && after.id == item.id && after.from == item.from && after.to == item.to && after.raw == item.raw
  {
  }

  /** With a base that fits (the shipped one does), a deferred message is tried again later, within a day. */
  lemma DeferredWithinADay(c: Config, item: Item, out: Mailer.Outcome, now: int)
    requires c.baseMin >= 1 && Settled(c, item, out, now).status.Deferred? && Backoff.Fits(c.baseMin, item.attempts + 1)
    ensures now < Settled(c, item, out, now).nextAttemptAt <= now + DAY
  {
    Backoff.DelayGrows(c.baseMin, item.attempts + 1);
  }

  /** What becomes of a message walked over the mail exchangers: the two error classes decide between retry and failure. */
  lemma AttemptDecides(c: Config, item: Item, answers: seq<Mailer.Answer>, tried: nat, out: Mailer.Outcome, now: int)
    requires Mailer.Walked(answers, tried, out)
    ensures var after := Settled(c, item, out, now);
            && after.attempts == item.attempts + 1
            && (after.status.Sent? <==> exists k: nat :: Mailer.AcceptedAt(answers, k))
            && (after.status.Failed? <==>
                (!after.status.Sent? && (item.attempts + 1 >= c.maxAttempts || exists k: nat :: Mailer.RefusedAt(answers, k))))
            && (after.completedAt.Some? || after.completedAt == item.completedAt)
            && (after.status.Sent? || after.status.Failed? || after.status.Deferred?)
  {
    Mailer.OutcomeIff(answers, tried, out);
  }
}
