/** The outbound queue table. Each statement is one atomic step on the rows. */
module OutboundQueue {
  import opened Wrappers

  datatype Status = Pending | Sending | Sent | Deferred | Failed | Canceled

  /** A queue row. */
  datatype Item = Item(id: nat, from: string, to: string, raw: string, status: Status, attempts: nat, nextAttemptAt: int,
                       lastResponse: string, lastError: string, completedAt: Option<int>)

  type Table = map<nat, Item>

  /** Waiting for an attempt. */
  predicate Open(item: Item) {
    item.status.Pending? || item.status.Deferred?
  }

  predicate Due(item: Item, now: int) {
    Open(item) && item.nextAttemptAt <= now
  }

  /** SELECT ... WHERE due ORDER BY next_attempt_at LIMIT limit: ties in any order. */
  ghost predicate IsDueList(rows: Table, now: int, limit: nat, items: seq<Item>) {
    && |items| <= limit
    && (forall i :: 0 <= i < |items| ==> items[i].id in rows && items[i] == rows[items[i].id] && Due(items[i], now))
    && (forall i, j :: 0 <= i < j < |items| ==> items[i].id != items[j].id && items[i].nextAttemptAt <= items[j].nextAttemptAt)
    && (forall id: nat :: id in rows && Due(rows[id], now) && rows[id] !in items ==>
          |items| == limit && forall i :: 0 <= i < |items| ==> items[i].nextAttemptAt <= rows[id].nextAttemptAt)
  }

  /** UPDATE ... SET status = sending WHERE id = ? AND status is open; it claims the row exactly when it hits one. */
  predicate Claimable(rows: Table, id: nat) {
    id in rows && Open(rows[id])
  }

  function Claimed(rows: Table, id: nat): Table {
    if Claimable(rows, id) then rows[id := rows[id].(status := Sending)] else rows
  }

  class OutboundStore {
    var rows: Table
    var lastId: nat

    constructor ()
      ensures rows == map[] && lastId == 0
    {
      rows, lastId := map[], 0;
    }

    method Create(item: Item) returns (id: nat)
      modifies this
      ensures id == lastId == old(lastId) + 1 && rows == old(rows)[id := item.(id := id)]
    {
      lastId := lastId + 1;
      id := lastId;
      rows := rows[id := item.(id := id)];
    }

    method GetByID(id: nat) returns (item: Option<Item>)
      ensures item == if id in rows then Some(rows[id]) else None
    {
      item := if id in rows then Some(rows[id]) else None;
    }

    /** Saves the whole row. */
    method Update(item: Item)
      modifies `rows
      ensures rows == old(rows)[item.id := item]
    {
      rows := rows[item.id := item];
    }

    method Claim(id: nat) returns (claimed: bool)
      modifies `rows
      ensures claimed <==> id in old(rows) && (old(rows)[id].status.Pending? || old(rows)[id].status.Deferred?)
      ensures rows == if claimed then old(rows)[id := old(rows)[id].(status := Sending)] else old(rows)
      ensures claimed == Claimable(old(rows), id) && rows == Claimed(old(rows), id)
    {
      claimed := Claimable(rows, id);
      rows := Claimed(rows, id);
    }
  }

  /** Of two claims of a row, with nothing between them, only the first succeeds. */
  lemma ClaimedOnce(rows: Table, id: nat)
    ensures !Claimable(Claimed(rows, id), id)
    ensures forall other: nat :: other != id ==> (Claimable(Claimed(rows, id), other) <==> Claimable(rows, other))
  {
  }

  /** The first of every scan has been due as long as any, and every message left out is due no longer than those listed. */
  lemma ScanIsFair(rows: Table, now: int, limit: nat, items: seq<Item>, id: nat)
    requires IsDueList(rows, now, limit, items) && limit >= 1 && id in rows && Due(rows[id], now)
    ensures items != [] && items[0].nextAttemptAt <= rows[id].nextAttemptAt
    ensures rows[id] !in items ==> |items| == limit && items[limit - 1].nextAttemptAt <= rows[id].nextAttemptAt
  {
    if rows[id] in items {
      var i :| 0 <= i < |items| && items[i] == rows[id];
      assert items[0].nextAttemptAt <= items[i].nextAttemptAt;
    }
  }

  /** Only messages pending or deferred whose time has come are scanned; all of them, as long as there is room for more. */
  lemma ScanIsExact(rows: Table, now: int, limit: nat, items: seq<Item>, id: nat)
    requires IsDueList(rows, now, limit, items) && id in rows && rows[id].id == id
    ensures rows[id] in items ==> (rows[id].status.Pending? || rows[id].status.Deferred?) && rows[id].nextAttemptAt <= now
    ensures |items| < limit && (rows[id].status.Pending? || rows[id].status.Deferred?) && rows[id].nextAttemptAt <= now ==>
              rows[id] in items
  {
    if rows[id] in items {
      var i :| 0 <= i < |items| && items[i] == rows[id];
      assert Due(items[i], now);
    }
  }
}
