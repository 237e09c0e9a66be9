/**
 The message table shared by IMAP, POP3 and local delivery. Rows are kept in primary-key
 order, so a listing ORDER BY id is a filter; each SQL statement is one atomic step.
 */
module MailTable {
  import opened Pop3Wire

  datatype Message = Message(id: nat, user: nat, folder: string, raw: Bytes, seen: bool, flagged: bool, deleted: bool)

  type Rows = seq<Message>

  /** Primary keys are unique, and rows stand in their order. */
  ghost predicate Keyed(rows: Rows) {
    forall i, j :: 0 <= i < j < |rows| ==> rows[i].id < rows[j].id
  }

  function Filter(rows: Rows, p: Message -> bool): Rows {
    if rows == [] then []
    else if p(rows[0]) then [rows[0]] + Filter(rows[1..], p)
    else Filter(rows[1..], p)
  }

  predicate In(m: Message, user: nat, folder: string) {
    m.user == user && m.folder == folder
  }

  function InFolder(user: nat, folder: string): Message -> bool {
    (m: Message) => In(m, user, folder)
  }

  function NotIn(ids: set<nat>): Message -> bool {
    (m: Message) => m.id !in ids
  }

  /** SELECT ... WHERE user_id = ? AND folder = ? ORDER BY id */
  function Listing(rows: Rows, user: nat, folder: string): Rows {
    Filter(rows, InFolder(user, folder))
  }

  /** DELETE ... WHERE id IN ? */
  function Without(rows: Rows, ids: set<nat>): Rows {
    Filter(rows, NotIn(ids))
  }

  function Ids(rows: Rows): (ids: seq<nat>)
    ensures |ids| == |rows| && forall i :: 0 <= i < |rows| ==> ids[i] == rows[i].id
  {
    seq(|rows|, i requires 0 <= i < |rows| => rows[i].id)
  }

  // ---------- Filters ----------

  /** A filter keeps exactly the rows that satisfy it, in order. */
  lemma {:induction false} FilterKeeps(rows: Rows, p: Message -> bool)
    requires Keyed(rows)
    ensures Keyed(Filter(rows, p))
    ensures forall m :: m in Filter(rows, p) <==> m in rows && p(m)
  {
    if rows != [] {
      var rest := rows[1..];
      FilterKeeps(rest, p);
      assert forall m :: m in rest ==> rows[0].id < m.id;
      assert forall m :: m in rows <==> m == rows[0] || m in rest;
    }
  }

  lemma {:induction false} FilterAppend(a: Rows, b: Rows, p: Message -> bool)
    ensures Filter(a + b, p) == Filter(a, p) + Filter(b, p)
  {
    if a == [] {
      assert a + b == b;
    } else {
      FilterAppend(a[1..], b, p);
      assert (a + b)[1..] == a[1..] + b;
    }
  }

  lemma FilterSnoc(rows: Rows, m: Message, p: Message -> bool)
    ensures Filter(rows + [m], p) == Filter(rows, p) + (if p(m) then [m] else [])
  {
    FilterAppend(rows, [m], p);
    assert [m][1..] == [];
  }

  lemma {:induction false} FilterAll(rows: Rows, p: Message -> bool)
    requires forall m :: m in rows ==> p(m)
    ensures Filter(rows, p) == rows
  {
    if rows != [] {
      FilterAll(rows[1..], p);
    }
  }

  lemma {:induction false} FilterBoth(rows: Rows, p: Message -> bool, q: Message -> bool, both: Message -> bool)
    requires forall m :: both(m) <==> p(m) && q(m)
    ensures Filter(Filter(rows, p), q) == Filter(rows, both)
  {
    if rows != [] {
      FilterBoth(rows[1..], p, q, both);
    }
  }

  lemma ListingWithout(rows: Rows, ids: set<nat>, user: nat, folder: string)
    ensures Listing(Without(rows, ids), user, folder) == Without(Listing(rows, user, folder), ids)
  {
    var both := (m: Message) => In(m, user, folder) && m.id !in ids;
    FilterBoth(rows, NotIn(ids), InFolder(user, folder), both);
    FilterBoth(rows, InFolder(user, folder), NotIn(ids), both);
  }

  lemma WithoutTwice(rows: Rows, a: set<nat>, b: set<nat>)
    ensures Without(Without(rows, a), b) == Without(rows, a + b)
  {
    FilterBoth(rows, NotIn(a), NotIn(b), NotIn(a + b));
  }

  lemma WithoutNone(rows: Rows)
    ensures Without(rows, {}) == rows
  {
    FilterAll(rows, NotIn({}));
  }

  // ---------- Column updates ----------

  datatype Column = SEEN | FLAGGED | DELETED

  function Get(m: Message, c: Column): bool {
    match c
    case SEEN => m.seen
    case FLAGGED => m.flagged
    case DELETED => m.deleted
  }

  function Put(m: Message, c: Column, v: bool): Message {
    match c
    case SEEN => m.(seen := v)
    case FLAGGED => m.(flagged := v)
    case DELETED => m.(deleted := v)
  }

  /** UPDATE ... applied row by row. */
  function Mapped(rows: Rows, f: Message -> Message): (r: Rows)
    ensures |r| == |rows| && forall i :: 0 <= i < |rows| ==> r[i] == f(rows[i])
  {
    seq(|rows|, i requires 0 <= i < |rows| => f(rows[i]))
  }

  /** An update that leaves owner and folder alone commutes with the listing. */
  lemma {:induction false} ListingMapped(rows: Rows, f: Message -> Message, user: nat, folder: string)
    requires forall m :: f(m).user == m.user && f(m).folder == m.folder
    ensures Listing(Mapped(rows, f), user, folder) == Mapped(Listing(rows, user, folder), f)
  {
    if rows != [] {
      ListingMapped(rows[1..], f, user, folder);
      assert Mapped(rows, f)[1..] == Mapped(rows[1..], f);
      var kept := Listing(rows, user, folder);
      if In(rows[0], user, folder) {
        assert kept[1..] == Listing(rows[1..], user, folder);
        assert Mapped(kept, f) == [f(rows[0])] + Mapped(kept[1..], f);
      }
    }
  }

  // ---------- The store ----------

  class MailStore {
    var rows: Rows
    var lastId: nat

    constructor ()
      ensures Valid() && rows == [] && lastId == 0
    {
      rows, lastId := [], 0;
    }

    ghost predicate Valid()
      reads this
    {
      Keyed(rows) && forall i :: 0 <= i < |rows| ==> rows[i].id <= lastId
    }

    /** INSERT: the row gets the next id. */
    method Create(m: Message) returns (id: nat)
      requires Valid()
      modifies this
      ensures Valid() && id == lastId == old(lastId) + 1
      ensures rows == old(rows) + [m.(id := id)]
    {
      lastId := lastId + 1;
      id := lastId;
      rows := rows + [m.(id := id)];
    }

    /** UPDATE ... SET column = v WHERE id IN ids */
    method SetColumn(ids: set<nat>, c: Column, v: bool)
      requires Valid()
      modifies `rows
      ensures Valid() && rows == Mapped(old(rows), (m: Message) => if m.id in ids then Put(m, c, v) else m)
    {
      rows := Mapped(rows, (m: Message) => if m.id in ids then Put(m, c, v) else m);
    }

    method MoveToFolder(id: nat, folder: string)
      requires Valid()
      modifies `rows
      ensures Valid() && rows == Mapped(old(rows), (m: Message) => if m.id == id then m.(folder := folder) else m)
    {
      rows := Mapped(rows, (m: Message) => if m.id == id then m.(folder := folder) else m);
    }

    method DeleteMany(ids: set<nat>)
      requires Valid()
      modifies `rows
      ensures Valid() && rows == Without(old(rows), ids)
    {
      FilterKeeps(rows, NotIn(ids));
      assert forall i :: 0 <= i < |Without(rows, ids)| ==> Without(rows, ids)[i] in rows;
      rows := Without(rows, ids);
    }

    method Delete(id: nat)
      modifies `rows
      ensures rows == Without(old(rows), {id})
    {
      rows := Without(rows, {id});
    }
  }
}
