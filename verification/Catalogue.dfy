/**
 The folder catalogue: mailbox rows, the messages filed under their names, and UIDVALIDITY rows.
 Every operation of the service is one step on the three tables.
 */
module Catalogue {
  import ImapArrivals
  import opened ImapCommands
  import opened MailboxNames
  import opened MailTable
  import opened Wrappers

  datatype Box = Box(user: nat, name: string, specialUse: string, subscribed: bool)

  type Boxes = seq<Box>

  type Key = (nat, string)

  datatype Error = NotFound | Exists | Invalid | System | NotEmpty

  datatype World = World(boxes: Boxes, rows: Rows, lastId: nat, states: map<Key, nat>)

  predicate Has(boxes: Boxes, user: nat, name: string) {
    exists i :: 0 <= i < |boxes| && boxes[i].user == user && boxes[i].name == name
  }

  // ---------- What each operation does ----------

  /** Those of the first `k` system mailboxes the user does not have yet. */
  function Missing(boxes: Boxes, user: nat, k: nat): Boxes
    requires k <= 4
  {
    if k == 0 then []
    else Missing(boxes, user, k - 1)
         + if Has(boxes, user, SYSTEM[k - 1]) then [] else [Box(user, SYSTEM[k - 1], SpecialUse(k - 1), true)]
  }

  function WithSystem(boxes: Boxes, user: nat): Boxes {
    boxes + Missing(boxes, user, 4)
  }

  /** Resolving a name creates the system mailboxes first, unless the name is blank. */
  function Resolving(w: World, user: nat, name: string): World {
    if Trim(name) == "" then w else w.(boxes := WithSystem(w.boxes, user))
  }

  function Canonical(w: World, user: nat, name: string): Option<string> {
    var t := Trim(name);
    if t == "" then None
    else if FoldsToInbox(t) then Some("INBOX")
    else if Has(WithSystem(w.boxes, user), user, t) then Some(t)
    else None
  }

  function CreateStep(w: World, user: nat, name: string): (World, Option<Error>) {
    var t := Trim(name);
    if !MailboxNames.Valid(t) then (w, Some(Invalid))
    else if FoldsToInbox(t) then (w, Some(Error.Exists))
    else
      var w1 := w.(boxes := WithSystem(w.boxes, user));
      if Has(w1.boxes, user, t) then (w1, Some(Error.Exists))
      else (w1.(boxes := w1.boxes + [Box(user, t, "", true)]), None)
  }

  function RemoveBox(boxes: Boxes, user: nat, name: string): Boxes {
    if boxes == [] then []
    else (if boxes[0].user == user && boxes[0].name == name then [] else [boxes[0]]) + RemoveBox(boxes[1..], user, name)
  }

  function DeleteStep(w: World, user: nat, name: string): (World, Option<Error>) {
    var w1 := Resolving(w, user, name);
    match Canonical(w, user, name)
    case None => (w1, Some(NotFound))
    case Some(c) =>
      if IsSystem(c) then (w1, Some(System))
      else if Listing(w1.rows, user, c) != [] then (w1, Some(NotEmpty))
      else (w1.(boxes := RemoveBox(w1.boxes, user, c), states := w1.states - {(user, c)}), None)
  }

  function RenameBox(boxes: Boxes, user: nat, name: string, to: string): (r: Boxes)
    ensures |r| == |boxes|
    ensures forall i :: 0 <= i < |r| ==>
              r[i] == if boxes[i].user == user && boxes[i].name == name then boxes[i].(name := to) else boxes[i]
  {
    seq(|boxes|, i requires 0 <= i < |boxes| =>
      if boxes[i].user == user && boxes[i].name == name then boxes[i].(name := to) else boxes[i])
  }

  function Refiled(rows: Rows, user: nat, name: string, to: string): Rows {
    Mapped(rows, (m: Message) => if In(m, user, name) then m.(folder := to) else m)
  }

  function RenameStep(w: World, user: nat, name: string, to: string): (World, Option<Error>) {
    var w1, t := Resolving(w, user, name), Trim(to);
    match Canonical(w, user, name)
    case None => (w1, Some(NotFound))
    case Some(c) =>
      if IsSystem(c) then (w1, Some(System))
      else if !MailboxNames.Valid(t) || FoldsToInbox(t) || IsSystem(t) then (w1, Some(Invalid))
      else if Has(w1.boxes, user, t) then (w1, Some(Error.Exists))
      else
        (w1.(boxes := RenameBox(w1.boxes, user, c, t), rows := Refiled(w1.rows, user, c, t), states := w1.states - {(user, c)}), None)
  }

  predicate Owns(rows: Rows, user: nat, id: nat) {
    exists i :: 0 <= i < |rows| && rows[i].id == id && rows[i].user == user
  }

  /** The messages a service move takes: the user's own among `ids`, up to the first whose UPDATE fails. */
  function MovedIds(rows: Rows, user: nat, ids: seq<nat>, failing: set<nat>): set<nat> {
    if ids == [] then {}
    else if !Owns(rows, user, ids[0]) then MovedIds(rows, user, ids[1..], failing)
    else if ids[0] in failing then {}
    else {ids[0]} + MovedIds(rows, user, ids[1..], failing)
  }

  /** The service files messages under the name as given, not under the one it resolved to. */
  function MoveStep(w: World, user: nat, ids: seq<nat>, dest: string, failing: set<nat>): World {
    if ids == [] then w
    else
      var w1 := Resolving(w, user, dest);
      if Canonical(w, user, dest).None? then w1
      else w1.(rows := MovedRows(w1.rows, MovedIds(w1.rows, user, ids, failing), dest))
  }

  /** The first access draws a value and stores it; zero is never a UIDVALIDITY. */
  function UidValidityStep(w: World, user: nat, folder: string, draw: nat): (World, nat) {
    if (user, folder) in w.states && w.states[(user, folder)] != 0 then (w, w.states[(user, folder)])
    else
      var v := if draw == 0 then 1 else draw;
      (w.(states := w.states[(user, folder) := v]), v)
  }

  // ---------- The service ----------

  class MailboxService {
    var boxes: Boxes
    var rows: Rows
    var lastId: nat
    var states: map<Key, nat>

    constructor ()
      ensures Now() == World([], [], 0, map[])
    {
      boxes, rows, lastId, states := [], [], 0, map[];
    }

    ghost function Now(): World
      reads this
    {
      World(boxes, rows, lastId, states)
    }

    method EnsureSystem(user: nat)
      modifies `boxes
      ensures boxes == WithSystem(old(boxes), user)
    {
      var existing, have: set<string> := boxes, {};
      for i := 0 to |existing|
        invariant boxes == existing
        invariant forall n :: n in have <==> Has(existing[..i], user, n)
      {
        HasSnoc(existing[..i], existing[i]);
        assert existing[..i + 1] == existing[..i] + [existing[i]];
        if existing[i].user == user {
          have := have + {existing[i].name};
        }
      }
      assert existing[..|existing|] == existing;
      assert old(boxes) + [] == boxes;
      for k := 0 to 4
        invariant boxes == old(boxes) + Missing(old(boxes), user, k)
      {
        if SYSTEM[k] !in have {
          boxes := boxes + [Box(user, SYSTEM[k], SpecialUse(k), true)];
        }
      }
    }

    method CanonicalName(user: nat, name: string) returns (c: Option<string>)
      modifies `boxes
      ensures Now() == Resolving(old(Now()), user, name) && c == Canonical(old(Now()), user, name)
    {
      var t := Trim(name);
      if t == "" {
        return None;
      }
      EnsureSystem(user);
      if FoldsToInbox(t) {
        return Some("INBOX");
      }
      if !Has(boxes, user, t) {
        return None;
      }
      c := Some(t);
    }

    method Create(user: nat, name: string) returns (err: Option<Error>)
      modifies `boxes
      ensures (Now(), err) == CreateStep(old(Now()), user, name)
    {
      var t := Trim(name);
      if !MailboxNames.Valid(t) {
        return Some(Invalid);
      }
      if FoldsToInbox(t) {
        return Some(Error.Exists);
      }
      EnsureSystem(user);
      if Has(boxes, user, t) {
        return Some(Error.Exists);
      }
      boxes := boxes + [Box(user, t, "", true)];
      err := None;
    }

    method Delete(user: nat, name: string) returns (err: Option<Error>)
      modifies this
      ensures (Now(), err) == DeleteStep(old(Now()), user, name)
    {
      var c := CanonicalName(user, name);
      if c.None? {
        return Some(NotFound);
      }
      if IsSystem(c.value) {
        return Some(System);
      }
      if |Listing(rows, user, c.value)| > 0 {
        return Some(NotEmpty);
      }
      boxes := RemoveBox(boxes, user, c.value);
      states := states - {(user, c.value)};
      err := None;
    }

    method Rename(user: nat, name: string, to: string) returns (err: Option<Error>)
      modifies this
      ensures (Now(), err) == RenameStep(old(Now()), user, name, to)
    {
      var c := CanonicalName(user, name);
      if c.None? {
        return Some(NotFound);
      }
      if IsSystem(c.value) {
        return Some(System);
      }
      var t := Trim(to);
      if !MailboxNames.Valid(t) {
        return Some(Invalid);
      }
      if FoldsToInbox(t) || IsSystem(t) {
        return Some(Invalid);
      }
      if Has(boxes, user, t) {
        return Some(Error.Exists);
      }
      boxes := RenameBox(boxes, user, c.value, t);
      rows := Refiled(rows, user, c.value, t);
      states := states - {(user, c.value)};
      err := None;
    }

    /** The server-side move; false when the name resolves to nothing or an UPDATE fails. */
    method Move(user: nat, ids: seq<nat>, dest: string, failing: set<nat>) returns (ok: bool)
      modifies this
      ensures Now() == MoveStep(old(Now()), user, ids, dest, failing)
      ensures ok <==> ids == [] || (Canonical(old(Now()), user, dest).Some?
                                    && forall i :: 0 <= i < |ids| && Owns(old(rows), user, ids[i]) ==> ids[i] !in failing)
    {
      if |ids| == 0 {
        return true;
      }
      var c := CanonicalName(user, dest);
      if c.None? {
        return false;
      }
      ghost var moved := {};
      assert MovedRows(rows, {}, dest) == rows;
      for i := 0 to |ids|
        invariant boxes == WithSystem(old(boxes), user) && lastId == old(lastId) && states == old(states)
        invariant rows == MovedRows(old(rows), moved, dest)
        invariant moved + MovedIds(old(rows), user, ids[i..], failing) == MovedIds(old(rows), user, ids, failing)
        invariant forall j :: 0 <= j < i && Owns(old(rows), user, ids[j]) ==> ids[j] !in failing
      {
        assert ids[i..][1..] == ids[i + 1..];
        OwnsAfterMove(old(rows), moved, dest, user, ids[i]);
        if !Owns(rows, user, ids[i]) {
          continue;
        }
        if ids[i] in failing {
          return false;
        }
        rows := MovedRows(rows, {ids[i]}, dest);
        moved := moved + {ids[i]};
      }
      ok := true;
    }

    method UidValidity(user: nat, folder: string, draw: nat) returns (v: nat)
      modifies `states
      ensures (Now(), v) == UidValidityStep(old(Now()), user, folder, draw)
    {
      if (user, folder) in states {
        if states[(user, folder)] != 0 {
          return states[(user, folder)];
        }
      }
      v := draw;
      if v == 0 {
        v := 1;
      }
      states := states[(user, folder) := v];
    }
  }

  lemma HasSnoc(boxes: Boxes, b: Box)
    ensures forall user, name :: Has(boxes + [b], user, name) <==> Has(boxes, user, name) || (b.user == user && b.name == name)
  {
    HasAppend(boxes, [b]);
    HasOne(b);
  }

  lemma HasAppend(a: Boxes, b: Boxes)
    ensures forall user, name :: Has(a + b, user, name) <==> Has(a, user, name) || Has(b, user, name)
  {
    forall user, name ensures Has(a + b, user, name) <==> Has(a, user, name) || Has(b, user, name) {
      if i :| 0 <= i < |a| && a[i].user == user && a[i].name == name {
        assert (a + b)[i] == a[i];
      }
      if i :| 0 <= i < |b| && b[i].user == user && b[i].name == name {
        assert (a + b)[|a| + i] == b[i];
      }
    }
  }

  lemma OwnsAfterMove(rows: Rows, ids: set<nat>, dest: string, user: nat, id: nat)
    ensures Owns(MovedRows(rows, ids, dest), user, id) <==> Owns(rows, user, id)
  {
    var moved := MovedRows(rows, ids, dest);
    assert forall i :: 0 <= i < |rows| ==> moved[i].id == rows[i].id && moved[i].user == rows[i].user;
  }

  // ---------- The catalogue's invariant ----------

  ghost predicate Unique(boxes: Boxes) {
    forall i, j :: 0 <= i < j < |boxes| ==> (boxes[i].user, boxes[i].name) != (boxes[j].user, boxes[j].name)
  }

  ghost predicate AllClean(boxes: Boxes) {
    forall i :: 0 <= i < |boxes| ==> Clean(boxes[i].name)
  }

  /** Every message is filed under a system name or an existing mailbox of its owner. */
  ghost predicate Placed(boxes: Boxes, rows: Rows) {
    forall i :: 0 <= i < |rows| ==> Housed(boxes, rows[i])
  }

  predicate Housed(boxes: Boxes, m: Message) {
    IsSystem(m.folder) || Has(boxes, m.user, m.folder)
  }

  /** UIDVALIDITY rows exist only for existing mailboxes. */
  ghost predicate StatesPlaced(boxes: Boxes, states: map<Key, nat>) {
    forall k :: k in states ==> Has(boxes, k.0, k.1)
  }

  ghost predicate NoZero(states: map<Key, nat>) {
    forall k :: k in states ==> states[k] != 0
  }

  /** Message ids are unique, in order, and none is ahead of the counter. */
  ghost predicate Numbered(rows: Rows, lastId: nat) {
    Keyed(rows) && forall i :: 0 <= i < |rows| ==> rows[i].id <= lastId
  }

  ghost predicate Sound(w: World) {
    && Unique(w.boxes) && AllClean(w.boxes) && Placed(w.boxes, w.rows) && StatesPlaced(w.boxes, w.states)
    && NoZero(w.states) && Numbered(w.rows, w.lastId)
  }

  ghost predicate Covers(a: Boxes, b: Boxes) {
    forall user, name :: Has(b, user, name) ==> Has(a, user, name)
  }

  lemma CoverKeeps(a: Boxes, b: Boxes, rows: Rows, states: map<Key, nat>)
    requires Covers(a, b) && Placed(b, rows) && StatesPlaced(b, states)
    ensures Placed(a, rows) && StatesPlaced(a, states)
  {
    hide Has;
    forall i | 0 <= i < |rows| ensures Housed(a, rows[i]) {
      assert Housed(b, rows[i]);
    }
  }

  lemma UniqueSnoc(boxes: Boxes, b: Box)
    requires Unique(boxes) && AllClean(boxes) && !Has(boxes, b.user, b.name) && Clean(b.name)
    ensures Unique(boxes + [b]) && AllClean(boxes + [b])
  {
  }

  predicate FirstSystem(k: nat, name: string)
    requires k <= 4
  {
    exists j :: 0 <= j < k && SYSTEM[j] == name
  }

  lemma NextSystem(k: nat)
    requires k < 4
    ensures forall n :: FirstSystem(k + 1, n) <==> FirstSystem(k, n) || n == SYSTEM[k]
    ensures !FirstSystem(k, SYSTEM[k]) && Clean(SYSTEM[k])
  {
    SystemNames();
    hide IsSystem, Clean;
    SystemIsClean(SYSTEM[k]);
  }

  lemma NoneFirst()
    ensures forall n :: !FirstSystem(0, n)
  {
  }

  lemma {:induction false} MissingFits(boxes: Boxes, user: nat, k: nat)
    requires k <= 4 && Unique(boxes) && AllClean(boxes)
    ensures var r := boxes + Missing(boxes, user, k);
            && Unique(r) && AllClean(r)
            && forall u: nat, n: string :: Has(r, u, n) <==> Has(boxes, u, n) || (u == user && FirstSystem(k, n))
  {
    hide Has, Clean, SpecialUse, FirstSystem, Unique, AllClean;
    if k == 0 {
      assert boxes + [] == boxes;
      NoneFirst();
    } else {
      MissingFits(boxes, user, k - 1);
      NextSystem(k - 1);
      var before := boxes + Missing(boxes, user, k - 1);
      var b := Box(user, SYSTEM[k - 1], SpecialUse(k - 1), true);
      if Has(boxes, user, SYSTEM[k - 1]) {
        assert boxes + Missing(boxes, user, k) == before;
      } else {
        assert boxes + Missing(boxes, user, k) == before + [b];
        UniqueSnoc(before, b);
        HasSnoc(before, b);
      }
    }
  }

  /** The system mailboxes are there, and everything that was there before; nothing else is. */
  lemma WithSystemHas(boxes: Boxes, user: nat)
    requires Unique(boxes) && AllClean(boxes)
    ensures var r := WithSystem(boxes, user);
            && Unique(r) && AllClean(r) && boxes <= r
            && forall u: nat, n: string :: Has(r, u, n) <==> Has(boxes, u, n) || (u == user && IsSystem(n))
  {
    hide Has;
    MissingFits(boxes, user, 4);
    SystemNames();
  }

  lemma ResolvingSound(w: World, user: nat, name: string)
    requires Sound(w)
    ensures Sound(Resolving(w, user, name))
  {
    hide Has;
    WithSystemHas(w.boxes, user);
    CoverKeeps(WithSystem(w.boxes, user), w.boxes, w.rows, w.states);
  }

  /** A resolved name is an existing mailbox of the user, is spelled as stored, and resolves to itself. */
  lemma CanonicalIsStored(w: World, user: nat, name: string)
    requires Sound(w) && Canonical(w, user, name).Some?
    ensures var w1, c := Resolving(w, user, name), Canonical(w, user, name).value;
            Has(w1.boxes, user, c) && Clean(c) && Canonical(w1, user, c) == Some(c)
  {
    var w1, c := Resolving(w, user, name), Canonical(w, user, name).value;
    WithSystemHas(w.boxes, user);
    SystemIsClean("INBOX");
    if !FoldsToInbox(Trim(name)) {
      var i :| 0 <= i < |w1.boxes| && w1.boxes[i].user == user && w1.boxes[i].name == c;
      assert Clean(w1.boxes[i].name);
    }
    assert c != "" by {
      assert Trim("") == "";
    }
    WithSystemHas(w1.boxes, user);
  }

  lemma UniqueCons(b: Box, rest: Boxes)
    ensures Unique([b] + rest) <==> Unique(rest) && !Has(rest, b.user, b.name)
    ensures AllClean([b] + rest) <==> AllClean(rest) && Clean(b.name)
  {
    var all := [b] + rest;
    assert all[0] == b && all[1..] == rest;
    forall i, j | Unique(rest) && !Has(rest, b.user, b.name) && 0 <= i < j < |all|
      ensures (all[i].user, all[i].name) != (all[j].user, all[j].name)
    {
      assert all[j] == rest[j - 1];
      assert i > 0 ==> all[i] == rest[i - 1];
    }
    assert forall i :: 0 <= i < |rest| ==> all[i + 1] == rest[i];
    assert AllClean(rest) && Clean(b.name) ==> AllClean(all);
  }

  lemma {:induction false} RemoveBoxKeeps(boxes: Boxes, user: nat, name: string)
    requires Unique(boxes) && AllClean(boxes)
    ensures var r := RemoveBox(boxes, user, name);
            && Unique(r) && AllClean(r)
            && forall u: nat, n: string :: Has(r, u, n) <==> Has(boxes, u, n) && !(u == user && n == name)
  {
    if boxes != [] {
      var head, rest := boxes[0], boxes[1..];
      assert [head] + rest == boxes;
      UniqueCons(head, rest);
      hide Unique, AllClean, Clean;
      RemoveBoxKeeps(rest, user, name);
      HasAppend([head], rest);
      HasOne(head);
      hide Has;
      var r := RemoveBox(rest, user, name);
      if head.user == user && head.name == name {
        assert RemoveBox(boxes, user, name) == r;
      } else {
        assert RemoveBox(boxes, user, name) == [head] + r;
        HasAppend([head], r);
        UniqueCons(head, r);
      }
    }
  }

  lemma HasOne(b: Box)
    ensures forall u: nat, n: string :: Has([b], u, n) <==> b.user == u && b.name == n
  {
    assert [b][0] == b;
  }

  lemma RenameBoxKeeps(boxes: Boxes, user: nat, name: string, to: string)
    requires Unique(boxes) && AllClean(boxes) && Has(boxes, user, name) && !Has(boxes, user, to) && Clean(to)
    ensures var r := RenameBox(boxes, user, name, to);
            && Unique(r) && AllClean(r)
            && forall u: nat, n: string :: Has(r, u, n) <==> (Has(boxes, u, n) && !(u == user && n == name)) || (u == user && n == to)
  {
    var r := RenameBox(boxes, user, name, to);
    forall u: nat, n: string ensures Has(r, u, n) <==> (Has(boxes, u, n) && !(u == user && n == name)) || (u == user && n == to) {
      if i :| 0 <= i < |boxes| && boxes[i].user == u && boxes[i].name == n && !(u == user && n == name) {
        assert r[i] == boxes[i];
      }
      if i :| 0 <= i < |boxes| && boxes[i].user == user && boxes[i].name == name && (u == user && n == to) {
        assert r[i].name == to;
      }
      if i :| 0 <= i < |r| && r[i].user == u && r[i].name == n {
        assert (boxes[i].user == user && boxes[i].name == name) || r[i] == boxes[i];
      }
    }
    forall i, j | 0 <= i < j < |r| ensures (r[i].user, r[i].name) != (r[j].user, r[j].name) {
      assert (boxes[i].user, boxes[i].name) != (boxes[j].user, boxes[j].name);
      assert (boxes[i].user, boxes[i].name) != (user, to) && (boxes[j].user, boxes[j].name) != (user, to);
    }
  }

  lemma CreateSound(w: World, user: nat, name: string)
    requires Sound(w)
    ensures Sound(CreateStep(w, user, name).0)
  {
    hide Has;
    var t := Trim(name);
    if MailboxNames.Valid(t) && !FoldsToInbox(t) {
      TrimIffBare(name);
      ResolvingSound(w, user, name);
      var boxes := WithSystem(w.boxes, user);
      assert t != "";
      if !Has(boxes, user, t) {
        UniqueSnoc(boxes, Box(user, t, "", true));
        HasSnoc(boxes, Box(user, t, "", true));
        CoverKeeps(boxes + [Box(user, t, "", true)], boxes, w.rows, w.states);
      }
    }
  }

  lemma EmptyListing(rows: Rows, user: nat, name: string)
    requires Listing(rows, user, name) == []
    ensures forall i :: 0 <= i < |rows| ==> !In(rows[i], user, name)
  {
    if rows != [] {
      EmptyListing(rows[1..], user, name);
    }
  }

  lemma DeleteSound(w: World, user: nat, name: string)
    requires Sound(w)
    ensures Sound(DeleteStep(w, user, name).0)
  {
    hide Has;
    ResolvingSound(w, user, name);
    var w1 := Resolving(w, user, name);
    if DeleteStep(w, user, name).1.None? {
      var c := Canonical(w, user, name).value;
      RemoveBoxKeeps(w1.boxes, user, c);
      EmptyListing(w1.rows, user, c);
      var r := RemoveBox(w1.boxes, user, c);
      forall i | 0 <= i < |w1.rows| ensures Housed(r, w1.rows[i]) {
        assert Housed(w1.boxes, w1.rows[i]);
      }
    }
  }

  lemma RenameSound(w: World, user: nat, name: string, to: string)
    requires Sound(w)
    ensures Sound(RenameStep(w, user, name, to).0)
  {
    hide Has;
    ResolvingSound(w, user, name);
    var w1, t := Resolving(w, user, name), Trim(to);
    if RenameStep(w, user, name, to).1.None? {
      var c := Canonical(w, user, name).value;
      CanonicalIsStored(w, user, name);
      TrimIffBare(to);
      RenameBoxKeeps(w1.boxes, user, c, t);
      var r, rows := RenameBox(w1.boxes, user, c, t), Refiled(w1.rows, user, c, t);
      forall i | 0 <= i < |rows| ensures Housed(r, rows[i]) {
        assert Housed(w1.boxes, w1.rows[i]);
      }
    }
  }

  // ---------- Messages coming, going and moving ----------

  function Insert(w: World, m: Message): World {
    w.(rows := w.rows + [m.(id := w.lastId + 1)], lastId := w.lastId + 1)
  }

  lemma InsertSound(w: World, m: Message)
    requires Sound(w) && Housed(w.boxes, m)
    ensures Sound(Insert(w, m))
  {
    hide Has, Clean;
    assert Housed(w.boxes, m.(id := w.lastId + 1));
  }

  function InsertCopies(w: World, sources: Rows, user: nat, dest: string): World {
    w.(rows := w.rows + ImapArrivals.Copies(sources, user, dest, w.lastId), lastId := w.lastId + |sources|)
  }

  lemma CopiesSound(w: World, sources: Rows, user: nat, dest: string)
    requires Sound(w) && Has(w.boxes, user, dest)
    ensures Sound(InsertCopies(w, sources, user, dest))
  {
    hide Has, Clean, IsSystem;
    var copies := ImapArrivals.Copies(sources, user, dest, w.lastId);
    assert forall i :: 0 <= i < |copies| ==> Housed(w.boxes, copies[i]);
  }

  lemma MovedSound(w: World, user: nat, ids: set<nat>, dest: string)
    requires Sound(w) && Has(w.boxes, user, dest)
    requires forall id: nat :: id in ids ==> Owns(w.rows, user, id)
    ensures Sound(w.(rows := MovedRows(w.rows, ids, dest)))
  {
    hide Has, Clean, IsSystem;
    var rows := MovedRows(w.rows, ids, dest);
    forall i | 0 <= i < |rows| ensures Housed(w.boxes, rows[i]) {
      assert Housed(w.boxes, w.rows[i]);
      if w.rows[i].id in ids {
        OwnerIs(w.rows, user, w.rows[i]);
      }
    }
  }

  lemma OwnerIs(rows: Rows, user: nat, m: Message)
    requires Keyed(rows) && m in rows && Owns(rows, user, m.id)
    ensures m.user == user
  {
    var i :| 0 <= i < |rows| && rows[i].id == m.id && rows[i].user == user;
    SameId(rows, rows[i], m);
  }

  lemma ExpungeSound(w: World, ids: set<nat>)
    requires Sound(w)
    ensures Sound(w.(rows := Without(w.rows, ids)))
  {
    hide Has, Clean, IsSystem, Filter;
    FilterKeeps(w.rows, NotIn(ids));
    var rows := Without(w.rows, ids);
    forall i | 0 <= i < |rows| ensures Housed(w.boxes, rows[i]) && rows[i].id <= w.lastId {
      assert rows[i] in rows;
      var j :| 0 <= j < |w.rows| && w.rows[j] == rows[i];
      assert Housed(w.boxes, w.rows[j]);
    }
  }

  lemma {:induction false} MovedAreOwned(rows: Rows, user: nat, ids: seq<nat>, failing: set<nat>)
    ensures forall id: nat :: id in MovedIds(rows, user, ids, failing) ==> Owns(rows, user, id)
  {
    if ids != [] {
      MovedAreOwned(rows, user, ids[1..], failing);
    }
  }

  /** A stored or system name resolves to itself. */
  lemma StoredIsCanonical(w: World, user: nat, name: string)
    requires Sound(w) && (IsSystem(name) || Has(WithSystem(w.boxes, user), user, name))
    ensures Canonical(w, user, name) == Some(name)
  {
    WithSystemHas(w.boxes, user);
    var boxes := WithSystem(w.boxes, user);
    if IsSystem(name) {
      SystemIsClean(name);
    } else {
      var i :| 0 <= i < |boxes| && boxes[i].user == user && boxes[i].name == name;
      assert Clean(boxes[i].name);
    }
  }

  /**
   The service move keeps the catalogue sound exactly when the destination is given as stored,
   or resolves to nothing, or nothing moves: other spellings leave messages in a folder that is not there.
   */
  lemma ServiceMoveSoundIff(w: World, user: nat, ids: seq<nat>, dest: string, failing: set<nat>)
    requires Sound(w)
    ensures Sound(MoveStep(w, user, ids, dest, failing)) <==>
            Canonical(w, user, dest) in {None, Some(dest)} || MovedIds(w.rows, user, ids, failing) == {}
  {
    hide Has, Clean, IsSystem;
    ResolvingSound(w, user, dest);
    var w1, moved := Resolving(w, user, dest), MovedIds(w.rows, user, ids, failing);
    MovedAreOwned(w.rows, user, ids, failing);
    if moved == {} {
      assert MovedRows(w.rows, {}, dest) == w.rows;
    } else if Canonical(w, user, dest) == Some(dest) {
      CanonicalIsStored(w, user, dest);
      MovedSound(w1, user, moved, dest);
    } else if Canonical(w, user, dest).Some? {
      MisfiledIsUnsound(w, user, moved, dest);
    }
  }

  lemma MisfiledIsUnsound(w: World, user: nat, moved: set<nat>, dest: string)
    requires Sound(w) && Canonical(w, user, dest).Some? && Canonical(w, user, dest) != Some(dest)
    requires moved != {} && forall id: nat :: id in moved ==> Owns(w.rows, user, id)
    ensures !Placed(Resolving(w, user, dest).boxes, MovedRows(w.rows, moved, dest))
  {
    hide Clean, WithSystem, FoldsToInbox;
    var id: nat :| id in moved;
    var i :| 0 <= i < |w.rows| && w.rows[i].id == id && w.rows[i].user == user;
    if IsSystem(dest) || Has(WithSystem(w.boxes, user), user, dest) {
      StoredIsCanonical(w, user, dest);
    }
    hide Has, IsSystem;
    assert !Housed(Resolving(w, user, dest).boxes, MovedRows(w.rows, moved, dest)[i]);
  }

  lemma UidValiditySound(w: World, user: nat, folder: string, draw: nat)
    requires Sound(w) && Has(w.boxes, user, folder)
    ensures Sound(UidValidityStep(w, user, folder, draw).0)
  {
    hide Has, Clean, IsSystem;
  }

  // ---------- Runs ----------

  /**
   `Visit` is any command that only resolves a name; `Deliver` files into a system folder; `Announce` is any command
   that answers a UIDVALIDITY.
   */
  datatype Event =
    | Visit(user: nat, name: string)
    | Create(user: nat, name: string)
    | Delete(user: nat, name: string)
    | Rename(user: nat, name: string, to: string)
    | Deliver(m: Message)
    | Append(user: nat, name: string, m: Message)
    | Copy(user: nat, name: string, sources: Rows)
    | Relocate(user: nat, name: string, ids: set<nat>)
    | ServiceMove(user: nat, list: seq<nat>, dest: string, failing: set<nat>)
    | Expunge(ids: set<nat>)
    | Announce(user: nat, name: string, draw: nat)

  function OwnIds(rows: Rows, user: nat, ids: set<nat>): set<nat> {
    set id: nat | id in ids && Owns(rows, user, id)
  }

  function Next(w: World, e: Event): World {
    match e
    case Visit(user, name) => Resolving(w, user, name)
    case Create(user, name) => CreateStep(w, user, name).0
    case Delete(user, name) => DeleteStep(w, user, name).0
    case Rename(user, name, to) => RenameStep(w, user, name, to).0
    case Deliver(m) => if IsSystem(m.folder) then Insert(w, m) else w
    case ServiceMove(user, ids, dest, failing) => MoveStep(w, user, ids, dest, failing)
    case Expunge(ids) => w.(rows := Without(w.rows, ids))
    case _ =>
      var w1, c := Resolving(w, e.user, e.name), Canonical(w, e.user, e.name);
      if c.None? then w1
      else
        match e
        case Append(user, _, m) => Insert(w1, m.(user := user, folder := c.value))
        case Copy(user, _, sources) => InsertCopies(w1, sources, user, c.value)
        case Relocate(user, _, ids) => w1.(rows := MovedRows(w1.rows, OwnIds(w1.rows, user, ids), c.value))
        case Announce(user, _, draw) => UidValidityStep(w1, user, c.value, draw).0
  }

  /** A service move is given its destination as stored; its callers pass INBOX and Trash. */
  predicate Tame(w: World, e: Event) {
    e.ServiceMove? ==> Canonical(w, e.user, e.dest) in {None, Some(e.dest)} || MovedIds(w.rows, e.user, e.list, e.failing) == {}
  }

  lemma NamedStepSound(w: World, e: Event)
    requires Sound(w) && (e.Append? || e.Copy? || e.Relocate? || e.Announce?)
    ensures Sound(Next(w, e))
  {
    hide Has, Sound, Clean, IsSystem, Canonical;
    ResolvingSound(w, e.user, e.name);
    var w1 := Resolving(w, e.user, e.name);
    if Canonical(w, e.user, e.name).Some? {
      CanonicalIsStored(w, e.user, e.name);
      var c := Canonical(w, e.user, e.name).value;
      hide Resolving;
      match e
      case Append(user, _, m) => InsertSound(w1, m.(user := user, folder := c));
      case Copy(user, _, sources) => CopiesSound(w1, sources, user, c);
      case Relocate(user, _, ids) => MovedSound(w1, user, OwnIds(w1.rows, user, ids), c);
      case Announce(user, _, draw) => UidValiditySound(w1, user, c, draw);
    }
  }

  lemma StepSoundIff(w: World, e: Event)
    requires Sound(w)
    ensures Sound(Next(w, e)) <==> Tame(w, e)
  {
    hide Has, Sound, Clean, IsSystem, Canonical, CreateStep, DeleteStep, RenameStep, MoveStep, MovedIds, Resolving, UidValidityStep;
    match e
    case Visit(user, name) => ResolvingSound(w, user, name);
    case Create(user, name) => CreateSound(w, user, name);
    case Delete(user, name) => DeleteSound(w, user, name);
    case Rename(user, name, to) => RenameSound(w, user, name, to);
    case Deliver(m) =>
      if IsSystem(m.folder) {
        assert Housed(w.boxes, m);
        InsertSound(w, m);
      }
    case ServiceMove(user, ids, dest, failing) => ServiceMoveSoundIff(w, user, ids, dest, failing);
    case Expunge(ids) => ExpungeSound(w, ids);
    case _ => NamedStepSound(w, e);
  }

  /** Events in any order, the latest last. */
  datatype Run = Start | Then(before: Run, e: Event)

  function Now(from: World, r: Run): World {
    if r.Start? then from else Next(Now(from, r.before), r.e)
  }

  predicate TameRun(from: World, r: Run) {
    r.Then? ==> TameRun(from, r.before) && Tame(Now(from, r.before), r.e)
  }

  const EMPTY := World([], [], 0, map[])

  /**
   In every reachable state mailbox names are unique per user and clean, every message has an existing folder,
   and UIDVALIDITY rows are non-zero and only for existing mailboxes.
   */
  lemma {:induction false} CatalogueStaysSound(r: Run)
    requires TameRun(EMPTY, r)
    ensures Sound(Now(EMPTY, r))
  {
    if r.Then? {
      CatalogueStaysSound(r.before);
      StepSoundIff(Now(EMPTY, r.before), r.e);
    }
  }

  // ---------- UIDVALIDITY ----------

  /** The event deletes or renames the mailbox. */
  predicate Retires(w: World, e: Event, k: Key) {
    || (e.Delete? && e.user == k.0 && Canonical(w, e.user, e.name) == Some(k.1) && DeleteStep(w, e.user, e.name).1.None?)
    || (e.Rename? && e.user == k.0 && Canonical(w, e.user, e.name) == Some(k.1) && RenameStep(w, e.user, e.name, e.to).1.None?)
  }

  /** One step leaves a UIDVALIDITY as it is exactly when it does not delete or rename the mailbox; then it is gone. */
  lemma ValidityStepIff(w: World, e: Event, k: Key)
    requires k in w.states && NoZero(w.states)
    ensures NoZero(Next(w, e).states)
    ensures if Retires(w, e, k) then k !in Next(w, e).states
            else k in Next(w, e).states && Next(w, e).states[k] == w.states[k]
  {
    hide Has, Canonical, WithSystem, Refiled, RenameBox, RemoveBox, Filter, MovedIds, MailboxNames.Valid;
  }

  predicate NeverRetired(from: World, r: Run, k: Key) {
    r.Then? ==> NeverRetired(from, r.before, k) && !Retires(Now(from, r.before), r.e, k)
  }

  /** Until the mailbox is deleted or renamed, whatever else happens, every answer gives the value first drawn. */
  lemma {:induction false} ValidityIsConstant(from: World, r: Run, k: Key, draw: nat)
    requires k in from.states && NoZero(from.states) && NeverRetired(from, r, k)
    ensures var w := Now(from, r);
            && NoZero(w.states) && k in w.states && w.states[k] == from.states[k]
            && UidValidityStep(w, k.0, k.1, draw) == (w, from.states[k])
  {
    if r.Then? {
      ValidityIsConstant(from, r.before, k, draw);
      ValidityStepIff(Now(from, r.before), r.e, k);
    }
  }

  // ---------- Undoing ----------

  lemma NothingFiled(boxes: Boxes, rows: Rows, user: nat, name: string)
    requires Placed(boxes, rows) && !IsSystem(name) && !Has(boxes, user, name)
    ensures Listing(rows, user, name) == []
  {
    hide Has, IsSystem;
    if rows != [] {
      assert forall i :: 0 <= i < |rows[1..]| ==> rows[1..][i] == rows[i + 1];
      assert Housed(boxes, rows[0]);
      NothingFiled(boxes, rows[1..], user, name);
    }
  }

  lemma {:induction false} MissingNone(boxes: Boxes, user: nat, k: nat)
    requires k <= 4 && forall i :: 0 <= i < k ==> Has(boxes, user, SYSTEM[i])
    ensures Missing(boxes, user, k) == []
  {
    if k > 0 {
      MissingNone(boxes, user, k - 1);
    }
  }

  /** Once the system mailboxes are there, resolving names adds nothing. */
  lemma SystemOnce(boxes: Boxes, user: nat)
    requires forall n :: IsSystem(n) ==> Has(boxes, user, n)
    ensures WithSystem(boxes, user) == boxes
  {
    hide Has;
    SystemNames();
    MissingNone(boxes, user, 4);
    assert boxes + [] == boxes;
  }

  lemma {:induction false} RemoveAbsent(boxes: Boxes, user: nat, name: string)
    requires !Has(boxes, user, name)
    ensures RemoveBox(boxes, user, name) == boxes
    ensures RemoveBox(boxes + [Box(user, name, "", true)], user, name) == boxes
  {
    var b := Box(user, name, "", true);
    if boxes == [] {
      assert RemoveBox([b], user, name) == RemoveBox([b][1..], user, name);
    } else {
      var rest := boxes[1..];
      assert [boxes[0]] + rest == boxes && [boxes[0]] + (rest + [b]) == boxes + [b];
      HasAppend([boxes[0]], rest);
      HasOne(boxes[0]);
      RemoveAbsent(rest, user, name);
    }
  }

  lemma CreatedName(w: World, user: nat, name: string)
    requires Sound(w) && CreateStep(w, user, name).1.None?
    ensures Trim(Trim(name)) == Trim(name) != "" && !IsSystem(Trim(name)) && !FoldsToInbox(Trim(name))
    ensures !Has(WithSystem(w.boxes, user), user, Trim(name))
  {
    TrimIffBare(name);
    WithSystemHas(w.boxes, user);
  }

  /** Deleting a mailbox just created gives back the tables as they were with the system mailboxes in place. */
  lemma DeleteUndoesCreate(w: World, user: nat, name: string)
    requires Sound(w) && CreateStep(w, user, name).1.None?
    ensures DeleteStep(CreateStep(w, user, name).0, user, name) == (w.(boxes := WithSystem(w.boxes, user)), None)
  {
    hide Has, IsSystem, Filter, FoldsToInbox;
    var t, before := Trim(name), WithSystem(w.boxes, user);
    CreatedName(w, user, name);
    WithSystemHas(w.boxes, user);
    CoverKeeps(before, w.boxes, w.rows, w.states);
    var b := Box(user, t, "", true);
    var after := before + [b];
    HasSnoc(before, b);
    SystemOnce(after, user);
    RemoveAbsent(before, user, t);
    NothingFiled(before, w.rows, user, t);
    assert (user, t) !in w.states;
    assert w.states - {(user, t)} == w.states;
    hide WithSystem;
    assert CreateStep(w, user, name).0 == w.(boxes := after);
  }

  lemma RenamedName(w: World, user: nat, name: string, to: string)
    requires Sound(w) && RenameStep(w, user, name, to).1.None?
    ensures var w1, c, t := Resolving(w, user, name), Canonical(w, user, name).value, Trim(to);
            && Sound(w1) && Clean(t) && !IsSystem(t) && !Has(w1.boxes, user, t)
            && Clean(c) && !IsSystem(c) && Has(w1.boxes, user, c) && c != t
            && forall n :: IsSystem(n) ==> Has(w1.boxes, user, n)
  {
    hide Has;
    TrimIffBare(to);
    ResolvingSound(w, user, name);
    CanonicalIsStored(w, user, name);
    WithSystemHas(w.boxes, user);
  }

  lemma {:induction false} RefiledFrom(rows: Rows, user: nat, name: string, to: string)
    requires name != to
    ensures Listing(Refiled(rows, user, name, to), user, name) == []
  {
    if rows != [] {
      RefiledFrom(rows[1..], user, name, to);
      assert Refiled(rows, user, name, to)[1..] == Refiled(rows[1..], user, name, to);
    }
  }

  lemma {:induction false} RefiledTo(rows: Rows, user: nat, name: string, to: string)
    requires Listing(rows, user, to) == []
    ensures Listing(Refiled(rows, user, name, to), user, to)
            == Mapped(Listing(rows, user, name), (m: Message) => m.(folder := to))
  {
    if rows != [] {
      RefiledTo(rows[1..], user, name, to);
      assert Refiled(rows, user, name, to)[1..] == Refiled(rows[1..], user, name, to);
      var listed := Listing(rows, user, name);
      if In(rows[0], user, name) {
        assert listed[1..] == Listing(rows[1..], user, name);
      }
    }
  }

  lemma {:induction false} OtherListing(rows: Rows, user: nat, name: string, to: string, u: nat, f: string)
    requires !(u == user && (f == name || f == to))
    ensures Listing(Refiled(rows, user, name, to), u, f) == Listing(rows, u, f)
  {
    if rows != [] {
      OtherListing(rows[1..], user, name, to, u, f);
      assert Refiled(rows, user, name, to)[1..] == Refiled(rows[1..], user, name, to);
    }
  }

  /** A rename carries the mailbox's messages, with their UIDs and in their order, and touches no other mailbox. */
  lemma RenameCarriesMail(w: World, user: nat, name: string, to: string)
    requires Sound(w) && RenameStep(w, user, name, to).1.None?
    ensures var c, t, after := Canonical(w, user, name).value, Trim(to), RenameStep(w, user, name, to).0.rows;
            && Listing(after, user, t) == Mapped(Listing(w.rows, user, c), (m: Message) => m.(folder := t))
            && Listing(after, user, c) == []
            && forall u: nat, f: string :: !(u == user && (f == c || f == t)) ==> Listing(after, u, f) == Listing(w.rows, u, f)
  {
    hide Has, IsSystem, Clean;
    RenamedName(w, user, name, to);
    var w1 := Resolving(w, user, name);
    NothingFiled(w1.boxes, w1.rows, user, Trim(to));
    var c, t := Canonical(w, user, name).value, Trim(to);
    RefiledFrom(w1.rows, user, c, t);
    RefiledTo(w1.rows, user, c, t);
    forall u: nat, f: string | !(u == user && (f == c || f == t))
      ensures Listing(Refiled(w1.rows, user, c, t), u, f) == Listing(w1.rows, u, f)
    {
      OtherListing(w1.rows, user, c, t, u, f);
    }
  }

  lemma RefiledBack(rows: Rows, user: nat, name: string, to: string)
    requires Listing(rows, user, to) == []
    ensures Refiled(Refiled(rows, user, name, to), user, to, name) == rows
  {
    EmptyListing(rows, user, to);
  }

  lemma RenamedBack(boxes: Boxes, user: nat, name: string, to: string)
    requires !Has(boxes, user, to)
    ensures RenameBox(RenameBox(boxes, user, name, to), user, to, name) == boxes
  {
    assert forall i :: 0 <= i < |boxes| ==> !(boxes[i].user == user && boxes[i].name == to);
  }

  lemma CleanCanonical(w: World, user: nat, name: string)
    requires Clean(name) && (forall n :: IsSystem(n) ==> Has(w.boxes, user, n)) && Has(w.boxes, user, name)
    ensures Resolving(w, user, name) == w && Canonical(w, user, name) == Some(name)
  {
    hide Has;
    SystemOnce(w.boxes, user);
  }

  /** Renaming back restores every row but the UIDVALIDITY, which is drawn anew. */
  lemma RenameBackRestores(w: World, user: nat, name: string, to: string)
    requires Sound(w) && RenameStep(w, user, name, to).1.None?
    ensures var w1, c := Resolving(w, user, name), Canonical(w, user, name).value;
            RenameStep(RenameStep(w, user, name, to).0, user, Trim(to), c) == (w1.(states := w1.states - {(user, c)}), None)
  {
    RenamedName(w, user, name, to);
    var w1, c, t := Resolving(w, user, name), Canonical(w, user, name).value, Trim(to);
    var w2 := RenameStep(w, user, name, to).0;
    hide Resolving, Canonical, Has, IsSystem, RenameBox, Refiled, Filter;
    RenameBoxKeeps(w1.boxes, user, c, t);
    NothingFiled(w1.boxes, w1.rows, user, t);
    RefiledBack(w1.rows, user, c, t);
    RenamedBack(w1.boxes, user, c, t);
    CleanCanonical(w2, user, t);
    assert (user, t) !in w1.states;
    assert w1.states - {(user, c)} - {(user, t)} == w1.states - {(user, c)};
  }
}
