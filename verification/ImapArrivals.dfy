/** The ways messages enter a mailbox, COPY, APPEND and local delivery, and what they tell its sessions. */
module ImapArrivals {
  import ExpungeReplay
  import opened ImapCommands
  import opened ImapQueue
  import ImapView
  import opened MailTable
  import opened Pop3Wire
  import opened Wrappers

  // ---------- COPY ----------

  /** The picked among the first `k` listed messages, in order. */
  function Picked(list: Rows, pick: nat -> bool, k: nat): Rows
    requires k <= |list|
  {
    if k == 0 then [] else Picked(list, pick, k - 1) + if pick(k - 1) then [list[k - 1]] else []
  }

  /** A copy keeps content, \Seen and \Flagged; it is not \Deleted. */
  function CopyOf(m: Message, user: nat, dest: string, id: nat): Message {
    Message(id, user, dest, m.raw, m.seen, m.flagged, false)
  }

  function Copies(sources: Rows, user: nat, dest: string, lastId: nat): (r: Rows)
    ensures |r| == |sources| && forall i :: 0 <= i < |r| ==> r[i] == CopyOf(sources[i], user, dest, lastId + 1 + i)
  {
    seq(|sources|, i requires 0 <= i < |sources| => CopyOf(sources[i], user, dest, lastId + 1 + i))
  }

  /** The row has the content, \Seen and \Flagged of the message, is not \Deleted, and is filed in the destination. */
  predicate CopiedFrom(m: Message, r: Message, user: nat, dest: string) {
    r.raw == m.raw && r.seen == m.seen && r.flagged == m.flagged && !r.deleted && r.user == user && r.folder == dest
  }

  lemma CopiesKeep(sources: Rows, user: nat, dest: string, lastId: nat)
    ensures var copies := Copies(sources, user, dest, lastId);
            && |copies| == |sources|
            && forall i :: 0 <= i < |copies| ==> CopiedFrom(sources[i], copies[i], user, dest) && copies[i].id == lastId + 1 + i
  {
  }

  ghost function IdSet(rows: Rows): set<nat> {
    set m | m in rows :: m.id
  }

  lemma OneMoreCopy(sources: Rows, m: Message, user: nat, dest: string, lastId: nat)
    ensures var one := CopyOf(m, user, dest, lastId + 1 + |sources|);
            && Copies(sources + [m], user, dest, lastId) == Copies(sources, user, dest, lastId) + [one]
            && IdSet(Copies(sources + [m], user, dest, lastId)) == IdSet(Copies(sources, user, dest, lastId)) + {one.id}
            && IdSet(sources + [m]) == IdSet(sources) + {m.id}
  {
    var copies, one := Copies(sources, user, dest, lastId), CopyOf(m, user, dest, lastId + 1 + |sources|);
    assert Copies(sources + [m], user, dest, lastId) == copies + [one];
    IdSetSnoc(copies, one);
    IdSetSnoc(sources, m);
  }

  lemma IdSetSnoc(rows: Rows, m: Message)
    ensures IdSet(rows + [m]) == IdSet(rows) + {m.id}
  {
    assert forall x :: x in rows + [m] <==> x in rows || x == m;
  }

  lemma NextPicked(list: Rows, pick: nat -> bool, k: nat)
    requires k < |list|
    ensures Picked(list, pick, k + 1) == if pick(k) then Picked(list, pick, k) + [list[k]] else Picked(list, pick, k)
  {
    assert Picked(list, pick, k) + [] == Picked(list, pick, k);
  }

  /** One copy behind those of `sources`. */
  method CopyOne(store: MailStore, m: Message, user: nat, dest: string, ghost before: Rows, ghost sources: Rows, ghost lastId: nat)
    returns (id: nat)
    requires store.Valid() && store.lastId == lastId + |sources| && store.rows == before + Copies(sources, user, dest, lastId)
    modifies store
    ensures store.Valid() && store.lastId == lastId + |sources| + 1
    ensures store.rows == before + Copies(sources + [m], user, dest, lastId)
    ensures IdSet(sources + [m]) == IdSet(sources) + {m.id}
    ensures IdSet(Copies(sources + [m], user, dest, lastId)) == IdSet(Copies(sources, user, dest, lastId)) + {id}
  {
    OneMoreCopy(sources, m, user, dest, lastId);
    hide Copies, IdSet, Keyed;
    id := store.Create(CopyOf(m, user, dest, 0));
    assert before + Copies(sources, user, dest, lastId) + [CopyOf(m, user, dest, id)]
        == before + (Copies(sources, user, dest, lastId) + [CopyOf(m, user, dest, id)]);
  }

  /** The loop of COPY: one INSERT a message, those of the messages in `failing` not going through. */
  method CopyAll(store: MailStore, list: Rows, numSet: NumSet, user: nat, dest: string, failing: set<nat>)
    returns (sources: set<nat>, dests: set<nat>)
    requires store.Valid()
    modifies store
    ensures store.Valid()
    ensures var picked := Picked(list, TakenAt(list, numSet, failing), |list|);
            var copies := Copies(picked, user, dest, old(store.lastId));
            && store.rows == old(store.rows) + copies && store.lastId == old(store.lastId) + |copies|
            && sources == IdSet(picked) && dests == IdSet(copies)
  {
    sources, dests := {}, {};
    var maxUid := MaxUid(list);
    ghost var picked, before, lastId := [], store.rows, store.lastId;
    NothingPicked(list, TakenAt(list, numSet, failing), user, dest, lastId);
    assert before + [] == before;
    hide Copies, IdSet, TakenAt, NumSetContains, MaxId, Picked, Keyed;
    for i := 0 to |list|
      invariant store.Valid()
      invariant picked == Picked(list, TakenAt(list, numSet, failing), i)
      invariant store.lastId == lastId + |picked|
      invariant store.rows == before + Copies(picked, user, dest, lastId)
      invariant sources == IdSet(picked) && dests == IdSet(Copies(picked, user, dest, lastId))
    {
      TakenHere(list, numSet, failing, i);
      NextPicked(list, TakenAt(list, numSet, failing), i);
      if NumSetContains(numSet, i + 1, list[i].id, |list|, maxUid) && list[i].id !in failing {
        var id := CopyOne(store, list[i], user, dest, before, picked, lastId);
        sources, dests := sources + {list[i].id}, dests + {id};
        picked := picked + [list[i]];
      }
    }
  }

  lemma NothingPicked(list: Rows, pick: nat -> bool, user: nat, dest: string, lastId: nat)
    ensures Picked(list, pick, 0) == [] && Copies([], user, dest, lastId) == [] && IdSet([]) == {}
  {
  }

  /**
   COPY: `dest` and its hub are what the name resolves to, None where there is no such mailbox; `validity` is what the
   state table answers.
   */
  method Copy(me: ImapSession, store: MailStore, user: nat, numSet: NumSet, dest: Option<string>, destHub: MailboxHub?,
              failing: set<nat>, validity: Option<nat>)
    returns (copied: Option<CopyData>)
    requires store.Valid()
    modifies store, SessionsOf(destHub)`queue, SessionsOf(destHub)`notify
    ensures store.Valid()
    ensures dest.None? ==> copied.None? && store.rows == old(store.rows)
                           && forall s :: s in SessionsOf(destHub) ==> s.queue == old(s.queue)
    ensures dest.Some? ==>
              var list := Listing(old(store.rows), user, me.selected);
              var picked := Picked(list, TakenAt(list, numSet, failing), |list|);
              var copies := Copies(picked, user, dest.value, old(store.lastId));
              && store.rows == old(store.rows) + copies
              && copied == Some(CopyData(ValidityOr0(validity), IdSet(picked), IdSet(copies)))
              && forall s :: s in SessionsOf(destHub) ==>
                   s.queue == old(s.queue) + [Exists(|Listing(store.rows, user, dest.value)|)]
    ensures dest.Some? ==>
              var list := Listing(old(store.rows), user, me.selected);
              var picked := Picked(list, TakenAt(list, numSet, failing), |list|);
              var n := |old(store.rows)|;
              && |store.rows| == n + |picked| && store.rows[..n] == old(store.rows)
              && forall i :: 0 <= i < |picked| ==> CopiedFrom(picked[i], store.rows[n + i], user, dest.value)
  {
    if dest.None? {
      return None;
    }
    hide Filter, Picked, Copies, IdSet;
    var list := Listing(store.rows, user, me.selected);
    ghost var picked, lastId := Picked(list, TakenAt(list, numSet, failing), |list|), store.lastId;
    CopiesKeep(picked, user, dest.value, lastId);
    var sources, dests := CopyAll(store, list, numSet, user, dest.value, failing);
    if destHub != null {
      destHub.Enqueue(Exists(|Listing(store.rows, user, dest.value)|), null);
    }
    copied := Some(CopyData(ValidityOr0(validity), sources, dests));
  }

  /** Picked in order: exactly the messages at the picked places. */
  lemma {:induction false} PickedAre(list: Rows, pick: nat -> bool, k: nat)
    requires k <= |list|
    ensures forall m :: m in Picked(list, pick, k) <==> exists i: nat :: i < k && pick(i) && list[i] == m
  {
    if k > 0 {
      PickedAre(list, pick, k - 1);
    }
  }

  /** COPY takes, in order, exactly the messages in the set whose INSERT goes through. */
  lemma CopyTakes(list: Rows, numSet: NumSet, failing: set<nat>, m: Message)
    ensures m in Picked(list, TakenAt(list, numSet, failing), |list|) <==>
            m.id !in failing && exists i: nat :: i < |list| && list[i] == m && Matches(list, numSet, i)
  {
    hide Matches;
    var pick := TakenAt(list, numSet, failing);
    PickedAre(list, pick, |list|);
    if i: nat :| i < |list| && pick(i) && list[i] == m {
      assert Matches(list, numSet, i);
    }
    if i: nat :| m.id !in failing && i < |list| && list[i] == m && Matches(list, numSet, i) {
      assert pick(i);
    }
  }

  lemma {:induction false} PickedAscend(list: Rows, pick: nat -> bool, k: nat)
    requires Keyed(list) && k <= |list|
    ensures var picked := Picked(list, pick, k);
            ExpungeReplay.Ascending(Ids(picked)) && (picked != [] ==> k > 0 && picked[|picked| - 1].id <= list[k - 1].id)
  {
    if k > 0 {
      PickedAscend(list, pick, k - 1);
      assert k > 1 ==> list[k - 2].id < list[k - 1].id;
    }
  }

  lemma IdsOf(rows: Rows)
    ensures forall id: nat :: id in Ids(rows) <==> id in IdSet(rows)
  {
    forall id: nat | id in Ids(rows) ensures id in IdSet(rows) {
      var i :| 0 <= i < |rows| && Ids(rows)[i] == id;
      assert rows[i] in rows;
    }
    forall id: nat | id in IdSet(rows) ensures id in Ids(rows) {
      var m :| m in rows && m.id == id;
      var i :| 0 <= i < |rows| && rows[i] == m;
      assert Ids(rows)[i] == id;
    }
  }

  /**
   RFC 4315 section 3: however the client enumerates the two sets of COPYUID in ascending order,
   they have equal length and the message at each source UID is the one copied as the destination UID beside it.
   */
  lemma CopyUidPairs(list: Rows, pick: nat -> bool, user: nat, dest: string, lastId: nat, a: seq<nat>, b: seq<nat>)
    requires Keyed(list)
    requires ExpungeReplay.Ascending(a) && ExpungeReplay.Ascending(b)
    requires var picked := Picked(list, pick, |list|);
             && (forall id: nat :: id in a <==> id in IdSet(picked))
             && (forall id: nat :: id in b <==> id in IdSet(Copies(picked, user, dest, lastId)))
    ensures |a| == |b|
    ensures var copies := Copies(Picked(list, pick, |list|), user, dest, lastId);
            |copies| == |b| &&
            forall i :: 0 <= i < |a| ==>
              copies[i].id == b[i] && exists m :: m in list && m.id == a[i] && CopiedFrom(m, copies[i], user, dest)
  {
    var picked := Picked(list, pick, |list|);
    var copies := Copies(picked, user, dest, lastId);
    PickedAre(list, pick, |list|);
    PickedAscend(list, pick, |list|);
    IdsOf(picked);
    IdsOf(copies);
    ExpungeReplay.AscendingUnique(a, Ids(picked));
    ExpungeReplay.AscendingUnique(b, Ids(copies));
    CopiesKeep(picked, user, dest, lastId);
    forall i | 0 <= i < |a|
      ensures copies[i].id == b[i] && exists m :: m in list && m.id == a[i] && CopiedFrom(m, copies[i], user, dest)
    {
      assert picked[i] in picked && picked[i].id == a[i];
    }
  }

  lemma {:induction false} Stripped(sources: Rows, user: nat, dest: string, lastId: nat, to: string)
    ensures Listing(Copies(sources, user, dest, lastId), user, to) == if to == dest then Copies(sources, user, dest, lastId) else []
  {
    if sources != [] {
      var k := |sources| - 1;
      var before := Copies(sources[..k], user, dest, lastId);
      var last := CopyOf(sources[k], user, dest, lastId + 1 + k);
      assert Copies(sources, user, dest, lastId) == before + [last];
      FilterSnoc(before, last, InFolder(user, to));
      Stripped(sources[..k], user, dest, lastId, to);
    }
  }

  /** A COPY adds its copies, in order, at the end of the destination's list and nowhere else: an arrival. */
  lemma CopiesArrive(rows: Rows, sources: Rows, user: nat, dest: string, lastId: nat, folder: string)
    ensures Listing(rows + Copies(sources, user, dest, lastId), user, folder)
            == Listing(rows, user, folder) + if folder == dest then Copies(sources, user, dest, lastId) else []
  {
    FilterAppend(rows, Copies(sources, user, dest, lastId), InFolder(user, folder));
    Stripped(sources, user, dest, lastId, folder);
  }

  // ---------- APPEND and delivery ----------

  /** The APPENDUID response. */
  datatype AppendData = AppendData(uid: nat, uidValidity: nat)

  /**
   APPEND: `folder` and its hub are what the name resolves to; `parses` whether the literal is a message, `dbFails` whether
   the INSERT does not go through. Flags the table has no column for are dropped.
   */
  method Append(store: MailStore, user: nat, folder: Option<string>, hub: MailboxHub?, raw: Bytes, parses: bool, flags: seq<Flag>,
                dbFails: bool, validity: Option<nat>)
    returns (appended: Option<AppendData>)
    requires store.Valid()
    modifies store, SessionsOf(hub)`queue, SessionsOf(hub)`notify
    ensures store.Valid() && (appended.Some? <==> folder.Some? && parses && !dbFails)
    ensures appended.None? ==> store.rows == old(store.rows) && forall s :: s in SessionsOf(hub) ==> s.queue == old(s.queue)
    ensures appended.Some? ==>
              var uid := old(store.lastId) + 1;
              && appended.value == AppendData(uid, ValidityOr0(validity)) && store.lastId == uid
              && store.rows == old(store.rows)
                               + [Message(uid, user, folder.value, raw, Seen in flags, Flagged in flags, Flag.Deleted in flags)]
              && forall s :: s in SessionsOf(hub) ==>
                   s.queue == old(s.queue) + [Exists(|Listing(old(store.rows), user, folder.value)| + 1)]
  {
    if folder.None? || !parses {
      return None;
    }
    var seen, flagged, deleted := false, false, false;
    for i := 0 to |flags|
      invariant seen == (Seen in flags[..i]) && flagged == (Flagged in flags[..i]) && deleted == (Flag.Deleted in flags[..i])
    {
      assert flags[..i + 1] == flags[..i] + [flags[i]];
      match flags[i]
      case Seen => seen := true;
      case Flagged => flagged := true;
      case Deleted => deleted := true;
      case _ =>
    }
    assert flags[..|flags|] == flags;
    if dbFails {
      return None;
    }
    hide Filter;
    var uid := store.Create(Message(0, user, folder.value, raw, seen, flagged, deleted));
    FilterSnoc(old(store.rows), store.rows[|store.rows| - 1], InFolder(user, folder.value));
    if hub != null {
      hub.Enqueue(Exists(|Listing(store.rows, user, folder.value)|), null);
    }
    appended := Some(AppendData(uid, ValidityOr0(validity)));
  }

  /** Tells every session of the mailbox the new count, after a delivery or a web move. */
  method PushNewMessage(store: MailStore, user: nat, folder: string, hub: MailboxHub?)
    modifies SessionsOf(hub)`queue, SessionsOf(hub)`notify
    ensures forall s :: s in SessionsOf(hub) ==>
              s.queue == old(s.queue) + (if folder == "" then [] else [Exists(|Listing(store.rows, user, folder)|)])
  {
    if hub == null || folder == "" {
      return;
    }
    hub.Enqueue(Exists(|Listing(store.rows, user, folder)|), null);
  }

  /** The sequence number of a message, 0 when the mailbox does not hold it. */
  method SeqOf(store: MailStore, user: nat, folder: string, id: nat) returns (pos: nat)
    ensures var list := Listing(store.rows, user, folder);
            if pos == 0 then id !in Ids(list) else pos <= |list| && list[pos - 1].id == id
  {
    var list := Listing(store.rows, user, folder);
    for i := 0 to |list|
      invariant id !in Ids(list)[..i]
    {
      if list[i].id == id {
        return i + 1;
      }
    }
    pos := 0;
  }

  /** Tells every session the flags of a message changed elsewhere, if the mailbox still holds it. */
  method PushFlagsChanged(store: MailStore, folder: string, hub: MailboxHub?, m: Message)
    requires store.Valid()
    modifies SessionsOf(hub)`queue, SessionsOf(hub)`notify
    ensures var list := Listing(store.rows, m.user, folder);
            forall s :: s in SessionsOf(hub) ==>
              && (folder == "" || m.id !in Ids(list) ==> s.queue == old(s.queue))
              && forall i :: folder != "" && 0 <= i < |list| && list[i].id == m.id ==>
                   && |s.queue| == |old(s.queue)| + 1 && old(s.queue) <= s.queue
                   && var u := s.queue[|old(s.queue)|];
                      u.Fetch? && u.pos == i + 1 && u.uid == m.id && Tells(u.flags, m)
  {
    if hub == null || folder == "" {
      return;
    }
    hide Filter;
    var list := Listing(store.rows, m.user, folder);
    FilterKeeps(store.rows, InFolder(m.user, folder));
    assert Keyed(list);
    var pos := SeqOf(store, m.user, folder, m.id);
    if pos == 0 {
      assert forall i :: 0 <= i < |list| ==> Ids(list)[i] in Ids(list);
      return;
    }
    assert Ids(list)[pos - 1] == m.id;
    FlagsAreTold(m);
    hub.Enqueue(Fetch(pos, m.id, FlagsOf(m)), null);
  }

  /** Tells every session of the mailbox the numbers of messages deleted elsewhere. */
  method PushExpunged(folder: string, hub: MailboxHub?, nums: seq<nat>)
    modifies SessionsOf(hub)`queue, SessionsOf(hub)`notify
    ensures forall s :: s in SessionsOf(hub) ==> s.queue == old(s.queue) + (if folder == "" then [] else ImapView.Expunges(nums))
  {
    if hub == null || folder == "" {
      return;
    }
    for i := 0 to |nums|
      invariant forall s :: s in SessionsOf(hub) ==> s.queue == old(s.queue) + ImapView.Expunges(nums)[..i]
    {
      var us := ImapView.Expunges(nums);
      assert us[..i + 1] == us[..i] + [us[i]];
      hub.Enqueue(Expunge(nums[i]), null);
    }
    assert ImapView.Expunges(nums)[..|nums|] == ImapView.Expunges(nums);
  }

  // ---------- UIDNEXT ----------

  /** The UIDNEXT that SELECT and STATUS answer. */
  function UidNext(rows: Rows, user: nat, folder: string): nat {
    MaxId(Listing(rows, user, folder)) + 1
  }

  /** Whatever is stored next in the mailbox gets a UID no smaller than the one announced, and that UID is new. */
  lemma UidNextIsAhead(rows: Rows, lastId: nat, user: nat, folder: string)
    requires Keyed(rows) && forall i :: 0 <= i < |rows| ==> rows[i].id <= lastId
    ensures lastId + 1 >= UidNext(rows, user, folder)
    ensures forall m :: m in Listing(rows, user, folder) ==> m.id < UidNext(rows, user, folder)
  {
    var list := Listing(rows, user, folder);
    FilterKeeps(rows, InFolder(user, folder));
    MaxIdIsLast(list);
    if list != [] {
      assert list[|list| - 1] in rows;
    }
  }

  /**
   RFC 3501 section 2.3.1.1 wants UIDNEXT unchanged unless a message is added. A removal keeps it
   exactly when it spares the newest message of the mailbox.
   */
  lemma RemovalKeepsUidNextIff(rows: Rows, ids: set<nat>, user: nat, folder: string)
    requires Keyed(rows) && forall m :: m in rows ==> m.id >= 1
    ensures var list := Listing(rows, user, folder);
            UidNext(Without(rows, ids), user, folder) == UidNext(rows, user, folder)
            <==> list == [] || list[|list| - 1].id !in ids
  {
    var list := Listing(rows, user, folder);
    FilterKeeps(rows, InFolder(user, folder));
    ListingWithout(rows, ids, user, folder);
    var left := Without(list, ids);
    FilterKeeps(list, NotIn(ids));
    MaxIdIsLast(list);
    MaxIdIsLast(left);
    if list != [] && list[|list| - 1].id !in ids {
      assert list[|list| - 1] in left;
      var i :| 0 <= i < |left| && left[i] == list[|list| - 1];
      assert left[|left| - 1] in list;
    } else if left != [] {
      assert left[|left| - 1] in left;
      assert left[|left| - 1] in list && left[|left| - 1].id !in ids;
    }
  }
}
