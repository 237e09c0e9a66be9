/** When each operation of the catalogue succeeds, which error it gives otherwise, and the rows it leaves behind. */
module CatalogueRules {
  import opened Catalogue
  import ImapCommands
  import opened MailboxNames
  import opened MailTable
  import opened Wrappers

  // ---------- Names ----------

  ghost predicate Middle(s: string, i: nat, j: nat) {
    && i <= j <= |s| && Trim(s) == s[i..j]
    && (forall k :: 0 <= k < i ==> IsSpace(s[k])) && (forall k :: j <= k < |s| ==> IsSpace(s[k]))
    && (i < j ==> !IsSpace(s[i]) && !IsSpace(s[j - 1]))
  }

  lemma {:induction false} TrimLeftDrops(s: string) returns (i: nat)
    ensures i <= |s| && TrimLeft(s) == s[i..] && forall k :: 0 <= k < i ==> IsSpace(s[k])
  {
    i := 0;
    if s != "" && IsSpace(s[0]) {
      i := TrimLeftDrops(s[1..]);
      assert forall k :: 0 < k < i + 1 ==> s[k] == s[1..][k - 1];
      i := i + 1;
    }
  }

  lemma {:induction false} TrimRightDrops(s: string) returns (j: nat)
    ensures j <= |s| && TrimRight(s) == s[..j] && forall k :: j <= k < |s| ==> IsSpace(s[k])
  {
    j := |s|;
    if s != "" && IsSpace(s[|s| - 1]) {
      j := TrimRightDrops(s[..|s| - 1]);
      assert forall k :: j <= k < |s| - 1 ==> s[k] == s[..|s| - 1][k];
    }
  }

  /** Trimming takes the white space off both ends and nothing else. */
  lemma TrimIsTheMiddle(s: string)
    ensures exists i, j :: Middle(s, i, j)
  {
    var i := TrimLeftDrops(s);
    var l := TrimLeft(s);
    var j := TrimRightDrops(l);
    assert forall k :: j <= k < |l| ==> l[k] == s[i + k];
    assert forall k :: i + j <= k < |s| ==> s[k] == l[k - i];
    TrimLeftBare(s);
    TrimRightBare(l);
    assert Trim(s) == s[i..i + j];
    assert j > 0 ==> l[0] == s[i] && l[j - 1] == s[i + j - 1];
    assert Middle(s, i, i + j);
  }

  /** What trimming takes for white space: five controls, the space, and the Unicode spaces by code point. */
  lemma SpacesAre(c: char)
    ensures IsSpace(c) <==>
            c as int in {9, 10, 11, 12, 13, 32, 0x85, 0xA0, 0x1680, 0x2000, 0x2001, 0x2002, 0x2003, 0x2004, 0x2005, 0x2006,
                         0x2007, 0x2008, 0x2009, 0x200A, 0x2028, 0x2029, 0x202F, 0x205F, 0x3000}
  {
  }

  /** A name folds to INBOX exactly when each of its five letters is the right one, small or capital. */
  lemma FoldsIff(s: string)
    ensures FoldsToInbox(s) <==>
            |s| == 5 && s[0] in {'I', 'i'} && s[1] in {'N', 'n'} && s[2] in {'B', 'b'} && s[3] in {'O', 'o'} && s[4] in {'X', 'x'}
  {
  }

  function Utf8Char(c: char): (bytes: seq<nat>)
    ensures forall i :: 0 <= i < |bytes| ==> bytes[i] < 256
  {
    var n := c as nat;
    if n < 0x80 then [n]
    else if n < 0x800 then [0xC0 + n / 0x40, 0x80 + n % 0x40]
    else if n < 0x1_0000 then [0xE0 + n / 0x1000, 0x80 + n / 0x40 % 0x40, 0x80 + n % 0x40]
    else [0xF0 + n / 0x4_0000, 0x80 + n / 0x1000 % 0x40, 0x80 + n / 0x40 % 0x40, 0x80 + n % 0x40]
  }

  function Utf8(s: string): seq<nat> {
    if s == "" then [] else Utf8Char(s[0]) + Utf8(s[1..])
  }

  /** The limit on a name counts the bytes of its UTF-8 form. */
  lemma {:induction false} ByteLengthIsUtf8(s: string)
    ensures ByteLength(s) == |Utf8(s)|
  {
    if s != "" {
      ByteLengthIsUtf8(s[1..]);
    }
  }

  predicate Printable(c: char) {
    c != '/' && c as int >= 32 && c as int != 127
  }

  /** A name is valid exactly when it is not empty, has 64 bytes at most, no slash or control character, and is no dot name. */
  lemma ValidIff(name: string)
    ensures MailboxNames.Valid(name) <==>
            1 <= |Utf8(name)| <= 64 && name != "." && name != ".." && forall c :: c in name ==> Printable(c)
  {
    ByteLengthIsUtf8(name);
    Utf8Empty(name);
    hide Utf8, ByteLength;
    assert forall i :: 0 <= i < |name| ==> name[i] in name;
    if MailboxNames.Valid(name) {
      forall c | c in name ensures Printable(c) {
        var i :| 0 <= i < |name| && name[i] == c;
      }
    }
  }

  lemma Utf8Empty(s: string)
    ensures s == "" <==> |Utf8(s)| == 0
  {
  }

  // ---------- Which mailboxes there are ----------

  /** The user has a mailbox of that very name, a system one or one of their own. */
  ghost predicate There(w: World, user: nat, name: string) {
    name in {"INBOX", "Sent", "Drafts", "Trash"} || exists b :: b in w.boxes && b.user == user && b.name == name
  }

  /** A mailbox of their own, so one that may be deleted or renamed. */
  ghost predicate Custom(w: World, user: nat, name: string) {
    name !in {"INBOX", "Sent", "Drafts", "Trash"} && There(w, user, name)
  }

  lemma ThereIff(w: World, user: nat, name: string)
    requires Sound(w)
    ensures There(w, user, name) <==> Has(WithSystem(w.boxes, user), user, name)
    ensures Custom(w, user, name) ==> Clean(name) && Has(w.boxes, user, name)
    ensures There(w, user, name) && !IsSystem(name) ==> Custom(w, user, name)
  {
    hide Clean;
    WithSystemHas(w.boxes, user);
    hide WithSystem;
    if i :| 0 <= i < |w.boxes| && w.boxes[i].user == user && w.boxes[i].name == name {
      assert w.boxes[i] in w.boxes;
    }
    if b :| b in w.boxes && b.user == user && b.name == name {
      var i :| 0 <= i < |w.boxes| && w.boxes[i] == b;
    }
  }

  /** What the first access to the catalogue adds for a user. */
  predicate Added(boxes: Boxes, user: nat, b: Box) {
    && b.user == user && b.subscribed && !Has(boxes, user, b.name)
    && ((b.name == "INBOX" && b.specialUse == "") || (b.name in {"Sent", "Drafts", "Trash"} && b.specialUse == b.name))
  }

  lemma {:induction false} MissingAre(boxes: Boxes, user: nat, k: nat, b: Box)
    requires k <= 4
    ensures b in Missing(boxes, user, k) <==>
            b.user == user && b.subscribed && !Has(boxes, user, b.name)
            && exists i: nat :: i < k && SYSTEM[i] == b.name && b.specialUse == SpecialUse(i)
  {
    hide Has, SpecialUse;
    if k > 0 {
      MissingAre(boxes, user, k - 1, b);
    }
  }

  /** The missing system mailboxes are added at the end, subscribed, all but INBOX marked with their use; the rest stays. */
  lemma SystemRows(boxes: Boxes, user: nat, b: Box)
    ensures boxes <= WithSystem(boxes, user)
    ensures b in WithSystem(boxes, user) <==> b in boxes || Added(boxes, user, b)
  {
    hide Has;
    MissingAre(boxes, user, 4, b);
    SystemNames();
    assert SYSTEM[0] == "INBOX" && SYSTEM[1] == "Sent" && SYSTEM[2] == "Drafts" && SYSTEM[3] == "Trash";
    if Added(boxes, user, b) {
      var i := if b.name == "INBOX" then 0 else if b.name == "Sent" then 1 else if b.name == "Drafts" then 2 else 3;
      assert SYSTEM[i] == b.name && b.specialUse == SpecialUse(i);
    }
  }

  // ---------- Resolving a name ----------

  /** A name, trimmed, resolves to INBOX in whatever case, or to a mailbox of exactly that name, or to nothing. */
  lemma CanonicalIff(w: World, user: nat, name: string, c: string)
    requires Sound(w)
    ensures Canonical(w, user, name) == Some(c) <==>
            (if FoldsToInbox(Trim(name)) then c == "INBOX" else c == Trim(name) && There(w, user, c))
  {
    hide Has, FoldsToInbox, WithSystem, There;
    ThereIff(w, user, Trim(name));
    if Trim(name) == "" {
      NeverBlank(w, user);
    }
  }

  lemma StoredAreClean(boxes: Boxes)
    requires AllClean(boxes)
    ensures forall b :: b in boxes ==> Clean(b.name)
  {
  }

  lemma NeverBlank(w: World, user: nat)
    requires Sound(w)
    ensures !There(w, user, "") && !FoldsToInbox("")
  {
    StoredAreClean(w.boxes);
  }

  // ---------- CREATE ----------

  /** CREATE succeeds exactly for a valid name that no mailbox has; an invalid one draws its own error and changes nothing. */
  lemma CreateSucceedsIff(w: World, user: nat, name: string)
    requires Sound(w)
    ensures var t, (after, err) := Trim(name), CreateStep(w, user, name);
            && (err == None <==> MailboxNames.Valid(t) && !FoldsToInbox(t) && !There(w, user, t))
            && (err == Some(Invalid) <==> !MailboxNames.Valid(t))
            && (err in {None, Some(Invalid), Some(Error.Exists)})
            && (err == Some(Invalid) ==> after == w)
  {
    hide Has, FoldsToInbox, WithSystem, There, MailboxNames.Valid;
    ThereIff(w, user, Trim(name));
  }

  /** A successful CREATE adds one subscribed mailbox without a special use, beside missing system ones, and nothing else. */
  lemma CreateAddsOne(w: World, user: nat, name: string, b: Box)
    requires Sound(w) && CreateStep(w, user, name).1.None?
    ensures var after := CreateStep(w, user, name).0;
            && w.boxes <= after.boxes && Unique(after.boxes)
            && (b in after.boxes <==>
                b in w.boxes || Added(w.boxes, user, b)
                || (b.user == user && b.name == Trim(name) && b.specialUse == "" && b.subscribed))
            && after.rows == w.rows && after.lastId == w.lastId && after.states == w.states
  {
    CreateSound(w, user, name);
    SystemRows(w.boxes, user, b);
    hide Has, FoldsToInbox, WithSystem, MailboxNames.Valid;
  }

  // ---------- DELETE ----------

  lemma {:induction false} ListedIff(rows: Rows, user: nat, folder: string)
    ensures Listing(rows, user, folder) != [] <==> exists m :: m in rows && m.user == user && m.folder == folder
  {
    if rows != [] {
      ListedIff(rows[1..], user, folder);
      if m :| m in rows && m.user == user && m.folder == folder && m != rows[0] {
        assert m in rows[1..];
      }
      assert rows[0] in rows;
    }
  }

  /** DELETE succeeds exactly on an empty mailbox of the user's own; each other case has its error, and takes no row away. */
  lemma DeleteSucceedsIff(w: World, user: nat, name: string)
    requires Sound(w)
    ensures var t, (after, err) := Trim(name), DeleteStep(w, user, name);
            && (err == Some(NotFound) <==> !FoldsToInbox(t) && !There(w, user, t))
            && (err == Some(System) <==> FoldsToInbox(t) || t in {"Sent", "Drafts", "Trash"})
            && (err == Some(NotEmpty) <==>
                !FoldsToInbox(t) && Custom(w, user, t) && exists m :: m in w.rows && m.user == user && m.folder == t)
            && (err == None <==>
                !FoldsToInbox(t) && Custom(w, user, t) && !exists m :: m in w.rows && m.user == user && m.folder == t)
            && (err.Some? ==> after == Resolving(w, user, name))
  {
    InboxFolds();
    CanonicalIff(w, user, name, Trim(name));
    CanonicalIff(w, user, name, "INBOX");
    ThereIff(w, user, Trim(name));
    ListedIff(w.rows, user, Trim(name));
    hide Has, FoldsToInbox, WithSystem, Listing, MailboxNames.Valid;
  }

  lemma InboxFolds()
    ensures FoldsToInbox("INBOX") && !FoldsToInbox("Sent") && !FoldsToInbox("Drafts") && !FoldsToInbox("Trash")
  {
    assert "Trash"[0] == 'T';
  }

  lemma {:induction false} RemoveBoxAre(boxes: Boxes, user: nat, name: string, b: Box)
    ensures b in RemoveBox(boxes, user, name) <==> b in boxes && !(b.user == user && b.name == name)
  {
    if boxes != [] {
      RemoveBoxAre(boxes[1..], user, name, b);
    }
  }

  /** A successful DELETE takes away that mailbox and its UIDVALIDITY, and nothing else. */
  lemma DeleteTakesOne(w: World, user: nat, name: string, b: Box, k: Key)
    requires Sound(w) && DeleteStep(w, user, name).1.None?
    ensures var t, after := Trim(name), DeleteStep(w, user, name).0;
            && (b in after.boxes <==> (b in w.boxes || Added(w.boxes, user, b)) && !(b.user == user && b.name == t))
            && after.rows == w.rows && after.lastId == w.lastId
            && (k in after.states <==> k in w.states && k != (user, t))
            && (k in after.states ==> after.states[k] == w.states[k])
  {
    DeleteSucceedsIff(w, user, name);
    CanonicalIff(w, user, name, Trim(name));
    RemoveBoxAre(WithSystem(w.boxes, user), user, Trim(name), b);
    SystemRows(w.boxes, user, b);
    hide Has, FoldsToInbox, WithSystem, Listing, There, RemoveBox, Canonical;
    NeverBlank(w, user);
    assert DeleteStep(w, user, name).0.boxes == RemoveBox(WithSystem(w.boxes, user), user, Trim(name));
  }

  // ---------- RENAME ----------

  /** RENAME succeeds exactly from a mailbox of the user's own to a valid name that is neither INBOX nor taken. */
  lemma RenameSucceedsIff(w: World, user: nat, name: string, to: string)
    requires Sound(w)
    ensures var c, t, (after, err) := Trim(name), Trim(to), RenameStep(w, user, name, to);
            && (err == Some(NotFound) <==> !FoldsToInbox(c) && !There(w, user, c))
            && (err == Some(System) <==> FoldsToInbox(c) || c in {"Sent", "Drafts", "Trash"})
            && (err == Some(Invalid) <==>
                !FoldsToInbox(c) && Custom(w, user, c)
                && (!MailboxNames.Valid(t) || FoldsToInbox(t) || t in {"Sent", "Drafts", "Trash"}))
            && (err == None <==>
                !FoldsToInbox(c) && Custom(w, user, c) && MailboxNames.Valid(t) && !FoldsToInbox(t) && !There(w, user, t))
            && err != Some(NotEmpty)
            && (err.Some? ==> after == Resolving(w, user, name))
  {
    InboxFolds();
    CanonicalIff(w, user, name, Trim(name));
    CanonicalIff(w, user, name, "INBOX");
    ThereIff(w, user, Trim(name));
    ThereIff(w, user, Trim(to));
    hide Has, FoldsToInbox, WithSystem, Listing, MailboxNames.Valid, Mapped, RenameBox;
    NeverBlank(w, user);
  }

  /** A successful RENAME gives the mailbox and each message in it the new name, drops its UIDVALIDITY, and changes nothing else. */
  lemma RenameChangesNames(w: World, user: nat, name: string, to: string, i: nat, k: Key)
    requires Sound(w) && RenameStep(w, user, name, to).1.None?
    ensures var c, t, after, boxes := Trim(name), Trim(to), RenameStep(w, user, name, to).0, WithSystem(w.boxes, user);
            && |after.boxes| == |boxes| && |after.rows| == |w.rows| && after.lastId == w.lastId
            && (i < |boxes| ==>
                  after.boxes[i] == if boxes[i].user == user && boxes[i].name == c then boxes[i].(name := t) else boxes[i])
            && (i < |w.rows| ==>
                  after.rows[i] == if w.rows[i].user == user && w.rows[i].folder == c then w.rows[i].(folder := t) else w.rows[i])
            && (k in after.states <==> k in w.states && k != (user, c))
            && (k in after.states ==> after.states[k] == w.states[k])
  {
    RenameSucceedsIff(w, user, name, to);
    CanonicalIff(w, user, name, Trim(name));
    hide Has, FoldsToInbox, WithSystem, There, Canonical, MailboxNames.Valid;
    NeverBlank(w, user);
  }

  // ---------- The service's move ----------

  lemma {:induction false} OwnsIff(rows: Rows, user: nat, m: Message)
    requires Keyed(rows) && m in rows
    ensures Owns(rows, user, m.id) <==> m.user == user
  {
    if Owns(rows, user, m.id) {
      OwnerIs(rows, user, m);
    }
  }

  ghost predicate Reached(rows: Rows, user: nat, ids: seq<nat>, failing: set<nat>, i: nat) {
    i < |ids| && forall j: nat :: j <= i && Owns(rows, user, ids[j]) ==> ids[j] !in failing
  }

  /** A message is moved exactly when it is the user's own, listed, and no update up to its place in the list fails. */
  lemma {:induction false} MovedIff(rows: Rows, user: nat, ids: seq<nat>, failing: set<nat>, id: nat)
    ensures id in MovedIds(rows, user, ids, failing) <==>
            Owns(rows, user, id) && exists i: nat :: Reached(rows, user, ids, failing, i) && ids[i] == id
  {
    hide Owns;
    if ids != [] {
      var rest := ids[1..];
      MovedIff(rows, user, rest, failing, id);
      if i: nat :| Reached(rows, user, rest, failing, i) && rest[i] == id {
        if !(Owns(rows, user, ids[0]) && ids[0] in failing) {
          assert forall j: nat :: 0 < j <= i + 1 ==> ids[j] == rest[j - 1];
          assert Reached(rows, user, ids, failing, i + 1);
        }
      }
      if i: nat :| Reached(rows, user, ids, failing, i) && ids[i] == id {
        if i > 0 {
          assert forall j: nat :: j <= i - 1 ==> rest[j] == ids[j + 1];
          assert Reached(rows, user, rest, failing, i - 1);
        }
      }
      if ids[0] == id && Owns(rows, user, id) && id !in failing {
        assert Reached(rows, user, ids, failing, 0);
      }
    }
  }

  /** What the move leaves: each row in its place, the moved ones with the folder as the caller spelt it. */
  lemma MoveRefiles(w: World, user: nat, ids: seq<nat>, dest: string, failing: set<nat>, i: nat)
    requires Sound(w) && i < |w.rows|
    ensures var m, after := w.rows[i], MoveStep(w, user, ids, dest, failing);
            && |after.rows| == |w.rows| && after.states == w.states && after.lastId == w.lastId
            && after.rows[i] ==
               if m.user == user && (exists j: nat :: Reached(w.rows, user, ids, failing, j) && ids[j] == m.id)
                  && (FoldsToInbox(Trim(dest)) || There(w, user, Trim(dest)))
               then m.(folder := dest) else m
  {
    var m := w.rows[i];
    MovedIff(w.rows, user, ids, failing, m.id);
    OwnsIff(w.rows, user, m);
    CanonicalIff(w, user, dest, "INBOX");
    CanonicalIff(w, user, dest, Trim(dest));
    hide Has, Owns, FoldsToInbox, WithSystem, There, Canonical, MovedIds;
  }

  // ---------- UIDVALIDITY ----------

  /** The answer is the stored value, or, where there is none or a zero, the value drawn, one for a zero; then it is stored. */
  lemma UidValidityAnswers(w: World, user: nat, folder: string, draw: nat, k: Key)
    ensures var (after, v) := UidValidityStep(w, user, folder, draw);
            && v != 0
            && v == (if (user, folder) in w.states && w.states[(user, folder)] > 0 then w.states[(user, folder)]
                     else if draw > 0 then draw else 1)
            && (k in after.states <==> k in w.states || k == (user, folder))
            && (k in after.states ==> after.states[k] == if k == (user, folder) then v else w.states[k])
            && after.boxes == w.boxes && after.rows == w.rows && after.lastId == w.lastId
  {
  }
}
