/** Mailbox names: trimming, case folding of INBOX, validation, and the system mailboxes. */
module MailboxNames {
  /** White space as Unicode defines it. */
  predicate IsSpace(c: char) {
    || '\t' <= c <= '\r' || c == ' ' || c == '\U{85}' || c == '\U{A0}' || c == '\U{1680}'
    || '\U{2000}' <= c <= '\U{200A}' || c == '\U{2028}' || c == '\U{2029}' || c == '\U{202F}' || c == '\U{205F}' || c == '\U{3000}'
  }

  function TrimLeft(s: string): string {
    if s != "" && IsSpace(s[0]) then TrimLeft(s[1..]) else s
  }

  function TrimRight(s: string): string {
    if s != "" && IsSpace(s[|s| - 1]) then TrimRight(s[..|s| - 1]) else s
  }

  function Trim(s: string): string {
    TrimRight(TrimLeft(s))
  }

  function Lower(c: char): char {
    if 'A' <= c <= 'Z' then c - 'A' + 'a' else c
  }

  /** Equal to INBOX up to the case of its letters, none of which folds to anything outside ASCII. */
  predicate FoldsToInbox(s: string) {
    |s| == 5 && Lower(s[0]) == 'i' && Lower(s[1]) == 'n' && Lower(s[2]) == 'b' && Lower(s[3]) == 'o' && Lower(s[4]) == 'x'
  }

  /** The length of the name in UTF-8, in bytes. */
  function ByteLength(s: string): nat {
    if s == "" then 0
    else (if s[0] < '\U{80}' then 1 else if s[0] < '\U{800}' then 2 else if s[0] < '\U{10000}' then 3 else 4) + ByteLength(s[1..])
  }

  predicate Valid(name: string) {
    && name != "" && ByteLength(name) <= 64 && '/' !in name && name != "." && name != ".."
    && forall i :: 0 <= i < |name| ==> '\U{20}' <= name[i] && name[i] != '\U{7F}'
  }

  const SYSTEM := ["INBOX", "Sent", "Drafts", "Trash"]

  function SpecialUse(i: nat): string
    requires i < 4
  {
    if i == 0 then "" else SYSTEM[i]
  }

  predicate IsSystem(name: string) {
    name == "INBOX" || name == "Sent" || name == "Drafts" || name == "Trash"
  }

  lemma SystemNames()
    ensures forall name :: IsSystem(name) <==> exists i :: 0 <= i < 4 && SYSTEM[i] == name
    ensures forall i :: 0 <= i < 4 ==> IsSystem(SYSTEM[i])
    ensures forall i, j :: 0 <= i < j < 4 ==> SYSTEM[i] != SYSTEM[j]
  {
    assert SYSTEM[0] == "INBOX" && SYSTEM[1] == "Sent" && SYSTEM[2] == "Drafts" && SYSTEM[3] == "Trash";
    assert |"INBOX"| == 5 && |"Sent"| == 4 && |"Drafts"| == 6 && |"Trash"| == 5 && "INBOX"[0] != "Trash"[0];
    forall name | IsSystem(name) ensures exists i :: 0 <= i < 4 && SYSTEM[i] == name {
      var i := if name == "INBOX" then 0 else if name == "Sent" then 1 else if name == "Drafts" then 2 else 3;
      assert SYSTEM[i] == name;
    }
  }

  // ---------- Names as they are stored ----------

  /** Valid, trimmed, and INBOX only in capitals. */
  predicate Clean(name: string) {
    Valid(name) && Trim(name) == name && (FoldsToInbox(name) ==> name == "INBOX")
  }

  predicate Bare(s: string) {
    s != "" ==> !IsSpace(s[0]) && !IsSpace(s[|s| - 1])
  }

  lemma {:induction false} TrimLeftBare(s: string)
    ensures TrimLeft(s) != "" ==> !IsSpace(TrimLeft(s)[0])
    ensures s != "" && !IsSpace(s[0]) ==> TrimLeft(s) == s
  {
    if s != "" && IsSpace(s[0]) {
      TrimLeftBare(s[1..]);
    }
  }

  lemma {:induction false} TrimRightBare(s: string)
    ensures var t := TrimRight(s);
            t <= s && (t != "" ==> !IsSpace(t[|t| - 1]))
    ensures s != "" && !IsSpace(s[|s| - 1]) ==> TrimRight(s) == s
  {
    if s != "" && IsSpace(s[|s| - 1]) {
      TrimRightBare(s[..|s| - 1]);
    }
  }

  /** A name is left alone by trimming exactly when it has no space at its ends; so trimming twice is trimming once. */
  lemma TrimIffBare(s: string)
    ensures Trim(s) == s <==> Bare(s)
    ensures Trim(Trim(s)) == Trim(s)
  {
    TrimmedIsBare(s);
    BareStays(s);
    BareStays(Trim(s));
  }

  lemma TrimmedIsBare(s: string)
    ensures Bare(Trim(s))
  {
    var l := TrimLeft(s);
    TrimLeftBare(s);
    TrimRightBare(l);
    assert Trim(s) != "" ==> Trim(s)[0] == l[0];
  }

  lemma BareStays(s: string)
    ensures Bare(s) ==> Trim(s) == s
  {
    TrimLeftBare(s);
    TrimRightBare(s);
  }

  lemma {:induction false} FourBytesAtMost(s: string)
    ensures ByteLength(s) <= 4 * |s|
  {
    if s != "" {
      FourBytesAtMost(s[1..]);
    }
  }

  lemma SystemIsClean(name: string)
    requires IsSystem(name)
    ensures Clean(name)
  {
    FourBytesAtMost(name);
    BareStays(name);
  }
}
