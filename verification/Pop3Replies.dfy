/** What each POP3 command answers and shows, message by message. */
module Pop3Replies {
  import opened MailTable
  import opened Pop3Session
  import opened Pop3Wire
  import opened Wrappers

  // ---------- The messages shown ----------

  /** What PASS shows is the user's INBOX at that moment, oldest first, each message with its own id, text and size. */
  lemma LoadedIsTheInbox(user: User, rows: Rows)
    requires Keyed(rows)
    ensures var es := Loaded(user, Some(rows));
            && (forall i, j :: 0 <= i < j < |es| ==> es[i].id < es[j].id)
            && (forall i :: 0 <= i < |es| ==> es[i].size == |RetrBody(es[i].raw)| - |TERMINATOR|)
            && (forall id: nat, raw: Bytes :: Shows(es, id, raw) <==> Stored(rows, user.id, id, raw))
  {
    var inbox := Listing(rows, user.id, "INBOX");
    FilterKeeps(rows, InFolder(user.id, "INBOX"));
    hide Stuffed, TextLines, Filter;
    var es := Loaded(user, Some(rows));
    forall id: nat, raw: Bytes ensures Shows(es, id, raw) <==> Stored(rows, user.id, id, raw) {
      if Stored(rows, user.id, id, raw) {
        var m :| m in rows && m.user == user.id && m.folder == "INBOX" && m.id == id && m.raw == raw;
        assert m in inbox;
        var i :| 0 <= i < |inbox| && inbox[i] == m;
        assert es[i].id == id && es[i].raw == raw;
      }
      if Shows(es, id, raw) {
        var i :| 0 <= i < |es| && es[i].id == id && es[i].raw == raw;
        assert inbox[i] in rows;
      }
    }
  }

  ghost predicate Shows(es: seq<Entry>, id: nat, raw: Bytes) {
    exists i :: 0 <= i < |es| && es[i].id == id && es[i].raw == raw
  }

  ghost predicate Stored(rows: Rows, user: nat, id: nat, raw: Bytes) {
    exists m :: m in rows && m.user == user && m.folder == "INBOX" && m.id == id && m.raw == raw
  }

  // ---------- LIST and UIDL ----------

  /** The scan listing without an argument: each unmarked message once, by its number and size, in order, and nothing else. */
  lemma {:induction false} SizeLinesAre(es: seq<Entry>, gone: Option<set<nat>>, k: nat)
    requires k <= |es|
    ensures var lines := SizeLines(es, gone, k);
            && (forall i :: 0 <= i < |lines| ==> lines[i].SizeLine? && 1 <= lines[i].n <= k)
            && (forall i, j :: 0 <= i < j < |lines| ==> lines[i].n < lines[j].n)
            && (forall n: int, octets: nat :: SizeLine(n, octets) in lines <==>
                  1 <= n <= k && !(gone.Some? && n in gone.value) && octets == es[n - 1].size)
  {
    if k > 0 {
      SizeLinesAre(es, gone, k - 1);
    }
  }

  /** The unique-id listing without an argument: each unmarked message once, by its number and row id, in order, and nothing else. */
  lemma {:induction false} IdLinesAre(es: seq<Entry>, gone: Option<set<nat>>, k: nat)
    requires k <= |es|
    ensures var lines := IdLines(es, gone, k);
            && (forall i :: 0 <= i < |lines| ==> lines[i].IdLine? && 1 <= lines[i].n <= k)
            && (forall i, j :: 0 <= i < j < |lines| ==> lines[i].n < lines[j].n)
            && (forall n: int, id: nat :: IdLine(n, id) in lines <==>
                  1 <= n <= k && !(gone.Some? && n in gone.value) && id == es[n - 1].id)
  {
    if k > 0 {
      IdLinesAre(es, gone, k - 1);
    }
  }

  /** LIST and UIDL of a number name that message's own size and row id; without one they enclose the lines of all messages. */
  lemma ListingsName(h: seq<Command>, n: int)
    requires LoggedOn(Run(h))
    ensures var s := Run(h);
            && (1 <= n <= |s.entries| && !Gone(s.deleted, n) ==>
                  && Answer(s, LIST(Num(n))) == [SizeLine(n, |RetrBody(s.entries[n - 1].raw)| - |TERMINATOR|)]
                  && Answer(s, UIDL(Num(n))) == [IdLine(n, s.entries[n - 1].id)])
            && Answer(s, LIST(Missing)) == [OkLine] + SizeLines(s.entries, s.deleted, |s.entries|) + [LastLine]
            && Answer(s, UIDL(Missing)) == [OkLine] + IdLines(s.entries, s.deleted, |s.entries|) + [LastLine]
  {
    hide Stuffed, TextLines;
    if 1 <= n <= |Run(h).entries| {
      EntriesAreSized(h, n - 1);
    }
  }

  // ---------- TOP ----------

  ghost predicate Occurs(raw: Bytes, sep: Bytes, i: nat) {
    i + |sep| <= |raw| && raw[i..i + |sep|] == sep
  }

  ghost predicate FirstAt(raw: Bytes, sep: Bytes, i: nat) {
    Occurs(raw, sep, i) && forall j: nat :: j < i ==> !Occurs(raw, sep, j)
  }

  lemma OccursIff(raw: Bytes, sep: Bytes, i: nat)
    requires i <= |raw|
    ensures Occurs(raw, sep, i) <==> sep <= raw[i..]
  {
    if i + |sep| <= |raw| {
      assert raw[i..][..|sep|] == raw[i..i + |sep|];
    }
  }

  lemma CutOccurs(raw: Bytes, sep: Bytes)
    requires sep != [] && Cut(raw, sep).Some?
    ensures var (before, after) := Cut(raw, sep).value;
            |before| <= |raw| && Occurs(raw, sep, |before|) && before == raw[..|before|] && after == raw[|before| + |sep|..]
  {
    CutSplits(raw, sep);
    Slices(Cut(raw, sep).value.0, sep, Cut(raw, sep).value.1);
  }

  lemma Slices(a: Bytes, b: Bytes, c: Bytes)
    ensures var s := a + b + c;
            Occurs(s, b, |a|) && s[..|a|] == a && s[|a| + |b|..] == c
  {
    assert (a + b + c)[|a|..|a| + |b|] == b;
  }

  lemma CutAt(raw: Bytes, sep: Bytes, i: nat)
    requires sep != [] && i <= |raw| && FirstAt(raw, sep, i)
    ensures i + |sep| <= |raw| && Cut(raw, sep) == Some((raw[..i], raw[i + |sep|..]))
  {
    OccursIff(raw, sep, i);
    assert i + |sep| <= |raw|;
    if Cut(raw, sep).Some? {
      CutOccurs(raw, sep);
    }
    hide Cut, Occurs;
    if Cut(raw, sep).None? || i < |Cut(raw, sep).value.0| {
      CutIsLeftmost(raw, sep, i);
    }
  }

  lemma CutNowhere(raw: Bytes, sep: Bytes)
    requires sep != [] && forall i: nat :: !Occurs(raw, sep, i)
    ensures Cut(raw, sep).None?
  {
    if Cut(raw, sep).Some? {
      CutOccurs(raw, sep);
    }
  }

  lemma InRange(raw: Bytes, sep: Bytes, i: nat)
    ensures FirstAt(raw, sep, i) ==> i + |sep| <= |raw|
  {
  }

  /** Header and body part at the first empty line ended by CR LF, else at the first ended by LF; else all is header. */
  lemma SplitsAtTheBlankLine(raw: Bytes, i: nat)
    ensures FirstAt(raw, [CR, LF, CR, LF], i) ==> SplitHeaderBody(raw) == (raw[..i], raw[i + 4..])
    ensures FirstAt(raw, [LF, LF], i) && (forall j: nat :: !Occurs(raw, [CR, LF, CR, LF], j)) ==>
              SplitHeaderBody(raw) == (raw[..i], raw[i + 2..])
    ensures (forall j: nat :: !Occurs(raw, [LF, LF], j)) && (forall j: nat :: !Occurs(raw, [CR, LF, CR, LF], j)) ==>
              SplitHeaderBody(raw) == (raw, [])
  {
    hide Cut, Occurs;
    var crlf2: Bytes := [CR, LF, CR, LF];
    var lf2: Bytes := [LF, LF];
    assert CRLF + CRLF == crlf2;
    InRange(raw, crlf2, i);
    InRange(raw, lf2, i);
    if FirstAt(raw, crlf2, i) {
      CutAt(raw, crlf2, i);
    } else if forall j: nat :: !Occurs(raw, crlf2, j) {
      CutNowhere(raw, crlf2);
      if FirstAt(raw, lf2, i) {
        CutAt(raw, lf2, i);
      } else if forall j: nat :: !Occurs(raw, lf2, j) {
        CutNowhere(raw, lf2);
      }
    }
  }

  /**
   TOP of an unmarked number: the client recovers the header lines of that message, a blank line and the first `k` lines of its
   body (none for a negative `k`, all where it has fewer), and exactly the bytes after them.
   */
  lemma TopServesTheMessage(h: seq<Command>, n: int, k: int, rest: Bytes)
    requires LoggedOn(Run(h)) && 1 <= n <= |Run(h).entries| && !Gone(Run(h).deleted, n)
    ensures var (header, body) := SplitHeaderBody(Run(h).entries[n - 1].raw);
            var answer := Answer(Run(h), TOP(Num(n), k));
            var shown := if k < 0 then 0 else if k < |Lines(body)| then k else |Lines(body)|;
            && answer == [TopOf(answer[0].body)]
            && Receive(answer[0].body + rest) == Some((Lines(header) + [[]] + Lines(body)[..shown], rest))
  {
    hide Stuffed, TextLines, Receive, Lines, SplitHeaderBody;
    var (header, body) := SplitHeaderBody(Run(h).entries[n - 1].raw);
    TopRoundTrip(header, body, k, rest);
    assert Lines(body)[..|Lines(body)|] == Lines(body);
  }

  // ---------- Refusals ----------

  predicate NamesAMessage(c: Command) {
    (c.LIST? && !c.arg.Missing?) || (c.UIDL? && !c.arg.Missing?) || (c.TOP? && !c.arg.Missing?) || c.RETR? || c.DELE?
  }

  /** Nothing is shown or marked before the login; the session stays as it is. */
  lemma LoginComesFirst(h: seq<Command>, c: Command)
    requires !LoggedOn(Run(h))
    requires c.STAT? || c.LIST? || c.RETR? || c.DELE? || c.RSET? || c.TOP? || c.UIDL?
    ensures Answer(Run(h), c) == [AuthRequired] && Run(h + [c]) == Run(h)
  {
    RunSnoc(h, c);
  }

  lemma RunSnoc(h: seq<Command>, c: Command)
    ensures Run(h + [c]) == Next(Run(h), c)
  {
    assert (h + [c])[..|h|] == h;
  }

  /** A number out of range names no message, a marked one is refused, and neither changes the session. */
  lemma WrongNumbersAreRefused(h: seq<Command>, c: Command)
    requires LoggedOn(Run(h)) && NamesAMessage(c)
    ensures !(c.arg.Num? && 1 <= c.arg.n <= |Run(h).entries|) ==> Answer(Run(h), c) == [NoSuchMessage] && Run(h + [c]) == Run(h)
    ensures c.arg.Num? && 1 <= c.arg.n <= |Run(h).entries| && Run(h).deleted.Some? && c.arg.n in Run(h).deleted.value ==>
              Answer(Run(h), c) == [if c.DELE? then AlreadyDeleted else Refused] && Run(h + [c]) == Run(h)
  {
    RunSnoc(h, c);
  }

  /** What logs on and off: USER takes over the id its lookup found, a PASS with a USER before it the verified one, and nothing else does. */
  lemma WhoIsLoggedOn(h: seq<Command>, c: Command)
    ensures var now, before := Run(h + [c]).user, Run(h).user;
            match c
            case USER(name, found) =>
              if name == "" then now == before
              else now == Some(User(if found.Some? then found.value.id else 0, name))
            case PASS(accepted, _) =>
              if before.Some? && accepted.Some? then now == Some(User(accepted.value.id, before.value.name)) else now == None
            case _ => now == before
  {
    hide Loaded;
    RunSnoc(h, c);
  }

  /**
   In every run: USER wants a name; PASS a USER before it and the right password, and then says how many messages there are;
   DELE of an unmarked number marks it, RSET unmarks all of them; what is not a command is refused and changes nothing.
   */
  lemma CommandsAnswer(h: seq<Command>, c: Command, n: int)
    ensures var s, after, answer := Run(h), Run(h + [c]), Answer(Run(h), c);
            && (c.USER? ==> answer == [if c.name == "" then Refused else OkLine])
            && (c.PASS? ==>
                  answer == [if s.user.Some? && c.accepted.Some? then LoggedIn(|after.entries|) else Refused])
            && (c == DELE(Num(n)) && LoggedOn(s) && 1 <= n <= |s.entries| && !Gone(s.deleted, n) ==>
                  answer == [OkLine] && forall k: int :: Gone(after.deleted, k) <==> Gone(s.deleted, k) || k == n)
            && (c.RSET? && LoggedOn(s) ==> answer == [OkLine] && !Gone(after.deleted, n) && after.entries == s.entries)
            && (c.NOOP? ==> answer == [OkLine] && after == s)
            && (c.Unknown? ==> answer == [Refused] && after == s)
  {
    MessagesComeFromPass(h);
    hide Loaded, SizeLines, IdLines, Total, RetrBody, TopBody, SplitHeaderBody;
    RunSnoc(h, c);
    if c == DELE(Num(n)) && 1 <= n <= |Run(h).entries| {
      var i :| LoadedBy(h, i);
    }
    hide Run;
  }

  /** What starts TLS: a handshake that succeeds, on a connection neither secured nor logged on; CAPA offers it till then. */
  lemma TlsStartsOnce(h: seq<Command>, c: Command)
    ensures Run(h + [c]).tls <==> Run(h).tls || (c.STLS? && c.loads && c.shakes && !LoggedOn(Run(h)))
    ensures c.STLS? ==> Answer(Run(h), c) == [if Run(h).tls || LoggedOn(Run(h)) || !c.loads then Refused else OkLine]
    ensures c.CAPA? ==> (Capability("STLS") in Answer(Run(h), c) <==> c.certified && !Run(h).tls)
  {
    hide Run, Loaded, Check, SizeLines, IdLines, Total, RetrBody, TopBody, SplitHeaderBody;
    RunSnoc(h, c);
    if c.CAPA? {
      CapabilitiesAre(Run(h), c.certified, "STLS");
      assert "STLS"[0] == 'S' && "USER"[0] == 'U' && "TOP"[0] == 'T' && "UIDL"[0] == 'U' && "RESP-CODES"[0] == 'R';
    }
  }

  /** CAPA names the four capabilities there always are, and STLS while it can be had; between a first and a last line. */
  lemma CapabilitiesAre(s: State, certified: bool, name: string)
    ensures var answer := Capabilities(s, certified);
            && (Capability(name) in answer <==>
                name == "USER" || name == "TOP" || name == "UIDL" || name == "RESP-CODES" || (name == "STLS" && certified && !s.tls))
            && answer[0] == OkLine && answer[|answer| - 1] == LastLine && |answer| == if certified && !s.tls then 7 else 6
  {
    var always := [OkLine, Capability("USER"), Capability("TOP"), Capability("UIDL"), Capability("RESP-CODES")];
    var tls := if !s.tls && certified then [Capability("STLS")] else [];
    assert Capabilities(s, certified) == always + tls + [LastLine];
    assert always[1] == Capability("USER") && always[2] == Capability("TOP") && always[3] == Capability("UIDL")
        && always[4] == Capability("RESP-CODES");
  }
}
