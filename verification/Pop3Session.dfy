/**
 One POP3 connection: the command loop over the logged-in user, the message table loaded
 by PASS, and the deletion marks that only QUIT carries out.
 */
module Pop3Session {
  import opened MailTable
  import opened Pop3Wire
  import opened Wrappers

  datatype User = User(id: nat, name: string)

  /** `size` is what the size lines announce. */
  datatype Entry = Entry(id: nat, raw: Bytes, size: nat)

  /** A message-number argument as the integer parser sees it. */
  datatype Arg = Missing | NotANumber | Num(n: int)

  /**
   A command with what the outside world answered to it: the address lookup of USER,
   for PASS the verified user and the message table read at that moment
   (None where the read failed), for CAPA whether a certificate is configured,
   for STLS whether it loads and whether the handshake succeeds.
   */
  datatype Command =
    | USER(name: string, found: Option<User>)
    | PASS(accepted: Option<User>, table: Option<Rows>)
    | STAT
    | LIST(arg: Arg)
    | RETR(arg: Arg)
    | TOP(arg: Arg, nLines: int)
    | UIDL(arg: Arg)
    | DELE(arg: Arg)
    | RSET
    | NOOP
    | CAPA(certified: bool)
    | STLS(loads: bool, shakes: bool)
    | QUIT
    | Unknown

  datatype Reply =
    | OkLine
    | Capability(name: string)
    | LoggedIn(count: nat)
    | StatLine(count: nat, octets: nat)
    | SizeLine(n: int, octets: nat)
    | IdLine(n: int, id: nat)
    | LastLine
    | Octets(size: nat, body: Bytes)
    | TopOf(body: Bytes)
    | AuthRequired
    | Refused
    | NoSuchMessage
    | AlreadyDeleted

  /** `deleted` is None where the program holds a nil map; `crashed` records a write to it. */
  datatype State = State(user: Option<User>, entries: seq<Entry>, deleted: Option<set<nat>>, crashed: bool, tls: bool)

  const INITIAL := State(None, [], None, false, false)

  // ---------- Loading ----------

  function Load(rows: Rows): (entries: seq<Entry>)
    ensures |entries| == |rows|
    ensures forall i :: 0 <= i < |rows| ==>
              entries[i] == Entry(rows[i].id, rows[i].raw, |Stuffed(TextLines(rows[i].raw))|)
  {
    seq(|rows|, i requires 0 <= i < |rows| => Entry(rows[i].id, rows[i].raw, |Stuffed(TextLines(rows[i].raw))|))
  }

  method LoadMessages(user: User, table: Option<Rows>) returns (entries: seq<Entry>)
    ensures entries == Loaded(user, table)
  {
    entries := [];
    if table.None? {
      return;
    }
    var rows := Listing(table.value, user.id, "INBOX");
    for i := 0 to |rows|
      invariant entries == Load(rows[..i])
    {
      var text := NormalizePOP3Data(rows[i].raw);
      entries := entries + [Entry(rows[i].id, rows[i].raw, |text|)];
      assert rows[..i + 1][..i] == rows[..i];
    }
    assert rows[..|rows|] == rows;
  }

  function Loaded(user: User, table: Option<Rows>): seq<Entry> {
    if table.None? then [] else Load(Listing(table.value, user.id, "INBOX"))
  }

  // ---------- The replies, over the first `k` entries ----------

  predicate Gone(deleted: Option<set<nat>>, n: int) {
    deleted.Some? && n in deleted.value
  }

  function SizeLines(es: seq<Entry>, gone: Option<set<nat>>, k: nat): seq<Reply>
    requires k <= |es|
  {
    if k == 0 then []
    else SizeLines(es, gone, k - 1) + if Gone(gone, k) then [] else [SizeLine(k, es[k - 1].size)]
  }

  function IdLines(es: seq<Entry>, gone: Option<set<nat>>, k: nat): seq<Reply>
    requires k <= |es|
  {
    if k == 0 then []
    else IdLines(es, gone, k - 1) + if Gone(gone, k) then [] else [IdLine(k, es[k - 1].id)]
  }

  function Total(es: seq<Entry>, gone: Option<set<nat>>, k: nat): Reply
    requires k <= |es|
    ensures Total(es, gone, k).StatLine?
  {
    if k == 0 then StatLine(0, 0)
    else
      var before := Total(es, gone, k - 1);
      if Gone(gone, k) then before else StatLine(before.count + 1, before.octets + es[k - 1].size)
  }

  /** The error a message number draws, if any. */
  function Check(s: State, arg: Arg, marked: Reply): Option<Reply> {
    if !arg.Num? || arg.n < 1 || arg.n > |s.entries| then Some(NoSuchMessage)
    else if Gone(s.deleted, arg.n) then Some(marked)
    else None
  }

  // ---------- One command ----------

  predicate LoggedOn(s: State) {
    s.user.Some? && s.user.value.id != 0
  }

  predicate RequiresAuth(c: Command) {
    c.STAT? || c.LIST? || c.RETR? || c.DELE? || c.RSET? || c.TOP? || c.UIDL?
  }

  /** The STLS command is taken up: the handshake follows. */
  predicate StartsTls(s: State, c: Command) {
    c.STLS? && !LoggedOn(s) && !s.tls && c.loads
  }

  /** The handshake fails, and with it the connection ends. */
  predicate HangsUp(s: State, c: Command) {
    StartsTls(s, c) && !c.shakes
  }

  function Capabilities(s: State, certified: bool): seq<Reply> {
    [OkLine, Capability("USER"), Capability("TOP"), Capability("UIDL"), Capability("RESP-CODES")]
    + (if !s.tls && certified then [Capability("STLS")] else []) + [LastLine]
  }

  function Answer(s: State, c: Command): seq<Reply> {
    if RequiresAuth(c) && !LoggedOn(s) then [AuthRequired]
    else
      match c
      case USER(name, _) => [if name == "" then Refused else OkLine]
      case PASS(accepted, table) =>
        [if s.user.None? || accepted.None? then Refused else LoggedIn(|Loaded(accepted.value, table)|)]
      case STAT => [Total(s.entries, s.deleted, |s.entries|)]
      case LIST(arg) =>
        if arg.Missing? then [OkLine] + SizeLines(s.entries, s.deleted, |s.entries|) + [LastLine]
        else if Check(s, arg, Refused).Some? then [Check(s, arg, Refused).value]
        else [SizeLine(arg.n, s.entries[arg.n - 1].size)]
      case UIDL(arg) =>
        if arg.Missing? then [OkLine] + IdLines(s.entries, s.deleted, |s.entries|) + [LastLine]
        else if Check(s, arg, Refused).Some? then [Check(s, arg, Refused).value]
        else [IdLine(arg.n, s.entries[arg.n - 1].id)]
      case RETR(arg) =>
        if Check(s, arg, Refused).Some? then [Check(s, arg, Refused).value]
        else [Octets(s.entries[arg.n - 1].size, RetrBody(s.entries[arg.n - 1].raw))]
      case TOP(arg, nLines) =>
        if arg.Missing? then [Refused]
        else if Check(s, arg, Refused).Some? then [Check(s, arg, Refused).value]
        else
          var parts := SplitHeaderBody(s.entries[arg.n - 1].raw);
          [TopOf(TopBody(parts.0, parts.1, nLines))]
      case DELE(arg) =>
        if Check(s, arg, AlreadyDeleted).Some? then [Check(s, arg, AlreadyDeleted).value] else [OkLine]
      case CAPA(certified) => Capabilities(s, certified)
      case STLS(_, _) => [if StartsTls(s, c) then OkLine else Refused]
      case Unknown => [Refused]
      case _ => [OkLine]
  }

  function Next(s: State, c: Command): State {
    if RequiresAuth(c) && !LoggedOn(s) then s
    else
      match c
      case USER(name, found) =>
        var user := if name == "" then s.user
                    else if found.None? then Some(User(0, name))
                    else Some(User(found.value.id, name));
        s.(user := user, entries := [], deleted := None)
      case PASS(accepted, table) =>
        if s.user.None? || accepted.None? then s.(user := None, entries := [], deleted := None)
        else s.(user := Some(User(accepted.value.id, s.user.value.name)),
                entries := Loaded(accepted.value, table), deleted := Some({}))
      case DELE(arg) =>
        if Check(s, arg, AlreadyDeleted).Some? then s
        else if s.deleted.None? then s.(crashed := true)
        else s.(deleted := Some(s.deleted.value + {arg.n}))
      case RSET => s.(deleted := Some({}))
      case STLS(_, shakes) => if StartsTls(s, c) && shakes then s.(tls := true) else s
      case _ => s
  }

  function Run(h: seq<Command>): State {
    if h == [] then INITIAL else Next(Run(h[..|h| - 1]), h[|h| - 1])
  }

  // ---------- The connection object ----------

  class Connection {
    var authUser: Option<User>
    var entries: seq<Entry>
    var deleted: Option<set<nat>>
    var crashed: bool
    var tls: bool
    var out: seq<Reply>

    constructor ()
      ensures Now() == INITIAL && out == []
    {
      authUser, entries, deleted, crashed, tls, out := None, [], None, false, false, [];
    }

    function Now(): State
      reads this
    {
      State(authUser, entries, deleted, crashed, tls)
    }

    method Send(r: Reply)
      modifies `out
      ensures out == old(out) + [r]
    {
      out := out + [r];
    }

    method HandleSTAT()
      modifies `out
      ensures out == old(out) + [Total(entries, deleted, |entries|)]
    {
      var count: nat, octets: nat := 0, 0;
      for i := 0 to |entries|
        invariant StatLine(count, octets) == Total(entries, deleted, i)
      {
        if !Gone(deleted, i + 1) {
          count := count + 1;
          octets := octets + entries[i].size;
        }
      }
      Send(StatLine(count, octets));
    }

    method HandleLIST(arg: Arg)
      requires LoggedOn(Now())
      modifies `out
      ensures out == old(out) + Answer(old(Now()), LIST(arg))
    {
      if arg.Missing? {
        Send(OkLine);
        for i := 0 to |entries|
          invariant out == old(out) + [OkLine] + SizeLines(entries, deleted, i)
        {
          if !Gone(deleted, i + 1) {
            Send(SizeLine(i + 1, entries[i].size));
          }
        }
        Send(LastLine);
      } else if !arg.Num? || arg.n < 1 || arg.n > |entries| {
        Send(NoSuchMessage);
      } else if Gone(deleted, arg.n) {
        Send(Refused);
      } else {
        Send(SizeLine(arg.n, entries[arg.n - 1].size));
      }
    }

    method HandleUIDL(arg: Arg)
      requires LoggedOn(Now())
      modifies `out
      ensures out == old(out) + Answer(old(Now()), UIDL(arg))
    {
      if arg.Missing? {
        Send(OkLine);
        for i := 0 to |entries|
          invariant out == old(out) + [OkLine] + IdLines(entries, deleted, i)
        {
          if !Gone(deleted, i + 1) {
            Send(IdLine(i + 1, entries[i].id));
          }
        }
        Send(LastLine);
      } else if !arg.Num? || arg.n < 1 || arg.n > |entries| {
        Send(NoSuchMessage);
      } else if Gone(deleted, arg.n) {
        Send(Refused);
      } else {
        Send(IdLine(arg.n, entries[arg.n - 1].id));
      }
    }

    method HandleRETR(arg: Arg)
      requires LoggedOn(Now())
      modifies `out
      ensures out == old(out) + Answer(old(Now()), RETR(arg))
    {
      if !arg.Num? || arg.n < 1 || arg.n > |entries| {
        Send(NoSuchMessage);
      } else if Gone(deleted, arg.n) {
        Send(Refused);
      } else {
        var e := entries[arg.n - 1];
        var w := new Writer();
        WriteRetrBody(w, e.raw);
        assert w.out == RetrBody(e.raw);
        Send(Octets(e.size, w.out));
      }
    }

    method HandleTOP(arg: Arg, nLines: int)
      requires LoggedOn(Now())
      modifies `out
      ensures out == old(out) + Answer(old(Now()), TOP(arg, nLines))
    {
      if arg.Missing? {
        Send(Refused);
      } else if !arg.Num? || arg.n < 1 || arg.n > |entries| {
        Send(NoSuchMessage);
      } else if Gone(deleted, arg.n) {
        Send(Refused);
      } else {
        var parts := SplitHeaderBody(entries[arg.n - 1].raw);
        var w := new Writer();
        WriteTopBody(w, parts.0, parts.1, nLines);
        assert w.out == TopBody(parts.0, parts.1, nLines);
        Send(TopOf(w.out));
      }
    }

    method HandleDELE(arg: Arg)
      requires LoggedOn(Now())
      modifies `deleted, `crashed, `out
      ensures Now() == Next(old(Now()), DELE(arg))
      ensures out == old(out) + Answer(old(Now()), DELE(arg))
    {
      if !arg.Num? || arg.n < 1 || arg.n > |entries| {
        Send(NoSuchMessage);
      } else if Gone(deleted, arg.n) {
        Send(AlreadyDeleted);
      } else {
        if deleted.None? {
          crashed := true;
        } else {
          deleted := Some(deleted.value + {arg.n});
        }
        Send(OkLine);
      }
    }

    method HandlePASS(accepted: Option<User>, table: Option<Rows>)
      modifies this
      ensures Now() == Next(old(Now()), PASS(accepted, table))
      ensures out == old(out) + Answer(old(Now()), PASS(accepted, table))
    {
      if authUser.None? || accepted.None? {
        Send(Refused);
        authUser, entries, deleted := None, [], None;
      } else {
        authUser := Some(User(accepted.value.id, authUser.value.name));
        entries := LoadMessages(accepted.value, table);
        deleted := Some({});
        Send(LoggedIn(|entries|));
      }
    }

    method HandleCAPA(certified: bool)
      modifies `out
      ensures out == old(out) + Capabilities(old(Now()), certified)
    {
      Send(OkLine);
      Send(Capability("USER"));
      Send(Capability("TOP"));
      Send(Capability("UIDL"));
      Send(Capability("RESP-CODES"));
      if !tls && certified {
        Send(Capability("STLS"));
      }
      Send(LastLine);
    }

    /** One turn of the command loop, QUIT aside; not `up` where a failed handshake ends the connection. */
    method Handle(c: Command) returns (up: bool)
      requires !c.QUIT?
      modifies this
      ensures Now() == Next(old(Now()), c) && up == !HangsUp(old(Now()), c)
      ensures out == old(out) + Answer(old(Now()), c)
    {
      up := true;
      if RequiresAuth(c) && !LoggedOn(Now()) {
        Send(AuthRequired);
        return;
      }
      match c
      case USER(name, found) =>
        entries, deleted := [], None;
        if name == "" {
          Send(Refused);
        } else {
          authUser := Some(User(if found.None? then 0 else found.value.id, name));
          Send(OkLine);
        }
      case PASS(accepted, table) => HandlePASS(accepted, table);
      case STAT => HandleSTAT();
      case LIST(arg) => HandleLIST(arg);
      case RETR(arg) => HandleRETR(arg);
      case TOP(arg, nLines) => HandleTOP(arg, nLines);
      case UIDL(arg) => HandleUIDL(arg);
      case DELE(arg) => HandleDELE(arg);
      case RSET =>
        deleted := Some({});
        Send(OkLine);
      case NOOP => Send(OkLine);
      case CAPA(certified) => HandleCAPA(certified);
      case STLS(loads, shakes) =>
        if LoggedOn(Now()) {
          Send(Refused);
        } else if tls {
          Send(Refused);
        } else if !loads {
          Send(Refused);
        } else {
          Send(OkLine);
          if !shakes {
            return false;
          }
          tls := true;
        }
      case Unknown => Send(Refused);
    }

    /**
     QUIT: deletes the marked messages one by one, in whatever order the map yields them.
     `failing` are the ids the store fails to delete; `seqs` the numbers pushed to IMAP.
     */
    method ExpungeDeleted(store: MailStore, failing: set<nat>) returns (count: nat, seqs: seq<nat>)
      modifies store
      ensures store.rows == Without(old(store.rows), IdsOf(entries, Done(Now(), failing)))
      ensures count == |seqs| && multiset(seqs) == multiset(Done(Now(), failing))
    {
      count, seqs := 0, [];
      WithoutNone(store.rows);
      assert IdsOf(entries, {}) == {};
      if deleted.None? || !LoggedOn(Now()) {
        return;
      }
      var left := deleted.value;
      ghost var did: set<nat> := {};
      while left != {}
        invariant left <= deleted.value
        invariant forall n :: n in did <==> n in Done(Now(), failing) && n !in left
        invariant store.rows == Without(old(store.rows), IdsOf(entries, did))
        invariant count == |seqs| && multiset(seqs) == multiset(did)
      {
        var n := AnyOf(left);
        left := left - {n};
        if 1 <= n <= |entries| && entries[n - 1].id !in failing {
          store.Delete(entries[n - 1].id);
          WithoutTwice(old(store.rows), IdsOf(entries, did), {entries[n - 1].id});
          assert IdsOf(entries, did + {n}) == IdsOf(entries, did) + {entries[n - 1].id};
          count, seqs := count + 1, seqs + [n];
          did := did + {n};
        }
      }
      assert did == Done(Now(), failing);
    }

    /** The whole connection: `input` is what the client sends before it hangs up. */
    method Serve(store: MailStore, input: seq<Command>, failing: set<nat>)
      requires Now() == INITIAL
      modifies this, store
      ensures store.rows ==
              if Quits(INITIAL, input) then
                var s := Run(Handled(INITIAL, input));
                Without(old(store.rows), IdsOf(s.entries, Done(s, failing)))
              else old(store.rows)
    {
      assert input[0..] == input;
      for i := 0 to |input|
        invariant Now() == Run(input[..i]) && store.rows == old(store.rows)
        invariant Handled(INITIAL, input) == input[..i] + Handled(Now(), input[i..])
        invariant Quits(INITIAL, input) == Quits(Now(), input[i..])
      {
        assert input[i..][1..] == input[i + 1..];
        assert input[..i + 1] == input[..i] + [input[i]] && input[..i + 1][..i] == input[..i];
        if input[i].QUIT? {
          assert input[..i] + [] == input[..i];
          var count, seqs := ExpungeDeleted(store, failing);
          return;
        }
        var up := Handle(input[i]);
        if !up {
          return;
        }
      }
    }
  }

  /** The commands handled before QUIT, a failed handshake or the end of the input. */
  function Handled(s: State, input: seq<Command>): seq<Command>
    decreases |input|
  {
    if input == [] || input[0].QUIT? || HangsUp(s, input[0]) then []
    else [input[0]] + Handled(Next(s, input[0]), input[1..])
  }

  /** The connection gets as far as a QUIT. */
  predicate Quits(s: State, input: seq<Command>)
    decreases |input|
  {
    input != [] && (input[0].QUIT? || (!HangsUp(s, input[0]) && Quits(Next(s, input[0]), input[1..])))
  }

  /** The marked numbers whose deletion does not fail. */
  ghost function Done(s: State, failing: set<nat>): set<nat> {
    if s.deleted.None? || !LoggedOn(s) then {}
    else set n | n in s.deleted.value && 1 <= n <= |s.entries| && s.entries[n - 1].id !in failing
  }

  ghost function IdsOf(es: seq<Entry>, numbers: set<nat>): set<nat> {
    set n | n in numbers && 1 <= n <= |es| :: es[n - 1].id
  }

  // ---------- Every run ----------

  predicate Reloads(c: Command) {
    c.USER? || c.PASS?
  }

  predicate Clears(c: Command) {
    Reloads(c) || c.RSET?
  }

  /** The `i`-th command is the PASS that loaded what the session now shows. */
  ghost predicate LoadedBy(h: seq<Command>, i: int) {
    && 0 <= i < |h|
    && h[i].PASS? && h[i].accepted.Some?
    && (forall j :: i < j < |h| ==> !Reloads(h[j]))
    && Run(h).entries == Loaded(h[i].accepted.value, h[i].table)
    && Run(h).user.Some? && Run(h).user.value.id == h[i].accepted.value.id
    && Run(h).deleted.Some?
  }

  /**
   Messages are shown only after a successful PASS with no USER or PASS since, they are the INBOX that
   PASS read, and the deletion map then exists: DELE never writes to a nil map.
   */
  lemma {:induction false} MessagesComeFromPass(h: seq<Command>)
    ensures !Run(h).crashed
    ensures Run(h).entries != [] ==> exists i :: LoadedBy(h, i)
  {
    hide Loaded;
    if h != [] {
      var before, c := h[..|h| - 1], h[|h| - 1];
      MessagesComeFromPass(before);
      assert Run(h) == Next(Run(before), c);
      if Run(h).entries != [] {
        if c.PASS? {
          assert LoadedBy(h, |h| - 1);
        } else {
          var i :| LoadedBy(before, i);
          assert LoadedBy(h, i);
        }
      }
    }
  }

  /** The `i`-th command is a DELE of `n`, and nothing has cleared the marks since. */
  ghost predicate DeleSince(h: seq<Command>, i: int, n: int) {
    0 <= i < |h| && h[i] == DELE(Num(n)) && forall j :: i < j < |h| ==> !Clears(h[j])
  }

  /** A number is marked exactly when a DELE named it since the last command that clears the marks. */
  lemma {:induction false} MarkedIff(h: seq<Command>, n: int)
    ensures Gone(Run(h).deleted, n) <==>
            LoggedOn(Run(h)) && 1 <= n <= |Run(h).entries| && exists i :: DeleSince(h, i, n)
  {
    hide Loaded;
    if h != [] {
      var before, c := h[..|h| - 1], h[|h| - 1];
      assert Run(h) == Next(Run(before), c);
      MarkedIff(before, n);
      MessagesComeFromPass(before);
      MessagesComeFromPass(h);
      if c == DELE(Num(n)) {
        assert DeleSince(h, |h| - 1, n);
      } else if !Clears(c) {
        if i :| DeleSince(before, i, n) {
          assert DeleSince(h, i, n);
        }
        if i :| DeleSince(h, i, n) {
          assert DeleSince(before, i, n);
        }
      }
    }
  }

  /** What QUIT leaves: every row but those of the marked messages whose deletion does not fail. */
  lemma QuitRemovesExactlyTheMarked(rows: Rows, s: State, failing: set<nat>, m: Message)
    requires Keyed(rows) && LoggedOn(s)
    ensures m in Without(rows, IdsOf(s.entries, Done(s, failing))) <==>
            m in rows && (m.id in failing
                          || forall n: nat :: Gone(s.deleted, n) && 1 <= n <= |s.entries| ==> s.entries[n - 1].id != m.id)
  {
    var ids := IdsOf(s.entries, Done(s, failing));
    FilterKeeps(rows, NotIn(ids));
    if m.id in ids {
      var n :| n in Done(s, failing) && 1 <= n <= |s.entries| && s.entries[n - 1].id == m.id;
      assert Gone(s.deleted, n);
    }
    forall n: nat | Gone(s.deleted, n) && 1 <= n <= |s.entries| && s.entries[n - 1].id == m.id && m.id !in failing
      ensures m.id in ids
    {
      assert n in Done(s, failing);
    }
  }

  /** Message numbers keep naming the same messages until the next USER or PASS. */
  lemma {:induction false} NumbersAreStable(h: seq<Command>, more: seq<Command>)
    requires forall c :: c in more ==> !Reloads(c)
    ensures Run(h + more).entries == Run(h).entries
  {
    if more == [] {
      assert h + more == h;
    } else {
      var all, k := h + more, |more| - 1;
      assert all[..|all| - 1] == h + more[..k] && all[|all| - 1] == more[k] && more[k] in more;
      NumbersAreStable(h, more[..k]);
    }
  }

  function Sum(lines: seq<Reply>): nat {
    if lines == [] || !lines[|lines| - 1].SizeLine? then 0
    else Sum(lines[..|lines| - 1]) + lines[|lines| - 1].octets
  }

  /** STAT reports the number of LIST lines and the sum of their sizes. */
  lemma {:induction false} StatAgreesWithList(es: seq<Entry>, gone: Option<set<nat>>, k: nat)
    requires k <= |es|
    ensures Total(es, gone, k) == StatLine(|SizeLines(es, gone, k)|, Sum(SizeLines(es, gone, k)))
  {
    hide Sum, Gone;
    if k > 0 {
      StatAgreesWithList(es, gone, k - 1);
      if Gone(gone, k) {
        assert SizeLines(es, gone, k - 1) + [] == SizeLines(es, gone, k - 1);
      } else {
        SumSnoc(SizeLines(es, gone, k - 1), SizeLine(k, es[k - 1].size));
      }
    } else {
      SumNone();
    }
  }

  lemma SumNone()
    ensures Sum([]) == 0
  {
  }

  lemma SumSnoc(lines: seq<Reply>, line: Reply)
    requires line.SizeLine?
    ensures Sum(lines + [line]) == Sum(lines) + line.octets
  {
    var all := lines + [line];
    assert all[..|all| - 1] == lines;
  }

  lemma {:induction false} EntriesAreSized(h: seq<Command>, i: nat)
    requires i < |Run(h).entries|
    ensures Run(h).entries[i].size == |Stuffed(TextLines(Run(h).entries[i].raw))|
  {
    hide Stuffed, TextLines;
    var before, c := h[..|h| - 1], h[|h| - 1];
    if !Reloads(c) {
      EntriesAreSized(before, i);
    }
  }

  /** RETR of an unmarked number: the client recovers the lines of that message, framed, in the announced size. */
  lemma RetrServesTheMessage(h: seq<Command>, n: int, rest: Bytes)
    requires LoggedOn(Run(h)) && 1 <= n <= |Run(h).entries| && !Gone(Run(h).deleted, n)
    ensures var e := Run(h).entries[n - 1];
            var answer := Answer(Run(h), RETR(Num(n)));
            && answer == [Octets(e.size, answer[0].body)]
            && |answer[0].body| == e.size + |TERMINATOR|
            && Receive(answer[0].body + rest) == Some((Lines(e.raw), rest))
  {
    hide Stuffed, TextLines, Receive, Lines;
    EntriesAreSized(h, n - 1);
    RetrRoundTrip(Run(h).entries[n - 1].raw, rest);
  }
}
