/**
 The POP3 multi-line response body: newline normalisation, dot-stuffing, the announced size,
 and the receiver of RFC 1939 section 3 that has to undo and frame it.
 */
module Pop3Wire {
  import opened Wrappers

  newtype Byte = i: int | 0 <= i < 256

  type Bytes = seq<Byte>

  const LF: Byte := 10
  const CR: Byte := 13
  const DOT: Byte := 46
  const CRLF: Bytes := [CR, LF]
  const TERMINATOR: Bytes := [DOT, CR, LF]

  predicate StartsWithDot(line: Bytes) {
    line != [] && line[0] == DOT
  }

  // ---------- The library string functions the writer calls ----------

  /** Every CR LF pair, leftmost first, becomes one LF. */
  function ReplaceCRLF(s: Bytes): Bytes {
    if s == [] then []
    else if |s| > 1 && s[0] == CR && s[1] == LF then [LF] + ReplaceCRLF(s[2..])
    else [s[0]] + ReplaceCRLF(s[1..])
  }

  function ReplaceCR(s: Bytes): Bytes {
    if s == [] then [] else [if s[0] == CR then LF else s[0]] + ReplaceCR(s[1..])
  }

  /** The pieces between the LFs; always at least one. */
  function SplitLF(s: Bytes): (pieces: seq<Bytes>)
    ensures pieces != []
  {
    if s == [] then [[]]
    else
      var rest := SplitLF(s[1..]);
      if s[0] == LF then [[]] + rest else [[s[0]] + rest[0]] + rest[1..]
  }

  function DropFinalEmpty(pieces: seq<Bytes>): seq<Bytes>
    requires pieces != []
  {
    if pieces[|pieces| - 1] == [] then pieces[..|pieces| - 1] else pieces
  }

  /** The lines the writer goes through. */
  function TextLines(raw: Bytes): seq<Bytes> {
    DropFinalEmpty(SplitLF(ReplaceCR(ReplaceCRLF(raw))))
  }

  function Limited(lines: seq<Bytes>, maxLines: Option<int>): seq<Bytes> {
    if maxLines.None? || maxLines.value >= |lines| then lines
    else if maxLines.value <= 0 then []
    else lines[..maxLines.value]
  }

  // ---------- What goes over the wire ----------

  /** The lines as RFC 1939 counts them, each with its CR LF. */
  function Joined(lines: seq<Bytes>): Bytes {
    if lines == [] then [] else lines[0] + CRLF + Joined(lines[1..])
  }

  function StuffedLine(line: Bytes): Bytes {
    (if StartsWithDot(line) then [DOT] else []) + line + CRLF
  }

  function Stuffed(lines: seq<Bytes>): Bytes {
    if lines == [] then [] else StuffedLine(lines[0]) + Stuffed(lines[1..])
  }

  class Writer {
    var out: Bytes

    constructor ()
      ensures out == []
    {
      out := [];
    }

    method Write(b: Bytes)
      modifies this
      ensures out == old(out) + b
    {
      out := out + b;
    }
  }

  method WriteLine(w: Writer, line: Bytes)
    modifies w
    ensures w.out == old(w.out) + StuffedLine(line)
  {
    if StartsWithDot(line) {
      w.Write([DOT]);
    }
    w.Write(line + CRLF);
  }

  lemma StuffedFrom(lines: seq<Bytes>, i: nat)
    requires i < |lines|
    ensures Stuffed(lines[i..]) == StuffedLine(lines[i]) + Stuffed(lines[i + 1..])
  {
    assert lines[i..][1..] == lines[i + 1..];
  }

  method WriteDotStuffed(w: Writer, raw: Bytes, maxLines: Option<int>)
    modifies w
    ensures w.out == old(w.out) + Stuffed(Limited(TextLines(raw), maxLines))
  {
    hide SplitLF, ReplaceCR, ReplaceCRLF, StuffedLine;
    var lines := SplitLF(ReplaceCR(ReplaceCRLF(raw)));
    var written := 0;
    ghost var before, all := w.out, Limited(TextLines(raw), maxLines);
    for i := 0 to |lines|
      invariant written == i <= |all|
      invariant w.out + Stuffed(all[i..]) == before + Stuffed(all)
    {
      if maxLines.Some? && written >= maxLines.value {
        break;
      }
      var line := lines[i];
      if i == |lines| - 1 && line == [] {
        break;
      }
      StuffedFrom(all, i);
      WriteLine(w, line);
      written := written + 1;
    }
    assert all[|all|..] == [];
  }

  /** The size LIST, STAT and RETR announce is the length of this text. */
  method NormalizePOP3Data(raw: Bytes) returns (text: Bytes)
    ensures text == Stuffed(TextLines(raw))
  {
    var w := new Writer();
    WriteDotStuffed(w, raw, None);
    text := w.out;
  }

  /** The body of a RETR response. */
  method WriteRetrBody(w: Writer, raw: Bytes)
    modifies w
    ensures w.out == old(w.out) + RetrBody(raw)
  {
    WriteDotStuffed(w, raw, None);
    w.Write(TERMINATOR);
  }

  /** The body of a TOP response. */
  method WriteTopBody(w: Writer, header: Bytes, body: Bytes, nLines: int)
    modifies w
    ensures w.out == old(w.out) + TopBody(header, body, nLines)
  {
    hide TextLines, Stuffed;
    WriteDotStuffed(w, header, None);
    w.Write(CRLF);
    WriteDotStuffed(w, body, Some(nLines));
    w.Write(TERMINATOR);
  }

  function RetrBody(raw: Bytes): Bytes {
    Stuffed(TextLines(raw)) + TERMINATOR
  }

  function TopBody(header: Bytes, body: Bytes, nLines: int): Bytes {
    Stuffed(TextLines(header)) + CRLF + Stuffed(Limited(TextLines(body), Some(nLines))) + TERMINATOR
  }

  // ---------- The receiver ----------

  /** The bytes before the first CR LF, and those after it. */
  function NextLine(stream: Bytes): (r: Option<(Bytes, Bytes)>)
    ensures r.Some? ==> |r.value.1| < |stream|
  {
    if |stream| < 2 then None
    else if stream[0] == CR && stream[1] == LF then Some(([], stream[2..]))
    else
      match NextLine(stream[1..])
      case None => None
      case Some((line, rest)) => Some(([stream[0]] + line, rest))
  }

  /** Reads lines up to the lone dot, taking one leading dot off each; also returns the unread bytes. */
  function Receive(stream: Bytes): Option<(seq<Bytes>, Bytes)>
    decreases |stream|
  {
    match NextLine(stream)
    case None => None
    case Some((line, rest)) =>
      if line == [DOT] then Some(([], rest))
      else
        match Receive(rest)
        case None => None
        case Some((lines, unread)) => Some(([if StartsWithDot(line) then line[1..] else line] + lines, unread))
  }

  /** The lines of a text in which CR LF, CR and LF each end a line. */
  function Lines(s: Bytes): seq<Bytes>
    decreases |s|
  {
    if s == [] then [] else [FirstLine(s).0] + Lines(FirstLine(s).1)
  }

  function FirstLine(s: Bytes): (r: (Bytes, Bytes))
    requires s != []
    ensures |r.1| < |s|
  {
    if s[0] == LF then ([], s[1..])
    else if s[0] == CR then ([], if |s| > 1 && s[1] == LF then s[2..] else s[1..])
    else if |s| == 1 then (s, [])
    else ([s[0]] + FirstLine(s[1..]).0, FirstLine(s[1..]).1)
  }

  // ---------- Proofs ----------

  lemma LinesCons(c: Byte, t: Bytes)
    requires c != CR && c != LF && t != []
    ensures Lines(t) != [] && Lines([c] + t) == [[c] + Lines(t)[0]] + Lines(t)[1..]
  {
    var s := [c] + t;
    assert s[1..] == t;
    assert Lines(t) == [FirstLine(t).0] + Lines(FirstLine(t).1);
    assert FirstLine(s) == ([c] + FirstLine(t).0, FirstLine(t).1);
  }

  /** One character that ends no line, in front of a text whose pieces are its lines. */
  lemma PiecesCons(c: Byte, tail: Bytes, rest: Bytes)
    requires c != CR && c != LF && DropFinalEmpty(SplitLF(tail)) == Lines(rest) && (rest == [] <==> tail == [])
    ensures DropFinalEmpty(SplitLF([c] + tail)) == Lines([c] + rest)
  {
    var norm, raw := [c] + tail, [c] + rest;
    var pieces := SplitLF(tail);
    assert norm[1..] == tail && raw[1..] == rest;
    assert SplitLF(norm) == [[c] + pieces[0]] + pieces[1..];
    if rest == [] {
      LinesSingle(c);
      assert raw == [c] && pieces == [[]] && [c] + pieces[0] == [c];
    } else {
      LinesCons(c, rest);
      hide SplitLF, Lines;
    }
  }

  lemma PiecesNewline(tail: Bytes)
    ensures DropFinalEmpty(SplitLF([LF] + tail)) == [[]] + DropFinalEmpty(SplitLF(tail))
  {
    assert ([LF] + tail)[1..] == tail;
    var pieces := SplitLF(tail);
    assert SplitLF([LF] + tail) == [[]] + pieces;
  }

  /** The two replacements, the split and the dropped last piece find exactly the lines of the text. */
  lemma {:induction false} TextLinesAreLines(raw: Bytes)
    ensures TextLines(raw) == Lines(raw)
    decreases |raw|
  {
    if raw == [] {
      LinesSingle(0);
    } else if NewlineLength(raw) > 0 {
      var rest := raw[NewlineLength(raw)..];
      TextLinesAreLines(rest);
      LinesNewline(raw);
      assert ReplaceCR(ReplaceCRLF(raw)) == [LF] + ReplaceCR(ReplaceCRLF(rest));
      hide SplitLF, DropFinalEmpty, Lines;
      PiecesNewline(ReplaceCR(ReplaceCRLF(rest)));
    } else {
      var rest := raw[1..];
      TextLinesAreLines(rest);
      assert raw == [raw[0]] + rest && ReplaceCR(ReplaceCRLF(raw)) == [raw[0]] + ReplaceCR(ReplaceCRLF(rest));
      hide SplitLF, DropFinalEmpty, Lines;
      PiecesCons(raw[0], ReplaceCR(ReplaceCRLF(rest)), rest);
    }
  }

  ghost predicate Clean(lines: seq<Bytes>) {
    forall i :: 0 <= i < |lines| ==> CR !in lines[i]
  }

  lemma {:induction false} LinesAreClean(s: Bytes)
    ensures Clean(Lines(s))
    decreases |s|
  {
    if s != [] {
      FirstLineIsClean(s);
      LinesAreClean(FirstLine(s).1);
    }
  }

  lemma {:induction false} FirstLineIsClean(s: Bytes)
    requires s != []
    ensures CR !in FirstLine(s).0
  {
    if s[0] != LF && s[0] != CR && |s| > 1 {
      FirstLineIsClean(s[1..]);
    }
  }

  lemma {:induction false} NextLineOf(line: Bytes, rest: Bytes)
    requires CR !in line
    ensures NextLine(line + CRLF + rest) == Some((line, rest))
  {
    var stream := line + CRLF + rest;
    if line == [] {
      assert stream[2..] == rest;
    } else {
      NextLineOf(line[1..], rest);
      assert stream[1..] == line[1..] + CRLF + rest;
      assert [line[0]] + line[1..] == line;
    }
  }

  /** A stuffed line is never mistaken for the terminator, and comes out as it went in. */
  lemma ReceiveOne(line: Bytes, more: Bytes)
    requires CR !in line && Receive(more).Some?
    ensures Receive(StuffedLine(line) + more) == Some(([line] + Receive(more).value.0, Receive(more).value.1))
  {
    var sent := (if StartsWithDot(line) then [DOT] else []) + line;
    assert StuffedLine(line) + more == sent + CRLF + more;
    NextLineOf(sent, more);
    assert sent != [DOT];
    assert (if StartsWithDot(sent) then sent[1..] else sent) == line;
  }

  lemma StuffedFirst(lines: seq<Bytes>, rest: Bytes)
    requires lines != []
    ensures Stuffed(lines) + TERMINATOR + rest == StuffedLine(lines[0]) + (Stuffed(lines[1..]) + TERMINATOR + rest)
  {
    hide StuffedLine;
  }

  lemma ReceiveTerminator(rest: Bytes)
    ensures Receive(Stuffed([]) + TERMINATOR + rest) == Some(([], rest))
  {
    assert Stuffed([]) + TERMINATOR + rest == [DOT] + CRLF + rest;
    NextLineOf([DOT], rest);
  }

  lemma {:induction false} ReceiveStuffed(lines: seq<Bytes>, rest: Bytes)
    requires Clean(lines)
    ensures Receive(Stuffed(lines) + TERMINATOR + rest) == Some((lines, rest))
  {
    if lines == [] {
      ReceiveTerminator(rest);
    } else {
      hide Receive, NextLine, StuffedLine, Stuffed;
      ReceiveStuffed(lines[1..], rest);
      ReceiveOne(lines[0], Stuffed(lines[1..]) + TERMINATOR + rest);
      StuffedFirst(lines, rest);
      assert [lines[0]] + lines[1..] == lines;
    }
  }

  /** RETR: the receiver recovers exactly the lines of the message and stops exactly after the terminator. */
  lemma RetrRoundTrip(raw: Bytes, rest: Bytes)
    ensures Receive(RetrBody(raw) + rest) == Some((Lines(raw), rest))
  {
    TextLinesAreLines(raw);
    LinesAreClean(raw);
    ReceiveStuffed(TextLines(raw), rest);
  }

  lemma {:induction false} StuffedAppend(a: seq<Bytes>, b: seq<Bytes>)
    ensures Stuffed(a + b) == Stuffed(a) + Stuffed(b)
  {
    if a == [] {
      assert a + b == b;
    } else {
      StuffedAppend(a[1..], b);
      assert (a + b)[1..] == a[1..] + b;
    }
  }

  lemma StuffedTop(header: seq<Bytes>, body: seq<Bytes>)
    ensures Stuffed(header + [[]] + body) == Stuffed(header) + CRLF + Stuffed(body)
  {
    var blank: seq<Bytes> := [[]];
    assert blank[1..] == [];
    assert Stuffed(blank) == CRLF;
    StuffedAppend(header, blank);
    StuffedAppend(header + blank, body);
  }

  /** TOP: the receiver recovers the header lines, a blank line, and the first `nLines` body lines. */
  lemma TopRoundTrip(header: Bytes, body: Bytes, nLines: int, rest: Bytes)
    ensures Receive(TopBody(header, body, nLines) + rest)
            == Some((Lines(header) + [[]] + Limited(Lines(body), Some(nLines)), rest))
  {
    TextLinesAreLines(header);
    TextLinesAreLines(body);
    LinesAreClean(header);
    LinesAreClean(body);
    var shown := Limited(Lines(body), Some(nLines));
    StuffedTop(Lines(header), shown);
    ReceiveStuffed(Lines(header) + [[]] + shown, rest);
  }

  function DotLines(lines: seq<Bytes>): nat {
    if lines == [] then 0 else (if StartsWithDot(lines[0]) then 1 else 0) + DotLines(lines[1..])
  }

  lemma {:induction false} StuffedLength(lines: seq<Bytes>)
    ensures |Stuffed(lines)| == |Joined(lines)| + DotLines(lines)
    ensures DotLines(lines) == 0 <==> forall i :: 0 <= i < |lines| ==> !StartsWithDot(lines[i])
  {
    if lines != [] {
      StuffedLength(lines[1..]);
      assert forall i :: 0 < i < |lines| ==> lines[i] == lines[1..][i - 1];
      if DotLines(lines) == 0 {
        forall i | 0 <= i < |lines| ensures !StartsWithDot(lines[i]) {
          if i > 0 {
            assert lines[i] == lines[1..][i - 1];
          }
        }
      }
    }
  }

  /** The announced size is the size of RFC 1939 section 11 plus one per line that starts with a dot. */
  lemma AnnouncedSize(raw: Bytes)
    ensures |Stuffed(TextLines(raw))| == |Joined(Lines(raw))| + DotLines(Lines(raw))
    ensures |Stuffed(TextLines(raw))| == |Joined(Lines(raw))| <==>
            forall i :: 0 <= i < |Lines(raw)| ==> !StartsWithDot(Lines(raw)[i])
  {
    TextLinesAreLines(raw);
    StuffedLength(Lines(raw));
  }

  // ---------- TOP against RETR ----------

  predicate EndsInNewline(h: Bytes) {
    h != [] && (h[|h| - 1] == CR || h[|h| - 1] == LF)
  }

  function NewlineLength(s: Bytes): nat {
    if s != [] && s[0] == CR && |s| > 1 && s[1] == LF then 2
    else if s != [] && (s[0] == CR || s[0] == LF) then 1
    else 0
  }

  lemma LinesNewline(s: Bytes)
    requires NewlineLength(s) > 0
    ensures Lines(s) == [[]] + Lines(s[NewlineLength(s)..])
  {
    assert FirstLine(s) == ([], s[NewlineLength(s)..]);
  }

  lemma LinesSingle(c: Byte)
    requires c != CR && c != LF
    ensures Lines([c]) == [[c]] && Lines([]) == []
  {
  }

  /** A CR LF after a text ends its last line, or makes an empty one where no line is open. */
  lemma {:induction false} LinesAcrossCRLF(h: Bytes, t: Bytes)
    ensures Lines(h + CRLF + t) == Lines(h) + (if h == [] || EndsInNewline(h) then [[]] else []) + Lines(t)
    decreases |h|
  {
    hide Lines, FirstLine;
    var s, after := h + CRLF + t, CRLF + t;
    LinesNewline(after);
    assert after[2..] == t;
    if h == [] {
      LinesSingle(0);
      assert s == after;
    } else if NewlineLength(h) > 0 {
      var n := NewlineLength(h);
      assert NewlineLength(s) == n && s[n..] == h[n..] + CRLF + t;
      LinesNewline(h);
      LinesNewline(s);
      LinesAcrossCRLF(h[n..], t);
    } else if |h| == 1 {
      assert h == [h[0]] && s == [h[0]] + after;
      LinesSingle(h[0]);
      LinesCons(h[0], after);
      assert Lines(after)[0] == [] && [h[0]] + Lines(after)[0] == h && Lines(after)[1..] == Lines(t);
    } else {
      var h' := h[1..];
      var s' := h' + CRLF + t;
      assert h == [h[0]] + h' && s == [h[0]] + s';
      LinesAcrossCRLF(h', t);
      LinesCons(h[0], h');
      LinesCons(h[0], s');
    }
  }

  /** The text before and after the leftmost occurrence of `sep`. */
  function Cut(s: Bytes, sep: Bytes): Option<(Bytes, Bytes)>
    requires sep != []
  {
    if sep <= s then Some(([], s[|sep|..]))
    else if s == [] then None
    else
      match Cut(s[1..], sep)
      case None => None
      case Some((before, after)) => Some(([s[0]] + before, after))
  }

  lemma {:induction false} CutSplits(s: Bytes, sep: Bytes)
    requires sep != [] && Cut(s, sep).Some?
    ensures var (before, after) := Cut(s, sep).value;
            s == before + sep + after
  {
    if !(sep <= s) {
      CutSplits(s[1..], sep);
      var (before, after) := Cut(s[1..], sep).value;
      assert s == [s[0]] + (before + sep + after);
    }
  }

  lemma {:induction false} CutIsLeftmost(s: Bytes, sep: Bytes, i: nat)
    requires sep != [] && i <= |s| && (Cut(s, sep).Some? ==> i < |Cut(s, sep).value.0|)
    ensures !(sep <= s[i..])
  {
    if i > 0 {
      CutIsLeftmost(s[1..], sep, i - 1);
      assert s[1..][i - 1..] == s[i..];
    } else {
      assert s[0..] == s;
    }
  }

  /** Header and body as TOP serves them: cut at the first empty line, CR LF form first. */
  function SplitHeaderBody(raw: Bytes): (Bytes, Bytes) {
    match Cut(raw, CRLF + CRLF)
    case Some(parts) => parts
    case None =>
      match Cut(raw, [LF, LF])
      case Some(parts) => parts
      case None => (raw, [])
  }

  /** A lone LF after a text ends its last line, or makes an empty one where no line is open; after a CR it is part of the newline. */
  lemma {:induction false} LinesAcrossLF(h: Bytes, t: Bytes)
    ensures Lines(h + [LF] + t) == Lines(h) + (if h == [] || h[|h| - 1] == LF then [[]] else []) + Lines(t)
    decreases |h|
  {
    hide Lines, FirstLine;
    var s, after := h + [LF] + t, [LF] + t;
    LinesSingle(0);
    LinesNewline(after);
    assert after[1..] == t;
    if h == [] {
      assert s == after;
    } else if h == [CR] {
      LinesNewline(h);
      LinesNewline(s);
      assert s[2..] == t && h[1..] == [];
    } else if NewlineLength(h) > 0 {
      var n := NewlineLength(h);
      assert NewlineLength(s) == n && s[n..] == h[n..] + [LF] + t;
      LinesNewline(h);
      LinesNewline(s);
      LinesAcrossLF(h[n..], t);
    } else if |h| == 1 {
      assert h == [h[0]] && s == [h[0]] + after;
      LinesSingle(h[0]);
      LinesCons(h[0], after);
      assert Lines(after)[0] == [] && [h[0]] + Lines(after)[0] == h && Lines(after)[1..] == Lines(t);
    } else {
      var h' := h[1..];
      var s' := h' + [LF] + t;
      assert h == [h[0]] + h' && s == [h[0]] + s';
      LinesAcrossLF(h', t);
      LinesCons(h[0], h');
      LinesCons(h[0], s');
    }
  }

  lemma LinesOfCRLFSplit(header: Bytes, body: Bytes)
    ensures Lines(header + CRLF + CRLF + body)
            == Lines(header) + (if header == [] || EndsInNewline(header) then [[], []] else [[]]) + Lines(body)
  {
    var between := header + CRLF;
    LinesAcrossCRLF(between, body);
    LinesAcrossCRLF(header, []);
    assert header + CRLF + [] == between;
    assert Lines([]) == [];
  }

  lemma LinesOfLFSplit(header: Bytes, body: Bytes)
    requires header == [] || header[|header| - 1] != LF
    ensures Lines(header + [LF, LF] + body) == Lines(header) + (if header == [] then [[], []] else [[]]) + Lines(body)
  {
    var between := header + [LF];
    assert header + [LF, LF] + body == between + [LF] + body;
    LinesAcrossLF(between, body);
    LinesAcrossLF(header, []);
    assert header + [LF] + [] == between;
    assert Lines([]) == [];
  }

  lemma LeftmostLFCut(raw: Bytes)
    requires Cut(raw, [LF, LF]).Some?
    ensures var header := Cut(raw, [LF, LF]).value.0;
            header == [] || header[|header| - 1] != LF
  {
    var (header, body) := Cut(raw, [LF, LF]).value;
    CutSplits(raw, [LF, LF]);
    if header != [] {
      var k := |header| - 1;
      CutIsLeftmost(raw, [LF, LF], k);
      assert raw[k..] == [header[k]] + [LF, LF] + body;
      assert raw[k..][..2] == [header[k], LF];
      assert [LF, LF] <= raw[k..] <==> raw[k..][..2] == [LF, LF];
    }
  }

  /** TOP and RETR write the same exactly if they write the same lines. */
  lemma SameLines(raw: Bytes, header: Bytes, body: Bytes, nLines: int)
    ensures TopBody(header, body, nLines) == RetrBody(raw)
            <==> Lines(raw) == Lines(header) + [[]] + Limited(Lines(body), Some(nLines))
  {
    hide Lines, Stuffed, TextLines, Receive, Limited;
    TextLinesAreLines(raw);
    TextLinesAreLines(header);
    TextLinesAreLines(body);
    StuffedTop(Lines(header), Limited(Lines(body), Some(nLines)));
    if TopBody(header, body, nLines) == RetrBody(raw) {
      TopRoundTrip(header, body, nLines, []);
      RetrRoundTrip(raw, []);
    }
  }

  /** TOP asks for every line of the body. */
  predicate WholeBody(body: Bytes, nLines: int) {
    nLines >= |Lines(body)| || Lines(body) == []
  }

  lemma ShownIff(header: seq<Bytes>, blank: seq<Bytes>, body: seq<Bytes>, nLines: int)
    ensures header + blank + body == header + [[]] + Limited(body, Some(nLines)) && |blank| >= 1
            <==> blank == [[]] && (nLines >= |body| || body == [])
  {
    var shown := Limited(body, Some(nLines));
    assert |shown| <= |body| && (|shown| == |body| <==> nLines >= |body| || body == []);
    if header + blank + body == header + [[]] + shown && |blank| >= 1 {
      assert |blank| == 1 && |shown| == |body|;
      assert (header + blank + body)[|header|] == blank[0];
      assert (header + [[]] + shown)[|header|] == [];
    }
  }

  predicate AgreesOnHeader(raw: Bytes) {
    if Cut(raw, CRLF + CRLF).Some? then
      var header := Cut(raw, CRLF + CRLF).value.0;
      header != [] && !EndsInNewline(header)
    else Cut(raw, [LF, LF]).Some? && Cut(raw, [LF, LF]).value.0 != []
  }

  /**
   For every message: TOP writes what RETR writes exactly if it asks for the whole body and the message has a blank line, in
   front of which stands, at a blank line in CR LF, a text that does not end in a newline, or, at one in LF, any text at all.
   */
  lemma TopAgreesWithRetrIff(raw: Bytes, nLines: int)
    ensures var (header, body) := SplitHeaderBody(raw);
            TopBody(header, body, nLines) == RetrBody(raw) <==> AgreesOnHeader(raw) && WholeBody(body, nLines)
  {
    hide Lines, TopBody, RetrBody, Limited;
    var (header, body) := SplitHeaderBody(raw);
    SameLines(raw, header, body, nLines);
    if Cut(raw, CRLF + CRLF).Some? {
      CutSplits(raw, CRLF + CRLF);
      assert raw == header + CRLF + CRLF + body;
      LinesOfCRLFSplit(header, body);
      ShownIff(Lines(header), if header == [] || EndsInNewline(header) then [[], []] else [[]], Lines(body), nLines);
    } else if Cut(raw, [LF, LF]).Some? {
      CutSplits(raw, [LF, LF]);
      LeftmostLFCut(raw);
      LinesOfLFSplit(header, body);
      ShownIff(Lines(header), if header == [] then [[], []] else [[]], Lines(body), nLines);
    } else {
      assert |Lines(raw)| < |Lines(header) + [[]] + Limited(Lines(body), Some(nLines))|;
    }
  }
}
