/** jsonrpcstdio/framing.go, contentLengthFramer: the header part of the LSP base protocol. */
module ContentLength {
  import opened Wrappers
  import opened Bytes
  import opened Decimal
  import opened BufReader
  import opened Framing

  /** maxHeaderBytes. */
  const MAX_HEADER: nat := 8192

  /** The header name as it is written; case is ignored when it is read. */
  const NAME: bytes := [67, 111, 110, 116, 101, 110, 116, 45, 76, 101, 110, 103, 116, 104]

  // ---- the reader, as a function of the bytes of the stream ----

  datatype HeaderResult =
    | Length(n: nat, rest: bytes)
    | Rejected(why: Why)

  /** One turn of the header loop: done with the block, or on to the next line. */
  datatype Turn =
    | Ended(h: HeaderResult)
    | Again(len: int, used: nat, rest: bytes)

  /** The next header line of p; len is the Content-Length seen so far (-1: none), used the header bytes read so far. */
  function HeaderTurn(p: bytes, max: int, len: int, used: nat): (t: Turn)
    requires len == -1 || 0 <= len <= max
    ensures t.Again? ==> |t.rest| < |p| && (t.len == -1 || 0 <= t.len <= max)
    ensures t.Ended? && t.h.Length? ==> t.h.n <= max && |t.h.rest| < |p|
  {
    var i := IndexOf(p, LF);
    if i == |p| || i >= BUFFER_SIZE then Ended(Rejected(HeaderCut))
    else LineTurn(p[..i + 1], p[i + 1..], max, len, used)
  }

  /** What a whole header line leads to, rest being the stream after it. */
  function LineTurn(line: bytes, rest: bytes, max: int, len: int, used: nat): (t: Turn)
    requires len == -1 || 0 <= len <= max
    ensures t.Again? ==> t.rest == rest && (t.len == -1 || 0 <= t.len <= max)
    ensures t.Ended? && t.h.Length? ==> t.h.n <= max && t.h.rest == rest
  {
    var trimmed := TrimEol(line);
    if used + |line| > MAX_HEADER then Ended(Rejected(HeaderTooBig))
    else if trimmed == [] then Ended(if len < 0 then Rejected(NoLength) else Length(len, rest))
    else
      match HeaderLine(trimmed, max, len)
      case Keep(len') => Again(len', used + |line|, rest)
      case Refuse(why) => Ended(Rejected(why))
  }

  /** The header block at the front of p. */
  function Header(p: bytes, max: int, len: int, used: nat): (h: HeaderResult)
    requires len == -1 || 0 <= len <= max
    ensures h.Length? ==> h.n <= max && |h.rest| < |p|
    decreases |p|
  {
    match HeaderTurn(p, max, len, used)
    case Ended(h) => h
    case Again(len', used', rest) => Header(rest, max, len', used')
  }

  datatype LineResult = Keep(len: int) | Refuse(why: Why)

  /** One non-blank header line: the Content-Length it leaves in force, or why it is refused. */
  function HeaderLine(trimmed: bytes, max: int, len: int): (r: LineResult)
    requires len == -1 || 0 <= len <= max
    ensures r.Keep? ==> r.len == -1 || 0 <= r.len <= max
  {
    var j := IndexOf(trimmed, COLON);
    if j == |trimmed| then Refuse(BadHeader)
    else if !EqualFold(TrimSpace(trimmed[..j]), NAME) then Keep(len)
    else if len >= 0 then Refuse(TwoLengths)
    else
      var n := ParseInt64(TrimSpace(trimmed[j + 1..]));
      if n.None? || n.value < 0 then Refuse(BadLength)
      else if n.value > max then Refuse(Oversize)
      else Keep(n.value)
  }

  /** One ReadFrame: its outcome and what it leaves in the stream. */
  function ReadOne(p: bytes, max: int): (r: (Outcome, bytes))
    ensures |r.1| <= |p| && (r.0.Frame? ==> |r.1| < |p|)
  {
    if p == [] then (CleanEof, [])
    else if p[0] == LBRACE || p[0] == LBRACKET then (Fatal(WrongFraming), p)
    else
      match Header(p, max, -1, 0)
      case Rejected(why) => (Fatal(why), [])
      case Length(n, rest) => if |rest| < n then (Fatal(BodyCut), []) else (Frame(rest[..n]), rest[n..])
  }

  function Reading(max: int): bytes -> (Outcome, bytes) {
    p => ReadOne(p, max)
  }

  // ---- ReadFrame ----

  /** f.readHeaderLine followed by the header cap: the next raw line, or the error it ends in. */
  method ReadHeaderLine(r: Reader, atBlockStart: bool) returns (line: bytes, o: Option<Outcome>)
    requires r.Valid()
    modifies r
    ensures r.Valid()
    ensures var p := old(r.Pending()); var i := IndexOf(p, LF);
            if o == None then i < |p| && i < BUFFER_SIZE && line == p[..i + 1] && r.Pending() == p[i + 1..]
            else if o == Some(Fatal(ReadFailed)) then r.mayFail
            else (i == |p| || i >= BUFFER_SIZE)
                 && o == Some(if p == [] && atBlockStart then CleanEof else Fatal(HeaderCut))
  {
    ghost var p := r.Pending();
    var e;
    line, e := r.ReadSlice();
    match e
    case NoErr =>
      assert p[..|line|] == line && p[|line|..] == r.Pending();
      o := None;
    case BufferFull =>
      NoNewline(p, |line|);
      o := Some(Fatal(HeaderCut));
    case Eof =>
      assert p == line;
      NoNewline(p, |line|);
      o := Some(if line == [] && atBlockStart then CleanEof else Fatal(HeaderCut));
    case Failed => o := Some(Fatal(ReadFailed));
  }

  lemma NoNewline(p: bytes, k: nat)
    requires k <= |p| && Lacks(p[..k], LF)
    ensures IndexOf(p, LF) >= k
  {
    forall j | 0 <= j < k ensures p[j] != LF { assert p[j] == p[..k][j]; }
  }

  /** The header loop's treatment of one non-blank line. */
  method ParseHeaderLine(trimmed: bytes, max: int, contentLen: int) returns (len: int, refused: Option<Why>)
    requires contentLen == -1 || 0 <= contentLen <= max
    ensures HeaderLine(trimmed, max, contentLen) == if refused == None then Keep(len) else Refuse(refused.value)
  {
    len, refused := contentLen, None;
    var j := IndexOf(trimmed, COLON);
    if j == |trimmed| { return len, Some(BadHeader); }
    var name := TrimSpace(trimmed[..j]);
    if !EqualFold(name, NAME) { return; }
    if contentLen >= 0 { return len, Some(TwoLengths); }
    var value := TrimSpace(trimmed[j + 1..]);
    var n := ParseInt64(value);
    if n.None? || n.value < 0 { return len, Some(BadLength); }
    if n.value > max { return len, Some(Oversize); }
    len := n.value;
  }

  /** The header loop's treatment of one raw line: done says the block is complete. */
  method TakeLine(line: bytes, ghost rest: bytes, max: int, contentLen: int, headerBytes: nat)
    returns (done: bool, stop: Option<Why>, len: int, used: nat)
    requires contentLen == -1 || 0 <= contentLen <= max
    ensures stop == None && done ==> len >= 0
    ensures LineTurn(line, rest, max, contentLen, headerBytes)
         == if stop.Some? then Ended(Rejected(stop.value))
            else if done then Ended(Length(len, rest)) else Again(len, used, rest)
  {
    done, len, used := false, contentLen, headerBytes + |line|;
    if used > MAX_HEADER { stop := Some(HeaderTooBig); return; }
    var trimmed := TrimEol(line);
    if trimmed == [] {
      done, stop := true, if contentLen < 0 then Some(NoLength) else None;
      return;
    }
    len, stop := ParseHeaderLine(trimmed, max, contentLen);
  }

  /** One turn of the header loop. */
  method NextHeaderLine(r: Reader, max: int, contentLen: int, headerBytes: nat, first: bool)
    returns (done: bool, stop: Option<Why>, len: int, used: nat)
    requires r.Valid() && (contentLen == -1 || 0 <= contentLen <= max) && (first ==> r.Pending() != [])
    modifies r
    ensures r.Valid()
    ensures stop == None && done ==> len >= 0
    ensures stop == None ==> HeaderTurn(old(r.Pending()), max, contentLen, headerBytes)
                             == if done then Ended(Length(len, r.Pending())) else Again(len, used, r.Pending())
    ensures stop.Some? && !r.mayFail ==>
              HeaderTurn(old(r.Pending()), max, contentLen, headerBytes) == Ended(Rejected(stop.value))
  {
    ghost var p := r.Pending();
    var line, o := ReadHeaderLine(r, first);
    if o.Some? { return false, Some(o.value.why), 0, 0; }
    ghost var rest := r.Pending();
    ghost var turn := HeaderTurn(p, max, contentLen, headerBytes);
    assert turn == LineTurn(line, rest, max, contentLen, headerBytes);
    done, stop, len, used := TakeLine(line, rest, max, contentLen, headerBytes);
    assert turn == if stop.Some? then Ended(Rejected(stop.value))
                   else if done then Ended(Length(len, rest)) else Again(len, used, rest);
  }

  /** The header loop. */
  method ReadHeader(r: Reader, max: int) returns (contentLen: nat, stop: Option<Why>)
    requires r.Valid() && r.Pending() != [] && max >= 0
    modifies r
    ensures r.Valid()
    ensures stop == None ==> Header(old(r.Pending()), max, -1, 0) == Length(contentLen, r.Pending())
    ensures stop.Some? && !r.mayFail ==> Header(old(r.Pending()), max, -1, 0) == Rejected(stop.value)
  {
    ghost var whole := Header(r.Pending(), max, -1, 0);
    var len, headerBytes, first, done := -1, 0, true, false;
    while true
      invariant r.Valid() && (first ==> r.Pending() != [])
      invariant len == -1 || 0 <= len <= max
      invariant Header(r.Pending(), max, len, headerBytes) == whole
      decreases |r.Pending()|
    {
      done, stop, len, headerBytes := NextHeaderLine(r, max, len, headerBytes, first);
      if stop.Some? { return 0, stop; }
      if done { return len, None; }
      first := false;
    }
  }

  method ReadFrame(f: FramerBase) returns (o: Outcome)
    requires f.Valid()
    modifies f, f.r
    ensures f.Valid() && f.started
    ensures !f.r.mayFail ==> o == ReadOne(old(f.Stream()), f.maxSize).0
    ensures !f.r.mayFail && o.Frame? ==> f.Stream() == ReadOne(old(f.Stream()), f.maxSize).1
    ensures o.Frame? ==> |o.body| <= f.maxSize
    ensures o.Frame? ==> (o, f.r.Pending()) == ReadOne(old(f.r.Pending()), f.maxSize)
                         || (o, f.r.Pending()) == ReadOne(old(f.Stream()), f.maxSize)
  {
    f.Begin();
    var r := f.r;
    ghost var p := r.Pending();
    var first, e := r.Peek(1);
    if e == NoErr && (first[0] == LBRACE || first[0] == LBRACKET) { return Fatal(WrongFraming); }
    if e == Eof { return CleanEof; }
    if e != NoErr { return Fatal(ReadFailed); }

    var contentLen, stop := ReadHeader(r, f.maxSize);
    if stop.Some? { return Fatal(stop.value); }
    ghost var rest := r.Pending();
    var body, err := r.ReadFull(contentLen);
    if err == Eof { return Fatal(BodyCut); }
    if err != NoErr { return Fatal(ReadFailed); }
    assert rest[..contentLen] == body && rest[contentLen..] == r.Pending();
    assert ReadOne(p, f.maxSize) == (Frame(body), r.Pending());
    return Frame(body);
  }

  /** The read loops of Serve and of the client: one frame after the other, until there is none. */
  method ReadStream(f: FramerBase) returns (ms: seq<bytes>, end: Outcome)
    requires f.Valid()
    modifies f, f.r
    ensures f.Valid() && !end.Frame?
    ensures !f.r.mayFail ==> (ms, end) == ReadAll(Reading(f.maxSize), old(f.Stream()))
  {
    ghost var whole := ReadAll(Reading(f.maxSize), f.Stream());
    ms := [];
    OntoNothing(whole);
    while true
      invariant f.Valid()
      invariant !f.r.mayFail ==> whole == Onto(ms, ReadAll(Reading(f.maxSize), f.Stream()))
      decreases |f.r.Pending()|
    {
      ghost var p := f.Stream();
      end := ReadFrame(f);
      if !f.r.mayFail { OntoStep(Reading(f.maxSize), ms, p, end, f.Stream()); }
      if !end.Frame? { return; }
      ms := ms + [end.body];
    }
  }

  // ---- header blocks, line by line ----

  /** A header line that is not blank: its text, and whether a carriage return precedes the newline. */
  datatype Line = Line(text: bytes, crlf: bool)

  predicate IsLine(l: Line) {
    l.text != [] && Lacks(l.text, LF) && (l.crlf || l.text[|l.text| - 1] != CR)
  }

  ghost predicate AllLines(ls: seq<Line>) {
    forall i :: 0 <= i < |ls| ==> IsLine(ls[i])
  }

  function Eol(crlf: bool): bytes {
    if crlf then [CR, LF] else [LF]
  }

  function Raw(l: Line): bytes {
    l.text + Eol(l.crlf)
  }

  function Block(ls: seq<Line>): bytes
    decreases |ls|
  {
    if ls == [] then [] else Block(ls[..|ls| - 1]) + Raw(ls[|ls| - 1])
  }

  predicate HasColon(l: Line) {
    IndexOf(l.text, COLON) < |l.text|
  }

  predicate IsLength(l: Line) {
    HasColon(l) && EqualFold(TrimSpace(l.text[..IndexOf(l.text, COLON)]), NAME)
  }

  /** What the line says the length is. */
  function LengthOf(l: Line): Option<int>
    requires HasColon(l)
  {
    ParseInt64(TrimSpace(l.text[IndexOf(l.text, COLON) + 1..]))
  }

  /** The Content-Length in force after these lines, or why one of them is refused. */
  function Scan(ls: seq<Line>, max: int): (r: LineResult)
    requires max >= 0
    ensures r.Keep? ==> r.len == -1 || 0 <= r.len <= max
    decreases |ls|
  {
    if ls == [] then Keep(-1)
    else
      match Scan(ls[..|ls| - 1], max)
      case Keep(len) => HeaderLine(ls[|ls| - 1].text, max, len)
      case Refuse(why) => Refuse(why)
  }

  lemma RawLine(l: Line, after: bytes)
    requires IsLine(l)
    ensures var p := Raw(l) + after; var i := IndexOf(p, LF);
            i == |Raw(l)| - 1 && p[..i + 1] == Raw(l) && p[i + 1..] == after
    ensures TrimEol(Raw(l)) == l.text
  {
    var t := if l.crlf then l.text + [CR] else l.text;
    LacksConcat(l.text, [CR], LF);
    IndexOfAfter(t, LF, after);
    assert Raw(l) == t + [LF];
    assert Raw(l)[..|t|] == t;
    assert l.crlf ==> t[..|l.text|] == l.text;
  }

  /** A line that fits. */
  lemma LineFits(l: Line, after: bytes, max: int, len: int, used: nat)
    requires IsLine(l) && used + |Raw(l)| <= MAX_HEADER && (len == -1 || 0 <= len <= max)
    ensures HeaderTurn(Raw(l) + after, max, len, used)
         == match HeaderLine(l.text, max, len)
            case Keep(len') => Again(len', used + |Raw(l)|, after)
            case Refuse(why) => Ended(Rejected(why))
  {
    RawLine(l, after);
  }

  lemma LineTooLong(l: Line, after: bytes, max: int, len: int, used: nat)
    requires IsLine(l) && used + |Raw(l)| > MAX_HEADER && (len == -1 || 0 <= len <= max)
    ensures var t := HeaderTurn(Raw(l) + after, max, len, used); t.Ended? && t.h.Rejected?
  {
    RawLine(l, after);
  }

  /** Reading goes on from where a turn leaves it. */
  lemma Follow(p: bytes, max: int, len: int, used: nat, t: Turn)
    requires (len == -1 || 0 <= len <= max) && t == HeaderTurn(p, max, len, used)
    ensures t.Ended? ==> Header(p, max, len, used) == t.h
    ensures t.Again? ==> Header(p, max, len, used) == Header(t.rest, max, t.len, t.used)
  {
  }

  lemma LineKept(l: Line, after: bytes, max: int, len: int, used: nat, len': int, used': nat)
    requires IsLine(l) && (len == -1 || 0 <= len <= max) && HeaderLine(l.text, max, len) == Keep(len')
    requires used' == used + |Raw(l)| <= MAX_HEADER
    ensures Header(Raw(l) + after, max, len, used) == Header(after, max, len', used')
  {
    LineFits(l, after, max, len, used);
    Follow(Raw(l) + after, max, len, used, Again(len', used', after));
  }

  lemma LineRefused(l: Line, after: bytes, max: int, len: int, used: nat, why: Why)
    requires IsLine(l) && (len == -1 || 0 <= len <= max) && HeaderLine(l.text, max, len) == Refuse(why)
    requires used + |Raw(l)| <= MAX_HEADER
    ensures Header(Raw(l) + after, max, len, used) == Rejected(why)
  {
    LineFits(l, after, max, len, used);
    Follow(Raw(l) + after, max, len, used, Ended(Rejected(why)));
  }

  lemma LineOver(l: Line, after: bytes, max: int, len: int, used: nat)
    requires IsLine(l) && (len == -1 || 0 <= len <= max) && used + |Raw(l)| > MAX_HEADER
    ensures Header(Raw(l) + after, max, len, used).Rejected?
  {
    LineTooLong(l, after, max, len, used);
    Follow(Raw(l) + after, max, len, used, HeaderTurn(Raw(l) + after, max, len, used));
  }

  /** A prefix of a block: reading goes on behind it, unless it is too long or one of its lines is refused. */
  lemma {:induction false} Passes(ls: seq<Line>, p: bytes, max: int)
    requires AllLines(ls) && max >= 0
    ensures var h := Header(Block(ls) + p, max, -1, 0);
            if |Block(ls)| <= MAX_HEADER && Scan(ls, max).Keep? then h == Header(p, max, Scan(ls, max).len, |Block(ls)|)
            else h.Rejected?
    decreases |ls|
  {
    if ls == [] {
      assert Block(ls) + p == p;
    } else {
      var front, l := ls[..|ls| - 1], ls[|ls| - 1];
      Assoc(Block(front), Raw(l), p);
      assert Block(ls) + p == Block(front) + (Raw(l) + p);
      Passes(front, Raw(l) + p, max);
      if Scan(front, max).Keep? && |Block(front)| <= MAX_HEADER {
        var len := Scan(front, max).len;
        if |Block(ls)| > MAX_HEADER {
          LineOver(l, p, max, len, |Block(front)|);
        } else if Scan(ls, max).Keep? {
          LineKept(l, p, max, len, |Block(front)|, Scan(ls, max).len, |Block(ls)|);
        } else {
          LineRefused(l, p, max, len, |Block(front)|, Scan(ls, max).why);
        }
      }
    }
  }

  /** The line a block is refused at, whatever follows. */
  lemma Stops(ls: seq<Line>, l: Line, after: bytes, max: int, why: Why)
    requires AllLines(ls) && IsLine(l) && max >= 0
    requires |Block(ls)| + |Raw(l)| <= MAX_HEADER && Scan(ls, max).Keep?
    requires HeaderLine(l.text, max, Scan(ls, max).len) == Refuse(why)
    ensures Header(Block(ls) + (Raw(l) + after), max, -1, 0) == Rejected(why)
  {
    Passes(ls, Raw(l) + after, max);
    LineRefused(l, after, max, Scan(ls, max).len, |Block(ls)|, why);
  }

  /** The blank line that ends the header block. */
  lemma BlankTurn(crlf: bool, after: bytes, max: int, len: int, used: nat)
    requires len == -1 || 0 <= len <= max
    ensures HeaderTurn(Eol(crlf) + after, max, len, used)
         == Ended(if used + |Eol(crlf)| > MAX_HEADER then Rejected(HeaderTooBig)
                  else if len < 0 then Rejected(NoLength) else Length(len, after))
  {
    var p, i := Eol(crlf) + after, if crlf then 1 else 0;
    IndexOfAt(p, LF, i);
    assert p[..i + 1] == Eol(crlf) && p[i + 1..] == after;
    assert TrimEol(Eol(crlf)) == [];
  }

  /** A whole block. */
  lemma WholeBlock(ls: seq<Line>, crlf: bool, rest: bytes, max: int)
    requires AllLines(ls) && max >= 0
    ensures var h, end := Header(Block(ls) + (Eol(crlf) + rest), max, -1, 0), Scan(ls, max);
            if |Block(ls)| + |Eol(crlf)| <= MAX_HEADER && end.Keep?
            then h == if end.len < 0 then Rejected(NoLength) else Length(end.len, rest)
            else h.Rejected?
  {
    Passes(ls, Eol(crlf) + rest, max);
    if Scan(ls, max).Keep? { BlankTurn(crlf, rest, max, Scan(ls, max).len, |Block(ls)|); }
  }

  /** Line k gives the length, and no other line of the block does. */
  ghost predicate OnlyLength(ls: seq<Line>, k: nat) {
    k < |ls| && IsLength(ls[k]) && forall j :: 0 <= j < |ls| && j != k ==> !IsLength(ls[j])
  }

  ghost predicate NoLengthLine(ls: seq<Line>) {
    forall j :: 0 <= j < |ls| ==> !IsLength(ls[j])
  }

  ghost predicate AllColons(ls: seq<Line>) {
    forall j :: 0 <= j < |ls| ==> HasColon(ls[j])
  }

  /** The block gives the length n, once. */
  ghost predicate GivesLength(ls: seq<Line>, max: int, n: int) {
    0 <= n <= max && AllColons(ls) && exists k: nat :: OnlyLength(ls, k) && LengthOf(ls[k]) == Some(n)
  }

  lemma NoneIff(front: seq<Line>, l: Line)
    ensures AllColons(front + [l]) <==> AllColons(front) && HasColon(l)
    ensures NoLengthLine(front + [l]) <==> NoLengthLine(front) && !IsLength(l)
  {
    var ls := front + [l];
    assert ls[|front|] == l;
    assert forall j :: 0 <= j < |front| ==> ls[j] == front[j];
  }

  lemma OnlyIff(front: seq<Line>, l: Line, k: nat)
    requires k < |front|
    ensures OnlyLength(front + [l], k) <==> OnlyLength(front, k) && !IsLength(l)
  {
    var ls := front + [l];
    assert ls[|front|] == l;
    assert forall j :: 0 <= j < |front| ==> ls[j] == front[j];
  }

  lemma OnlyLast(front: seq<Line>, l: Line)
    requires IsLength(l)
    ensures OnlyLength(front + [l], |front|) <==> NoLengthLine(front)
    ensures forall k: nat :: k < |front| ==> !OnlyLength(front + [l], k)
  {
    var ls := front + [l];
    assert ls[|front|] == l;
    assert forall j :: 0 <= j < |front| ==> ls[j] == front[j];
  }

  /** A line that is not the length leaves the question to the lines before it. */
  lemma GivesOther(front: seq<Line>, l: Line, max: int, n: int)
    requires !IsLength(l)
    ensures GivesLength(front + [l], max, n) <==> HasColon(l) && GivesLength(front, max, n)
  {
    var ls := front + [l];
    NoneIff(front, l);
    if GivesLength(ls, max, n) {
      var k: nat :| OnlyLength(ls, k) && LengthOf(ls[k]) == Some(n);
      OnlyIff(front, l, k);
    }
    if HasColon(l) && GivesLength(front, max, n) {
      var k: nat :| OnlyLength(front, k) && LengthOf(front[k]) == Some(n);
      OnlyIff(front, l, k);
    }
  }

  /** A line that is the length gives it, unless one before it does. */
  lemma GivesLast(front: seq<Line>, l: Line, max: int, n: int)
    requires IsLength(l)
    ensures GivesLength(front + [l], max, n)
            <==> 0 <= n <= max && AllColons(front) && NoLengthLine(front) && LengthOf(l) == Some(n)
  {
    NoneIff(front, l);
    OnlyLast(front, l);
  }

  lemma FrontAndLast(ls: seq<Line>)
    requires ls != []
    ensures ls[..|ls| - 1] + [ls[|ls| - 1]] == ls
  {
  }

  /** A line after which there is no length in force. */
  lemma LineNone(l: Line, max: int, len: int)
    requires len == -1 || 0 <= len <= max
    ensures HeaderLine(l.text, max, len) == Keep(-1) <==> len == -1 && HasColon(l) && !IsLength(l)
  {
  }

  /** The state of the scan, in terms of the lines it has seen: no length yet. */
  lemma {:induction false} ScanNone(ls: seq<Line>, max: int)
    requires max >= 0
    ensures Scan(ls, max) == Keep(-1) <==> AllColons(ls) && NoLengthLine(ls)
    decreases |ls|
  {
    if ls != [] {
      var front, l := ls[..|ls| - 1], ls[|ls| - 1];
      ScanNone(front, max);
      FrontAndLast(ls);
      NoneIff(front, l);
      if Scan(front, max).Keep? { LineNone(l, max, Scan(front, max).len); }
    }
  }

  /** A length seen. */
  lemma {:induction false} ScanIff(ls: seq<Line>, max: int, n: nat)
    requires max >= 0
    ensures Scan(ls, max) == Keep(n) <==> GivesLength(ls, max, n)
    decreases |ls|
  {
    if ls != [] {
      var front, l := ls[..|ls| - 1], ls[|ls| - 1];
      ScanNone(front, max);
      ScanIff(front, max, n);
      FrontAndLast(ls);
      if IsLength(l) { GivesLast(front, l, max, n); } else { GivesOther(front, l, max, n); }
    }
  }

  /** Which header blocks are accepted, whatever the lines are and however they end: the block must fit in its limit,
      every line must have a colon, and exactly one must be a Content-Length, which must parse to a number within the
      message limit. What follows the blank line is never read as a header. */
  lemma HeaderIff(ls: seq<Line>, crlf: bool, rest: bytes, max: int, n: nat)
    requires AllLines(ls) && max >= 0
    ensures Header(Block(ls) + (Eol(crlf) + rest), max, -1, 0) == Length(n, rest)
            <==> |Block(ls)| + |Eol(crlf)| <= MAX_HEADER && GivesLength(ls, max, n)
    ensures var h := Header(Block(ls) + (Eol(crlf) + rest), max, -1, 0); h.Length? ==> h.rest == rest
  {
    WholeBlock(ls, crlf, rest, max);
    ScanIff(ls, max, n);
  }

  /** A line that is not blank is the raw form of its trimmed text. */
  lemma LineIsRaw(line: bytes) returns (l: Line)
    requires line != [] && line[|line| - 1] == LF && Lacks(line[..|line| - 1], LF)
    ensures l.text == TrimEol(line) && Raw(l) == line && (l.text != [] ==> IsLine(l))
  {
    var c := line[..|line| - 1];
    l := Line(TrimEol(line), c != [] && c[|c| - 1] == CR);
    assert line == c + [LF];
    assert l.crlf ==> c == l.text + [CR];
  }

  lemma {:induction false} BlockCons(l: Line, ls: seq<Line>)
    ensures Block([l] + ls) == Raw(l) + Block(ls)
    decreases |ls|
  {
    var all := [l] + ls;
    if ls == [] {
      assert all[..0] == [] && [] + Raw(l) == Raw(l) + [];
    } else {
      assert all[..|all| - 1] == [l] + ls[..|ls| - 1];
      BlockCons(l, ls[..|ls| - 1]);
      Assoc(Raw(l), Block(ls[..|ls| - 1]), Raw(ls[|ls| - 1]));
    }
  }

  /** The first line of p. */
  lemma FirstRaw(p: bytes, i: nat) returns (l: Line)
    requires i == IndexOf(p, LF) < |p|
    ensures p == Raw(l) + p[i + 1..]
    ensures l.text == TrimEol(p[..i + 1]) && (l.text != [] ==> IsLine(l))
  {
    l := LineIsRaw(p[..i + 1]);
    assert p == p[..i + 1] + p[i + 1..];
  }

  /** What a turn that goes well takes from p. */
  lemma TurnTakes(p: bytes, max: int, len: int, used: nat, t: Turn)
    requires (len == -1 || 0 <= len <= max) && t == HeaderTurn(p, max, len, used)
    requires t.Again? || t.h.Length?
    ensures var i := IndexOf(p, LF);
            && i < |p| && (if t.Again? then t.rest else t.h.rest) == p[i + 1..]
            && (t.Again? <==> TrimEol(p[..i + 1]) != [])
  {
  }

  /** One more line at the front. */
  lemma OneMoreLine(p: bytes, l: Line, rest: bytes, ls: seq<Line>, after: bytes)
    requires p == Raw(l) + rest && rest == Block(ls) + after && IsLine(l) && AllLines(ls)
    ensures AllLines([l] + ls) && p == Block([l] + ls) + after
  {
    BlockCons(l, ls);
    Assoc(Raw(l), Block(ls), after);
  }

  /** Nothing else is accepted: the bytes of an accepted header are the lines of a block and a blank line. */
  lemma {:induction false} AcceptedIsBlock(p: bytes, max: int, len: int, used: nat, h: HeaderResult)
    returns (ls: seq<Line>, crlf: bool)
    requires (len == -1 || 0 <= len <= max) && h == Header(p, max, len, used) && h.Length?
    ensures AllLines(ls) && p == Block(ls) + (Eol(crlf) + h.rest)
    decreases |p|
  {
    var t := HeaderTurn(p, max, len, used);
    Follow(p, max, len, used, t);
    TurnTakes(p, max, len, used, t);
    var l := FirstRaw(p, IndexOf(p, LF));
    if t.Ended? {
      ls, crlf := [], l.crlf;
      assert [] + p == p && Raw(l) == Eol(crlf);
    } else {
      var more;
      more, crlf := AcceptedIsBlock(t.rest, max, t.len, t.used, h);
      ls := [l] + more;
      OneMoreLine(p, l, t.rest, more, Eol(crlf) + h.rest);
    }
  }

  /** The first byte gives the other framing away. */
  predicate StartsLikeJson(ls: seq<Line>) {
    ls != [] && ls[0].text != [] && (ls[0].text[0] == LBRACE || ls[0].text[0] == LBRACKET)
  }

  lemma {:induction false} BlockStart(ls: seq<Line>, p: bytes)
    requires AllLines(ls) && ls != []
    ensures (Block(ls) + p) != [] && (Block(ls) + p)[0] == ls[0].text[0]
    decreases |ls|
  {
    if |ls| > 1 { BlockStart(ls[..|ls| - 1], Raw(ls[|ls| - 1])); }
  }

  /** From the header to the frame. */
  lemma ReadOneIs(ls: seq<Line>, p: bytes, max: int)
    requires AllLines(ls) && ls != [] && !StartsLikeJson(ls) && max >= 0
    ensures ReadOne(Block(ls) + p, max) == match Header(Block(ls) + p, max, -1, 0)
                                           case Rejected(why) => (Fatal(why), [])
                                           case Length(n, rest) =>
                                             if |rest| < n then (Fatal(BodyCut), []) else (Frame(rest[..n]), rest[n..])
  {
    BlockStart(ls, p);
  }

  lemma BodyIs(m: bytes, rest: bytes, n: nat)
    requires n <= |m + rest|
    ensures ((m + rest)[..n], (m + rest)[n..]) == (m, rest) <==> n == |m|
  {
    if n == |m| { assert (m + rest)[..n] == m && (m + rest)[n..] == rest; }
  }

  /** Which header blocks make a frame of the bytes behind them. */
  lemma FrameIff(ls: seq<Line>, crlf: bool, m: bytes, rest: bytes, max: int)
    requires AllLines(ls) && max >= 0
    ensures ReadOne(Block(ls) + (Eol(crlf) + (m + rest)), max) == (Frame(m), rest)
            <==> !StartsLikeJson(ls) && |Block(ls)| + |Eol(crlf)| <= MAX_HEADER && GivesLength(ls, max, |m|)
  {
    var p := Eol(crlf) + (m + rest);
    HeaderIff(ls, crlf, m + rest, max, |m|);
    if ls == [] {
      assert Block(ls) + p == p && !GivesLength(ls, max, |m|);
      WholeBlock(ls, crlf, m + rest, max);
    } else if StartsLikeJson(ls) {
      BlockStart(ls, p);
    } else {
      ReadOneIs(ls, p, max);
      var h := Header(Block(ls) + p, max, -1, 0);
      if h.Length? && h.n <= |m + rest| { BodyIs(m, rest, h.n); }
    }
  }

  /** Other headers change nothing, before or behind the length, whatever its casing and spacing. */
  lemma OtherHeaderIgnored(before: seq<Line>, l: Line, behind: seq<Line>, crlf: bool, m: bytes, rest: bytes, max: int)
    requires var ls := before + [l] + behind;
             AllLines(ls) && AllColons(ls) && !StartsLikeJson(ls) && |Block(ls)| + |Eol(crlf)| <= MAX_HEADER
    requires NoLengthLine(before) && NoLengthLine(behind) && IsLength(l) && LengthOf(l) == Some(|m|)
    requires |m| <= max
    ensures ReadOne(Block(before + [l] + behind) + (Eol(crlf) + (m + rest)), max) == (Frame(m), rest)
  {
    var ls := before + [l] + behind;
    FrameIff(ls, crlf, m, rest, max);
    assert OnlyLength(ls, |before|);
  }

  /** A second length is refused, be it the same or not and whatever follows; the lines between do not matter. */
  lemma TwoLengthsRefused(ls: seq<Line>, k: nat, second: Line, after: bytes, max: int)
    requires AllLines(ls) && AllColons(ls) && !StartsLikeJson(ls) && OnlyLength(ls, k)
    requires LengthOf(ls[k]).Some? && 0 <= LengthOf(ls[k]).value <= max
    requires IsLine(second) && IsLength(second) && |Block(ls)| + |Raw(second)| <= MAX_HEADER
    ensures ReadOne(Block(ls) + (Raw(second) + after), max).0 == Fatal(TwoLengths)
  {
    ScanIff(ls, max, LengthOf(ls[k]).value);
    Stops(ls, second, after, max, TwoLengths);
    ReadOneIs(ls, Raw(second) + after, max);
  }

  /** However the rest of a block looks, two lengths in it never make a frame. */
  lemma TwoLengthsNeverFrame(ls: seq<Line>, i: nat, j: nat, crlf: bool, rest: bytes, max: int)
    requires AllLines(ls) && max >= 0 && i < j < |ls| && IsLength(ls[i]) && IsLength(ls[j])
    ensures ReadOne(Block(ls) + (Eol(crlf) + rest), max).0.Fatal?
  {
    var p := Eol(crlf) + rest;
    BlockStart(ls, p);
    var h := Header(Block(ls) + p, max, -1, 0);
    if h.Length? { HeaderIff(ls, crlf, rest, max, h.n); }
  }

  /** A block that ends without a length is refused. */
  lemma NoLengthRefused(ls: seq<Line>, crlf: bool, after: bytes, max: int)
    requires AllLines(ls) && AllColons(ls) && NoLengthLine(ls) && !StartsLikeJson(ls) && max >= 0
    requires |Block(ls)| + |Eol(crlf)| <= MAX_HEADER
    ensures ReadOne(Block(ls) + (Eol(crlf) + after), max).0 == Fatal(NoLength)
  {
    ScanNone(ls, max);
    WholeBlock(ls, crlf, after, max);
    if ls == [] {
      assert Block(ls) + (Eol(crlf) + after) == Eol(crlf) + after;
    } else {
      ReadOneIs(ls, Eol(crlf) + after, max);
    }
  }

  /** A length over the limit is refused on sight, before a byte of the body is read. */
  lemma OversizeRefused(ls: seq<Line>, l: Line, after: bytes, max: int)
    requires AllLines(ls) && AllColons(ls) && NoLengthLine(ls) && IsLine(l) && IsLength(l)
    requires !StartsLikeJson(ls + [l]) && |Block(ls)| + |Raw(l)| <= MAX_HEADER
    requires LengthOf(l).Some? && 0 <= max < LengthOf(l).value
    ensures ReadOne(Block(ls + [l]) + after, max).0 == Fatal(Oversize)
  {
    var all := ls + [l];
    assert all[..|all| - 1] == ls;
    ScanNone(ls, max);
    Stops(ls, l, after, max, Oversize);
    Assoc(Block(ls), Raw(l), after);
    ReadOneIs(all, after, max);
  }

  // ---- WriteFrame's bytes, and reading them back ----

  /** The header line without its terminator. */
  function LengthLine(n: nat): bytes {
    NAME + [COLON, SPACE] + Print(n)
  }

  function Preamble(n: nat): bytes {
    LengthLine(n) + [CR, LF] + [CR, LF]
  }

  function Encode(m: bytes): bytes {
    Preamble(|m|) + m
  }

  lemma LengthLineBytes(n: nat)
    ensures Lacks(LengthLine(n), LF)
    ensures |LengthLine(n)| >= 17 && LengthLine(n)[0] == 67
    ensures IndexOf(LengthLine(n), COLON) == 14
    ensures LengthLine(n)[..14] == NAME && LengthLine(n)[15..] == [SPACE] + Print(n)
  {
    var t, d := LengthLine(n), Print(n);
    assert t == NAME + [COLON] + ([SPACE] + d);
    assert Lacks(NAME, COLON);
    IndexOfAfter(NAME, COLON, [SPACE] + d);
    assert Lacks(NAME + [COLON, SPACE], LF);
    LacksConcat(NAME + [COLON, SPACE], d, LF);
  }

  /** The one header line that is written. */
  function OwnLine(n: nat): Line {
    Line(LengthLine(n), true)
  }

  lemma LengthLineParsed(n: nat)
    requires n <= MAX_INT64
    ensures IsLength(OwnLine(n)) && LengthOf(OwnLine(n)) == Some(n)
  {
    LengthLineBytes(n);
    TrimSpaceWs([], NAME, []);
    assert [] + NAME + [] == NAME;
    TrimSpaceWs([SPACE], Print(n), []);
    assert [SPACE] + Print(n) + [] == [SPACE] + Print(n);
    ParseOfPrint(n);
  }

  lemma LengthLineShort(n: nat)
    requires n <= MAX_INT64
    ensures |LengthLine(n)| <= 35
  {
    PrintLengthInt64(n);
  }

  lemma CutTurn(p: bytes, max: int, len: int, used: nat)
    requires Lacks(p, LF) && (len == -1 || 0 <= len <= max)
    ensures HeaderTurn(p, max, len, used) == Ended(Rejected(HeaderCut))
  {
    IndexOfNone(p, LF);
  }

  lemma OwnBlock(n: nat)
    requires n <= MAX_INT64
    ensures var ls := [OwnLine(n)];
            && AllLines(ls) && !StartsLikeJson(ls) && |Block(ls)| <= 37 && Block(ls) == LengthLine(n) + [CR, LF]
            && (forall max :: n <= max ==> GivesLength(ls, max, n))
  {
    var ls := [OwnLine(n)];
    LengthLineBytes(n);
    LengthLineShort(n);
    LengthLineParsed(n);
    assert Block([]) + Raw(OwnLine(n)) == Raw(OwnLine(n)) && ls[..0] == [];
    assert OnlyLength(ls, 0);
  }

  lemma PreambleIsBlock(n: nat, q: bytes)
    requires n <= MAX_INT64
    ensures Preamble(n) + q == Block([OwnLine(n)]) + (Eol(true) + q)
  {
    OwnBlock(n);
    assert Preamble(n) + q == (LengthLine(n) + [CR, LF]) + (Eol(true) + q);
  }

  lemma ReadOneOfEncode(m: bytes, rest: bytes, max: int)
    requires |m| <= max <= MAX_INT64
    ensures ReadOne(Encode(m) + rest, max) == (Frame(m), rest)
  {
    OwnBlock(|m|);
    FrameIff([OwnLine(|m|)], true, m, rest, max);
    Assoc(Preamble(|m|), m, rest);
    PreambleIsBlock(|m|, m + rest);
  }

  lemma EncodedReadsBack(m: bytes, max: int)
    requires |m| <= max <= MAX_INT64
    ensures ReadsBack(Reading(max), Encode, m)
  {
    LengthLineBytes(|m|);
    forall rest ensures Reading(max)(Encode(m) + rest) == (Frame(m), rest) { ReadOneOfEncode(m, rest, max); }
  }

  ghost predicate AllWithin(ms: seq<bytes>, max: int) {
    forall i :: 0 <= i < |ms| ==> |ms[i]| <= max
  }

  lemma StreamDecodes(ms: seq<bytes>, tail: bytes, max: int)
    requires AllWithin(ms, max) && max <= MAX_INT64
    ensures ReadAll(Reading(max), EncodeAll(Encode, ms) + tail)
         == (ms + ReadAll(Reading(max), tail).0, ReadAll(Reading(max), tail).1)
  {
    forall i | 0 <= i < |ms| ensures ReadsBack(Reading(max), Encode, ms[i]) { EncodedReadsBack(ms[i], max); }
    StreamReadsBack(Reading(max), Encode, ms, tail);
  }

  /** Any list of messages within the limit, written and read back under any chunking, then a clean end:
      empty bodies and bodies with newlines included. */
  lemma RoundTrip(ms: seq<bytes>, max: int)
    requires AllWithin(ms, max) && max <= MAX_INT64
    ensures ReadAll(Reading(max), EncodeAll(Encode, ms)) == (ms, CleanEof)
  {
    StreamDecodes(ms, [], max);
    assert Reading(max)([]) == (CleanEof, []);
    assert EncodeAll(Encode, ms) + [] == EncodeAll(Encode, ms);
    assert ms + [] == ms;
  }

  /** The stream ends behind the length line. */
  lemma CutAfterLength(n: nat, q: bytes, max: int)
    requires n <= max <= MAX_INT64 && Lacks(q, LF)
    ensures ReadOne(LengthLine(n) + [CR, LF] + q, max).0 == Fatal(HeaderCut)
  {
    var ls := [OwnLine(n)];
    OwnBlock(n);
    ScanIff(ls, max, n);
    Passes(ls, q, max);
    CutTurn(q, max, n, |Block(ls)|);
    ReadOneIs(ls, q, max);
  }

  /** The stream ends in the body. */
  lemma CutInBody(n: nat, q: bytes, max: int)
    requires |q| < n <= max <= MAX_INT64
    ensures ReadOne(Preamble(n) + q, max).0 == Fatal(BodyCut)
  {
    var ls := [OwnLine(n)];
    OwnBlock(n);
    PreambleIsBlock(n, q);
    HeaderIff(ls, true, q, max, n);
    ReadOneIs(ls, Eol(true) + q, max);
  }

  /** A frame cut short anywhere inside is an error, neither a message nor a clean end. */
  lemma CutFrame(m: bytes, k: nat, max: int)
    requires 0 < k < |Encode(m)| && |m| <= max <= MAX_INT64
    ensures var o := ReadOne(Encode(m)[..k], max).0;
            o == Fatal(if k < |Preamble(|m|)| then HeaderCut else BodyCut)
  {
    var p, t := Encode(m)[..k], LengthLine(|m|);
    LengthLineBytes(|m|);
    assert p[0] == t[0];
    assert Encode(m) == t + [CR, LF] + ([CR, LF] + m);
    if k < |t| + 2 {
      assert p == (t + [CR])[..k];
      CutTurn(p, max, -1, 0);
    } else if k < |t| + 4 {
      var q := [CR][..k - |t| - 2];
      assert p == t + [CR, LF] + q;
      CutAfterLength(|m|, q, max);
    } else {
      var q := m[..k - |t| - 4];
      assert p == Preamble(|m|) + q;
      CutInBody(|m|, q, max);
    }
  }

  /** Whole frames followed by a non-empty proper prefix of another: the whole ones come back, then an error. */
  lemma TruncationDetected(ms: seq<bytes>, last: bytes, k: nat, max: int)
    requires AllWithin(ms, max) && |last| <= max <= MAX_INT64
    requires 0 < k < |Encode(last)|
    ensures ReadAll(Reading(max), EncodeAll(Encode, ms) + Encode(last)[..k])
         == (ms, Fatal(if k < |Preamble(|last|)| then HeaderCut else BodyCut))
  {
    var cut := Encode(last)[..k];
    CutFrame(last, k, max);
    assert Reading(max)(cut).0 == ReadOne(cut, max).0;
    StreamDecodes(ms, cut, max);
    assert ms + [] == ms;
  }

  /** A written stream never starts with a byte order mark, so dropping one loses nothing. */
  lemma NoBomWritten(ms: seq<bytes>, last: bytes, k: nat)
    requires k <= |Encode(last)|
    ensures var p := EncodeAll(Encode, ms) + Encode(last)[..k]; StripBom(p) == p
  {
    var first := if ms == [] then last else ms[0];
    LengthLineBytes(|first|);
    assert Encode(first)[0] == LengthLine(|first|)[0];
  }
}
