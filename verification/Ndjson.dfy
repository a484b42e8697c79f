/** jsonrpcstdio/framing.go, ndjsonFramer: one message per newline-terminated line. */
module Ndjson {
  import opened Wrappers
  import opened Bytes
  import opened Decimal
  import opened BufReader
  import opened Framing

  /** contentLengthPrefix. */
  function HeaderPrefix(): bytes { Ascii("Content-Length:") }

  /** A Content-Length header where a JSON line belongs, in any casing. */
  predicate LooksLikeHeader(line: bytes) {
    |line| >= |HeaderPrefix()| && EqualFold(line[..|HeaderPrefix()|], HeaderPrefix())
  }

  // ---- the simple reader: next non-blank line, trimmed ----

  /** The first line of p with its newline, or all of p when there is none. */
  function FirstLine(p: bytes): (line: bytes)
    ensures line <= p
    ensures p != [] ==> line != []
  {
    var i := IndexOf(p, LF);
    if i < |p| then p[..i + 1] else p
  }

  function Judge(t: bytes, max: int): Outcome {
    if |t| > max then Fatal(Oversize)
    else if LooksLikeHeader(t) then Fatal(WrongFraming)
    else Frame(t)
  }

  /** One ReadFrame: its outcome and what it leaves in the stream. */
  function ReadOne(p: bytes, max: int): (r: (Outcome, bytes))
    ensures |r.1| <= |p| && (r.0.Frame? ==> |r.1| < |p|)
    decreases |p|
  {
    if p == [] then (CleanEof, [])
    else
      var line := FirstLine(p);
      var rest, t := p[|line|..], TrimEol(line);
      if t == [] then ReadOne(rest, max) else (Judge(t, max), rest)
  }

  function Reading(max: int): bytes -> (Outcome, bytes) {
    p => ReadOne(p, max)
  }

  // ---- ReadFrame ----

  datatype LineEnd = Whole | Ended | TooLong | Broken

  /** Conversion to int64, and the result of int64 arithmetic. */
  function Wrap64(n: int): int {
    (n + MAX_INT64 + 1) % (2 * MAX_INT64 + 2) - MAX_INT64 - 1
  }

  /** The size test as it is computed, in int64. */
  predicate SizeTest(held: nat, max: int) {
    Wrap64(Wrap64(held) - 2) > max
  }

  /** The test that suggests itself. */
  predicate NaiveTest(held: nat, max: int) {
    Wrap64(held) > Wrap64(max + 2)
  }

  lemma WrapsNot(n: int)
    requires -MAX_INT64 - 1 <= n <= MAX_INT64
    ensures Wrap64(n) == n
  {
  }

  /** Subtracting on the left never overflows, whatever the limit: the test means what it says, up to the longest line a
      Go slice can hold. Adding on the right means it exactly for the limits that leave room for the addition. */
  lemma SizeTestIsExact(max: int)
    requires 0 <= max <= MAX_INT64
    ensures forall held: nat :: held <= MAX_INT64 ==> (SizeTest(held, max) <==> held - 2 > max)
    ensures (forall held: nat :: held <= MAX_INT64 ==> (NaiveTest(held, max) <==> held - 2 > max))
            <==> max <= MAX_INT64 - 2
  {
    forall held: nat | held <= MAX_INT64
      ensures SizeTest(held, max) <==> held - 2 > max
      ensures max <= MAX_INT64 - 2 ==> (NaiveTest(held, max) <==> held - 2 > max)
    {
      WrapsNot(held);
      WrapsNot(held - 2);
      if max <= MAX_INT64 - 2 { WrapsNot(max + 2); }
    }
    if max > MAX_INT64 - 2 { assert NaiveTest(0, max); }
  }

  lemma FirstLineEnds(lead: bytes, more: bytes)
    requires Lacks(lead, LF)
    ensures FirstLine(lead + [LF] + more) == lead + [LF]
  {
    IndexOfAfter(lead, LF, more);
  }

  /** Bytes without a newline belong to the first line. */
  lemma LineAtLeast(part: bytes, more: bytes)
    requires Lacks(part, LF)
    ensures |FirstLine(part + more)| >= |part|
    ensures more == [] ==> FirstLine(part + more) == part
  {
    var p := part + more;
    forall j | 0 <= j < |part| ensures p[j] != LF { assert p[j] == part[j]; }
    if more == [] { assert p == part; IndexOfNone(p, LF); }
  }

  /** A chunk that ends in its only newline completes the line. */
  lemma LineCompleted(acc: bytes, chunk: bytes, more: bytes)
    requires Lacks(acc, LF) && chunk != [] && IndexOf(chunk, LF) == |chunk| - 1
    ensures FirstLine(acc + chunk + more) == acc + chunk
  {
    var c := chunk[..|chunk| - 1];
    assert chunk == c + [LF];
    LacksConcat(acc, c, LF);
    Assoc(acc, c, [LF]);
    FirstLineEnds(acc + c, more);
  }

  lemma ChunkNewline(p: bytes, line: bytes, rest: bytes)
    requires p == line + rest && line != [] && IndexOf(p, LF) == |line| - 1
    ensures IndexOf(line, LF) == |line| - 1
  {
    assert forall j :: 0 <= j < |line| ==> line[j] == p[j];
    IndexOfAt(line, LF, |line| - 1);
  }

  /** What a chunk says of the line it is part of: held was read before it, rest is still to come. */
  lemma ChunkRead(held: bytes, before: bytes, chunk: bytes, rest: bytes, e: ReadErr)
    requires Lacks(held, LF) && before == chunk + rest
    requires e == NoErr ==> chunk != [] && IndexOf(before, LF) == |chunk| - 1
    requires e != NoErr ==> Lacks(chunk, LF)
    ensures var p, acc := held + before, held + chunk;
            && p == acc + rest && p[|acc|..] == rest && |FirstLine(p)| >= |acc|
            && (e == NoErr ==> FirstLine(p) == acc)
            && (e != NoErr ==> Lacks(acc, LF) && (rest == [] ==> p == acc && FirstLine(p) == acc))
  {
    var acc := held + chunk;
    Assoc(held, chunk, rest);
    if e == NoErr {
      ChunkNewline(before, chunk, rest);
      LineCompleted(held, chunk, rest);
    } else {
      LacksConcat(held, chunk, LF);
      LineAtLeast(acc, rest);
    }
  }

  /** The inner loop: accumulates one line. peak is the most it ever held. */
  method ReadLine(r: Reader, max: int) returns (acc: bytes, end: LineEnd, ghost peak: nat)
    requires r.Valid() && max >= 0
    modifies r
    ensures r.Valid()
    ensures |acc| <= peak <= max + 2
    ensures end == Whole ==> acc != [] && acc == FirstLine(old(r.Pending())) && r.Pending() == old(r.Pending())[|acc|..]
    ensures end == Ended ==> old(r.Pending()) == []
    ensures end == TooLong ==> |FirstLine(old(r.Pending()))| > max + 2
    ensures end == Broken ==> r.mayFail
  {
    ghost var p := r.Pending();
    acc, peak := [], 0;
    while true
      invariant r.Valid() && p == acc + r.Pending() && Lacks(acc, LF)
      invariant |acc| <= peak <= max + 2
      decreases |r.Pending()|
    {
      ghost var before, held := r.Pending(), acc;
      var chunk, e := r.ReadSlice();
      ChunkRead(held, before, chunk, r.Pending(), e);
      if |acc| + |chunk| - 2 > max { return acc, TooLong, peak; }
      acc := acc + chunk;
      peak := if |acc| > peak then |acc| else peak;
      if e == NoErr { return acc, Whole, peak; }
      if e == Eof { return acc, if acc == [] then Ended else Whole, peak; }
      if e == Failed { return acc, Broken, peak; }
    }
  }

  /** A whole line decides the frame, unless it is blank. */
  lemma LineDecides(p: bytes, acc: bytes, max: int)
    requires p != [] && acc == FirstLine(p)
    ensures var t, rest := TrimEol(acc), p[|acc|..];
            ReadOne(p, max) == if t == [] then ReadOne(rest, max) else (Judge(t, max), rest)
  {
  }

  /** A line that outgrows the slack is over the limit without its terminator. */
  lemma TooLongDecides(p: bytes, max: int)
    requires |FirstLine(p)| > max + 2 && max >= 0
    ensures ReadOne(p, max).0 == Fatal(Oversize)
  {
    assert |TrimEol(FirstLine(p))| >= |FirstLine(p)| - 2;
  }

  /** One turn of the outer loop: None is a blank line, skipped. */
  method NextLine(r: Reader, max: int) returns (o: Option<Outcome>, ghost peak: nat)
    requires r.Valid() && max >= 0
    modifies r
    ensures r.Valid() && peak <= max + 2
    ensures o == None ==>
              |r.Pending()| < |old(r.Pending())| && ReadOne(old(r.Pending()), max) == ReadOne(r.Pending(), max)
    ensures o.Some? && !r.mayFail ==> ReadOne(old(r.Pending()), max).0 == o.value
    ensures o.Some? && o.value.Frame? ==>
              ReadOne(old(r.Pending()), max) == (o.value, r.Pending()) && 0 < |o.value.body| <= max
  {
    ghost var p := r.Pending();
    var acc, end;
    acc, end, peak := ReadLine(r, max);
    match end
    case Broken => o := Some(Fatal(ReadFailed));
    case TooLong =>
      TooLongDecides(p, max);
      o := Some(Fatal(Oversize));
    case Ended => o := Some(CleanEof);
    case Whole =>
      LineDecides(p, acc, max);
      var line := TrimEol(acc);
      o := if line == [] then None else Some(Judge(line, max));
  }

  method ReadFrame(f: FramerBase) returns (o: Outcome, ghost peak: nat)
    requires f.Valid()
    modifies f, f.r
    ensures f.Valid() && f.started
    ensures !f.r.mayFail ==> o == ReadOne(old(f.Stream()), f.maxSize).0
    ensures !f.r.mayFail && o.Frame? ==> f.Stream() == ReadOne(old(f.Stream()), f.maxSize).1
    ensures o.Frame? ==> 0 < |o.body| <= f.maxSize
    ensures o.Frame? ==> (o, f.r.Pending()) == ReadOne(old(f.r.Pending()), f.maxSize)
                         || (o, f.r.Pending()) == ReadOne(old(f.Stream()), f.maxSize)
    ensures peak <= f.maxSize + 2
  {
    f.Begin();
    var r, max := f.r, f.maxSize;
    peak := 0;
    ghost var whole := ReadOne(r.Pending(), max);
    while true
      invariant f.Valid() && f.started
      invariant peak <= max + 2
      invariant ReadOne(r.Pending(), max) == whole
      decreases |r.Pending()|
    {
      var stop, held := NextLine(r, max);
      peak := if held > peak then held else peak;
      if stop.Some? { return stop.value, peak; }
    }
  }

  /** The read loops of Serve and of the client: one frame after the other, until there is none. */
  method ReadStream(f: FramerBase) returns (ms: seq<bytes>, end: Outcome)
    requires f.Valid()
    modifies f, f.r
    ensures f.Valid() && !end.Frame?
    ensures !f.r.mayFail ==> (ms, end) == ReadAll(Reading(f.maxSize), old(f.Stream()))
  {
    ghost var whole := ReadAll(Reading(f.maxSize), f.Stream());
    ms := [];
    OntoNothing(whole);
    while true
      invariant f.Valid()
      invariant !f.r.mayFail ==> whole == Onto(ms, ReadAll(Reading(f.maxSize), f.Stream()))
      decreases |f.r.Pending()|
    {
      ghost var p := f.Stream();
      ghost var peak;
      end, peak := ReadFrame(f);
      if !f.r.mayFail { OntoStep(Reading(f.maxSize), ms, p, end, f.Stream()); }
      if !end.Frame? { return; }
      ms := ms + [end.body];
    }
  }

  // ---- WriteFrame's bytes, and reading them back ----

  /** WriteFrame of a message without newlines. */
  function Encode(m: bytes): bytes {
    m + [LF]
  }

  /** The messages this framing carries unchanged. */
  predicate Carried(m: bytes, max: int) {
    m != [] && |m| <= max && m[|m| - 1] != CR && !LooksLikeHeader(m)
  }

  lemma LineOfEncode(m: bytes, rest: bytes)
    requires Lacks(m, LF)
    ensures FirstLine(Encode(m) + rest) == Encode(m) && (Encode(m) + rest)[|m| + 1..] == rest
    ensures TrimEol(Encode(m)) == if m != [] && m[|m| - 1] == CR then m[..|m| - 1] else m
  {
    FirstLineEnds(m, rest);
    assert Encode(m)[..|m|] == m;
  }

  /** A newline-free message comes back as itself exactly when it is carried. */
  lemma CarriedIffReadBack(m: bytes, rest: bytes, max: int)
    requires Lacks(m, LF)
    ensures ReadOne(Encode(m) + rest, max) == (Frame(m), rest) <==> Carried(m, max)
  {
    LineOfEncode(m, rest);
  }

  /** What becomes of a line, with either ending: a blank one is passed over, one over the limit or with a header on it
      is fatal, and any other is the message. */
  lemma LineDecided(m: bytes, crlf: bool, rest: bytes, max: int)
    requires Lacks(m, LF) && (m != [] && m[|m| - 1] == CR ==> crlf)
    ensures var p := m + (if crlf then [13, 10] else [10]) + rest;
            ReadOne(p, max)
            == if m == [] then ReadOne(rest, max)
               else
                 (if |m| > max then Fatal(Oversize)
                  else if |m| >= 15 && EqualFold(m[..15], Ascii("Content-Length:")) then Fatal(WrongFraming)
                  else Frame(m), rest)
  {
    var p, lead := m + (if crlf then [13, 10] else [10]) + rest, m + if crlf then [13] else [];
    assert p == Encode(lead) + rest;
    LacksConcat(m, if crlf then [13] else [], LF);
    LineOfEncode(lead, rest);
    assert crlf ==> lead[..|lead| - 1] == m;
  }

  lemma EncodedReadsBack(m: bytes, max: int)
    requires Lacks(m, LF) && Carried(m, max)
    ensures ReadsBack(Reading(max), Encode, m)
  {
    forall rest ensures Reading(max)(Encode(m) + rest) == (Frame(m), rest) { CarriedIffReadBack(m, rest, max); }
  }

  ghost predicate AllCarried(ms: seq<bytes>, max: int) {
    forall i :: 0 <= i < |ms| ==> Lacks(ms[i], LF) && Carried(ms[i], max)
  }

  lemma StreamDecodes(ms: seq<bytes>, tail: bytes, max: int)
    requires AllCarried(ms, max)
    ensures ReadAll(Reading(max), EncodeAll(Encode, ms) + tail)
         == (ms + ReadAll(Reading(max), tail).0, ReadAll(Reading(max), tail).1)
  {
    forall i | 0 <= i < |ms| ensures ReadsBack(Reading(max), Encode, ms[i]) { EncodedReadsBack(ms[i], max); }
    StreamReadsBack(Reading(max), Encode, ms, tail);
  }

  lemma RoundTrip(ms: seq<bytes>, max: int)
    requires AllCarried(ms, max)
    ensures ReadAll(Reading(max), EncodeAll(Encode, ms)) == (ms, CleanEof)
  {
    NothingLeft(max);
    StreamDecodes(ms, [], max);
    assert EncodeAll(Encode, ms) + [] == EncodeAll(Encode, ms);
    assert ms + [] == ms;
  }

  lemma NothingLeft(max: int)
    ensures ReadAll(Reading(max), []) == ([], CleanEof)
  {
    assert Reading(max)([]) == (CleanEof, []);
  }

  /** Only the first message of a stream can be mistaken for a byte order mark, and only if it starts with one. */
  lemma BomWritten(m: bytes, rest: bytes)
    requires m != [] && Lacks(m, LF)
    ensures StripBom(Encode(m) + rest) == Encode(m) + rest <==> !StartsWithBom(m)
  {
    var p := Encode(m) + rest;
    assert p[0] == m[0] && p[|m|] == LF;
    assert |m| >= 2 ==> p[1] == m[1];
    assert |m| >= 3 ==> p[2] == m[2];
    assert StartsWithBom(p) <==> StartsWithBom(m);
    assert StartsWithBom(p) ==> |StripBom(p)| < |p|;
  }

  // ---- streams that end inside a line ----

  /** An unterminated last line is read like any other. */
  lemma LastLine(q: bytes, max: int)
    requires Lacks(q, LF)
    ensures ReadOne(q, max) == if TrimEol(q) == [] then (CleanEof, []) else (Judge(TrimEol(q), max), [])
  {
    IndexOfNone(q, LF);
    assert FirstLine(q) == q && q[|q|..] == [];
  }

  /** The end of a stream that has delivered ms and breaks off with the line that holds t, its end trimmed. */
  function CutEnd(ms: seq<bytes>, t: bytes, max: int): (seq<bytes>, Outcome) {
    if t == [] then (ms, CleanEof)
    else if |t| > max then (ms, Fatal(Oversize))
    else if LooksLikeHeader(t) then (ms, Fatal(WrongFraming))
    else (ms + [t], CleanEof)
  }

  lemma LastLineAll(q: bytes, max: int)
    requires Lacks(q, LF)
    ensures ReadAll(Reading(max), q) == CutEnd([], TrimEol(q), max)
  {
    LastLine(q, max);
    assert Reading(max)(q) == ReadOne(q, max);
    NothingLeft(max);
    assert [TrimEol(q)] + [] == [TrimEol(q)] == [] + [TrimEol(q)];
  }

  /** When the end of a stream inside a line is noticed: behind whatever messages, exactly when what has arrived of the
      line, its end trimmed, is over the limit or looks like a header. In every other case the stream ends cleanly, and
      what has arrived is passed on as a message unless nothing of it is left. */
  lemma CutIff(ms: seq<bytes>, q: bytes, max: int)
    requires AllCarried(ms, max) && Lacks(q, LF)
    ensures var (got, end) := ReadAll(Reading(max), EncodeAll(Encode, ms) + q); var t := TrimEol(q);
            && (end == CleanEof <==> t == [] || (|t| <= max && !LooksLikeHeader(t)))
            && got == ms + if t != [] && end == CleanEof then [t] else []
    ensures ReadAll(Reading(max), EncodeAll(Encode, ms) + q) == CutEnd(ms, TrimEol(q), max)
  {
    StreamDecodes(ms, q, max);
    LastLineAll(q, max);
    assert ms + [] == ms;
  }

  lemma HeaderOfPart(t: bytes, m: bytes)
    requires t <= m
    ensures LooksLikeHeader(t) ==> LooksLikeHeader(m)
  {
    if LooksLikeHeader(t) { assert m[..|HeaderPrefix()|] == t[..|HeaderPrefix()|]; }
  }

  /** The beginning of a carried message, its end trimmed, is not noticed to be one. */
  lemma PartPasses(last: bytes, k: nat, max: int)
    requires Lacks(last, LF) && Carried(last, max) && k <= |last|
    ensures var t := TrimEol(last[..k]);
            && t <= last && |t| <= max && (t != [] ==> !LooksLikeHeader(t)) && (t == last <==> k == |last|)
  {
    var t := TrimEol(last[..k]);
    if k == |last| { assert last[..k] == last; }
    HeaderOfPart(t, last);
  }

  /** A cut of written messages is never noticed: the messages before it come back, then what is left of the one that
      was cut, shortened and passed on as a message, or dropped without a word; and then a clean end. Only the loss of
      the final newline alone does no harm. */
  lemma CutNeverNoticed(ms: seq<bytes>, last: bytes, k: nat, max: int)
    requires AllCarried(ms, max) && Lacks(last, LF) && Carried(last, max) && k <= |last|
    ensures var t := TrimEol(last[..k]);
            && ReadAll(Reading(max), EncodeAll(Encode, ms) + last[..k])
               == (ms + (if t == [] then [] else [t]), CleanEof)
            && (t == last <==> k == |last|)
  {
    PartPasses(last, k, max);
    CutIff(ms, last[..k], max);
    assert ms + [] == ms;
  }

  /** Two cuts right behind a carriage return: a message comes back without it, and what is nothing else vanishes. */
  lemma CutBehindReturn(max: int)
    requires max >= 1
    ensures ReadAll(Reading(max), [97, CR]) == ([[97]], CleanEof)
    ensures ReadAll(Reading(max), [CR]) == ([], CleanEof)
  {
    LastLineAll([97, CR], max);
    LastLineAll([CR], max);
    assert [97, CR][..1] == [97] && [CR][..0] == [];
    assert [] + [[97]] == [[97]];
  }
}
