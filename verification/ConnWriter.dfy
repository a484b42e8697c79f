/** jsonrpcstdio/push.go, connWriter, over WriteFrame of both framings: one writer per connection
    that latches shut on the first failed write. */
module ConnWriter {
  import opened Wrappers
  import opened Bytes
  import opened Decimal
  import opened Framing
  import ContentLength
  import Ndjson

  datatype Wire = Headers | Lines

  function Encoder(f: Wire): bytes -> bytes {
    match f
    case Headers => ContentLength.Encode
    case Lines => Ndjson.Encode
  }

  function Flatten(parts: seq<bytes>): bytes
    decreases |parts|
  {
    if parts == [] then [] else parts[0] + Flatten(parts[1..])
  }

  lemma FlattenTwo(a: bytes, b: bytes)
    ensures Flatten([a, b]) == a + b
  {
    assert [a, b][1..] == [b] && [b][1..] == [];
    assert Flatten([b]) == b + [];
  }

  /** The output stream. A Write may fail after taking any prefix of its argument, even all of it. */
  class Stream {
    var wire: bytes

    constructor ()
      ensures wire == []
    {
      wire := [];
    }

    method Write(p: bytes) returns (ok: bool, ghost taken: bytes)
      modifies this
      ensures wire == old(wire) + taken && taken <= p && (ok ==> taken == p)
    {
      ok := *;
      var n :| 0 <= n <= |p| && (ok ==> n == |p|);
      wire := wire + p[..n];
      taken := p[..n];
    }

    /** writeAll: the parts one after the other, stopping at the first error. */
    method WriteAll(parts: seq<bytes>) returns (ok: bool, ghost taken: bytes)
      modifies this
      ensures wire == old(wire) + taken && taken <= Flatten(parts) && (ok ==> taken == Flatten(parts))
    {
      taken, ok := [], true;
      var i := 0;
      while i < |parts|
        invariant 0 <= i <= |parts|
        invariant wire == old(wire) + taken && taken + Flatten(parts[i..]) == Flatten(parts)
      {
        ghost var t;
        ok, t := Write(parts[i]);
        assert parts[i..][1..] == parts[i + 1..];
        Assoc(old(wire), taken, t);
        PartTaken(taken, t, parts[i], Flatten(parts[i + 1..]));
        taken := taken + t;
        if !ok { return; }
        i := i + 1;
      }
      assert parts[i..] == [];
    }
  }

  lemma PartTaken(taken: bytes, t: bytes, part: bytes, rest: bytes)
    requires t <= part
    ensures taken + t <= taken + (part + rest)
    ensures t == part ==> taken + (part + rest) == (taken + t) + rest
  {
  }

  datatype WriteResult =
    | Written
    | Unframeable     // nothing reached the wire, the stream stays in use
    | WriteFailed     // part of a frame may be on the wire
    | WriterClosed

  /** What a framing puts on the wire for a message; None when it cannot be framed.
      compact stands for json.Compact. */
  function OnWire(f: Wire, compact: bytes -> Option<bytes>, m: bytes): Option<bytes> {
    if f == Headers || Lacks(m, LF) then Some(m)
    else
      match compact(m)
      case None => None
      case Some(c) => if !Lacks(c, LF) then None else Some(c)
  }

  /** The wire is the encodings of the accepted messages in order, then at most one partial frame. */
  ghost predicate Consistent(f: Wire, wire: bytes, accepted: seq<bytes>, lost: Option<bytes>, tail: bytes) {
    && wire == EncodeAll(Encoder(f), accepted) + tail
    && (if lost == None then tail == [] else tail <= Encoder(f)(lost.value))
  }

  lemma Grown(f: Wire, wire: bytes, accepted: seq<bytes>, m: bytes)
    requires Consistent(f, wire, accepted, None, [])
    ensures Consistent(f, wire + Encoder(f)(m), accepted + [m], None, [])
  {
    EncodeSnoc(Encoder(f), accepted, m);
    assert wire == EncodeAll(Encoder(f), accepted);
    assert wire + Encoder(f)(m) + [] == wire + Encoder(f)(m);
  }

  lemma CutOff(f: Wire, wire: bytes, accepted: seq<bytes>, m: bytes, taken: bytes)
    requires Consistent(f, wire, accepted, None, []) && taken <= Encoder(f)(m)
    ensures Consistent(f, wire + taken, accepted, Some(m), taken)
  {
    assert wire == EncodeAll(Encoder(f), accepted);
  }

  /** accepted lists the messages whose write succeeded, lost the one whose write failed, and tail is
      what that one left on the wire. failures counts the calls of the fail callback. */
  class Writer {
    const framing: Wire
    const compact: bytes -> Option<bytes>
    const stream: Stream
    var closed: bool
    var failures: nat
    ghost var accepted: seq<bytes>
    ghost var lost: Option<bytes>
    ghost var tail: bytes

    ghost predicate Valid()
      reads this, stream
    {
      && Consistent(framing, stream.wire, accepted, lost, tail)
      && (lost.Some? ==> closed)
      && failures == if lost == None then 0 else 1
    }

    constructor (framing: Wire, compact: bytes -> Option<bytes>, stream: Stream)
      requires stream.wire == []
      ensures Valid() && !closed && accepted == [] && lost == None
      ensures this.framing == framing && this.compact == compact && this.stream == stream
    {
      this.framing, this.compact, this.stream := framing, compact, stream;
      closed, failures, accepted, lost, tail := false, 0, [], None, [];
    }

    /** The framer's WriteFrame. */
    method WriteFrame(data: bytes) returns (r: WriteResult, ghost taken: bytes)
      modifies stream
      ensures stream.wire == old(stream.wire) + taken
      ensures r == Unframeable <==> OnWire(framing, compact, data) == None
      ensures r == Unframeable ==> taken == []
      ensures r != Unframeable ==> taken <= Encoder(framing)(OnWire(framing, compact, data).value)
      ensures r == Written ==> taken == Encoder(framing)(OnWire(framing, compact, data).value)
      ensures r != WriterClosed
      ensures framing == Headers ==> r != Unframeable && (r == Written ==> taken == ContentLength.Encode(data))
      ensures framing == Lines && LF !in data ==> r != Unframeable && (r == Written ==> taken == data + [LF])
      ensures framing == Lines && LF in data ==>
                && (r == Unframeable <==> compact(data).None? || LF in compact(data).value)
                && (r == Written ==> taken == compact(data).value + [LF])
    {
      var parts;
      if framing == Headers {
        parts := [ContentLength.Preamble(|data|), data];
        FlattenTwo(parts[0], parts[1]);
      } else {
        var line := data;
        if !Lacks(data, LF) {
          match compact(data) {
            case None => return Unframeable, [];
            case Some(c) =>
              if !Lacks(c, LF) { return Unframeable, []; }
              line := c;
          }
        }
        parts := [line, [LF]];
        FlattenTwo(parts[0], parts[1]);
      }
      assert Flatten(parts) == Encoder(framing)(OnWire(framing, compact, data).value);
      var ok;
      ok, taken := stream.WriteAll(parts);
      r := if ok then Written else WriteFailed;
    }

    /** connWriter.write, under the mutex. */
    method Write(frame: bytes) returns (r: WriteResult)
      requires Valid()
      modifies this, stream
      ensures Valid()
      ensures r == WriterClosed <==> old(closed)
      ensures old(closed) ==> stream.wire == old(stream.wire) && closed
      ensures !old(closed) ==> (r == Unframeable <==> OnWire(framing, compact, frame) == None)
      ensures accepted == old(accepted) + if r == Written then [OnWire(framing, compact, frame).value] else []
      ensures lost == if r == WriteFailed then OnWire(framing, compact, frame) else old(lost)
      ensures closed <==> old(closed) || r == WriteFailed
      ensures r != WriteFailed ==> tail == old(tail)
      ensures failures == old(failures) + if r == WriteFailed then 1 else 0
      ensures r == Unframeable <==> !old(closed) && framing == Lines && LF in frame
                                    && (compact(frame).None? || LF in compact(frame).value)
      ensures framing == Headers || LF !in frame ==>
                && (r == Written ==> accepted == old(accepted) + [frame])
                && (r == WriteFailed ==> lost == Some(frame))
      ensures framing == Lines && LF in frame ==>
                && (r == Written ==> compact(frame).Some? && accepted == old(accepted) + [compact(frame).value])
                && (r == WriteFailed ==> compact(frame).Some? && lost == compact(frame))
    {
      if closed { return WriterClosed; }
      ghost var taken;
      ghost var before := stream.wire;
      r, taken := WriteFrame(frame);
      if r == WriteFailed {
        closed := true;
        failures := failures + 1;
        lost, tail := OnWire(framing, compact, frame), taken;
        CutOff(framing, before, accepted, lost.value, taken);
      } else if r == Written {
        Grown(framing, before, accepted, OnWire(framing, compact, frame).value);
        accepted := accepted + [OnWire(framing, compact, frame).value];
      } else {
        assert stream.wire == before;
      }
    }

    /** connWriter.close. */
    method Close()
      requires Valid()
      modifies `closed
      ensures Valid() && closed
    {
      closed := true;
    }
  }

  // ---- what the peer makes of the wire ----

  lemma NameBytes()
    ensures Ascii("Content-Length: ") == ContentLength.NAME + [COLON, SPACE]
  {
    Concat("Content-", "Length: ", "Content-Length: ");
    assert Ascii("Content-") == [67, 111, 110, 116, 101, 110, 116, 45];
    assert Ascii("Length: ") == [76, 101, 110, 103, 116, 104, 58, 32];
  }

  lemma Grouped(name: bytes, sep: bytes, lead: bytes, digits: bytes, eol: bytes, blank: bytes, m: bytes)
    requires name + sep == lead && eol + eol == blank
    ensures name + sep + digits + eol + eol + m == lead + digits + blank + m
  {
    assert name + sep + digits + eol + eol == lead + digits + blank;
  }

  lemma BlankBytes()
    ensures [CR, LF] + [CR, LF] == [13, 10, 13, 10]
  {
  }

  /** A frame as the LSP base protocol writes it. */
  lemma FrameBytes(m: bytes)
    ensures ContentLength.Encode(m) == Ascii("Content-Length: ") + Print(|m|) + [13, 10, 13, 10] + m
  {
    NameBytes();
    BlankBytes();
    Grouped(ContentLength.NAME, [COLON, SPACE], Ascii("Content-Length: "), Print(|m|), [CR, LF], [13, 10, 13, 10], m);
  }

  /** The two framings are never mistaken for each other. A line peer refuses a Content-Length frame, as one if its
      header is within the limit, and a Content-Length peer a message that begins as an object or an array does. */
  lemma FramingsNeverMix(m: bytes, line: bytes, rest: bytes, max: int)
    requires line != [] && (line[0] == LBRACE || line[0] == LBRACKET)
    ensures Ndjson.ReadOne(ContentLength.Encode(m) + rest, max).0
         == Fatal(if 16 + |Print(|m|)| <= max then WrongFraming else Oversize)
    ensures ContentLength.ReadOne(Ndjson.Encode(line) + rest, max).0 == Fatal(WrongFraming)
  {
    FrameBytes(m);
    var head := Ascii("Content-Length: ") + Print(|m|);
    var p, more := ContentLength.Encode(m) + rest, [13, 10] + m + rest;
    assert p == (head + [13]) + [LF] + more;
    HeadLacks(|m|);
    Ndjson.FirstLineEnds(head + [13], more);
    assert TrimEol(head + [13] + [LF]) == head;
    assert Ndjson.LooksLikeHeader(head) by {
      assert head[..15] == Ndjson.HeaderPrefix();
    }
  }

  lemma HeadLacks(n: nat)
    ensures Lacks(Ascii("Content-Length: ") + Print(n) + [13], LF)
  {
    var lead := Ascii("Content-Length: ");
    FrameBytes([]);
    LacksConcat(lead, Print(n), LF);
    LacksConcat(lead + Print(n), [13], LF);
  }

  /** A Content-Length peer decodes exactly the accepted messages, plus the failed one if it landed whole;
      a partial frame is reported as an error and never passed on as a message. */
  lemma PeerDecodes(w: Writer, max: int)
    requires w.Valid() && w.framing == Headers && max <= MAX_INT64
    requires ContentLength.AllWithin(w.accepted, max) && (w.lost.Some? ==> |w.lost.value| <= max)
    ensures var landed := w.lost.Some? && w.tail == ContentLength.Encode(w.lost.value);
            var (got, end) := ReadAll(ContentLength.Reading(max), StripBom(w.stream.wire));
            && got == w.accepted + (if landed then [w.lost.value] else [])
            && (end == CleanEof <==> w.tail == [] || landed)
            && (end == CleanEof || end == Fatal(HeaderCut) || end == Fatal(BodyCut))
  {
    if w.lost == None {
      WholeFramesDecode(w.accepted, max);
      assert w.stream.wire == EncodeAll(ContentLength.Encode, w.accepted);
      assert w.accepted + [] == w.accepted;
    } else {
      LastFrameDecodes(w.accepted, w.lost.value, |w.tail|, max);
      assert w.tail == ContentLength.Encode(w.lost.value)[..|w.tail|];
    }
  }

  lemma WholeFramesDecode(ms: seq<bytes>, max: int)
    requires ContentLength.AllWithin(ms, max) && max <= MAX_INT64
    ensures ReadAll(ContentLength.Reading(max), StripBom(EncodeAll(ContentLength.Encode, ms))) == (ms, CleanEof)
  {
    ContentLength.NoBomWritten(ms, [], 0);
    assert ContentLength.Encode([])[..0] == [];
    assert EncodeAll(ContentLength.Encode, ms) + [] == EncodeAll(ContentLength.Encode, ms);
    ContentLength.RoundTrip(ms, max);
  }

  lemma LastFrameDecodes(ms: seq<bytes>, last: bytes, k: nat, max: int)
    requires ContentLength.AllWithin(ms, max) && |last| <= max <= MAX_INT64 && k <= |ContentLength.Encode(last)|
    ensures var e := ContentLength.Encode(last);
            var stream := EncodeAll(ContentLength.Encode, ms) + e[..k];
            var (got, end) := ReadAll(ContentLength.Reading(max), StripBom(stream));
            && got == ms + (if k == |e| then [last] else [])
            && (end == CleanEof <==> k == 0 || k == |e|)
            && (end == CleanEof || end == Fatal(HeaderCut) || end == Fatal(BodyCut))
  {
    var e := ContentLength.Encode(last);
    var whole := EncodeAll(ContentLength.Encode, ms);
    ContentLength.NoBomWritten(ms, last, k);
    assert ms + [] == ms;
    if k == 0 {
      assert whole + e[..0] == whole;
      ContentLength.RoundTrip(ms, max);
    } else if k == |e| {
      assert e[..k] == e;
      EncodeSnoc(ContentLength.Encode, ms, last);
      ContentLength.RoundTrip(ms + [last], max);
    } else {
      ContentLength.TruncationDetected(ms, last, k, max);
    }
  }

  /** The first message that was to be written does not start with a byte order mark. */
  predicate NoBomFirst(accepted: seq<bytes>, lost: Option<bytes>) {
    && (accepted != [] ==> !StartsWithBom(accepted[0]))
    && (accepted == [] && lost.Some? ==> !StartsWithBom(lost.value))
  }

  lemma NothingStripped(w: Writer, max: int)
    requires w.Valid() && w.framing == Lines && NoBomFirst(w.accepted, w.lost)
    requires Ndjson.AllCarried(w.accepted, max)
    requires w.lost.Some? ==> Lacks(w.lost.value, LF)
    ensures StripBom(w.stream.wire) == w.stream.wire
  {
    var wire := w.stream.wire;
    if w.accepted != [] {
      var rest := EncodeAll(Ndjson.Encode, w.accepted[1..]) + w.tail;
      Assoc(Ndjson.Encode(w.accepted[0]), EncodeAll(Ndjson.Encode, w.accepted[1..]), w.tail);
      assert wire == Ndjson.Encode(w.accepted[0]) + rest;
      Ndjson.BomWritten(w.accepted[0], rest);
    } else if w.lost.Some? {
      assert wire == [] + w.tail == w.tail;
      TailHasNoBom(w.lost.value, w.tail);
    } else {
      assert wire == [];
    }
  }

  lemma TailHasNoBom(m: bytes, tail: bytes)
    requires tail <= Ndjson.Encode(m) && !StartsWithBom(m)
    ensures !StartsWithBom(tail)
  {
  }

  /** What a broken write of m left of it: the part of its line that landed, without its newline. */
  function Landed(m: bytes, tail: bytes): bytes {
    if tail == Ndjson.Encode(m) then m else tail
  }

  /** A line peer notices nothing. It decodes the accepted messages, then what landed of the failed one: the message
      when only its newline is missing, and otherwise a shorter one in its place, or none; and then a clean end. */
  lemma LinesPeerDecodes(w: Writer, max: int)
    requires w.Valid() && w.framing == Lines && NoBomFirst(w.accepted, w.lost)
    requires Ndjson.AllCarried(w.accepted, max)
    requires w.lost.Some? ==> Lacks(w.lost.value, LF) && Ndjson.Carried(w.lost.value, max)
    ensures var t := if w.lost == None then [] else TrimEol(Landed(w.lost.value, w.tail));
            && ReadAll(Ndjson.Reading(max), StripBom(w.stream.wire))
               == (w.accepted + (if t == [] then [] else [t]), CleanEof)
            && (w.lost.Some? ==> t <= w.lost.value && (t == w.lost.value <==> w.lost.value <= w.tail))
  {
    NothingStripped(w, max);
    if w.lost == None {
      Ndjson.CutIff(w.accepted, [], max);
      assert w.stream.wire == EncodeAll(Ndjson.Encode, w.accepted) + [];
    } else {
      LinesTail(w.accepted, w.lost.value, w.tail, max);
    }
  }

  lemma LinesTail(ms: seq<bytes>, m: bytes, tail: bytes, max: int)
    requires Ndjson.AllCarried(ms, max) && Lacks(m, LF) && Ndjson.Carried(m, max) && tail <= Ndjson.Encode(m)
    ensures var t := TrimEol(Landed(m, tail));
            && ReadAll(Ndjson.Reading(max), EncodeAll(Ndjson.Encode, ms) + tail)
               == (ms + (if t == [] then [] else [t]), CleanEof)
            && t <= m && (t == m <==> m <= tail)
  {
    var e := Ndjson.Encode(m);
    if tail == e {
      EncodeSnoc(Ndjson.Encode, ms, m);
      Ndjson.RoundTrip(ms + [m], max);
      Ndjson.PartPasses(m, |m|, max);
      assert m[..|m|] == m;
    } else {
      var k := |tail|;
      assert tail == e[..k] == m[..k];
      Ndjson.CutNeverNoticed(ms, m, k, max);
      Ndjson.PartPasses(m, k, max);
    }
  }
}
