/** jsonrpcstdio/framing.go: what both stdio framings share. */
module Framing {
  import opened Bytes
  import opened BufReader

  /** How one ReadFrame ends: a message, a clean end of stream at a frame boundary, or a fatal error. */
  datatype Outcome =
    | Frame(body: bytes)
    | CleanEof
    | Fatal(why: Why)

  datatype Why =
    | WrongFraming   // the peer speaks the other framing
    | HeaderCut      // the stream ended, or the reader buffer filled up, inside a header line
    | HeaderTooBig
    | BadHeader      // a header line without a colon
    | NoLength
    | TwoLengths
    | BadLength
    | Oversize
    | BodyCut        // the stream ended inside the body
    | ReadFailed     // an I/O error of the underlying stream

  /** trimEOL: one trailing newline, then one carriage return before it. */
  function TrimEol(b: bytes): bytes {
    var c := if b != [] && b[|b| - 1] == LF then b[..|b| - 1] else b;
    if c != [] && c[|c| - 1] == CR then c[..|c| - 1] else c
  }

  // ---- whole streams ----

  /** Reading until something other than a message comes back. */
  function ReadAll(readOne: bytes -> (Outcome, bytes), p: bytes): (seq<bytes>, Outcome)
    decreases |p|
  {
    var (o, rest) := readOne(p);
    if o.Frame? && |rest| < |p| then
      var (ms, end) := ReadAll(readOne, rest);
      ([o.body] + ms, end)
    else ([], o)
  }

  /** What is read in all, ms having been read already. */
  function Onto(ms: seq<bytes>, more: (seq<bytes>, Outcome)): (seq<bytes>, Outcome) {
    (ms + more.0, more.1)
  }

  lemma OntoNothing(more: (seq<bytes>, Outcome))
    ensures Onto([], more) == more
  {
    assert [] + more.0 == more.0;
  }

  /** One more frame, or the end. */
  lemma OntoStep(readOne: bytes -> (Outcome, bytes), ms: seq<bytes>, p: bytes, o: Outcome, rest: bytes)
    requires readOne(p).0 == o && (o.Frame? ==> readOne(p).1 == rest && |rest| < |p|)
    ensures Onto(ms, ReadAll(readOne, p)) == if o.Frame? then Onto(ms + [o.body], ReadAll(readOne, rest)) else (ms, o)
  {
    if o.Frame? {
      var more := ReadAll(readOne, rest);
      assert ms + ([o.body] + more.0) == (ms + [o.body]) + more.0;
    } else {
      assert ms + [] == ms;
    }
  }

  function EncodeAll(encode: bytes -> bytes, ms: seq<bytes>): bytes
    decreases |ms|
  {
    if ms == [] then [] else encode(ms[0]) + EncodeAll(encode, ms[1..])
  }

  lemma Assoc(a: bytes, b: bytes, c: bytes)
    ensures a + (b + c) == (a + b) + c
  {
  }

  lemma {:induction false} EncodeSnoc(encode: bytes -> bytes, ms: seq<bytes>, m: bytes)
    ensures EncodeAll(encode, ms + [m]) == EncodeAll(encode, ms) + encode(m)
    decreases |ms|
  {
    var all := ms + [m];
    if ms == [] {
      assert all == [m] && all[1..] == [];
      assert encode(m) + [] == [] + encode(m);
    } else {
      assert all[0] == ms[0] && all[1..] == ms[1..] + [m];
      EncodeSnoc(encode, ms[1..], m);
      Assoc(encode(ms[0]), EncodeAll(encode, ms[1..]), encode(m));
    }
  }

  /** Reading one frame at a time undoes encoding, whatever follows the frame. */
  ghost predicate ReadsBack(readOne: bytes -> (Outcome, bytes), encode: bytes -> bytes, m: bytes) {
    encode(m) != [] && forall rest :: readOne(encode(m) + rest) == (Frame(m), rest)
  }

  lemma FirstReadsBack(readOne: bytes -> (Outcome, bytes), encode: bytes -> bytes, m: bytes, later: bytes)
    requires ReadsBack(readOne, encode, m)
    ensures ReadAll(readOne, encode(m) + later) == Onto([m], ReadAll(readOne, later))
  {
    assert readOne(encode(m) + later) == (Frame(m), later);
  }

  lemma OntoMore(ms: seq<bytes>, more: (seq<bytes>, Outcome))
    requires ms != []
    ensures Onto([ms[0]], Onto(ms[1..], more)) == Onto(ms, more)
  {
    assert [ms[0]] + (ms[1..] + more.0) == ms + more.0;
  }

  /** A stream of encoded messages reads as those messages, then as whatever follows them. */
  lemma {:induction false} StreamReadsBack(readOne: bytes -> (Outcome, bytes), encode: bytes -> bytes,
                                           ms: seq<bytes>, tail: bytes)
    requires forall i :: 0 <= i < |ms| ==> ReadsBack(readOne, encode, ms[i])
    ensures ReadAll(readOne, EncodeAll(encode, ms) + tail) == Onto(ms, ReadAll(readOne, tail))
    decreases |ms|
  {
    var more := ReadAll(readOne, tail);
    if ms == [] {
      assert [] + tail == tail;
      OntoNothing(more);
    } else {
      var rest := EncodeAll(encode, ms[1..]);
      Assoc(encode(ms[0]), rest, tail);
      FirstReadsBack(readOne, encode, ms[0], rest + tail);
      StreamReadsBack(readOne, encode, ms[1..], tail);
      OntoMore(ms, more);
    }
  }

  predicate StartsWithBom(p: bytes) {
    |p| >= 3 && p[0] == 0xEF && p[1] == 0xBB && p[2] == 0xBF
  }

  function StripBom(p: bytes): bytes {
    if StartsWithBom(p) then p[3..] else p
  }

  /** The mark is the three bytes EF BB BF, and only at the very front. */
  lemma BomIs(p: bytes, q: bytes)
    ensures StripBom([239, 187, 191] + p) == p
    ensures StripBom(q) == q || q == [239, 187, 191] + StripBom(q)
    ensures |q| < 3 || q[..3] != [239, 187, 191] ==> StripBom(q) == q
  {
    if StartsWithBom(q) {
      assert q[..3] == [239, 187, 191];
      assert q == q[..3] + q[3..];
    }
  }

  /** The read half of framerBase. */
  class FramerBase {
    const r: Reader
    const maxSize: int
    var started: bool

    ghost predicate Valid()
      reads this, r
    {
      r.Valid() && maxSize >= 0
    }

    /** What is left to read, a byte order mark at the very start already discounted. */
    ghost function Stream(): bytes
      reads this, r
    {
      if started then r.Pending() else StripBom(r.Pending())
    }

    constructor (r: Reader, maxSize: int)
      requires r.Valid() && maxSize >= 0
      ensures Valid() && this.r == r && this.maxSize == maxSize && !started
    {
      this.r, this.maxSize, started := r, maxSize, false;
    }

    /** begin: drops a byte order mark once, before the first read. */
    method Begin()
      requires Valid()
      modifies this, r
      ensures Valid() && started
      ensures !r.mayFail ==> r.Pending() == old(Stream())
      ensures r.Pending() == old(r.Pending()) || r.Pending() == old(Stream())
    {
      if started { return; }
      started := true;
      var p, e := r.Peek(3);
      if e == NoErr && p[0] == 0xEF && p[1] == 0xBB && p[2] == 0xBF {
        r.Discard(3);
      }
    }
  }
}
