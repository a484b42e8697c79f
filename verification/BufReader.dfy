/** bufio.Reader over a stream that arrives in pieces of the peer's choosing. */
module BufReader {
  import opened Bytes

  datatype ReadErr = NoErr | Eof | BufferFull | Failed

  /** readerBufferSize, framing.go. */
  const BUFFER_SIZE: nat := 32768

  /** buf holds the bytes received and not yet consumed, src those still to arrive before the peer closes.
      What each read delivers, and whether end of stream is reported along with the last bytes or only
      after them, is left open; a stream with mayFail may also break off with an I/O error at any read. */
  class Reader {
    var buf: bytes
    var src: bytes
    var err: ReadErr
    const mayFail: bool

    ghost predicate Valid()
      reads this
    {
      && |buf| <= BUFFER_SIZE
      && err != BufferFull
      && (err == Eof ==> src == [])
      && (err == Failed ==> mayFail)
    }

    /** Every byte still to be consumed, wherever it is. */
    ghost function Pending(): bytes
      reads this
    {
      buf + src
    }

    constructor (stream: bytes, mayFail: bool)
      ensures Valid() && Pending() == stream && this.mayFail == mayFail
    {
      buf, src, err := [], stream, NoErr;
      this.mayFail := mayFail;
    }

    method Fill()
      requires Valid() && err == NoErr && |buf| < BUFFER_SIZE
      modifies this
      ensures Valid() && Pending() == old(Pending())
      ensures |buf| >= old(|buf|) && (err == NoErr ==> |src| < old(|src|))
    {
      var fails, ends: bool := *, *;
      var least := if src == [] || (mayFail && fails) then 0 else 1;
      var most := if |src| <= BUFFER_SIZE - |buf| then |src| else BUFFER_SIZE - |buf|;
      assert least <= most;
      var n :| least <= n <= most;
      assert buf + src == (buf + src[..n]) + src[n..];
      buf, src := buf + src[..n], src[n..];
      if mayFail && fails {
        err := Failed;
      } else if src == [] && (n == 0 || ends) {
        err := Eof;
      }
    }

    /** Reads up to and including the next newline. */
    method ReadSlice() returns (line: bytes, e: ReadErr)
      requires Valid()
      modifies this
      ensures Valid()
      ensures old(Pending()) == line + Pending()
      ensures e == NoErr ==> |line| == IndexOf(old(Pending()), LF) + 1 <= BUFFER_SIZE
      ensures e == BufferFull ==> |line| == BUFFER_SIZE
      ensures e == Eof ==> Pending() == [] && |line| <= BUFFER_SIZE
      ensures e != NoErr ==> Lacks(line, LF)
      ensures e == Failed ==> mayFail
    {
      while true
        invariant Valid() && Pending() == old(Pending())
        decreases |src|, err == NoErr
      {
        var i := IndexOf(buf, LF);
        if i < |buf| {
          assert Pending()[i] == LF && forall j :: 0 <= j < i ==> Pending()[j] != LF;
          IndexOfAt(Pending(), LF, i);
          line, buf := buf[..i + 1], buf[i + 1..];
          return line, NoErr;
        }
        if err != NoErr {
          line, buf := buf, [];
          e, err := err, NoErr;
          return;
        }
        if |buf| >= BUFFER_SIZE {
          line, buf := buf, [];
          return line, BufferFull;
        }
        Fill();
      }
    }

    /** Looks at the next n bytes without consuming them. */
    method Peek(n: nat) returns (p: bytes, e: ReadErr)
      requires Valid() && n <= BUFFER_SIZE
      modifies this
      ensures Valid() && Pending() == old(Pending())
      ensures e == NoErr ==> |Pending()| >= n && p == Pending()[..n] && n <= |buf|
      ensures e == Eof ==> |Pending()| < n
      ensures e == Failed ==> mayFail
      ensures e != BufferFull
    {
      while |buf| < n && err == NoErr
        invariant Valid() && Pending() == old(Pending())
        decreases |src|, err == NoErr
      {
        Fill();
      }
      if |buf| >= n {
        assert buf[..n] == Pending()[..n];
        return buf[..n], NoErr;
      }
      p, e, err := buf, err, NoErr;
    }

    method Discard(n: nat)
      requires Valid() && n <= |buf|
      modifies this
      ensures Valid() && Pending() == old(Pending())[n..]
    {
      buf := buf[n..];
    }

    /** io.ReadFull. A read that bypasses the buffer differs only in where its chunk lands. */
    method ReadFull(n: nat) returns (body: bytes, e: ReadErr)
      requires Valid()
      modifies this
      ensures Valid()
      ensures e == NoErr ==> |body| == n && old(Pending()) == body + Pending()
      ensures e == Eof ==> |old(Pending())| < n && Pending() == []
      ensures e == Failed ==> mayFail
      ensures e != BufferFull
    {
      body := [];
      while |body| < n
        invariant Valid() && |body| <= n && old(Pending()) == body + Pending()
        decreases |src|, err == NoErr, |buf|
      {
        if buf != [] {
          var k := if |buf| <= n - |body| then |buf| else n - |body|;
          assert body + (buf + src) == (body + buf[..k]) + (buf[k..] + src);
          body, buf := body + buf[..k], buf[k..];
        } else if err != NoErr {
          e, err := err, NoErr;
          return;
        } else {
          Fill();
        }
      }
      e := NoErr;
    }
  }
}
