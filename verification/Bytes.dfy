/** Byte strings, and the few operations of Go's bytes package the message path relies on. */
module Bytes {

  type byte = b: int | 0 <= b < 256

  type bytes = seq<byte>

  const TAB: byte := 9
  const LF: byte := 10
  const CR: byte := 13
  const SPACE: byte := 32
  const QUOTE: byte := 34
  const PLUS: byte := 43
  const COMMA: byte := 44
  const MINUS: byte := 45
  const COLON: byte := 58
  const LBRACKET: byte := 91
  const BACKSLASH: byte := 92
  const RBRACKET: byte := 93
  const LBRACE: byte := 123
  const RBRACE: byte := 125

  /** The four characters RFC 8259, section 2, calls whitespace. */
  predicate IsWs(b: byte) {
    b == SPACE || b == TAB || b == LF || b == CR
  }

  ghost predicate AllWs(s: bytes) {
    forall i :: 0 <= i < |s| ==> IsWs(s[i])
  }

  // ---- left folds: one scanner is one step function ----

  function Fold<S>(step: (S, byte) -> S, s: S, bs: bytes): S
    decreases |bs|
  {
    if bs == [] then s else Fold(step, step(s, bs[0]), bs[1..])
  }

  lemma {:induction false} FoldConcat<S>(step: (S, byte) -> S, s: S, a: bytes, b: bytes)
    ensures Fold(step, s, a + b) == Fold(step, Fold(step, s, a), b)
    decreases |a|
  {
    if a == [] {
      assert a + b == b;
    } else {
      assert (a + b)[0] == a[0] && (a + b)[1..] == a[1..] + b;
      FoldConcat(step, step(s, a[0]), a[1..], b);
    }
  }

  lemma FoldOne<S>(step: (S, byte) -> S, s: S, b: byte)
    ensures Fold(step, s, [b]) == step(s, b)
  {
    assert [b][1..] == [];
  }

  // ---- bytes.TrimSpace ----

  /** Length of the UTF-8 encoded white-space character (unicode.IsSpace) that starts s; 0 when there is none. */
  function SpaceAtFront(s: bytes): (n: nat)
    ensures n <= |s|
  {
    if |s| >= 1 && (9 <= s[0] <= 13 || s[0] == 32) then 1
    else if |s| >= 2 && s[0] == 0xC2 && (s[1] == 0x85 || s[1] == 0xA0) then 2
    else if |s| >= 3 && WideSpace(s[0], s[1], s[2]) then 3
    else 0
  }

  /** Length of the white-space character that ends s; 0 when there is none. */
  function SpaceAtBack(s: bytes): (n: nat)
    ensures n <= |s|
  {
    var k := |s|;
    if k >= 1 && (9 <= s[k-1] <= 13 || s[k-1] == 32) then 1
    else if k >= 2 && s[k-2] == 0xC2 && (s[k-1] == 0x85 || s[k-1] == 0xA0) then 2
    else if k >= 3 && WideSpace(s[k-3], s[k-2], s[k-1]) then 3
    else 0
  }

  /** The three-byte encodings: U+1680, U+2000..U+200A, U+2028, U+2029, U+202F, U+205F, U+3000. */
  predicate WideSpace(a: byte, b: byte, c: byte) {
    || (a == 0xE1 && b == 0x9A && c == 0x80)
    || (a == 0xE2 && b == 0x80 && (0x80 <= c <= 0x8A || c == 0xA8 || c == 0xA9 || c == 0xAF))
    || (a == 0xE2 && b == 0x81 && c == 0x9F)
    || (a == 0xE3 && b == 0x80 && c == 0x80)
  }

  function TrimLeft(s: bytes): bytes
    decreases |s|
  {
    var n := SpaceAtFront(s);
    if n == 0 then s else TrimLeft(s[n..])
  }

  function TrimRight(s: bytes): bytes
    decreases |s|
  {
    var n := SpaceAtBack(s);
    if n == 0 then s else TrimRight(s[..|s| - n])
  }

  function TrimSpace(s: bytes): bytes {
    TrimRight(TrimLeft(s))
  }

  predicate Visible(b: byte) {
    33 <= b <= 126
  }

  lemma {:induction false} TrimLeftWs(ws: bytes, t: bytes)
    requires AllWs(ws)
    requires t != [] ==> Visible(t[0])
    ensures TrimLeft(ws + t) == t
    decreases |ws|
  {
    if ws == [] {
      assert ws + t == t;
    } else {
      var s := ws + t;
      assert s[0] == ws[0];
      assert SpaceAtFront(s) == 1;
      assert s[1..] == ws[1..] + t;
      TrimLeftWs(ws[1..], t);
    }
  }

  lemma {:induction false} TrimRightWs(t: bytes, ws: bytes)
    requires AllWs(ws)
    requires t != [] ==> Visible(t[|t| - 1])
    ensures TrimRight(t + ws) == t
    decreases |ws|
  {
    if ws == [] {
      assert t + ws == t;
    } else {
      var s := t + ws;
      assert s[|s| - 1] == ws[|ws| - 1];
      assert SpaceAtBack(s) == 1;
      assert s[..|s| - 1] == t + ws[..|ws| - 1];
      TrimRightWs(t, ws[..|ws| - 1]);
    }
  }

  /** TrimSpace peels exactly the JSON whitespace around a text that starts and ends with visible characters. */
  lemma TrimSpaceWs(pre: bytes, t: bytes, post: bytes)
    requires AllWs(pre) && AllWs(post)
    requires t != [] && Visible(t[0]) && Visible(t[|t| - 1])
    ensures TrimSpace(pre + t + post) == t
  {
    assert pre + t + post == pre + (t + post);
    TrimLeftWs(pre, t + post);
    TrimRightWs(t, post);
  }

  // ---- ASCII text and case folding ----

  /** The bytes of an ASCII string literal. */
  function Ascii(s: string): (r: bytes)
    ensures |r| == |s|
  {
    seq(|s|, i requires 0 <= i < |s| => if s[i] < 128 as char then s[i] as int else 63)
  }

  lemma AsciiConcat(a: string, b: string)
    ensures Ascii(a + b) == Ascii(a) + Ascii(b)
  {
  }

  lemma Concat(a: string, b: string, whole: string)
    requires a + b == whole
    ensures Ascii(a) + Ascii(b) == Ascii(whole)
  {
    AsciiConcat(a, b);
  }

  /** The JSON text of null. */
  function Null(): bytes { Ascii("null") }

  lemma NullBytes()
    ensures Null() == [110, 117, 108, 108]
  {
    assert "null"[0] == 'n' && "null"[1] == 'u' && "null"[2] == 'l' && "null"[3] == 'l';
  }

  lemma EmptyString()
    ensures Ascii("\"\"") == [QUOTE, QUOTE]
  {
    assert "\"\""[0] == '"' && "\"\""[1] == '"';
  }

  function Lower(b: byte): byte {
    if 65 <= b <= 90 then b + 32 else b
  }

  /** bytes.EqualFold against an ASCII word without k or s: Unicode folding adds nothing there. */
  predicate EqualFold(a: bytes, b: bytes) {
    |a| == |b| && forall i :: 0 <= i < |a| ==> Lower(a[i]) == Lower(b[i])
  }

  /** bytes.IndexByte, with |s| standing for "not found". */
  function IndexOf(s: bytes, b: byte): (i: nat)
    ensures i <= |s|
    ensures i < |s| ==> s[i] == b
    ensures forall j :: 0 <= j < i ==> s[j] != b
  {
    IndexFrom(s, b, 0)
  }

  function IndexFrom(s: bytes, b: byte, start: nat): (i: nat)
    requires start <= |s|
    ensures start <= i <= |s|
    ensures i < |s| ==> s[i] == b
    ensures forall j :: start <= j < i ==> s[j] != b
    decreases |s| - start
  {
    if start == |s| || s[start] == b then start else IndexFrom(s, b, start + 1)
  }

  /** b does not occur in s. */
  predicate Lacks(s: bytes, b: byte) {
    forall i :: 0 <= i < |s| ==> s[i] != b
  }

  lemma IndexOfAt(s: bytes, b: byte, i: nat)
    requires i < |s| && s[i] == b
    requires forall j :: 0 <= j < i ==> s[j] != b
    ensures IndexOf(s, b) == i
  {
  }

  /** The first b of lead + [b] + rest, when lead has none. */
  lemma IndexOfAfter(lead: bytes, b: byte, rest: bytes)
    requires Lacks(lead, b)
    ensures IndexOf(lead + [b] + rest, b) == |lead|
  {
    var s := lead + [b] + rest;
    forall j | 0 <= j < |lead| ensures s[j] != b { assert s[j] == lead[j]; }
    IndexOfAt(s, b, |lead|);
  }

  lemma IndexOfNone(s: bytes, b: byte)
    requires Lacks(s, b)
    ensures IndexOf(s, b) == |s|
  {
  }

  lemma LacksConcat(s: bytes, t: bytes, b: byte)
    ensures Lacks(s + t, b) <==> Lacks(s, b) && Lacks(t, b)
  {
    if Lacks(s + t, b) {
      forall i | 0 <= i < |s| ensures s[i] != b { assert (s + t)[i] == s[i]; }
      forall i | 0 <= i < |t| ensures t[i] != b { assert (s + t)[|s| + i] == t[i]; }
    }
  }
}
