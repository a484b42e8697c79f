/** The JSON texts of RFC 8259 (sections 2 to 7) as syntax trees that keep every insignificant
    whitespace byte, and the function that writes a tree back as bytes. */
module JsonGrammar {
  import opened Bytes
  import opened Decimal

  /** One char of section 7: unescaped, a two-byte escape, or \u and four hex digits.
      Bytes of multi-byte UTF-8 characters count as unescaped. */
  datatype Char =
    | Unescaped(b: byte)
    | Escape(b: byte)
    | Unicode(hex: bytes)

  predicate IsHex(b: byte) {
    IsDigit(b) || 65 <= b <= 70 || 97 <= b <= 102
  }

  predicate ValidChar(c: Char) {
    match c
    case Unescaped(b) => b >= 0x20 && b != QUOTE && b != BACKSLASH
    case Escape(b) => b in Ascii("\"\\/bfnrt")
    case Unicode(h) => |h| == 4 && forall i :: 0 <= i < 4 ==> IsHex(h[i])
  }

  ghost predicate ValidChars(cs: seq<Char>) {
    forall i :: 0 <= i < |cs| ==> ValidChar(cs[i])
  }

  function RenderChar(c: Char): bytes {
    match c
    case Unescaped(b) => [b]
    case Escape(b) => [BACKSLASH, b]
    case Unicode(h) => [BACKSLASH, 117] + h
  }

  function RenderChars(cs: seq<Char>): bytes
    decreases |cs|
  {
    if cs == [] then [] else RenderChar(cs[0]) + RenderChars(cs[1..])
  }

  // ---- numbers, section 6 ----

  /** Where the run of digits that starts at i ends. */
  function SkipDigits(s: bytes, i: nat): (j: nat)
    requires i <= |s|
    ensures i <= j <= |s|
    ensures forall k :: i <= k < j ==> IsDigit(s[k])
    decreases |s| - i
  {
    if i < |s| && IsDigit(s[i]) then SkipDigits(s, i + 1) else i
  }

  predicate IsExponent(s: bytes) {
    || s == []
    || (&& (s[0] == 69 || s[0] == 101)
        && var i := if |s| > 1 && (s[1] == PLUS || s[1] == MINUS) then 2 else 1;
        i < |s| && SkipDigits(s, i) == |s|)
  }

  predicate IsFraction(s: bytes) {
    if s != [] && s[0] == 46 then
      var j := SkipDigits(s, 1);
      j > 1 && IsExponent(s[j..])
    else IsExponent(s)
  }

  predicate IsNumber(s: bytes) {
    var t := if s != [] && s[0] == MINUS then s[1..] else s;
    && t != []
    && IsDigit(t[0])
    && var j := if t[0] == 48 then 1 else SkipDigits(t, 0);
    IsFraction(t[j..])
  }

  /** A literal name or a number. */
  predicate IsAtom(s: bytes) {
    s == Ascii("true") || s == Ascii("false") || s == Ascii("null") || IsNumber(s)
  }

  // ---- values ----

  datatype Value =
    | Str(chars: seq<Char>)
    | Atom(text: bytes)
    | EmptyArr(ws: bytes)
    | Arr(elems: Elems)
    | EmptyObj(ws: bytes)
    | Obj(members: Members)

  /** Array elements, each with the whitespace before and after it. */
  datatype Elems =
    | LastElem(pre: bytes, v: Value, post: bytes)
    | MoreElems(pre: bytes, v: Value, post: bytes, rest: Elems)

  /** Object members: ws key ws : ws value ws. */
  datatype Members =
    | LastMember(m: Member)
    | MoreMembers(m: Member, rest: Members)

  datatype Member = Member(pre: bytes, key: seq<Char>, mid: bytes, mid2: bytes, v: Value, post: bytes)

  ghost predicate Valid(v: Value) {
    match v
    case Str(cs) => ValidChars(cs)
    case Atom(t) => IsAtom(t)
    case EmptyArr(ws) => AllWs(ws)
    case Arr(es) => ValidElems(es)
    case EmptyObj(ws) => AllWs(ws)
    case Obj(ms) => ValidMembers(ms)
  }

  ghost predicate ValidElems(es: Elems) {
    && AllWs(es.pre) && Valid(es.v) && AllWs(es.post)
    && (es.MoreElems? ==> ValidElems(es.rest))
  }

  ghost predicate ValidMembers(ms: Members) {
    && AllWs(ms.m.pre) && ValidChars(ms.m.key) && AllWs(ms.m.mid)
    && AllWs(ms.m.mid2) && Valid(ms.m.v) && AllWs(ms.m.post)
    && (ms.MoreMembers? ==> ValidMembers(ms.rest))
  }

  function RenderStr(cs: seq<Char>): bytes {
    [QUOTE] + RenderChars(cs) + [QUOTE]
  }

  function Render(v: Value): bytes
    decreases v, 0
  {
    match v
    case Str(cs) => RenderStr(cs)
    case Atom(t) => t
    case EmptyArr(ws) => [LBRACKET] + ws + [RBRACKET]
    case Arr(es) => [LBRACKET] + RenderElems(es) + [RBRACKET]
    case EmptyObj(ws) => [LBRACE] + ws + [RBRACE]
    case Obj(ms) => [LBRACE] + RenderMembers(ms) + [RBRACE]
  }

  /** A value between two runs of whitespace. */
  function Padded(pre: bytes, v: Value, post: bytes): bytes
    decreases v, 1
  {
    pre + (Render(v) + post)
  }

  function RenderElems(es: Elems): bytes
    decreases es, 2
  {
    Padded(es.pre, es.v, es.post) + if es.MoreElems? then [COMMA] + RenderElems(es.rest) else []
  }

  function RenderMember(m: Member): bytes
    decreases m, 2
  {
    m.pre + (RenderStr(m.key) + (m.mid + ([COLON] + Padded(m.mid2, m.v, m.post))))
  }

  function RenderMembers(ms: Members): bytes
    decreases ms, 2
  {
    RenderMember(ms.m) + if ms.MoreMembers? then [COMMA] + RenderMembers(ms.rest) else []
  }

  // ---- nesting ----

  function Max(a: nat, b: nat): nat { if a < b then b else a }

  /** How deep arrays and objects nest; 0 for a scalar. */
  function Depth(v: Value): nat {
    match v
    case Arr(es) => 1 + ElemsDepth(es)
    case Obj(ms) => 1 + MembersDepth(ms)
    case EmptyArr(_) => 1
    case EmptyObj(_) => 1
    case _ => 0
  }

  function ElemsDepth(es: Elems): nat {
    if es.MoreElems? then Max(Depth(es.v), ElemsDepth(es.rest)) else Depth(es.v)
  }

  function MembersDepth(ms: Members): nat {
    if ms.MoreMembers? then Max(Depth(ms.m.v), MembersDepth(ms.rest)) else Depth(ms.m.v)
  }

  // ---- facts about the texts ----

  /** A byte that is neither whitespace nor has a meaning of its own outside strings. */
  predicate Inert(b: byte) {
    && Visible(b) && b != QUOTE && b != COMMA && b != COLON && b != BACKSLASH
    && b != LBRACKET && b != RBRACKET && b != LBRACE && b != RBRACE
  }

  ghost predicate AllInert(s: bytes) {
    forall i :: 0 <= i < |s| ==> Inert(s[i])
  }

  lemma ExponentInert(s: bytes)
    requires IsExponent(s)
    ensures AllInert(s)
  {
    if s != [] {
      var i := if |s| > 1 && (s[1] == PLUS || s[1] == MINUS) then 2 else 1;
      var j := SkipDigits(s, i);
    }
  }

  lemma FractionInert(s: bytes)
    requires IsFraction(s)
    ensures AllInert(s)
  {
    if s != [] && s[0] == 46 {
      var j := SkipDigits(s, 1);
      ExponentInert(s[j..]);
      assert s == s[..j] + s[j..];
    } else {
      ExponentInert(s);
    }
  }

  lemma AtomInert(s: bytes)
    requires IsAtom(s)
    ensures s != [] && AllInert(s)
  {
    if IsNumber(s) {
      var t := if s[0] == MINUS then s[1..] else s;
      var j := if t[0] == 48 then 1 else SkipDigits(t, 0);
      FractionInert(t[j..]);
      assert t == t[..j] + t[j..];
      assert s[0] == MINUS ==> s == [MINUS] + t;
    }
  }

  lemma RenderEnds(v: Value)
    requires Valid(v)
    ensures Render(v) != [] && Visible(Render(v)[0]) && Visible(Render(v)[|Render(v)| - 1])
  {
    if v.Atom? { AtomInert(v.text); }
  }
}
