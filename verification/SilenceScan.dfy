/** handle.go, lacksResponseID: may a rejected payload go unanswered because it carries no id? */
module SilenceScan {
  import opened Bytes
  import opened JsonGrammar

  // ---- the automaton ----

  datatype Mode =
    | Plain
    | InString(escaped: bool)
    | InKey(escaped: bool, sawEscape: bool, matched: nat)

  /** keyDepth is where the keys of a request object sit: 1 for a single request, 2 inside a batch.
      keyPos says whether a string at keyDepth is a key; it only means something at that depth or below it. */
  datatype State =
    | Rejected
    | Scan(keyDepth: nat, depth: nat, mode: Mode, keyPos: bool, sawElement: bool, closed: bool)

  /** The two bytes of the word id. */
  predicate IsId(k: bytes) {
    |k| == 2 && k[0] == 105 && k[1] == 100
  }

  /** How much of the word id a key has spelled so far: 0, 1 or 2 bytes of it, or 3 once it is something else. */
  function NextMatch(m: nat, b: byte): nat {
    if m == 0 && b == 105 then 1 else if m == 1 && b == 100 then 2 else 3
  }

  function Step(s: State, b: byte): State {
    if s.Rejected? then s
    else match s.mode
      case Plain => if s.closed then Rejected else PlainStep(s, b)
      case InString(escaped) => StringStep(s, escaped, b)
      case InKey(escaped, saw, m) => KeyStep(s, escaped, saw, m, b)
  }

  function StringStep(s: State, escaped: bool, b: byte): State
    requires s.Scan?
  {
    if escaped then s.(mode := InString(false))
    else if b == BACKSLASH then s.(mode := InString(true))
    else if b == QUOTE then s.(mode := Plain)
    else s.(mode := InString(false))
  }

  function KeyStep(s: State, escaped: bool, saw: bool, m: nat, b: byte): State
    requires s.Scan?
  {
    if !escaped && b == QUOTE then if saw || m == 2 then Rejected else s.(mode := Plain)
    else
      var starts := !escaped && b == BACKSLASH;
      s.(mode := InKey(starts, saw || starts, NextMatch(m, b)))
  }

  function PlainStep(s: State, b: byte): State
    requires s.Scan? && s.mode == Plain
  {
    if b == QUOTE then
      s.(mode := if s.depth == s.keyDepth && s.keyPos then InKey(false, false, 0) else InString(false))
    else if b == LBRACE then
      if s.depth + 1 == s.keyDepth then s.(depth := s.depth + 1, keyPos := true, sawElement := true)
      else s.(depth := s.depth + 1)
    else if b == LBRACKET then
      if s.keyDepth == 2 && s.depth == 1 then Rejected else s.(depth := s.depth + 1)
    else if b == RBRACE || b == RBRACKET then
      if s.depth == 0 then Rejected
      else s.(depth := s.depth - 1, closed := s.depth == 1, keyPos := s.keyPos && s.keyDepth <= s.depth - 1)
    else if b == COLON then
      if s.depth == s.keyDepth then s.(keyPos := false) else s
    else if b == COMMA then
      if s.depth == s.keyDepth then s.(keyPos := true) else s
    else if IsWs(b) then s
    else if s.keyDepth == 2 && s.depth == 1 then Rejected
    else s
  }

  function Run(s: State, bs: bytes): State {
    Fold(Step, s, bs)
  }

  function Start(keyDepth: nat): State {
    Scan(keyDepth, 0, Plain, false, false, false)
  }

  function Accepts(s: State): bool {
    s.Scan? && s.closed && s.mode == Plain && (s.keyDepth == 1 || s.sawElement)
  }

  /** What the scan answers on a payload already stripped of surrounding white space. */
  function Verdict(data: bytes): bool {
    if |data| < 2 then false
    else if data[0] == LBRACE then Accepts(Run(Start(1), data))
    else if data[0] == LBRACKET then Accepts(Run(Start(2), data))
    else false
  }

  lemma {:induction false} RejectedForGood(bs: bytes)
    ensures Run(Rejected, bs) == Rejected
    decreases |bs|
  {
    if bs != [] { RejectedForGood(bs[1..]); }
  }

  /** One turn of the loop; once the automaton rejects, the rest of the payload is irrelevant. */
  lemma RunStep(s: State, data: bytes, i: nat)
    requires i < |data|
    ensures Run(s, data[i..]) == Run(Step(s, data[i]), data[i + 1..])
    ensures Run(Rejected, data[i + 1..]) == Rejected
  {
    assert data[i..][1..] == data[i + 1..];
    RejectedForGood(data[i + 1..]);
  }

  lemma RunDone(s: State)
    ensures Run(s, []) == s
  {
  }

  // ---- the loop ----

  /** How much of the word id data[lo..hi] spells. */
  function Spelled(data: bytes, lo: nat, hi: nat): nat
    requires lo <= hi <= |data|
    decreases hi
  {
    if hi == lo then 0 else NextMatch(Spelled(data, lo, hi - 1), data[hi - 1])
  }

  lemma {:induction false} SpelledIsId(data: bytes, lo: nat, hi: nat)
    requires lo <= hi <= |data|
    ensures Spelled(data, lo, hi) == 0 <==> lo == hi
    ensures Spelled(data, lo, hi) == 1 <==> hi == lo + 1 && data[lo] == 105
    ensures Spelled(data, lo, hi) == 2 <==> IsId(data[lo..hi])
    decreases hi
  {
    if lo < hi { SpelledIsId(data, lo, hi - 1); }
  }

  /** How the structural locals of the loop stand for an automaton state. */
  ghost predicate Stands(s: State, kd: nat, depth: nat, keyPos: bool, saw: bool, closed: bool) {
    && s.Scan? && s.keyDepth == kd && s.depth == depth && s.keyPos == (keyPos && kd <= depth)
    && s.sawElement == saw && s.closed == closed
  }

  /** The mode the string flags of the loop stand for. */
  function ModeOf(inString: bool, escaped: bool, inKey: bool, keyEscaped: bool, matched: nat): Mode {
    if !inString then Plain else if inKey then InKey(escaped, keyEscaped, matched) else InString(escaped)
  }

  /** The loop body outside strings; ok is false where the source returns false. */
  method OutsideString(b: byte, keyDepth: nat, depth0: nat, keyPos0: bool, saw0: bool, ghost s: State)
    returns (ok: bool, depth: nat, keyPos: bool, sawElement: bool, closed: bool, inString: bool, inKey: bool)
    requires Stands(s, keyDepth, depth0, keyPos0, saw0, false) && s.mode == Plain
    requires keyDepth == 1 || keyDepth == 2
    requires depth0 == 0 ==> (b == LBRACE && keyDepth == 1) || (b == LBRACKET && keyDepth == 2)
    ensures !ok ==> Step(s, b) == Rejected
    ensures ok ==> Stands(Step(s, b), keyDepth, depth, keyPos, sawElement, closed)
    ensures ok ==> Step(s, b).mode == ModeOf(inString, false, inKey, false, 0)
    ensures ok ==> (depth > 0 || closed) && (inKey ==> inString)
  {
    ok, depth, keyPos, sawElement, closed, inString, inKey := true, depth0, keyPos0, saw0, false, false, false;
    if b == QUOTE {
      inString := true;
      if depth == keyDepth && keyPos { inKey := true; }
    } else if b == LBRACE {
      depth := depth + 1;
      if depth == keyDepth {
        keyPos := true;
        sawElement := true;
      }
    } else if b == LBRACKET {
      if keyDepth == 2 && depth == 1 { ok := false; return; }
      depth := depth + 1;
    } else if b == RBRACE || b == RBRACKET {
      if depth == 0 { ok := false; return; }
      depth := depth - 1;
      if depth == 0 { closed := true; }
    } else if b == COLON {
      if depth == keyDepth { keyPos := false; }
    } else if b == COMMA {
      if depth == keyDepth { keyPos := true; }
    } else if IsWs(b) {
    } else {
      if keyDepth == 2 && depth == 1 { ok := false; return; }
    }
  }

  /** The loop body inside a string; ok is false where the source returns false. */
  method InsideString(data: bytes, i: nat, keyStart: nat, escaped0: bool, inKey0: bool, keyEscaped0: bool,
                      ghost s: State)
    returns (ok: bool, inString: bool, escaped: bool, inKey: bool, keyEscaped: bool)
    requires i < |data| && s.Scan? && (inKey0 ==> keyStart <= i)
    requires s.mode == ModeOf(true, escaped0, inKey0, keyEscaped0, if inKey0 then Spelled(data, keyStart, i) else 0)
    ensures inKey ==> inKey0
    ensures !ok ==> Step(s, data[i]) == Rejected
    ensures ok ==> Step(s, data[i]) == s.(mode := ModeOf(inString, escaped, inKey, keyEscaped,
                                                          if inKey then Spelled(data, keyStart, i + 1) else 0))
    ensures !inString ==> !inKey && !escaped
  {
    var b := data[i];
    ok, inString, escaped, inKey, keyEscaped := true, true, escaped0, inKey0, keyEscaped0;
    if escaped {
      escaped := false;
    } else if b == BACKSLASH {
      escaped := true;
      keyEscaped := true;
    } else if b == QUOTE {
      inString := false;
      if inKey {
        inKey := false;
        SpelledIsId(data, keyStart, i);
        if keyEscaped || IsId(data[keyStart..i]) { ok := false; }
      }
    }
  }

  method LacksResponseID(payload: bytes) returns (silent: bool)
    ensures silent == Verdict(TrimSpace(payload))
  {
    var data := TrimSpace(payload);
    if |data| < 2 { return false; }
    var keyDepth: nat;
    if data[0] == LBRACE { keyDepth := 1; }
    else if data[0] == LBRACKET { keyDepth := 2; }
    else { return false; }

    var depth: nat := 0;
    var inString, escaped, keyPos, inKey, keyEscaped := false, false, false, false, false;
    var keyStart: nat := 0;
    var sawElement, closed := false, false;
    ghost var s := Start(keyDepth);
    assert data[0..] == data;
    var i := 0;
    while i < |data|
      invariant 0 <= i <= |data|
      invariant data[0] == if keyDepth == 1 then LBRACE else LBRACKET
      invariant keyDepth == 1 || keyDepth == 2
      invariant if i == 0 then !inString && !closed else depth > 0 || closed
      invariant !inString ==> !inKey && !escaped
      invariant inKey ==> keyStart <= i
      invariant Stands(s, keyDepth, depth, keyPos, sawElement, closed)
      invariant s.mode == ModeOf(inString, escaped, inKey, keyEscaped, if inKey then Spelled(data, keyStart, i) else 0)
      invariant Run(s, data[i..]) == Run(Start(keyDepth), data)
    {
      RunStep(s, data, i);
      var ok;
      if inString {
        ok, inString, escaped, inKey, keyEscaped :=
          InsideString(data, i, keyStart, escaped, inKey, keyEscaped, s);
        if !ok { return false; }
      } else if closed {
        return false;
      } else {
        ok, depth, keyPos, sawElement, closed, inString, inKey :=
          OutsideString(data[i], keyDepth, depth, keyPos, sawElement, s);
        if !ok { return false; }
        if inKey { keyStart, keyEscaped := i + 1, false; }
      }
      s := Step(s, data[i]);
      i := i + 1;
    }
    assert data[i..] == [];
    RunDone(s);
    return closed && !inString && (keyDepth == 1 || sawElement);
  }

  // ---- what the verdict should mean, on syntax trees ----

  /** A key the scan cannot tell apart from "id": it is spelled id, or it contains an escape. */
  ghost predicate Suspicious(key: seq<Char>) {
    IsId(RenderChars(key)) || exists i :: 0 <= i < |key| && !key[i].Unescaped?
  }

  ghost predicate SomeSuspicious(ms: Members) {
    Suspicious(ms.m.key) || (ms.MoreMembers? && SomeSuspicious(ms.rest))
  }

  predicate IsObject(v: Value) { v.Obj? || v.EmptyObj? }

  /** No top-level key of the object could be "id". */
  ghost predicate IdFree(v: Value) {
    v.EmptyObj? || (v.Obj? && !SomeSuspicious(v.members))
  }

  /** Batch elements the scan puts up with: id-free objects, and bare strings. */
  ghost predicate QuietElems(es: Elems) {
    (es.v.Str? || IdFree(es.v)) && (es.MoreElems? ==> QuietElems(es.rest))
  }

  predicate HasObject(es: Elems) {
    IsObject(es.v) || (es.MoreElems? && HasObject(es.rest))
  }

  /** The payloads the scan lets go unanswered. */
  ghost predicate Silent(v: Value) {
    IdFree(v) || (v.Arr? && QuietElems(v.elems) && HasObject(v.elems))
  }

  // ---- the scan over one JSON text ----

  lemma {:induction false} WsStays(s: State, ws: bytes)
    requires AllWs(ws) && s.Scan? && s.mode == Plain && !s.closed
    ensures Run(s, ws) == s
    decreases |ws|
  {
    if ws != [] { WsStays(s, ws[1..]); }
  }

  /** Inside a string only the closing quote is left to find. */
  lemma {:induction false} CharsStay(s: State, cs: seq<Char>)
    requires ValidChars(cs) && s.Scan? && s.mode == InString(false)
    ensures Run(s, RenderChars(cs)) == s
    decreases |cs|
  {
    if cs != [] {
      FoldConcat(Step, s, RenderChar(cs[0]), RenderChars(cs[1..]));
      CharStays(s, cs[0]);
      CharsStay(s, cs[1..]);
    }
  }

  lemma CharStays(s: State, c: Char)
    requires ValidChar(c) && s.Scan? && s.mode == InString(false)
    ensures Run(s, RenderChar(c)) == s
  {
    match c
    case Unescaped(b) => FoldOne(Step, s, b);
    case Escape(b) =>
      FoldConcat(Step, s, [BACKSLASH], [b]);
      FoldOne(Step, s, BACKSLASH);
      FoldOne(Step, s.(mode := InString(true)), b);
      assert [BACKSLASH] + [b] == [BACKSLASH, b];
    case Unicode(h) =>
      FoldConcat(Step, s, [BACKSLASH, 117], h);
      FoldConcat(Step, s, [BACKSLASH], [117]);
      FoldOne(Step, s, BACKSLASH);
      FoldOne(Step, s.(mode := InString(true)), 117);
      assert [BACKSLASH] + [117] == [BACKSLASH, 117];
      HexStays(s, h);
  }

  lemma {:induction false} HexStays(s: State, h: bytes)
    requires s.Scan? && s.mode == InString(false)
    requires forall i :: 0 <= i < |h| ==> IsHex(h[i])
    ensures Run(s, h) == s
    decreases |h|
  {
    if h != [] { HexStays(s, h[1..]); }
  }

  lemma StringSkipped(s: State, cs: seq<Char>)
    requires ValidChars(cs) && s.Scan? && s.mode == Plain && !s.closed
    requires !(s.depth == s.keyDepth && s.keyPos)
    ensures Run(s, RenderStr(cs)) == s
  {
    var inside := s.(mode := InString(false));
    FoldConcat(Step, s, [QUOTE] + RenderChars(cs), [QUOTE]);
    FoldConcat(Step, s, [QUOTE], RenderChars(cs));
    FoldOne(Step, s, QUOTE);
    CharsStay(inside, cs);
    FoldOne(Step, inside, QUOTE);
  }

  lemma {:induction false} InertStays(s: State, t: bytes)
    requires AllInert(t) && s.Scan? && s.mode == Plain && !s.closed
    requires !(s.keyDepth == 2 && s.depth == 1)
    ensures Run(s, t) == s
    decreases |t|
  {
    if t != [] { InertStays(s, t[1..]); }
  }

  /** A place where a whole value changes nothing: below the keys, or after a key's colon. */
  ghost predicate Sheltered(s: State) {
    && s.Scan? && s.mode == Plain && !s.closed && 1 <= s.keyDepth <= s.depth
    && (s.depth == s.keyDepth ==> !s.keyPos)
  }

  lemma {:induction false} ValueSkipped(s: State, v: Value)
    requires Valid(v) && Sheltered(s)
    ensures Run(s, Render(v)) == s
    decreases v, 0
  {
    var inside := s.(depth := s.depth + 1);
    match v
    case Str(cs) => StringSkipped(s, cs);
    case Atom(t) => AtomInert(t); InertStays(s, t);
    case EmptyArr(ws) => WsStays(inside, ws); Bracketed(s, LBRACKET, ws, RBRACKET);
    case EmptyObj(ws) => WsStays(inside, ws); Bracketed(s, LBRACE, ws, RBRACE);
    case Arr(es) => ElemsSkipped(inside, es); Bracketed(s, LBRACKET, RenderElems(es), RBRACKET);
    case Obj(ms) => MembersSkipped(inside, ms); Bracketed(s, LBRACE, RenderMembers(ms), RBRACE);
  }

  lemma Bracketed(s: State, open: byte, body: bytes, close: byte)
    requires Sheltered(s)
    requires open == LBRACKET || open == LBRACE
    requires close == RBRACKET || close == RBRACE
    requires Run(s.(depth := s.depth + 1), body) == s.(depth := s.depth + 1)
    ensures Run(s, [open] + body + [close]) == s
  {
    FoldConcat(Step, s, [open] + body, [close]);
    FoldConcat(Step, s, [open], body);
    FoldOne(Step, s, open);
    FoldOne(Step, s.(depth := s.depth + 1), close);
  }

  lemma PaddedSkipped(s: State, pre: bytes, v: Value, post: bytes)
    requires AllWs(pre) && Valid(v) && AllWs(post) && Sheltered(s)
    ensures Run(s, Padded(pre, v, post)) == s
    decreases v, 1
  {
    FoldConcat(Step, s, pre, Render(v) + post);
    WsStays(s, pre);
    FoldConcat(Step, s, Render(v), post);
    ValueSkipped(s, v);
    WsStays(s, post);
  }

  lemma {:induction false} ElemsSkipped(s: State, es: Elems)
    requires ValidElems(es) && Sheltered(s) && s.keyDepth < s.depth
    ensures Run(s, RenderElems(es)) == s
    decreases es
  {
    var tail := if es.MoreElems? then [COMMA] + RenderElems(es.rest) else [];
    FoldConcat(Step, s, Padded(es.pre, es.v, es.post), tail);
    PaddedSkipped(s, es.pre, es.v, es.post);
    if es.MoreElems? {
      FoldConcat(Step, s, [COMMA], RenderElems(es.rest));
      FoldOne(Step, s, COMMA);
      ElemsSkipped(s, es.rest);
    }
  }

  /** The part of a member that follows its key. */
  lemma ColonAndValue(s: State, m: Member)
    requires AllWs(m.mid) && AllWs(m.mid2) && Valid(m.v) && AllWs(m.post)
    requires s.Scan? && Sheltered(s.(keyPos := s.keyPos && s.depth != s.keyDepth))
    ensures Run(s, m.mid + ([COLON] + Padded(m.mid2, m.v, m.post))) == s.(keyPos := s.keyPos && s.depth != s.keyDepth)
    decreases m.v, 2
  {
    var value := Padded(m.mid2, m.v, m.post);
    FoldConcat(Step, s, m.mid, [COLON] + value);
    WsStays(s, m.mid);
    FoldConcat(Step, s, [COLON], value);
    FoldOne(Step, s, COLON);
    PaddedSkipped(s.(keyPos := s.keyPos && s.depth != s.keyDepth), m.mid2, m.v, m.post);
  }

  lemma MemberSkipped(s: State, m: Member)
    requires AllWs(m.pre) && ValidChars(m.key) && AllWs(m.mid)
    requires AllWs(m.mid2) && Valid(m.v) && AllWs(m.post)
    requires Sheltered(s) && s.keyDepth < s.depth
    ensures Run(s, RenderMember(m)) == s
    decreases m
  {
    var rest := m.mid + ([COLON] + Padded(m.mid2, m.v, m.post));
    FoldConcat(Step, s, m.pre, RenderStr(m.key) + rest);
    WsStays(s, m.pre);
    FoldConcat(Step, s, RenderStr(m.key), rest);
    StringSkipped(s, m.key);
    ColonAndValue(s, m);
  }

  lemma {:induction false} MembersSkipped(s: State, ms: Members)
    requires ValidMembers(ms) && Sheltered(s) && s.keyDepth < s.depth
    ensures Run(s, RenderMembers(ms)) == s
    decreases ms
  {
    var tail := if ms.MoreMembers? then [COMMA] + RenderMembers(ms.rest) else [];
    FoldConcat(Step, s, RenderMember(ms.m), tail);
    MemberSkipped(s, ms.m);
    if ms.MoreMembers? {
      FoldConcat(Step, s, [COMMA], RenderMembers(ms.rest));
      FoldOne(Step, s, COMMA);
      MembersSkipped(s, ms.rest);
    }
  }

  // ---- the keys of a request object ----

  ghost predicate HasEscape(cs: seq<Char>) {
    exists i :: 0 <= i < |cs| && !cs[i].Unescaped?
  }

  lemma HasEscapeHead(cs: seq<Char>)
    requires cs != []
    ensures HasEscape(cs) <==> !cs[0].Unescaped? || HasEscape(cs[1..])
  {
    if HasEscape(cs) {
      var i :| 0 <= i < |cs| && !cs[i].Unescaped?;
      if i > 0 { assert cs[1..][i - 1] == cs[i]; }
    }
    if HasEscape(cs[1..]) {
      var i :| 0 <= i < |cs[1..]| && !cs[1..][i].Unescaped?;
      assert cs[i + 1] == cs[1..][i];
    }
  }

  lemma {:induction false} KeyChars(s: State, saw: bool, m: nat, cs: seq<Char>)
    requires ValidChars(cs) && s.Scan?
    ensures Run(s.(mode := InKey(false, saw, m)), RenderChars(cs))
         == s.(mode := InKey(false, saw || HasEscape(cs), Fold(NextMatch, m, RenderChars(cs))))
    decreases |cs|
  {
    if cs != [] {
      var head, tail := RenderChar(cs[0]), RenderChars(cs[1..]);
      FoldConcat(Step, s.(mode := InKey(false, saw, m)), head, tail);
      FoldConcat(NextMatch, m, head, tail);
      KeyChar(s, saw, m, cs[0]);
      KeyChars(s, saw || !cs[0].Unescaped?, Fold(NextMatch, m, head), cs[1..]);
      HasEscapeHead(cs);
    }
  }

  lemma KeyChar(s: State, saw: bool, m: nat, c: Char)
    requires ValidChar(c) && s.Scan?
    ensures Run(s.(mode := InKey(false, saw, m)), RenderChar(c))
         == s.(mode := InKey(false, saw || !c.Unescaped?, Fold(NextMatch, m, RenderChar(c))))
  {
    match c
    case Unescaped(b) => KeyBytes(s, saw, m, [b]);
    case Escape(b) => KeyEscape(s, saw, m, b);
    case Unicode(h) =>
      FoldConcat(Step, s.(mode := InKey(false, saw, m)), [BACKSLASH, 117], h);
      FoldConcat(NextMatch, m, [BACKSLASH, 117], h);
      KeyEscape(s, saw, m, 117);
      KeyBytes(s, true, Fold(NextMatch, m, [BACKSLASH, 117]), h);
  }

  lemma KeyEscape(s: State, saw: bool, m: nat, b: byte)
    requires s.Scan?
    ensures Run(s.(mode := InKey(false, saw, m)), [BACKSLASH, b])
         == s.(mode := InKey(false, true, Fold(NextMatch, m, [BACKSLASH, b])))
  {
    var s0, s1 := s.(mode := InKey(false, saw, m)), s.(mode := InKey(true, true, 3));
    assert [BACKSLASH, b] == [BACKSLASH] + [b];
    FoldConcat(Step, s0, [BACKSLASH], [b]);
    FoldConcat(NextMatch, m, [BACKSLASH], [b]);
    FoldOne(Step, s0, BACKSLASH);
    FoldOne(NextMatch, m, BACKSLASH);
    FoldOne(Step, s1, b);
    FoldOne(NextMatch, 3, b);
  }

  lemma {:induction false} KeyBytes(s: State, saw: bool, m: nat, bs: bytes)
    requires s.Scan? && forall i :: 0 <= i < |bs| ==> bs[i] != QUOTE && bs[i] != BACKSLASH
    ensures Run(s.(mode := InKey(false, saw, m)), bs) == s.(mode := InKey(false, saw, Fold(NextMatch, m, bs)))
    decreases |bs|
  {
    if bs != [] { KeyBytes(s, saw, NextMatch(m, bs[0]), bs[1..]); }
  }

  lemma {:induction false} MatchedMeansId(k: bytes)
    ensures Fold(NextMatch, 0, k) == 2 <==> IsId(k)
  {
    if |k| >= 1 {
      var m1 := NextMatch(0, k[0]);
      assert Fold(NextMatch, 0, k) == Fold(NextMatch, m1, k[1..]);
      if |k| >= 2 {
        var m2 := NextMatch(m1, k[1]);
        assert k[1..][0] == k[1] && k[1..][1..] == k[2..];
        assert Fold(NextMatch, m1, k[1..]) == Fold(NextMatch, m2, k[2..]);
        if |k| >= 3 {
          assert Fold(NextMatch, m2, k[2..]) == Fold(NextMatch, 3, k[2..][1..]);
          LostForGood(k[2..][1..]);
        }
      }
    }
  }

  lemma {:induction false} LostForGood(k: bytes)
    ensures Fold(NextMatch, 3, k) == 3
    decreases |k|
  {
    if k != [] { LostForGood(k[1..]); }
  }

  ghost predicate AtKey(s: State) {
    s.Scan? && s.mode == Plain && !s.closed && 1 <= s.keyDepth == s.depth && s.keyPos
  }

  lemma KeyScanned(s: State, cs: seq<Char>)
    requires ValidChars(cs) && AtKey(s)
    ensures Run(s, RenderStr(cs)) == if Suspicious(cs) then Rejected else s
  {
    var k := RenderChars(cs);
    FoldConcat(Step, s, [QUOTE] + k, [QUOTE]);
    FoldConcat(Step, s, [QUOTE], k);
    FoldOne(Step, s, QUOTE);
    KeyChars(s, false, 0, cs);
    FoldOne(Step, s.(mode := InKey(false, HasEscape(cs), Fold(NextMatch, 0, k))), QUOTE);
    MatchedMeansId(k);
  }

  lemma MemberScanned(s: State, m: Member)
    requires AllWs(m.pre) && ValidChars(m.key) && AllWs(m.mid)
    requires AllWs(m.mid2) && Valid(m.v) && AllWs(m.post) && AtKey(s)
    ensures Run(s, RenderMember(m)) == if Suspicious(m.key) then Rejected else s.(keyPos := false)
  {
    var rest := m.mid + ([COLON] + Padded(m.mid2, m.v, m.post));
    FoldConcat(Step, s, m.pre, RenderStr(m.key) + rest);
    WsStays(s, m.pre);
    FoldConcat(Step, s, RenderStr(m.key), rest);
    KeyScanned(s, m.key);
    RejectedForGood(rest);
    ColonAndValue(s, m);
  }

  lemma {:induction false} MembersScanned(s: State, ms: Members)
    requires ValidMembers(ms) && AtKey(s)
    ensures Run(s, RenderMembers(ms)) == if SomeSuspicious(ms) then Rejected else s.(keyPos := false)
    decreases ms
  {
    var tail := if ms.MoreMembers? then [COMMA] + RenderMembers(ms.rest) else [];
    FoldConcat(Step, s, RenderMember(ms.m), tail);
    MemberScanned(s, ms.m);
    if Suspicious(ms.m.key) {
      RejectedForGood(tail);
    } else if ms.MoreMembers? {
      FoldConcat(Step, s.(keyPos := false), [COMMA], RenderMembers(ms.rest));
      FoldOne(Step, s.(keyPos := false), COMMA);
      MembersScanned(s, ms.rest);
    }
  }

  /** A request object, entered one level above its keys. */
  lemma ObjectScanned(s: State, v: Value)
    requires Valid(v) && IsObject(v)
    requires s.Scan? && s.mode == Plain && !s.closed && s.depth + 1 == s.keyDepth && !s.keyPos
    ensures Run(s, Render(v))
         == if IdFree(v) then s.(sawElement := true, closed := s.depth == 0) else Rejected
  {
    var body := if v.Obj? then RenderMembers(v.members) else v.ws;
    var inside := s.(depth := s.keyDepth, keyPos := true, sawElement := true);
    FoldConcat(Step, s, [LBRACE] + body, [RBRACE]);
    FoldConcat(Step, s, [LBRACE], body);
    FoldOne(Step, s, LBRACE);
    if v.Obj? {
      MembersScanned(inside, v.members);
      RejectedForGood([RBRACE]);
      FoldOne(Step, inside.(keyPos := false), RBRACE);
    } else {
      WsStays(inside, v.ws);
      FoldOne(Step, inside, RBRACE);
    }
  }

  // ---- the elements of a batch ----

  ghost predicate InBatch(s: State) {
    s.Scan? && s.mode == Plain && !s.closed && s.keyDepth == 2 && s.depth == 1 && !s.keyPos
  }

  lemma ElementScanned(s: State, v: Value)
    requires Valid(v) && InBatch(s)
    ensures Run(s, Render(v))
         == if v.Str? then s else if IdFree(v) then s.(sawElement := true) else Rejected
  {
    match v
    case Str(cs) => StringSkipped(s, cs);
    case EmptyObj(_) => ObjectScanned(s, v);
    case Obj(_) => ObjectScanned(s, v);
    case Atom(t) =>
      AtomInert(t);
      RejectedForGood(t[1..]);
    case EmptyArr(_) => RejectedForGood(Render(v)[1..]);
    case Arr(_) => RejectedForGood(Render(v)[1..]);
  }

  lemma PaddedScanned(s: State, pre: bytes, v: Value, post: bytes)
    requires AllWs(pre) && Valid(v) && AllWs(post) && InBatch(s)
    ensures Run(s, Padded(pre, v, post))
         == if v.Str? then s else if IdFree(v) then s.(sawElement := true) else Rejected
  {
    FoldConcat(Step, s, pre, Render(v) + post);
    WsStays(s, pre);
    FoldConcat(Step, s, Render(v), post);
    ElementScanned(s, v);
    WsStays(if v.Str? then s else s.(sawElement := true), post);
    RejectedForGood(post);
  }

  lemma {:induction false} ElementsScanned(s: State, es: Elems)
    requires ValidElems(es) && InBatch(s)
    ensures Run(s, RenderElems(es))
         == if QuietElems(es) then s.(sawElement := s.sawElement || HasObject(es)) else Rejected
    decreases es
  {
    var next := if es.v.Str? then s else s.(sawElement := true);
    var tail := if es.MoreElems? then [COMMA] + RenderElems(es.rest) else [];
    FoldConcat(Step, s, Padded(es.pre, es.v, es.post), tail);
    PaddedScanned(s, es.pre, es.v, es.post);
    RejectedForGood(tail);
    if es.MoreElems? {
      FoldConcat(Step, next, [COMMA], RenderElems(es.rest));
      FoldOne(Step, next, COMMA);
      ElementsScanned(next, es.rest);
    }
  }

  lemma BatchScanned(v: Value)
    requires Valid(v) && (v.Arr? || v.EmptyArr?)
    ensures Accepts(Run(Start(2), Render(v))) == Silent(v)
  {
    var s := Start(2);
    var inside := s.(depth := 1);
    var body := if v.Arr? then RenderElems(v.elems) else v.ws;
    FoldConcat(Step, s, [LBRACKET] + body, [RBRACKET]);
    FoldConcat(Step, s, [LBRACKET], body);
    FoldOne(Step, s, LBRACKET);
    if v.Arr? {
      ElementsScanned(inside, v.elems);
      RejectedForGood([RBRACKET]);
      FoldOne(Step, inside.(sawElement := HasObject(v.elems)), RBRACKET);
    } else {
      WsStays(inside, v.ws);
      FoldOne(Step, inside, RBRACKET);
    }
  }

  // ---- main results ----

  /** On every JSON text, whatever whitespace surrounds it, the scan is exact. */
  lemma ExactOnJson(pre: bytes, v: Value, post: bytes)
    requires AllWs(pre) && Valid(v) && AllWs(post)
    ensures Verdict(TrimSpace(pre + Render(v) + post)) == Silent(v)
  {
    var t := Render(v);
    RenderEnds(v);
    TrimSpaceWs(pre, t, post);
    match v
    case Str(_) =>
    case Atom(text) => AtomInert(text);
    case Obj(_) => ObjectScanned(Start(1), v);
    case EmptyObj(_) => ObjectScanned(Start(1), v);
    case Arr(_) => BatchScanned(v);
    case EmptyArr(_) => BatchScanned(v);
  }

  // ---- why silence is safe: no escaped spelling of "id" slips through ----

  function HexDigit(b: byte): nat
    requires IsHex(b)
  {
    if b <= 57 then b - 48 else if b <= 70 then b - 55 else b - 87
  }

  /** The UTF-16 code unit, or single byte, a key character stands for (section 7 of RFC 8259). */
  function Decoded(c: Char): int
    requires ValidChar(c)
  {
    match c
    case Unescaped(b) => b
    case Escape(b) =>
      if b == 98 then 8 else if b == 102 then 12 else if b == 110 then 10
      else if b == 114 then 13 else if b == 116 then 9 else b
    case Unicode(h) =>
      4096 * HexDigit(h[0]) + 256 * HexDigit(h[1]) + 16 * HexDigit(h[2]) + HexDigit(h[3])
  }

  /** The key denotes the member name id, however it is spelled. */
  ghost predicate NamesId(key: seq<Char>)
    requires ValidChars(key)
  {
    |key| == 2 && Decoded(key[0]) == 105 && Decoded(key[1]) == 100
  }

  lemma NamesIdIsSuspicious(key: seq<Char>)
    requires ValidChars(key) && NamesId(key)
    ensures Suspicious(key)
  {
    if key[0].Unescaped? && key[1].Unescaped? {
      assert RenderChars(key) == RenderChar(key[0]) + RenderChars(key[1..]);
      assert RenderChars(key[1..]) == RenderChar(key[1]) + RenderChars(key[1..][1..]);
      assert key[1..][1..] == [];
    }
  }

  ghost predicate CarriesId(ms: Members)
    requires ValidMembers(ms)
  {
    NamesId(ms.m.key) || (ms.MoreMembers? && CarriesId(ms.rest))
  }

  ghost predicate SomeRequestCarriesId(es: Elems)
    requires ValidElems(es)
  {
    assert Valid(es.v);
    (es.v.Obj? && CarriesId(es.v.members)) || (es.MoreElems? && SomeRequestCarriesId(es.rest))
  }

  lemma {:induction false} CarriersAreSuspicious(ms: Members)
    requires ValidMembers(ms) && CarriesId(ms)
    ensures SomeSuspicious(ms)
    decreases ms
  {
    if NamesId(ms.m.key) { NamesIdIsSuspicious(ms.m.key); } else { CarriersAreSuspicious(ms.rest); }
  }

  lemma {:induction false} QuietElemsCarryNone(es: Elems)
    requires ValidElems(es) && QuietElems(es)
    ensures !SomeRequestCarriesId(es)
    decreases es
  {
    if es.v.Obj? && CarriesId(es.v.members) { CarriersAreSuspicious(es.v.members); }
    if es.MoreElems? { QuietElemsCarryNone(es.rest); }
  }

  /** A payload that goes unanswered really holds no request a caller could be waiting on. */
  lemma SilenceIsSound(pre: bytes, v: Value, post: bytes)
    requires AllWs(pre) && Valid(v) && AllWs(post)
    requires Verdict(TrimSpace(pre + Render(v) + post))
    ensures IsObject(v) || v.Arr?
    ensures v.Obj? ==> !CarriesId(v.members)
    ensures v.Arr? ==> !SomeRequestCarriesId(v.elems)
  {
    ExactOnJson(pre, v, post);
    if v.Obj? && CarriesId(v.members) { CarriersAreSuspicious(v.members); }
    if v.Arr? { QuietElemsCarryNone(v.elems); }
  }

  // ---- the documented rule, and where the code departs from it ----

  /** The rule of the function's comment: a batch whose every element is an object without an id. */
  ghost predicate Documented(v: Value) {
    IdFree(v) || (v.Arr? && AllIdFree(v.elems))
  }

  ghost predicate AllIdFree(es: Elems) {
    IdFree(es.v) && (es.MoreElems? ==> AllIdFree(es.rest))
  }

  predicate HasString(es: Elems) {
    es.v.Str? || (es.MoreElems? && HasString(es.rest))
  }

  lemma {:induction false} AllIdFreeSplits(es: Elems)
    ensures AllIdFree(es) <==> QuietElems(es) && !HasString(es)
    ensures AllIdFree(es) ==> HasObject(es)
    decreases es
  {
    if es.MoreElems? { AllIdFreeSplits(es.rest); }
  }

  /** The code departs from the comment exactly on batches that mix bare strings into
      id-free objects; for every other JSON text the two agree. */
  lemma DepartsOnlyOnStrings(pre: bytes, v: Value, post: bytes)
    requires AllWs(pre) && Valid(v) && AllWs(post)
    ensures Verdict(TrimSpace(pre + Render(v) + post)) == Documented(v)
       <==> !(v.Arr? && HasString(v.elems) && HasObject(v.elems) && QuietElems(v.elems))
  {
    ExactOnJson(pre, v, post);
    if v.Arr? { AllIdFreeSplits(v.elems); }
  }

  /** ["x",{}] goes unanswered although its first element is no request object. */
  lemma StringElementGoesUnanswered(x: Char)
    requires ValidChar(x)
    ensures var v := Arr(MoreElems([], Str([x]), [], LastElem([], EmptyObj([]), [])));
            Valid(v) && Verdict(TrimSpace([] + Render(v) + [])) && !Documented(v)
  {
    var last := LastElem([], EmptyObj([]), []);
    assert ValidElems(last) && QuietElems(last) && HasObject(last);
    ExactOnJson([], Arr(MoreElems([], Str([x]), [], last)), []);
  }
}
