/** handle.go, splitBatchElements and approxBatchLen: cutting a batch array into the bytes of its
    elements, and counting them without cutting. */
module BatchSplit {
  import opened Wrappers
  import opened Bytes
  import opened JsonGrammar

  /** Outside strings, inside one, or just after a backslash inside one. */
  datatype Lex = Out | In | Esc

  function LexStep(q: Lex, b: byte): Lex {
    match q
    case Out => if b == QUOTE then In else Out
    case In => if b == BACKSLASH then Esc else if b == QUOTE then Out else In
    case Esc => In
  }

  predicate Opens(b: byte) { b == LBRACKET || b == LBRACE }

  predicate Closes(b: byte) { b == RBRACKET || b == RBRACE }

  // ---- the splitting automaton ----

  /** cur is the element being read, done the elements already cut off. */
  datatype State =
    | Broken
    | Split(depth: nat, lex: Lex, cur: Option<bytes>, done: seq<bytes>)

  function Text(cur: Option<bytes>): bytes {
    if cur.Some? then cur.value else []
  }

  function Step(s: State, b: byte): State {
    if s.Broken? then s
    else
      var Split(depth, lex, cur, done) := s;
      var grown := Some(Text(cur) + [b]);
      if lex != Out || b == QUOTE then Split(depth, LexStep(lex, b), grown, done)
      else if Opens(b) then Split(depth + 1, Out, grown, done)
      else if Closes(b) then if depth == 0 then Broken else Split(depth - 1, Out, grown, done)
      else if b == COMMA && depth == 0 then if cur.None? then Broken else Split(0, Out, None, done + [cur.value])
      else if IsWs(b) && cur.None? then s
      else Split(depth, Out, grown, done)
  }

  function Run(s: State, bs: bytes): State {
    Fold(Step, s, bs)
  }

  const START: State := Split(0, Out, None, [])

  function Finish(s: State): Option<seq<bytes>> {
    if s.Broken? || s.lex != Out || s.depth != 0 then None
    else if s.cur.Some? then Some(s.done + [s.cur.value])
    else if s.done != [] then None
    else Some([])
  }

  /** The elements found between the outer brackets; None where the source reports broken structure. */
  function Elements(inner: bytes): Option<seq<bytes>> {
    Finish(Run(START, inner))
  }

  lemma {:induction false} BrokenForGood(bs: bytes)
    ensures Run(Broken, bs) == Broken
    decreases |bs|
  {
    if bs != [] { BrokenForGood(bs[1..]); }
  }

  lemma RunStep(s: State, data: bytes, i: nat)
    requires i < |data|
    ensures Run(s, data[i..]) == Run(Step(s, data[i]), data[i + 1..])
    ensures Run(Broken, data[i + 1..]) == Broken
  {
    assert data[i..][1..] == data[i + 1..];
    BrokenForGood(data[i + 1..]);
  }

  // ---- the loop ----

  /** What the locals of the loop say about the element being read. */
  ghost predicate Reading(cur: Option<bytes>, inner: bytes, start: int, i: nat)
    requires i <= |inner|
  {
    if start == -1 then cur == None else 0 <= start <= i && cur == Some(inner[start..i])
  }

  method SplitBatchElements(data: bytes) returns (elems: seq<bytes>, ok: bool)
    requires |data| >= 2 && data[0] == LBRACKET && data[|data| - 1] == RBRACKET
    ensures Elements(data[1..|data| - 1]) == if ok then Some(elems) else None
  {
    var inner := data[1..|data| - 1];
    elems := [];
    var depth: nat := 0;
    var inString, escaped := false, false;
    var start := -1;
    ghost var s := START;
    assert inner[0..] == inner;
    var i := 0;
    while i < |inner|
      invariant 0 <= i <= |inner|
      invariant s.Split? && s.depth == depth && s.done == elems
      invariant s.lex == if !inString then Out else if escaped then Esc else In
      invariant !inString ==> !escaped
      invariant Reading(s.cur, inner, start, i)
      invariant depth > 0 || inString ==> start != -1
      invariant Run(s, inner[i..]) == Run(START, inner)
    {
      var b := inner[i];
      RunStep(s, inner, i);
      assert start != -1 ==> inner[start..i] + [b] == inner[start..i + 1];
      assert [] + [b] == inner[i..i + 1];
      s := Step(s, b);
      if inString {
        if escaped { escaped := false; }
        else if b == BACKSLASH { escaped := true; }
        else if b == QUOTE { inString := false; }
      } else if b == QUOTE {
        inString := true;
        if start == -1 { start := i; }
      } else if Opens(b) {
        if start == -1 { start := i; }
        depth := depth + 1;
      } else if Closes(b) {
        if depth == 0 { return [], false; }
        depth := depth - 1;
      } else if b == COMMA {
        if depth == 0 {
          if start == -1 { return [], false; }
          elems := elems + [inner[start..i]];
          start := -1;
        }
      } else if IsWs(b) {
      } else {
        if start == -1 { start := i; }
      }
      i := i + 1;
    }
    assert inner[i..] == [];
    if inString || depth != 0 { return [], false; }
    if start != -1 {
      assert inner[start..i] == inner[start..];
      elems := elems + [inner[start..]];
    } else if |elems| > 0 {
      return [], false;
    }
    ok := true;
  }

  // ---- what counts as an element, said without the automaton ----

  /** Where in a string, or not, the text p ends. */
  function LexAt(p: bytes): Lex
    decreases |p|
  {
    if p == [] then Out else LexStep(LexAt(p[..|p| - 1]), p[|p| - 1])
  }

  /** Opening minus closing brackets of p, those inside strings not counted. */
  function Nesting(p: bytes): int
    decreases |p|
  {
    if p == [] then 0
    else
      var b := p[|p| - 1];
      var n := Nesting(p[..|p| - 1]);
      if LexAt(p[..|p| - 1]) != Out then n else if Opens(b) then n + 1 else if Closes(b) then n - 1 else n
  }

  /** A text that can start an element: no bracket closed too early, no comma at its own level. */
  ghost predicate ElementPrefix(p: bytes) {
    && (p != [] ==> !IsWs(p[0]))
    && (forall i :: 0 <= i <= |p| ==> Nesting(p[..i]) >= 0)
    && (forall i :: 0 <= i < |p| && p[i] == COMMA && LexAt(p[..i]) == Out ==> Nesting(p[..i]) > 0)
  }

  /** A whole element: bracket-balanced outside strings, with no top-level comma. */
  ghost predicate Element(p: bytes) {
    p != [] && ElementPrefix(p) && LexAt(p) == Out && Nesting(p) == 0
  }

  /** Elements, each after some whitespace and before a comma. */
  function Weave(ws: seq<bytes>, ps: seq<bytes>): bytes
    requires |ws| == |ps|
    decreases |ps|
  {
    if ps == [] then []
    else Weave(ws[..|ws| - 1], ps[..|ps| - 1]) + (ws[|ws| - 1] + (ps[|ps| - 1] + [COMMA]))
  }

  /** The body of an array with elements ps: commas between them, whitespace before each. */
  function Joined(ws: seq<bytes>, ps: seq<bytes>): bytes
    requires |ws| == |ps| > 0
  {
    Weave(ws[..|ws| - 1], ps[..|ps| - 1]) + (ws[|ws| - 1] + ps[|ps| - 1])
  }

  ghost predicate AllElements(ps: seq<bytes>) {
    forall i :: 0 <= i < |ps| ==> Element(ps[i])
  }

  ghost predicate Blanks(ws: seq<bytes>) {
    forall i :: 0 <= i < |ws| ==> AllWs(ws[i])
  }

  /** b may extend the element prefix p. */
  predicate CanFollow(p: bytes, b: byte) {
    && (p == [] ==> !IsWs(b))
    && !(LexAt(p) == Out && Nesting(p) == 0 && (b == COMMA || Closes(b)))
  }

  lemma LastByte(p: bytes, b: byte)
    ensures LexAt(p + [b]) == LexStep(LexAt(p), b)
    ensures Nesting(p + [b])
         == Nesting(p) + if LexAt(p) != Out then 0 else if Opens(b) then 1 else if Closes(b) then -1 else 0
  {
    assert (p + [b])[..|p|] == p;
  }

  lemma SamePrefix(p: bytes, b: byte, i: nat)
    requires i <= |p|
    ensures (p + [b])[..i] == p[..i]
  {
  }

  lemma PrefixGrows(p: bytes, b: byte)
    requires ElementPrefix(p) && CanFollow(p, b)
    ensures ElementPrefix(p + [b])
  {
    var q := p + [b];
    LastByte(p, b);
    SamePrefix(p, b, |p|);
    assert p[..|p|] == p && q[..|q|] == q;
    forall i | 0 <= i <= |q| ensures Nesting(q[..i]) >= 0 {
      if i <= |p| { SamePrefix(p, b, i); }
    }
    forall i | 0 <= i < |q| && q[i] == COMMA && LexAt(q[..i]) == Out ensures Nesting(q[..i]) > 0 {
      SamePrefix(p, b, i);
      if i < |p| { assert p[i] == COMMA; }
    }
  }

  lemma {:induction false} RunSnoc(s: State, bs: bytes)
    requires bs != []
    ensures Run(s, bs) == Step(Run(s, bs[..|bs| - 1]), bs[|bs| - 1])
  {
    assert bs == bs[..|bs| - 1] + [bs[|bs| - 1]];
    FoldConcat(Step, s, bs[..|bs| - 1], [bs[|bs| - 1]]);
    FoldOne(Step, Run(s, bs[..|bs| - 1]), bs[|bs| - 1]);
  }

  /** An automaton state tells the input apart: finished elements, whitespace, and the element being read. */
  ghost predicate Explains(s: State, ws: seq<bytes>, w: bytes, read: bytes)
  {
    s.Split? ==>
      && |ws| == |s.done| && Blanks(ws) && AllWs(w) && AllElements(s.done)
      && ElementPrefix(Text(s.cur)) && s.lex == LexAt(Text(s.cur)) && s.depth == Nesting(Text(s.cur))
      && (s.cur.Some? ==> s.cur.value != [])
      && read == Weave(ws, s.done) + (w + Text(s.cur))
  }

  /** A byte that joins the element being read. */
  lemma ExplainGrowth(s: State, ws: seq<bytes>, w: bytes, read: bytes, b: byte)
    requires s.Split? && Explains(s, ws, w, read) && CanFollow(Text(s.cur), b)
    ensures Explains(Step(s, b), ws, w, read + [b])
  {
    var cur := Text(s.cur);
    PrefixGrows(cur, b);
    LastByte(cur, b);
    assert Step(s, b) == Split(Nesting(cur + [b]), LexAt(cur + [b]), Some(cur + [b]), s.done);
    assert read + [b] == Weave(ws, s.done) + (w + (cur + [b]));
  }

  /** A comma that cuts an element off. */
  lemma ExplainCut(s: State, ws: seq<bytes>, w: bytes, read: bytes)
    requires s.Split? && Explains(s, ws, w, read) && s.lex == Out && s.depth == 0 && s.cur.Some?
    ensures Explains(Step(s, COMMA), ws + [w], [], read + [COMMA])
  {
    var ws', done' := ws + [w], s.done + [s.cur.value];
    assert ws'[..|ws|] == ws && done'[..|s.done|] == s.done;
    assert read + [COMMA] == Weave(ws', done') + ([] + []);
  }

  lemma {:induction false} Explain(read: bytes) returns (ws: seq<bytes>, w: bytes)
    ensures Explains(Run(START, read), ws, w, read)
    decreases |read|
  {
    ws, w := [], [];
    if read != [] {
      var b, before := read[|read| - 1], read[..|read| - 1];
      ws, w := Explain(before);
      RunSnoc(START, read);
      assert read == before + [b];
      var s := Run(START, before);
      if s.Split? {
        if CanFollow(Text(s.cur), b) {
          ExplainGrowth(s, ws, w, before, b);
        } else if b == COMMA && s.cur.Some? {
          ExplainCut(s, ws, w, before);
          ws, w := ws + [w], [];
        } else if IsWs(b) {
          assert read == Weave(ws, s.done) + ((w + [b]) + []);
          w := w + [b];
        }
      }
    }
  }

  // ---- and back: woven elements scan as themselves ----

  lemma {:induction false} PrefixScanned(p: bytes, done: seq<bytes>)
    requires p != [] && ElementPrefix(p)
    ensures Nesting(p) >= 0 && Run(Split(0, Out, None, done), p) == Split(Nesting(p), LexAt(p), Some(p), done)
    decreases |p|
  {
    var s := Split(0, Out, None, done);
    var b, q := p[|p| - 1], p[..|p| - 1];
    RunSnoc(s, p);
    assert p[..|p|] == p && p == q + [b];
    if q != [] {
      PrefixShrinks(p);
      PrefixScanned(q, done);
    }
    LastByte(q, b);
  }

  lemma PrefixShrinks(p: bytes)
    requires p != [] && ElementPrefix(p)
    ensures ElementPrefix(p[..|p| - 1]) && CanFollow(p[..|p| - 1], p[|p| - 1])
  {
    var k := |p| - 1;
    var q, b := p[..k], p[k];
    assert ElementPrefix(q) by {
      forall i | 0 <= i <= k ensures q[..i] == p[..i] {}
      forall i | 0 <= i <= k ensures Nesting(q[..i]) >= 0 { assert q[..i] == p[..i]; }
      forall i | 0 <= i < k && q[i] == COMMA && LexAt(q[..i]) == Out ensures Nesting(q[..i]) > 0 {
        assert q[..i] == p[..i] && p[i] == COMMA;
      }
    }
    assert CanFollow(q, b) by {
      assert Nesting(p[..k + 1]) >= 0 && p[..k + 1] == p;
      assert p[k] == COMMA && LexAt(p[..k]) == Out ==> Nesting(p[..k]) > 0;
    }
  }

  lemma {:induction false} BlankSkipped(done: seq<bytes>, w: bytes)
    requires AllWs(w)
    ensures Run(Split(0, Out, None, done), w) == Split(0, Out, None, done)
    decreases |w|
  {
    if w != [] { BlankSkipped(done, w[1..]); }
  }

  lemma ElementScanned(done: seq<bytes>, w: bytes, p: bytes)
    requires AllWs(w) && Element(p)
    ensures Run(Split(0, Out, None, done), w + p) == Split(0, Out, Some(p), done)
  {
    FoldConcat(Step, Split(0, Out, None, done), w, p);
    BlankSkipped(done, w);
    PrefixScanned(p, done);
  }

  lemma CommaScanned(done: seq<bytes>, w: bytes, p: bytes)
    requires AllWs(w) && Element(p)
    ensures Run(Split(0, Out, None, done), w + (p + [COMMA])) == Split(0, Out, None, done + [p])
  {
    var s := Split(0, Out, None, done);
    assert w + (p + [COMMA]) == (w + p) + [COMMA];
    FoldConcat(Step, s, w + p, [COMMA]);
    ElementScanned(done, w, p);
    FoldOne(Step, Split(0, Out, Some(p), done), COMMA);
  }

  lemma {:induction false} WeaveScanned(ws: seq<bytes>, ps: seq<bytes>)
    requires |ws| == |ps| && Blanks(ws) && AllElements(ps)
    ensures Run(START, Weave(ws, ps)) == Split(0, Out, None, ps)
    decreases |ps|
  {
    if ps != [] {
      var k := |ps| - 1;
      FoldConcat(Step, START, Weave(ws[..k], ps[..k]), ws[k] + (ps[k] + [COMMA]));
      WeaveScanned(ws[..k], ps[..k]);
      CommaScanned(ps[..k], ws[k], ps[k]);
      assert ps[..k] + [ps[k]] == ps;
    }
  }

  // ---- main results on arbitrary bytes ----

  /** inner is an array body with exactly the elements ps. */
  ghost predicate HasElements(inner: bytes, ps: seq<bytes>) {
    if ps == [] then AllWs(inner)
    else AllElements(ps) && exists ws :: |ws| == |ps| && Blanks(ws) && inner == Joined(ws, ps)
  }

  lemma ElementsSound(inner: bytes, ps: seq<bytes>)
    requires Elements(inner) == Some(ps)
    ensures HasElements(inner, ps)
  {
    var s := Run(START, inner);
    var ws, w := Explain(inner);
    if s.cur.Some? {
      var all := ws + [w];
      assert all[..|all| - 1] == ws && ps[..|ps| - 1] == s.done;
      assert inner == Joined(all, ps);
    }
  }

  lemma ElementsComplete(inner: bytes, ws: seq<bytes>, ps: seq<bytes>)
    requires |ws| == |ps| > 0 && Blanks(ws) && AllElements(ps) && inner == Joined(ws, ps)
    ensures Elements(inner) == Some(ps)
  {
    var k := |ps| - 1;
    FoldConcat(Step, START, Weave(ws[..k], ps[..k]), ws[k] + ps[k]);
    WeaveScanned(ws[..k], ps[..k]);
    ElementScanned(ps[..k], ws[k], ps[k]);
    assert ps[..k] + [ps[k]] == ps;
  }

  /** Splitting succeeds with ps exactly when the body is ps, comma-separated, each after whitespace. */
  lemma SplitIsExact(inner: bytes, ps: seq<bytes>)
    ensures Elements(inner) == Some(ps) <==> HasElements(inner, ps)
  {
    if Elements(inner) == Some(ps) {
      ElementsSound(inner, ps);
    } else if HasElements(inner, ps) {
      if ps == [] {
        BlankSkipped([], inner);
      } else {
        var ws :| |ws| == |ps| && Blanks(ws) && inner == Joined(ws, ps);
        ElementsComplete(inner, ws, ps);
      }
    }
  }

  /** The pieces joined by single commas. */
  function CommaJoin(ps: seq<bytes>): bytes {
    if ps == [] then [] else Joined(seq(|ps|, i => []), ps)
  }

  /** Splitting the comma-join of the pieces gives the pieces back. */
  lemma ResplitIsIdentity(inner: bytes, ps: seq<bytes>)
    requires Elements(inner) == Some(ps)
    ensures Elements(CommaJoin(ps)) == Some(ps)
  {
    ElementsSound(inner, ps);
    if ps != [] {
      var ws: seq<bytes> := seq(|ps|, i => []);
      ElementsComplete(CommaJoin(ps), ws, ps);
    }
  }

  // ---- main results on JSON texts ----

  /** Scanned inside an element, at this depth and lexical place, bs just becomes part of the element. */
  ghost predicate AbsorbedAt(depth: nat, lex: Lex, bs: bytes) {
    forall c, done :: Run(Split(depth, lex, Some(c), done), bs) == Split(depth, lex, Some(c + bs), done)
  }

  ghost predicate Absorbed(depth: nat, bs: bytes) {
    AbsorbedAt(depth, Out, bs)
  }

  lemma AbsorbedConcatAt(depth: nat, lex: Lex, a: bytes, b: bytes)
    requires AbsorbedAt(depth, lex, a) && AbsorbedAt(depth, lex, b)
    ensures AbsorbedAt(depth, lex, a + b)
  {
    forall c, done ensures Run(Split(depth, lex, Some(c), done), a + b) == Split(depth, lex, Some(c + (a + b)), done) {
      FoldConcat(Step, Split(depth, lex, Some(c), done), a, b);
      assert c + a + b == c + (a + b);
    }
  }

  lemma AbsorbedConcat(depth: nat, a: bytes, b: bytes)
    requires Absorbed(depth, a) && Absorbed(depth, b)
    ensures Absorbed(depth, a + b)
  {
    AbsorbedConcatAt(depth, Out, a, b);
  }

  lemma AbsorbedOne(depth: nat, b: byte)
    requires IsWs(b) || Inert(b) || b == COLON || (b == COMMA && depth > 0)
    ensures Absorbed(depth, [b])
  {
    forall c, done ensures Run(Split(depth, Out, Some(c), done), [b]) == Split(depth, Out, Some(c + [b]), done) {
      FoldOne(Step, Split(depth, Out, Some(c), done), b);
    }
  }

  lemma {:induction false} AbsorbedPlain(depth: nat, bs: bytes)
    requires forall i :: 0 <= i < |bs| ==> IsWs(bs[i]) || Inert(bs[i])
    ensures Absorbed(depth, bs)
    decreases |bs|
  {
    if bs == [] {
      forall c, done ensures Run(Split(depth, Out, Some(c), done), []) == Split(depth, Out, Some(c + []), done) {
        assert c + [] == c;
      }
    } else {
      AbsorbedOne(depth, bs[0]);
      AbsorbedPlain(depth, bs[1..]);
      AbsorbedConcat(depth, [bs[0]], bs[1..]);
      assert bs == [bs[0]] + bs[1..];
    }
  }

  lemma {:induction false} QuotedBytes(depth: nat, c: bytes, done: seq<bytes>, bs: bytes)
    requires forall i :: 0 <= i < |bs| ==> bs[i] != QUOTE && bs[i] != BACKSLASH
    ensures Run(Split(depth, In, Some(c), done), bs) == Split(depth, In, Some(c + bs), done)
    decreases |bs|
  {
    if bs == [] {
      assert c + bs == c;
    } else {
      QuotedBytes(depth, c + [bs[0]], done, bs[1..]);
      assert c + [bs[0]] + bs[1..] == c + bs;
    }
  }

  lemma QuotedChar(depth: nat, ch: Char)
    requires ValidChar(ch)
    ensures AbsorbedAt(depth, In, RenderChar(ch))
  {
    match ch
    case Unescaped(b) => forall c, done { QuotedBytes(depth, c, done, [b]); }
    case Escape(b) => QuotedEscape(depth, b);
    case Unicode(h) =>
      QuotedEscape(depth, 117);
      forall c, done { QuotedBytes(depth, c, done, h); }
      AbsorbedConcatAt(depth, In, [BACKSLASH, 117], h);
  }

  lemma QuotedEscape(depth: nat, b: byte)
    ensures AbsorbedAt(depth, In, [BACKSLASH, b])
  {
    forall c, done ensures Run(Split(depth, In, Some(c), done), [BACKSLASH, b])
                        == Split(depth, In, Some(c + [BACKSLASH, b]), done) {
      assert [BACKSLASH, b] == [BACKSLASH] + [b];
      FoldConcat(Step, Split(depth, In, Some(c), done), [BACKSLASH], [b]);
      FoldOne(Step, Split(depth, In, Some(c), done), BACKSLASH);
      FoldOne(Step, Split(depth, Esc, Some(c + [BACKSLASH]), done), b);
      assert c + [BACKSLASH] + [b] == c + [BACKSLASH, b];
    }
  }

  lemma {:induction false} QuotedChars(depth: nat, cs: seq<Char>)
    requires ValidChars(cs)
    ensures AbsorbedAt(depth, In, RenderChars(cs))
    decreases |cs|
  {
    if cs == [] {
      forall c, done { QuotedBytes(depth, c, done, []); }
    } else {
      QuotedChar(depth, cs[0]);
      QuotedChars(depth, cs[1..]);
      AbsorbedConcatAt(depth, In, RenderChar(cs[0]), RenderChars(cs[1..]));
    }
  }

  lemma StringAbsorbed(depth: nat, cs: seq<Char>)
    requires ValidChars(cs)
    ensures Absorbed(depth, RenderStr(cs))
  {
    var body := RenderChars(cs);
    QuotedChars(depth, cs);
    forall c, done
      ensures Run(Split(depth, Out, Some(c), done), RenderStr(cs)) == Split(depth, Out, Some(c + RenderStr(cs)), done)
    {
      var s := Split(depth, Out, Some(c), done);
      FoldConcat(Step, s, [QUOTE] + body, [QUOTE]);
      FoldConcat(Step, s, [QUOTE], body);
      FoldOne(Step, s, QUOTE);
      FoldOne(Step, Split(depth, In, Some(c + [QUOTE] + body), done), QUOTE);
      assert c + [QUOTE] + body + [QUOTE] == c + RenderStr(cs);
    }
  }

  lemma BracketedAbsorbed(depth: nat, open: byte, body: bytes, close: byte)
    requires Opens(open) && Closes(close) && Absorbed(depth + 1, body)
    ensures Absorbed(depth, [open] + body + [close])
  {
    forall c, done ensures Run(Split(depth, Out, Some(c), done), [open] + body + [close])
                        == Split(depth, Out, Some(c + ([open] + body + [close])), done) {
      var s := Split(depth, Out, Some(c), done);
      FoldConcat(Step, s, [open] + body, [close]);
      FoldConcat(Step, s, [open], body);
      FoldOne(Step, s, open);
      FoldOne(Step, Split(depth + 1, Out, Some(c + [open] + body), done), close);
      assert c + [open] + body + [close] == c + ([open] + body + [close]);
    }
  }

  lemma {:induction false} ValueAbsorbed(depth: nat, v: Value)
    requires Valid(v)
    ensures Absorbed(depth, Render(v))
    decreases v, 0
  {
    match v
    case Str(cs) => StringAbsorbed(depth, cs);
    case Atom(t) => AtomInert(t); AbsorbedPlain(depth, t);
    case EmptyArr(ws) => AbsorbedPlain(depth + 1, ws); BracketedAbsorbed(depth, LBRACKET, ws, RBRACKET);
    case EmptyObj(ws) => AbsorbedPlain(depth + 1, ws); BracketedAbsorbed(depth, LBRACE, ws, RBRACE);
    case Arr(es) => ElemsAbsorbed(depth + 1, es); BracketedAbsorbed(depth, LBRACKET, RenderElems(es), RBRACKET);
    case Obj(ms) => MembersAbsorbed(depth + 1, ms); BracketedAbsorbed(depth, LBRACE, RenderMembers(ms), RBRACE);
  }

  lemma PaddedAbsorbed(depth: nat, pre: bytes, v: Value, post: bytes)
    requires AllWs(pre) && Valid(v) && AllWs(post)
    ensures Absorbed(depth, Padded(pre, v, post)) && Absorbed(depth, Render(v) + post)
    decreases v, 1
  {
    AbsorbedPlain(depth, pre);
    ValueAbsorbed(depth, v);
    AbsorbedPlain(depth, post);
    AbsorbedConcat(depth, Render(v), post);
    AbsorbedConcat(depth, pre, Render(v) + post);
  }

  lemma {:induction false} ElemsAbsorbed(depth: nat, es: Elems)
    requires ValidElems(es) && depth > 0
    ensures Absorbed(depth, RenderElems(es))
    decreases es
  {
    PaddedAbsorbed(depth, es.pre, es.v, es.post);
    if es.MoreElems? {
      AbsorbedOne(depth, COMMA);
      ElemsAbsorbed(depth, es.rest);
      AbsorbedConcat(depth, [COMMA], RenderElems(es.rest));
    } else {
      AbsorbedPlain(depth, []);
    }
    AbsorbedConcat(depth, Padded(es.pre, es.v, es.post), if es.MoreElems? then [COMMA] + RenderElems(es.rest) else []);
  }

  lemma MemberAbsorbed(depth: nat, m: Member)
    requires AllWs(m.pre) && ValidChars(m.key) && AllWs(m.mid)
    requires AllWs(m.mid2) && Valid(m.v) && AllWs(m.post)
    ensures Absorbed(depth, RenderMember(m))
    decreases m
  {
    var value := Padded(m.mid2, m.v, m.post);
    AbsorbedPlain(depth, m.pre);
    StringAbsorbed(depth, m.key);
    AbsorbedPlain(depth, m.mid);
    AbsorbedOne(depth, COLON);
    PaddedAbsorbed(depth, m.mid2, m.v, m.post);
    AbsorbedConcat(depth, [COLON], value);
    AbsorbedConcat(depth, m.mid, [COLON] + value);
    AbsorbedConcat(depth, RenderStr(m.key), m.mid + ([COLON] + value));
    AbsorbedConcat(depth, m.pre, RenderStr(m.key) + (m.mid + ([COLON] + value)));
  }

  lemma {:induction false} MembersAbsorbed(depth: nat, ms: Members)
    requires ValidMembers(ms) && depth > 0
    ensures Absorbed(depth, RenderMembers(ms))
    decreases ms
  {
    MemberAbsorbed(depth, ms.m);
    if ms.MoreMembers? {
      AbsorbedOne(depth, COMMA);
      MembersAbsorbed(depth, ms.rest);
      AbsorbedConcat(depth, [COMMA], RenderMembers(ms.rest));
    } else {
      AbsorbedPlain(depth, []);
    }
    AbsorbedConcat(depth, RenderMember(ms.m), if ms.MoreMembers? then [COMMA] + RenderMembers(ms.rest) else []);
  }

  /** The bytes of each element, up to the comma that follows it. */
  function ElementTexts(es: Elems): seq<bytes> {
    [Render(es.v) + es.post] + if es.MoreElems? then ElementTexts(es.rest) else []
  }

  /** An element that starts afresh scans like the continuation of an empty one. */
  lemma StartsElement(done: seq<bytes>, p: bytes)
    requires p != [] && Visible(p[0]) && p[0] != COMMA && !Closes(p[0]) && Absorbed(0, p)
    ensures Run(Split(0, Out, None, done), p) == Split(0, Out, Some(p), done)
  {
    assert Step(Split(0, Out, None, done), p[0]) == Step(Split(0, Out, Some([]), done), p[0]);
    assert Run(Split(0, Out, None, done), p) == Run(Split(0, Out, Some([]), done), p);
    assert [] + p == p;
  }

  lemma RenderStart(v: Value)
    requires Valid(v)
    ensures Render(v) != [] && Visible(Render(v)[0]) && Render(v)[0] != COMMA && !Closes(Render(v)[0])
  {
    if v.Atom? { AtomInert(v.text); }
  }

  lemma {:induction false} ElemsSplit(done: seq<bytes>, es: Elems)
    requires ValidElems(es)
    ensures Finish(Run(Split(0, Out, None, done), RenderElems(es))) == Some(done + ElementTexts(es))
    decreases es
  {
    var s, p := Split(0, Out, None, done), Render(es.v) + es.post;
    var tail := if es.MoreElems? then [COMMA] + RenderElems(es.rest) else [];
    FoldConcat(Step, s, Padded(es.pre, es.v, es.post), tail);
    FoldConcat(Step, s, es.pre, p);
    BlankSkipped(done, es.pre);
    RenderStart(es.v);
    PaddedAbsorbed(0, [], es.v, es.post);
    StartsElement(done, p);
    if es.MoreElems? {
      FoldConcat(Step, Split(0, Out, Some(p), done), [COMMA], RenderElems(es.rest));
      FoldOne(Step, Split(0, Out, Some(p), done), COMMA);
      ElemsSplit(done + [p], es.rest);
      assert done + [p] + ElementTexts(es.rest) == done + ElementTexts(es);
    } else {
      assert ElementTexts(es) == [p];
    }
  }

  /** On every JSON array the split succeeds with the texts of the elements, in order. */
  lemma SplitsJson(v: Value)
    requires Valid(v) && (v.Arr? || v.EmptyArr?)
    ensures var t := Render(v);
            |t| >= 2 && t[0] == LBRACKET && t[|t| - 1] == RBRACKET
            && Elements(t[1..|t| - 1]) == Some(if v.Arr? then ElementTexts(v.elems) else [])
  {
    var body := if v.Arr? then RenderElems(v.elems) else v.ws;
    assert Render(v)[1..|Render(v)| - 1] == body;
    if v.Arr? {
      ElemsSplit([], v.elems);
      assert [] + ElementTexts(v.elems) == ElementTexts(v.elems);
    } else {
      BlankSkipped([], v.ws);
    }
  }

  // ---- approxBatchLen ----

  /** Over(n) is the early return; limit rides along unchanged. */
  datatype Tally =
    | Over(n: int)
    | Counting(limit: int, depth: int, lex: Lex, count: nat, seen: bool)

  function TallyStep(t: Tally, b: byte): Tally {
    if t.Over? then t
    else
      var Counting(limit, depth, lex, count, seen) := t;
      if lex != Out then Counting(limit, depth, LexStep(lex, b), count, seen)
      else if b == QUOTE then Counting(limit, depth, In, count, seen || depth == 1)
      else if Opens(b) then Counting(limit, depth + 1, Out, count, seen || depth == 1)
      else if Closes(b) then Counting(limit, depth - 1, Out, count, seen)
      else if b == COMMA then
        if depth != 1 then t
        else if count + 2 > limit then Over(count + 2)
        else Counting(limit, depth, Out, count + 1, seen)
      else if IsWs(b) then t
      else Counting(limit, depth, Out, count, seen || depth == 1)
  }

  function Total(t: Tally): int {
    if t.Over? then t.n else if t.seen then t.count + 1 else t.count
  }

  function BatchLen(data: bytes, limit: int): int {
    Total(Fold(TallyStep, Counting(limit, 0, Out, 0, false), data))
  }

  lemma {:induction false} OverForGood(n: int, bs: bytes)
    ensures Fold(TallyStep, Over(n), bs) == Over(n)
    decreases |bs|
  {
    if bs != [] { OverForGood(n, bs[1..]); }
  }

  lemma TallyRun(t: Tally, data: bytes, i: nat)
    requires i < |data|
    ensures Fold(TallyStep, t, data[i..]) == Fold(TallyStep, TallyStep(t, data[i]), data[i + 1..])
    ensures forall n :: Fold(TallyStep, Over(n), data[i + 1..]) == Over(n)
  {
    assert data[i..][1..] == data[i + 1..];
    forall n ensures Fold(TallyStep, Over(n), data[i + 1..]) == Over(n) { OverForGood(n, data[i + 1..]); }
  }

  method ApproxBatchLen(data: bytes, limit: int) returns (n: int)
    ensures n == BatchLen(data, limit)
  {
    var depth, count: nat := 0, 0;
    var inString, escaped, seen := false, false, false;
    ghost var t := Counting(limit, 0, Out, 0, false);
    assert data[0..] == data;
    var i := 0;
    while i < |data|
      invariant 0 <= i <= |data|
      invariant t == Counting(limit, depth, if !inString then Out else if escaped then Esc else In, count, seen)
      invariant !inString ==> !escaped
      invariant Total(Fold(TallyStep, t, data[i..])) == BatchLen(data, limit)
    {
      var b := data[i];
      TallyRun(t, data, i);
      t := TallyStep(t, b);
      if inString {
        if escaped { escaped := false; }
        else if b == BACKSLASH { escaped := true; }
        else if b == QUOTE { inString := false; }
      } else if b == QUOTE {
        inString := true;
        if depth == 1 { seen := true; }
      } else if Opens(b) {
        if depth == 1 { seen := true; }
        depth := depth + 1;
      } else if Closes(b) {
        depth := depth - 1;
      } else if b == COMMA {
        if depth == 1 {
          count := count + 1;
          if count + 1 > limit { return count + 1; }
        }
      } else if IsWs(b) {
      } else {
        if depth == 1 { seen := true; }
      }
      i := i + 1;
    }
    assert data[i..] == [];
    if seen { count := count + 1; }
    return count;
  }

  /** Tally and splitter in step: same place in the text, commas counted as elements cut off. */
  ghost predicate InStep(s: State, t: Tally, limit: int) {
    s.Split? ==>
      if t.Over? then t.n == limit + 1 && |s.done| >= limit
      else t == Counting(limit, s.depth + 1, s.lex, |s.done|, s.cur.Some? || s.done != [])
           && |s.done| < limit && (s.depth > 0 || s.lex != Out ==> s.cur.Some?)
  }

  lemma {:induction false} StayInStep(s: State, t: Tally, limit: int, bs: bytes)
    requires InStep(s, t, limit)
    ensures InStep(Run(s, bs), Fold(TallyStep, t, bs), limit)
    decreases |bs|
  {
    if bs != [] { StayInStep(Step(s, bs[0]), TallyStep(t, bs[0]), limit, bs[1..]); }
  }

  /** On every payload the splitter accepts, the cheap count is exact up to the limit,
      and beyond it the cap fires: the early exit never misjudges. */
  lemma TallyIsExact(inner: bytes, ps: seq<bytes>, limit: int)
    requires limit >= 1 && Elements(inner) == Some(ps)
    ensures var n := BatchLen([LBRACKET] + inner + [RBRACKET], limit);
            n == if |ps| <= limit then |ps| else limit + 1
  {
    var t0 := Counting(limit, 0, Out, 0, false);
    FoldConcat(TallyStep, t0, [LBRACKET] + inner, [RBRACKET]);
    FoldConcat(TallyStep, t0, [LBRACKET], inner);
    FoldOne(TallyStep, t0, LBRACKET);
    StayInStep(START, Counting(limit, 1, Out, 0, false), limit, inner);
    var t := Fold(TallyStep, Counting(limit, 1, Out, 0, false), inner);
    FoldOne(TallyStep, t, RBRACKET);
  }
}
