/** What the replies of Dispatch mean: section 6 of the JSON-RPC 2.0 specification, the caps, and the JSON on the
    wire. */
module Conformity {
  import opened Wrappers
  import opened Bytes
  import opened Decimal
  import opened JsonGrammar
  import opened Dispatch
  import SilenceScan
  import BatchSplit
  import BatchPool

  // ---- section 6 of the JSON-RPC 2.0 specification ----

  /** An entry that must be answered: it is no request object, an invalid one, or it carries an id. */
  predicate NeedsReply(codec: Codec, e: bytes) {
    match codec.decode(e)
    case None => true
    case Some(req) => !ValidRequest(codec, req) || req.id != []
  }

  /** The id a reply must bear: the entry's own, or none when it is absent or broken. */
  function EchoedId(codec: Codec, e: bytes): bytes {
    match codec.decode(e)
    case None => []
    case Some(req) => if req.id != [] && codec.valid(req.id) then req.id else []
  }

  /** An error keeps its code and data when the code is registered, and is an internal error without data otherwise. */
  function Reported(srv: Server, code: int, data: Data): Body {
    if code in srv.messages then Error(code, srv.messages[code], data)
    else Error(INTERNAL_ERROR, Message(srv, INTERNAL_ERROR), NoData)
  }

  /** What the reply to an entry says: one that is no valid request is told so, whatever its method would have given. */
  function DueBody(srv: Server, codec: Codec, e: bytes, outcome: Outcome): Body {
    if codec.decode(e).None? || !ValidRequest(codec, codec.decode(e).value) then Reported(srv, INVALID_REQUEST, NoData)
    else if outcome.Returned? then Result(outcome.raw)
    else Reported(srv, outcome.code, outcome.data)
  }

  function DueReply(srv: Server, codec: Codec, e: bytes, outcome: Outcome): Response {
    Response(DueBody(srv, codec, e, outcome), EchoedId(codec, e))
  }

  /** The positions of the entries that must be answered. */
  function Due(codec: Codec, elems: seq<bytes>): seq<nat>
    decreases |elems|
  {
    if elems == [] then []
    else
      var k := |elems| - 1;
      Due(codec, elems[..k]) + if NeedsReply(codec, elems[k]) then [k] else []
  }

  lemma {:induction false} DueIncreases(codec: Codec, elems: seq<bytes>)
    ensures var at := Due(codec, elems);
            && (forall k :: 0 <= k < |at| ==> at[k] < |elems|)
            && (forall j, k :: 0 <= j < k < |at| ==> at[j] < at[k])
    decreases |elems|
  {
    if elems != [] {
      var k := |elems| - 1;
      DueIncreases(codec, elems[..k]);
      assert Due(codec, elems) == Due(codec, elems[..k]) + if NeedsReply(codec, elems[k]) then [k] else [];
    }
  }

  lemma {:induction false} DueIsExact(codec: Codec, elems: seq<bytes>, i: nat)
    requires i < |elems|
    ensures i in Due(codec, elems) <==> NeedsReply(codec, elems[i])
    decreases |elems|
  {
    var k := |elems| - 1;
    var front := elems[..k];
    DueIncreases(codec, front);
    if i < k {
      DueIsExact(codec, front, i);
      assert front[i] == elems[i];
    }
  }

  lemma NothingDue(codec: Codec, elems: seq<bytes>)
    ensures Due(codec, elems) == [] <==> forall i :: 0 <= i < |elems| ==> !NeedsReply(codec, elems[i])
  {
    var at := Due(codec, elems);
    forall i | 0 <= i < |elems| ensures i in at <==> NeedsReply(codec, elems[i]) { DueIsExact(codec, elems, i); }
    if at != [] {
      DueIncreases(codec, elems);
      assert at[0] in at;
    }
  }

  lemma ElementReplyFits(srv: Server, codec: Codec, e: bytes, outcome: Outcome)
    ensures ElementReply(srv, codec, e, outcome).Some? <==> NeedsReply(codec, e)
    ensures NeedsReply(codec, e) ==> ElementReply(srv, codec, e, outcome).value == DueReply(srv, codec, e, outcome)
  {
  }

  lemma {:induction false} RepliesFit(srv: Server, codec: Codec, elems: seq<bytes>, outcomes: Outcomes, n: nat)
    requires n <= |elems|
    ensures var rs := BatchPool.Sequential(ElementReplies(srv, codec, elems, outcomes), n);
            var at := Due(codec, elems[..n]);
            |rs| == |at| && forall k :: 0 <= k < |at| ==>
              at[k] < n && rs[k] == DueReply(srv, codec, elems[at[k]], outcomes(at[k]))
  {
    if n > 0 {
      RepliesFit(srv, codec, elems, outcomes, n - 1);
      assert elems[..n][..n - 1] == elems[..n - 1];
      ElementReplyFits(srv, codec, elems[n - 1], outcomes(n - 1));
    }
  }

  /** The payload reaches the pool as a batch with these entries. */
  ghost predicate Accepted(srv: Server, codec: Codec, payload: bytes, elems: seq<bytes>) {
    var data := TrimSpace(payload);
    && !Oversized(srv, payload) && Bracketed(data) && !OverCap(srv, data)
    && BatchSplit.Elements(data[1..|data| - 1]) == Some(elems)
    && elems != [] && !AnyBroken(codec, elems)
  }

  lemma AcceptedReply(srv: Server, codec: Codec, payload: bytes, elems: seq<bytes>, outcomes: Outcomes)
    requires Accepted(srv, codec, payload, elems)
    ensures var rs := Replies(srv, codec, elems, outcomes);
            Handle(srv, codec, payload, outcomes) == if rs == [] then Nothing else Many(rs)
  {
  }

  /** These replies, in this order, are those due to the entries at these positions. */
  ghost predicate Answers(srv: Server, codec: Codec, elems: seq<bytes>, outcomes: Outcomes, rs: seq<Response>,
                          at: seq<nat>)
  {
    |rs| == |at| && forall k :: 0 <= k < |at| ==>
      at[k] < |elems| && rs[k] == DueReply(srv, codec, elems[at[k]], outcomes(at[k]))
  }

  /** Exactly the entries that must be answered are, in the order of the entries, each under its own id and with what
      is due to it; a batch of valid notifications gets no answer at all, and no other batch does. */
  lemma SectionSix(srv: Server, codec: Codec, payload: bytes, elems: seq<bytes>, outcomes: Outcomes)
    requires Accepted(srv, codec, payload, elems)
    ensures var reply := Handle(srv, codec, payload, outcomes);
            && (reply == Nothing <==> forall i :: 0 <= i < |elems| ==> !NeedsReply(codec, elems[i]))
            && (reply != Nothing ==>
                  reply.Many? && reply.rs != [] && Answers(srv, codec, elems, outcomes, reply.rs, Due(codec, elems)))
  {
    AcceptedReply(srv, codec, payload, elems, outcomes);
    RepliesFit(srv, codec, elems, outcomes, |elems|);
    assert elems[..|elems|] == elems;
    NothingDue(codec, elems);
  }

  /** A request whose id is an object. */
  function OddRequest(): bytes {
    Ascii("{\"jsonrpc\":\"2.0\",\"method\":\"m\",\"id\":{}}")
  }

  lemma OddRequestTrims()
    ensures var e := OddRequest(); |e| == 38 && TrimSpace(e) == e && Braced(e)
  {
    var e := OddRequest();
    TrimSpaceWs([], e, []);
    Unpadded(e);
  }

  /** A message that is an object, and not over the cap, is answered as an entry of a batch would be: not at all when it
      is a valid notification, and otherwise with what is due to it. An object that is no request is refused. */
  lemma SingleSection(srv: Server, codec: Codec, payload: bytes, outcomes: Outcomes)
    requires !(0 < srv.maxMessageSize < |payload|) && Braced(TrimSpace(payload))
    ensures var e, reply := TrimSpace(payload), Handle(srv, codec, payload, outcomes);
            if codec.decode(e).None? then reply == Refused(if codec.valid(e) then InvalidRequest else ParseError)
            else if NeedsReply(codec, e) then reply == One(DueReply(srv, codec, e, outcomes(0)))
            else reply == Nothing
  {
  }

  /** An id of the wrong kind, an object, makes the request invalid, and is sent back byte for byte. */
  lemma OddIdIsEchoed(srv: Server, codec: Codec, outcomes: Outcomes)
    requires codec.decode(OddRequest()) == Some(Request(Ascii("2.0"), Ascii("m"), [], Ascii("{}")))
    requires codec.valid(Ascii("{}")) && (srv.maxMessageSize <= 0 || srv.maxMessageSize >= 38)
    ensures Handle(srv, codec, OddRequest(), outcomes)
         == One(Response(Reported(srv, INVALID_REQUEST, NoData), Ascii("{}")))
  {
    OddRequestTrims();
    SingleSection(srv, codec, OddRequest(), outcomes);
    assert Ascii("{}")[0] == LBRACE;
  }

  // ---- the caps ----

  /** The cheap count never misjudges: a batch the splitter accepts is over the cap exactly when it has too many
      entries. */
  lemma CapIsExact(srv: Server, data: bytes, elems: seq<bytes>)
    requires Bracketed(data) && BatchSplit.Elements(data[1..|data| - 1]) == Some(elems)
    ensures OverCap(srv, data) <==> srv.maxBatchSize > 0 && |elems| > srv.maxBatchSize
  {
    if srv.maxBatchSize > 0 {
      BatchSplit.TallyIsExact(data[1..|data| - 1], elems, srv.maxBatchSize);
      assert [LBRACKET] + data[1..|data| - 1] + [RBRACKET] == data;
    }
  }

  ghost predicate CarriesRequestId(v: Value)
    requires Valid(v)
  {
    (v.Obj? && SilenceScan.CarriesId(v.members)) || (v.Arr? && SilenceScan.SomeRequestCarriesId(v.elems))
  }

  /** A message over a cap in which some request carries an id never goes unanswered. */
  lemma RejectionAnswersEveryCaller(srv: Server, codec: Codec, pre: bytes, v: Value, post: bytes, outcomes: Outcomes)
    requires AllWs(pre) && Valid(v) && AllWs(post) && CarriesRequestId(v)
    requires var payload := pre + Render(v) + post;
             Oversized(srv, payload) || (Bracketed(TrimSpace(payload)) && OverCap(srv, TrimSpace(payload)))
    ensures var payload := pre + Render(v) + post;
            Handle(srv, codec, payload, outcomes)
            == Refused(if Oversized(srv, payload) then RequestTooLarge else BatchTooLarge)
  {
    var payload, t := pre + Render(v) + post, Render(v);
    RenderEnds(v);
    TrimSpaceWs(pre, t, post);
    if Oversized(srv, payload) {
      if SilenceScan.Verdict(TrimSpace(payload)) { SilenceScan.SilenceIsSound(pre, v, post); }
    } else {
      assert [] + t + [] == t;
      if SilenceScan.Verdict(TrimSpace(t)) { SilenceScan.SilenceIsSound([], v, []); }
    }
  }

  // ---- messages that are JSON ----

  /** The JSON scanner behind codec.Valid gives up on deeper nesting. */
  const MAX_DEPTH: nat := 10000

  /** codec.Valid accepts the JSON texts nested no deeper than that. */
  ghost predicate AcceptsJson(codec: Codec) {
    forall v, post :: Valid(v) && AllWs(post) ==> codec.valid(Render(v) + post) == (Depth(v) <= MAX_DEPTH)
  }

  lemma JsonAccepted(codec: Codec, v: Value, post: bytes)
    requires AcceptsJson(codec) && Valid(v) && AllWs(post)
    ensures codec.valid(Render(v) + post) == (Depth(v) <= MAX_DEPTH)
  {
  }

  /** Some element is no request and nested too deeply to be told from broken JSON. */
  predicate TooDeep(codec: Codec, es: Elems) {
    || (codec.decode(Render(es.v) + es.post).None? && Depth(es.v) > MAX_DEPTH)
    || (es.MoreElems? && TooDeep(codec, es.rest))
  }

  lemma FirstOrRest(codec: Codec, first: bytes, rest: seq<bytes>)
    ensures var all := [first] + rest;
            AnyBroken(codec, all) <==> Broken(codec, first) || AnyBroken(codec, rest)
  {
    var all := [first] + rest;
    assert all[0] == first;
    if i :| 0 <= i < |all| && Broken(codec, all[i]) { assert i == 0 || all[i] == rest[i - 1]; }
    if i :| 0 <= i < |rest| && Broken(codec, rest[i]) { assert all[i + 1] == rest[i]; }
  }

  lemma {:induction false} BrokenIsTooDeep(codec: Codec, es: Elems)
    requires AcceptsJson(codec) && ValidElems(es)
    ensures AnyBroken(codec, BatchSplit.ElementTexts(es)) <==> TooDeep(codec, es)
    decreases es
  {
    var text, rest := Render(es.v) + es.post, if es.MoreElems? then BatchSplit.ElementTexts(es.rest) else [];
    JsonAccepted(codec, es.v, es.post);
    assert BatchSplit.ElementTexts(es) == [text] + rest;
    FirstOrRest(codec, text, rest);
    if es.MoreElems? { BrokenIsTooDeep(codec, es.rest); }
  }

  /** A JSON array is handled as the batch of its elements exactly when it is non-empty, within the caps, and no element
      that is not a request is nested too deeply. */
  lemma JsonArrayAccepted(srv: Server, codec: Codec, pre: bytes, es: Elems, post: bytes)
    requires AcceptsJson(codec) && AllWs(pre) && ValidElems(es) && AllWs(post)
    ensures var payload, texts := pre + Render(Arr(es)) + post, BatchSplit.ElementTexts(es);
            Accepted(srv, codec, payload, texts)
            <==> !Oversized(srv, payload) && !(srv.maxBatchSize > 0 && |texts| > srv.maxBatchSize)
                 && !TooDeep(codec, es)
  {
    RenderEnds(Arr(es));
    TrimSpaceWs(pre, Render(Arr(es)), post);
    BatchSplit.SplitsJson(Arr(es));
    CapIsExact(srv, Render(Arr(es)), BatchSplit.ElementTexts(es));
    BrokenIsTooDeep(codec, es);
  }

  /** What makes a JSON text look broken: an element, or the object itself, that is no request and nested too deeply. */
  ghost predicate LooksBroken(srv: Server, codec: Codec, v: Value) {
    match v
    case Arr(es) => TooDeep(codec, es) && !(srv.maxBatchSize > 0 && |BatchSplit.ElementTexts(es)| > srv.maxBatchSize)
    case Obj(_) => codec.decode(Render(v)).None? && Depth(v) > MAX_DEPTH
    case _ => false
  }

  lemma ArrayParseError(srv: Server, codec: Codec, v: Value, outcomes: Outcomes)
    requires AcceptsJson(codec) && Valid(v) && (v.Arr? || v.EmptyArr?)
    ensures DataReply(srv, codec, Render(v), outcomes) == Refused(ParseError) <==> LooksBroken(srv, codec, v)
  {
    BatchSplit.SplitsJson(v);
    CapIsExact(srv, Render(v), if v.Arr? then BatchSplit.ElementTexts(v.elems) else []);
    if v.Arr? { BrokenIsTooDeep(codec, v.elems); }
  }

  lemma OtherParseError(srv: Server, codec: Codec, v: Value, outcomes: Outcomes)
    requires AcceptsJson(codec) && Valid(v) && !v.Arr? && !v.EmptyArr?
    ensures DataReply(srv, codec, Render(v), outcomes) == Refused(ParseError) <==> LooksBroken(srv, codec, v)
  {
    if Bracketed(Render(v)) { OnlyArraysAreBracketed(v); }
    if v.Atom? { AtomInert(v.text); }
    JsonAccepted(codec, v, []);
    assert Render(v) + [] == Render(v);
  }

  /** JSON is answered with a parse error exactly when it is within the caps and an element that is no request, or an
      object that is none, is nested too deeply for the scanner. */
  lemma JsonParseError(srv: Server, codec: Codec, pre: bytes, v: Value, post: bytes, outcomes: Outcomes)
    requires AcceptsJson(codec) && AllWs(pre) && Valid(v) && AllWs(post)
    ensures Handle(srv, codec, pre + Render(v) + post, outcomes) == Refused(ParseError)
            <==> !Oversized(srv, pre + Render(v) + post) && LooksBroken(srv, codec, v)
  {
    RenderEnds(v);
    TrimSpaceWs(pre, Render(v), post);
    if v.Arr? || v.EmptyArr? {
      ArrayParseError(srv, codec, v, outcomes);
    } else {
      OtherParseError(srv, codec, v, outcomes);
    }
  }

  lemma {:induction false} ShallowElems(codec: Codec, es: Elems)
    requires ElemsDepth(es) <= MAX_DEPTH
    ensures !TooDeep(codec, es)
    decreases es
  {
    if es.MoreElems? { ShallowElems(codec, es.rest); }
  }

  /** Within the scanner's limit JSON is never answered with a parse error; an array may be one level deeper. */
  lemma ShallowJsonIsNeverParseError(srv: Server, codec: Codec, pre: bytes, v: Value, post: bytes, outcomes: Outcomes)
    requires AcceptsJson(codec) && AllWs(pre) && Valid(v) && AllWs(post)
    requires Depth(v) <= MAX_DEPTH || (v.Arr? && Depth(v) == MAX_DEPTH + 1)
    ensures Handle(srv, codec, pre + Render(v) + post, outcomes) != Refused(ParseError)
  {
    JsonParseError(srv, codec, pre, v, post, outcomes);
    if v.Arr? { ShallowElems(codec, v.elems); }
  }

  /** n arrays around nothing else. */
  function Nest(n: nat): Value
    requires n > 0
  {
    if n == 1 then EmptyArr([]) else Arr(LastElem([], Nest(n - 1), []))
  }

  lemma Wrapped(v: Value)
    ensures Render(Arr(LastElem([], v, []))) == [LBRACKET] + Render(v) + [RBRACKET]
  {
    assert RenderElems(LastElem([], v, [])) == Padded([], v, []) + [] == Render(v);
  }

  lemma {:induction false} NestFacts(n: nat)
    requires n > 0
    ensures Valid(Nest(n)) && Depth(Nest(n)) == n && |Render(Nest(n))| == 2 * n
  {
    if n > 1 {
      NestFacts(n - 1);
      Wrapped(Nest(n - 1));
    }
  }

  lemma Unpadded(t: bytes)
    ensures [] + t + [] == t
  {
  }

  lemma NestLooksBroken(srv: Server, codec: Codec, n: nat)
    requires n > MAX_DEPTH && codec.decode(Render(Nest(n))).None?
    ensures LooksBroken(srv, codec, Nest(n + 1))
  {
    NestFacts(n);
    var es := LastElem([], Nest(n), []);
    assert Nest(n + 1) == Arr(es);
    assert Render(Nest(n)) + [] == Render(Nest(n));
    assert TooDeep(codec, es);
  }

  /** The input: 10002 brackets opened and closed. No codec takes an array for a request, so the answer is a parse
      error, to JSON. */
  lemma DeepNestingIsParseError(srv: Server, codec: Codec, outcomes: Outcomes)
    requires AcceptsJson(codec) && codec.decode(Render(Nest(10001))).None?
    requires srv.maxMessageSize <= 0 || srv.maxMessageSize >= 20004
    ensures Valid(Nest(10002)) && Handle(srv, codec, Render(Nest(10002)), outcomes) == Refused(ParseError)
  {
    var n := 10002;
    NestFacts(n);
    NestLooksBroken(srv, codec, n - 1);
    Unpadded(Render(Nest(n)));
    JsonParseError(srv, codec, [], Nest(n), [], outcomes);
  }

  lemma OnlyArraysAreBracketed(v: Value)
    requires Valid(v) && Bracketed(Render(v))
    ensures v.Arr? || v.EmptyArr?
  {
    if v.Atom? { AtomInert(v.text); }
  }

  // ---- replies are JSON ----

  /** Chars that need no escape. */
  function Plain(s: bytes): seq<Char> {
    seq(|s|, i requires 0 <= i < |s| => Unescaped(s[i]))
  }

  lemma {:induction false} PlainRenders(s: bytes)
    ensures RenderChars(Plain(s)) == s
    decreases |s|
  {
    if s != [] {
      PlainRenders(s[1..]);
      assert Plain(s)[1..] == Plain(s[1..]);
    }
  }

  function MemberOf(name: bytes, v: Value): Member {
    Member([], Plain(name), [], [], v, [])
  }

  lemma FieldIsMember(name: bytes, v: Value)
    ensures RenderMember(MemberOf(name, v)) == Field(name, Render(v))
  {
    PlainRenders(name);
    assert Render(v) + [] == Render(v);
  }

  ghost predicate IsJson(t: bytes) {
    exists v :: Valid(v) && t == Render(v)
  }

  ghost predicate IsJsonString(t: bytes) {
    exists cs :: ValidChars(cs) && t == RenderStr(cs)
  }

  /** What a response must be made of for its text to be JSON: handlers and data marshalers return JSON. */
  ghost predicate Sound(r: Response) {
    IsJson(OrNull(r.id)) && SoundBody(r.body)
  }

  ghost predicate SoundBody(body: Body) {
    match body
    case Result(raw) => IsJson(OrNull(raw))
    case Error(_, message, data) =>
      IsJsonString(message) && !data.Unmarshalable? && (data.Json? ==> IsJson(OrNull(data.text)))
  }

  predicate PlainName(name: bytes) {
    forall i :: 0 <= i < |name| ==> name[i] >= 0x20 && name[i] != QUOTE && name[i] != BACKSLASH
  }

  function LastField(name: bytes, v: Value): Members { LastMember(MemberOf(name, v)) }

  function MoreFields(name: bytes, v: Value, rest: Members): Members { MoreMembers(MemberOf(name, v), rest) }

  lemma MoreRenders(name: bytes, v: Value, rest: Members)
    requires PlainName(name) && Valid(v)
    ensures ValidMembers(LastField(name, v)) && RenderMembers(LastField(name, v)) == Field(name, Render(v))
    ensures ValidMembers(rest) ==> ValidMembers(MoreFields(name, v, rest))
    ensures RenderMembers(MoreFields(name, v, rest)) == Field(name, Render(v)) + ([COMMA] + RenderMembers(rest))
  {
    FieldIsMember(name, v);
  }

  lemma {:induction false} PrintStarts(n: nat)
    ensures Print(n)[0] == 48 ==> n == 0
  {
    if n >= 10 {
      PrintStarts(n / 10);
    }
  }

  lemma {:induction false} SkipsAll(s: bytes, i: nat)
    requires i <= |s| && AllDigits(s)
    ensures SkipDigits(s, i) == |s|
    decreases |s| - i
  {
    if i < |s| { SkipsAll(s, i + 1); }
  }

  lemma PrintIntIsNumber(n: int)
    ensures IsNumber(PrintInt(n))
  {
    var t := if n < 0 then Print(-n) else Print(n);
    if n < 0 { assert PrintInt(n)[1..] == t; PrintStarts(-n); } else { PrintStarts(n); }
    SkipsAll(t, 0);
    var j := if t[0] == 48 then 1 else SkipDigits(t, 0);
    assert t[j..] == [];
  }

  /** The members of an error object after its code. */
  function ErrorTail(message: bytes, data: Data): bytes {
    Field(Ascii("message"), message) + if data.Json? then [COMMA] + Field(Ascii("data"), OrNull(data.text)) else []
  }

  lemma TailWithoutData(name: bytes, cs: seq<Char>)
    requires PlainName(name) && ValidChars(cs)
    ensures ValidMembers(LastField(name, Str(cs)))
            && RenderMembers(LastField(name, Str(cs))) == Field(name, RenderStr(cs)) + []
  {
    MoreRenders(name, Str(cs), LastField(name, Str(cs)));
  }

  lemma TailWithData(name: bytes, cs: seq<Char>, second: bytes, d: Value)
    requires PlainName(name) && ValidChars(cs) && PlainName(second) && Valid(d)
    ensures var ms := MoreFields(name, Str(cs), LastField(second, d));
            ValidMembers(ms) && RenderMembers(ms) == Field(name, RenderStr(cs)) + ([COMMA] + Field(second, Render(d)))
  {
    MoreRenders(second, d, LastField(second, d));
    MoreRenders(name, Str(cs), LastField(second, d));
  }

  /** The members of an error object after its code, as a tree. */
  function ErrorMembers(message: Value, data: Option<Value>): Members {
    if data.Some? then MoreFields(Ascii("message"), message, LastField(Ascii("data"), data.value))
    else LastField(Ascii("message"), message)
  }

  /** An object of the members code, message and, if there is any, data. */
  function ErrorObject(code: int, message: Value, data: Option<Value>): Value {
    Obj(MoreFields(Ascii("code"), Atom(PrintInt(code)), ErrorMembers(message, data)))
  }

  lemma BareTail(message: bytes) returns (m: Value)
    requires IsJsonString(message)
    ensures Render(m) == message
    ensures ValidMembers(ErrorMembers(m, None)) && RenderMembers(ErrorMembers(m, None)) == ErrorTail(message, NoData)
  {
    var cs :| ValidChars(cs) && message == RenderStr(cs);
    m := Str(cs);
    TailWithoutData(Ascii("message"), cs);
  }

  lemma DataTail(message: bytes, text: bytes) returns (m: Value, d: Value)
    requires IsJsonString(message) && IsJson(OrNull(text))
    ensures Render(m) == message && Render(d) == OrNull(text) && ValidMembers(ErrorMembers(m, Some(d)))
    ensures RenderMembers(ErrorMembers(m, Some(d)))
         == Field(Ascii("message"), message) + ([COMMA] + Field(Ascii("data"), OrNull(text)))
  {
    var cs :| ValidChars(cs) && message == RenderStr(cs);
    d :| Valid(d) && OrNull(text) == Render(d);
    m := Str(cs);
    TailWithData(Ascii("message"), cs, Ascii("data"), d);
  }

  lemma TailIsMembers(message: bytes, data: Data) returns (m: Value, d: Option<Value>)
    requires IsJsonString(message) && (data.Json? ==> IsJson(OrNull(data.text)))
    ensures Render(m) == message && (d.Some? <==> data.Json?) && (d.Some? ==> Render(d.value) == OrNull(data.text))
    ensures ValidMembers(ErrorMembers(m, d)) && RenderMembers(ErrorMembers(m, d)) == ErrorTail(message, data)
  {
    if data.Json? {
      var value;
      m, value := DataTail(message, data.text);
      d := Some(value);
    } else {
      m := BareTail(message);
      d := None;
    }
  }

  lemma ErrorIsJson(code: int, message: bytes, data: Data) returns (m: Value, d: Option<Value>)
    requires IsJsonString(message) && (data.Json? ==> IsJson(OrNull(data.text)))
    ensures Render(m) == message && (d.Some? <==> data.Json?) && (d.Some? ==> Render(d.value) == OrNull(data.text))
    ensures Valid(ErrorObject(code, m, d)) && Render(ErrorObject(code, m, d)) == ErrorText(code, message, data)
  {
    m, d := TailIsMembers(message, data);
    PrintIntIsNumber(code);
    MoreRenders(Ascii("code"), Atom(PrintInt(code)), ErrorMembers(m, d));
  }

  /** The value stands for the body: the result, or an object that holds the error. */
  ghost predicate Tells(v: Value, body: Body) {
    match body
    case Result(raw) => Render(v) == OrNull(raw)
    case Error(code, message, data) =>
      exists m: Value, d: Option<Value> :: v == ErrorObject(code, m, d) && Render(m) == message
        && (d.Some? <==> data.Json?) && (d.Some? ==> Render(d.value) == OrNull(data.text))
  }

  lemma BodyIsField(body: Body) returns (name: bytes, v: Value)
    requires SoundBody(body)
    ensures PlainName(name) && Valid(v) && BodyField(body) == Field(name, Render(v))
    ensures name == (if body.Result? then Ascii("result") else Ascii("error")) && Tells(v, body)
  {
    match body
    case Result(raw) =>
      name := Ascii("result");
      v :| Valid(v) && OrNull(raw) == Render(v);
    case Error(code, message, data) =>
      name := Ascii("error");
      var m, d := ErrorIsJson(code, message, data);
      v := ErrorObject(code, m, d);
  }

  lemma ThreeFields(a: bytes, va: Value, b: bytes, vb: Value, c: bytes, vc: Value)
    requires PlainName(a) && Valid(va) && PlainName(b) && Valid(vb) && PlainName(c) && Valid(vc)
    ensures var v := Obj(MoreFields(a, va, MoreFields(b, vb, LastField(c, vc))));
            && Valid(v)
            && Render(v)
               == [LBRACE]
                  + (Field(a, Render(va)) + ([COMMA] + (Field(b, Render(vb)) + ([COMMA] + Field(c, Render(vc))))))
                  + [RBRACE]
  {
    MoreRenders(c, vc, LastField(c, vc));
    MoreRenders(b, vb, LastField(c, vc));
    MoreRenders(a, va, MoreFields(b, vb, LastField(c, vc)));
  }

  lemma VersionRenders()
    ensures var v := Str(Plain(Ascii("2.0"))); Valid(v) && Render(v) == [QUOTE] + Ascii("2.0") + [QUOTE]
  {
    PlainRenders(Ascii("2.0"));
  }

  lemma TreeRenders(name: bytes, body: Value, id: Value)
    requires PlainName(name) && Valid(body) && Valid(id)
    ensures Valid(ReplyTree(name, body, id))
    ensures Render(ReplyTree(name, body, id))
         == [LBRACE]
            + (Field(Ascii("jsonrpc"), [QUOTE] + Ascii("2.0") + [QUOTE])
               + ([COMMA] + (Field(name, Render(body)) + ([COMMA] + Field(Ascii("id"), Render(id))))))
            + [RBRACE]
  {
    VersionRenders();
    ThreeFields(Ascii("jsonrpc"), Str(Plain(Ascii("2.0"))), name, body, Ascii("id"), id);
  }

  /** The text of a reply is a JSON object with the members jsonrpc, then either result, with the value of the result,
      or error, with an object of the code, the message and the data if there is any, and then id. */
  lemma ReplyIsJson(r: Response) returns (name: bytes, body: Value, id: Value)
    requires Sound(r)
    ensures Valid(ReplyTree(name, body, id)) && Render(ReplyTree(name, body, id)) == Text(r)
            && Render(id) == OrNull(r.id)
    ensures name == (if r.body.Result? then Ascii("result") else Ascii("error")) && Tells(body, r.body)
  {
    id :| Valid(id) && OrNull(r.id) == Render(id);
    name, body := BodyIsField(r.body);
    TreeRenders(name, body, id);
  }

  function ReplyTree(name: bytes, body: Value, id: Value): Value {
    Obj(MoreFields(Ascii("jsonrpc"), Str(Plain(Ascii("2.0"))), MoreFields(name, body, LastField(Ascii("id"), id))))
  }

  lemma JsonIsElement(v: Value)
    requires Valid(v)
    ensures BatchSplit.Element(Render(v))
  {
    var es := LastElem([], v, []);
    BatchSplit.ElemsSplit([], es);
    var texts := BatchSplit.ElementTexts(es);
    assert [] + texts == texts && texts == [Render(v)] by { assert Render(v) + [] == Render(v); }
    BatchSplit.ElementsSound(RenderElems(es), texts);
    assert BatchSplit.Element(texts[0]);
  }

  lemma ReplyIsElement(r: Response)
    requires Sound(r)
    ensures BatchSplit.Element(Text(r))
  {
    var name, body, id := ReplyIsJson(r);
    JsonIsElement(ReplyTree(name, body, id));
  }

  lemma JoinReadsBack(texts: seq<bytes>)
    requires texts != [] && BatchSplit.AllElements(texts)
    ensures var wire := [LBRACKET] + BatchSplit.CommaJoin(texts) + [RBRACKET];
            Bracketed(wire) && BatchSplit.Elements(wire[1..|wire| - 1]) == Some(texts)
  {
    var inner := BatchSplit.CommaJoin(texts);
    var wire := [LBRACKET] + inner + [RBRACKET];
    assert wire[1..|wire| - 1] == inner;
    BatchSplit.ElementsComplete(inner, seq(|texts|, i => []), texts);
  }

  ghost predicate AllSound(rs: seq<Response>) {
    forall i :: 0 <= i < |rs| ==> Sound(rs[i])
  }

  lemma TextsAreElements(rs: seq<Response>)
    requires AllSound(rs)
    ensures BatchSplit.AllElements(Texts(rs))
  {
    forall i | 0 <= i < |rs| ensures BatchSplit.Element(Texts(rs)[i]) { ReplyIsElement(rs[i]); }
  }

  /** Whoever splits the bytes of a batch reply as this code splits a batch gets the texts of the replies, in order. */
  lemma BatchReplyReadsBack(rs: seq<Response>, wire: bytes)
    requires rs != [] && AllSound(rs) && MarshalBatch(rs) == Some(wire)
    ensures Bracketed(wire) && BatchSplit.Elements(wire[1..|wire| - 1]) == Some(Texts(rs))
  {
    TextsAreElements(rs);
    JoinReadsBack(Texts(rs));
  }

  // ---- an accepted batch, from its bytes to the bytes of its reply ----

  /** Handlers return JSON, and the registered texts are JSON strings. */
  ghost predicate SoundSides(srv: Server, outcomes: Outcomes) {
    && (forall code :: code in srv.messages ==> IsJsonString(srv.messages[code]))
    && (forall i: nat :: SoundOutcome(outcomes(i)))
  }

  ghost predicate SoundOutcome(outcome: Outcome) {
    match outcome
    case Returned(raw) => IsJson(OrNull(raw))
    case Failed(_, data) => data.Json? ==> IsJson(OrNull(data.text))
  }

  /** The id of a decoded request is the bytes of its member, so it is JSON if it is valid. */
  ghost predicate IdsAreJson(codec: Codec) {
    forall e :: codec.decode(e).Some? && codec.valid(codec.decode(e).value.id) ==> IsJson(codec.decode(e).value.id)
  }

  /** The text of the reply to an entry: what is due to it, unless that does not marshal. */
  function DueText(srv: Server, codec: Codec, e: bytes, outcome: Outcome): bytes {
    var body := DueBody(srv, codec, e, outcome);
    Text(Response(if body.Error? && body.data.Unmarshalable? then Reported(srv, INTERNAL_ERROR, NoData) else body,
                  EchoedId(codec, e)))
  }

  lemma NullIsJson()
    ensures IsJson(Null())
  {
    assert Valid(Atom(Null())) && Render(Atom(Null())) == Null();
  }

  lemma EmptyIsJsonString()
    ensures IsJsonString(Ascii("\"\""))
  {
    assert ValidChars([]) && RenderStr([]) == Ascii("\"\"");
  }

  lemma EchoIsJson(codec: Codec, e: bytes)
    requires IdsAreJson(codec)
    ensures IsJson(OrNull(EchoedId(codec, e)))
  {
    NullIsJson();
  }

  lemma ReportedIsSound(srv: Server, code: int, data: Data)
    requires forall c :: c in srv.messages ==> IsJsonString(srv.messages[c])
    requires data.Json? ==> IsJson(OrNull(data.text))
    ensures var body := Reported(srv, code, data); !body.data.Unmarshalable? ==> SoundBody(body)
    ensures SoundBody(Reported(srv, INTERNAL_ERROR, NoData))
  {
    EmptyIsJsonString();
  }

  lemma BodySound(srv: Server, codec: Codec, e: bytes, outcome: Outcome)
    requires forall c :: c in srv.messages ==> IsJsonString(srv.messages[c])
    requires SoundOutcome(outcome)
    ensures var body := DueBody(srv, codec, e, outcome);
            (body.Error? && body.data.Unmarshalable?) || SoundBody(body)
    ensures SoundBody(Reported(srv, INTERNAL_ERROR, NoData))
  {
    ReportedIsSound(srv, INVALID_REQUEST, NoData);
    if outcome.Failed? { ReportedIsSound(srv, outcome.code, outcome.data); }
  }

  lemma DueIsSound(srv: Server, codec: Codec, e: bytes, outcome: Outcome)
    requires forall c :: c in srv.messages ==> IsJsonString(srv.messages[c])
    requires SoundOutcome(outcome) && IdsAreJson(codec)
    ensures var safe := Safe(srv, DueReply(srv, codec, e, outcome));
            Sound(safe) && Text(safe) == DueText(srv, codec, e, outcome)
  {
    EchoIsJson(codec, e);
    BodySound(srv, codec, e, outcome);
  }

  /** These texts, in this order, are those due to the entries at these positions. */
  ghost predicate TextsDue(srv: Server, codec: Codec, elems: seq<bytes>, outcomes: Outcomes, texts: seq<bytes>,
                           at: seq<nat>)
  {
    |texts| == |at| && forall k :: 0 <= k < |at| ==>
      at[k] < |elems| && texts[k] == DueText(srv, codec, elems[at[k]], outcomes(at[k]))
  }

  /** The entries of a batch, as SplitBatchElements finds them. */
  function Entries(w: bytes): Option<seq<bytes>> {
    if Bracketed(w) then BatchSplit.Elements(w[1..|w| - 1]) else None
  }

  lemma TextsAreDue(srv: Server, codec: Codec, elems: seq<bytes>, outcomes: Outcomes, rs: seq<Response>, at: seq<nat>)
    requires Answers(srv, codec, elems, outcomes, rs, at) && SoundSides(srv, outcomes) && IdsAreJson(codec)
    ensures AllSound(AllSafe(srv, rs)) && TextsDue(srv, codec, elems, outcomes, Texts(AllSafe(srv, rs)), at)
  {
    forall k | 0 <= k < |at|
      ensures Sound(Safe(srv, rs[k])) && Text(Safe(srv, rs[k])) == DueText(srv, codec, elems[at[k]], outcomes(at[k]))
    {
      DueIsSound(srv, codec, elems[at[k]], outcomes(at[k]));
    }
  }

  lemma BatchOnTheWire(srv: Server, rs: seq<Response>)
    requires rs != [] && AllSound(AllSafe(srv, rs))
    ensures Wire(srv, Many(rs)).Some? && Entries(Wire(srv, Many(rs)).value) == Some(Texts(AllSafe(srv, rs)))
  {
    var safe := AllSafe(srv, rs);
    var wire := MarshalBatch(safe).value;
    assert Wire(srv, Many(rs)) == Some(wire);
    BatchReplyReadsBack(safe, wire);
  }

  /** The reply as the bytes of a batch: nothing when nothing is due, and otherwise what is. */
  ghost predicate Sent(srv: Server, codec: Codec, elems: seq<bytes>, outcomes: Outcomes, sent: Option<bytes>) {
    match sent
    case None => forall i :: 0 <= i < |elems| ==> !NeedsReply(codec, elems[i])
    case Some(w) =>
      && Due(codec, elems) != [] && Entries(w).Some?
      && TextsDue(srv, codec, elems, outcomes, Entries(w).value, Due(codec, elems))
  }

  lemma ReplyOnTheWire(srv: Server, codec: Codec, elems: seq<bytes>, outcomes: Outcomes, reply: Reply)
    requires reply == Nothing ==> forall i :: 0 <= i < |elems| ==> !NeedsReply(codec, elems[i])
    requires reply != Nothing ==>
               reply.Many? && reply.rs != [] && Answers(srv, codec, elems, outcomes, reply.rs, Due(codec, elems))
    requires SoundSides(srv, outcomes) && IdsAreJson(codec)
    ensures Sent(srv, codec, elems, outcomes, Wire(srv, reply))
  {
    if reply.Many? {
      TextsAreDue(srv, codec, elems, outcomes, reply.rs, Due(codec, elems));
      BatchOnTheWire(srv, reply.rs);
    }
  }

  /** The same on the wire, where an internal error stands in for a reply that does not marshal. */
  lemma SingleSectionOnTheWire(srv: Server, codec: Codec, payload: bytes, outcomes: Outcomes)
    requires !(0 < srv.maxMessageSize < |payload|) && Braced(TrimSpace(payload))
    ensures var e, sent := TrimSpace(payload), Wire(srv, Handle(srv, codec, payload, outcomes));
            if codec.decode(e).None? then
              sent == Some(RefusalText(if codec.valid(e) then InvalidRequest else ParseError))
            else if NeedsReply(codec, e) then sent == Some(DueText(srv, codec, e, outcomes(0)))
            else sent == None
  {
    SingleSection(srv, codec, payload, outcomes);
  }

  /** Section 6 on the wire: unless every entry is a valid notification, an accepted batch is answered by bytes that
      split, as a batch splits, into one text for each entry that must be answered, in their order: what is due to the
      entry under its echoed id, and an internal error in place of what does not marshal. Nothing else is sent. */
  lemma SectionSixOnTheWire(srv: Server, codec: Codec, payload: bytes, elems: seq<bytes>, outcomes: Outcomes)
    requires Accepted(srv, codec, payload, elems)
    requires SoundSides(srv, outcomes) && IdsAreJson(codec)
    ensures Sent(srv, codec, elems, outcomes, Wire(srv, Handle(srv, codec, payload, outcomes)))
  {
    SectionSix(srv, codec, payload, elems, outcomes);
    ReplyOnTheWire(srv, codec, elems, outcomes, Handle(srv, codec, payload, outcomes));
  }
}
