/** A batch call over HTTP from end to end: batch.go writes the request objects, the server answers their bytes, and
    jsonrpchttp/client.go puts the responses back in the order of the entries. */
module BatchCall {
  import opened Wrappers
  import opened Bytes
  import opened Decimal
  import opened HttpBatch
  import JsonGrammar
  import BatchSplit
  import Dispatch
  import Conformity
  import ReplyText

  // ---- the bytes of the requests ----

  type Fields = seq<(bytes, bytes)>

  /** The members of an object, by name and value text. */
  function FieldsText(fs: Fields): bytes
    requires fs != []
    decreases |fs|
  {
    var first := Dispatch.Field(fs[0].0, fs[0].1);
    if |fs| == 1 then first else first + ([COMMA] + FieldsText(fs[1..]))
  }

  ghost predicate JsonFields(fs: Fields) {
    forall i :: 0 <= i < |fs| ==> Conformity.PlainName(fs[i].0) && Conformity.IsJson(fs[i].1)
  }

  lemma {:induction false} FieldsAreMembers(fs: Fields) returns (ms: JsonGrammar.Members)
    requires fs != [] && JsonFields(fs)
    ensures JsonGrammar.ValidMembers(ms) && JsonGrammar.RenderMembers(ms) == FieldsText(fs)
    decreases |fs|
  {
    assert Conformity.IsJson(fs[0].1);
    var v :| JsonGrammar.Valid(v) && fs[0].1 == JsonGrammar.Render(v);
    ms := Conformity.LastField(fs[0].0, v);
    Conformity.MoreRenders(fs[0].0, v, ms);
    if |fs| > 1 {
      var rest := FieldsAreMembers(fs[1..]);
      Conformity.MoreRenders(fs[0].0, v, rest);
      ms := Conformity.MoreFields(fs[0].0, v, rest);
    }
  }

  /** quote writes a string as JSON. */
  type Quote = bytes -> bytes

  function ParamsFields(spec: Spec): Fields
    requires spec.params.Some?
  {
    if spec.params.value != [] then [(Ascii("params"), spec.params.value)] else []
  }

  function IdFields(id: Option<bytes>): Fields {
    if id.Some? then [(Ascii("id"), id.value)] else []
  }

  /** The members MarshalEasyJSON writes for a request: no params when there are none, no id for a notification. */
  function RequestFields(quote: Quote, spec: Spec, id: Option<bytes>): Fields
    requires spec.params.Some?
  {
    [(Ascii("jsonrpc"), [QUOTE] + Ascii("2.0") + [QUOTE])]
    + ([(Ascii("method"), quote(spec.name))] + (ParamsFields(spec) + IdFields(id)))
  }

  function RequestText(quote: Quote, spec: Spec, id: Option<bytes>): bytes
    requires spec.params.Some?
  {
    [LBRACE] + FieldsText(RequestFields(quote, spec, id)) + [RBRACE]
  }

  function RequestTexts(quote: Quote, specs: seq<Spec>, ids: seq<Option<bytes>>): (texts: seq<bytes>)
    requires AllParams(specs) && |ids| == |specs|
    ensures |texts| == |specs|
  {
    seq(|specs|, i requires 0 <= i < |specs| => RequestText(quote, specs[i], ids[i]))
  }

  /** The frame of MarshalBatch. */
  function BatchFrame(quote: Quote, specs: seq<Spec>, ids: seq<Option<bytes>>): bytes
    requires AllParams(specs) && |ids| == |specs|
  {
    [LBRACKET] + BatchSplit.CommaJoin(RequestTexts(quote, specs, ids)) + [RBRACKET]
  }

  /** The entry is made of JSON: its name is written as a string, and its params, if any, are JSON. */
  ghost predicate SendsJson(quote: Quote, spec: Spec) {
    && spec.params.Some? && Conformity.IsJsonString(quote(spec.name))
    && (spec.params.value == [] || Conformity.IsJson(spec.params.value))
  }

  ghost predicate AllSendJson(quote: Quote, specs: seq<Spec>) {
    forall i :: 0 <= i < |specs| ==> SendsJson(quote, specs[i])
  }

  lemma StringIsJson(t: bytes)
    requires Conformity.IsJsonString(t)
    ensures Conformity.IsJson(t)
  {
    var cs :| JsonGrammar.ValidChars(cs) && t == JsonGrammar.RenderStr(cs);
    assert JsonGrammar.Valid(JsonGrammar.Str(cs)) && JsonGrammar.Render(JsonGrammar.Str(cs)) == t;
  }

  lemma PrintIsJson(n: nat)
    ensures Conformity.IsJson(Print(n))
  {
    Conformity.PrintIntIsNumber(n);
    assert JsonGrammar.Valid(JsonGrammar.Atom(Print(n))) && JsonGrammar.Render(JsonGrammar.Atom(Print(n))) == Print(n);
  }

  lemma VersionIsJson()
    ensures Conformity.IsJson([QUOTE] + Ascii("2.0") + [QUOTE])
  {
    Conformity.VersionRenders();
  }

  lemma NamesArePlain()
    ensures Conformity.PlainName(Ascii("jsonrpc")) && Conformity.PlainName(Ascii("method"))
    ensures Conformity.PlainName(Ascii("params")) && Conformity.PlainName(Ascii("id"))
  {
  }

  lemma JsonFieldsJoin(a: Fields, b: Fields)
    requires JsonFields(a) && JsonFields(b)
    ensures JsonFields(a + b)
  {
  }

  lemma RequestIsJson(quote: Quote, spec: Spec, id: Option<bytes>)
    requires SendsJson(quote, spec) && (id.Some? ==> Conformity.IsJson(id.value))
    ensures JsonFields(RequestFields(quote, spec, id))
  {
    NamesArePlain();
    VersionIsJson();
    StringIsJson(quote(spec.name));
    JsonFieldsJoin(ParamsFields(spec), IdFields(id));
    JsonFieldsJoin([(Ascii("method"), quote(spec.name))], ParamsFields(spec) + IdFields(id));
    JsonFieldsJoin([(Ascii("jsonrpc"), [QUOTE] + Ascii("2.0") + [QUOTE])],
                   [(Ascii("method"), quote(spec.name))] + (ParamsFields(spec) + IdFields(id)));
  }

  lemma RequestIsElement(quote: Quote, spec: Spec, id: Option<bytes>)
    requires SendsJson(quote, spec) && (id.Some? ==> Conformity.IsJson(id.value))
    ensures BatchSplit.Element(RequestText(quote, spec, id))
  {
    RequestIsJson(quote, spec, id);
    var ms := FieldsAreMembers(RequestFields(quote, spec, id));
    Conformity.JsonIsElement(JsonGrammar.Obj(ms));
  }

  // ---- what either side reads ----

  /** The request as it is read: params of null are as good as none. */
  function AsRead(spec: Spec, id: Option<bytes>): Dispatch.Request
    requires spec.params.Some?
  {
    var req := RequestFor(spec, id);
    if req.params == Null() then req.(params := []) else req
  }

  /** A request, byte for byte: params only if there are any, an id only for a call. */
  function RequestBytes(quote: Quote, spec: Spec, id: Option<bytes>): bytes
    requires spec.params.Some?
  {
    Ascii("{\"jsonrpc\":\"2.0\",\"method\":") + quote(spec.name)
    + (if spec.params.value != [] then Ascii(",\"params\":") + spec.params.value else [])
    + (if id.Some? then Ascii(",\"id\":") + id.value else []) + Ascii("}")
  }

  lemma FieldsCons(name: bytes, value: bytes, rest: Fields)
    ensures FieldsText([(name, value)] + rest)
         == Dispatch.Field(name, value) + if rest == [] then [] else [COMMA] + FieldsText(rest)
  {
    var fs := [(name, value)] + rest;
    assert fs[1..] == rest;
  }

  /** One more member at the end. */
  lemma LastText(name: string, key: string, value: bytes)
    requires ",\"" + name + "\":" == key
    ensures [COMMA] + FieldsText([(Ascii(name), value)]) == Ascii(key) + value
  {
    ReplyText.Punctuation();
    FieldsCons(Ascii(name), value, []);
    assert [(Ascii(name), value)] + [] == [(Ascii(name), value)];
    assert "," + "\"" + name + "\":" == key;
    ReplyText.FieldText(",", name, key, value);
    assert Dispatch.Field(Ascii(name), value) + [] == Dispatch.Field(Ascii(name), value);
  }

  function TailText(spec: Spec, id: Option<bytes>): bytes
    requires spec.params.Some?
  {
    (if spec.params.value != [] then Ascii(",\"params\":") + spec.params.value else [])
    + (if id.Some? then Ascii(",\"id\":") + id.value else [])
  }

  function After(fs: Fields): bytes {
    if fs == [] then [] else [COMMA] + FieldsText(fs)
  }

  lemma AfterOne(first: (bytes, bytes), rest: Fields)
    ensures After([first] + rest) == [COMMA] + Dispatch.Field(first.0, first.1) + After(rest)
  {
    FieldsCons(first.0, first.1, rest);
    var field := Dispatch.Field(first.0, first.1);
    assert [COMMA] + (field + After(rest)) == [COMMA] + field + After(rest);
  }

  lemma AfterJoin(ps: Fields, last: Fields)
    requires |ps| <= 1
    ensures After(ps + last) == After(ps) + After(last)
  {
    if ps == [] {
      assert ps + last == last;
    } else {
      var none: Fields := [];
      assert ps == [ps[0]] && [ps[0]] + none == ps;
      AfterOne(ps[0], last);
      AfterOne(ps[0], none);
    }
  }

  lemma TailIs(spec: Spec, id: Option<bytes>)
    requires spec.params.Some?
    ensures After(ParamsFields(spec) + IdFields(id)) == TailText(spec, id)
  {
    AfterJoin(ParamsFields(spec), IdFields(id));
    if id.Some? { LastText("id", ",\"id\":", id.value); }
    if spec.params.value != [] { LastText("params", ",\"params\":", spec.params.value); }
  }

  lemma Reassociated(open: bytes, v: bytes, comma: bytes, m: bytes, tail: bytes, close: bytes)
    ensures open + (v + (comma + (m + tail))) + close == (open + v + comma + m) + tail + close
  {
  }

  lemma HeadIs(q: bytes)
    ensures [LBRACE] + Dispatch.Field(Ascii("jsonrpc"), [QUOTE] + Ascii("2.0") + [QUOTE]) + [COMMA]
            + Dispatch.Field(Ascii("method"), q)
         == Ascii("{\"jsonrpc\":\"2.0\",\"method\":") + q
  {
    ReplyText.HeadText();
    ReplyText.FieldText("{\"jsonrpc\":\"2.0\",", "method", "{\"jsonrpc\":\"2.0\",\"method\":", q);
  }

  lemma HeadAndTail(head: bytes, a: bytes, b: bytes, close: bytes)
    ensures head + (a + b) + close == head + a + b + close
  {
  }

  lemma FieldsAre(version: bytes, q: bytes, tail: Fields)
    ensures FieldsText([(Ascii("jsonrpc"), version)] + ([(Ascii("method"), q)] + tail))
         == Dispatch.Field(Ascii("jsonrpc"), version) + ([COMMA] + (Dispatch.Field(Ascii("method"), q) + After(tail)))
  {
    FieldsCons(Ascii("jsonrpc"), version, [(Ascii("method"), q)] + tail);
    FieldsCons(Ascii("method"), q, tail);
  }

  lemma RequestTextIs(quote: Quote, spec: Spec, id: Option<bytes>)
    requires spec.params.Some?
    ensures RequestText(quote, spec, id) == RequestBytes(quote, spec, id)
  {
    var q, version := quote(spec.name), [QUOTE] + Ascii("2.0") + [QUOTE];
    FieldsAre(version, q, ParamsFields(spec) + IdFields(id));
    TailIs(spec, id);
    Reassociated([LBRACE], Dispatch.Field(Ascii("jsonrpc"), version), [COMMA], Dispatch.Field(Ascii("method"), q),
                 TailText(spec, id), [RBRACE]);
    HeadIs(q);
    ReplyText.Punctuation();
    HeadAndTail(Ascii("{\"jsonrpc\":\"2.0\",\"method\":") + q,
                if spec.params.value != [] then Ascii(",\"params\":") + spec.params.value else [],
                if id.Some? then Ascii(",\"id\":") + id.value else [], Ascii("}"));
  }

  /** The server's decoder reads what the client writes. */
  ghost predicate ServerReads(codec: Dispatch.Codec, quote: Quote) {
    forall spec: Spec, id: Option<bytes> ::
      SendsJson(quote, spec) && (id.Some? ==> Conformity.IsJson(id.value)) ==>
        codec.decode(RequestBytes(quote, spec, id)) == Some(AsRead(spec, id))
  }

  /** A response of the server as the client decodes it. */
  function Decoded(r: Dispatch.Response): Response {
    Response(
      if Dispatch.OrNull(r.id) == Null() then [] else r.id,
      if r.body.Result? && Dispatch.OrNull(r.body.raw) != Null() then Some(r.body.raw) else None,
      if r.body.Error? then Some(RpcError(r.body.code, r.body.message)) else None)
  }

  type Reader = bytes -> Option<Response>

  /** The client's decoder reads what the server writes. */
  ghost predicate ClientReads(read: Reader) {
    forall r: Dispatch.Response :: Conformity.Sound(r) ==>
      match r.body
      case Result(raw) => read(ReplyText.ResultBytes(raw, r.id)) == Some(Decoded(r))
      case Error(code, message, data) => read(ReplyText.ErrorBytes(code, message, data, r.id)) == Some(Decoded(r))
  }

  lemma TextIsRead(read: Reader, r: Dispatch.Response)
    requires ClientReads(read) && Conformity.Sound(r)
    ensures read(Dispatch.Text(r)) == Some(Decoded(r))
  {
    ReplyText.TextIs(r);
  }

  /** The body of the HTTP response as the client goes through it. */
  function BodyOf(read: Reader, sent: Option<bytes>): Body {
    if sent.None? then Empty
    else
      match Conformity.Entries(sent.value)
      case None => NoArray
      case Some(texts) => Array(seq(|texts|, k requires 0 <= k < |texts| => read(texts[k])))
  }

  // ---- the server reads the frame ----

  /** The reply due to a call: a method without a name is no valid request. */
  function ReplyTo(srv: Dispatch.Server, spec: Spec, id: bytes, outcome: Dispatch.Outcome): Dispatch.Response {
    Dispatch.Response(
      if spec.name == [] then Conformity.Reported(srv, Dispatch.INVALID_REQUEST, Dispatch.NoData)
      else
        match outcome
        case Returned(raw) => Dispatch.Result(raw)
        case Failed(code, data) => Conformity.Reported(srv, code, data),
      id)
  }

  lemma FreshIsJson(codec: Dispatch.Codec, id: Option<bytes>, notify: bool, lo: nat, hi: nat)
    requires FreshId(id, notify, lo, hi) && Conformity.AcceptsJson(codec)
    ensures id.Some? <==> !notify
    ensures id.Some? ==> Conformity.IsJson(id.value) && codec.valid(id.value) && id.value != Null()
    ensures id.Some? ==> id.value != [] && Dispatch.StartsScalar(id.value[0])
  {
    if id.Some? {
      var n :| lo < n <= hi && id == Some(Print(n));
      PrintIsJson(n);
      PrintIsNotNull(n);
      Conformity.PrintIntIsNumber(n);
      Conformity.JsonAccepted(codec, JsonGrammar.Atom(Print(n)), []);
      assert Print(n) + [] == Print(n);
    }
  }

  /** What the server has to say to an entry. */
  lemma EntryRead(srv: Dispatch.Server, codec: Dispatch.Codec, quote: Quote, spec: Spec, id: Option<bytes>,
                  outcome: Dispatch.Outcome, lo: nat, hi: nat)
    requires ServerReads(codec, quote) && Conformity.AcceptsJson(codec)
    requires SendsJson(quote, spec) && FreshId(id, spec.notify, lo, hi)
    ensures var e := RequestText(quote, spec, id);
            && codec.decode(e).Some? && Conformity.EchoedId(codec, e) == (if id.Some? then id.value else [])
            && (id.Some? ==>
                  && Conformity.NeedsReply(codec, e)
                  && Conformity.DueReply(srv, codec, e, outcome) == ReplyTo(srv, spec, id.value, outcome))
  {
    FreshIsJson(codec, id, spec.notify, lo, hi);
    RequestTextIs(quote, spec, id);
    assert codec.decode(RequestBytes(quote, spec, id)) == Some(AsRead(spec, id));
  }

  /** Everything a batch call needs to come through: entries of JSON, ids of its own, and a server within whose caps it
      stays. */
  ghost predicate Sendable(srv: Dispatch.Server, quote: Quote, specs: seq<Spec>, ids: seq<Option<bytes>>, lo: nat,
                           hi: nat)
  {
    && specs != [] && AllParams(specs) && AllSendJson(quote, specs) && FreshIds(ids, specs, lo, hi) && Distinct(ids)
    && !Dispatch.Oversized(srv, BatchFrame(quote, specs, ids))
    && !(srv.maxBatchSize > 0 && |specs| > srv.maxBatchSize)
  }

  /** Both sides read what the other writes; handlers return JSON. */
  ghost predicate Understood(srv: Dispatch.Server, codec: Dispatch.Codec, quote: Quote, read: Reader,
                             outcomes: Dispatch.Outcomes)
  {
    && ServerReads(codec, quote) && ClientReads(read)
    && Conformity.AcceptsJson(codec) && Conformity.IdsAreJson(codec) && Conformity.SoundSides(srv, outcomes)
  }

  lemma TextsAreElements(codec: Dispatch.Codec, quote: Quote, specs: seq<Spec>, ids: seq<Option<bytes>>, lo: nat,
                         hi: nat)
    requires AllParams(specs) && AllSendJson(quote, specs) && FreshIds(ids, specs, lo, hi)
    requires Conformity.AcceptsJson(codec)
    ensures BatchSplit.AllElements(RequestTexts(quote, specs, ids))
  {
    forall i | 0 <= i < |specs| ensures BatchSplit.Element(RequestTexts(quote, specs, ids)[i]) {
      FreshIsJson(codec, ids[i], specs[i].notify, lo, hi);
      RequestIsElement(quote, specs[i], ids[i]);
    }
  }

  lemma AllDecode(srv: Dispatch.Server, codec: Dispatch.Codec, quote: Quote, specs: seq<Spec>, ids: seq<Option<bytes>>,
                  lo: nat, hi: nat)
    requires ServerReads(codec, quote) && Conformity.AcceptsJson(codec)
    requires AllParams(specs) && AllSendJson(quote, specs) && FreshIds(ids, specs, lo, hi)
    ensures !Dispatch.AnyBroken(codec, RequestTexts(quote, specs, ids))
  {
    var texts := RequestTexts(quote, specs, ids);
    forall i | 0 <= i < |texts| ensures !Dispatch.Broken(codec, texts[i]) {
      EntryRead(srv, codec, quote, specs[i], ids[i], Dispatch.Returned([]), lo, hi);
    }
  }

  /** The frame reaches the server's pool as a batch with the texts of the requests. */
  lemma FrameAccepted(srv: Dispatch.Server, codec: Dispatch.Codec, quote: Quote, specs: seq<Spec>,
                      ids: seq<Option<bytes>>, lo: nat, hi: nat)
    requires Sendable(srv, quote, specs, ids, lo, hi)
    requires ServerReads(codec, quote) && Conformity.AcceptsJson(codec)
    ensures Conformity.Accepted(srv, codec, BatchFrame(quote, specs, ids), RequestTexts(quote, specs, ids))
  {
    var frame, texts := BatchFrame(quote, specs, ids), RequestTexts(quote, specs, ids);
    TextsAreElements(codec, quote, specs, ids, lo, hi);
    Conformity.JoinReadsBack(texts);
    TrimSpaceWs([], frame, []);
    Conformity.Unpadded(frame);
    Conformity.CapIsExact(srv, frame, texts);
    AllDecode(srv, codec, quote, specs, ids, lo, hi);
  }

  // ---- the client reads the reply ----

  /** The entries the client goes through are the replies due to these positions. */
  ghost predicate Carries(srv: Dispatch.Server, codec: Dispatch.Codec, texts: seq<bytes>, outcomes: Dispatch.Outcomes,
                          at: seq<nat>, entries: seq<Option<Response>>)
  {
    |entries| == |at| && forall k :: 0 <= k < |at| ==>
      && at[k] < |texts|
      && entries[k] == Some(Decoded(Dispatch.Safe(srv, Conformity.DueReply(srv, codec, texts[at[k]], outcomes(at[k])))))
  }

  lemma ReplyRead(srv: Dispatch.Server, codec: Dispatch.Codec, quote: Quote, read: Reader, outcomes: Dispatch.Outcomes,
                  texts: seq<bytes>, w: bytes)
    requires Understood(srv, codec, quote, read, outcomes)
    requires Conformity.Sent(srv, codec, texts, outcomes, Some(w))
    ensures BodyOf(read, Some(w)).Array?
    ensures Carries(srv, codec, texts, outcomes, Conformity.Due(codec, texts), BodyOf(read, Some(w)).entries)
  {
    var at, replies := Conformity.Due(codec, texts), Conformity.Entries(w).value;
    forall k | 0 <= k < |at|
      ensures read(replies[k])
           == Some(Decoded(Dispatch.Safe(srv, Conformity.DueReply(srv, codec, texts[at[k]], outcomes(at[k])))))
    {
      assert Conformity.SoundOutcome(outcomes(at[k]));
      Conformity.DueIsSound(srv, codec, texts[at[k]], outcomes(at[k]));
      TextIsRead(read, Dispatch.Safe(srv, Conformity.DueReply(srv, codec, texts[at[k]], outcomes(at[k]))));
    }
  }

  lemma {:induction false} DueLength(codec: Dispatch.Codec, texts: seq<bytes>)
    ensures |Conformity.Due(codec, texts)| <= |texts|
    decreases |texts|
  {
    if texts != [] { DueLength(codec, texts[..|texts| - 1]); }
  }

  lemma OtherId(ids: seq<Option<bytes>>, a: nat, b: nat)
    requires a < b < |ids| && Distinct(ids) && ids[b].Some?
    ensures ids[a] != ids[b]
  {
  }

  /** The first entry to bear the id of a call is the reply to it. */
  lemma CallIsFound(srv: Dispatch.Server, codec: Dispatch.Codec, quote: Quote, specs: seq<Spec>,
                    ids: seq<Option<bytes>>, outcomes: Dispatch.Outcomes, lo: nat, hi: nat,
                    entries: seq<Option<Response>>, i: nat)
    requires ServerReads(codec, quote) && Conformity.AcceptsJson(codec)
    requires AllParams(specs) && AllSendJson(quote, specs) && FreshIds(ids, specs, lo, hi) && Distinct(ids)
    requires var texts := RequestTexts(quote, specs, ids);
             Carries(srv, codec, texts, outcomes, Conformity.Due(codec, texts), entries)
    requires i < |specs| && !specs[i].notify
    ensures Slots(ids, entries)[i]
         == BatchResultFromResponse(Decoded(Dispatch.Safe(srv, ReplyTo(srv, specs[i], ids[i].value, outcomes(i)))))
  {
    var texts := RequestTexts(quote, specs, ids);
    var at := Conformity.Due(codec, texts);
    EntryRead(srv, codec, quote, specs[i], ids[i], outcomes(i), lo, hi);
    Conformity.DueIsExact(codec, texts, i);
    Conformity.DueIncreases(codec, texts);
    var k :| 0 <= k < |at| && at[k] == i;
    FreshIsJson(codec, ids[i], specs[i].notify, lo, hi);
    forall j | 0 <= j < k ensures !Bears(entries[j], ids[i].value) {
      EntryRead(srv, codec, quote, specs[at[j]], ids[at[j]], outcomes(at[j]), lo, hi);
      OtherId(ids, at[j], i);
    }
    DueLength(codec, texts);
    SlotIsFirstResponse(ids, entries, i, k);
  }

  lemma NoCalls(codec: Dispatch.Codec, srv: Dispatch.Server, quote: Quote, specs: seq<Spec>, ids: seq<Option<bytes>>,
                lo: nat, hi: nat)
    requires ServerReads(codec, quote) && Conformity.AcceptsJson(codec)
    requires AllParams(specs) && AllSendJson(quote, specs) && FreshIds(ids, specs, lo, hi)
    requires forall i :: 0 <= i < |specs| ==> !Conformity.NeedsReply(codec, RequestTexts(quote, specs, ids)[i])
    ensures forall i :: 0 <= i < |specs| ==> specs[i].notify
  {
    forall i | 0 <= i < |specs| ensures specs[i].notify {
      FreshIsJson(codec, ids[i], specs[i].notify, lo, hi);
      EntryRead(srv, codec, quote, specs[i], ids[i], Dispatch.Returned([]), lo, hi);
      assert RequestTexts(quote, specs, ids)[i] == RequestText(quote, specs[i], ids[i]);
    }
  }

  /** An error as it reaches the caller: an unregistered code, and data that cannot be marshaled, give way to an
      internal error. */
  function Reported(srv: Dispatch.Server, code: int, data: Dispatch.Data): BatchResult {
    if code in srv.messages && !data.Unmarshalable? then BatchResult(None, Some(RpcError(code, srv.messages[code])))
    else
      BatchResult(None, Some(RpcError(-32603, if -32603 in srv.messages then srv.messages[-32603] else [QUOTE, QUOTE])))
  }

  /** What the caller of a batch gets, entry by entry: nothing for a notification; for a call what its method returned,
      unless that is null, or the error it failed with; and without a name the error of an invalid request. */
  function Expected(srv: Dispatch.Server, specs: seq<Spec>, ids: seq<Option<bytes>>, outcomes: Dispatch.Outcomes,
                    i: nat)
    : BatchResult
    requires i < |specs| == |ids|
  {
    if ids[i].None? then BatchResult(None, None)
    else if specs[i].name == [] then Reported(srv, -32600, Dispatch.NoData)
    else
      match outcomes(i)
      case Returned(raw) =>
        BatchResult(if raw == [] || raw == [110, 117, 108, 108] then None else Some(raw), None)
      case Failed(code, data) => Reported(srv, code, data)
  }

  lemma ErrorComesBack(srv: Dispatch.Server, code: int, data: Dispatch.Data, id: bytes)
    ensures var r := Dispatch.Response(Conformity.Reported(srv, code, data), id);
            BatchResultFromResponse(Decoded(Dispatch.Safe(srv, r))) == Reported(srv, code, data)
  {
    EmptyString();
  }

  lemma ExpectedComesBack(srv: Dispatch.Server, specs: seq<Spec>, ids: seq<Option<bytes>>,
                          outcomes: Dispatch.Outcomes, i: nat)
    requires i < |specs| == |ids| && ids[i].Some?
    ensures BatchResultFromResponse(Decoded(Dispatch.Safe(srv, ReplyTo(srv, specs[i], ids[i].value, outcomes(i)))))
         == Expected(srv, specs, ids, outcomes, i)
  {
    NullBytes();
    if specs[i].name == [] {
      ErrorComesBack(srv, -32600, Dispatch.NoData, ids[i].value);
    } else if outcomes(i).Failed? {
      ErrorComesBack(srv, outcomes(i).code, outcomes(i).data, ids[i].value);
    }
  }

  function Results(srv: Dispatch.Server, specs: seq<Spec>, ids: seq<Option<bytes>>, outcomes: Dispatch.Outcomes)
    : (rs: seq<BatchResult>)
    requires |specs| == |ids|
    ensures |rs| == |specs| && forall i :: 0 <= i < |specs| ==> rs[i] == Expected(srv, specs, ids, outcomes, i)
  {
    seq(|specs|, i requires 0 <= i < |specs| => Expected(srv, specs, ids, outcomes, i))
  }

  /** From the caller's entries to the caller's results, through the bytes of the request, the server, and the bytes of
      the reply. */
  lemma EachCallGetsItsReply(srv: Dispatch.Server, codec: Dispatch.Codec, quote: Quote, read: Reader, maxBatchSize: int,
                             specs: seq<Spec>, ids: seq<Option<bytes>>, outcomes: Dispatch.Outcomes, lo: nat, hi: nat)
    requires Sendable(srv, quote, specs, ids, lo, hi) && Understood(srv, codec, quote, read, outcomes)
    requires !(maxBatchSize > 0 && |specs| > maxBatchSize)
    ensures var sent := Dispatch.Wire(srv, Dispatch.Handle(srv, codec, BatchFrame(quote, specs, ids), outcomes));
            CallOutcome(maxBatchSize, specs, ids, Some(BodyOf(read, sent)))
            == Returned(Results(srv, specs, ids, outcomes))
  {
    var frame, texts := BatchFrame(quote, specs, ids), RequestTexts(quote, specs, ids);
    FrameAccepted(srv, codec, quote, specs, ids, lo, hi);
    Conformity.SectionSixOnTheWire(srv, codec, frame, texts, outcomes);
    var sent := Dispatch.Wire(srv, Dispatch.Handle(srv, codec, frame, outcomes));
    ResultsAre(srv, codec, quote, read, maxBatchSize, specs, ids, outcomes, lo, hi, sent);
  }

  /** The checks that come before the slots. */
  lemma OutcomeIs(srv: Dispatch.Server, maxBatchSize: int, specs: seq<Spec>, ids: seq<Option<bytes>>,
                  outcomes: Dispatch.Outcomes, lo: nat, hi: nat, body: Body)
    requires specs != [] && AllParams(specs) && !(maxBatchSize > 0 && |specs| > maxBatchSize)
    requires FreshIds(ids, specs, lo, hi)
    requires (forall i :: 0 <= i < |specs| ==> specs[i].notify)
             || (body.Array? && !Aborts(ids, body.entries)
                 && Slots(ids, body.entries) == Results(srv, specs, ids, outcomes))
    ensures CallOutcome(maxBatchSize, specs, ids, Some(body)) == Returned(Results(srv, specs, ids, outcomes))
  {
    if forall i :: 0 <= i < |specs| ==> specs[i].notify {
      forall i | 0 <= i < |specs| ensures ids[i].None? { assert FreshId(ids[i], specs[i].notify, lo, hi); }
      assert seq(|specs|, _ => ZERO) == Results(srv, specs, ids, outcomes);
    }
  }

  /** Every slot is filled as expected, and no entry fails to decode. */
  lemma SlotsAre(srv: Dispatch.Server, codec: Dispatch.Codec, quote: Quote, specs: seq<Spec>, ids: seq<Option<bytes>>,
                 outcomes: Dispatch.Outcomes, lo: nat, hi: nat, entries: seq<Option<Response>>)
    requires ServerReads(codec, quote) && Conformity.AcceptsJson(codec)
    requires AllParams(specs) && AllSendJson(quote, specs) && FreshIds(ids, specs, lo, hi) && Distinct(ids)
    requires var texts := RequestTexts(quote, specs, ids);
             Carries(srv, codec, texts, outcomes, Conformity.Due(codec, texts), entries)
    ensures !Aborts(ids, entries) && Slots(ids, entries) == Results(srv, specs, ids, outcomes)
  {
    forall i | 0 <= i < |specs| ensures Slots(ids, entries)[i] == Expected(srv, specs, ids, outcomes, i) {
      if !specs[i].notify {
        CallIsFound(srv, codec, quote, specs, ids, outcomes, lo, hi, entries, i);
        ExpectedComesBack(srv, specs, ids, outcomes, i);
      }
    }
  }

  lemma ResultsAre(srv: Dispatch.Server, codec: Dispatch.Codec, quote: Quote, read: Reader, maxBatchSize: int,
                   specs: seq<Spec>, ids: seq<Option<bytes>>, outcomes: Dispatch.Outcomes, lo: nat, hi: nat,
                   sent: Option<bytes>)
    requires Understood(srv, codec, quote, read, outcomes)
    requires specs != [] && AllParams(specs) && AllSendJson(quote, specs)
    requires FreshIds(ids, specs, lo, hi) && Distinct(ids)
    requires !(maxBatchSize > 0 && |specs| > maxBatchSize)
    requires Conformity.Sent(srv, codec, RequestTexts(quote, specs, ids), outcomes, sent)
    ensures CallOutcome(maxBatchSize, specs, ids, Some(BodyOf(read, sent)))
         == Returned(Results(srv, specs, ids, outcomes))
  {
    var texts := RequestTexts(quote, specs, ids);
    if sent.None? {
      NoCalls(codec, srv, quote, specs, ids, lo, hi);
    } else {
      ReplyRead(srv, codec, quote, read, outcomes, texts, sent.value);
      SlotsAre(srv, codec, quote, specs, ids, outcomes, lo, hi, BodyOf(read, sent).entries);
    }
    OutcomeIs(srv, maxBatchSize, specs, ids, outcomes, lo, hi, BodyOf(read, sent));
  }
}
