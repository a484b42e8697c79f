/** Which answer a payload gets, told from the payload alone (handle.go, error.go): what makes a request valid, what
    becomes of a message over a cap, of one that is no batch, and of what is no request at all; and the bytes a single
    call is answered with. */
module Answering {
  import opened Wrappers
  import opened Bytes
  import opened Decimal
  import opened JsonGrammar
  import opened Dispatch
  import opened Conformity
  import opened ReplyText
  import SilenceScan
  import BatchSplit

  // ---- valid requests ----

  /** An id may be a string, a number or null. */
  ghost predicate IdKind(v: Value) {
    v.Str? || (v.Atom? && (v.text == [110, 117, 108, 108] || IsNumber(v.text)))
  }

  lemma FirstByteTells(v: Value)
    requires Valid(v)
    ensures Render(v) != [] && (StartsScalar(Render(v)[0]) <==> IdKind(v))
  {
    NullBytes();
    RenderEnds(v);
    if v.Atom? && !IsNumber(v.text) {
      assert "true"[0] == 't' && "false"[0] == 'f' && "null"[0] == 'n';
      assert Ascii("true")[0] == 116 && Ascii("false")[0] == 102 && Ascii("null")[0] == 110;
    }
  }

  /** A request is valid exactly when its version is 2.0, its name is not empty, and its id, if it has one, is
      well-formed JSON: a string, a number or null. */
  lemma ValidityIsExact(codec: Codec, req: Request, v: Value)
    requires AcceptsJson(codec) && (req.id != [] && codec.valid(req.id) ==> Valid(v) && Render(v) == req.id)
    ensures ValidRequest(codec, req)
       <==> req.version == [50, 46, 48] && |req.name| > 0 && (req.id == [] || (codec.valid(req.id) && IdKind(v)))
  {
    assert "2.0"[0] == '2' && "2.0"[1] == '.' && "2.0"[2] == '0';
    assert Ascii("2.0") == [50, 46, 48];
    if req.id != [] && codec.valid(req.id) { FirstByteTells(v); }
  }

  /** A string, a number or null is well-formed. */
  lemma IdIsValid(codec: Codec, v: Value)
    requires AcceptsJson(codec) && Valid(v) && IdKind(v)
    ensures codec.valid(Render(v))
  {
    JsonAccepted(codec, v, []);
    assert Render(v) + [] == Render(v);
  }

  // ---- over a cap ----

  /** JSON over a cap, by its bytes or as an array by its elements, goes unanswered exactly when it holds no id where a
      caller could have put one; otherwise it gets the refusal of the cap. */
  lemma RejectionIsExact(srv: Server, codec: Codec, pre: bytes, v: Value, post: bytes, outcomes: Outcomes)
    requires AllWs(pre) && Valid(v) && AllWs(post)
    requires 0 < srv.maxMessageSize < |pre + Render(v) + post|
             || (v.Arr? && 0 < srv.maxBatchSize < |BatchSplit.ElementTexts(v.elems)|)
    ensures var payload := pre + Render(v) + post;
            Handle(srv, codec, payload, outcomes)
            == if SilenceScan.Silent(v) then Nothing
               else Refused(if 0 < srv.maxMessageSize < |payload| then RequestTooLarge else BatchTooLarge)
  {
    RenderEnds(v);
    TrimSpaceWs(pre, Render(v), post);
    SilenceScan.ExactOnJson(pre, v, post);
    SilenceScan.ExactOnJson([], v, []);
    Unpadded(Render(v));
    if v.Arr? {
      BatchSplit.SplitsJson(v);
      CapIsExact(srv, Render(v), BatchSplit.ElementTexts(v.elems));
    }
  }

  // ---- no batch and no request ----

  /** Within the caps: nothing but white space is a parse error; what is neither an object nor a batch is an invalid
      request when it is well-formed and a parse error when it is not; an empty batch is an invalid request, and a batch
      with an entry that is no request and not well-formed a parse error. */
  lemma Malformations(srv: Server, codec: Codec, payload: bytes, outcomes: Outcomes)
    requires !(0 < srv.maxMessageSize < |payload|)
    requires !(Bracketed(TrimSpace(payload)) && OverCap(srv, TrimSpace(payload)))
    ensures var data, reply := TrimSpace(payload), Handle(srv, codec, payload, outcomes);
            && (data == [] ==> reply == Refused(ParseError))
            && (data != [] && !Braced(data) && Entries(data).None? ==>
                  reply == Refused(if codec.valid(data) then InvalidRequest else ParseError))
            && (Entries(data) == Some([]) ==> reply == Refused(InvalidRequest))
            && (Entries(data).Some?
                && (exists e :: e in Entries(data).value && codec.decode(e).None? && !codec.valid(e)) ==>
                  reply == Refused(ParseError))
  {
    var data := TrimSpace(payload);
    if Entries(data).Some? && exists e :: e in Entries(data).value && codec.decode(e).None? && !codec.valid(e) {
      var es := Entries(data).value;
      var e :| e in es && codec.decode(e).None? && !codec.valid(e);
      var i :| 0 <= i < |es| && es[i] == e;
      assert Broken(codec, es[i]);
    }
  }

  /** Well-formed JSON that is neither an object nor an array with elements is an invalid request, [] among it. */
  lemma NoRequestInIt(srv: Server, codec: Codec, pre: bytes, v: Value, post: bytes, outcomes: Outcomes)
    requires AcceptsJson(codec) && AllWs(pre) && Valid(v) && AllWs(post)
    requires (v.Str? || v.Atom? || v.EmptyArr?) && !(0 < srv.maxMessageSize < |pre + Render(v) + post|)
    ensures Handle(srv, codec, pre + Render(v) + post, outcomes) == Refused(InvalidRequest)
  {
    RenderEnds(v);
    TrimSpaceWs(pre, Render(v), post);
    JsonAccepted(codec, v, []);
    assert Render(v) + [] == Render(v);
    if v.EmptyArr? {
      BatchSplit.SplitsJson(v);
      CapIsExact(srv, Render(v), []);
    } else {
      if v.Atom? { AtomInert(v.text); }
      if Bracketed(Render(v)) { OnlyArraysAreBracketed(v); }
    }
  }

  // ---- one call ----

  /** An error as it is told: an unregistered code, and data that cannot be marshaled, give way to an internal error. */
  function ToldError(srv: Server, code: int, data: Data, id: bytes): bytes {
    if code in srv.messages && !data.Unmarshalable? then ErrorBytes(code, srv.messages[code], data, id)
    else
      ErrorBytes(-32603, if -32603 in srv.messages then srv.messages[-32603] else [QUOTE, QUOTE], NoData, id)
  }

  lemma ReportedText(srv: Server, code: int, data: Data, id: bytes)
    ensures var r := Response(Reported(srv, code, data), id);
            Marshal(Safe(srv, r)) == Some(ToldError(srv, code, data, id))
  {
    EmptyString();
    TextIs(Safe(srv, Response(Reported(srv, code, data), id)));
  }

  /** The bytes one request is answered with, v being its id if that is well-formed. A valid call gets its result or its
      error under its own id, a notification nothing, whatever it returned; anything else is told that it is invalid. */
  ghost function RequestBytes(srv: Server, codec: Codec, req: Request, v: Value, outcome: Outcome): Option<bytes> {
    if !(req.version == [50, 46, 48] && |req.name| > 0 && (req.id == [] || (codec.valid(req.id) && IdKind(v)))) then
      Some(ToldError(srv, -32600, NoData, if codec.valid(req.id) then req.id else []))
    else if req.id == [] then None
    else
      match outcome
      case Returned(raw) => Some(ResultBytes(raw, req.id))
      case Failed(code, data) => Some(ToldError(srv, code, data, req.id))
  }

  lemma ReportedDue(srv: Server, codec: Codec, e: bytes, outcome: Outcome, code: int, data: Data)
    requires DueBody(srv, codec, e, outcome) == Reported(srv, code, data)
    ensures DueText(srv, codec, e, outcome) == ToldError(srv, code, data, EchoedId(codec, e))
  {
    ReportedText(srv, code, data, EchoedId(codec, e));
  }

  /** What is due to an entry, of a batch or by itself, is those bytes; one that is no request is told that it is
      invalid. */
  lemma DueTextIs(srv: Server, codec: Codec, e: bytes, v: Value, outcome: Outcome)
    requires AcceptsJson(codec)
    requires codec.decode(e).Some? && codec.decode(e).value.id != [] && codec.valid(codec.decode(e).value.id) ==>
               Valid(v) && Render(v) == codec.decode(e).value.id
    ensures match codec.decode(e)
            case None => NeedsReply(codec, e) && DueText(srv, codec, e, outcome) == ToldError(srv, -32600, NoData, [])
            case Some(req) =>
              RequestBytes(srv, codec, req, v, outcome)
              == if NeedsReply(codec, e) then Some(DueText(srv, codec, e, outcome)) else None
  {
    if codec.decode(e).None? {
      ReportedDue(srv, codec, e, outcome, -32600, NoData);
    } else {
      var req := codec.decode(e).value;
      ValidityIsExact(codec, req, v);
      if !ValidRequest(codec, req) {
        ReportedDue(srv, codec, e, outcome, -32600, NoData);
      } else if outcome.Returned? {
        ResultText(outcome.raw, req.id);
      } else {
        ReportedDue(srv, codec, e, outcome, outcome.code, outcome.data);
      }
    }
  }

  /** The bytes a message that is one request is answered with. */
  lemma RequestOnTheWire(srv: Server, codec: Codec, payload: bytes, req: Request, v: Value, outcomes: Outcomes)
    requires AcceptsJson(codec) && !(0 < srv.maxMessageSize < |payload|) && Braced(TrimSpace(payload))
    requires codec.decode(TrimSpace(payload)) == Some(req)
    requires req.id != [] && codec.valid(req.id) ==> Valid(v) && Render(v) == req.id
    ensures Wire(srv, Handle(srv, codec, payload, outcomes)) == RequestBytes(srv, codec, req, v, outcomes(0))
  {
    SingleSectionOnTheWire(srv, codec, payload, outcomes);
    DueTextIs(srv, codec, TrimSpace(payload), v, outcomes(0));
  }
}
