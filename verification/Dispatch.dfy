/** handle.go, from the raw payload of a message to the bytes of the reply: the size and batch caps, decoding,
    validation, the batch, and the fallback when a reply cannot be marshaled; with the parts of error.go, response.go
    and main.go they use. Decoding a request and checking JSON are functions of the codec; what running a method
    gives is an arbitrary outcome for each entry. */
module Dispatch {
  import opened Wrappers
  import opened Bytes
  import opened Decimal
  import opened JsonGrammar
  import SilenceScan
  import BatchSplit
  import BatchPool

  const PARSE_ERROR: int := -32700
  const INVALID_REQUEST: int := -32600
  const INTERNAL_ERROR: int := -32603

  /** An empty id stands for an absent one. */
  datatype Request = Request(version: bytes, name: bytes, params: bytes, id: bytes)

  /** The data member of an error; Unmarshalable is a Go value encoding/json refuses. */
  datatype Data = NoData | Json(text: bytes) | Unmarshalable

  datatype Body = Result(raw: bytes) | Error(code: int, message: bytes, data: Data)

  datatype Response = Response(body: Body, id: bytes)

  /** What running the method of a valid request gives: a result, or an error with its code. */
  datatype Outcome = Returned(raw: bytes) | Failed(code: int, data: Data)

  datatype Codec = Codec(decode: bytes -> Option<Request>, valid: bytes -> bool)

  /** messages holds the registered error codes with their texts as JSON strings. */
  datatype Server = Server(messages: map<int, bytes>, maxMessageSize: int, maxBatchSize: int)

  // ---- marshaling ----

  function OrNull(raw: bytes): bytes {
    if raw == [] then Null() else raw
  }

  function PrintInt(n: int): bytes {
    if n < 0 then [MINUS] + Print(-n) else Print(n)
  }

  /** "name":value */
  function Field(name: bytes, value: bytes): bytes {
    [QUOTE] + name + [QUOTE] + ([COLON] + value)
  }

  function ErrorText(code: int, message: bytes, data: Data): bytes {
    [LBRACE]
    + (Field(Ascii("code"), PrintInt(code))
       + ([COMMA] + (Field(Ascii("message"), message)
                     + if data.Json? then [COMMA] + Field(Ascii("data"), OrNull(data.text)) else [])))
    + [RBRACE]
  }

  function BodyField(body: Body): bytes {
    match body
    case Result(raw) => Field(Ascii("result"), OrNull(raw))
    case Error(code, message, data) => Field(Ascii("error"), ErrorText(code, message, data))
  }

  function Text(r: Response): bytes {
    [LBRACE]
    + (Field(Ascii("jsonrpc"), [QUOTE] + Ascii("2.0") + [QUOTE])
       + ([COMMA] + (BodyField(r.body) + ([COMMA] + Field(Ascii("id"), OrNull(r.id))))))
    + [RBRACE]
  }

  predicate Marshals(r: Response) {
    r.body.Error? ==> !r.body.data.Unmarshalable?
  }

  predicate AllMarshal(rs: seq<Response>) {
    forall i :: 0 <= i < |rs| ==> Marshals(rs[i])
  }

  function Texts(rs: seq<Response>): (ts: seq<bytes>)
    ensures |ts| == |rs|
  {
    seq(|rs|, i requires 0 <= i < |rs| => Text(rs[i]))
  }

  /** MarshalJSON of a response and of a batch of them. */
  function Marshal(r: Response): Option<bytes> {
    if Marshals(r) then Some(Text(r)) else None
  }

  function MarshalBatch(rs: seq<Response>): Option<bytes> {
    if AllMarshal(rs) then Some([LBRACKET] + BatchSplit.CommaJoin(Texts(rs)) + [RBRACKET]) else None
  }

  // ---- error responses ----

  function Message(srv: Server, code: int): bytes {
    if code in srv.messages then srv.messages[code] else Ascii("\"\"")
  }

  function SafeInternalResponse(srv: Server, id: bytes): Response {
    Response(Error(INTERNAL_ERROR, Message(srv, INTERNAL_ERROR), NoData), id)
  }

  /** Unregistered codes degrade to internal_error without data. */
  function ErrorResponse(srv: Server, code: int, data: Data, id: bytes): Response {
    if code in srv.messages then Response(Error(code, srv.messages[code], data), id) else SafeInternalResponse(srv, id)
  }

  /** The pre-serialized error responses: always under a null id. */
  datatype Refusal = ParseError | InvalidRequest | BatchTooLarge | RequestTooLarge | Internal

  function Code(why: Refusal): int {
    match why
    case ParseError => PARSE_ERROR
    case Internal => INTERNAL_ERROR
    case _ => INVALID_REQUEST
  }

  function Phrase(why: Refusal): string {
    match why
    case ParseError => "parse_error_not_well_formed"
    case InvalidRequest => "invalid_request_not_conforming_to_spec"
    case BatchTooLarge => "batch_too_large"
    case RequestTooLarge => "request_too_large"
    case Internal => "internal_error"
  }

  function RefusalText(why: Refusal): bytes {
    Text(Response(Error(Code(why), [QUOTE] + Ascii(Phrase(why)) + [QUOTE], NoData), []))
  }

  // ---- one request ----

  predicate StartsScalar(b: byte) {
    b == QUOTE || b == MINUS || b == 110 || IsDigit(b)
  }

  predicate ValidRequest(codec: Codec, req: Request) {
    && req.version == Ascii("2.0")
    && req.name != []
    && (req.id != [] ==> StartsScalar(req.id[0]) && codec.valid(req.id))
  }

  /** handleRPC: None is a notification, which gets no reply. */
  function HandleRPC(srv: Server, codec: Codec, req: Request, outcome: Outcome): Option<Response> {
    if !ValidRequest(codec, req) then
      Some(ErrorResponse(srv, INVALID_REQUEST, NoData, if req.id != [] && !codec.valid(req.id) then [] else req.id))
    else if req.id == [] then None
    else
      match outcome
      case Returned(raw) => Some(Response(Result(raw), req.id))
      case Failed(code, data) => Some(ErrorResponse(srv, code, data, req.id))
  }

  /** One turn of a batch worker. */
  function EntryReply(srv: Server, codec: Codec, failed: bool, req: Request, outcome: Outcome): Option<Response> {
    if failed then Some(ErrorResponse(srv, INVALID_REQUEST, NoData, [])) else HandleRPC(srv, codec, req, outcome)
  }

  type Outcomes = nat -> Outcome

  function ElementReply(srv: Server, codec: Codec, e: bytes, outcome: Outcome): Option<Response> {
    match codec.decode(e)
    case None => EntryReply(srv, codec, true, Request([], [], [], []), outcome)
    case Some(req) => EntryReply(srv, codec, false, req, outcome)
  }

  function ElementReplies(srv: Server, codec: Codec, elems: seq<bytes>, outcomes: Outcomes): nat -> Option<Response> {
    (i: nat) => if i < |elems| then ElementReply(srv, codec, elems[i], outcomes(i)) else None
  }

  /** The responses to a batch, in the order of its entries. */
  function Replies(srv: Server, codec: Codec, elems: seq<bytes>, outcomes: Outcomes): seq<Response> {
    BatchPool.Sequential(ElementReplies(srv, codec, elems, outcomes), |elems|)
  }

  // ---- the whole message ----

  datatype Reply = Nothing | Refused(why: Refusal) | One(r: Response) | Many(rs: seq<Response>)

  predicate Broken(codec: Codec, e: bytes) {
    codec.decode(e).None? && !codec.valid(e)
  }

  predicate AnyBroken(codec: Codec, elems: seq<bytes>) {
    exists i :: 0 <= i < |elems| && Broken(codec, elems[i])
  }

  function Malformed(codec: Codec, data: bytes): Reply {
    Refused(if codec.valid(data) then InvalidRequest else ParseError)
  }

  /** A payload over a cap is answered unless it verifiably carries no id. */
  function Rejected(payload: bytes, why: Refusal): Reply {
    if SilenceScan.Verdict(TrimSpace(payload)) then Nothing else Refused(why)
  }

  function SingleReply(srv: Server, codec: Codec, data: bytes, outcome: Outcome): Reply {
    match codec.decode(data)
    case None => Malformed(codec, data)
    case Some(req) =>
      match HandleRPC(srv, codec, req, outcome)
      case None => Nothing
      case Some(r) => One(r)
  }

  function ElementsReply(srv: Server, codec: Codec, elems: seq<bytes>, outcomes: Outcomes): Reply {
    if elems == [] then Refused(InvalidRequest)
    else if AnyBroken(codec, elems) then Refused(ParseError)
    else
      var rs := Replies(srv, codec, elems, outcomes);
      if rs == [] then Nothing else Many(rs)
  }

  predicate Oversized(srv: Server, payload: bytes) {
    srv.maxMessageSize > 0 && |payload| > srv.maxMessageSize
  }

  predicate OverCap(srv: Server, data: bytes) {
    srv.maxBatchSize > 0 && BatchSplit.BatchLen(data, srv.maxBatchSize) > srv.maxBatchSize
  }

  predicate Bracketed(data: bytes) {
    |data| >= 2 && data[0] == LBRACKET && data[|data| - 1] == RBRACKET
  }

  predicate Braced(data: bytes) {
    |data| >= 2 && data[0] == LBRACE && data[|data| - 1] == RBRACE
  }

  function BatchReply(srv: Server, codec: Codec, data: bytes, outcomes: Outcomes): Reply
    requires Bracketed(data)
  {
    if OverCap(srv, data) then Rejected(data, BatchTooLarge)
    else
      match BatchSplit.Elements(data[1..|data| - 1])
      case None => Malformed(codec, data)
      case Some(elems) => ElementsReply(srv, codec, elems, outcomes)
  }

  function DataReply(srv: Server, codec: Codec, data: bytes, outcomes: Outcomes): Reply {
    if data == [] then Refused(ParseError)
    else if Bracketed(data) then BatchReply(srv, codec, data, outcomes)
    else if Braced(data) then SingleReply(srv, codec, data, outcomes(0))
    else Malformed(codec, data)
  }

  /** What HandleRPCJSONRawMessage answers. */
  function Handle(srv: Server, codec: Codec, payload: bytes, outcomes: Outcomes): Reply {
    if Oversized(srv, payload) then Rejected(payload, RequestTooLarge)
    else DataReply(srv, codec, TrimSpace(payload), outcomes)
  }

  /** A reply that can be marshaled, in place of one that may not be. */
  function Safe(srv: Server, r: Response): (safe: Response)
    ensures Marshals(safe) && safe.id == r.id
  {
    if Marshals(r) then r else SafeInternalResponse(srv, r.id)
  }

  function AllSafe(srv: Server, rs: seq<Response>): (safe: seq<Response>)
    ensures |safe| == |rs| && AllMarshal(safe)
  {
    seq(|rs|, i requires 0 <= i < |rs| => Safe(srv, rs[i]))
  }

  /** The bytes that leave; None when nothing does. */
  function Wire(srv: Server, reply: Reply): Option<bytes> {
    match reply
    case Nothing => None
    case Refused(why) => Some(RefusalText(why))
    case One(r) => Marshal(Safe(srv, r))
    case Many(rs) => MarshalBatch(AllSafe(srv, rs))
  }

  // ---- the code ----

  /** Decoding entry by entry; a syntactically broken one spoils the payload. */
  method DecodeEntries(codec: Codec, elems: seq<bytes>) returns (ok: bool, reqs: array<Request>, failed: array<bool>)
    ensures ok == !AnyBroken(codec, elems)
    ensures fresh(reqs) && fresh(failed) && reqs.Length == failed.Length == |elems|
    ensures ok ==> forall i :: 0 <= i < |elems| ==> Decodes(codec, elems[i], reqs[i], failed[i])
  {
    reqs, failed := new Request[|elems|], new bool[|elems|];
    for i := 0 to |elems|
      invariant forall k :: 0 <= k < i ==> !Broken(codec, elems[k]) && Decodes(codec, elems[k], reqs[k], failed[k])
    {
      match codec.decode(elems[i]) {
        case Some(req) => reqs[i], failed[i] := req, false;
        case None =>
          if !codec.valid(elems[i]) { return false, reqs, failed; }
          reqs[i], failed[i] := Request([], [], [], []), true;
      }
    }
    return true, reqs, failed;
  }

  predicate Decodes(codec: Codec, e: bytes, req: Request, failed: bool) {
    codec.decode(e) == if failed then None else Some(req)
  }

  /** handleBatchRPC. The entries are handled one after the other here; BatchPool.PoolIsSequential shows that every
      schedule of the pool gives the same responses. */
  method HandleBatchRPC(srv: Server, codec: Codec, ghost elems: seq<bytes>, reqs: array<Request>,
                        failed: array<bool>, outcomes: Outcomes)
    returns (responses: seq<Response>)
    requires reqs.Length == failed.Length == |elems|
    requires forall i :: 0 <= i < |elems| ==> Decodes(codec, elems[i], reqs[i], failed[i])
    ensures responses == Replies(srv, codec, elems, outcomes)
  {
    var raw := new Option<Response>[reqs.Length](_ => None);
    for idx := 0 to reqs.Length
      invariant forall k :: 0 <= k < idx ==> raw[k] == ElementReply(srv, codec, elems[k], outcomes(k))
    {
      raw[idx] := EntryReply(srv, codec, failed[idx], reqs[idx], outcomes(idx));
    }
    responses := BatchPool.Gather(raw[..]);
    BatchPool.NonNilIsSequential(ElementReplies(srv, codec, elems, outcomes), raw[..]);
  }

  /** The fallback: only the entries that do not marshal are replaced. */
  method ReplaceBroken(srv: Server, rs: seq<Response>) returns (safe: seq<Response>)
    ensures safe == AllSafe(srv, rs)
  {
    safe := rs;
    for i := 0 to |rs|
      invariant |safe| == |rs|
      invariant forall k :: 0 <= k < i ==> safe[k] == Safe(srv, rs[k])
      invariant forall k :: i <= k < |rs| ==> safe[k] == rs[k]
    {
      if Marshal(safe[i]).None? {
        safe := safe[i := SafeInternalResponse(srv, safe[i].id)];
      }
    }
  }

  lemma SafeWhenMarshals(srv: Server, rs: seq<Response>)
    requires AllMarshal(rs)
    ensures AllSafe(srv, rs) == rs
  {
  }

  method BatchBytes(srv: Server, batchResp: seq<Response>) returns (raw: Option<bytes>)
    ensures raw == Wire(srv, Many(batchResp))
  {
    raw := MarshalBatch(batchResp);
    if raw.None? {
      var safe := ReplaceBroken(srv, batchResp);
      raw := MarshalBatch(safe);
      if raw.None? { raw := Some(RefusalText(Internal)); }
    } else {
      SafeWhenMarshals(srv, batchResp);
    }
  }

  method HandleElements(srv: Server, codec: Codec, elems: seq<bytes>, outcomes: Outcomes) returns (raw: Option<bytes>)
    ensures raw == Wire(srv, ElementsReply(srv, codec, elems, outcomes))
  {
    if elems == [] { return Some(RefusalText(InvalidRequest)); }
    var ok, reqs, failed := DecodeEntries(codec, elems);
    if !ok { return Some(RefusalText(ParseError)); }
    var batchResp := HandleBatchRPC(srv, codec, elems, reqs, failed, outcomes);
    if batchResp == [] { return None; }
    raw := BatchBytes(srv, batchResp);
  }

  method HandleBatch(srv: Server, codec: Codec, data: bytes, outcomes: Outcomes) returns (raw: Option<bytes>)
    requires Bracketed(data)
    ensures raw == Wire(srv, BatchReply(srv, codec, data, outcomes))
  {
    if srv.maxBatchSize > 0 {
      var n := BatchSplit.ApproxBatchLen(data, srv.maxBatchSize);
      if n > srv.maxBatchSize {
        var silent := SilenceScan.LacksResponseID(data);
        return if silent then None else Some(RefusalText(BatchTooLarge));
      }
    }
    var elems, ok := BatchSplit.SplitBatchElements(data);
    if !ok { return Wire(srv, Malformed(codec, data)); }
    raw := HandleElements(srv, codec, elems, outcomes);
  }

  method HandleSingle(srv: Server, codec: Codec, data: bytes, outcome: Outcome) returns (raw: Option<bytes>)
    ensures raw == Wire(srv, SingleReply(srv, codec, data, outcome))
  {
    var req := codec.decode(data);
    if req.None? { return Wire(srv, Malformed(codec, data)); }
    var resp := HandleRPC(srv, codec, req.value, outcome);
    if resp.None? { return None; }
    raw := Marshal(resp.value);
    if raw.None? {
      raw := Marshal(SafeInternalResponse(srv, req.value.id));
      if raw.None? { raw := Some(RefusalText(Internal)); }
    }
  }

  method HandleRPCJSONRawMessage(srv: Server, codec: Codec, payload: bytes, outcomes: Outcomes)
    returns (raw: Option<bytes>)
    ensures raw == Wire(srv, Handle(srv, codec, payload, outcomes))
  {
    if srv.maxMessageSize > 0 && |payload| > srv.maxMessageSize {
      var silent := SilenceScan.LacksResponseID(payload);
      return if silent then None else Some(RefusalText(RequestTooLarge));
    }
    var data := TrimSpace(payload);
    var reqLen := |data|;
    if reqLen == 0 { return Some(RefusalText(ParseError)); }
    if reqLen < 2 { return Wire(srv, Malformed(codec, data)); }
    if data[0] == LBRACKET && data[reqLen - 1] == RBRACKET {
      raw := HandleBatch(srv, codec, data, outcomes);
    } else if data[0] == LBRACE && data[reqLen - 1] == RBRACE {
      raw := HandleSingle(srv, codec, data, outcomes(0));
    } else {
      return Wire(srv, Malformed(codec, data));
    }
  }
}
