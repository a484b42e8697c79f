/** jsonrpcws/client.go and jsonrpcstdio/client.go: concurrent calls over one connection, correlated by id
    through a shared pending map, as a transition system at the granularity of the mutex.

    One system covers both clients; a single Call is a batch of one entry, and a notification one that is not waited
    for. The module Shutdown is the part of it that shuts the client down. */
module Multiplexer {
  import opened Wrappers
  import opened Bytes
  import opened Decimal
  import opened Shutdown
  import Sets

  /** A response frame as decoded: the raw id (empty when absent) and which members it has. */
  datatype Frame = Frame(id: bytes, error: bool, result: bool, hasMethod: bool)

  /** What a pending channel can carry: a frame, or the error of a rejection that bore no id. */
  datatype Value = Response(f: Frame) | NullError

  datatype Result = Responses(got: seq<Option<Value>>) | CtxError | SendError | Closed | ParamsError

  datatype Phase =
    | Drawing              // taking ids from nextID
    | Registering
    | Sending
    | Breaking(who: nat)   // the write broke: shutting down under the writer's mutex
    | Waiting              // on the channel of entry |got|
    | Leaving(r: Result)   // about to unregister and return
    | Done(r: Result)

  /** notify marks the entries sent as notifications; ids are the ones drawn so far. */
  datatype Call = Call(notify: seq<bool>, ids: seq<Option<nat>>, got: seq<Option<Value>>, phase: Phase)

  type Owners = map<nat, (nat, nat)>
  type Calls = map<nat, Call>

  /** Channels are named by the number their id prints. buffer holds what lies in a channel, sent every channel
      that was ever sent to; inFlight and failing are sends the read loop has committed to but not made. */
  datatype State = State(
    lastId: nat, owner: Owners, calls: Calls,
    pending: map<bytes, nat>, buffer: map<nat, Value>, sent: set<nat>,
    inFlight: Option<(nat, Value)>, failing: set<nat>, batchLeft: nat,
    reading: bool, closing: Closing)

  const INIT: State := State(0, map[], map[], map[], map[], {}, None, {}, 0, true, OPEN)

  predicate IsNullId(id: bytes) { id == [] || id == Null() }

  predicate RequestShaped(f: Frame) {
    !f.error && !f.result && f.hasMethod
  }

  // ---- steps ----

  datatype CallStep =
    | Start(notify: seq<bool>)
    | Draw
    | DrawFail             // the params of the next entry do not marshal
    | Register
    | SendOk
    | SendFail
    | SendBreak(who: nat)  // a write that may have left part of a frame
    | Unlock
    | Receive
    | Finish
    | CtxDone
    | SeeClosed
    | Unregister

  datatype ReaderStep =
    | TopFrame(f: Frame)
    | BatchFrame
    | BatchEntry(f: Frame)
    | BatchEnd
    | SendInFlight
    | SendFailing(n: nat)
    | ReadEnd(who: nat)
    | ReadStop

  datatype Step =
    | OfCall(call: nat, c: CallStep)
    | OfReader(r: ReaderStep)
    | Close(who: nat)
    | OfActor(who: nat, a: Shutdown.Step)

  predicate At(s: State, call: nat, p: Phase) {
    call in s.calls && s.calls[call].phase == p
  }

  /** The entry a waiting call waits for; None for a notification. */
  function Awaited(c: Call): Option<nat>
    requires |c.got| < |c.ids|
  {
    c.ids[|c.got|]
  }

  /** The call waits on a channel. */
  predicate Blocked(s: State, call: nat) {
    At(s, call, Waiting) && |s.calls[call].got| < |s.calls[call].ids| && Awaited(s.calls[call]).Some?
  }

  predicate ReaderFree(s: State) {
    s.inFlight == None && s.failing == {}
  }

  predicate Reading(s: State) {
    s.reading && ReaderFree(s) && s.batchLeft == 0
  }

  predicate CallEnabled(cfg: Config, s: State, call: nat, step: CallStep) {
    match step
    case Start(notify) => call !in s.calls && notify != []
    case Draw => At(s, call, Drawing) && |s.calls[call].ids| < |s.calls[call].notify|
    case DrawFail => At(s, call, Drawing)
    case Register => At(s, call, Registering)
    case SendOk => At(s, call, Sending) && s.closing.writer == None && !s.closing.latched
    case SendFail => At(s, call, Sending)
    case SendBreak(who) =>
      cfg.stdio && At(s, call, Sending) && s.closing.writer == None && !s.closing.latched && who !in s.closing.actors
    case Unlock =>
      call in s.calls && s.calls[call].phase.Breaking? && Is(s.closing, s.calls[call].phase.who, Gone)
    case Receive =>
      At(s, call, Waiting) && var c := s.calls[call];
      |c.got| < |c.ids| && (Awaited(c).None? || Awaited(c).value in s.buffer)
    case Finish => At(s, call, Waiting) && |s.calls[call].got| == |s.calls[call].ids|
    case CtxDone => Blocked(s, call)
    case SeeClosed => Blocked(s, call) && s.closing.chanClosed
    case Unregister => call in s.calls && s.calls[call].phase.Leaving?
  }

  predicate ReaderEnabled(cfg: Config, s: State, step: ReaderStep) {
    match step
    case TopFrame(f) => Reading(s)
    case BatchFrame => Reading(s) && !cfg.stdio
    case BatchEntry(f) => ReaderFree(s) && s.batchLeft > 0
    case BatchEnd => ReaderFree(s) && s.batchLeft > 0
    case SendInFlight => s.inFlight.Some?
    case SendFailing(n) => n in s.failing
    case ReadEnd(who) => Reading(s) && who !in s.closing.actors
    case ReadStop => Reading(s) && cfg.stdio && s.closing.chanClosed
  }

  predicate Enabled(cfg: Config, s: State, step: Step) {
    match step
    case OfCall(call, c) => CallEnabled(cfg, s, call, c)
    case OfReader(r) => ReaderEnabled(cfg, s, r)
    case Close(who) => who !in s.closing.actors
    case OfActor(who, a) => Shutdown.Enabled(s.closing, who, a)
  }

  function SetCall(s: State, call: nat, c: Call): State {
    s.(calls := s.calls[call := c])
  }

  function SetPhase(s: State, call: nat, p: Phase): State
    requires call in s.calls
  {
    SetCall(s, call, s.calls[call].(phase := p))
  }

  function Started(s: State, notify: seq<bool>): Call {
    Call(notify, [], [], if s.closing.chanClosed then Done(Closed) else Drawing)
  }

  /** The call after drawing its next entry. */
  function NextDrawn(c: Call, id: Option<nat>): Call {
    c.(ids := c.ids + [id], phase := if |c.ids| + 1 == |c.notify| then Registering else Drawing)
  }

  /** A notification takes no id. */
  function SkipEntry(s: State, call: nat): State
    requires call in s.calls
  {
    SetCall(s, call, NextDrawn(s.calls[call], None))
  }

  /** nextID: the counter moves on and the entry owns the new number. */
  function TakeId(s: State, call: nat): State
    requires call in s.calls
  {
    var n, c := s.lastId + 1, s.calls[call];
    SetCall(s, call, NextDrawn(c, Some(n))).(lastId := n, owner := s.owner[n := (call, |c.ids|)])
  }

  function DrawId(s: State, call: nat): State
    requires call in s.calls && |s.calls[call].ids| < |s.calls[call].notify|
  {
    if s.calls[call].notify[|s.calls[call].ids|] then SkipEntry(s, call) else TakeId(s, call)
  }

  /** The numbers of ids, from position i on, entered under their printed form. */
  function EnterIds(pending: map<bytes, nat>, ids: seq<Option<nat>>): map<bytes, nat>
    decreases |ids|
  {
    if ids == [] then pending
    else
      var last := ids[|ids| - 1];
      var rest := EnterIds(pending, ids[..|ids| - 1]);
      if last.Some? then rest[Print(last.value) := last.value] else rest
  }

  function RegisterAll(s: State, call: nat): State
    requires call in s.calls
  {
    SetCall(s, call, s.calls[call].(phase := Sending)).(pending := EnterIds(s.pending, s.calls[call].ids))
  }

  /** unregister: delete(c.pending, id) for each own id. */
  function Forget(pending: map<bytes, nat>, ids: seq<Option<nat>>): map<bytes, nat> {
    map k | k in pending && Some(pending[k]) !in ids :: pending[k]
  }

  /** The call unregisters and returns. */
  function Left(s: State, call: nat): State
    requires call in s.calls && s.calls[call].phase.Leaving?
  {
    SetPhase(s, call, Done(s.calls[call].phase.r)).(pending := Forget(s.pending, s.calls[call].ids))
  }

  /** A send into a channel. */
  function Sent(s: State, n: nat, v: Value): State {
    s.(buffer := s.buffer[n := v], sent := s.sent + {n})
  }

  function TakeNext(s: State, call: nat): State
    requires call in s.calls && |s.calls[call].got| < |s.calls[call].ids|
    requires Awaited(s.calls[call]).Some? ==> Awaited(s.calls[call]).value in s.buffer
  {
    var c := s.calls[call];
    match Awaited(c)
    case None => SetCall(s, call, c.(got := c.got + [None]))
    case Some(n) => SetCall(s, call, c.(got := c.got + [Some(s.buffer[n])])).(buffer := s.buffer - {n})
  }

  /** deliver: the entry leaves the map under the mutex, the send follows. */
  function Deliver(s: State, f: Frame): State {
    if f.id != [] && f.id in s.pending then
      s.(pending := s.pending - {f.id}, inFlight := Some((s.pending[f.id], Response(f))))
    else s
  }

  /** One frame of the read loop that is not an array. */
  function Route(cfg: Config, s: State, f: Frame): State {
    if f.id == [] && !f.error then s                                  // a pushed notification
    else if cfg.stdio && f.id != [] && RequestShaped(f) then s        // a request of the peer's
    else if f.id != [] && f.id in s.pending then Deliver(s, f)
    else if f.error && IsNullId(f.id) then s.(pending := map[], failing := s.pending.Values)
    else s
  }

  function ApplyCall(cfg: Config, s: State, call: nat, step: CallStep): State
    requires CallEnabled(cfg, s, call, step)
  {
    match step
    case Start(notify) => SetCall(s, call, Started(s, notify))
    case Draw => DrawId(s, call)
    case DrawFail => SetPhase(s, call, Done(ParamsError))
    case Register => RegisterAll(s, call)
    case SendOk => SetPhase(s, call, Waiting)
    case SendFail => SetPhase(s, call, Leaving(SendError))
    case SendBreak(who) => SetPhase(s, call, Breaking(who)).(closing := BreakWrite(s.closing, who, call))
    case Unlock => SetPhase(s, call, Leaving(SendError)).(closing := s.closing.(writer := None))
    case Receive => TakeNext(s, call)
    case Finish => SetPhase(s, call, Done(Responses(s.calls[call].got)))
    case CtxDone => SetPhase(s, call, Leaving(CtxError))
    case SeeClosed => SetPhase(s, call, Done(Closed))
    case Unregister => Left(s, call)
  }

  function ApplyReader(cfg: Config, s: State, step: ReaderStep): State
    requires ReaderEnabled(cfg, s, step)
  {
    match step
    case TopFrame(f) => Route(cfg, s, f)
    case BatchFrame => s.(batchLeft := |s.pending|)
    case BatchEntry(f) => Deliver(s.(batchLeft := s.batchLeft - 1), f)
    case BatchEnd => s.(batchLeft := 0)
    case SendInFlight => Sent(s, s.inFlight.value.0, s.inFlight.value.1).(inFlight := None)
    case SendFailing(n) => Sent(s, n, NullError).(failing := s.failing - {n})
    case ReadEnd(who) => s.(reading := false, closing := Appear(cfg, s.closing, who))
    case ReadStop => s.(reading := false)
  }

  /** failPending empties the map; the other steps of an actor do not touch it. */
  function ApplyActor(cfg: Config, s: State, who: nat, step: Shutdown.Step): State {
    s.(closing := Shutdown.Apply(cfg, s.closing, who, step), pending := if step == Clear then map[] else s.pending)
  }

  function Apply(cfg: Config, s: State, step: Step): State
    requires Enabled(cfg, s, step)
  {
    match step
    case OfCall(call, c) => ApplyCall(cfg, s, call, c)
    case OfReader(r) => ApplyReader(cfg, s, r)
    case Close(who) => s.(closing := Appear(cfg, s.closing, who))
    case OfActor(who, a) => ApplyActor(cfg, s, who, a)
  }

  ghost function Run(cfg: Config, steps: seq<Step>): Option<State>
    decreases |steps|
  {
    if steps == [] then Some(INIT)
    else
      var before := Run(cfg, steps[..|steps| - 1]);
      var step := steps[|steps| - 1];
      if before.Some? && Enabled(cfg, before.value, step) then Some(Apply(cfg, before.value, step)) else None
  }

  // ---- the invariant, in parts that each look at few fields ----

  /** Number n was drawn for an existing entry. */
  ghost predicate Owns(owner: Owners, calls: Calls, n: nat) {
    && n in owner && owner[n].0 in calls
    && owner[n].1 < |calls[owner[n].0].ids| && calls[owner[n].0].ids[owner[n].1] == Some(n)
  }

  ghost predicate OwnedIds(owner: Owners, call: nat, ids: seq<Option<nat>>) {
    forall i :: 0 <= i < |ids| && ids[i].Some? ==> ids[i].value in owner && owner[ids[i].value] == (call, i)
  }

  /** Every drawn number belongs to one entry of one call. */
  ghost predicate Ids(lastId: nat, owner: Owners, calls: Calls) {
    && (forall n :: n in owner ==> 1 <= n <= lastId && Owns(owner, calls, n))
    && (forall call :: call in calls ==> OwnedIds(owner, call, calls[call].ids) && Shape(calls[call]))
  }

  /** How far a call has come. */
  predicate Shape(c: Call) {
    && |c.ids| <= |c.notify|
    && (forall i :: 0 <= i < |c.ids| ==> (c.ids[i].None? <==> c.notify[i]))
    && (c.phase == Drawing ==> |c.ids| < |c.notify|)
    && (c.phase != Drawing ==>
          |c.ids| == |c.notify| || (c.phase == Done(Closed) && c.ids == []) || c.phase == Done(ParamsError))
    && |c.got| <= |c.ids|
    && (c.phase.Leaving? ==> c.phase.r == SendError || c.phase.r == CtxError)
    && (c.phase == Drawing || c.phase == Registering || c.phase == Sending || c.phase.Breaking? ==> c.got == [])
  }

  predicate Registered(p: Phase) {
    p != Drawing && p != Registering
  }

  /** Number n is one of a call that has entered its ids in the map at some time. */
  ghost predicate Live(owner: Owners, calls: Calls, n: nat) {
    n in owner && owner[n].0 in calls && Registered(calls[owner[n].0].phase)
  }

  /** A channel is in at most one of these places: waiting in the map, committed to be sent to, or already sent to. */
  ghost predicate Tokens(owner: Owners, calls: Calls, pending: map<bytes, nat>, sent: set<nat>, failing: set<nat>,
                         inFlight: Option<(nat, Value)>)
  {
    && (forall k :: k in pending ==> k == Print(pending[k]) && Live(owner, calls, pending[k]))
    && (forall n :: n in sent ==> Live(owner, calls, n) && Print(n) !in pending && n !in failing)
    && (forall n :: n in failing ==> Live(owner, calls, n) && Print(n) !in pending)
    && (inFlight.Some? ==> Committed(owner, calls, pending, sent, failing, inFlight.value.0))
  }

  ghost predicate Committed(owner: Owners, calls: Calls, pending: map<bytes, nat>, sent: set<nat>, failing: set<nat>,
                            n: nat)
  {
    Live(owner, calls, n) && Print(n) !in pending && n !in failing && n !in sent
  }

  /** The only values the channel of id n may carry. */
  predicate Belongs(cfg: Config, n: nat, v: Value) {
    v.Response? ==> v.f.id == Print(n) && !(cfg.stdio && RequestShaped(v.f))
  }

  ghost predicate Mail(cfg: Config, buffer: map<nat, Value>, sent: set<nat>, inFlight: Option<(nat, Value)>) {
    && (forall n :: n in buffer ==> n in sent && Belongs(cfg, n, buffer[n]))
    && (inFlight.Some? ==> Belongs(cfg, inFlight.value.0, inFlight.value.1))
  }

  /** What call c has received so far fits its entries. */
  ghost predicate Fits(cfg: Config, sent: set<nat>, c: Call) {
    && |c.got| <= |c.ids|
    && (forall i :: 0 <= i < |c.got| && c.ids[i].None? ==> c.got[i] == None)
    && (forall i :: 0 <= i < |c.got| && c.ids[i].Some? ==>
          c.ids[i].value in sent && c.got[i].Some? && Belongs(cfg, c.ids[i].value, c.got[i].value))
    && (c.phase.Done? && c.phase.r.Responses? ==> c.phase.r.got == c.got && |c.got| == |c.ids|)
  }

  ghost predicate AllFit(cfg: Config, sent: set<nat>, calls: Calls) {
    forall call :: call in calls ==> Fits(cfg, sent, calls[call])
  }

  predicate PhaseMayPend(p: Phase, cleared: bool) {
    match p
    case Sending => true
    case Breaking(_) => true
    case Leaving(_) => true
    case Waiting => !cleared
    case Done(r) => r == Closed && !cleared
    case _ => false
  }

  ghost predicate MayPend(owner: Owners, calls: Calls, cleared: bool, n: nat) {
    n in owner && owner[n].0 in calls && PhaseMayPend(calls[owner[n].0].phase, cleared)
  }

  /** Whose entries may still be in the map. */
  ghost predicate Entries(owner: Owners, calls: Calls, pending: map<bytes, nat>, cleared: bool) {
    forall k :: k in pending ==> MayPend(owner, calls, cleared, pending[k])
  }

  ghost predicate ClosedCalls(calls: Calls, chanClosed: bool) {
    forall call :: call in calls && calls[call].phase == Done(Closed) ==> chanClosed
  }

  /** The writer's mutex is held by the call whose write broke, and by no other. */
  ghost predicate Locked(calls: Calls, writer: Option<(nat, nat)>) {
    && (writer.Some? ==> writer.value.1 in calls && calls[writer.value.1].phase == Breaking(writer.value.0))
    && (forall call :: call in calls && calls[call].phase.Breaking? ==> writer == Some((calls[call].phase.who, call)))
  }

  /** The calls, the map and the channels. */
  ghost predicate Traffic(cfg: Config, s: State) {
    && Ids(s.lastId, s.owner, s.calls)
    && Tokens(s.owner, s.calls, s.pending, s.sent, s.failing, s.inFlight)
    && Mail(cfg, s.buffer, s.sent, s.inFlight)
    && AllFit(cfg, s.sent, s.calls)
    && Entries(s.owner, s.calls, s.pending, s.closing.cleared)
    && ClosedCalls(s.calls, s.closing.chanClosed)
  }

  ghost predicate Inv(cfg: Config, s: State) {
    && Traffic(cfg, s)
    && Safe(cfg, s.closing)
    && Locked(s.calls, s.closing.writer)
    && (s.batchLeft > 0 ==> !cfg.stdio)
  }

  /** Traffic, put together from its parts. */
  lemma TrafficOf(cfg: Config, s: State, lastId: nat, owner: Owners, calls: Calls, pending: map<bytes, nat>,
                  buffer: map<nat, Value>, sent: set<nat>, inFlight: Option<(nat, Value)>, failing: set<nat>)
    requires s
          == State(lastId, owner, calls, pending, buffer, sent, inFlight, failing, s.batchLeft, s.reading, s.closing)
    requires Ids(lastId, owner, calls)
    requires Tokens(owner, calls, pending, sent, failing, inFlight)
    requires Mail(cfg, buffer, sent, inFlight)
    requires AllFit(cfg, sent, calls)
    requires Entries(owner, calls, pending, s.closing.cleared)
    requires ClosedCalls(calls, s.closing.chanClosed)
    ensures Traffic(cfg, s)
  {
  }

  // ---- what a change to one call leaves alone ----

  lemma IdsFollow(lastId: nat, owner: Owners, calls: Calls, call: nat, c: Call)
    requires Ids(lastId, owner, calls) && Shape(c)
    requires if call in calls then c.ids == calls[call].ids else c.ids == []
    ensures Ids(lastId, owner, calls[call := c])
  {
    forall n | n in owner ensures Owns(owner, calls[call := c], n) { assert Owns(owner, calls, n); }
  }

  lemma TokensFollow(owner: Owners, calls: Calls, owner': Owners, calls': Calls,
                     pending: map<bytes, nat>, sent: set<nat>, failing: set<nat>, inFlight: Option<(nat, Value)>)
    requires Tokens(owner, calls, pending, sent, failing, inFlight)
    requires forall n :: Live(owner, calls, n) ==> Live(owner', calls', n)
    ensures Tokens(owner', calls', pending, sent, failing, inFlight)
  {
  }

  lemma EntriesFollow(owner: Owners, calls: Calls, owner': Owners, calls': Calls, pending: map<bytes, nat>,
                      cleared: bool)
    requires Entries(owner, calls, pending, cleared)
    requires forall n :: MayPend(owner, calls, cleared, n) ==> MayPend(owner', calls', cleared, n)
    ensures Entries(owner', calls', pending, cleared)
  {
  }

  lemma TokensMove(owner: Owners, calls: Calls, call: nat, c: Call, pending: map<bytes, nat>, sent: set<nat>,
                   failing: set<nat>, inFlight: Option<(nat, Value)>)
    requires Tokens(owner, calls, pending, sent, failing, inFlight)
    requires call in calls && (Registered(calls[call].phase) ==> Registered(c.phase))
    ensures Tokens(owner, calls[call := c], pending, sent, failing, inFlight)
  {
    TokensFollow(owner, calls, owner, calls[call := c], pending, sent, failing, inFlight);
  }

  lemma FitsFollow(cfg: Config, sent: set<nat>, calls: Calls, call: nat, c: Call)
    requires AllFit(cfg, sent, calls) && Fits(cfg, sent, c)
    ensures AllFit(cfg, sent, calls[call := c])
  {
  }

  /** A registered or unregistered call moves on without touching its ids. */
  lemma CallMoves(cfg: Config, s: State, call: nat, c: Call)
    requires Traffic(cfg, s) && call in s.calls && c.ids == s.calls[call].ids
    requires Shape(c) && Fits(cfg, s.sent, c)
    requires Registered(s.calls[call].phase) ==> Registered(c.phase)
    requires PhaseMayPend(s.calls[call].phase, s.closing.cleared) ==> PhaseMayPend(c.phase, s.closing.cleared)
    requires c.phase == Done(Closed) ==> s.closing.chanClosed
    ensures Traffic(cfg, SetCall(s, call, c))
  {
    var calls := s.calls[call := c];
    IdsFollow(s.lastId, s.owner, s.calls, call, c);
    TokensMove(s.owner, s.calls, call, c, s.pending, s.sent, s.failing, s.inFlight);
    EntriesFollow(s.owner, s.calls, s.owner, calls, s.pending, s.closing.cleared);
    FitsFollow(cfg, s.sent, s.calls, call, c);
  }

  // ---- each step keeps the invariant ----

  lemma FreshCall(owner: Owners, calls: Calls, call: nat, c: Call, pending: map<bytes, nat>, sent: set<nat>,
                  failing: set<nat>, inFlight: Option<(nat, Value)>, cleared: bool)
    requires Tokens(owner, calls, pending, sent, failing, inFlight) && Entries(owner, calls, pending, cleared)
    requires call !in calls
    ensures Tokens(owner, calls[call := c], pending, sent, failing, inFlight)
    ensures Entries(owner, calls[call := c], pending, cleared)
  {
    TokensFollow(owner, calls, owner, calls[call := c], pending, sent, failing, inFlight);
    EntriesFollow(owner, calls, owner, calls[call := c], pending, cleared);
  }

  lemma StartKeeps(cfg: Config, s: State, call: nat, notify: seq<bool>)
    requires Traffic(cfg, s) && call !in s.calls && notify != []
    ensures Traffic(cfg, SetCall(s, call, Started(s, notify)))
  {
    var c := Started(s, notify);
    IdsFollow(s.lastId, s.owner, s.calls, call, c);
    FreshCall(s.owner, s.calls, call, c, s.pending, s.sent, s.failing, s.inFlight, s.closing.cleared);
    FitsFollow(cfg, s.sent, s.calls, call, c);
    TrafficOf(cfg, SetCall(s, call, c), s.lastId, s.owner, s.calls[call := c], s.pending,
              s.buffer, s.sent, s.inFlight, s.failing);
  }

  lemma DrawIds(lastId: nat, owner: Owners, calls: Calls, call: nat, c: Call)
    requires Ids(lastId, owner, calls) && call in calls && Shape(c)
    requires c.ids == calls[call].ids + [Some(lastId + 1)]
    ensures lastId + 1 !in owner
    ensures Ids(lastId + 1, owner[lastId + 1 := (call, |calls[call].ids|)], calls[call := c])
  {
    var owner' := owner[lastId + 1 := (call, |calls[call].ids|)];
    assert lastId + 1 !in owner;
    forall n | n in owner' ensures Owns(owner', calls[call := c], n) {
      if n in owner { assert Owns(owner, calls, n); }
    }
    forall k | k in calls ensures OwnedIds(owner', k, calls[k].ids) { assert OwnedIds(owner, k, calls[k].ids); }
  }

  lemma DrawShape(c: Call, id: Option<nat>)
    requires Shape(c) && c.phase == Drawing && (id.None? <==> c.notify[|c.ids|])
    ensures Shape(NextDrawn(c, id)) && c.got == []
  {
  }

  /** A call that has not registered owns nothing the others' bookkeeping speaks of. */
  lemma DrawingIsUnseen(owner: Owners, more: Owners, calls: Calls, call: nat, c: Call, pending: map<bytes, nat>,
                        sent: set<nat>, failing: set<nat>, inFlight: Option<(nat, Value)>, cleared: bool)
    requires Tokens(owner, calls, pending, sent, failing, inFlight) && Entries(owner, calls, pending, cleared)
    requires call in calls && calls[call].phase == Drawing
    requires forall n :: n in owner ==> n in more && more[n] == owner[n]
    ensures Tokens(more, calls[call := c], pending, sent, failing, inFlight)
            && Entries(more, calls[call := c], pending, cleared)
  {
    TokensFollow(owner, calls, more, calls[call := c], pending, sent, failing, inFlight);
    EntriesFollow(owner, calls, more, calls[call := c], pending, cleared);
  }

  lemma TakeUnseen(owner: Owners, calls: Calls, call: nat, c: Call, n: nat, pending: map<bytes, nat>, sent: set<nat>,
                   failing: set<nat>, inFlight: Option<(nat, Value)>, cleared: bool)
    requires Tokens(owner, calls, pending, sent, failing, inFlight) && Entries(owner, calls, pending, cleared)
    requires call in calls && calls[call].phase == Drawing && n !in owner
    ensures var more := owner[n := (call, |calls[call].ids|)];
            && Tokens(more, calls[call := c], pending, sent, failing, inFlight)
            && Entries(more, calls[call := c], pending, cleared)
  {
    var more := owner[n := (call, |calls[call].ids|)];
    DrawingIsUnseen(owner, more, calls, call, c, pending, sent, failing, inFlight, cleared);
  }

  lemma DrawnFollow(cfg: Config, sent: set<nat>, calls: Calls, call: nat, id: Option<nat>, chanClosed: bool)
    requires AllFit(cfg, sent, calls) && ClosedCalls(calls, chanClosed)
    requires call in calls && calls[call].phase == Drawing && calls[call].got == []
    ensures AllFit(cfg, sent, calls[call := NextDrawn(calls[call], id)])
    ensures ClosedCalls(calls[call := NextDrawn(calls[call], id)], chanClosed)
  {
    FitsFollow(cfg, sent, calls, call, NextDrawn(calls[call], id));
  }

  lemma SkipKeeps(cfg: Config, s: State, call: nat)
    requires Traffic(cfg, s) && CallEnabled(cfg, s, call, Draw) && s.calls[call].notify[|s.calls[call].ids|]
    ensures Traffic(cfg, SkipEntry(s, call))
  {
    var c := NextDrawn(s.calls[call], None);
    DrawShape(s.calls[call], None);
    IdsSkip(s.lastId, s.owner, s.calls, call, c);
    DrawingIsUnseen(s.owner, s.owner, s.calls, call, c, s.pending, s.sent, s.failing, s.inFlight, s.closing.cleared);
    DrawnFollow(cfg, s.sent, s.calls, call, None, s.closing.chanClosed);
    TrafficOf(cfg, SkipEntry(s, call), s.lastId, s.owner, s.calls[call := c], s.pending,
              s.buffer, s.sent, s.inFlight, s.failing);
  }

  lemma TakeKeeps(cfg: Config, s: State, call: nat)
    requires Traffic(cfg, s) && CallEnabled(cfg, s, call, Draw) && !s.calls[call].notify[|s.calls[call].ids|]
    ensures Traffic(cfg, TakeId(s, call))
  {
    var n := s.lastId + 1;
    var c, owner := NextDrawn(s.calls[call], Some(n)), s.owner[n := (call, |s.calls[call].ids|)];
    DrawShape(s.calls[call], Some(n));
    DrawIds(s.lastId, s.owner, s.calls, call, c);
    TakeUnseen(s.owner, s.calls, call, c, n, s.pending, s.sent, s.failing, s.inFlight, s.closing.cleared);
    DrawnFollow(cfg, s.sent, s.calls, call, Some(n), s.closing.chanClosed);
    TrafficOf(cfg, TakeId(s, call), n, owner, s.calls[call := c], s.pending,
              s.buffer, s.sent, s.inFlight, s.failing);
  }

  lemma DrawKeeps(cfg: Config, s: State, call: nat)
    requires Traffic(cfg, s) && CallEnabled(cfg, s, call, Draw)
    ensures Traffic(cfg, DrawId(s, call))
  {
    if s.calls[call].notify[|s.calls[call].ids|] { SkipKeeps(cfg, s, call); } else { TakeKeeps(cfg, s, call); }
  }

  lemma IdsSkip(lastId: nat, owner: Owners, calls: Calls, call: nat, c: Call)
    requires Ids(lastId, owner, calls) && call in calls && Shape(c)
    requires c.ids == calls[call].ids + [None]
    ensures Ids(lastId, owner, calls[call := c])
  {
    forall n | n in owner ensures Owns(owner, calls[call := c], n) { assert Owns(owner, calls, n); }
    assert OwnedIds(owner, call, calls[call].ids);
  }

  lemma {:induction false} EnterFacts(pending: map<bytes, nat>, ids: seq<Option<nat>>, k: bytes)
    requires k in EnterIds(pending, ids)
    ensures var n := EnterIds(pending, ids)[k];
            (k in pending && n == pending[k]) || (Some(n) in ids && k == Print(n))
    decreases |ids|
  {
    if ids != [] {
      var last, front := ids[|ids| - 1], ids[..|ids| - 1];
      if last.None? || k != Print(last.value) { EnterFacts(pending, front, k); }
    }
  }

  /** A number of a registering call is not yet live, and becomes so. */
  lemma RegisteringIsNew(owner: Owners, calls: Calls, call: nat, c: Call, n: nat)
    requires call in calls && calls[call].phase == Registering && OwnedIds(owner, call, c.ids) && c.phase == Sending
    ensures Live(owner, calls, n) ==> Live(owner, calls[call := c], n) && Some(n) !in c.ids
    ensures Some(n) in c.ids ==> Live(owner, calls[call := c], n)
  {
  }

  lemma RegisterTokens(owner: Owners, calls: Calls, call: nat, c: Call, pending: map<bytes, nat>, sent: set<nat>,
                       failing: set<nat>, inFlight: Option<(nat, Value)>)
    requires Tokens(owner, calls, pending, sent, failing, inFlight)
    requires call in calls && calls[call].phase == Registering && OwnedIds(owner, call, c.ids) && c.phase == Sending
    ensures Tokens(owner, calls[call := c], EnterIds(pending, c.ids), sent, failing, inFlight)
  {
    var pending', calls' := EnterIds(pending, c.ids), calls[call := c];
    forall k | k in pending' ensures k == Print(pending'[k]) && Live(owner, calls', pending'[k]) {
      EnterFacts(pending, c.ids, k);
      RegisteringIsNew(owner, calls, call, c, pending'[k]);
    }
    forall n | Live(owner, calls, n)
      ensures Live(owner, calls', n) && (Print(n) !in pending ==> Print(n) !in pending')
    {
      RegisteringIsNew(owner, calls, call, c, n);
      if Print(n) in pending' {
        EnterFacts(pending, c.ids, Print(n));
        PrintInjective(n, pending'[Print(n)]);
      }
    }
  }

  lemma RegisterEntries(owner: Owners, calls: Calls, call: nat, c: Call, pending: map<bytes, nat>, cleared: bool)
    requires Entries(owner, calls, pending, cleared) && call in calls && calls[call].phase == Registering
    requires OwnedIds(owner, call, c.ids) && c.phase == Sending
    ensures Entries(owner, calls[call := c], EnterIds(pending, c.ids), cleared)
  {
    var pending' := EnterIds(pending, c.ids);
    forall k | k in pending' ensures MayPend(owner, calls[call := c], cleared, pending'[k]) {
      EnterFacts(pending, c.ids, k);
      assert k in pending ==> MayPend(owner, calls, cleared, pending[k]);
    }
  }

  lemma RegisterKeeps(cfg: Config, s: State, call: nat)
    requires Traffic(cfg, s) && At(s, call, Registering)
    ensures Traffic(cfg, RegisterAll(s, call))
  {
    var c := s.calls[call].(phase := Sending);
    assert OwnedIds(s.owner, call, c.ids);
    IdsFollow(s.lastId, s.owner, s.calls, call, c);
    FitsFollow(cfg, s.sent, s.calls, call, c);
    RegisterTokens(s.owner, s.calls, call, c, s.pending, s.sent, s.failing, s.inFlight);
    RegisterEntries(s.owner, s.calls, call, c, s.pending, s.closing.cleared);
    TrafficOf(cfg, RegisterAll(s, call), s.lastId, s.owner, s.calls[call := c], EnterIds(s.pending, c.ids),
              s.buffer, s.sent, s.inFlight, s.failing);
  }

  lemma ReceiveFits(cfg: Config, sent: set<nat>, c: Call, v: Option<Value>)
    requires Fits(cfg, sent, c) && Shape(c) && c.phase == Waiting && |c.got| < |c.ids|
    requires v.None? <==> Awaited(c).None?
    requires v.Some? ==> Awaited(c).value in sent && Belongs(cfg, Awaited(c).value, v.value)
    ensures Fits(cfg, sent, c.(got := c.got + [v])) && Shape(c.(got := c.got + [v]))
  {
  }

  lemma ReceiveKeeps(cfg: Config, s: State, call: nat)
    requires Traffic(cfg, s) && CallEnabled(cfg, s, call, Receive)
    ensures Traffic(cfg, TakeNext(s, call))
  {
    var c := s.calls[call];
    var v := if Awaited(c).Some? then Some(s.buffer[Awaited(c).value]) else None;
    ReceiveFits(cfg, s.sent, c, v);
    CallMoves(cfg, s, call, c.(got := c.got + [v]));
  }

  lemma FinishEntries(owner: Owners, calls: Calls, call: nat, c: Call, pending: map<bytes, nat>, sent: set<nat>,
                      cleared: bool)
    requires Entries(owner, calls, pending, cleared) && call in calls
    requires forall k :: k in pending ==> owner[pending[k]].0 != call
    ensures Entries(owner, calls[call := c], pending, cleared)
  {
  }

  lemma FinishFits(cfg: Config, sent: set<nat>, c: Call)
    requires Fits(cfg, sent, c) && Shape(c) && c.phase == Waiting && |c.got| == |c.ids|
    ensures var c' := c.(phase := Done(Responses(c.got))); Fits(cfg, sent, c') && Shape(c')
  {
  }

  /** Whoever has received on all its channels has nothing left in the map. */
  lemma FinishedHasLeft(cfg: Config, s: State, call: nat)
    requires Traffic(cfg, s) && CallEnabled(cfg, s, call, Finish)
    ensures forall k :: k in s.pending ==> s.owner[s.pending[k]].0 != call
  {
    assert Fits(cfg, s.sent, s.calls[call]);
    forall k | k in s.pending ensures s.owner[s.pending[k]].0 != call {
      assert Owns(s.owner, s.calls, s.pending[k]);
    }
  }

  lemma FinishKeeps(cfg: Config, s: State, call: nat)
    requires Traffic(cfg, s) && CallEnabled(cfg, s, call, Finish)
    ensures Traffic(cfg, SetPhase(s, call, Done(Responses(s.calls[call].got))))
  {
    var c := s.calls[call].(phase := Done(Responses(s.calls[call].got)));
    FinishFits(cfg, s.sent, s.calls[call]);
    IdsFollow(s.lastId, s.owner, s.calls, call, c);
    TokensMove(s.owner, s.calls, call, c, s.pending, s.sent, s.failing, s.inFlight);
    FitsFollow(cfg, s.sent, s.calls, call, c);
    FinishedHasLeft(cfg, s, call);
    FinishEntries(s.owner, s.calls, call, c, s.pending, s.sent, s.closing.cleared);
    TrafficOf(cfg, SetCall(s, call, c), s.lastId, s.owner, s.calls[call := c], s.pending,
              s.buffer, s.sent, s.inFlight, s.failing);
  }

  lemma TokensShrink(owner: Owners, calls: Calls, pending: map<bytes, nat>, fewer: map<bytes, nat>, sent: set<nat>,
                     failing: set<nat>, inFlight: Option<(nat, Value)>)
    requires Tokens(owner, calls, pending, sent, failing, inFlight)
    requires forall k :: k in fewer ==> k in pending && fewer[k] == pending[k]
    ensures Tokens(owner, calls, fewer, sent, failing, inFlight)
  {
  }

  lemma ForgetEntries(lastId: nat, owner: Owners, calls: Calls, call: nat, c: Call, pending: map<bytes, nat>,
                      cleared: bool)
    requires Ids(lastId, owner, calls) && call in calls
    requires Entries(owner, calls, pending, cleared)
    ensures Entries(owner, calls[call := c], Forget(pending, calls[call].ids), cleared)
  {
    var fewer := Forget(pending, calls[call].ids);
    forall k | k in fewer ensures MayPend(owner, calls[call := c], cleared, fewer[k]) {
      assert Owns(owner, calls, fewer[k]);
    }
  }

  lemma UnregisterKeeps(cfg: Config, s: State, call: nat)
    requires Traffic(cfg, s) && call in s.calls && s.calls[call].phase.Leaving?
    ensures Traffic(cfg, Left(s, call))
  {
    var c := s.calls[call];
    var c', fewer := c.(phase := Done(c.phase.r)), Forget(s.pending, c.ids);
    assert Fits(cfg, s.sent, c) && Shape(c);
    IdsFollow(s.lastId, s.owner, s.calls, call, c');
    TokensShrink(s.owner, s.calls, s.pending, fewer, s.sent, s.failing, s.inFlight);
    TokensMove(s.owner, s.calls, call, c', fewer, s.sent, s.failing, s.inFlight);
    FitsFollow(cfg, s.sent, s.calls, call, c');
    ForgetEntries(s.lastId, s.owner, s.calls, call, c', s.pending, s.closing.cleared);
    TrafficOf(cfg, Left(s, call), s.lastId, s.owner, s.calls[call := c'], fewer,
              s.buffer, s.sent, s.inFlight, s.failing);
  }

  lemma DeliverTokens(owner: Owners, calls: Calls, pending: map<bytes, nat>, sent: set<nat>, id: bytes, v: Value)
    requires Tokens(owner, calls, pending, sent, {}, None) && id in pending
    ensures Tokens(owner, calls, pending - {id}, sent, {}, Some((pending[id], v)))
  {
  }

  lemma DeliverKeeps(cfg: Config, s: State, f: Frame)
    requires Traffic(cfg, s) && ReaderFree(s) && !(cfg.stdio && RequestShaped(f))
    ensures Traffic(cfg, Deliver(s, f))
  {
    if f.id != [] && f.id in s.pending {
      DeliverTokens(s.owner, s.calls, s.pending, s.sent, f.id, Response(f));
    }
  }

  lemma FailAllKeeps(cfg: Config, s: State)
    requires Traffic(cfg, s) && ReaderFree(s)
    ensures Traffic(cfg, s.(pending := map[], failing := s.pending.Values))
  {
    forall n | n in s.pending.Values ensures Live(s.owner, s.calls, n) && n !in s.sent {
      var k :| k in s.pending && s.pending[k] == n;
    }
  }

  lemma FitsGrows(cfg: Config, sent: set<nat>, more: set<nat>, calls: Calls)
    requires AllFit(cfg, sent, calls) && sent <= more
    ensures AllFit(cfg, more, calls)
  {
  }

  /** The send of a delivered frame, or of the rejection, finds the channel empty and never used before. */
  lemma SendIsFirst(cfg: Config, s: State, n: nat)
    requires Traffic(cfg, s)
    requires n in s.failing || (s.inFlight.Some? && s.inFlight.value.0 == n)
    ensures n !in s.buffer && n !in s.sent
  {
  }

  /** The send of inFlight moves its channel from committed to sent. */
  lemma InFlightTokens(owner: Owners, calls: Calls, pending: map<bytes, nat>, sent: set<nat>, failing: set<nat>,
                       n: nat, v: Value)
    requires Tokens(owner, calls, pending, sent, failing, Some((n, v)))
    ensures Tokens(owner, calls, pending, sent + {n}, failing, None)
  {
  }

  lemma FailingTokens(owner: Owners, calls: Calls, pending: map<bytes, nat>, sent: set<nat>, failing: set<nat>,
                      inFlight: Option<(nat, Value)>, n: nat)
    requires Tokens(owner, calls, pending, sent, failing, inFlight) && n in failing
    ensures Tokens(owner, calls, pending, sent + {n}, failing - {n}, inFlight)
  {
  }

  lemma MailGrows(cfg: Config, buffer: map<nat, Value>, sent: set<nat>, inFlight: Option<(nat, Value)>, n: nat,
                  v: Value, next: Option<(nat, Value)>)
    requires Mail(cfg, buffer, sent, inFlight) && Belongs(cfg, n, v) && (next == None || next == inFlight)
    ensures Mail(cfg, buffer[n := v], sent + {n}, next)
  {
  }

  lemma InFlightKeeps(cfg: Config, s: State, n: nat, v: Value)
    requires Traffic(cfg, s) && s.inFlight == Some((n, v))
    ensures Traffic(cfg, Sent(s, n, v).(inFlight := None))
  {
    InFlightTokens(s.owner, s.calls, s.pending, s.sent, s.failing, n, v);
    MailGrows(cfg, s.buffer, s.sent, s.inFlight, n, v, None);
    FitsGrows(cfg, s.sent, s.sent + {n}, s.calls);
    TrafficOf(cfg, Sent(s, n, v).(inFlight := None), s.lastId, s.owner, s.calls, s.pending,
              s.buffer[n := v], s.sent + {n}, None, s.failing);
  }

  lemma FailingKeeps(cfg: Config, s: State, n: nat)
    requires Traffic(cfg, s) && n in s.failing
    ensures Traffic(cfg, Sent(s, n, NullError).(failing := s.failing - {n}))
  {
    FailingTokens(s.owner, s.calls, s.pending, s.sent, s.failing, s.inFlight, n);
    MailGrows(cfg, s.buffer, s.sent, s.inFlight, n, NullError, s.inFlight);
    FitsGrows(cfg, s.sent, s.sent + {n}, s.calls);
    TrafficOf(cfg, Sent(s, n, NullError).(failing := s.failing - {n}), s.lastId, s.owner, s.calls, s.pending,
              s.buffer[n := NullError], s.sent + {n}, s.inFlight, s.failing - {n});
  }

  lemma RouteKeeps(cfg: Config, s: State, f: Frame)
    requires Traffic(cfg, s) && ReaderFree(s)
    ensures Traffic(cfg, Route(cfg, s, f))
  {
    var t := Route(cfg, s, f);
    if t == s {
    } else if f.id != [] && f.id in s.pending {
      DeliverKeeps(cfg, s, f);
    } else {
      FailAllKeeps(cfg, s);
    }
  }

  lemma EntryKeeps(cfg: Config, s: State, f: Frame)
    requires Traffic(cfg, s) && ReaderFree(s) && s.batchLeft > 0 && !cfg.stdio
    ensures Traffic(cfg, Deliver(s.(batchLeft := s.batchLeft - 1), f))
  {
    DeliverKeeps(cfg, s.(batchLeft := s.batchLeft - 1), f);
  }

  /** failPending: the map is emptied for good. */
  lemma ClearKeeps(cfg: Config, s: State, closing: Closing)
    requires Traffic(cfg, s) && (s.closing.chanClosed ==> closing.chanClosed)
    ensures Traffic(cfg, s.(closing := closing, pending := map[]))
  {
    TokensShrink(s.owner, s.calls, s.pending, map[], s.sent, s.failing, s.inFlight);
  }

  /** Traffic looks at the shutdown only through two flags. */
  lemma ClosingFollows(cfg: Config, s: State, closing: Closing)
    requires Traffic(cfg, s) && (s.closing.chanClosed ==> closing.chanClosed) && closing.cleared == s.closing.cleared
    ensures Traffic(cfg, s.(closing := closing))
  {
  }

  lemma PhaseKeeps(cfg: Config, s: State, call: nat, p: Phase)
    requires Traffic(cfg, s) && call in s.calls && p != Drawing && p != Registering
    requires match p
             case Sending => false
             case Breaking(_) => s.calls[call].phase == Sending
             case Waiting => s.calls[call].phase == Sending && !s.closing.cleared
             case Leaving(r) => (r == SendError && (s.calls[call].phase == Sending || s.calls[call].phase.Breaking?))
                                || (r == CtxError && s.calls[call].phase == Waiting)
             case Done(r) => (r == ParamsError && s.calls[call].phase == Drawing)
                             || (r == Closed && s.calls[call].phase == Waiting && s.closing.chanClosed)
    ensures Traffic(cfg, SetPhase(s, call, p))
  {
    assert Fits(cfg, s.sent, s.calls[call]) && Shape(s.calls[call]);
    CallMoves(cfg, s, call, s.calls[call].(phase := p));
  }

  // ---- the writer's mutex ----

  lemma LockedFollow(calls: Calls, call: nat, c: Call, writer: Option<(nat, nat)>)
    requires Locked(calls, writer) && !c.phase.Breaking?
    requires call in calls ==> !calls[call].phase.Breaking?
    ensures Locked(calls[call := c], writer)
  {
  }

  lemma LockTaken(calls: Calls, call: nat, c: Call, who: nat)
    requires Locked(calls, None) && c.phase == Breaking(who)
    ensures Locked(calls[call := c], Some((who, call)))
  {
  }

  lemma LockReleased(calls: Calls, call: nat, c: Call, writer: Option<(nat, nat)>)
    requires Locked(calls, writer) && call in calls && calls[call].phase.Breaking? && !c.phase.Breaking?
    ensures Locked(calls[call := c], None)
  {
  }

  /** A step of a call changes that call alone. */
  lemma OneCallChanges(cfg: Config, s: State, call: nat, step: CallStep)
    requires CallEnabled(cfg, s, call, step)
    ensures var t := ApplyCall(cfg, s, call, step); call in t.calls && t.calls == s.calls[call := t.calls[call]]
  {
  }

  lemma CallKeepsLock(cfg: Config, s: State, call: nat, step: CallStep)
    requires Locked(s.calls, s.closing.writer) && CallEnabled(cfg, s, call, step)
    ensures var t := ApplyCall(cfg, s, call, step); Locked(t.calls, t.closing.writer)
  {
    var t := ApplyCall(cfg, s, call, step);
    OneCallChanges(cfg, s, call, step);
    match step
    case SendBreak(who) => LockTaken(s.calls, call, t.calls[call], who);
    case Unlock => LockReleased(s.calls, call, t.calls[call], s.closing.writer);
    case _ => LockedFollow(s.calls, call, t.calls[call], s.closing.writer);
  }

  // ---- every step keeps the invariant ----

  lemma CallKeepsTraffic(cfg: Config, s: State, call: nat, step: CallStep)
    requires Inv(cfg, s) && CallEnabled(cfg, s, call, step)
    ensures Traffic(cfg, ApplyCall(cfg, s, call, step))
  {
    match step
    case Start(notify) => StartKeeps(cfg, s, call, notify);
    case Draw => DrawKeeps(cfg, s, call);
    case DrawFail => PhaseKeeps(cfg, s, call, Done(ParamsError));
    case Register => RegisterKeeps(cfg, s, call);
    case SendOk => PhaseKeeps(cfg, s, call, Waiting);
    case SendFail => PhaseKeeps(cfg, s, call, Leaving(SendError));
    case SendBreak(who) =>
      PhaseKeeps(cfg, s, call, Breaking(who));
      ClosingFollows(cfg, SetPhase(s, call, Breaking(who)), BreakWrite(s.closing, who, call));
    case Unlock =>
      PhaseKeeps(cfg, s, call, Leaving(SendError));
      ClosingFollows(cfg, SetPhase(s, call, Leaving(SendError)), s.closing.(writer := None));
    case CtxDone => PhaseKeeps(cfg, s, call, Leaving(CtxError));
    case SeeClosed => PhaseKeeps(cfg, s, call, Done(Closed));
    case Receive => ReceiveKeeps(cfg, s, call);
    case Finish => FinishKeeps(cfg, s, call);
    case Unregister => UnregisterKeeps(cfg, s, call);
  }

  lemma CallKeepsSafe(cfg: Config, s: State, call: nat, step: CallStep)
    requires Safe(cfg, s.closing) && CallEnabled(cfg, s, call, step)
    ensures Safe(cfg, ApplyCall(cfg, s, call, step).closing)
  {
    if step.SendBreak? { BreakWriteKeeps(cfg, s.closing, step.who, call); }
  }

  /** The invariant, put together from its parts. */
  lemma InvOf(cfg: Config, s: State)
    requires Traffic(cfg, s) && Safe(cfg, s.closing) && Locked(s.calls, s.closing.writer)
    requires s.batchLeft > 0 ==> !cfg.stdio
    ensures Inv(cfg, s)
  {
  }

  lemma CallKeeps(cfg: Config, s: State, call: nat, step: CallStep)
    requires Inv(cfg, s) && CallEnabled(cfg, s, call, step)
    ensures Inv(cfg, ApplyCall(cfg, s, call, step))
  {
    CallKeepsTraffic(cfg, s, call, step);
    CallKeepsLock(cfg, s, call, step);
    CallKeepsSafe(cfg, s, call, step);
    InvOf(cfg, ApplyCall(cfg, s, call, step));
  }

  lemma ReaderKeepsTraffic(cfg: Config, s: State, step: ReaderStep)
    requires Inv(cfg, s) && ReaderEnabled(cfg, s, step)
    ensures Traffic(cfg, ApplyReader(cfg, s, step))
  {
    match step
    case TopFrame(f) => RouteKeeps(cfg, s, f);
    case BatchEntry(f) => EntryKeeps(cfg, s, f);
    case SendInFlight => InFlightKeeps(cfg, s, s.inFlight.value.0, s.inFlight.value.1);
    case SendFailing(n) => FailingKeeps(cfg, s, n);
    case _ =>
  }

  lemma ReaderKeeps(cfg: Config, s: State, step: ReaderStep)
    requires Inv(cfg, s) && ReaderEnabled(cfg, s, step)
    ensures Inv(cfg, ApplyReader(cfg, s, step))
  {
    ReaderKeepsTraffic(cfg, s, step);
    if step.ReadEnd? { AppearKeeps(cfg, s.closing, step.who); }
  }

  lemma ActorKeeps(cfg: Config, s: State, who: nat, step: Shutdown.Step)
    requires Inv(cfg, s) && Shutdown.Enabled(s.closing, who, step)
    ensures Inv(cfg, ApplyActor(cfg, s, who, step))
  {
    var closing := Shutdown.Apply(cfg, s.closing, who, step);
    Shutdown.StepKeeps(cfg, s.closing, who, step);
    if step == Clear { ClearKeeps(cfg, s, closing); } else { ClosingFollows(cfg, s, closing); }
  }

  lemma StepKeeps(cfg: Config, s: State, step: Step)
    requires Inv(cfg, s) && Enabled(cfg, s, step)
    ensures Inv(cfg, Apply(cfg, s, step))
  {
    match step
    case OfCall(call, c) => CallKeeps(cfg, s, call, c);
    case OfReader(r) => ReaderKeeps(cfg, s, r);
    case Close(who) =>
      AppearKeeps(cfg, s.closing, who);
      ClosingFollows(cfg, s, Appear(cfg, s.closing, who));
    case OfActor(who, a) => ActorKeeps(cfg, s, who, a);
  }

  lemma {:induction false} RunKeeps(cfg: Config, steps: seq<Step>)
    requires Run(cfg, steps).Some?
    ensures Inv(cfg, Run(cfg, steps).value)
    decreases |steps|
  {
    if steps != [] {
      RunKeeps(cfg, steps[..|steps| - 1]);
      StepKeeps(cfg, Run(cfg, steps[..|steps| - 1]).value, steps[|steps| - 1]);
    }
  }

  // ---- main results, over every run ----

  /** No channel is ever sent to twice, so the sends into the capacity-1 channels never block. */
  lemma SendsNeverBlock(cfg: Config, steps: seq<Step>)
    requires Run(cfg, steps).Some?
    ensures var s := Run(cfg, steps).value;
            && (s.inFlight.Some? ==> s.inFlight.value.0 !in s.buffer && s.inFlight.value.0 !in s.sent)
            && (forall n :: n in s.failing ==> n !in s.buffer && n !in s.sent)
  {
    RunKeeps(cfg, steps);
    var s := Run(cfg, steps).value;
    if s.inFlight.Some? { SendIsFirst(cfg, s, s.inFlight.value.0); }
    forall n | n in s.failing ensures n !in s.buffer && n !in s.sent { SendIsFirst(cfg, s, n); }
  }

  /** Two entries of any two calls never carry the same id on the wire. */
  lemma IdsNeverReused(cfg: Config, steps: seq<Step>, a: nat, i: nat, b: nat, j: nat)
    requires Run(cfg, steps).Some?
    requires var cs := Run(cfg, steps).value.calls;
             && a in cs && i < |cs[a].ids| && cs[a].ids[i].Some?
             && b in cs && j < |cs[b].ids| && cs[b].ids[j].Some? && (a, i) != (b, j)
    ensures var cs := Run(cfg, steps).value.calls;
            Print(cs[a].ids[i].value) != Print(cs[b].ids[j].value)
  {
    RunKeeps(cfg, steps);
    var s := Run(cfg, steps).value;
    var m, n := s.calls[a].ids[i].value, s.calls[b].ids[j].value;
    assert OwnedIds(s.owner, a, s.calls[a].ids) && OwnedIds(s.owner, b, s.calls[b].ids);
    if Print(m) == Print(n) { PrintInjective(m, n); }
  }

  /** What a finished call hands its caller for one entry: nothing for a notification; otherwise a frame bearing the
      entry's own id, or the error of a rejection without an id. The stdio client never hands over a request frame. */
  lemma CallsGetTheirOwn(cfg: Config, steps: seq<Step>, call: nat, i: nat)
    requires Run(cfg, steps).Some? && call in Run(cfg, steps).value.calls
    requires var p := Run(cfg, steps).value.calls[call].phase; p.Done? && p.r.Responses?
    requires i < |Run(cfg, steps).value.calls[call].notify|
    ensures var c := Run(cfg, steps).value.calls[call]; var got := c.phase.r.got;
            && |got| == |c.notify| == |c.ids| && (c.notify[i] <==> got[i].None?)
            && (got[i].Some? && got[i].value.Response? ==>
                  c.ids[i].Some? && got[i].value.f.id == Print(c.ids[i].value)
                  && !(cfg.stdio && RequestShaped(got[i].value.f)))
  {
    RunKeeps(cfg, steps);
    var s := Run(cfg, steps).value;
    assert Shape(s.calls[call]) && Fits(cfg, s.sent, s.calls[call]);
  }

  /** The map is cleared only after writes have been made to fail, whoever shuts the client down, and the channel is
      closed only once. */
  lemma LatchedBeforeCleared(cfg: Config, steps: seq<Step>, who: nat, step: Shutdown.Step)
    requires Run(cfg, steps).Some? && Enabled(cfg, Run(cfg, steps).value, OfActor(who, step))
    ensures var d := Run(cfg, steps).value.closing;
            && (step == Clear ==> d.chanClosed && d.latched && !d.cleared)
            && (step == CloseChan ==> !d.chanClosed)
            && (d.cleared ==> d.latched)
  {
    RunKeeps(cfg, steps);
    InOrder(cfg, Run(cfg, steps).value.closing, who, step);
  }

  /** Once no call is under way and no shutdown is half done, nothing is left in the map. */
  lemma NothingLeaks(cfg: Config, steps: seq<Step>)
    requires Run(cfg, steps).Some? && Settled(Run(cfg, steps).value.closing)
    requires forall call :: call in Run(cfg, steps).value.calls ==> Run(cfg, steps).value.calls[call].phase.Done?
    ensures Run(cfg, steps).value.pending == map[]
  {
    RunKeeps(cfg, steps);
    var s := Run(cfg, steps).value;
    assert s.closing.chanClosed ==> s.closing.once == Spent;
    assert forall k :: k in s.pending ==> MayPend(s.owner, s.calls, s.closing.cleared, s.pending[k]);
  }

  /** A shutdown never deadlocks: as long as some actor is not through, an actor can go on, or the call that keeps the
      writer's mutex can let go of it. */
  lemma ShutdownNeverStuck(cfg: Config, steps: seq<Step>)
    requires Run(cfg, steps).Some? && !Settled(Run(cfg, steps).value.closing)
    ensures var s := Run(cfg, steps).value;
            exists step: Step :: (step.OfActor? || (step.OfCall? && step.c == Unlock)) && Enabled(cfg, s, step)
  {
    RunKeeps(cfg, steps);
    var s := Run(cfg, steps).value;
    var who, release := NeverStuck(cfg, s.closing);
    if release {
      assert Enabled(cfg, s, OfCall(s.closing.writer.value.1, Unlock));
    } else {
      assert Enabled(cfg, s, OfActor(who, Next(s.closing, s.closing.actors[who])));
    }
  }

  /** A response reaches the channel registered under its id. */
  lemma ResponseReachesItsChannel(cfg: Config, steps: seq<Step>, f: Frame)
    requires Run(cfg, steps).Some? && Enabled(cfg, Run(cfg, steps).value, OfReader(TopFrame(f)))
    requires f.id != [] && f.id in Run(cfg, steps).value.pending && !(cfg.stdio && RequestShaped(f))
    ensures var s := Run(cfg, steps).value; var t := Run(cfg, steps + [OfReader(TopFrame(f)), OfReader(SendInFlight)]);
            && f.id == Print(s.pending[f.id])
            && t.Some? && s.pending[f.id] in t.value.buffer && t.value.buffer[s.pending[f.id]] == Response(f)
            && f.id !in t.value.pending
  {
    RunKeeps(cfg, steps);
    RunTwo(cfg, steps, OfReader(TopFrame(f)), OfReader(SendInFlight));
  }

  lemma NullIsNobodys(cfg: Config, s: State, f: Frame)
    requires Traffic(cfg, s) && (f.id == [] || f.id == [110, 117, 108, 108])
    ensures IsNullId(f.id) && (f.id != [] ==> f.id !in s.pending)
    ensures forall n: nat :: n in s.pending.Values <==> Print(n) in s.pending
  {
    NullBytes();
    forall n: nat ensures Print(n) != Null() { PrintIsNotNull(n); }
    forall n: nat ensures n in s.pending.Values <==> Print(n) in s.pending {
      if Print(n) in s.pending { PrintInjective(n, s.pending[Print(n)]); }
    }
  }

  /** A rejection without an id is owed to every call still waiting at that moment, and to no other. */
  lemma RejectionReachesAll(cfg: Config, steps: seq<Step>, f: Frame)
    requires Run(cfg, steps).Some? && Enabled(cfg, Run(cfg, steps).value, OfReader(TopFrame(f)))
    requires f.error && (f.id == [] || f.id == [110, 117, 108, 108])
    ensures var s := Run(cfg, steps).value; var t := Apply(cfg, s, OfReader(TopFrame(f)));
            t.pending == map[] && forall n: nat :: n in t.failing <==> Print(n) in s.pending
  {
    RunKeeps(cfg, steps);
    NullIsNobodys(cfg, Run(cfg, steps).value, f);
  }

  /** What a frame does, by what is in it. It answers the call whose id it bears, unless it is a request of the peer's
      to the stdio client. An error without an id is owed to all who wait. Every other frame, an error under a foreign
      id among them, changes nothing. */
  lemma FrameDecides(cfg: Config, steps: seq<Step>, f: Frame)
    requires Run(cfg, steps).Some? && Enabled(cfg, Run(cfg, steps).value, OfReader(TopFrame(f)))
    ensures var s := Run(cfg, steps).value; var t := Apply(cfg, s, OfReader(TopFrame(f)));
            var request := cfg.stdio && f.hasMethod && !f.error && !f.result;
            if f.id != [] && f.id in s.pending && !request then
              && t.inFlight == Some((s.pending[f.id], Response(f))) && f.id == Print(s.pending[f.id])
              && t == s.(pending := s.pending - {f.id}, inFlight := t.inFlight)
            else if f.error && (f.id == [] || f.id == [110, 117, 108, 108]) then
              && (forall n: nat :: n in t.failing <==> Print(n) in s.pending)
              && t == s.(pending := map[], failing := t.failing)
            else t == s
  {
    RunKeeps(cfg, steps);
    NullBytes();
    if f.id == [] || f.id == [110, 117, 108, 108] { NullIsNobodys(cfg, Run(cfg, steps).value, f); }
  }

  /** An entry of an array does no more than answer the call whose id it bears. */
  lemma EntryDecides(cfg: Config, steps: seq<Step>, f: Frame)
    requires Run(cfg, steps).Some? && Enabled(cfg, Run(cfg, steps).value, OfReader(BatchEntry(f)))
    ensures var s := Run(cfg, steps).value; var t := Apply(cfg, s, OfReader(BatchEntry(f)));
            if f.id != [] && f.id in s.pending then
              && t.inFlight == Some((s.pending[f.id], Response(f))) && f.id == Print(s.pending[f.id])
              && t == s.(pending := s.pending - {f.id}, inFlight := t.inFlight, batchLeft := s.batchLeft - 1)
            else t == s.(batchLeft := s.batchLeft - 1)
  {
    RunOneToOne(cfg, steps);
  }

  lemma RunTwo(cfg: Config, steps: seq<Step>, a: Step, b: Step)
    requires Run(cfg, steps).Some? && Enabled(cfg, Run(cfg, steps).value, a)
    requires Enabled(cfg, Apply(cfg, Run(cfg, steps).value, a), b)
    ensures Run(cfg, steps + [a, b]) == Some(Apply(cfg, Apply(cfg, Run(cfg, steps).value, a), b))
  {
    var one, two := steps + [a], steps + [a, b];
    assert one[..|one| - 1] == steps;
    assert two[..|two| - 1] == one;
  }

  // ---- array frames ----

  predicate DistinctIds(fs: seq<Frame>) {
    forall i, j :: 0 <= i < j < |fs| ==> fs[i].id != fs[j].id
  }

  predicate AllPending(fs: seq<Frame>, pending: map<bytes, nat>) {
    forall i :: 0 <= i < |fs| ==> fs[i].id != [] && fs[i].id in pending
  }

  function IdsOf(fs: seq<Frame>): set<bytes> {
    set i | 0 <= i < |fs| :: fs[i].id
  }

  lemma IdsOfMore(fs: seq<Frame>, f: Frame)
    ensures IdsOf(fs + [f]) == IdsOf(fs) + {f.id}
  {
    var all := fs + [f];
    assert all[|fs|] == f;
    forall id | id in IdsOf(fs) ensures id in IdsOf(all) {
      var i :| 0 <= i < |fs| && fs[i].id == id;
      assert all[i].id == id;
    }
  }

  lemma {:induction false} IdsOfSize(fs: seq<Frame>)
    requires DistinctIds(fs)
    ensures |IdsOf(fs)| == |fs|
    decreases |fs|
  {
    if fs != [] {
      var k := |fs| - 1;
      IdsOfSize(fs[..k]);
      IdsOfMore(fs[..k], fs[k]);
      assert fs[..k] + [fs[k]] == fs;
    }
  }

  /** The read loop goes through the entries of an array, delivering one after the other. */
  function Deliveries(fs: seq<Frame>): seq<Step>
    decreases |fs|
  {
    if fs == [] then []
    else Deliveries(fs[..|fs| - 1]) + [OfReader(BatchEntry(fs[|fs| - 1])), OfReader(SendInFlight)]
  }

  /** The entries fs of an array that found the map as in s have been delivered. */
  ghost predicate Delivered(s: State, fs: seq<Frame>, t: State) {
    && t.inFlight == None && t.failing == {} && t.batchLeft == |s.pending| - |fs|
    && t.pending == s.pending - IdsOf(fs)
    && forall i :: 0 <= i < |fs| ==>
      fs[i].id in s.pending && s.pending[fs[i].id] in t.buffer && t.buffer[s.pending[fs[i].id]] == Response(fs[i])
  }

  /** The window, as many entries as there were calls pending, has room for one entry more. */
  lemma WindowHolds(pending: map<bytes, nat>, fs: seq<Frame>)
    requires DistinctIds(fs) && AllPending(fs, pending)
    ensures |fs| <= |pending|
  {
    IdsOfSize(fs);
    assert IdsOf(fs) <= pending.Keys;
    Sets.SubsetSize(IdsOf(fs), pending.Keys);
  }

  /** No two ids have the same channel. */
  ghost predicate OneToOne(pending: map<bytes, nat>) {
    forall k :: k in pending ==> k == Print(pending[k])
  }

  lemma DeliverOne(cfg: Config, s: State, fs: seq<Frame>, f: Frame, t: State)
    requires Delivered(s, fs, t) && OneToOne(s.pending) && f.id != [] && f.id in t.pending && |fs| < |s.pending|
    ensures var u := ApplyReader(cfg, t, BatchEntry(f));
            u.inFlight.Some? && Delivered(s, fs + [f], ApplyReader(cfg, u, SendInFlight))
  {
    var all := fs + [f];
    IdsOfMore(fs, f);
    forall i | 0 <= i < |fs| ensures s.pending[fs[i].id] != s.pending[f.id] { assert fs[i].id in IdsOf(fs); }
  }

  lemma DeliverNext(cfg: Config, before: seq<Step>, s: State, fs: seq<Frame>, f: Frame)
    requires Run(cfg, before).Some? && Delivered(s, fs, Run(cfg, before).value) && OneToOne(s.pending)
    requires f.id != [] && f.id in s.pending && f.id !in IdsOf(fs) && |fs| < |s.pending|
    ensures var t := Run(cfg, before + [OfReader(BatchEntry(f)), OfReader(SendInFlight)]);
            t.Some? && Delivered(s, fs + [f], t.value)
  {
    DeliverOne(cfg, s, fs, f, Run(cfg, before).value);
    RunTwo(cfg, before, OfReader(BatchEntry(f)), OfReader(SendInFlight));
  }

  lemma LastIsNew(front: seq<Frame>, f: Frame, pending: map<bytes, nat>)
    requires DistinctIds(front + [f]) && AllPending(front + [f], pending)
    ensures DistinctIds(front) && AllPending(front, pending)
    ensures f.id !in IdsOf(front) && f.id != [] && f.id in pending && |front| < |pending|
  {
    var fs := front + [f];
    assert fs[|front|] == f;
    assert forall i :: 0 <= i < |front| ==> fs[i] == front[i];
    WindowHolds(pending, fs);
  }

  lemma {:induction false} RunDelivers(cfg: Config, steps: seq<Step>, s: State, fs: seq<Frame>)
    requires Run(cfg, steps).Some? && Delivered(s, [], Run(cfg, steps).value) && OneToOne(s.pending)
    requires DistinctIds(fs) && AllPending(fs, s.pending)
    ensures var t := Run(cfg, steps + Deliveries(fs)); t.Some? && Delivered(s, fs, t.value)
    decreases |fs|
  {
    if fs == [] {
      assert steps + Deliveries([]) == steps;
    } else {
      var front, f := fs[..|fs| - 1], fs[|fs| - 1];
      assert front + [f] == fs;
      LastIsNew(front, f, s.pending);
      RunDelivers(cfg, steps, s, front);
      DeliverNext(cfg, steps + Deliveries(front), s, front, f);
      StepsAssoc(steps, Deliveries(front), [OfReader(BatchEntry(f)), OfReader(SendInFlight)]);
    }
  }

  lemma StepsAssoc(a: seq<Step>, b: seq<Step>, c: seq<Step>)
    ensures (a + b) + c == a + (b + c)
  {
  }

  lemma ArrayBegins(cfg: Config, steps: seq<Step>)
    requires Run(cfg, steps).Some? && Enabled(cfg, Run(cfg, steps).value, OfReader(BatchFrame))
    ensures var t := Run(cfg, steps + [OfReader(BatchFrame)]); t.Some? && Delivered(Run(cfg, steps).value, [], t.value)
  {
    var s, begun := Run(cfg, steps).value, steps + [OfReader(BatchFrame)];
    assert begun[..|begun| - 1] == steps;
    assert s.pending - IdsOf([]) == s.pending;
  }

  lemma RunOneToOne(cfg: Config, steps: seq<Step>)
    requires Run(cfg, steps).Some?
    ensures OneToOne(Run(cfg, steps).value.pending)
  {
    RunKeeps(cfg, steps);
  }

  /** An array frame whose entries bear distinct pending ids is delivered whole, each entry to its own channel: the
      limit on how many entries are looked at, the number of calls pending when the frame came, never cuts it short. */
  lemma ArrayReachesItsChannels(cfg: Config, steps: seq<Step>, fs: seq<Frame>)
    requires Run(cfg, steps).Some? && Enabled(cfg, Run(cfg, steps).value, OfReader(BatchFrame))
    requires DistinctIds(fs) && AllPending(fs, Run(cfg, steps).value.pending)
    ensures var s, t := Run(cfg, steps).value, Run(cfg, steps + [OfReader(BatchFrame)] + Deliveries(fs));
            && |fs| <= |s.pending| && t.Some? && t.value.pending == s.pending - IdsOf(fs)
            && forall i :: 0 <= i < |fs| ==>
              s.pending[fs[i].id] in t.value.buffer && t.value.buffer[s.pending[fs[i].id]] == Response(fs[i])
  {
    var s := Run(cfg, steps).value;
    ArrayBegins(cfg, steps);
    RunOneToOne(cfg, steps);
    WindowHolds(s.pending, fs);
    RunDelivers(cfg, steps + [OfReader(BatchFrame)], s, fs);
  }
}
