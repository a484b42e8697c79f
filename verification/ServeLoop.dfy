/** jsonrpcstdio/serve.go, Serve: the read loop, its dispatch goroutines, pushes, cancellation and the
    single exit, as a transition system whose steps interleave in any order. */
module ServeLoop {
  import opened Wrappers
  import opened Bytes
  import Sets

  /** maxCalls is s.maxCalls; framable says which messages the framing can carry. */
  datatype Config = Config(maxCalls: nat, framable: bytes -> bool)

  /** What HandleRPCJSONRawMessage gave back for one frame. */
  datatype Handled = Quiet | Reply(msg: bytes) | Panicked

  /** One dispatched frame: running the dispatcher, about to write, done but still holding its slot,
      slot released, and gone from the WaitGroup. */
  datatype Phase = Handling | Writing(msg: bytes) | Finished | Freed | Over

  datatype Result = NilResult | ConnError | CtxError | ReadError

  /** Where the goroutine of Serve is. */
  datatype Loop =
    | Top
    | Reading
    | Holding(id: nat)   // a frame was read, no slot yet
    | Inline(id: nat)    // dispatching on this goroutine
    | Draining           // in wg.Wait
    | Latching
    | Deciding
    | Returned(result: Result)

  datatype Sent = Answer(id: nat, msg: bytes) | Pushed(msg: bytes)

  /** ctxDone and connDone: the caller's context and the connection's are cancelled; connErr: fail recorded an error;
      readErr and eofClean: how reading ended; dropped: a frame was read and given up; closed: the writer is latched. */
  datatype Flags = Flags(ctxDone: bool, connDone: bool, connErr: bool, readErr: bool, eofClean: bool, dropped: bool,
                         closed: bool)

  datatype State = State(
    flags: Flags, loop: Loop, framesRead: nat,
    tasks: map<nat, Phase>, slots: set<nat>, outcome: map<nat, Handled>, wire: seq<Sent>)

  const INIT: State :=
    State(Flags(false, false, false, false, false, false, false), Top, 0, map[], {}, map[], [])

  // ---- steps ----

  /** Where the environment has a choice, the step carries it: what a handler returns, whether a write breaks. */
  datatype Step =
    | CtxCancel
    | Propagate
    | CheckTop
    | ReadFrame
    | ReadFail
    | ReadEof
    | Acquire
    | GiveUp
    | Handle(id: nat, h: Handled)
    | WriteAnswer(id: nat, breaks: bool)
    | Release(id: nat)
    | WgDone(id: nat)
    | InlineReturn
    | Push(msg: bytes, breaks: bool)
    | Drained
    | Latch
    | Decide

  predicate InPhase(s: State, id: nat, p: Phase) {
    id in s.tasks && s.tasks[id] == p
  }

  predicate Enabled(c: Config, s: State, step: Step) {
    match step
    case CtxCancel => !s.flags.ctxDone
    case Propagate => s.flags.ctxDone && !s.flags.connDone
    case CheckTop => s.loop == Top
    case ReadFrame => s.loop == Reading
    case ReadFail => s.loop == Reading
    case ReadEof => s.loop == Reading
    case Acquire => s.loop.Holding? && |s.slots| < c.maxCalls
    case GiveUp => s.loop.Holding? && s.flags.connDone
    case Handle(id, h) => InPhase(s, id, Handling)
    case WriteAnswer(id, breaks) => id in s.tasks && s.tasks[id].Writing?
    case Release(id) => InPhase(s, id, Finished) && !s.loop.Inline?
    case WgDone(id) => InPhase(s, id, Freed)
    case InlineReturn => s.loop.Inline? && InPhase(s, s.loop.id, Finished)
    case Push(msg, breaks) => true
    case Drained => s.loop == Draining && forall id :: id in s.tasks ==> s.tasks[id] == Over
    case Latch => s.loop == Latching
    case Decide => s.loop == Deciding
  }

  /** The loop is left: the deferred exit up to wg.Wait. Only a clean end of the stream does not cancel the
      connection. */
  function Exit(s: State, flags: Flags): State {
    s.(loop := Draining, flags := flags.(connDone := flags.connDone || !flags.eofClean))
  }

  /** fail: the first error is recorded and the connection context cancelled. */
  function Fail(flags: Flags): Flags {
    flags.(connErr := true, connDone := true)
  }

  /** connWriter.write, atomic under its mutex; a write that breaks latches the writer. */
  function Write(c: Config, s: State, entry: Sent, breaks: bool): State {
    if s.flags.closed || !c.framable(entry.msg) then s
    else if breaks then s.(flags := Fail(s.flags).(closed := true))
    else s.(wire := s.wire + [entry])
  }

  /** The precedence of the deferred exit. */
  function Pick(flags: Flags): Result {
    if flags.connErr then ConnError
    else if flags.eofClean then NilResult
    else if flags.ctxDone then CtxError
    else if flags.readErr then ReadError
    else NilResult
  }

  function Read(c: Config, s: State): State {
    var id := s.framesRead;
    if c.maxCalls == 1 then s.(framesRead := id + 1, loop := Inline(id), tasks := s.tasks[id := Handling])
    else s.(framesRead := id + 1, loop := Holding(id))
  }

  function TakeSlot(s: State): State
    requires s.loop.Holding?
  {
    s.(loop := Top, slots := s.slots + {s.loop.id}, tasks := s.tasks[s.loop.id := Handling])
  }

  /** A panic is recorded as the error of the connection and cancels it. */
  function Answered(s: State, id: nat, h: Handled): State {
    s.(outcome := s.outcome[id := h], tasks := s.tasks[id := if h.Reply? then Writing(h.msg) else Finished],
       flags := if h.Panicked? then Fail(s.flags) else s.flags)
  }

  function SendAnswer(c: Config, s: State, id: nat, msg: bytes, breaks: bool): State {
    Write(c, s.(tasks := s.tasks[id := Finished]), Answer(id, msg), breaks)
  }

  function GiveSlotBack(s: State, id: nat): State {
    s.(slots := s.slots - {id}, tasks := s.tasks[id := Freed])
  }

  function LeaveGroup(s: State, id: nat): State {
    s.(tasks := s.tasks[id := Over])
  }

  /** Inline dispatch is over; a panic unwinds into the deferred exit. */
  function BackInline(s: State): State
    requires s.loop.Inline?
  {
    var t := LeaveGroup(s, s.loop.id);
    if s.loop.id in s.outcome && s.outcome[s.loop.id].Panicked? then Exit(t, t.flags) else t.(loop := Top)
  }

  /** Steps of a dispatch and pushes, which do not move the loop. */
  predicate Beside(step: Step) {
    step.Handle? || step.WriteAnswer? || step.Release? || step.WgDone? || step.Push?
  }

  function ApplyBeside(c: Config, s: State, step: Step): State
    requires Enabled(c, s, step) && Beside(step)
  {
    match step
    case Handle(id, h) => Answered(s, id, h)
    case WriteAnswer(id, breaks) => SendAnswer(c, s, id, s.tasks[id].msg, breaks)
    case Release(id) => GiveSlotBack(s, id)
    case WgDone(id) => LeaveGroup(s, id)
    case Push(msg, breaks) => Write(c, s, Pushed(msg), breaks)
  }

  /** Cancellation, and what follows once the loop has been left. */
  predicate AfterStop(step: Step) {
    step.CtxCancel? || step.Propagate? || step.Drained? || step.Latch? || step.Decide?
  }

  function ApplyAfterStop(c: Config, s: State, step: Step): State
    requires AfterStop(step)
  {
    match step
    case CtxCancel => s.(flags := s.flags.(ctxDone := true))
    case Propagate => s.(flags := s.flags.(connDone := true))
    case Drained => s.(loop := Latching)
    case Latch => s.(flags := s.flags.(closed := true), loop := Deciding)
    case Decide => s.(loop := Returned(Pick(s.flags)))
  }

  /** A step of the read loop. */
  function ApplyLoop(c: Config, s: State, step: Step): State
    requires Enabled(c, s, step) && !Beside(step) && !AfterStop(step)
  {
    match step
    case CheckTop => if s.flags.connDone then Exit(s, s.flags) else s.(loop := Reading)
    case ReadFrame => Read(c, s)
    case ReadFail => Exit(s, s.flags.(readErr := true))
    case ReadEof => Exit(s, s.flags.(eofClean := !s.flags.ctxDone))
    case Acquire => TakeSlot(s)
    case GiveUp => Exit(s, s.flags.(dropped := true))
    case InlineReturn => BackInline(s)
  }

  function Apply(c: Config, s: State, step: Step): State
    requires Enabled(c, s, step)
  {
    if Beside(step) then ApplyBeside(c, s, step)
    else if AfterStop(step) then ApplyAfterStop(c, s, step)
    else ApplyLoop(c, s, step)
  }

  /** Every interleaving: the state after a list of steps, None when one of them was not enabled. */
  ghost function Run(c: Config, steps: seq<Step>): Option<State>
    decreases |steps|
  {
    if steps == [] then Some(INIT)
    else
      var before := Run(c, steps[..|steps| - 1]);
      var step := steps[|steps| - 1];
      if before.Some? && Enabled(c, before.value, step) then Some(Apply(c, before.value, step)) else None
  }

  // ---- the invariant ----

  predicate Exiting(l: Loop) {
    l == Draining || l == Latching || l == Deciding || l.Returned?
  }

  /** The loop has passed wg.Wait. */
  predicate Waited(l: Loop) {
    l == Latching || l == Deciding || l.Returned?
  }

  predicate Holds(p: Phase) {
    p == Handling || p.Writing? || p == Finished
  }

  /** Why the loop stopped, and what may have cancelled the connection. */
  predicate Control(s: State) {
    && (s.flags.connErr ==> s.flags.connDone)
    && (s.flags.connDone ==> s.flags.ctxDone || s.flags.connErr || (Exiting(s.loop) && !s.flags.eofClean))
    && (Exiting(s.loop) ==> s.flags.eofClean || s.flags.readErr || s.flags.ctxDone || s.flags.connErr)
    && (Exiting(s.loop) && !s.flags.eofClean ==> s.flags.connDone)
    && (s.flags.eofClean ==> Exiting(s.loop))
    && (s.flags.closed ==> s.flags.connErr || s.loop == Deciding || s.loop.Returned?)
    && (s.loop == Deciding || s.loop.Returned? ==> s.flags.closed)
    && (s.flags.dropped ==> Exiting(s.loop) && !s.flags.eofClean)
  }

  /** Which frames are where. */
  ghost predicate Tasks(c: Config, s: State) {
    && (forall id :: id in s.tasks ==> id < s.framesRead)
    && (forall id :: 0 <= id < s.framesRead && id !in s.tasks ==>
          id + 1 == s.framesRead && (s.loop == Holding(id) || s.flags.dropped))
    && (s.loop.Holding? ==> s.loop.id + 1 == s.framesRead && s.loop.id !in s.tasks && c.maxCalls != 1)
    && (s.loop.Inline? ==>
          c.maxCalls == 1 && s.loop.id + 1 == s.framesRead && s.loop.id in s.tasks && Holds(s.tasks[s.loop.id]))
    && (Waited(s.loop) ==> forall id :: id in s.tasks ==> s.tasks[id] == Over)
    && |s.slots| <= c.maxCalls
    && (forall id :: id in s.tasks && Holds(s.tasks[id]) ==>
          if c.maxCalls == 1 then s.loop == Inline(id) else id in s.slots)
    && (forall id :: id in s.slots ==> c.maxCalls != 1 && id in s.tasks && Holds(s.tasks[id]))
    && (c.maxCalls == 1 ==> forall id :: id in s.tasks ==> s.tasks[id] != Freed)
  }

  /** What the handlers returned. */
  ghost predicate Outcomes(s: State) {
    && (forall id :: id in s.outcome <==> id in s.tasks && s.tasks[id] != Handling)
    && (forall id :: id in s.tasks && s.tasks[id].Writing? ==> s.outcome[id] == Reply(s.tasks[id].msg))
    && (forall id :: id in s.outcome && s.outcome[id] == Panicked ==> s.flags.connErr)
  }

  /** What is on the wire. */
  ghost predicate Wire(c: Config, s: State)
  {
    && (forall i :: 0 <= i < |s.wire| && s.wire[i].Answer? ==>
          && c.framable(s.wire[i].msg)
          && s.wire[i].id in s.outcome && s.outcome[s.wire[i].id] == Reply(s.wire[i].msg)
          && s.wire[i].id in s.tasks && !s.tasks[s.wire[i].id].Writing?)
    && (forall i, j :: 0 <= i < j < |s.wire| && s.wire[i].Answer? && s.wire[j].Answer? ==>
          s.wire[i].id != s.wire[j].id && (c.maxCalls == 1 ==> s.wire[i].id < s.wire[j].id))
    && (!s.flags.connErr ==> forall id :: Owed(c, s, id) ==> Answer(id, s.outcome[id].msg) in s.wire)
  }

  /** The frame's dispatch ended with a response the framing can carry. */
  predicate Owed(c: Config, s: State, id: nat) {
    && id in s.outcome && s.outcome[id].Reply? && c.framable(s.outcome[id].msg)
    && id in s.tasks && !s.tasks[id].Writing?
  }

  /** The result that was picked, kept apart from what the context does afterwards. */
  predicate Picked(s: State) {
    s.loop.Returned? ==>
      && (s.loop.result == ConnError <==> s.flags.connErr)
      && (s.loop.result == NilResult <==> s.flags.eofClean && !s.flags.connErr)
      && (s.loop.result == CtxError ==> s.flags.ctxDone)
      && (s.loop.result == ReadError ==> s.flags.readErr)
  }

  ghost predicate Inv(c: Config, s: State) {
    c.maxCalls >= 1 && Control(s) && Tasks(c, s) && Outcomes(s) && Wire(c, s) && Picked(s)
  }

  /** The invariant, put together from its parts. */
  lemma InvOf(c: Config, s: State)
    requires c.maxCalls >= 1 && Control(s) && Tasks(c, s) && Outcomes(s) && Wire(c, s) && Picked(s)
    ensures Inv(c, s)
  {
  }

  /** A write, of an answer or a push, as far as the control state is concerned. */
  lemma WriteControl(c: Config, s: State, entry: Sent, breaks: bool)
    requires Control(s) && Picked(s)
    ensures Control(Write(c, s, entry, breaks)) && Picked(Write(c, s, entry, breaks))
  {
  }

  /** Nothing on or owed to the wire changes when neither the wire nor a finished dispatch does. */
  lemma WireUnmoved(c: Config, s: State, t: State)
    requires Wire(c, s) && Outcomes(s)
    requires t.wire == s.wire && t.outcome == s.outcome && (s.flags.connErr ==> t.flags.connErr)
    requires forall id :: id in s.outcome ==>
               id in t.tasks && id in s.tasks && (t.tasks[id].Writing? <==> s.tasks[id].Writing?)
    ensures Wire(c, t)
  {
    assert forall id :: Owed(c, t, id) ==> Owed(c, s, id);
  }

  lemma LoopMoves(c: Config, s: State, t: State)
    requires Tasks(c, s) && Outcomes(s) && Wire(c, s)
    requires t.tasks == s.tasks && t.outcome == s.outcome && t.wire == s.wire && t.slots == s.slots
    requires t.framesRead == s.framesRead && t.flags.connErr == s.flags.connErr
    requires t.loop == s.loop || !(s.loop.Inline? || t.loop.Inline? || t.loop.Holding?)
    requires s.loop.Holding? && t.loop != s.loop ==> t.flags.dropped
    requires s.flags.dropped ==> t.flags.dropped
    requires Waited(t.loop) ==> Waited(s.loop) || forall id :: id in s.tasks ==> s.tasks[id] == Over
    ensures Tasks(c, t) && Outcomes(t) && Wire(c, t)
  {
    WireUnmoved(c, s, t);
  }

  lemma AfterStopKeeps(c: Config, s: State, step: Step)
    requires Inv(c, s) && Enabled(c, s, step) && AfterStop(step)
    ensures Inv(c, ApplyAfterStop(c, s, step))
  {
    var t := ApplyAfterStop(c, s, step);
    match step
    case CtxCancel => LoopMoves(c, s, t);
    case Propagate => LoopMoves(c, s, t);
    case Drained => LoopMoves(c, s, t);
    case Latch => LoopMoves(c, s, t);
    case Decide => LoopMoves(c, s, t);
  }

  /** The loop is left with a reason; a frame that was read is given up. */
  lemma ExitKeeps(c: Config, s: State, flags: Flags)
    requires Inv(c, s) && (s.loop == Top || s.loop == Reading || s.loop.Holding?)
    requires s.flags == flags.(readErr := s.flags.readErr, eofClean := s.flags.eofClean, dropped := s.flags.dropped)
    requires flags.eofClean || flags.readErr || flags.ctxDone || flags.connErr
    requires flags.dropped <==> s.loop.Holding?
    requires flags.dropped ==> !flags.eofClean
    ensures Inv(c, Exit(s, flags))
  {
    LoopMoves(c, s, Exit(s, flags));
  }

  /** While the loop runs no reason to leave it has been recorded. */
  lemma NotYetLeft(s: State)
    requires Control(s) && !Exiting(s.loop)
    ensures !s.flags.eofClean && !s.flags.dropped && (s.flags.connDone ==> s.flags.ctxDone || s.flags.connErr)
  {
  }

  lemma TopKeeps(c: Config, s: State)
    requires Inv(c, s) && s.loop == Top && !s.flags.connDone
    ensures Inv(c, s.(loop := Reading))
  {
    LoopMoves(c, s, s.(loop := Reading));
  }

  lemma ReadInlineTasks(c: Config, s: State, t: State)
    requires c.maxCalls == 1 && Tasks(c, s) && Outcomes(s) && s.loop == Reading && !s.flags.dropped && !t.flags.dropped
    requires t.tasks == s.tasks[s.framesRead := Handling] && t.framesRead == s.framesRead + 1
    requires t.loop == Inline(s.framesRead) && t.slots == s.slots && t.outcome == s.outcome
             && t.flags.connErr == s.flags.connErr
    ensures Tasks(c, t) && Outcomes(t)
  {
    assert s.framesRead !in s.tasks;
  }

  lemma ReadWire(c: Config, s: State, t: State)
    requires Tasks(c, s) && Outcomes(s) && Wire(c, s)
    requires t.tasks == s.tasks || t.tasks == s.tasks[s.framesRead := Handling]
    requires t.outcome == s.outcome && t.wire == s.wire && t.flags.connErr == s.flags.connErr
    ensures Wire(c, t)
  {
    assert s.framesRead !in s.outcome;
    WireUnmoved(c, s, t);
  }

  lemma ReadHeldTasks(c: Config, s: State, t: State)
    requires c.maxCalls > 1 && Tasks(c, s) && Outcomes(s) && s.loop == Reading && !s.flags.dropped && !t.flags.dropped
    requires t.tasks == s.tasks && t.framesRead == s.framesRead + 1
    requires t.loop == Holding(s.framesRead) && t.slots == s.slots && t.outcome == s.outcome
             && t.flags.connErr == s.flags.connErr
    ensures Tasks(c, t) && Outcomes(t)
  {
  }

  lemma ReadTasks(c: Config, s: State)
    requires c.maxCalls >= 1 && Tasks(c, s) && Outcomes(s) && s.loop == Reading && !s.flags.dropped
    ensures Tasks(c, Read(c, s)) && Outcomes(Read(c, s))
  {
    if c.maxCalls == 1 { ReadInlineTasks(c, s, Read(c, s)); } else { ReadHeldTasks(c, s, Read(c, s)); }
  }

  lemma ReadControl(c: Config, s: State)
    requires Control(s) && s.loop == Reading
    ensures !s.flags.dropped && Control(Read(c, s)) && Picked(Read(c, s))
  {
  }

  lemma ReadKeeps(c: Config, s: State)
    requires Inv(c, s) && s.loop == Reading
    ensures Inv(c, Read(c, s))
  {
    ReadControl(c, s);
    ReadTasks(c, s);
    ReadWire(c, s, Read(c, s));
  }

  lemma TakeSlotKeeps(c: Config, s: State)
    requires Inv(c, s) && s.loop.Holding? && |s.slots| < c.maxCalls
    ensures Inv(c, TakeSlot(s))
  {
    WireUnmoved(c, s, TakeSlot(s));
  }

  lemma AnsweredTasks(c: Config, s: State, t: State, id: nat, h: Handled)
    requires Tasks(c, s) && Outcomes(s) && InPhase(s, id, Handling) && !Waited(s.loop)
    requires t.outcome == s.outcome[id := h] && t.tasks == s.tasks[id := if h.Reply? then Writing(h.msg) else Finished]
    requires t.slots == s.slots && t.framesRead == s.framesRead && t.loop == s.loop
             && t.flags.dropped == s.flags.dropped
    requires t.flags.connErr == (s.flags.connErr || h.Panicked?)
    ensures Tasks(c, t) && Outcomes(t)
  {
  }

  lemma AnsweredWire(c: Config, s: State, t: State, id: nat, h: Handled)
    requires Outcomes(s) && Wire(c, s) && InPhase(s, id, Handling)
    requires t.outcome == s.outcome[id := h] && t.tasks == s.tasks[id := if h.Reply? then Writing(h.msg) else Finished]
    requires t.wire == s.wire && t.flags.connErr == (s.flags.connErr || h.Panicked?)
    ensures Wire(c, t)
  {
    assert id !in s.outcome;
    assert forall k :: Owed(c, t, k) ==> k != id && Owed(c, s, k);
  }

  lemma AnsweredKeeps(c: Config, s: State, id: nat, h: Handled)
    requires Inv(c, s) && InPhase(s, id, Handling)
    ensures Inv(c, Answered(s, id, h))
  {
    assert !Waited(s.loop);
    AnsweredTasks(c, s, Answered(s, id, h), id, h);
    AnsweredWire(c, s, Answered(s, id, h), id, h);
  }

  /** A finished write: the task keeps its slot. */
  lemma FinishedTasks(c: Config, s: State, t: State, id: nat)
    requires Tasks(c, s) && Outcomes(s) && id in s.tasks && s.tasks[id].Writing?
    requires t.tasks == s.tasks[id := Finished] && t.outcome == s.outcome && t.slots == s.slots
    requires t.loop == s.loop && t.framesRead == s.framesRead && t.flags.dropped == s.flags.dropped
             && (s.flags.connErr ==> t.flags.connErr)
    ensures Tasks(c, t) && Outcomes(t)
  {
  }

  lemma OthersOwed(c: Config, s: State, t: State, id: nat)
    requires id in s.tasks && t.tasks == s.tasks[id := Finished] && t.outcome == s.outcome
    ensures forall k :: k != id && Owed(c, t, k) ==> Owed(c, s, k)
  {
  }

  lemma AnswerLands(c: Config, s: State, t: State, id: nat, m: bytes)
    requires Tasks(c, s) && Outcomes(s) && Wire(c, s) && InPhase(s, id, Writing(m)) && c.framable(m)
    requires t.tasks == s.tasks[id := Finished] && t.outcome == s.outcome && t.flags.connErr == s.flags.connErr
    requires t.wire == s.wire + [Answer(id, m)]
    ensures Wire(c, t)
  {
    OthersOwed(c, s, t, id);
    assert t.wire[|s.wire|] == Answer(id, m);
    assert forall e :: e in s.wire ==> e in t.wire;
    forall i | 0 <= i < |s.wire| && s.wire[i].Answer?
      ensures s.wire[i].id != id && (c.maxCalls == 1 ==> s.wire[i].id < id)
    {
      assert s.wire[i].id in s.tasks;
    }
  }

  lemma AnswerMissing(c: Config, s: State, t: State, id: nat, m: bytes)
    requires Outcomes(s) && Wire(c, s) && InPhase(s, id, Writing(m)) && (c.framable(m) ==> t.flags.connErr)
    requires t.tasks == s.tasks[id := Finished] && t.outcome == s.outcome && (s.flags.connErr ==> t.flags.connErr)
    requires t.wire == s.wire
    ensures Wire(c, t)
  {
    OthersOwed(c, s, t, id);
  }

  lemma SendAnswerKeeps(c: Config, s: State, id: nat, breaks: bool)
    requires Inv(c, s) && id in s.tasks && s.tasks[id].Writing?
    ensures Inv(c, SendAnswer(c, s, id, s.tasks[id].msg, breaks))
  {
    var m := s.tasks[id].msg;
    var t := SendAnswer(c, s, id, m, breaks);
    FinishedTasks(c, s, t, id);
    WriteControl(c, s.(tasks := s.tasks[id := Finished]), Answer(id, m), breaks);
    assert !Waited(s.loop);
    if s.flags.closed || !c.framable(m) || breaks {
      AnswerMissing(c, s, t, id, m);
    } else {
      AnswerLands(c, s, t, id, m);
    }
    InvOf(c, t);
  }

  lemma PushWire(c: Config, s: State, t: State)
    requires Wire(c, s) && t.outcome == s.outcome && t.tasks == s.tasks && (s.flags.connErr ==> t.flags.connErr)
    requires t.wire == s.wire || (|t.wire| == |s.wire| + 1 && t.wire[..|s.wire|] == s.wire && t.wire[|s.wire|].Pushed?)
    ensures Wire(c, t)
  {
    assert forall k :: Owed(c, t, k) ==> Owed(c, s, k);
    assert forall e :: e in s.wire ==> e in t.wire;
  }

  lemma PushKeeps(c: Config, s: State, msg: bytes, breaks: bool)
    requires Inv(c, s)
    ensures Inv(c, Write(c, s, Pushed(msg), breaks))
  {
    var t := Write(c, s, Pushed(msg), breaks);
    WriteControl(c, s, Pushed(msg), breaks);
    PushWire(c, s, t);
    InvOf(c, t);
  }

  lemma GiveSlotBackKeeps(c: Config, s: State, id: nat)
    requires Inv(c, s) && InPhase(s, id, Finished) && !s.loop.Inline?
    ensures Inv(c, GiveSlotBack(s, id))
  {
    WireUnmoved(c, s, GiveSlotBack(s, id));
  }

  lemma LeaveGroupKeeps(c: Config, s: State, id: nat)
    requires Inv(c, s) && InPhase(s, id, Freed)
    ensures Inv(c, LeaveGroup(s, id))
  {
    WireUnmoved(c, s, LeaveGroup(s, id));
  }

  /** The fields a return from an inline dispatch changes, and those it does not. */
  lemma BackInlineIs(s: State)
    requires s.loop.Inline?
    ensures var t := BackInline(s);
            && t.tasks == s.tasks[s.loop.id := Over] && (t.loop == Top || t.loop == Draining)
            && t.slots == s.slots && t.framesRead == s.framesRead && t.flags.dropped == s.flags.dropped
            && t.outcome == s.outcome && t.flags.connErr == s.flags.connErr && t.wire == s.wire
  {
  }

  lemma InlineTasks(c: Config, s: State, t: State)
    requires Tasks(c, s) && s.loop.Inline? && InPhase(s, s.loop.id, Finished)
    requires t.tasks == s.tasks[s.loop.id := Over] && t.slots == s.slots && t.framesRead == s.framesRead
    requires (t.loop == Top || t.loop == Draining) && t.flags.dropped == s.flags.dropped
    ensures Tasks(c, t)
  {
  }

  lemma InlineOutcomes(s: State, t: State)
    requires Outcomes(s) && s.loop.Inline? && InPhase(s, s.loop.id, Finished)
    requires t.tasks == s.tasks[s.loop.id := Over] && t.outcome == s.outcome && t.flags.connErr == s.flags.connErr
    ensures Outcomes(t)
  {
  }

  lemma InlineControl(s: State)
    requires Control(s) && Outcomes(s) && s.loop.Inline?
    ensures Control(BackInline(s)) && Picked(BackInline(s))
  {
  }

  lemma BackInlineKeeps(c: Config, s: State)
    requires Inv(c, s) && s.loop.Inline? && InPhase(s, s.loop.id, Finished)
    ensures Inv(c, BackInline(s))
  {
    var t := BackInline(s);
    BackInlineIs(s);
    InlineTasks(c, s, t);
    InlineOutcomes(s, t);
    InlineControl(s);
    WireUnmoved(c, s, t);
    InvOf(c, t);
  }

  lemma BesideKeeps(c: Config, s: State, step: Step)
    requires Inv(c, s) && Enabled(c, s, step) && Beside(step)
    ensures Inv(c, ApplyBeside(c, s, step))
  {
    match step
    case Handle(id, h) => AnsweredKeeps(c, s, id, h);
    case WriteAnswer(id, breaks) => SendAnswerKeeps(c, s, id, breaks);
    case Release(id) => GiveSlotBackKeeps(c, s, id);
    case WgDone(id) => LeaveGroupKeeps(c, s, id);
    case Push(msg, breaks) => PushKeeps(c, s, msg, breaks);
  }

  lemma LoopKeeps(c: Config, s: State, step: Step)
    requires Inv(c, s) && Enabled(c, s, step) && !Beside(step) && !AfterStop(step)
    ensures Inv(c, ApplyLoop(c, s, step))
  {
    NotYetLeft(s);
    match step
    case CheckTop => if s.flags.connDone { ExitKeeps(c, s, s.flags); } else { TopKeeps(c, s); }
    case ReadFrame => ReadKeeps(c, s);
    case ReadFail => ExitKeeps(c, s, s.flags.(readErr := true));
    case ReadEof => ExitKeeps(c, s, s.flags.(eofClean := !s.flags.ctxDone));
    case Acquire => TakeSlotKeeps(c, s);
    case GiveUp => ExitKeeps(c, s, s.flags.(dropped := true));
    case InlineReturn => BackInlineKeeps(c, s);
  }

  lemma StepKeeps(c: Config, s: State, step: Step)
    requires Inv(c, s) && Enabled(c, s, step)
    ensures Inv(c, Apply(c, s, step))
  {
    if Beside(step) {
      BesideKeeps(c, s, step);
    } else if AfterStop(step) {
      AfterStopKeeps(c, s, step);
    } else {
      LoopKeeps(c, s, step);
    }
  }

  lemma {:induction false} RunKeeps(c: Config, steps: seq<Step>)
    requires c.maxCalls >= 1 && Run(c, steps).Some?
    ensures Inv(c, Run(c, steps).value)
    decreases |steps|
  {
    if steps != [] {
      RunKeeps(c, steps[..|steps| - 1]);
      StepKeeps(c, Run(c, steps[..|steps| - 1]).value, steps[|steps| - 1]);
    }
  }

  // ---- main results, over every run ----

  /** The dispatches running at this moment. */
  ghost function Running(s: State): set<nat> {
    set id | id in s.tasks && (s.tasks[id] == Handling || s.tasks[id].Writing?)
  }

  /** Never more than maxCalls dispatches run at once. */
  lemma BoundedConcurrency(c: Config, steps: seq<Step>)
    requires c.maxCalls >= 1 && Run(c, steps).Some?
    ensures |Running(Run(c, steps).value)| <= c.maxCalls
  {
    RunKeeps(c, steps);
    var s := Run(c, steps).value;
    if c.maxCalls == 1 {
      var only := if s.loop.Inline? then {s.loop.id} else {};
      assert Running(s) <= only;
      Sets.SubsetSize(Running(s), only);
    } else {
      Sets.SubsetSize(Running(s), s.slots);
    }
  }

  /** Serve returns only with every dispatch finished and the writer latched, whatever made it stop. */
  lemma ReturnsDrainedAndLatched(c: Config, steps: seq<Step>)
    requires c.maxCalls >= 1 && Run(c, steps).Some? && Run(c, steps).value.loop.Returned?
    ensures Running(Run(c, steps).value) == {} && Run(c, steps).value.flags.closed
  {
    RunKeeps(c, steps);
  }

  // ---- the result, in terms of what happened ----

  /** One of the first n steps read the end of the stream, and the context was not cancelled before it. */
  ghost predicate CleanEof(steps: seq<Step>, n: nat)
    requires n <= |steps|
  {
    exists i :: 0 <= i < n && steps[i] == ReadEof && CtxCancel !in steps[..i]
  }

  /** The step makes the connection fail: a panic, or a write of something framable to an open writer that breaks. */
  predicate Breaks(c: Config, s: State, step: Step) {
    match step
    case Handle(_, h) => h.Panicked?
    case WriteAnswer(id, breaks) => breaks && !s.flags.closed && InWriting(s, id) && c.framable(s.tasks[id].msg)
    case Push(msg, breaks) => breaks && !s.flags.closed && c.framable(msg)
    case _ => false
  }

  predicate InWriting(s: State, id: nat) {
    id in s.tasks && s.tasks[id].Writing?
  }

  ghost predicate BreaksAt(c: Config, steps: seq<Step>, i: nat)
    requires i < |steps|
  {
    Run(c, steps[..i]).Some? && Breaks(c, Run(c, steps[..i]).value, steps[i])
  }

  /** One of the first n steps made the connection fail. */
  ghost predicate Broke(c: Config, steps: seq<Step>, n: nat)
    requires n <= |steps|
  {
    exists i :: 0 <= i < n && BreaksAt(c, steps, i)
  }

  /** What stays the same while the loop does not move. */
  predicate SameLoop(s: State, t: State) {
    && t.loop == s.loop && t.framesRead == s.framesRead && t.flags.ctxDone == s.flags.ctxDone
    && t.flags.eofClean == s.flags.eofClean
    && (s.flags.connDone ==> t.flags.connDone)
  }

  lemma WriteBeside(c: Config, s: State, entry: Sent, breaks: bool)
    ensures var t := Write(c, s, entry, breaks); SameLoop(s, t) && t.tasks == s.tasks
  {
  }

  lemma BesideSame(c: Config, s: State, step: Step)
    requires Enabled(c, s, step) && Beside(step)
    ensures SameLoop(s, ApplyBeside(c, s, step))
  {
    match step
    case WriteAnswer(id, breaks) =>
      WriteBeside(c, s.(tasks := s.tasks[id := Finished]), Answer(id, s.tasks[id].msg), breaks);
    case Push(msg, breaks) => WriteBeside(c, s, Pushed(msg), breaks);
    case _ =>
  }

  lemma LoopFlags(c: Config, s: State, step: Step)
    requires Control(s) && Enabled(c, s, step) && !Beside(step) && !AfterStop(step)
    ensures ApplyLoop(c, s, step).flags.ctxDone == s.flags.ctxDone
    ensures ApplyLoop(c, s, step).flags.eofClean <==> s.flags.eofClean || (step.ReadEof? && !s.flags.ctxDone)
  {
  }

  lemma AfterStopFlags(c: Config, s: State, step: Step)
    requires AfterStop(step)
    ensures ApplyAfterStop(c, s, step).flags.ctxDone <==> s.flags.ctxDone || step.CtxCancel?
    ensures ApplyAfterStop(c, s, step).flags.eofClean == s.flags.eofClean
  {
    match step
    case CtxCancel =>
    case Propagate =>
    case Drained =>
    case Latch =>
    case Decide =>
  }

  /** What one step does to the flag of the context, and to that of the end of the stream. */
  lemma StopFlags(c: Config, s: State, step: Step)
    requires Control(s) && Enabled(c, s, step)
    ensures Apply(c, s, step).flags.ctxDone <==> s.flags.ctxDone || step.CtxCancel?
    ensures Apply(c, s, step).flags.eofClean <==> s.flags.eofClean || (step.ReadEof? && !s.flags.ctxDone)
  {
    if Beside(step) {
      BesideSame(c, s, step);
    } else if AfterStop(step) {
      AfterStopFlags(c, s, step);
    } else {
      LoopFlags(c, s, step);
    }
  }

  lemma WriteFlag(c: Config, s: State, entry: Sent, breaks: bool)
    ensures Write(c, s, entry, breaks).flags.connErr
       <==> s.flags.connErr || (breaks && !s.flags.closed && c.framable(entry.msg))
  {
  }

  lemma BesideError(c: Config, s: State, step: Step)
    requires Enabled(c, s, step) && Beside(step)
    ensures ApplyBeside(c, s, step).flags.connErr <==> s.flags.connErr || Breaks(c, s, step)
  {
    match step
    case WriteAnswer(id, breaks) =>
      WriteFlag(c, s.(tasks := s.tasks[id := Finished]), Answer(id, s.tasks[id].msg), breaks);
    case Push(msg, breaks) => WriteFlag(c, s, Pushed(msg), breaks);
    case _ =>
  }

  lemma LoopError(c: Config, s: State, step: Step)
    requires Enabled(c, s, step) && !Beside(step)
    ensures if AfterStop(step) then ApplyAfterStop(c, s, step).flags.connErr == s.flags.connErr
            else ApplyLoop(c, s, step).flags.connErr == s.flags.connErr
  {
  }

  /** What one step does to the flag of the connection. */
  lemma ErrorFlag(c: Config, s: State, step: Step)
    requires Enabled(c, s, step)
    ensures Apply(c, s, step).flags.connErr <==> s.flags.connErr || Breaks(c, s, step)
  {
    if Beside(step) { BesideError(c, s, step); } else { LoopError(c, s, step); }
  }

  /** One step more. */
  lemma HistoryStep(c: Config, steps: seq<Step>, n: nat)
    requires n < |steps|
    ensures CtxCancel in steps[..n + 1] <==> CtxCancel in steps[..n] || steps[n] == CtxCancel
    ensures CleanEof(steps, n + 1) <==> CleanEof(steps, n) || (steps[n] == ReadEof && CtxCancel !in steps[..n])
    ensures Broke(c, steps, n + 1) <==> Broke(c, steps, n) || BreaksAt(c, steps, n)
  {
    assert steps[..n + 1] == steps[..n] + [steps[n]];
  }

  /** The flags record the history. */
  lemma {:induction false} FlagsAreHistory(c: Config, steps: seq<Step>, n: nat)
    requires c.maxCalls >= 1 && n <= |steps| && Run(c, steps[..n]).Some?
    ensures var s := Run(c, steps[..n]).value;
            && (s.flags.ctxDone <==> CtxCancel in steps[..n])
            && (s.flags.eofClean <==> CleanEof(steps, n))
            && (s.flags.connErr <==> Broke(c, steps, n))
    decreases n
  {
    if n > 0 {
      assert steps[..n][..n - 1] == steps[..n - 1];
      FlagsAreHistory(c, steps, n - 1);
      RunKeeps(c, steps[..n - 1]);
      StopFlags(c, Run(c, steps[..n - 1]).value, steps[n - 1]);
      ErrorFlag(c, Run(c, steps[..n - 1]).value, steps[n - 1]);
      HistoryStep(c, steps, n - 1);
    }
  }

  /** Serve returns nil exactly when the stream ended before any cancellation, no handler panicked
      and no write broke, be it before the end of the stream or while the dispatches were waited for. */
  lemma NilMeansOrderlyShutdown(c: Config, steps: seq<Step>)
    requires c.maxCalls >= 1 && Run(c, steps).Some? && Run(c, steps).value.loop.Returned?
    ensures Run(c, steps).value.loop.result == NilResult <==> CleanEof(steps, |steps|) && !Broke(c, steps, |steps|)
  {
    RunKeeps(c, steps);
    assert steps[..|steps|] == steps;
    FlagsAreHistory(c, steps, |steps|);
  }

  /** The connection is cancelled, and with it the context of every handler, by the caller, by a failure, or on the way
      out; only an orderly end of the stream lets the handlers finish. */
  lemma CancelledWhen(c: Config, steps: seq<Step>)
    requires c.maxCalls >= 1 && Run(c, steps).Some?
    ensures var s := Run(c, steps).value; var clean := CleanEof(steps, |steps|);
            && (Exiting(s.loop) && !clean ==> s.flags.connDone)
            && (s.flags.connDone ==>
                  CtxCancel in steps || Broke(c, steps, |steps|) || (Exiting(s.loop) && !clean))
  {
    RunKeeps(c, steps);
    assert steps[..|steps|] == steps;
    FlagsAreHistory(c, steps, |steps|);
  }

  lemma {:induction false} RunPrefix(c: Config, steps: seq<Step>, n: nat)
    requires n <= |steps| && Run(c, steps).Some?
    ensures Run(c, steps[..n]).Some?
    decreases |steps|
  {
    if n < |steps| {
      var front := steps[..|steps| - 1];
      RunPrefix(c, front, n);
      assert front[..n] == steps[..n];
    } else {
      assert steps[..n] == steps;
    }
  }

  lemma ReturnedStays(c: Config, s: State, step: Step)
    requires Enabled(c, s, step) && s.loop.Returned?
    ensures Apply(c, s, step).loop == s.loop
  {
    if Beside(step) { BesideSame(c, s, step); }
  }

  /** What Serve returns, by what had happened when it decided: a failure comes first, then the orderly end of the
      stream, then the cancellation; otherwise reading had failed. */
  function Verdict(broke: bool, clean: bool, cancelled: bool): Result {
    if broke then ConnError else if clean then NilResult else if cancelled then CtxError else ReadError
  }

  lemma DecideIs(c: Config, steps: seq<Step>, d: nat)
    requires c.maxCalls >= 1 && d < |steps| && Run(c, steps[..d + 1]).Some? && steps[d] == Decide
    ensures Run(c, steps[..d + 1]).value.loop
         == Returned(Verdict(Broke(c, steps, d), CleanEof(steps, d), CtxCancel in steps[..d]))
  {
    assert steps[..d + 1][..d] == steps[..d];
    RunKeeps(c, steps[..d]);
    FlagsAreHistory(c, steps, d);
  }

  lemma {:induction false} ResultIs(c: Config, steps: seq<Step>, d: nat)
    requires c.maxCalls >= 1 && d < |steps| && Run(c, steps).Some? && steps[d] == Decide
    ensures Run(c, steps).value.loop
         == Returned(Verdict(Broke(c, steps, d), CleanEof(steps, d), CtxCancel in steps[..d]))
    decreases |steps|
  {
    var k := |steps| - 1;
    if d == k {
      assert steps[..d + 1] == steps;
      DecideIs(c, steps, d);
    } else {
      var front := steps[..k];
      ResultIs(c, front, d);
      ReturnedStays(c, Run(c, front).value, steps[k]);
      assert front[..d] == steps[..d];
      SameHistory(c, steps, k, d);
    }
  }

  /** The first d steps are the same in a longer run. */
  lemma SameHistory(c: Config, steps: seq<Step>, k: nat, d: nat)
    requires d <= k <= |steps|
    ensures Broke(c, steps[..k], d) <==> Broke(c, steps, d)
    ensures CleanEof(steps[..k], d) <==> CleanEof(steps, d)
  {
    assert forall i :: 0 <= i < d ==> steps[..k][..i] == steps[..i] && steps[..k][i] == steps[i];
    assert forall i :: 0 <= i < d ==> (BreaksAt(c, steps[..k], i) <==> BreaksAt(c, steps, i));
  }

  /** The step closes the writer: the latch on the way out, or a write that breaks. */
  ghost predicate Closes(c: Config, s: State, step: Step) {
    step == Latch || (Breaks(c, s, step) && !step.Handle?)
  }

  ghost predicate Closed(c: Config, steps: seq<Step>)
    decreases |steps|
  {
    steps != [] &&
    (Closed(c, steps[..|steps| - 1])
     || (Run(c, steps[..|steps| - 1]).Some?
         && Closes(c, Run(c, steps[..|steps| - 1]).value, steps[|steps| - 1])))
  }

  /** What a step puts on the wire of an open writer: the answer a handler gave, or a push, if the framing can carry it
      and the write does not break. */
  function Puts(c: Config, s: State, step: Step): seq<Sent> {
    match step
    case WriteAnswer(id, breaks) =>
      if !breaks && InWriting(s, id) && c.framable(s.tasks[id].msg) then [Answer(id, s.tasks[id].msg)] else []
    case Push(msg, breaks) => if !breaks && c.framable(msg) then [Pushed(msg)] else []
    case _ => []
  }

  /** Everything put on the wire before the writer was closed, in order. */
  ghost function Log(c: Config, steps: seq<Step>): seq<Sent>
    decreases |steps|
  {
    if steps == [] then []
    else
      var front, last := steps[..|steps| - 1], steps[|steps| - 1];
      Log(c, front) + if Run(c, front).Some? && !Closed(c, front) then Puts(c, Run(c, front).value, last) else []
  }

  lemma WriteWire(c: Config, s: State, entry: Sent, breaks: bool)
    ensures var t := Write(c, s, entry, breaks);
            && t.wire == s.wire + (if !s.flags.closed && !breaks && c.framable(entry.msg) then [entry] else [])
            && (t.flags.closed <==> s.flags.closed || (breaks && c.framable(entry.msg)))
  {
  }

  lemma WireStep(c: Config, s: State, step: Step)
    requires Enabled(c, s, step)
    ensures Apply(c, s, step).wire == s.wire + if s.flags.closed then [] else Puts(c, s, step)
    ensures Apply(c, s, step).flags.closed <==> s.flags.closed || Closes(c, s, step)
  {
    match step
    case WriteAnswer(id, breaks) =>
      WriteWire(c, s.(tasks := s.tasks[id := Finished]), Answer(id, s.tasks[id].msg), breaks);
    case Push(msg, breaks) => WriteWire(c, s, Pushed(msg), breaks);
    case _ =>
  }

  /** The wire holds, in order, every framable answer and push that was written without breaking while the writer was
      open, and nothing else; the writer is closed by the latch or by the first write that breaks, for good. */
  lemma {:induction false} WireIsHistory(c: Config, steps: seq<Step>)
    requires Run(c, steps).Some?
    ensures Run(c, steps).value.wire == Log(c, steps)
    ensures Run(c, steps).value.flags.closed <==> Closed(c, steps)
    decreases |steps|
  {
    if steps != [] {
      WireIsHistory(c, steps[..|steps| - 1]);
      WireStep(c, Run(c, steps[..|steps| - 1]).value, steps[|steps| - 1]);
    }
  }

  /** How often the answer to one frame is on the wire. */
  function Count(wire: seq<Sent>, id: nat): nat {
    if wire == [] then 0
    else Count(wire[..|wire| - 1], id) + if wire[|wire| - 1].Answer? && wire[|wire| - 1].id == id then 1 else 0
  }

  lemma {:induction false} CountDistinct(wire: seq<Sent>, id: nat)
    requires forall i, j :: 0 <= i < j < |wire| && wire[i].Answer? && wire[j].Answer? ==> wire[i].id != wire[j].id
    ensures Count(wire, id) == if exists i :: 0 <= i < |wire| && wire[i].Answer? && wire[i].id == id then 1 else 0
    decreases |wire|
  {
    if wire != [] {
      var k := |wire| - 1;
      CountDistinct(wire[..k], id);
      assert forall i :: 0 <= i < k ==> wire[..k][i] == wire[i];
    }
  }

  /** After an orderly shutdown every frame read was dispatched, and its answer is on the wire exactly once
      if there was one the framing can carry, and not at all otherwise. */
  lemma NothingLostOnNil(c: Config, steps: seq<Step>, id: nat)
    requires c.maxCalls >= 1 && Run(c, steps).Some? && Run(c, steps).value.loop == Returned(NilResult)
    requires id < Run(c, steps).value.framesRead
    ensures InPhase(Run(c, steps).value, id, Over)
    ensures SettledOnce(c, Run(c, steps).value, id)
  {
    RunKeeps(c, steps);
    var s := Run(c, steps).value;
    assert s.flags.eofClean && !s.flags.connErr && !s.flags.dropped;
    assert id in s.tasks && id in s.outcome && s.outcome[id] != Panicked;
    SettledByInvariant(c, s, id);
  }

  ghost predicate SettledOnce(c: Config, s: State, id: nat) {
    && id in s.outcome && s.outcome[id] != Panicked
    && Count(s.wire, id) == if s.outcome[id].Reply? && c.framable(s.outcome[id].msg) then 1 else 0
  }

  lemma SettledByInvariant(c: Config, s: State, id: nat)
    requires Wire(c, s) && !s.flags.connErr && id in s.tasks && !s.tasks[id].Writing? && id in s.outcome
             && s.outcome[id] != Panicked
    ensures SettledOnce(c, s, id)
  {
    CountDistinct(s.wire, id);
    if s.outcome[id].Reply? && c.framable(s.outcome[id].msg) {
      assert Owed(c, s, id);
      var i :| 0 <= i < |s.wire| && s.wire[i] == Answer(id, s.outcome[id].msg);
    }
  }

  /** With the default of one call at a time the answers leave in the order of the requests. */
  lemma SequentialAnswersInOrder(steps: seq<Step>, framable: bytes -> bool, i: nat, j: nat)
    requires Run(Config(1, framable), steps).Some?
    requires var w := Run(Config(1, framable), steps).value.wire; i < j < |w| && w[i].Answer? && w[j].Answer?
    ensures var w := Run(Config(1, framable), steps).value.wire; w[i].id < w[j].id
  {
    RunKeeps(Config(1, framable), steps);
  }

  // ---- no deadlock ----

  /** Steps Serve and its dispatches take by themselves; cancellation and pushes do not count. */
  predicate Internal(step: Step) {
    !step.CtxCancel? && !step.Push?
  }

  /** Some step of its own is open to a dispatch that is not over. */
  function TaskStep(s: State, id: nat): Step
    requires id in s.tasks && s.tasks[id] != Over
  {
    match s.tasks[id]
    case Handling => Handle(id, Quiet)
    case Writing(_) => WriteAnswer(id, false)
    case Finished => if s.loop.Inline? then InlineReturn else Release(id)
    case Freed => WgDone(id)
  }

  /** Until Serve has returned, some step is always possible, whatever the interleaving so far. */
  lemma NeverStuck(c: Config, steps: seq<Step>)
    requires c.maxCalls >= 1 && Run(c, steps).Some? && !Run(c, steps).value.loop.Returned?
    ensures exists step :: Internal(step) && Enabled(c, Run(c, steps).value, step)
  {
    RunKeeps(c, steps);
    var s := Run(c, steps).value;
    var step := CheckTop;
    match s.loop {
      case Top =>
      case Reading => step := ReadEof;
      case Holding(_) =>
        if |s.slots| < c.maxCalls { step := Acquire; } else {
          var id :| id in s.slots;
          step := TaskStep(s, id);
        }
      case Inline(id) => step := TaskStep(s, id);
      case Draining =>
        if id :| id in s.tasks && s.tasks[id] != Over { step := TaskStep(s, id); } else { step := Drained; }
      case Latching => step := Latch;
      case Deciding => step := Decide;
    }
    assert Internal(step) && Enabled(c, s, step);
  }

  // ---- stopping ends ----

  /** How many steps a dispatch can still take. */
  function Due(tasks: map<nat, Phase>, id: nat): nat {
    if id !in tasks then 0
    else
      match tasks[id]
      case Handling => 4
      case Writing(_) => 3
      case Finished => 2
      case Freed => 1
      case Over => 0
  }

  function Dues(tasks: map<nat, Phase>, n: nat): nat {
    if n == 0 then 0 else Dues(tasks, n - 1) + Due(tasks, n - 1)
  }

  /** What the loop itself can still do once the connection is cancelled; a frame that is being read may still come
      to be dispatched. */
  function Stage(l: Loop): nat {
    match l
    case Reading => 10
    case Holding(_) => 9
    case Inline(_) => 4
    case Top => 4
    case Draining => 3
    case Latching => 2
    case Deciding => 1
    case Returned(_) => 0
  }

  /** The connection is cancelled, or the loop has been left. */
  predicate Stopping(s: State) {
    s.flags.connDone || Exiting(s.loop)
  }

  /** What is left to do once Serve is stopping. */
  function Left(s: State): nat {
    Dues(s.tasks, s.framesRead) + Stage(s.loop) + if s.flags.connDone then 0 else 1
  }

  lemma {:induction false} DuesBound(tasks: map<nat, Phase>, n: nat)
    ensures Dues(tasks, n) <= 4 * n
  {
    if n > 0 { DuesBound(tasks, n - 1); }
  }

  lemma {:induction false} DuesUpdate(tasks: map<nat, Phase>, id: nat, p: Phase, n: nat)
    requires id in tasks
    ensures var more := tasks[id := p];
            Dues(more, n) == Dues(tasks, n) + if id < n then Due(more, id) - Due(tasks, id) else 0
  {
    if n > 0 { DuesUpdate(tasks, id, p, n - 1); }
  }

  /** A dispatch that begins. */
  lemma {:induction false} DuesBegin(tasks: map<nat, Phase>, id: nat, n: nat)
    requires id !in tasks
    ensures Dues(tasks[id := Handling], n) == Dues(tasks, n) + if id < n then 4 else 0
  {
    if n > 0 { DuesBegin(tasks, id, n - 1); }
  }

  /** A dispatch that goes on leaves less to do. */
  lemma TaskAdvances(s: State, t: State, id: nat, p: Phase)
    requires id in s.tasks && id < s.framesRead && t.tasks == s.tasks[id := p] && Due(t.tasks, id) < Due(s.tasks, id)
    requires t.framesRead == s.framesRead && t.loop == s.loop && (s.flags.connDone ==> t.flags.connDone)
    ensures Left(t) < Left(s)
  {
    DuesUpdate(s.tasks, id, p, s.framesRead);
  }

  /** What a step of a dispatch does to it. */
  lemma DispatchMoves(c: Config, s: State, step: Step) returns (id: nat, p: Phase)
    requires Enabled(c, s, step) && Beside(step) && !step.Push?
    ensures id in s.tasks && ApplyBeside(c, s, step).tasks == s.tasks[id := p]
    ensures Due(s.tasks[id := p], id) < Due(s.tasks, id)
  {
    id := step.id;
    match step
    case Handle(_, h) => p := if h.Reply? then Writing(h.msg) else Finished;
    case WriteAnswer(_, breaks) =>
      p := Finished;
      WriteBeside(c, s.(tasks := s.tasks[id := Finished]), Answer(id, s.tasks[id].msg), breaks);
    case Release(_) => p := Freed;
    case WgDone(_) => p := Over;
  }

  /** A push changes nothing of what is left, unless it cancels the connection. */
  lemma PushLeft(c: Config, s: State, msg: bytes, breaks: bool)
    ensures Left(Write(c, s, Pushed(msg), breaks)) <= Left(s)
  {
    WriteBeside(c, s, Pushed(msg), breaks);
  }

  lemma AfterStopLeft(c: Config, s: State, step: Step)
    requires Enabled(c, s, step) && Stopping(s) && AfterStop(step)
    ensures var t := ApplyAfterStop(c, s, step);
            Stopping(t) && Left(t) + (if Internal(step) then 1 else 0) <= Left(s)
    ensures ApplyAfterStop(c, s, step).framesRead == s.framesRead
    ensures ApplyAfterStop(c, s, step).loop == Reading ==> s.loop == Reading
    ensures s.flags.connDone ==> ApplyAfterStop(c, s, step).flags.connDone
    ensures Exiting(s.loop) ==> Exiting(ApplyAfterStop(c, s, step).loop)
  {
  }

  lemma ReadLeft(c: Config, s: State)
    requires Tasks(c, s) && s.loop == Reading
    ensures Left(Read(c, s)) < Left(s)
  {
    assert s.framesRead !in s.tasks;
    DuesBegin(s.tasks, s.framesRead, s.framesRead);
  }

  lemma TakeSlotLeft(c: Config, s: State)
    requires Tasks(c, s) && s.loop.Holding?
    ensures Left(TakeSlot(s)) < Left(s)
  {
    DuesBegin(s.tasks, s.loop.id, s.framesRead);
  }

  lemma BackInlineLeft(c: Config, s: State)
    requires Tasks(c, s) && s.loop.Inline? && InPhase(s, s.loop.id, Finished)
    ensures Left(BackInline(s)) < Left(s)
  {
    DuesUpdate(s.tasks, s.loop.id, Over, s.framesRead);
  }

  /** The loop of a cancelled connection moves towards its exit, whatever comes in. */
  lemma LoopLeft(c: Config, s: State, step: Step)
    requires Tasks(c, s) && Enabled(c, s, step) && Stopping(s) && !Beside(step) && !AfterStop(step)
    ensures Stopping(ApplyLoop(c, s, step)) && Left(ApplyLoop(c, s, step)) < Left(s)
  {
    match step
    case CheckTop =>
    case ReadFrame => ReadLeft(c, s);
    case ReadFail =>
    case ReadEof =>
    case Acquire => TakeSlotLeft(c, s);
    case GiveUp =>
    case InlineReturn => BackInlineLeft(c, s);
  }

  /** Once Serve is stopping each step of its own leaves less to do, and the others leave no more. */
  lemma StoppingStep(c: Config, s: State, step: Step)
    requires Inv(c, s) && Enabled(c, s, step) && Stopping(s)
    ensures Stopping(Apply(c, s, step))
    ensures Left(Apply(c, s, step)) + (if Internal(step) then 1 else 0) <= Left(s)
  {
    if AfterStop(step) {
      AfterStopLeft(c, s, step);
    } else if !Beside(step) {
      LoopLeft(c, s, step);
    } else {
      BesideSame(c, s, step);
      if step.Push? {
        PushLeft(c, s, step.msg, step.breaks);
      } else {
        var id, p := DispatchMoves(c, s, step);
        TaskAdvances(s, ApplyBeside(c, s, step), id, p);
      }
    }
  }

  /** Serve's own steps among these. */
  function InternalSteps(steps: seq<Step>): nat
    decreases |steps|
  {
    if steps == [] then 0
    else InternalSteps(steps[..|steps| - 1]) + if Internal(steps[|steps| - 1]) then 1 else 0
  }

  /** A run and one step more. */
  lemma OneMore(steps: seq<Step>, more: seq<Step>) returns (front: seq<Step>, last: Step)
    requires more != []
    ensures front == more[..|more| - 1] && last == more[|more| - 1]
    ensures (steps + more)[..|steps + more| - 1] == steps + front && (steps + more)[|steps + more| - 1] == last
  {
    front, last := more[..|more| - 1], more[|more| - 1];
    assert (steps + more)[..|steps + more| - 1] == steps + front;
  }

  lemma {:induction false} StoppingTo(c: Config, steps: seq<Step>, more: seq<Step>)
    requires c.maxCalls >= 1 && Run(c, steps).Some? && Stopping(Run(c, steps).value)
    requires Run(c, steps + more).Some?
    ensures var t := Run(c, steps + more).value;
            Stopping(t) && InternalSteps(more) + Left(t) <= Left(Run(c, steps).value)
    decreases |more|
  {
    if more == [] {
      assert steps + more == steps;
    } else {
      var front, last := OneMore(steps, more);
      StoppingTo(c, steps, front);
      RunKeeps(c, steps + front);
      StoppingStep(c, Run(c, steps + front).value, last);
    }
  }

  lemma LeftBound(s: State)
    ensures s.flags.connDone ==> Left(s) <= 4 * s.framesRead + 10
    ensures Exiting(s.loop) ==> Left(s) <= 4 * s.framesRead + 4
  {
    DuesBound(s.tasks, s.framesRead);
  }

  /** Once the loop has stopped reading, Serve and its dispatches take at most four steps for each frame read and four
      more, in every interleaving and whatever is pushed or cancelled meanwhile; with NeverStuck, Serve returns. */
  lemma DrainEnds(c: Config, steps: seq<Step>, more: seq<Step>)
    requires c.maxCalls >= 1 && Run(c, steps).Some? && Exiting(Run(c, steps).value.loop)
    requires Run(c, steps + more).Some?
    ensures InternalSteps(more) <= 4 * Run(c, steps).value.framesRead + 4
  {
    StoppingTo(c, steps, more);
    LeftBound(Run(c, steps).value);
  }

  /** From the moment the connection is cancelled, by the caller, by a panic or by a broken write, Serve and its
      dispatches take at most four steps for each frame read and ten more, reads included. */
  lemma CancelEnds(c: Config, steps: seq<Step>, more: seq<Step>)
    requires c.maxCalls >= 1 && Run(c, steps).Some? && Run(c, steps).value.flags.connDone
    requires Run(c, steps + more).Some?
    ensures InternalSteps(more) <= 4 * Run(c, steps).value.framesRead + 10
  {
    StoppingTo(c, steps, more);
    LeftBound(Run(c, steps).value);
  }

  /** The frames read, and the one a read under way may still bring. */
  function Ahead(s: State): nat {
    s.framesRead + if s.loop == Reading then 1 else 0
  }

  lemma CancelledStep(c: Config, s: State, step: Step)
    requires Enabled(c, s, step) && s.flags.connDone
    ensures Apply(c, s, step).flags.connDone && Ahead(Apply(c, s, step)) <= Ahead(s)
  {
    if Beside(step) {
      BesideSame(c, s, step);
    } else if AfterStop(step) {
      AfterStopLeft(c, s, step);
    }
  }

  /** A cancelled connection is read no further: only a read that was under way may still bring a frame. */
  lemma {:induction false} CancelStopsReading(c: Config, steps: seq<Step>, more: seq<Step>)
    requires Run(c, steps).Some? && Run(c, steps).value.flags.connDone && Run(c, steps + more).Some?
    ensures Run(c, steps + more).value.flags.connDone
    ensures var s := Run(c, steps).value; Ahead(Run(c, steps + more).value) <= Ahead(s)
    ensures var s := Run(c, steps).value;
            Run(c, steps + more).value.framesRead <= s.framesRead + if s.loop == Reading then 1 else 0
    decreases |more|
  {
    if more == [] {
      assert steps + more == steps;
    } else {
      var front, last := OneMore(steps, more);
      CancelStopsReading(c, steps, front);
      CancelledStep(c, Run(c, steps + front).value, last);
    }
  }
}
