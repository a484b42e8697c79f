/** What the calls of one client get in the end: no waiting call is forgotten, each entry is handed the value that was
    sent to it, and a call returns for the reason that ended it (jsonrpcws/client.go, jsonrpcstdio/client.go). */
module Delivery {
  import opened Wrappers
  import opened Bytes
  import opened Decimal
  import opened Multiplexer
  import Shutdown

  // ---- no waiting call is forgotten ----

  /** Someone still looks after number n: it is in the map, a send to it is committed, or one was made, or the map has
      been cleared for good. */
  ghost predicate Placed(pending: map<bytes, nat>, sent: set<nat>, failing: set<nat>, inFlight: Option<(nat, Value)>,
                         cleared: bool, n: nat)
  {
    cleared || Print(n) in pending || n in sent || n in failing || (inFlight.Some? && inFlight.value.0 == n)
  }

  /** The call has entered its ids and has not given up. */
  predicate Expecting(p: Phase) {
    p == Sending || p.Breaking? || p == Waiting
  }

  ghost predicate AllPlaced(s: State, ids: seq<Option<nat>>) {
    forall i :: 0 <= i < |ids| && ids[i].Some? ==>
      Placed(s.pending, s.sent, s.failing, s.inFlight, s.closing.cleared, ids[i].value)
  }

  /** What was sent lies in its channel until its entry takes it. */
  ghost predicate Arrived(owner: Owners, calls: Calls, buffer: map<nat, Value>, n: nat) {
    n in buffer || (n in owner && owner[n].0 in calls && owner[n].1 < |calls[owner[n].0].got|)
  }

  ghost predicate Kept(s: State) {
    && (forall call :: call in s.calls && Expecting(s.calls[call].phase) ==> AllPlaced(s, s.calls[call].ids))
    && (forall n :: n in s.sent ==> Arrived(s.owner, s.calls, s.buffer, n))
  }

  lemma {:induction false} EnterKeeps(pending: map<bytes, nat>, ids: seq<Option<nat>>, k: bytes)
    requires k in pending || exists i :: 0 <= i < |ids| && ids[i].Some? && k == Print(ids[i].value)
    ensures k in EnterIds(pending, ids)
    decreases |ids|
  {
    if ids != [] {
      var last, front := ids[|ids| - 1], ids[..|ids| - 1];
      if last.None? || k != Print(last.value) {
        if k !in pending {
          var i :| 0 <= i < |ids| && ids[i].Some? && k == Print(ids[i].value);
          assert front[i] == ids[i];
        }
        EnterKeeps(pending, front, k);
      }
    }
  }

  /** A step that takes no number out of anyone's care. */
  ghost predicate CaresOn(s: State, t: State) {
    forall n: nat :: Placed(s.pending, s.sent, s.failing, s.inFlight, s.closing.cleared, n) ==>
      Placed(t.pending, t.sent, t.failing, t.inFlight, t.closing.cleared, n)
  }

  ghost predicate Registers(pending: map<bytes, nat>) {
    forall n: nat :: Print(n) in pending ==> pending[Print(n)] == n
  }

  lemma DeliverCares(s: State, f: Frame)
    requires Registers(s.pending) && ReaderFree(s)
    ensures CaresOn(s, Deliver(s, f))
  {
  }

  lemma FailAllCares(s: State)
    requires Registers(s.pending) && ReaderFree(s)
    ensures CaresOn(s, s.(pending := map[], failing := s.pending.Values))
  {
  }

  lemma RouteCares(cfg: Shutdown.Config, s: State, f: Frame)
    requires Inv(cfg, s) && ReaderFree(s)
    ensures CaresOn(s, Route(cfg, s, f)) && CaresOn(s, Deliver(s, f))
  {
    forall n: nat | Print(n) in s.pending ensures s.pending[Print(n)] == n { Registrant(cfg, s, n); }
    DeliverCares(s, f);
    FailAllCares(s);
  }

  lemma Registrant(cfg: Shutdown.Config, s: State, n: nat)
    requires Inv(cfg, s) && Print(n) in s.pending
    ensures s.pending[Print(n)] == n
  {
    PrintInjective(n, s.pending[Print(n)]);
  }

  lemma ReaderCares(cfg: Shutdown.Config, s: State, step: ReaderStep)
    requires Inv(cfg, s) && ReaderEnabled(cfg, s, step)
    ensures CaresOn(s, ApplyReader(cfg, s, step))
  {
    match step
    case TopFrame(f) => RouteCares(cfg, s, f);
    case BatchFrame =>
    case BatchEntry(f) => RouteCares(cfg, s, f);
    case BatchEnd =>
    case SendInFlight =>
    case SendFailing(n) =>
    case ReadEnd(who) =>
    case ReadStop =>
  }

  lemma RegisterCares(cfg: Shutdown.Config, s: State, call: nat)
    requires At(s, call, Registering)
    ensures CaresOn(s, RegisterAll(s, call)) && AllPlaced(RegisterAll(s, call), s.calls[call].ids)
  {
    var ids := s.calls[call].ids;
    forall n: nat | Print(n) in s.pending ensures Print(n) in EnterIds(s.pending, ids) {
      EnterKeeps(s.pending, ids, Print(n));
    }
    forall i | 0 <= i < |ids| && ids[i].Some? ensures Print(ids[i].value) in EnterIds(s.pending, ids) {
      EnterKeeps(s.pending, ids, Print(ids[i].value));
    }
  }

  /** What one call unregisters is not another's. */
  lemma ForgetSpares(cfg: Shutdown.Config, s: State, call: nat, other: nat)
    requires Inv(cfg, s) && call in s.calls && s.calls[call].phase.Leaving? && other in s.calls && other != call
    requires AllPlaced(s, s.calls[other].ids)
    ensures AllPlaced(Left(s, call), s.calls[other].ids)
  {
    var ids := s.calls[other].ids;
    assert OwnedIds(s.owner, call, s.calls[call].ids) && OwnedIds(s.owner, other, ids);
    forall i | 0 <= i < |ids| && ids[i].Some? && Print(ids[i].value) in s.pending
      ensures Print(ids[i].value) in Forget(s.pending, s.calls[call].ids)
    {
      PrintInjective(ids[i].value, s.pending[Print(ids[i].value)]);
    }
  }

  ghost predicate SamePlaces(s: State, t: State) {
    && t.pending == s.pending && t.sent == s.sent && t.failing == s.failing && t.inFlight == s.inFlight
    && t.closing.cleared == s.closing.cleared
  }

  lemma PlacedSame(s: State, t: State, ids: seq<Option<nat>>)
    requires SamePlaces(s, t) && AllPlaced(s, ids)
    ensures AllPlaced(t, ids)
  {
  }

  /** Only registering and unregistering touch the map, and no other step begins to expect an answer. */
  lemma CallPlaces(cfg: Shutdown.Config, s: State, call: nat, step: CallStep)
    requires CallEnabled(cfg, s, call, step) && step != Register && step != Unregister
    ensures var t := ApplyCall(cfg, s, call, step);
            && SamePlaces(s, t) && call in t.calls
            && (Expecting(t.calls[call].phase) ==>
                  call in s.calls && Expecting(s.calls[call].phase) && t.calls[call].ids == s.calls[call].ids)
  {
    match step
    case Start(_) =>
    case Draw =>
    case DrawFail =>
    case SendOk =>
    case SendFail =>
    case SendBreak(_) =>
    case Unlock =>
    case Receive =>
    case Finish =>
    case CtxDone =>
    case SeeClosed =>
  }

  lemma CallPlaced(cfg: Shutdown.Config, s: State, call: nat, step: CallStep, other: nat)
    requires Inv(cfg, s) && Kept(s) && CallEnabled(cfg, s, call, step)
    requires var t := ApplyCall(cfg, s, call, step); other in t.calls && Expecting(t.calls[other].phase)
    ensures var t := ApplyCall(cfg, s, call, step); AllPlaced(t, t.calls[other].ids)
  {
    var t := ApplyCall(cfg, s, call, step);
    OneCallChanges(cfg, s, call, step);
    if step == Register {
      RegisterCares(cfg, s, call);
    } else if step == Unregister {
      ForgetSpares(cfg, s, call, other);
    } else {
      CallPlaces(cfg, s, call, step);
      PlacedSame(s, t, t.calls[other].ids);
    }
  }

  /** What one step of a call does to the owners and to what has been received. */
  lemma CallOwners(cfg: Shutdown.Config, s: State, call: nat, step: CallStep, n: nat)
    requires CallEnabled(cfg, s, call, step) && n in s.owner && n <= s.lastId
    ensures var t := ApplyCall(cfg, s, call, step);
            && n in t.owner && t.owner[n] == s.owner[n] && t.sent == s.sent
            && call in t.calls && (call in s.calls ==> |s.calls[call].got| <= |t.calls[call].got|)
            && (step != Receive ==> t.buffer == s.buffer)
  {
    match step
    case Draw =>
    case Register =>
    case Unregister =>
    case Start(_) =>
    case DrawFail =>
    case SendOk =>
    case SendFail =>
    case SendBreak(_) =>
    case Unlock =>
    case Receive =>
    case Finish =>
    case CtxDone =>
    case SeeClosed =>
  }

  lemma ReceiveArrived(cfg: Shutdown.Config, s: State, call: nat, n: nat)
    requires Inv(cfg, s) && CallEnabled(cfg, s, call, Receive) && Arrived(s.owner, s.calls, s.buffer, n)
    ensures var t := TakeNext(s, call); Arrived(t.owner, t.calls, t.buffer, n)
  {
    assert OwnedIds(s.owner, call, s.calls[call].ids);
  }

  lemma CallArrived(cfg: Shutdown.Config, s: State, call: nat, step: CallStep, n: nat)
    requires Inv(cfg, s) && Kept(s) && CallEnabled(cfg, s, call, step) && n in s.sent
    ensures var t := ApplyCall(cfg, s, call, step); Arrived(t.owner, t.calls, t.buffer, n)
  {
    OneCallChanges(cfg, s, call, step);
    SentIsOwned(cfg, s, n);
    if step == Receive { ReceiveArrived(cfg, s, call, n); } else { CallOwners(cfg, s, call, step, n); }
  }

  lemma SentIsOwned(cfg: Shutdown.Config, s: State, n: nat)
    requires Inv(cfg, s) && Kept(s) && n in s.sent
    ensures n in s.owner && n <= s.lastId && Arrived(s.owner, s.calls, s.buffer, n)
  {
    assert Live(s.owner, s.calls, n);
  }

  lemma CallKept(cfg: Shutdown.Config, s: State, call: nat, step: CallStep)
    requires Inv(cfg, s) && Kept(s) && CallEnabled(cfg, s, call, step)
    ensures Kept(ApplyCall(cfg, s, call, step))
  {
    var t := ApplyCall(cfg, s, call, step);
    forall other | other in t.calls && Expecting(t.calls[other].phase) ensures AllPlaced(t, t.calls[other].ids) {
      CallPlaced(cfg, s, call, step, other);
    }
    assert t.sent == s.sent by { CallSends(cfg, s, call, step); }
    forall n | n in t.sent ensures Arrived(t.owner, t.calls, t.buffer, n) { CallArrived(cfg, s, call, step, n); }
  }

  lemma CallSends(cfg: Shutdown.Config, s: State, call: nat, step: CallStep)
    requires CallEnabled(cfg, s, call, step)
    ensures ApplyCall(cfg, s, call, step).sent == s.sent
  {
  }

  lemma ReaderArrived(cfg: Shutdown.Config, s: State, step: ReaderStep)
    requires ReaderEnabled(cfg, s, step)
    ensures var t := ApplyReader(cfg, s, step);
            && t.calls == s.calls && t.owner == s.owner
            && (forall n :: n in s.buffer ==> n in t.buffer)
            && (forall n :: n in t.sent ==> n in s.sent || n in t.buffer)
  {
    match step
    case TopFrame(f) =>
    case BatchFrame =>
    case BatchEntry(f) =>
    case BatchEnd =>
    case SendInFlight =>
    case SendFailing(n) =>
    case ReadEnd(who) =>
    case ReadStop =>
  }

  lemma ReaderKept(cfg: Shutdown.Config, s: State, step: ReaderStep)
    requires Inv(cfg, s) && Kept(s) && ReaderEnabled(cfg, s, step)
    ensures Kept(ApplyReader(cfg, s, step))
  {
    ReaderCares(cfg, s, step);
    ReaderArrived(cfg, s, step);
    KeptOf(s, ApplyReader(cfg, s, step));
  }

  lemma KeptOf(s: State, t: State)
    requires Kept(s) && CaresOn(s, t) && t.calls == s.calls && t.owner == s.owner
    requires forall n :: n in s.buffer ==> n in t.buffer
    requires forall n :: n in t.sent ==> n in s.sent || n in t.buffer
    ensures Kept(t)
  {
    forall n | n in t.sent ensures Arrived(s.owner, s.calls, t.buffer, n) {
      if n in s.sent { assert Arrived(s.owner, s.calls, s.buffer, n); }
    }
  }

  /** A shutdown, as far as the calls are concerned, at most clears the map. */
  lemma ClosingKept(s: State, closing: Shutdown.Closing, pending: map<bytes, nat>)
    requires Kept(s) && (s.closing.cleared ==> closing.cleared) && (pending == s.pending || closing.cleared)
    ensures Kept(s.(closing := closing, pending := pending))
  {
    KeptOf(s, s.(closing := closing, pending := pending));
  }

  lemma ActorKept(cfg: Shutdown.Config, s: State, who: nat, step: Shutdown.Step)
    requires Kept(s) && Shutdown.Enabled(s.closing, who, step)
    ensures Kept(ApplyActor(cfg, s, who, step))
  {
    var t := ApplyActor(cfg, s, who, step);
    ClosingKept(s, t.closing, t.pending);
  }

  lemma StepKept(cfg: Shutdown.Config, s: State, step: Step)
    requires Inv(cfg, s) && Kept(s) && Enabled(cfg, s, step)
    ensures Kept(Apply(cfg, s, step))
  {
    match step
    case OfCall(call, c) => CallKept(cfg, s, call, c);
    case OfReader(r) => ReaderKept(cfg, s, r);
    case Close(who) => ClosingKept(s, Shutdown.Appear(cfg, s.closing, who), s.pending);
    case OfActor(who, a) => ActorKept(cfg, s, who, a);
  }

  lemma {:induction false} RunKept(cfg: Shutdown.Config, steps: seq<Step>)
    requires Run(cfg, steps).Some?
    ensures Kept(Run(cfg, steps).value)
    decreases |steps|
  {
    if steps != [] {
      RunKept(cfg, steps[..|steps| - 1]);
      Multiplexer.RunKeeps(cfg, steps[..|steps| - 1]);
      StepKept(cfg, Run(cfg, steps[..|steps| - 1]).value, steps[|steps| - 1]);
    }
  }

  /** The entry the call waits for is in the map under its id, or a send to its channel is committed, or the value lies
      there, or the channel it watches for the end of the connection is closed. */
  predicate LookedAfter(cfg: Shutdown.Config, s: State, call: nat)
    requires Blocked(s, call)
  {
    var n := Awaited(s.calls[call]).value;
    || (Print(n) in s.pending && s.pending[Print(n)] == n)
    || (s.inFlight.Some? && s.inFlight.value.0 == n) || n in s.failing
    || Enabled(cfg, s, OfCall(call, Receive)) || Enabled(cfg, s, OfCall(call, SeeClosed))
  }

  /** No waiting call is ever forgotten. */
  lemma NobodyForgotten(cfg: Shutdown.Config, steps: seq<Step>, call: nat)
    requires Run(cfg, steps).Some? && Blocked(Run(cfg, steps).value, call)
    ensures LookedAfter(cfg, Run(cfg, steps).value, call)
  {
    RunKept(cfg, steps);
    Multiplexer.RunKeeps(cfg, steps);
    BlockedIsLookedAfter(cfg, Run(cfg, steps).value, call);
  }

  lemma BlockedIsLookedAfter(cfg: Shutdown.Config, s: State, call: nat)
    requires Inv(cfg, s) && Kept(s) && Blocked(s, call)
    ensures LookedAfter(cfg, s, call)
  {
    AwaitedIsPlaced(cfg, s, call);
  }

  lemma AwaitedArrived(owner: Owners, calls: Calls, buffer: map<nat, Value>, call: nat, n: nat)
    requires call in calls && |calls[call].got| < |calls[call].ids| && Awaited(calls[call]) == Some(n)
    requires OwnedIds(owner, call, calls[call].ids) && Arrived(owner, calls, buffer, n)
    ensures n in buffer
  {
  }

  lemma AwaitedIsPlaced(cfg: Shutdown.Config, s: State, call: nat)
    requires Inv(cfg, s) && Kept(s) && Blocked(s, call)
    ensures var n := Awaited(s.calls[call]).value;
            || (Print(n) in s.pending && s.pending[Print(n)] == n)
            || (s.inFlight.Some? && s.inFlight.value.0 == n) || n in s.failing
            || n in s.buffer || s.closing.chanClosed
  {
    var n := Awaited(s.calls[call]).value;
    assert AllPlaced(s, s.calls[call].ids);
    if Print(n) in s.pending { Registrant(cfg, s, n); }
    if n in s.sent {
      SentIsOwned(cfg, s, n);
      AwaitedArrived(s.owner, s.calls, s.buffer, call, n);
    }
  }

  // ---- each entry gets what was sent to it ----

  /** The last value sent to channel n in these steps. */
  ghost function SentTo(cfg: Shutdown.Config, steps: seq<Step>, n: nat): Option<Value>
    decreases |steps|
  {
    if steps == [] then None
    else
      var front, last := steps[..|steps| - 1], steps[|steps| - 1];
      if Run(cfg, front).None? then None
      else
        match last
        case OfReader(SendInFlight) =>
          if Run(cfg, front).value.inFlight.Some? && Run(cfg, front).value.inFlight.value.0 == n then
            Some(Run(cfg, front).value.inFlight.value.1)
          else SentTo(cfg, front, n)
        case OfReader(SendFailing(m)) => if m == n then Some(NullError) else SentTo(cfg, front, n)
        case _ => SentTo(cfg, front, n)
  }

  /** A value that lies in a channel, or was taken from it, is the one that was sent. */
  ghost predicate Genuine(cfg: Shutdown.Config, steps: seq<Step>, s: State) {
    && (forall n :: n in s.buffer ==> SentTo(cfg, steps, n) == Some(s.buffer[n]))
    && (forall call :: call in s.calls ==> GenuineCall(cfg, steps, s.calls[call]))
  }

  ghost predicate GenuineCall(cfg: Shutdown.Config, steps: seq<Step>, c: Call) {
    |c.got| <= |c.ids| &&
    forall i :: 0 <= i < |c.got| && c.ids[i].Some? ==> SentTo(cfg, steps, c.ids[i].value) == c.got[i]
  }

  /** A step that sends nothing to the channels seen so far. */
  ghost predicate Quiet(cfg: Shutdown.Config, front: seq<Step>, steps: seq<Step>, sent: set<nat>) {
    forall n :: n in sent ==> SentTo(cfg, steps, n) == SentTo(cfg, front, n)
  }

  lemma StepQuiet(cfg: Shutdown.Config, front: seq<Step>, steps: seq<Step>, step: Step)
    requires steps != [] && front == steps[..|steps| - 1] && step == steps[|steps| - 1]
    requires Run(cfg, front).Some? && Inv(cfg, Run(cfg, front).value) && Enabled(cfg, Run(cfg, front).value, step)
    ensures Quiet(cfg, front, steps, Run(cfg, front).value.sent)
  {
    var s := Run(cfg, front).value;
    if step == OfReader(SendInFlight) {
      SendIsFirst(cfg, s, s.inFlight.value.0);
    } else if step.OfReader? && step.r.SendFailing? {
      SendIsFirst(cfg, s, step.r.n);
    }
  }

  lemma SameGenuine(cfg: Shutdown.Config, front: seq<Step>, steps: seq<Step>, sent: set<nat>, c: Call)
    requires GenuineCall(cfg, front, c) && Fits(cfg, sent, c) && Quiet(cfg, front, steps, sent)
    ensures GenuineCall(cfg, steps, c)
  {
  }

  /** What a step of a call other than Receive does to what it has received. */
  lemma CallGot(cfg: Shutdown.Config, s: State, call: nat, step: CallStep)
    requires CallEnabled(cfg, s, call, step) && step != Receive
    requires call in s.calls ==> Shape(s.calls[call])
    ensures var t := ApplyCall(cfg, s, call, step);
            && call in t.calls
            && (t.calls[call].got == []
                || (call in s.calls && t.calls[call].got == s.calls[call].got
                    && t.calls[call].ids == s.calls[call].ids))
  {
    match step
    case Draw => DrawShape(s.calls[call], if s.calls[call].notify[|s.calls[call].ids|] then None else Some(0));
    case Register =>
    case Unregister =>
    case Start(_) =>
    case DrawFail =>
    case SendOk =>
    case SendFail =>
    case SendBreak(_) =>
    case Unlock =>
    case Finish =>
    case CtxDone =>
    case SeeClosed =>
  }

  lemma CallBuffer(cfg: Shutdown.Config, s: State, call: nat, step: CallStep, n: nat)
    requires CallEnabled(cfg, s, call, step) && n in ApplyCall(cfg, s, call, step).buffer
    ensures n in s.buffer && ApplyCall(cfg, s, call, step).buffer[n] == s.buffer[n]
  {
  }

  lemma ReceiveGenuine(cfg: Shutdown.Config, steps: seq<Step>, s: State, call: nat)
    requires Genuine(cfg, steps, s) && CallEnabled(cfg, s, call, Receive)
    ensures GenuineCall(cfg, steps, TakeNext(s, call).calls[call])
  {
    assert GenuineCall(cfg, steps, s.calls[call]);
  }

  lemma OtherGenuine(cfg: Shutdown.Config, steps: seq<Step>, s: State, call: nat, step: CallStep)
    requires Genuine(cfg, steps, s) && CallEnabled(cfg, s, call, step) && step != Receive
    requires call in s.calls ==> Shape(s.calls[call])
    ensures var t := ApplyCall(cfg, s, call, step); call in t.calls && GenuineCall(cfg, steps, t.calls[call])
  {
    assert call in s.calls ==> GenuineCall(cfg, steps, s.calls[call]);
    CallGot(cfg, s, call, step);
  }

  lemma CallGenuine(cfg: Shutdown.Config, front: seq<Step>, steps: seq<Step>, call: nat, step: CallStep)
    requires steps != [] && front == steps[..|steps| - 1] && OfCall(call, step) == steps[|steps| - 1]
    requires Run(cfg, front).Some? && Inv(cfg, Run(cfg, front).value)
    requires Genuine(cfg, front, Run(cfg, front).value) && CallEnabled(cfg, Run(cfg, front).value, call, step)
    ensures Genuine(cfg, steps, ApplyCall(cfg, Run(cfg, front).value, call, step))
  {
    var s := Run(cfg, front).value;
    forall n ensures SentTo(cfg, steps, n) == SentTo(cfg, front, n) {}
    SameHistory(cfg, front, steps, s);
    CallStepGenuine(cfg, steps, s, call, step);
  }

  lemma SameHistory(cfg: Shutdown.Config, front: seq<Step>, steps: seq<Step>, s: State)
    requires Genuine(cfg, front, s) && forall n :: SentTo(cfg, steps, n) == SentTo(cfg, front, n)
    ensures Genuine(cfg, steps, s)
  {
    forall call | call in s.calls ensures GenuineCall(cfg, steps, s.calls[call]) {
      assert GenuineCall(cfg, front, s.calls[call]);
    }
  }

  lemma CallStepGenuine(cfg: Shutdown.Config, steps: seq<Step>, s: State, call: nat, step: CallStep)
    requires Inv(cfg, s) && Genuine(cfg, steps, s) && CallEnabled(cfg, s, call, step)
    ensures Genuine(cfg, steps, ApplyCall(cfg, s, call, step))
  {
    var t := ApplyCall(cfg, s, call, step);
    OneCallChanges(cfg, s, call, step);
    assert call in s.calls ==> Shape(s.calls[call]);
    if step == Receive { ReceiveGenuine(cfg, steps, s, call); } else { OtherGenuine(cfg, steps, s, call, step); }
    forall other | other in t.calls && other != call ensures GenuineCall(cfg, steps, t.calls[other]) {
      assert GenuineCall(cfg, steps, s.calls[other]);
    }
    forall n | n in t.buffer ensures SentTo(cfg, steps, n) == Some(t.buffer[n]) {
      CallBuffer(cfg, s, call, step, n);
    }
  }

  lemma ReaderGenuine(cfg: Shutdown.Config, front: seq<Step>, steps: seq<Step>, step: ReaderStep)
    requires steps != [] && front == steps[..|steps| - 1] && OfReader(step) == steps[|steps| - 1]
    requires Run(cfg, front).Some? && Inv(cfg, Run(cfg, front).value)
    requires Genuine(cfg, front, Run(cfg, front).value) && ReaderEnabled(cfg, Run(cfg, front).value, step)
    ensures Genuine(cfg, steps, ApplyReader(cfg, Run(cfg, front).value, step))
  {
    var s := Run(cfg, front).value;
    var t := ApplyReader(cfg, s, step);
    StepQuiet(cfg, front, steps, OfReader(step));
    ReaderArrived(cfg, s, step);
    forall call | call in s.calls ensures GenuineCall(cfg, steps, s.calls[call]) {
      SameGenuine(cfg, front, steps, s.sent, s.calls[call]);
    }
    forall n | n in t.buffer ensures SentTo(cfg, steps, n) == Some(t.buffer[n]) {
      ReaderBuffer(cfg, s, step, n);
    }
  }

  lemma ReaderBuffer(cfg: Shutdown.Config, s: State, step: ReaderStep, n: nat)
    requires ReaderEnabled(cfg, s, step) && n in ApplyReader(cfg, s, step).buffer
    requires Mail(cfg, s.buffer, s.sent, s.inFlight)
    ensures var v := ApplyReader(cfg, s, step).buffer[n];
            if step == SendInFlight && s.inFlight.value.0 == n then v == s.inFlight.value.1
            else if step == SendFailing(n) then v == NullError
            else n in s.buffer && v == s.buffer[n] && n in s.sent
  {
    match step
    case TopFrame(f) =>
    case BatchFrame =>
    case BatchEntry(f) =>
    case BatchEnd =>
    case SendInFlight =>
    case SendFailing(m) =>
    case ReadEnd(who) =>
    case ReadStop =>
  }

  lemma {:induction false} RunGenuine(cfg: Shutdown.Config, steps: seq<Step>)
    requires Run(cfg, steps).Some?
    ensures Genuine(cfg, steps, Run(cfg, steps).value)
    decreases |steps|
  {
    if steps != [] {
      var front := steps[..|steps| - 1];
      RunGenuine(cfg, front);
      Multiplexer.RunKeeps(cfg, front);
      match steps[|steps| - 1]
      case OfCall(call, c) => CallGenuine(cfg, front, steps, call, c);
      case OfReader(r) => ReaderGenuine(cfg, front, steps, r);
      case Close(who) => assert forall n :: SentTo(cfg, steps, n) == SentTo(cfg, front, n);
      case OfActor(who, a) => assert forall n :: SentTo(cfg, steps, n) == SentTo(cfg, front, n);
    }
  }

  /** A finished call hands over for each entry the very value that was sent to the channel of its id. */
  lemma HandsOverWhatWasSent(cfg: Shutdown.Config, steps: seq<Step>, call: nat, i: nat)
    requires Run(cfg, steps).Some? && call in Run(cfg, steps).value.calls
    requires var p := Run(cfg, steps).value.calls[call].phase; p.Done? && p.r.Responses?
    requires i < |Run(cfg, steps).value.calls[call].ids| && Run(cfg, steps).value.calls[call].ids[i].Some?
    ensures var c := Run(cfg, steps).value.calls[call];
            |c.phase.r.got| == |c.ids| && c.phase.r.got[i] == SentTo(cfg, steps, c.ids[i].value)
  {
    Multiplexer.RunKeeps(cfg, steps);
    RunGenuine(cfg, steps);
    var s := Run(cfg, steps).value;
    assert Fits(cfg, s.sent, s.calls[call]) && GenuineCall(cfg, steps, s.calls[call]);
  }

  // ---- why a call returned ----

  datatype Reason = AllIn | Cancelled | Unsent | BadParams | Shut

  function ReasonOf(r: Result): Reason {
    match r
    case Responses(_) => AllIn
    case CtxError => Cancelled
    case SendError => Unsent
    case ParamsError => BadParams
    case Closed => Shut
  }

  /** Why the call returns, once that is settled. */
  function Fate(p: Phase): Option<Reason> {
    match p
    case Done(r) => Some(ReasonOf(r))
    case Leaving(r) => Some(ReasonOf(r))
    case Breaking(_) => Some(Unsent)
    case _ => None
  }

  function FateOf(calls: Calls, call: nat): Option<Reason> {
    if call in calls then Fate(calls[call].phase) else None
  }

  /** A step that settles it; that the connection was found closed is what remains. */
  predicate Settles(step: Step, call: nat, why: Reason) {
    step.OfCall? && step.call == call &&
    match why
    case AllIn => step.c == Finish
    case Cancelled => step.c == CtxDone
    case Unsent => step.c == SendFail || step.c.SendBreak?
    case BadParams => step.c == DrawFail
    case Shut => false
  }

  ghost predicate Took(steps: seq<Step>, call: nat, why: Reason) {
    exists i :: 0 <= i < |steps| && Settles(steps[i], call, why)
  }

  lemma TookMore(steps: seq<Step>, call: nat, why: Reason)
    requires steps != []
    ensures Took(steps, call, why)
       <==> Took(steps[..|steps| - 1], call, why) || Settles(steps[|steps| - 1], call, why)
  {
    var front := steps[..|steps| - 1];
    if Took(front, call, why) {
      var i :| 0 <= i < |front| && Settles(front[i], call, why);
      assert Settles(steps[i], call, why);
    }
    if Took(steps, call, why) {
      var i :| 0 <= i < |steps| && Settles(steps[i], call, why);
      assert i < |front| ==> Settles(front[i], call, why);
    }
  }

  function FateAfter(step: CallStep, before: Option<Reason>, chanClosed: bool): Option<Reason> {
    match step
    case Start(_) => if chanClosed then Some(Shut) else None
    case DrawFail => Some(BadParams)
    case SendFail => Some(Unsent)
    case SendBreak(_) => Some(Unsent)
    case Finish => Some(AllIn)
    case CtxDone => Some(Cancelled)
    case SeeClosed => Some(Shut)
    case _ => before
  }

  /** A step settles the fate of its call only if it was not settled. */
  lemma FateGoes(cfg: Shutdown.Config, s: State, call: nat, step: CallStep)
    requires CallEnabled(cfg, s, call, step)
    ensures FateOf(ApplyCall(cfg, s, call, step).calls, call)
         == FateAfter(step, FateOf(s.calls, call), s.closing.chanClosed)
    ensures FateAfter(step, FateOf(s.calls, call), s.closing.chanClosed) == FateOf(s.calls, call)
            || FateOf(s.calls, call).None?
  {
    match step
    case Start(_) =>
    case Draw =>
    case DrawFail =>
    case Register =>
    case SendOk =>
    case SendFail =>
    case SendBreak(_) =>
    case Unlock =>
    case Receive =>
    case Finish =>
    case CtxDone =>
    case SeeClosed =>
    case Unregister =>
  }

  lemma FateMoves(cfg: Shutdown.Config, s: State, call: nat, step: CallStep, why: Reason)
    requires CallEnabled(cfg, s, call, step) && why != Shut
    ensures FateOf(ApplyCall(cfg, s, call, step).calls, call) == Some(why) <==>
              FateOf(s.calls, call) == Some(why) || Settles(OfCall(call, step), call, why)
  {
    FateGoes(cfg, s, call, step);
  }

  lemma FateStep(cfg: Shutdown.Config, s: State, step: Step, call: nat, why: Reason)
    requires Inv(cfg, s) && Enabled(cfg, s, step) && why != Shut
    ensures FateOf(Apply(cfg, s, step).calls, call) == Some(why) <==>
              FateOf(s.calls, call) == Some(why) || Settles(step, call, why)
  {
    match step
    case OfCall(c, k) =>
      OneCallChanges(cfg, s, c, k);
      if c == call { FateMoves(cfg, s, call, k, why); }
    case OfReader(r) => ReaderArrived(cfg, s, r);
    case Close(_) =>
    case OfActor(_, _) =>
  }

  lemma {:induction false} FateIsHistory(cfg: Shutdown.Config, steps: seq<Step>, call: nat, why: Reason)
    requires Run(cfg, steps).Some? && why != Shut
    ensures FateOf(Run(cfg, steps).value.calls, call) == Some(why) <==> Took(steps, call, why)
    decreases |steps|
  {
    if steps != [] {
      var front := steps[..|steps| - 1];
      FateIsHistory(cfg, front, call, why);
      Multiplexer.RunKeeps(cfg, front);
      FateStep(cfg, Run(cfg, front).value, steps[|steps| - 1], call, why);
      TookMore(steps, call, why);
    }
  }

  /** A call returns its responses, the error of its context, of its write or of its params iff that is the step it
      took; otherwise the error of a closed connection, and then the connection is closed. */
  lemma ReturnsForItsReason(cfg: Shutdown.Config, steps: seq<Step>, call: nat)
    requires Run(cfg, steps).Some? && call in Run(cfg, steps).value.calls
    requires Run(cfg, steps).value.calls[call].phase.Done?
    ensures var r := Run(cfg, steps).value.calls[call].phase.r;
            && (r.Responses? <==> Took(steps, call, AllIn)) && (r == CtxError <==> Took(steps, call, Cancelled))
            && (r == SendError <==> Took(steps, call, Unsent)) && (r == ParamsError <==> Took(steps, call, BadParams))
            && (r == Closed ==> Run(cfg, steps).value.closing.chanClosed)
  {
    Multiplexer.RunKeeps(cfg, steps);
    FateIsHistory(cfg, steps, call, AllIn);
    FateIsHistory(cfg, steps, call, Cancelled);
    FateIsHistory(cfg, steps, call, Unsent);
    FateIsHistory(cfg, steps, call, BadParams);
  }
}
