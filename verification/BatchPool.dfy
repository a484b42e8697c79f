/** handle.go, handleBatchRPC: the worker pool that runs the entries of a batch, as a transition system over every
    schedule of its goroutines, against the loop that would handle the entries one after the other. */
module BatchPool {
  import opened Wrappers

  /** size entries; limit is the configured concurrency; outcome says what handling an entry gives,
      None for a notification. */
  datatype Config<R> = Config(size: nat, limit: int, outcome: nat -> Option<R>)

  datatype Worker = Idle | Busy(idx: nat) | Exited

  /** next is the first index not yet handed out, taker the worker each earlier index went to, handled how often each
      index was handled, raw the slots the workers fill. */
  datatype State<R> = State(
    next: nat, closed: bool, workers: seq<Worker>,
    taker: seq<nat>, handled: seq<nat>, raw: seq<Option<R>>, responses: Option<seq<R>>)

  /** The pool never has more workers than entries; without a limit it has one for each. */
  function PoolSize(size: nat, limit: int): (workers: nat)
    ensures workers <= size && (0 < limit ==> workers <= limit)
    ensures workers == 0 ==> size == 0
  {
    if limit <= 0 || limit > size then size else limit
  }

  function Init<R>(c: Config<R>): State<R> {
    State(0, false, seq(PoolSize(c.size, c.limit), _ => Idle), [], seq(c.size, _ => 0), seq(c.size, _ => None), None)
  }

  /** The responses that are not nil, in order. */
  function NonNil<R>(raw: seq<Option<R>>): seq<R> {
    if raw == [] then []
    else NonNil(raw[..|raw| - 1]) + if raw[|raw| - 1].Some? then [raw[|raw| - 1].value] else []
  }

  /** What the loop without a pool returns. */
  function Sequential<R>(outcome: nat -> Option<R>, size: nat): seq<R> {
    if size == 0 then []
    else Sequential(outcome, size - 1) + if outcome(size - 1).Some? then [outcome(size - 1).value] else []
  }

  /** The filter at the end of handleBatchRPC. */
  method Gather<R>(raw: seq<Option<R>>) returns (responses: seq<R>)
    ensures responses == NonNil(raw)
  {
    responses := [];
    for i := 0 to |raw|
      invariant responses == NonNil(raw[..i])
    {
      assert raw[..i + 1][..i] == raw[..i];
      if raw[i].Some? {
        responses := responses + [raw[i].value];
      }
    }
    assert raw[..|raw|] == raw;
  }

  // ---- steps ----

  datatype Step =
    | Hand(w: nat)     // indexes <- idx meets the range loop of worker w
    | Finish(w: nat)
    | CloseIndexes
    | Exit(w: nat)
    | Collect          // past wg.Wait

  predicate Is<R>(s: State<R>, w: nat, state: Worker) {
    w < |s.workers| && s.workers[w] == state
  }

  predicate AllExited(workers: seq<Worker>) {
    forall w :: 0 <= w < |workers| ==> workers[w] == Exited
  }

  predicate Enabled<R(==)>(c: Config<R>, s: State<R>, step: Step) {
    match step
    case Hand(w) => s.next < c.size && Is(s, w, Idle)
    case Finish(w) => w < |s.workers| && s.workers[w].Busy? && s.workers[w].idx < |s.raw| == |s.handled|
    case CloseIndexes => s.next == c.size && !s.closed
    case Exit(w) => s.closed && Is(s, w, Idle)
    case Collect => s.closed && AllExited(s.workers) && s.responses.None?
  }

  function HandOut<R>(s: State<R>, w: nat): State<R>
    requires w < |s.workers|
  {
    s.(next := s.next + 1, workers := s.workers[w := Busy(s.next)], taker := s.taker + [w])
  }

  function FinishOne<R>(c: Config<R>, s: State<R>, w: nat): State<R>
    requires w < |s.workers| && s.workers[w].Busy?
    requires s.workers[w].idx < |s.raw| == |s.handled|
  {
    var idx := s.workers[w].idx;
    s.(workers := s.workers[w := Idle],
       handled := s.handled[idx := s.handled[idx] + 1],
       raw := s.raw[idx := c.outcome(idx)])
  }

  function Apply<R>(c: Config<R>, s: State<R>, step: Step): State<R>
    requires Enabled(c, s, step)
  {
    match step
    case Hand(w) => HandOut(s, w)
    case Finish(w) => FinishOne(c, s, w)
    case CloseIndexes => s.(closed := true)
    case Exit(w) => s.(workers := s.workers[w := Exited])
    case Collect => s.(responses := Some(NonNil(s.raw)))
  }

  /** Every schedule: the state after a list of steps, None when one of them was not enabled. */
  ghost function Run<R>(c: Config<R>, steps: seq<Step>): Option<State<R>>
    decreases |steps|
  {
    if steps == [] then Some(Init(c))
    else
      var before := Run(c, steps[..|steps| - 1]);
      var step := steps[|steps| - 1];
      if before.Some? && Enabled(c, before.value, step) then Some(Apply(c, before.value, step)) else None
  }

  // ---- the invariant ----

  /** Worker w is the one index i went to. */
  predicate Carries(next: nat, taker: seq<nat>, handled: seq<nat>, w: nat, i: nat)
    requires next == |taker| <= |handled|
  {
    i < next && taker[i] == w && handled[i] == 0
  }

  /** An index handed out has been handled once, or its worker still has it; no other was touched. */
  predicate Accounted(workers: seq<Worker>, taker: seq<nat>, handled: seq<nat>, i: nat)
    requires i < |handled|
  {
    if i >= |taker| then handled[i] == 0
    else handled[i] == 1 || (handled[i] == 0 && taker[i] < |workers| && workers[taker[i]] == Busy(i))
  }

  ghost predicate Custody(workers: seq<Worker>, next: nat, taker: seq<nat>, handled: seq<nat>) {
    && next == |taker| <= |handled|
    && (forall w :: 0 <= w < |workers| && workers[w].Busy? ==> Carries(next, taker, handled, w, workers[w].idx))
    && (forall i :: 0 <= i < |handled| ==> Accounted(workers, taker, handled, i))
  }

  ghost predicate Slots<R>(c: Config<R>, handled: seq<nat>, raw: seq<Option<R>>) {
    && |raw| == |handled| == c.size
    && forall i :: 0 <= i < c.size ==> raw[i] == if handled[i] == 0 then None else c.outcome(i)
  }

  ghost predicate Inv<R>(c: Config<R>, s: State<R>) {
    && |s.workers| == PoolSize(c.size, c.limit)
    && Custody(s.workers, s.next, s.taker, s.handled)
    && Slots(c, s.handled, s.raw)
    && (s.closed ==> s.next == c.size)
    && (forall w :: 0 <= w < |s.workers| && s.workers[w] == Exited ==> s.closed)
    && (s.responses.Some? ==> s.closed && AllExited(s.workers) && s.responses.value == NonNil(s.raw))
  }

  lemma HandKeeps(workers: seq<Worker>, taker: seq<nat>, handled: seq<nat>, w: nat)
    requires Custody(workers, |taker|, taker, handled) && |taker| < |handled|
    requires w < |workers| && workers[w] == Idle
    ensures Custody(workers[w := Busy(|taker|)], |taker| + 1, taker + [w], handled)
  {
    var workers', taker' := workers[w := Busy(|taker|)], taker + [w];
    assert Accounted(workers, taker, handled, |taker|);
    forall i | 0 <= i < |handled| ensures Accounted(workers', taker', handled, i) {
      assert Accounted(workers, taker, handled, i);
    }
  }

  lemma FinishKeeps(workers: seq<Worker>, taker: seq<nat>, handled: seq<nat>, w: nat)
    requires Custody(workers, |taker|, taker, handled)
    requires w < |workers| && workers[w].Busy?
    ensures workers[w].idx < |taker| && handled[workers[w].idx] == 0
    ensures Custody(workers[w := Idle], |taker|, taker, handled[workers[w].idx := 1])
  {
    var idx := workers[w].idx;
    assert Carries(|taker|, taker, handled, w, idx);
    var workers', handled' := workers[w := Idle], handled[idx := 1];
    forall v | 0 <= v < |workers'| && workers'[v].Busy? ensures Carries(|taker|, taker, handled', v, workers'[v].idx) {
      assert Carries(|taker|, taker, handled, v, workers[v].idx);
    }
    forall i | 0 <= i < |handled| ensures Accounted(workers', taker, handled', i) {
      assert Accounted(workers, taker, handled, i);
    }
  }

  lemma ExitKeeps(workers: seq<Worker>, taker: seq<nat>, handled: seq<nat>, w: nat)
    requires Custody(workers, |taker|, taker, handled)
    requires w < |workers| && workers[w] == Idle
    ensures Custody(workers[w := Exited], |taker|, taker, handled)
  {
    var workers' := workers[w := Exited];
    forall i | 0 <= i < |handled| ensures Accounted(workers', taker, handled, i) {
      assert Accounted(workers, taker, handled, i);
    }
  }

  lemma StepKeeps<R>(c: Config<R>, s: State<R>, step: Step)
    requires Inv(c, s) && Enabled(c, s, step)
    ensures Inv(c, Apply(c, s, step))
  {
    match step
    case Hand(w) => HandKeeps(s.workers, s.taker, s.handled, w);
    case Finish(w) => FinishKeeps(s.workers, s.taker, s.handled, w);
    case Exit(w) => ExitKeeps(s.workers, s.taker, s.handled, w);
    case _ =>
  }

  lemma {:induction false} RunKeeps<R>(c: Config<R>, steps: seq<Step>)
    requires Run(c, steps).Some?
    ensures Inv(c, Run(c, steps).value)
    decreases |steps|
  {
    if steps != [] {
      RunKeeps(c, steps[..|steps| - 1]);
      StepKeeps(c, Run(c, steps[..|steps| - 1]).value, steps[|steps| - 1]);
    }
  }

  // ---- main results, over every schedule ----

  lemma {:induction false} NonNilIsSequential<R>(outcome: nat -> Option<R>, raw: seq<Option<R>>)
    requires forall i :: 0 <= i < |raw| ==> raw[i] == outcome(i)
    ensures NonNil(raw) == Sequential(outcome, |raw|)
    decreases |raw|
  {
    if raw != [] { NonNilIsSequential(outcome, raw[..|raw| - 1]); }
  }

  /** The entries being handled at this moment. */
  ghost function Running(workers: seq<Worker>): set<nat> {
    set w | 0 <= w < |workers| && workers[w].Busy? :: w
  }

  /** Whatever the schedule, handleBatchRPC returns what handling the entries one after the other returns,
      and it has handled each of them exactly once. */
  lemma PoolIsSequential<R>(c: Config<R>, steps: seq<Step>)
    requires Run(c, steps).Some? && Run(c, steps).value.responses.Some?
    ensures Run(c, steps).value.responses.value == Sequential(c.outcome, c.size)
    ensures Run(c, steps).value.handled == seq(c.size, _ => 1)
  {
    RunKeeps(c, steps);
    var s := Run(c, steps).value;
    forall i | 0 <= i < c.size ensures s.handled[i] == 1 {
      assert Accounted(s.workers, s.taker, s.handled, i);
    }
    NonNilIsSequential(c.outcome, s.raw);
  }

  lemma {:induction false} WithinRange(few: set<nat>, bound: nat)
    requires forall w :: w in few ==> w < bound
    ensures |few| <= bound
    decreases bound
  {
    if bound == 0 { assert few == {}; } else { WithinRange(few - {bound - 1}, bound - 1); }
  }

  /** At no moment are more entries being handled than the limit, or than there are entries, and no entry is
      being handled twice. */
  lemma BoundedAndDistinct<R>(c: Config<R>, steps: seq<Step>)
    requires Run(c, steps).Some?
    ensures var ws := Run(c, steps).value.workers;
            && |Running(ws)| <= PoolSize(c.size, c.limit)
            && forall v, w :: v in Running(ws) && w in Running(ws) && v != w ==> ws[v].idx != ws[w].idx
  {
    RunKeeps(c, steps);
    var ws := Run(c, steps).value.workers;
    WithinRange(Running(ws), |ws|);
  }

  /** No schedule gets stuck before the responses are there. */
  lemma NeverStuck<R>(c: Config<R>, steps: seq<Step>)
    requires Run(c, steps).Some? && Run(c, steps).value.responses.None?
    ensures exists step :: Enabled(c, Run(c, steps).value, step)
  {
    RunKeeps(c, steps);
    var s := Run(c, steps).value;
    var step := CloseIndexes;
    if w :| 0 <= w < |s.workers| && s.workers[w].Busy? { step := Finish(w); }
    else if s.next < c.size { assert s.workers[0] != Exited; step := Hand(0); }
    else if !s.closed {}
    else if w :| 0 <= w < |s.workers| && s.workers[w] == Idle { step := Exit(w); }
    else { step := Collect; }
    assert Enabled(c, s, step);
  }

  // ---- termination ----

  function Due(w: Worker): nat {
    match w case Idle => 1 case Busy(_) => 2 case Exited => 0
  }

  /** The steps the workers still owe for what they hold. */
  function AllDue(workers: seq<Worker>): nat {
    if workers == [] then 0 else AllDue(workers[..|workers| - 1]) + Due(workers[|workers| - 1])
  }

  lemma {:induction false} AllDueUpdate(workers: seq<Worker>, w: nat, state: Worker)
    requires w < |workers|
    ensures AllDue(workers[w := state]) == AllDue(workers) - Due(workers[w]) + Due(state)
    decreases |workers|
  {
    var k := |workers| - 1;
    if w < k {
      AllDueUpdate(workers[..k], w, state);
      assert workers[w := state][..k] == workers[..k][w := state];
    } else {
      assert workers[w := state][..k] == workers[..k];
    }
  }

  lemma {:induction false} AllIdleDue(size: nat)
    ensures AllDue(seq(size, _ => Idle)) == size
  {
    if size > 0 {
      AllIdleDue(size - 1);
      assert seq(size, _ => Idle)[..size - 1] == seq(size - 1, _ => Idle);
    }
  }

  /** What is left to do. */
  function Remaining<R>(c: Config<R>, s: State<R>): int {
    2 * (c.size - s.next) + AllDue(s.workers) + (if s.closed then 0 else 1) + (if s.responses.Some? then 0 else 1)
  }

  /** Every schedule is finite: each step does one unit of a fixed amount of work, and a schedule that cannot be
      continued has produced the responses. */
  lemma {:induction false} EveryScheduleEnds<R>(c: Config<R>, steps: seq<Step>)
    requires Run(c, steps).Some?
    ensures |steps| + Remaining(c, Run(c, steps).value) == 2 * c.size + PoolSize(c.size, c.limit) + 2
    ensures |steps| <= 2 * c.size + PoolSize(c.size, c.limit) + 2
    decreases |steps|
  {
    if steps == [] {
      AllIdleDue(PoolSize(c.size, c.limit));
    } else {
      EveryScheduleEnds(c, steps[..|steps| - 1]);
      var s, step := Run(c, steps[..|steps| - 1]).value, steps[|steps| - 1];
      match step {
        case Hand(w) => AllDueUpdate(s.workers, w, Busy(s.next));
        case Finish(w) => AllDueUpdate(s.workers, w, Idle);
        case Exit(w) => AllDueUpdate(s.workers, w, Exited);
        case _ =>
      }
    }
    RunKeeps(c, steps);
  }
}
