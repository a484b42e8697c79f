/** How the two clients shut down: jsonrpcstdio/client.go and push.go, jsonrpcws/client.go.

    A shutdown is carried out by any number of actors: callers of Close, the read loop when it ends, and in
    jsonrpcstdio a send whose write broke. In jsonrpcstdio an actor takes the writer's mutex, latches the writer and
    lets go of it; then, in a sync.Once, it closes the channel that waiting calls watch and clears the pending map. A
    broken write latches the writer itself and does the rest while it still holds the mutex. In jsonrpcws there is no
    latch: everything is inside the Once, and closing the connection is what makes later writes fail. */
module Shutdown {
  import opened Wrappers

  /** stdio: jsonrpcstdio, which also drops request-shaped frames and array frames; else jsonrpcws. */
  datatype Config = Config(stdio: bool)

  datatype Stage = ToCloseChan | ToCloseConn | ToClear | ToLeave

  /** Where an actor is: about to latch the writer, about to call once.Do, inside it, or through. */
  datatype Actor = Latching | Entering | Inside(stage: Stage) | Gone

  datatype Once = Unused | Taken(who: nat) | Spent

  type Actors = map<nat, Actor>

  /** writer holds the actor and the call that keep the writer's mutex; latched says that writes fail from now on. */
  datatype Closing = Closing(actors: Actors, once: Once, writer: Option<(nat, nat)>,
                             chanClosed: bool, latched: bool, cleared: bool)

  const OPEN := Closing(map[], Unused, None, false, false, false)

  /** What an actor does next. */
  datatype Step = LatchWriter | Enter | Skip | CloseChan | CloseConn | Clear | Leave

  predicate Is(d: Closing, who: nat, a: Actor) {
    who in d.actors && d.actors[who] == a
  }

  predicate Enabled(d: Closing, who: nat, step: Step) {
    match step
    case LatchWriter => Is(d, who, Latching) && d.writer == None
    case Enter => Is(d, who, Entering) && d.once == Unused
    case Skip => Is(d, who, Entering) && d.once == Spent
    case CloseChan => Is(d, who, Inside(ToCloseChan))
    case CloseConn => Is(d, who, Inside(ToCloseConn))
    case Clear => Is(d, who, Inside(ToClear))
    case Leave => Is(d, who, Inside(ToLeave))
  }

  function Put(d: Closing, who: nat, a: Actor): Closing {
    d.(actors := d.actors[who := a])
  }

  function Apply(cfg: Config, d: Closing, who: nat, step: Step): Closing {
    match step
    case LatchWriter => Put(d, who, Entering).(latched := true)
    case Enter => Put(d, who, Inside(ToCloseChan)).(once := Taken(who))
    case Skip => Put(d, who, Gone)
    case CloseChan => Put(d, who, Inside(if cfg.stdio then ToClear else ToCloseConn)).(chanClosed := true)
    case CloseConn => Put(d, who, Inside(ToClear)).(latched := true)
    case Clear => Put(d, who, Inside(ToLeave)).(cleared := true)
    case Leave => Put(d, who, Gone).(once := Spent)
  }

  /** A call of Close, or the end of the read loop. */
  function Appear(cfg: Config, d: Closing, who: nat): Closing {
    Put(d, who, if cfg.stdio then Latching else Entering)
  }

  /** The write of a call broke: the writer is latched and its mutex kept. */
  function BreakWrite(d: Closing, who: nat, call: nat): Closing {
    Put(d, who, Entering).(latched := true, writer := Some((who, call)))
  }

  // ---- the invariant ----

  /** In jsonrpcstdio nobody comes past the latch without the writer being latched. */
  predicate Latched(cfg: Config, a: Actor, latched: bool) {
    if cfg.stdio then a == Latching || latched else a != Latching
  }

  ghost predicate AllLatched(cfg: Config, actors: Actors, latched: bool) {
    forall who :: who in actors ==> Latched(cfg, actors[who], latched)
  }

  /** Exactly the actor that took the Once is inside. */
  ghost predicate OneInside(actors: Actors, once: Once) {
    && (once.Taken? ==> once.who in actors && actors[once.who].Inside?)
    && (forall who :: who in actors && actors[who].Inside? ==> once == Taken(who))
  }

  /** What has been done when the actor inside is at a stage. */
  predicate Staged(cfg: Config, stage: Stage, d: Closing) {
    match stage
    case ToCloseChan => !d.chanClosed && !d.cleared
    case ToCloseConn => !cfg.stdio && d.chanClosed && !d.cleared
    case ToClear => d.chanClosed && d.latched && !d.cleared
    case ToLeave => d.cleared
  }

  ghost predicate Progress(cfg: Config, d: Closing)
    requires OneInside(d.actors, d.once)
  {
    match d.once
    case Unused => !d.chanClosed && !d.cleared
    case Taken(who) => Staged(cfg, d.actors[who].stage, d)
    case Spent => d.cleared
  }

  ghost predicate Safe(cfg: Config, d: Closing) {
    && AllLatched(cfg, d.actors, d.latched)
    && OneInside(d.actors, d.once) && Progress(cfg, d)
    && (d.cleared ==> d.chanClosed && d.latched)
    && (d.writer.Some? ==> d.writer.value.0 in d.actors && d.actors[d.writer.value.0] != Latching)
  }

  lemma AppearKeeps(cfg: Config, d: Closing, who: nat)
    requires Safe(cfg, d) && who !in d.actors
    ensures Safe(cfg, Appear(cfg, d, who))
  {
  }

  lemma BreakWriteKeeps(cfg: Config, d: Closing, who: nat, call: nat)
    requires Safe(cfg, d) && who !in d.actors && cfg.stdio
    ensures Safe(cfg, BreakWrite(d, who, call))
  {
  }

  lemma OutsideKeeps(cfg: Config, d: Closing, who: nat, step: Step)
    requires Safe(cfg, d) && Enabled(d, who, step) && (step == LatchWriter || step == Enter || step == Skip)
    ensures Safe(cfg, Apply(cfg, d, who, step))
  {
    assert Latched(cfg, d.actors[who], d.latched);
  }

  lemma InsideKeeps(cfg: Config, d: Closing, who: nat, step: Step)
    requires Safe(cfg, d) && Enabled(d, who, step) && step != LatchWriter && step != Enter && step != Skip
    ensures Safe(cfg, Apply(cfg, d, who, step))
  {
    assert Latched(cfg, d.actors[who], d.latched) && d.once == Taken(who);
  }

  lemma StepKeeps(cfg: Config, d: Closing, who: nat, step: Step)
    requires Safe(cfg, d) && Enabled(d, who, step)
    ensures Safe(cfg, Apply(cfg, d, who, step))
  {
    if step == LatchWriter || step == Enter || step == Skip {
      OutsideKeeps(cfg, d, who, step);
    } else {
      InsideKeeps(cfg, d, who, step);
    }
  }

  // ---- what the invariant gives ----

  /** The channel is closed once, and the map is cleared once, after writes have been made to fail. */
  lemma InOrder(cfg: Config, d: Closing, who: nat, step: Step)
    requires Safe(cfg, d) && Enabled(d, who, step)
    ensures step == CloseChan ==> !d.chanClosed
    ensures step == Clear ==> d.chanClosed && d.latched && !d.cleared
  {
    assert d.actors[who].Inside? ==> d.once == Taken(who);
  }

  /** No shutdown is half done. */
  ghost predicate Settled(d: Closing) {
    forall who :: who in d.actors ==> d.actors[who] == Gone
  }

  /** What an actor that is not through does next, unless it waits for another. */
  function Next(d: Closing, a: Actor): Step
    requires a != Gone
  {
    match a
    case Latching => LatchWriter
    case Entering => if d.once == Unused then Enter else Skip
    case Inside(ToCloseChan) => CloseChan
    case Inside(ToCloseConn) => CloseConn
    case Inside(ToClear) => Clear
    case Inside(ToLeave) => Leave
  }

  /** A shutdown never deadlocks, though a broken write keeps the writer's mutex while it waits for the Once: when some
      actor is not through, an actor can go on, or the call that keeps the mutex can let go of it. */
  lemma NeverStuck(cfg: Config, d: Closing) returns (who: nat, release: bool)
    requires Safe(cfg, d) && !Settled(d)
    ensures who in d.actors
    ensures if release then d.writer.Some? && d.writer.value.0 == who && d.actors[who] == Gone
            else d.actors[who] != Gone && Enabled(d, who, Next(d, d.actors[who]))
  {
    var waiting :| waiting in d.actors && d.actors[waiting] != Gone;
    who, release := waiting, false;
    if d.once.Taken? {
      who := d.once.who;
    } else if d.actors[waiting] == Latching && d.writer.Some? {
      who, release := d.writer.value.0, d.actors[d.writer.value.0] == Gone;
    }
  }
}
