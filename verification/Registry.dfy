/** main.go (config, clone, update, the setters, call's lookup), middleware.go and methods.go: the copy-on-write
    configuration. A snapshot is read without a lock while writers replace it, so nothing a snapshot refers to may
    ever change. */
module Registry {
  import opened Wrappers

  /** Handlers and middlewares are known by number; Wrapped(m, name, next) is what middleware m makes of next. */
  datatype Handler = Own(id: nat) | Wrapped(mw: nat, name: string, next: Handler)

  /** The scalar settings. */
  datatype Settings = Settings(timeout: int, logger: Option<nat>, observer: Option<nat>, maxBatchSize: int,
                               batchConcurrency: int, maxMessageSize: int, enforcedTimeout: bool)

  /** What a snapshot says. */
  datatype View = View(errors: map<int, string>, methods: map<string, Handler>, info: map<string, nat>,
                       interceptors: seq<nat>, middlewares: seq<nat>, settings: Settings)

  datatype Op =
    | Set(settings: Settings)
    | Intercept(interceptor: nat)
    | Use(mw: nat)
    | RegisterError(code: int, msg: string)
    | Register(name: string, handler: nat, info: nat)

  // ---- what the operations do to a view ----

  const DISCOVER: string := "rpc.discover"

  predicate Reserved(name: string) {
    |name| >= 4 && name[..4] == "rpc." && name != DISCOVER
  }

  /** The view after an operation; None when it is refused. */
  function After(v: View, op: Op): Option<View> {
    match op
    case Set(settings) => Some(v.(settings := settings))
    case Intercept(i) => Some(v.(interceptors := v.interceptors + [i]))
    case Use(mw) => Some(v.(middlewares := v.middlewares + [mw]))
    case RegisterError(code, msg) => if code in v.errors then None else Some(v.(errors := v.errors[code := msg]))
    case Register(name, handler, info) =>
      if Reserved(name) || name in v.methods then None
      else Some(v.(methods := v.methods[name := Own(handler)], info := v.info[name := info]))
  }

  /** Handler h inside the middlewares from position i on. */
  function Chain(mws: seq<nat>, i: nat, name: string, h: Handler): Handler
    requires i <= |mws|
    decreases |mws| - i
  {
    if i == |mws| then h else Wrapped(mws[i], name, Chain(mws, i + 1, name, h))
  }

  /** updateRegistry, as opposed to updateConfig. */
  predicate Recomposes(op: Op) {
    op.Use? || op.Register?
  }

  // ---- the heap ----

  class Table<K(==), V> {
    var m: map<K, V>

    constructor (m: map<K, V>)
      ensures this.m == m
    {
      this.m := m;
    }

    method Put(k: K, v: V)
      modifies this
      ensures m == old(m)[k := v]
    {
      m := m[k := v];
    }
  }

  /** The copying loops of clone. */
  method Copy<K(==), V>(t: Table<K, V>) returns (c: Table<K, V>)
    ensures fresh(c) && c.m == t.m
  {
    c := new Table(map[]);
    var keys := t.m.Keys;
    while keys != {}
      invariant keys <= t.m.Keys
      invariant c.m.Keys == t.m.Keys - keys && forall k :: k in c.m ==> c.m[k] == t.m[k]
      decreases |keys|
    {
      var k :| k in keys;
      c.Put(k, t.m[k]);
      keys := keys - {k};
    }
  }

  class Config {
    var errors: Table<int, string>
    var methods: Table<string, Handler>
    var composed: Table<string, Handler>
    var info: Table<string, nat>
    var interceptors: seq<nat>
    var middlewares: seq<nat>
    var settings: Settings

    constructor (errors: Table<int, string>, methods: Table<string, Handler>, composed: Table<string, Handler>,
                 info: Table<string, nat>,
                 interceptors: seq<nat>, middlewares: seq<nat>, settings: Settings)
      ensures this.errors == errors && this.methods == methods && this.composed == composed && this.info == info
      ensures this.interceptors == interceptors && this.middlewares == middlewares && this.settings == settings
    {
      this.errors, this.methods, this.composed, this.info := errors, methods, composed, info;
      this.interceptors, this.middlewares, this.settings := interceptors, middlewares, settings;
    }

    ghost function ViewOf(): View
      reads this, errors, methods, info
    {
      View(errors.m, methods.m, info.m, interceptors, middlewares, settings)
    }

    /** The dispatch map holds each method inside all middlewares; with none of them it may be the registry itself. */
    ghost predicate Valid()
      reads this, methods, composed, info
    {
      && methods.m.Keys == composed.m.Keys == info.m.Keys
      && forall name :: name in methods.m ==> composed.m[name] == Chain(middlewares, 0, name, methods.m[name])
    }

    /** The composed map is carried over: it may still be the map of the old snapshot. */
    method Clone() returns (next: Config)
      ensures fresh(next) && fresh(next.errors) && fresh(next.methods) && fresh(next.info)
      ensures next.composed == composed && next.ViewOf() == ViewOf()
    {
      var e := Copy(errors);
      var m := Copy(methods);
      var i := Copy(info);
      next := new Config(e, m, composed, i, interceptors, middlewares, settings);
    }

    /** The mutation of one operation; it never touches the composed map. */
    method Mutate(op: Op) returns (ok: bool)
      requires methods != composed
      requires methods.m.Keys == info.m.Keys
      modifies this, errors, methods, info
      ensures errors == old(errors) && methods == old(methods) && composed == old(composed) && info == old(info)
      ensures ok == After(old(ViewOf()), op).Some?
      ensures ok ==> ViewOf() == After(old(ViewOf()), op).value
    {
      match op {
        case Set(s) => settings := s;
        case Intercept(i) => interceptors := interceptors + [i];
        case Use(mw) => middlewares := middlewares + [mw];
        case RegisterError(code, msg) =>
          if code in errors.m { return false; }
          errors.Put(code, msg);
        case Register(name, handler, i) =>
          if |name| >= 4 && name[..4] == "rpc." && name != DISCOVER { return false; }
          if name in methods.m { return false; }
          methods.Put(name, Own(handler));
          info.Put(name, i);
      }
      return true;
    }

    /** One entry of compose: the last middleware is applied first. */
    method WrapAll(name: string) returns (h: Handler)
      requires name in methods.m
      ensures h == Chain(middlewares, 0, name, methods.m[name])
    {
      h := methods.m[name];
      var i := |middlewares|;
      while i > 0
        invariant 0 <= i <= |middlewares| && h == Chain(middlewares, i, name, methods.m[name])
      {
        i := i - 1;
        h := Wrapped(middlewares[i], name, h);
      }
    }

    method Compose()
      modifies this`composed
      ensures composed == methods || fresh(composed)
      ensures composed.m.Keys == methods.m.Keys
      ensures forall name :: name in methods.m ==> composed.m[name] == Chain(middlewares, 0, name, methods.m[name])
    {
      if |middlewares| == 0 {
        composed := methods;
        return;
      }
      var made := new Table(map[]);
      var keys := methods.m.Keys;
      while keys != {}
        invariant fresh(made) && keys <= methods.m.Keys && made.m.Keys == methods.m.Keys - keys
        invariant forall name :: name in made.m ==> made.m[name] == Chain(middlewares, 0, name, methods.m[name])
        modifies made
        decreases |keys|
      {
        var name :| name in keys;
        var h := WrapAll(name);
        made.Put(name, h);
        keys := keys - {name};
      }
      composed := made;
    }
  }

  /** The seven codes New starts with. */
  const BASE_ERRORS: map<int, string> := map[
    -32700 := "parse_error_not_well_formed",
    -32600 := "invalid_request_not_conforming_to_spec",
    -32601 := "requested_method_not_found",
    -32602 := "invalid_method_parameters",
    -32603 := "internal_error",
    -32604 := "method_not_implemented",
    -32605 := "request_time_limit"]

  function Fresh(settings: Settings): View {
    View(BASE_ERRORS, map[], map[], [], [], settings)
  }

  class Server {
    var cfg: Config

    ghost predicate Valid()
      reads this, cfg, cfg.methods, cfg.composed, cfg.info
    {
      cfg.Valid()
    }

    ghost function Now(): View
      reads this, cfg, cfg.errors, cfg.methods, cfg.info
    {
      cfg.ViewOf()
    }

    constructor (settings: Settings)
      ensures Valid() && Now() == Fresh(settings)
    {
      var errors := new Table<int, string>(BASE_ERRORS);
      var methods := new Table<string, Handler>(map[]);
      var composed := new Table<string, Handler>(map[]);
      var info := new Table<string, nat>(map[]);
      cfg := new Config(errors, methods, composed, info, [], [], settings);
    }

    /** update, under the writers' mutex. It writes the pointer to the snapshot and nothing else that existed before:
        whoever still reads the old snapshot sees it unchanged. */
    method Update(op: Op) returns (ok: bool)
      requires Valid()
      modifies this`cfg
      ensures Valid()
      ensures ok == After(old(Now()), op).Some?
      ensures if ok then fresh(cfg) && Now() == After(old(Now()), op).value else cfg == old(cfg) && Now() == old(Now())
    {
      var next := cfg.Clone();
      ok := next.Mutate(op);
      if !ok { return; }
      if Recomposes(op) { next.Compose(); }
      cfg := next;
    }

    /** The lookup of call. */
    method Lookup(name: string) returns (h: Option<Handler>)
      requires Valid()
      ensures h == if name in Now().methods then Some(Chain(Now().middlewares, 0, name, Now().methods[name])) else None
    {
      if name in cfg.composed.m { return Some(cfg.composed.m[name]); }
      return None;
    }
  }

  // ---- any sequence of operations ----

  /** Refused operations change nothing. */
  function AfterAll(v: View, ops: seq<Op>): View
    decreases |ops|
  {
    if ops == [] then v
    else
      var before := AfterAll(v, ops[..|ops| - 1]);
      var next := After(before, ops[|ops| - 1]);
      if next.Some? then next.value else before
  }

  /** The middlewares of the Use operations, in order. */
  function Used(ops: seq<Op>): seq<nat>
    decreases |ops|
  {
    if ops == [] then []
    else Used(ops[..|ops| - 1]) + if ops[|ops| - 1].Use? then [ops[|ops| - 1].mw] else []
  }

  /** The interceptors of the Intercept operations, in order. */
  function Intercepted(ops: seq<Op>): seq<nat>
    decreases |ops|
  {
    if ops == [] then []
    else Intercepted(ops[..|ops| - 1]) + if ops[|ops| - 1].Intercept? then [ops[|ops| - 1].interceptor] else []
  }

  function LastSet(settings: Settings, ops: seq<Op>): Settings
    decreases |ops|
  {
    if ops == [] then settings
    else if ops[|ops| - 1].Set? then ops[|ops| - 1].settings else LastSet(settings, ops[..|ops| - 1])
  }

  /** The first registration of a name, which must not begin with rpc. unless it is rpc.discover. */
  function FirstRegistered(ops: seq<Op>, name: string): Option<Op>
    decreases |ops|
  {
    if ops == [] then None
    else
      var earlier := FirstRegistered(ops[..|ops| - 1], name);
      var last := ops[|ops| - 1];
      if earlier.Some? then earlier
      else if last.Register? && last.name == name && (!("rpc." <= name) || name == "rpc.discover") then Some(last)
      else None
  }

  /** The first text registered for an error code. */
  function FirstText(ops: seq<Op>, code: int): Option<string>
    decreases |ops|
  {
    if ops == [] then None
    else
      var earlier := FirstText(ops[..|ops| - 1], code);
      var last := ops[|ops| - 1];
      if earlier.Some? then earlier
      else if last.RegisterError? && last.code == code then Some(last.msg)
      else None
  }

  /** After any operations: a method is served exactly when it was registered under an allowed name, by the first
      handler registered for it, inside every middleware ever used, the first outermost, whether it was used before or
      after. */
  lemma {:induction false} HistoryDecides(settings: Settings, ops: seq<Op>, name: string)
    ensures var v := AfterAll(Fresh(settings), ops); var first := FirstRegistered(ops, name);
            && v.middlewares == Used(ops)
            && (name in v.methods <==> first.Some?) && (name in v.info <==> first.Some?)
            && (first.Some? ==>
                  first.value.Register? && v.methods[name] == Own(first.value.handler)
                  && v.info[name] == first.value.info)
    decreases |ops|
  {
    if ops != [] { HistoryDecides(settings, ops[..|ops| - 1], name); }
  }

  /** After any operations: the settings are the last that were set, and the interceptors all that were added, in
      order. */
  lemma {:induction false} HistoryConfigures(settings: Settings, ops: seq<Op>)
    ensures var v := AfterAll(Fresh(settings), ops);
            v.settings == LastSet(settings, ops) && v.interceptors == Intercepted(ops)
    decreases |ops|
  {
    if ops != [] { HistoryConfigures(settings, ops[..|ops| - 1]); }
  }

  /** And an error code is known exactly if it was from the start or has been registered, with the text it had from the
      start or else the first one registered for it. */
  lemma {:induction false} HistoryNamesErrors(settings: Settings, ops: seq<Op>, code: int)
    ensures var v := AfterAll(Fresh(settings), ops);
            && (code in v.errors <==> code in BASE_ERRORS || FirstText(ops, code).Some?)
            && (code in v.errors ==>
                  v.errors[code] == if code in BASE_ERRORS then BASE_ERRORS[code] else FirstText(ops, code).value)
    decreases |ops|
  {
    if ops != [] { HistoryNamesErrors(settings, ops[..|ops| - 1], code); }
  }

  /** No operation ever takes an error code away or changes its text. */
  lemma {:induction false} ErrorsStay(settings: Settings, ops: seq<Op>, code: int)
    requires code in BASE_ERRORS
    ensures var v := AfterAll(Fresh(settings), ops); code in v.errors && v.errors[code] == BASE_ERRORS[code]
    decreases |ops|
  {
    if ops != [] { ErrorsStay(settings, ops[..|ops| - 1], code); }
  }

  /** Layer i of a served handler is the i-th middleware used; under all layers is the handler itself. */
  function Layer(h: Handler, i: nat): Handler {
    if i == 0 || h.Own? then h else Layer(h.next, i - 1)
  }

  lemma {:induction false} FirstIsOutermost(mws: seq<nat>, k: nat, name: string, h: Handler, i: nat)
    requires k <= |mws| && i <= |mws| - k
    ensures Layer(Chain(mws, k, name, h), i) == Chain(mws, k + i, name, h)
    ensures i < |mws| - k ==> Chain(mws, k + i, name, h).Wrapped? && Chain(mws, k + i, name, h).mw == mws[k + i]
    decreases i
  {
    if i > 0 { FirstIsOutermost(mws, k + 1, name, h, i - 1); }
  }

  /** A reader takes the pointer once; whatever updates follow, what it has stays as it was. */
  method ReaderKeepsItsSnapshot(server: Server, ops: seq<Op>) returns (snapshot: Config)
    requires server.Valid()
    modifies server`cfg
    ensures snapshot == old(server.cfg) && server.Valid()
    ensures snapshot.ViewOf() == old(server.cfg.ViewOf()) && snapshot.Valid()
    ensures unchanged(snapshot) && unchanged(snapshot.methods) && unchanged(snapshot.composed)
    ensures unchanged(snapshot.errors) && unchanged(snapshot.info)
    ensures server.Now() == AfterAll(old(server.Now()), ops)
  {
    snapshot := server.cfg;
    for i := 0 to |ops|
      invariant server.Valid() && server.Now() == AfterAll(old(server.Now()), ops[..i])
    {
      var ok := server.Update(ops[i]);
      assert ops[..i + 1][..i] == ops[..i];
    }
    assert ops[..|ops|] == ops;
  }
}
