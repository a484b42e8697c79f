/** openrpc/schema.go: when schemaOf returns. Here the builder is cut off at a depth of recursion, so that it can be
    asked of every type whether some depth is enough. */
module SchemaRuns {
  import opened Wrappers
  import opened TypeGraph
  import opened SchemaBuilder
  import WellFounded

  // ---- schemaOf with bounded depth ----

  /** What of the builder decides where it goes is which named structs are in its names; begun is the set of them. None
      when the depth does not suffice, else the names afterwards. */
  function Run(ty: Types, t: nat, begun: set<nat>, fuel: nat): Option<set<nat>>
    requires t < |ty|
    decreases fuel, 0, 1
  {
    if fuel == 0 then None
    else
      assert InRange(ty, ty[t]);
      match ty[t]
      case Pointer(e) => Run(ty, e, begun, fuel - 1)
      case Slice(e) => if OfBytes(ty, ty[t]) then Some(begun) else Run(ty, e, begun, fuel - 1)
      case Map(e) => Run(ty, e, begun, fuel - 1)
      case Struct(name, _, _) => if name != "" && t in begun then Some(begun) else RunStruct(ty, t, begun, fuel - 1)
      case _ => Some(begun)
  }

  function RunStruct(ty: Types, t: nat, begun: set<nat>, fuel: nat): Option<set<nat>>
    requires t < |ty| && ty[t].Struct?
    decreases fuel + 1, 0, 0
  {
    match FlatRun(ty, t, fuel)
    case None => None
    case Some(fs) =>
      ListedInRange(ty, t, fuel);
      RunFields(ty, fs, |fs|, if Named(ty[t]) then begun + {t} else begun, fuel)
  }

  /** objectSchema's loop over the first n fields. */
  function RunFields(ty: Types, fs: seq<FlatField>, n: nat, begun: set<nat>, fuel: nat): Option<set<nat>>
    requires n <= |fs| && forall k :: 0 <= k < |fs| ==> fs[k].typ < |ty|
    decreases fuel, n, 0
  {
    if n == 0 then Some(begun)
    else
      match RunFields(ty, fs, n - 1, begun, fuel)
      case None => None
      case Some(before) => Run(ty, fs[n - 1].typ, before, fuel)
  }

  lemma ListedInRange(ty: Types, t: nat, fuel: nat)
    requires t < |ty| && ty[t].Struct? && FlatRun(ty, t, fuel).Some?
    ensures Flat(ty, t) && FlatRun(ty, t, fuel).value == FlatFields(ty, t)
    ensures forall k :: 0 <= k < |FlatFields(ty, t)| ==> FlatFields(ty, t)[k].typ < |ty|
  {
    FlatteningEnds(ty, t);
    TypesInRange(ty, t, |FieldsOf(ty[t])|, []);
  }

  // ---- what returns has met no trap ----

  /** x has been gone through: it leads to itself nowhere, what it calls is in seen, and if it is named it has begun. */
  ghost predicate Fine(ty: Types, seen: set<nat>, begun: set<nat>, x: nat) {
    && x < |ty| && (ty[x].Struct? ==> Flat(ty, x)) && x in WellFounded.Ranks(Loops(ty))
    && if Named(ty[x]) then x in begun else Called(ty, seen, x)
  }

  ghost predicate Called(ty: Types, seen: set<nat>, x: nat)
    requires x < |ty| && (ty[x].Struct? ==> Flat(ty, x))
  {
    forall k :: 0 <= k < |Callees(ty, x)| ==> Callees(ty, x)[k] in seen
  }

  ghost predicate AllFine(ty: Types, seen: set<nat>, begun: set<nat>) {
    forall x {:trigger Fine(ty, seen, begun, x)} :: x in seen ==> Fine(ty, seen, begun, x)
  }

  /** A named struct whose definition has been gone through. */
  ghost predicate BodySeen(ty: Types, seen: set<nat>, u: nat) {
    u < |ty| && Named(ty[u]) && Flat(ty, u) && Called(ty, seen, u)
  }

  ghost predicate BodiesSeen(ty: Types, seen: set<nat>, were: set<nat>, begun: set<nat>) {
    forall u {:trigger BodySeen(ty, seen, u)} :: u in begun && u !in were ==> BodySeen(ty, seen, u)
  }

  ghost predicate Flatten(ty: Types, begun: set<nat>) {
    forall u :: u in begun ==> u < |ty| && Named(ty[u]) && Flat(ty, u)
  }

  /** seen is what a call that turned were into begun has gone through. */
  ghost predicate Covers(ty: Types, seen: set<nat>, were: set<nat>, begun: set<nat>) {
    were <= begun && Flatten(ty, begun) && AllFine(ty, seen, begun) && BodiesSeen(ty, seen, were, begun)
  }

  lemma NamedEnds(ty: Types, t: nat)
    requires t < |ty| && Named(ty[t]) && Flat(ty, t)
    ensures t in WellFounded.Ranks(Loops(ty))
  {
    assert Loops(ty)[t] == [];
    WellFounded.RankFromCalls(Loops(ty), t);
  }

  /** One call after another. */
  lemma CoversBoth(ty: Types, a: set<nat>, b: set<nat>, were: set<nat>, mid: set<nat>, begun: set<nat>)
    requires Covers(ty, a, were, mid) && Covers(ty, b, mid, begun)
    ensures Covers(ty, a + b, were, begun)
  {
    forall x | x in a + b ensures Fine(ty, a + b, begun, x) {
      if x in a { assert Fine(ty, a, mid, x); } else { assert Fine(ty, b, begun, x); }
    }
    forall u | u in begun && u !in were ensures BodySeen(ty, a + b, u) {
      if u in mid { assert BodySeen(ty, a, u); } else { assert BodySeen(ty, b, u); }
    }
  }

  lemma {:induction false} UnnamedFrom(ty: Types, ts: seq<nat>, k: nat) returns (i: nat)
    requires k < |Unnamed(ty, ts)|
    ensures i < |ts| && Unnamed(ty, ts)[k] == ts[i]
    decreases |ts|
  {
    var last := |ts| - 1;
    if k < |Unnamed(ty, ts[..last])| { i := UnnamedFrom(ty, ts[..last], k); } else { i := last; }
  }

  /** An unnamed type is gone through once all it calls are. */
  lemma CoversCaller(ty: Types, seen: set<nat>, were: set<nat>, begun: set<nat>, t: nat)
    requires Covers(ty, seen, were, begun)
    requires t < |ty| && !Named(ty[t]) && (ty[t].Struct? ==> Flat(ty, t)) && Called(ty, seen, t)
    ensures Covers(ty, seen + {t}, were, begun)
  {
    forall k | 0 <= k < |Loops(ty)[t]| ensures Loops(ty)[t][k] in WellFounded.Ranks(Loops(ty)) {
      var i := UnnamedFrom(ty, Callees(ty, t), k);
      assert Fine(ty, seen, begun, Callees(ty, t)[i]);
    }
    WellFounded.RankFromCalls(Loops(ty), t);
    forall x | x in seen + {t} ensures Fine(ty, seen + {t}, begun, x) {
      if x in seen { assert Fine(ty, seen, begun, x); }
    }
    forall u | u in begun && u !in were ensures BodySeen(ty, seen + {t}, u) { assert BodySeen(ty, seen, u); }
  }

  /** A named struct that has begun is gone through as far as its reference goes. */
  lemma CoversNamed(ty: Types, seen: set<nat>, were: set<nat>, begun: set<nat>, t: nat)
    requires Covers(ty, seen, were, begun) && t in begun
    ensures Covers(ty, seen + {t}, were, begun)
  {
    NamedEnds(ty, t);
    forall x | x in seen + {t} ensures Fine(ty, seen + {t}, begun, x) {
      if x in seen { assert Fine(ty, seen, begun, x); }
    }
    forall u | u in begun && u !in were ensures BodySeen(ty, seen + {t}, u) { assert BodySeen(ty, seen, u); }
  }

  /** The definition of a named struct. */
  lemma CoversBody(ty: Types, seen: set<nat>, were: set<nat>, begun: set<nat>, t: nat)
    requires Covers(ty, seen, were + {t}, begun)
    requires t < |ty| && Named(ty[t]) && Flat(ty, t) && Called(ty, seen, t)
    ensures Covers(ty, seen, were, begun)
  {
    forall u | u in begun && u !in were ensures BodySeen(ty, seen, u) {
      if u != t { assert u !in were + {t}; }
    }
  }

  lemma {:induction false} RunSees(ty: Types, t: nat, begun: set<nat>, fuel: nat) returns (seen: set<nat>)
    requires t < |ty| && Flatten(ty, begun) && Run(ty, t, begun, fuel).Some?
    ensures t in seen && Covers(ty, seen, begun, Run(ty, t, begun, fuel).value)
    decreases fuel, 0, 1
  {
    assert InRange(ty, ty[t]);
    var after := Run(ty, t, begun, fuel).value;
    if ty[t].Struct? {
      if Named(ty[t]) && t in begun {
        CoversNamed(ty, {}, begun, begun, t);
        seen := {} + {t};
      } else {
        seen := StructSees(ty, t, begun, fuel - 1);
      }
    } else {
      seen := {};
      if (ty[t].Pointer? || ty[t].Slice? || ty[t].Map?) && !OfBytes(ty, ty[t]) {
        seen := RunSees(ty, ty[t].elem, begun, fuel - 1);
      }
      CoversCaller(ty, seen, begun, after, t);
      seen := seen + {t};
    }
  }

  lemma StructSees(ty: Types, t: nat, begun: set<nat>, fuel: nat) returns (seen: set<nat>)
    requires t < |ty| && ty[t].Struct? && Flatten(ty, begun) && RunStruct(ty, t, begun, fuel).Some?
    ensures t in seen && Covers(ty, seen, begun, RunStruct(ty, t, begun, fuel).value)
    decreases fuel + 1, 0, 0
  {
    ListedInRange(ty, t, fuel);
    var fs := FlatFields(ty, t);
    var after := RunStruct(ty, t, begun, fuel).value;
    if Named(ty[t]) {
      seen := FieldsSee(ty, fs, |fs|, begun + {t}, fuel);
      CoversBody(ty, seen, begun, after, t);
      CoversNamed(ty, seen, begun, after, t);
    } else {
      seen := FieldsSee(ty, fs, |fs|, begun, fuel);
      CoversCaller(ty, seen, begun, after, t);
    }
    seen := seen + {t};
  }

  lemma {:induction false} FieldsSee(ty: Types, fs: seq<FlatField>, n: nat, begun: set<nat>, fuel: nat)
    returns (seen: set<nat>)
    requires n <= |fs| && (forall k :: 0 <= k < |fs| ==> fs[k].typ < |ty|) && Flatten(ty, begun)
    requires RunFields(ty, fs, n, begun, fuel).Some?
    ensures forall k :: 0 <= k < n ==> fs[k].typ in seen
    ensures Covers(ty, seen, begun, RunFields(ty, fs, n, begun, fuel).value)
    decreases fuel, n, 0
  {
    seen := {};
    if n > 0 {
      var mid := RunFields(ty, fs, n - 1, begun, fuel).value;
      var first := FieldsSee(ty, fs, n - 1, begun, fuel);
      var last := RunSees(ty, fs[n - 1].typ, mid, fuel);
      CoversBoth(ty, first, last, begun, mid, RunFields(ty, fs, n, begun, fuel).value);
      seen := first + last;
    }
  }

  /** Along calls one stays among what has been gone through. */
  lemma {:induction false} PathSeen(ty: Types, seen: set<nat>, begun: set<nat>, path: seq<nat>, i: nat)
    requires Covers(ty, seen, {}, begun) && i < |path| && path[0] in seen
    requires forall j :: 0 <= j < |path| - 1 ==> WellFounded.Step(Visits(ty), path[j], path[j + 1])
    ensures path[i] in seen
  {
    if i > 0 {
      var x := path[i - 1];
      PathSeen(ty, seen, begun, path, i - 1);
      assert Fine(ty, seen, begun, x);
      assert WellFounded.Step(Visits(ty), x, path[i]);
      if Named(ty[x]) { assert BodySeen(ty, seen, x); }
    }
  }

  lemma ReturnsBuilds(ty: Types, t: nat, fuel: nat)
    requires t < |ty| && Run(ty, t, {}, fuel).Some?
    ensures !WellFounded.Reaches(Visits(ty), Loops(ty), t)
  {
    var seen := RunSees(ty, t, {}, fuel);
    var begun := Run(ty, t, {}, fuel).value;
    if WellFounded.Reaches(Visits(ty), Loops(ty), t) {
      var path, nodes :| WellFounded.ReachesBy(Visits(ty), Loops(ty), t, path, nodes);
      var last := path[|path| - 1];
      PathSeen(ty, seen, begun, path, |path| - 1);
      assert Fine(ty, seen, begun, last);
      WellFounded.TrapIsUnranked(Loops(ty), nodes, last);
    }
  }

  // ---- without a trap some depth is enough ----

  lemma {:induction false} RunMore(ty: Types, t: nat, begun: set<nat>, fuel: nat, more: nat)
    requires t < |ty| && fuel <= more && Run(ty, t, begun, fuel).Some?
    ensures Run(ty, t, begun, more) == Run(ty, t, begun, fuel)
    decreases fuel, 0, 1
  {
    assert InRange(ty, ty[t]);
    if ty[t].Struct? {
      if !(Named(ty[t]) && t in begun) { StructMore(ty, t, begun, fuel - 1, more - 1); }
    } else if (ty[t].Pointer? || ty[t].Slice? || ty[t].Map?) && !OfBytes(ty, ty[t]) {
      RunMore(ty, ty[t].elem, begun, fuel - 1, more - 1);
    }
  }

  lemma StructMore(ty: Types, t: nat, begun: set<nat>, fuel: nat, more: nat)
    requires t < |ty| && ty[t].Struct? && fuel <= more && RunStruct(ty, t, begun, fuel).Some?
    ensures RunStruct(ty, t, begun, more) == RunStruct(ty, t, begun, fuel)
    decreases fuel + 1, 0, 0
  {
    WalkMore(ty, t, |FieldsOf(ty[t])|, [], fuel, more);
    ListedInRange(ty, t, fuel);
    var fs := FlatFields(ty, t);
    FieldsMore(ty, fs, |fs|, if Named(ty[t]) then begun + {t} else begun, fuel, more);
  }

  lemma {:induction false} FieldsMore(ty: Types, fs: seq<FlatField>, n: nat, begun: set<nat>, fuel: nat, more: nat)
    requires n <= |fs| && forall k :: 0 <= k < |fs| ==> fs[k].typ < |ty|
    requires fuel <= more && RunFields(ty, fs, n, begun, fuel).Some?
    ensures RunFields(ty, fs, n, begun, more) == RunFields(ty, fs, n, begun, fuel)
    decreases fuel, n, 0
  {
    if n > 0 {
      FieldsMore(ty, fs, n - 1, begun, fuel, more);
      RunMore(ty, fs[n - 1].typ, RunFields(ty, fs, n - 1, begun, fuel).value, fuel, more);
    }
  }

  /** How many of the first n types are named structs still to begin. */
  ghost function Unbegun(ty: Types, begun: set<nat>, n: nat): nat
    requires n <= |ty|
  {
    if n == 0 then 0 else Unbegun(ty, begun, n - 1) + if Named(ty[n - 1]) && n - 1 !in begun then 1 else 0
  }

  lemma {:induction false} UnbegunShrinks(ty: Types, begun: set<nat>, more: set<nat>, n: nat)
    requires n <= |ty| && begun <= more
    ensures Unbegun(ty, more, n) <= Unbegun(ty, begun, n)
  {
    if n > 0 { UnbegunShrinks(ty, begun, more, n - 1); }
  }

  lemma {:induction false} UnbegunDrops(ty: Types, begun: set<nat>, t: nat, n: nat)
    requires t < n <= |ty| && Named(ty[t]) && t !in begun
    ensures Unbegun(ty, begun + {t}, n) < Unbegun(ty, begun, n)
  {
    if t < n - 1 { UnbegunDrops(ty, begun, t, n - 1); } else { UnbegunShrinks(ty, begun, begun + {t}, n - 1); }
  }

  lemma {:induction false} RunEnough(ty: Types, t: nat, begun: set<nat>) returns (fuel: nat)
    requires Builds(ty, t)
    ensures Run(ty, t, begun, fuel).Some? && begun <= Run(ty, t, begun, fuel).value
    decreases Unbegun(ty, begun, |ty|), false, Cost(ty, t), 2, 0
  {
    fuel := 1;
    assert InRange(ty, ty[t]);
    if ty[t].Struct? {
      if !(Named(ty[t]) && t in begun) {
        var enough := StructEnough(ty, t, begun);
        fuel := enough + 1;
      }
    } else if (ty[t].Pointer? || ty[t].Slice? || ty[t].Map?) && !OfBytes(ty, ty[t]) {
      ElemCosts(ty, t);
      var enough := RunEnough(ty, ty[t].elem, begun);
      fuel := enough + 1;
    }
  }

  lemma StructEnough(ty: Types, t: nat, begun: set<nat>) returns (fuel: nat)
    requires Builds(ty, t) && ty[t].Struct? && !(Named(ty[t]) && t in begun)
    ensures RunStruct(ty, t, begun, fuel).Some? && begun <= RunStruct(ty, t, begun, fuel).value
    decreases Unbegun(ty, begun, |ty|), false, Cost(ty, t), 1, 0
  {
    BuildsFlat(ty, t);
    if Named(ty[t]) { UnbegunDrops(ty, begun, t, |ty|); }
    var fs := FlatFields(ty, t);
    TypesInRange(ty, t, |FieldsOf(ty[t])|, []);
    var before := if Named(ty[t]) then begun + {t} else begun;
    var enough := FieldsEnough(ty, t, |fs|, before);
    fuel := if enough > Height(ty, t) then enough else Height(ty, t);
    WalkEnough(ty, t, |FieldsOf(ty[t])|, [], fuel);
    FieldsMore(ty, fs, |fs|, before, enough, fuel);
  }

  /** Enough for the first n - 1 fields and enough for the next. */
  lemma NextField(ty: Types, fs: seq<FlatField>, n: nat, begun: set<nat>, first: nat, last: nat) returns (fuel: nat)
    requires 0 < n <= |fs| && forall k :: 0 <= k < |fs| ==> fs[k].typ < |ty|
    requires RunFields(ty, fs, n - 1, begun, first).Some?
    requires var next := Run(ty, fs[n - 1].typ, RunFields(ty, fs, n - 1, begun, first).value, last);
             next.Some? && begun <= next.value
    ensures RunFields(ty, fs, n, begun, fuel).Some? && begun <= RunFields(ty, fs, n, begun, fuel).value
  {
    fuel := if first > last then first else last;
    FieldsMore(ty, fs, n - 1, begun, first, fuel);
    RunMore(ty, fs[n - 1].typ, RunFields(ty, fs, n - 1, begun, first).value, last, fuel);
  }

  lemma {:induction false} FieldsEnough(ty: Types, t: nat, n: nat, begun: set<nat>) returns (fuel: nat)
    requires Builds(ty, t) && ty[t].Struct? && n <= |Fields(ty, t)|
    requires forall k :: 0 <= k < |Fields(ty, t)| ==> Fields(ty, t)[k].typ < |ty|
    ensures RunFields(ty, Fields(ty, t), n, begun, fuel).Some?
    ensures begun <= RunFields(ty, Fields(ty, t), n, begun, fuel).value
    decreases Unbegun(ty, begun, |ty|), Named(ty[t]), Cost(ty, t), 0, n
  {
    fuel := 0;
    if n > 0 {
      var first := FieldsEnough(ty, t, n - 1, begun);
      var mid := RunFields(ty, Fields(ty, t), n - 1, begun, first).value;
      FieldCosts(ty, t, n - 1);
      UnbegunShrinks(ty, begun, mid, |ty|);
      var last := RunEnough(ty, Fields(ty, t)[n - 1].typ, mid);
      fuel := NextField(ty, Fields(ty, t), n, begun, first, last);
    }
  }

  // ---- main result ----

  /** On a new builder schemaOf returns for a type exactly when the type does not reach, through the fields listed and
      the definitions of named structs, types that go on to each other for ever: by pointers, slices, maps and unnamed
      structs, or by a struct whose fields cannot be flattened. These are the types the builder is proved for. */
  lemma BuildingEnds(ty: Types, t: nat)
    requires t < |ty|
    ensures (exists fuel: nat :: Run(ty, t, {}, fuel).Some?) <==> !WellFounded.Reaches(Visits(ty), Loops(ty), t)
    ensures (exists fuel: nat :: Run(ty, t, {}, fuel).Some?) <==> Builds(ty, t)
  {
    BuildsIs(ty, t);
    if fuel: nat :| Run(ty, t, {}, fuel).Some? { ReturnsBuilds(ty, t, fuel); }
    if Builds(ty, t) {
      var fuel := RunEnough(ty, t, {});
      assert Run(ty, t, {}, fuel).Some?;
    }
  }

  // ---- the bounded builder and the real one ----

  /** The bounded builder begins nothing it need not: it stays within every closed set that covers the type. */
  lemma {:induction false} RunWithin(ty: Types, t: nat, begun: set<nat>, fuel: nat, s: set<nat>)
    requires Builds(ty, t) && Run(ty, t, begun, fuel).Some?
    requires begun <= s && Closed(ty, s) && Covered(ty, t, s)
    ensures Run(ty, t, begun, fuel).value <= s
    decreases fuel, 0, 1
  {
    assert InRange(ty, ty[t]);
    if ty[t].Struct? {
      if !(Named(ty[t]) && t in begun) {
        if Named(ty[t]) { assert Opened(ty, s, t); }
        StructWithin(ty, t, begun, fuel - 1, s);
      }
    } else if (ty[t].Pointer? || ty[t].Slice? || ty[t].Map?) && !OfBytes(ty, ty[t]) {
      ElemCosts(ty, t);
      RunWithin(ty, ty[t].elem, begun, fuel - 1, s);
    }
  }

  lemma StructWithin(ty: Types, t: nat, begun: set<nat>, fuel: nat, s: set<nat>)
    requires Builds(ty, t) && ty[t].Struct? && RunStruct(ty, t, begun, fuel).Some?
    requires begun <= s && Closed(ty, s) && BodyCovered(ty, t, s) && (Named(ty[t]) ==> t in s)
    ensures RunStruct(ty, t, begun, fuel).value <= s
    decreases fuel + 1, 0, 0
  {
    ListedInRange(ty, t, fuel);
    FieldsWithin(ty, t, |Fields(ty, t)|, if Named(ty[t]) then begun + {t} else begun, fuel, s);
  }

  lemma {:induction false} FieldsWithin(ty: Types, t: nat, n: nat, begun: set<nat>, fuel: nat, s: set<nat>)
    requires Builds(ty, t) && ty[t].Struct? && n <= |Fields(ty, t)|
    requires forall k :: 0 <= k < |Fields(ty, t)| ==> Fields(ty, t)[k].typ < |ty|
    requires RunFields(ty, Fields(ty, t), n, begun, fuel).Some?
    requires begun <= s && Closed(ty, s) && FieldsCovered(ty, t, n, s)
    ensures RunFields(ty, Fields(ty, t), n, begun, fuel).value <= s
    decreases fuel, n, 0
  {
    if n > 0 {
      FieldCosts(ty, t, n - 1);
      FieldsWithin(ty, t, n - 1, begun, fuel, s);
      RunWithin(ty, Fields(ty, t)[n - 1].typ, RunFields(ty, Fields(ty, t), n - 1, begun, fuel).value, fuel, s);
    }
  }

  /** What has been gone through refers only to what has begun. */
  lemma {:induction false} SeenCovered(ty: Types, seen: set<nat>, begun: set<nat>, x: nat)
    requires AllFine(ty, seen, begun) && x in seen && Builds(ty, x)
    ensures Covered(ty, x, begun)
    decreases false, Cost(ty, x), 2, 0
  {
    assert Fine(ty, seen, begun, x);
    if ty[x].Struct? {
      if !Named(ty[x]) { SeenBody(ty, seen, begun, x, |Fields(ty, x)|); }
    } else if (ty[x].Pointer? || ty[x].Slice? || ty[x].Map?) && !OfBytes(ty, ty[x]) {
      ElemCosts(ty, x);
      assert Callees(ty, x)[0] == ty[x].elem;
      SeenCovered(ty, seen, begun, ty[x].elem);
    }
  }

  lemma {:induction false} SeenBody(ty: Types, seen: set<nat>, begun: set<nat>, t: nat, n: nat)
    requires AllFine(ty, seen, begun) && Builds(ty, t) && ty[t].Struct? && Flat(ty, t) && Called(ty, seen, t)
    requires n <= |Fields(ty, t)|
    ensures FieldsCovered(ty, t, n, begun)
    decreases Named(ty[t]), Cost(ty, t), 1, n
  {
    if n > 0 {
      FieldCosts(ty, t, n - 1);
      SeenBody(ty, seen, begun, t, n - 1);
      assert Callees(ty, t)[n - 1] == Fields(ty, t)[n - 1].typ;
      SeenCovered(ty, seen, begun, Fields(ty, t)[n - 1].typ);
    }
  }

  lemma ClosedFlattens(ty: Types, s: set<nat>)
    requires Closed(ty, s)
    ensures Flatten(ty, s) && s <= AllNamed(ty)
  {
    forall u | u in s ensures u < |ty| && Named(ty[u]) && Flat(ty, u) && u in AllNamed(ty) {
      assert Opened(ty, s, u);
      BuildsFlat(ty, u);
    }
  }

  /** From a closed set the bounded builder comes to a closed set again, one that covers the type. */
  lemma RunCloses(ty: Types, t: nat, begun: set<nat>, fuel: nat)
    requires Builds(ty, t) && Closed(ty, begun) && Run(ty, t, begun, fuel).Some?
    ensures var after := Run(ty, t, begun, fuel).value;
            begun <= after && Closed(ty, after) && Covered(ty, t, after)
  {
    var after := Run(ty, t, begun, fuel).value;
    ClosedFlattens(ty, begun);
    var seen := RunSees(ty, t, begun, fuel);
    SeenCovered(ty, seen, after, t);
    AllNamedClosed(ty);
    AllNamedCovers(ty, t);
    RunWithin(ty, t, begun, fuel, AllNamed(ty));
    forall u | u in after ensures Opened(ty, after, u) {
      if u in begun {
        assert Opened(ty, begun, u);
        FieldsCoveredMore(ty, u, |Fields(ty, u)|, begun, after);
      } else {
        assert u in AllNamed(ty) && BodySeen(ty, seen, u);
        SeenBody(ty, seen, after, u, |Fields(ty, u)|);
      }
    }
  }

  lemma ConsistentCloses(ty: Types, defs: Defs, names: Names)
    requires Consistent(ty, defs, names, {})
    ensures Closed(ty, names.Keys)
  {
    forall u | u in names.Keys ensures Opened(ty, names.Keys, u) { assert Defined(ty, defs, names, {}, u); }
  }

  /** The bounded builder goes where the real one does: after a call of schemaOf, the structs that have names are those
      that the bounded one has begun, at any depth that is enough. */
  method SchemaOfIsRun(b: Builder, t: nat, ghost fuel: nat) returns (s: Schema)
    requires Builds(b.ty, t) && Consistent(b.ty, b.defs, b.names, {})
    requires Run(b.ty, t, b.names.Keys, fuel).Some?
    modifies b
    ensures Consistent(b.ty, b.defs, b.names, {}) && Answers(b.ty, b.names, t, s)
    ensures Run(b.ty, t, old(b.names.Keys), fuel) == Some(b.names.Keys)
  {
    ghost var were, reach := b.names.Keys, Run(b.ty, t, b.names.Keys, fuel).value;
    ConsistentCloses(b.ty, b.defs, b.names);
    RunCloses(b.ty, t, were, fuel);
    s := b.SchemaOf(Some(t), reach);
    ConsistentCloses(b.ty, b.defs, b.names);
    RunWithin(b.ty, t, were, fuel, b.names.Keys);
    assert reach == b.names.Keys;
  }

  // ---- types that never finish ----

  /** type L []L */
  function SelfSlice(): Shapes { [Slice(0)] }

  lemma SelfSliceDiverges(fuel: nat)
    ensures Whole(SelfSlice()) && Run(SelfSlice(), 0, {}, fuel) == None
  {
    var ty: Types := SelfSlice();
    if fuel > 0 {
      SelfSliceDiverges(fuel - 1);
      assert InRange(ty, ty[0]) && !OfBytes(ty, ty[0]);
    }
  }

  /** type N struct { F struct { *N } }: N is 0, the unnamed struct 1, *N 2. */
  function EmbeddedInField(): Shapes {
    [ Struct("N", "p.N", [Field("F", true, false, false, "", false, 1)]),
      Struct("", "struct { *p.N }", [Field("N", true, true, false, "", false, 2)]),
      Pointer(0) ]
  }

  /** What flatFields lists of N, and of the unnamed struct that embeds it. */
  function OnlyField(): seq<FlatField> { [FlatField("F", false, 1)] }

  lemma EmbeddedInFieldWhole() returns (ty: Types)
    ensures ty == EmbeddedInField()
  {
    var shapes := EmbeddedInField();
    assert InRange(shapes, shapes[0]) && InRange(shapes, shapes[1]) && InRange(shapes, shapes[2]);
    ty := shapes;
  }

  /** Flattened, N and the unnamed struct have the same one field, of the unnamed struct's type. */
  lemma FlatOfN(ty: Types, fuel: nat)
    requires ty == EmbeddedInField() && FlatRun(ty, 0, fuel).Some?
    ensures FlatRun(ty, 0, fuel).value == OnlyField()
  {
    var f := FieldsOf(ty[0])[0];
    assert Listed([], f) == OnlyField();
    assert WalkRun(ty, 0, 0, [], fuel) == Some([]);
    assert VisitRun(ty, 0, 0, [], fuel) == Some(Listed([], f));
  }

  lemma FlatOfUnnamed(ty: Types, fuel: nat)
    requires ty == EmbeddedInField() && FlatRun(ty, 1, fuel).Some?
    ensures FlatRun(ty, 1, fuel).value == OnlyField()
  {
    var f := FieldsOf(ty[1])[0];
    assert WalkRun(ty, 1, 0, [], fuel) == Some([]);
    assert VisitRun(ty, 1, 0, [], fuel) == EmbeddedRun(ty, f, [], fuel - 1);
    DerefOfPointer(ty, fuel - 1);
    FlatOfN(ty, fuel - 1);
  }

  lemma DerefOfPointer(ty: Types, fuel: nat)
    requires ty == EmbeddedInField() && DerefRun(ty, 2, fuel).Some?
    ensures DerefRun(ty, 2, fuel).value == 0
  {
    assert DerefRun(ty, 2, fuel) == DerefRun(ty, 0, fuel - 1);
  }

  lemma {:induction false} UnnamedDiverges(ty: Types, begun: set<nat>, fuel: nat)
    requires ty == EmbeddedInField()
    ensures Run(ty, 1, begun, fuel) == None
    decreases fuel
  {
    if fuel > 1 && FlatRun(ty, 1, fuel - 1).Some? {
      FlatOfUnnamed(ty, fuel - 1);
      OneField(ty, begun, fuel - 1);
      UnnamedDiverges(ty, begun, fuel - 1);
    }
  }

  lemma OneField(ty: Types, begun: set<nat>, fuel: nat)
    requires ty == EmbeddedInField() && OnlyField()[0].typ < |ty|
    ensures RunFields(ty, OnlyField(), 1, begun, fuel) == Run(ty, 1, begun, fuel)
  {
    assert RunFields(ty, OnlyField(), 0, begun, fuel) == Some(begun);
  }

  /** N is a named struct, no struct embeds itself, and every circle passes through N; still schemaOf never returns
      for N. */
  lemma EmbeddedInFieldDiverges(fuel: nat)
    ensures Whole(EmbeddedInField()) && Run(EmbeddedInField(), 0, {}, fuel) == None
  {
    var ty := EmbeddedInFieldWhole();
    if fuel > 0 && FlatRun(ty, 0, fuel - 1).Some? {
      FlatOfN(ty, fuel - 1);
      OneField(ty, {0}, fuel - 1);
      UnnamedDiverges(ty, {0}, fuel - 1);
      assert {} + {0} == {0};
    }
  }

  /** The types a type mentions; nothing for a named struct. */
  function MentionsOf(s: Shape): seq<nat> {
    match s
    case Pointer(e) => [e]
    case Slice(e) => [e]
    case Map(e) => [e]
    case Struct(name, _, fields) =>
      if name != "" then [] else seq(|fields|, i requires 0 <= i < |fields| => fields[i].typ)
    case _ => []
  }

  function Mentions(shapes: Shapes): (calls: WellFounded.Calls)
    ensures |calls| == |shapes| && forall t :: 0 <= t < |shapes| ==> calls[t] == MentionsOf(shapes[t])
  {
    seq(|shapes|, t requires 0 <= t < |shapes| => MentionsOf(shapes[t]))
  }

  /** The type of EmbeddedInFieldDiverges meets what one would ask for: every circle passes through the named struct,
      and every struct can be flattened. */
  lemma EmbeddedInFieldLooksFine(ty: Types, t: nat)
    requires ty == EmbeddedInField() && t < |ty|
    ensures WellFounded.Ends(Mentions(ty), t) && Flat(ty, t)
  {
    assert MentionsOf(ty[0]) == [] && MentionsOf(ty[1]) == [2] && MentionsOf(ty[2]) == [0];
    ShortCalls(Mentions(ty), t);
    assert !Embedded(ty[0].fields[0]) && Embedded(ty[1].fields[0]);
    assert WalkCalls(ty[0]) == [] && WalkCalls(ty[1]) == [2] && WalkCalls(ty[2]) == [0];
    ShortCalls(Walks(ty), t);
    WellFounded.RanksAre(Walks(ty), t);
  }

  lemma ShortCalls(next: WellFounded.Calls, t: nat)
    requires next == [[], [2], [0]] && t < 3
    ensures WellFounded.Ends(next, t)
  {
    assert WellFounded.Finishes(next, 0, 1) && WellFounded.Finishes(next, 2, 2) && WellFounded.Finishes(next, 1, 3);
  }

  /** struct { c L } with type L []L: the field is not exported. */
  function HiddenLoop(): Shapes {
    [Struct("", "struct { c p.L }", [Field("c", false, false, false, "", false, 1)]), Slice(1)]
  }

  /** A type that never finishes does no harm where schemaOf does not go. */
  lemma HiddenLoopIsHarmless(ty: Types)
    requires ty == HiddenLoop()
    ensures Builds(ty, 0) && !Builds(ty, 1)
  {
    HiddenLoopReturns(ty);
    BuildingEnds(ty, 0);
    forall fuel: nat ensures Run(ty, 1, {}, fuel) == None { HiddenLoopDiverges(ty, fuel); }
    BuildingEnds(ty, 1);
  }

  lemma HiddenLoopReturns(ty: Types)
    requires ty == HiddenLoop()
    ensures Run(ty, 0, {}, 2).Some?
  {
    assert WalkRun(ty, 0, 0, [], 1) == Some([]);
    assert FlatRun(ty, 0, 1) == Some([]);
    assert RunStruct(ty, 0, {}, 1) == Some({});
  }

  lemma {:induction false} HiddenLoopDiverges(ty: Types, fuel: nat)
    requires ty == HiddenLoop()
    ensures Run(ty, 1, {}, fuel) == None
  {
    if fuel > 0 {
      assert !OfBytes(ty, ty[1]);
      HiddenLoopDiverges(ty, fuel - 1);
    }
  }
}
