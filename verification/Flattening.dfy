/** What flatFields lists (openrpc/schema.go), told from the struct types alone: the fields at the end of the paths
    through embedded structs, the first path in depth-first order winning each name. */
module Flattening {
  import opened Wrappers
  import opened TypeGraph

  // ---- paths ----

  /** u is what is left of t after n pointers. */
  predicate Strips(ty: Types, t: nat, n: nat, u: nat)
    decreases n
  {
    t < |ty| && if n == 0 then u == t && !ty[t].Pointer? else ty[t].Pointer? && Strips(ty, ty[t].elem, n - 1, u)
  }

  /** The field stands for the fields of the struct u: it is anonymous, visible, without a name in its tag, and of that
      type or a pointer to it. */
  ghost predicate StandsFor(ty: Types, f: Field, u: nat) {
    && f.exported && !f.dashed && f.anonymous && f.tagName == ""
    && u < |ty| && (ty[u].Struct? || ty[u].Time?) && exists n :: Strips(ty, f.typ, n, u)
  }

  /** The path, of field positions, leads from t through fields that stand for structs to a visible field that does
      not. */
  ghost predicate Leads(ty: Types, t: nat, path: seq<nat>, g: Field)
    decreases |path|
  {
    && t < |ty| && path != [] && path[0] < |FieldsOf(ty[t])|
    && var f := FieldsOf(ty[t])[path[0]];
       if |path| == 1 then g == f && f.exported && !f.dashed && !exists u :: StandsFor(ty, f, u)
       else exists u :: StandsFor(ty, f, u) && Leads(ty, u, path[1..], g)
  }

  /** The path comes first. */
  predicate Before(p: seq<nat>, q: seq<nat>) {
    p != [] && q != [] && (p[0] < q[0] || (p[0] == q[0] && Before(p[1..], q[1..])))
  }

  /** The name of a field in JSON. */
  function NameOf(g: Field): string {
    if g.tagName == "" then g.fieldName else g.tagName
  }

  /** The entry is about this field. */
  predicate Says(e: FlatField, g: Field) {
    e.name == NameOf(g) && e.omitempty == g.omitempty && e.typ == g.typ
  }

  // ---- pointers ----

  lemma {:induction false} DerefStrips(ty: Types, t: nat) returns (n: nat)
    requires Flat(ty, t)
    ensures Strips(ty, t, n, Deref(ty, t))
    decreases Height(ty, t)
  {
    if ty[t].Pointer? {
      ElemIsSmaller(ty, t);
      assert InRange(ty, ty[t]);
      n := DerefStrips(ty, ty[t].elem);
      n := n + 1;
    } else {
      n := 0;
    }
  }

  lemma {:induction false} StripsOnce(ty: Types, t: nat, m: nat, u: nat, n: nat, v: nat)
    requires Strips(ty, t, m, u) && Strips(ty, t, n, v)
    ensures u == v
    decreases m
  {
    if m > 0 && n > 0 { StripsOnce(ty, ty[t].elem, m - 1, u, n - 1, v); }
  }

  /** On flat types the code finds the struct a field stands for. */
  lemma StandsForDeref(ty: Types, f: Field, u: nat)
    requires Embedded(f) ==> Flat(ty, f.typ)
    ensures StandsFor(ty, f, u) <==> Flattened(ty, f) && u == Deref(ty, f.typ)
  {
    if Embedded(f) {
      var n := DerefStrips(ty, f.typ);
      if StandsFor(ty, f, u) {
        var m :| Strips(ty, f.typ, m, u);
        StripsOnce(ty, f.typ, m, u, n, Deref(ty, f.typ));
      }
    }
  }

  // ---- all that is found, before names are looked at ----

  datatype Found = Found(path: seq<nat>, field: Field)

  function Under(i: nat, fs: seq<Found>): (r: seq<Found>)
    ensures |r| == |fs| && forall k :: 0 <= k < |fs| ==> r[k] == Found([i] + fs[k].path, fs[k].field)
  {
    seq(|fs|, k requires 0 <= k < |fs| => Found([i] + fs[k].path, fs[k].field))
  }

  /** In depth-first order, below the first n fields of t. */
  function All(ty: Types, t: nat, n: nat): seq<Found>
    requires Flat(ty, t) && n <= |FieldsOf(ty[t])|
    decreases Height(ty, t), n, 1
  {
    if n == 0 then []
    else
      FieldIsFlat(ty, t, n - 1);
      All(ty, t, n - 1) + Under(n - 1, AllOf(ty, FieldsOf(ty[t])[n - 1]))
  }

  /** Below one field; the path of the field itself is empty. */
  function AllOf(ty: Types, f: Field): seq<Found>
    requires Embedded(f) ==> Flat(ty, f.typ)
    decreases if Embedded(f) then Height(ty, f.typ) + 1 else 0, 0, 0
  {
    if Skipped(f) then []
    else if Flattened(ty, f) then All(ty, Deref(ty, f.typ), |FieldsOf(ty[Deref(ty, f.typ)])|)
    else [Found([], f)]
  }

  /** A path found below field f. */
  ghost predicate LeadsFrom(ty: Types, f: Field, path: seq<nat>, g: Field) {
    if path == [] then g == f && f.exported && !f.dashed && !exists u :: StandsFor(ty, f, u)
    else exists u :: StandsFor(ty, f, u) && Leads(ty, u, path, g)
  }

  lemma LeadsInto(ty: Types, t: nat, i: nat, path: seq<nat>, g: Field)
    requires t < |ty| && i < |FieldsOf(ty[t])|
    ensures Leads(ty, t, [i] + path, g) <==> LeadsFrom(ty, FieldsOf(ty[t])[i], path, g)
  {
    assert ([i] + path)[1..] == path;
  }

  lemma WalkStep(ty: Types, t: nat, n: nat, out: seq<FlatField>)
    requires Flat(ty, t) && 0 < n <= |FieldsOf(ty[t])|
    ensures var f := FieldsOf(ty[t])[n - 1];
            && (Embedded(f) ==> Flat(ty, f.typ) && Height(ty, f.typ) < Height(ty, t))
            && Walked(ty, t, n, out) == Visited(ty, f, Walked(ty, t, n - 1, out))
            && All(ty, t, n) == All(ty, t, n - 1) + Under(n - 1, AllOf(ty, f))
  {
    FieldIsFlat(ty, t, n - 1);
  }

  /** Only real paths, below the first n fields of t. */
  ghost predicate Real(ty: Types, t: nat, n: nat, fs: seq<Found>) {
    forall k :: 0 <= k < |fs| ==>
      fs[k].path != [] && fs[k].path[0] < n && Leads(ty, t, fs[k].path, fs[k].field)
  }

  ghost predicate RealFrom(ty: Types, f: Field, fs: seq<Found>) {
    forall k :: 0 <= k < |fs| ==> LeadsFrom(ty, f, fs[k].path, fs[k].field)
  }

  lemma RealMore(ty: Types, t: nat, n: nat, fs: seq<Found>, gs: seq<Found>)
    requires t < |ty| && n < |FieldsOf(ty[t])| && Real(ty, t, n, fs) && RealFrom(ty, FieldsOf(ty[t])[n], gs)
    ensures Real(ty, t, n + 1, fs + Under(n, gs))
  {
    forall k | 0 <= k < |gs| ensures Leads(ty, t, Under(n, gs)[k].path, gs[k].field) {
      assert LeadsFrom(ty, FieldsOf(ty[t])[n], gs[k].path, gs[k].field);
      LeadsInto(ty, t, n, gs[k].path, gs[k].field);
    }
  }

  lemma {:induction false} AllSound(ty: Types, t: nat, n: nat)
    requires Flat(ty, t) && n <= |FieldsOf(ty[t])|
    ensures Real(ty, t, n, All(ty, t, n))
    decreases Height(ty, t), n, 1
  {
    if n > 0 {
      WalkStep(ty, t, n, []);
      AllSound(ty, t, n - 1);
      AllOfSound(ty, FieldsOf(ty[t])[n - 1]);
      RealMore(ty, t, n - 1, All(ty, t, n - 1), AllOf(ty, FieldsOf(ty[t])[n - 1]));
    }
  }

  lemma AllOfSound(ty: Types, f: Field)
    requires Embedded(f) ==> Flat(ty, f.typ)
    ensures RealFrom(ty, f, AllOf(ty, f))
    decreases if Embedded(f) then Height(ty, f.typ) + 1 else 0, 0, 0
  {
    forall u ensures StandsFor(ty, f, u) <==> Flattened(ty, f) && u == Deref(ty, f.typ) { StandsForDeref(ty, f, u); }
    if !Skipped(f) && Flattened(ty, f) {
      AllSound(ty, Deref(ty, f.typ), |FieldsOf(ty[Deref(ty, f.typ)])|);
    }
  }

  lemma {:induction false} AllHas(ty: Types, t: nat, n: nat, i: nat, e: Found)
    requires Flat(ty, t) && i < n <= |FieldsOf(ty[t])|
    requires (Embedded(FieldsOf(ty[t])[i]) ==> Flat(ty, FieldsOf(ty[t])[i].typ)) && e in AllOf(ty, FieldsOf(ty[t])[i])
    ensures Found([i] + e.path, e.field) in All(ty, t, n)
  {
    var f := FieldsOf(ty[t])[n - 1];
    WalkStep(ty, t, n, []);
    if i < n - 1 { AllHas(ty, t, n - 1, i, e); } else { UnderHas(i, AllOf(ty, f), e); }
    InEither(Found([i] + e.path, e.field), All(ty, t, n - 1), Under(n - 1, AllOf(ty, f)), All(ty, t, n));
  }

  lemma InEither(e: Found, fs: seq<Found>, gs: seq<Found>, all: seq<Found>)
    requires (e in fs || e in gs) && all == fs + gs
    ensures e in all
  {
  }

  /** Every path is found. */
  lemma {:induction false} AllComplete(ty: Types, t: nat, path: seq<nat>, g: Field)
    requires Flat(ty, t) && Leads(ty, t, path, g)
    ensures Found(path, g) in All(ty, t, |FieldsOf(ty[t])|)
    decreases Height(ty, t), 0, 1
  {
    var i, rest := LeadsOn(ty, t, path, g);
    FieldIsFlat(ty, t, i);
    AllOfComplete(ty, FieldsOf(ty[t])[i], rest, g);
    AllHas(ty, t, |FieldsOf(ty[t])|, i, Found(rest, g));
  }

  lemma LeadsOn(ty: Types, t: nat, path: seq<nat>, g: Field) returns (i: nat, rest: seq<nat>)
    requires Leads(ty, t, path, g)
    ensures i < |FieldsOf(ty[t])| && path == [i] + rest && LeadsFrom(ty, FieldsOf(ty[t])[i], rest, g)
  {
    i, rest := path[0], path[1..];
    assert path == [i] + rest;
    LeadsInto(ty, t, i, rest, g);
  }

  lemma UnderHas(i: nat, fs: seq<Found>, e: Found)
    requires e in fs
    ensures Found([i] + e.path, e.field) in Under(i, fs)
  {
    var k :| 0 <= k < |fs| && fs[k] == e;
    assert Under(i, fs)[k] == Found([i] + e.path, e.field);
  }

  lemma AllOfComplete(ty: Types, f: Field, path: seq<nat>, g: Field)
    requires (Embedded(f) ==> Flat(ty, f.typ)) && LeadsFrom(ty, f, path, g)
    ensures Found(path, g) in AllOf(ty, f)
    decreases if Embedded(f) then Height(ty, f.typ) + 1 else 0, 0, 0
  {
    forall u ensures StandsFor(ty, f, u) <==> Flattened(ty, f) && u == Deref(ty, f.typ) { StandsForDeref(ty, f, u); }
    if path != [] {
      var u := Deref(ty, f.typ);
      assert Leads(ty, u, path, g);
      AllComplete(ty, u, path, g);
    } else {
      StandsForNone(ty, f);
    }
  }

  lemma StandsForNone(ty: Types, f: Field)
    requires (Embedded(f) ==> Flat(ty, f.typ)) && !exists u :: StandsFor(ty, f, u)
    ensures !Flattened(ty, f)
  {
    if Flattened(ty, f) { StandsForDeref(ty, f, Deref(ty, f.typ)); }
  }

  ghost predicate Sorted(fs: seq<Found>) {
    forall i, j :: 0 <= i < j < |fs| ==> Before(fs[i].path, fs[j].path)
  }

  lemma UnderSorted(i: nat, fs: seq<Found>)
    requires Sorted(fs)
    ensures Sorted(Under(i, fs))
  {
    var r := Under(i, fs);
    forall a, b | 0 <= a < b < |r| ensures Before(r[a].path, r[b].path) {
      assert r[a].path[1..] == fs[a].path && r[b].path[1..] == fs[b].path;
      assert Before(fs[a].path, fs[b].path);
    }
  }

  lemma JoinSorted(fs: seq<Found>, i: nat, gs: seq<Found>)
    requires Sorted(fs) && Sorted(gs)
    requires forall k :: 0 <= k < |fs| ==> fs[k].path != [] && fs[k].path[0] < i
    requires forall k :: 0 <= k < |gs| ==> gs[k].path != [] && gs[k].path[0] == i
    ensures Sorted(fs + gs)
  {
    var r := fs + gs;
    forall a, b | 0 <= a < b < |r| ensures Before(r[a].path, r[b].path) {
      if b < |fs| {
        assert Before(fs[a].path, fs[b].path);
      } else if a >= |fs| {
        assert Before(gs[a - |fs|].path, gs[b - |fs|].path);
      }
    }
  }

  /** Paths are found in order. */
  lemma {:induction false} AllSorted(ty: Types, t: nat, n: nat)
    requires Flat(ty, t) && n <= |FieldsOf(ty[t])|
    ensures Sorted(All(ty, t, n))
    decreases Height(ty, t), n, 1
  {
    if n > 0 {
      FieldIsFlat(ty, t, n - 1);
      AllSorted(ty, t, n - 1);
      AllSound(ty, t, n - 1);
      var f := FieldsOf(ty[t])[n - 1];
      AllOfSorted(ty, f);
      UnderSorted(n - 1, AllOf(ty, f));
      JoinSorted(All(ty, t, n - 1), n - 1, Under(n - 1, AllOf(ty, f)));
    }
  }

  lemma AllOfSorted(ty: Types, f: Field)
    requires Embedded(f) ==> Flat(ty, f.typ)
    ensures Sorted(AllOf(ty, f))
    decreases if Embedded(f) then Height(ty, f.typ) + 1 else 0, 0, 0
  {
    if !Skipped(f) && Flattened(ty, f) { AllSorted(ty, Deref(ty, f.typ), |FieldsOf(ty[Deref(ty, f.typ)])|); }
  }

  // ---- the first of each name is listed ----

  function Adding(out: seq<FlatField>, fs: seq<Found>): seq<FlatField>
    decreases |fs|
  {
    if fs == [] then out else Listed(Adding(out, fs[..|fs| - 1]), fs[|fs| - 1].field)
  }

  lemma {:induction false} AddingConcat(out: seq<FlatField>, fs: seq<Found>, gs: seq<Found>)
    ensures Adding(out, fs + gs) == Adding(Adding(out, fs), gs)
    decreases |gs|
  {
    if gs == [] {
      assert fs + gs == fs;
    } else {
      AddingConcat(out, fs, gs[..|gs| - 1]);
      assert (fs + gs)[..|fs + gs| - 1] == fs + gs[..|gs| - 1];
    }
  }

  lemma {:induction false} AddingUnder(out: seq<FlatField>, i: nat, fs: seq<Found>)
    ensures Adding(out, Under(i, fs)) == Adding(out, fs)
    decreases |fs|
  {
    if fs != [] {
      AddingUnder(out, i, fs[..|fs| - 1]);
      assert Under(i, fs)[..|fs| - 1] == Under(i, fs[..|fs| - 1]);
    }
  }

  lemma AddingBelow(out: seq<FlatField>, fs: seq<Found>, i: nat, gs: seq<Found>, all: seq<Found>)
    requires all == fs + Under(i, gs)
    ensures Adding(out, all) == Adding(Adding(out, fs), gs)
  {
    AddingUnder(Adding(out, fs), i, gs);
    AddingConcat(out, fs, Under(i, gs));
  }

  lemma TurnAdds(ty: Types, t: nat, n: nat, out: seq<FlatField>, f: Field, before: seq<FlatField>, fs: seq<Found>)
    requires Flat(ty, t) && 0 < n <= |FieldsOf(ty[t])| && f == FieldsOf(ty[t])[n - 1]
    requires before == Walked(ty, t, n - 1, out) && fs == All(ty, t, n - 1) && before == Adding(out, fs)
    requires (Embedded(f) ==> Flat(ty, f.typ)) && Visited(ty, f, before) == Adding(before, AllOf(ty, f))
    ensures Walked(ty, t, n, out) == Adding(out, All(ty, t, n))
  {
    WalkStep(ty, t, n, out);
    AddingBelow(out, fs, n - 1, AllOf(ty, f), All(ty, t, n));
  }

  /** The walk lists the fields found, one after the other. */
  lemma {:induction false} WalkedAdds(ty: Types, t: nat, n: nat, out: seq<FlatField>)
    requires Flat(ty, t) && n <= |FieldsOf(ty[t])|
    ensures Walked(ty, t, n, out) == Adding(out, All(ty, t, n))
    decreases Height(ty, t), n, 1
  {
    if n > 0 {
      var f, before := FieldsOf(ty[t])[n - 1], Walked(ty, t, n - 1, out);
      FieldIsFlat(ty, t, n - 1);
      WalkedAdds(ty, t, n - 1, out);
      VisitedAdds(ty, f, before);
      TurnAdds(ty, t, n, out, f, before, All(ty, t, n - 1));
    }
  }

  lemma VisitedAdds(ty: Types, f: Field, before: seq<FlatField>)
    requires Embedded(f) ==> Flat(ty, f.typ)
    ensures Visited(ty, f, before) == Adding(before, AllOf(ty, f))
    decreases if Embedded(f) then Height(ty, f.typ) + 1 else 0, 0, 0
  {
    if !Skipped(f) {
      if Flattened(ty, f) {
        WalkedAdds(ty, Deref(ty, f.typ), |FieldsOf(ty[Deref(ty, f.typ)])|, before);
      } else {
        assert [Found([], f)][..0] == [];
      }
    }
  }

  lemma {:induction false} HasWitness(out: seq<FlatField>, n: nat, name: string) returns (k: nat)
    requires n <= |out| && HasIn(out, n, name)
    ensures k < n && out[k].name == name
  {
    if out[n - 1].name == name { k := n - 1; } else { k := HasWitness(out, n - 1, name); }
  }

  ghost predicate Rising(at: seq<nat>) {
    forall j, k :: 0 <= j < k < |at| ==> at[j] < at[k]
  }

  /** Entry k of the list is about field at[k] of those found. */
  ghost predicate About(fs: seq<Found>, out: seq<FlatField>, at: seq<nat>) {
    |at| == |out| && forall k :: 0 <= k < |out| ==> at[k] < |fs| && Says(out[k], fs[at[k]].field)
  }

  /** The name of g has an entry, about a field found at i or before it. */
  ghost predicate Covers(out: seq<FlatField>, at: seq<nat>, g: Field, i: nat)
    requires |at| == |out|
  {
    exists k :: 0 <= k < |out| && out[k].name == NameOf(g) && at[k] <= i
  }

  ghost predicate CoversAll(fs: seq<Found>, out: seq<FlatField>, at: seq<nat>)
    requires |at| == |out|
  {
    forall i :: 0 <= i < |fs| ==> Covers(out, at, fs[i].field, i)
  }

  /** The fields found that the list is about: no other field with an entry of its name is found before its own. */
  ghost predicate Chosen(fs: seq<Found>, out: seq<FlatField>, at: seq<nat>) {
    About(fs, out, at) && Rising(at) && CoversAll(fs, out, at)
  }

  lemma LastCovered(front: seq<Found>, last: Found, fs: seq<Found>, out: seq<FlatField>, at: seq<nat>)
    requires fs == front + [last] && |at| == |out|
    requires forall i :: 0 <= i < |front| ==> Covers(out, at, front[i].field, i)
    requires Covers(out, at, last.field, |front|)
    ensures CoversAll(fs, out, at)
  {
  }

  lemma NameTaken(front: seq<Found>, last: Found, before: seq<FlatField>, at: seq<nat>)
    requires Chosen(front, before, at) && Has(before, JsonName(last.field))
    ensures Chosen(front + [last], Listed(before, last.field), at)
  {
    var k := HasWitness(before, |before|, JsonName(last.field));
    LastCovered(front, last, front + [last], before, at);
  }

  lemma AboutMore(front: seq<Found>, last: Found, out: seq<FlatField>, at: seq<nat>, e: FlatField)
    requires About(front, out, at) && Rising(at) && Says(e, last.field)
    ensures About(front + [last], out + [e], at + [|front|]) && Rising(at + [|front|])
  {
  }

  lemma NameFree(front: seq<Found>, last: Found, before: seq<FlatField>, at: seq<nat>)
    requires Chosen(front, before, at) && !Has(before, JsonName(last.field))
    ensures Chosen(front + [last], Listed(before, last.field), at + [|front|])
  {
    var e := FlatField(NameOf(last.field), last.field.omitempty, last.field.typ);
    var out, more := before + [e], at + [|front|];
    AboutMore(front, last, before, at, e);
    forall i | 0 <= i < |front| ensures Covers(out, more, front[i].field, i) {
      StillCovers(before, at, front[i].field, i, e, |front|);
    }
    assert out[|before|] == e && more[|before|] == |front|;
    LastCovered(front, last, front + [last], out, more);
  }

  lemma StillCovers(out: seq<FlatField>, at: seq<nat>, g: Field, i: nat, e: FlatField, n: nat)
    requires |at| == |out| && Covers(out, at, g, i)
    ensures Covers(out + [e], at + [n], g, i)
  {
    var k :| 0 <= k < |out| && out[k].name == NameOf(g) && at[k] <= i;
    assert (out + [e])[k].name == NameOf(g) && (at + [n])[k] <= i;
  }

  lemma {:induction false} FirstWins(fs: seq<Found>) returns (at: seq<nat>)
    ensures Chosen(fs, Adding([], fs), at)
    decreases |fs|
  {
    if fs == [] {
      at := [];
    } else {
      var front, last := fs[..|fs| - 1], fs[|fs| - 1];
      assert fs == front + [last];
      at := FirstWins(front);
      at := ChooseNext(front, last, Adding([], front), at);
    }
  }

  lemma ChooseNext(front: seq<Found>, last: Found, before: seq<FlatField>, at: seq<nat>) returns (more: seq<nat>)
    requires Chosen(front, before, at)
    ensures Chosen(front + [last], Listed(before, last.field), more)
  {
    if Has(before, JsonName(last.field)) {
      NameTaken(front, last, before, at);
      return at;
    }
    NameFree(front, last, before, at);
    return at + [|front|];
  }

  // ---- main result ----

  function PathsAt(fs: seq<Found>, at: seq<nat>): (paths: seq<seq<nat>>)
    requires forall k :: 0 <= k < |at| ==> at[k] < |fs|
    ensures |paths| == |at| && forall k :: 0 <= k < |at| ==> paths[k] == fs[at[k]].path
  {
    seq(|at|, k requires 0 <= k < |at| => fs[at[k]].path)
  }

  /** The entry is about the field its path leads to. */
  ghost predicate SaysAt(ty: Types, t: nat, path: seq<nat>, e: FlatField) {
    exists g :: Leads(ty, t, path, g) && Says(e, g)
  }

  /** The name of g has an entry, for the path itself or for one before it. */
  ghost predicate Taken(out: seq<FlatField>, paths: seq<seq<nat>>, path: seq<nat>, g: Field)
    requires |paths| == |out|
  {
    exists k :: 0 <= k < |out| && out[k].name == NameOf(g) && (paths[k] == path || Before(paths[k], path))
  }

  lemma PathsSorted(fs: seq<Found>, at: seq<nat>, paths: seq<seq<nat>>)
    requires Sorted(fs) && Rising(at) && (forall k :: 0 <= k < |at| ==> at[k] < |fs|) && paths == PathsAt(fs, at)
    ensures forall j, k :: 0 <= j < k < |paths| ==> Before(paths[j], paths[k])
  {
    forall j, k | 0 <= j < k < |paths| ensures Before(paths[j], paths[k]) {
      assert at[j] < at[k];
      assert Before(fs[at[j]].path, fs[at[k]].path);
    }
  }

  lemma PathTaken(fs: seq<Found>, out: seq<FlatField>, at: seq<nat>, paths: seq<seq<nat>>, i: nat)
    requires Sorted(fs) && About(fs, out, at) && paths == PathsAt(fs, at)
    requires i < |fs| && Covers(out, at, fs[i].field, i)
    ensures Taken(out, paths, fs[i].path, fs[i].field)
  {
    var k :| 0 <= k < |out| && out[k].name == NameOf(fs[i].field) && at[k] <= i;
    if at[k] < i { assert Before(fs[at[k]].path, fs[i].path); }
  }

  lemma FoundIsTaken(fs: seq<Found>, out: seq<FlatField>, at: seq<nat>, paths: seq<seq<nat>>, path: seq<nat>, g: Field)
    requires Sorted(fs) && Chosen(fs, out, at) && paths == PathsAt(fs, at) && Found(path, g) in fs
    ensures Taken(out, paths, path, g)
  {
    var i :| 0 <= i < |fs| && fs[i] == Found(path, g);
    PathTaken(fs, out, at, paths, i);
  }

  lemma PathsSay(ty: Types, t: nat, n: nat, fs: seq<Found>, out: seq<FlatField>, at: seq<nat>, paths: seq<seq<nat>>)
    requires Real(ty, t, n, fs) && About(fs, out, at) && paths == PathsAt(fs, at)
    ensures forall k :: 0 <= k < |out| ==> SaysAt(ty, t, paths[k], out[k])
  {
    forall k | 0 <= k < |out| ensures SaysAt(ty, t, paths[k], out[k]) {
      assert Leads(ty, t, paths[k], fs[at[k]].field) && Says(out[k], fs[at[k]].field);
    }
  }

  /** Exactly this is listed: each entry is the name, the option and the type of a visible field of t, or of a struct
      reached through embedded fields, that does not stand for a struct itself; the entries are in the depth-first
      order of their paths; and each such field has its name listed for itself or for one that comes before it. */
  lemma FlatFieldsAreExact(ty: Types, t: nat) returns (paths: seq<seq<nat>>)
    requires Flat(ty, t)
    ensures var out := FlatFields(ty, t);
            && |paths| == |out|
            && (forall k :: 0 <= k < |out| ==> SaysAt(ty, t, paths[k], out[k]))
            && (forall j, k :: 0 <= j < k < |out| ==> Before(paths[j], paths[k]))
            && (forall path, g :: Leads(ty, t, path, g) ==> Taken(out, paths, path, g))
  {
    var n, out := |FieldsOf(ty[t])|, FlatFields(ty, t);
    var fs := All(ty, t, n);
    WalkedAdds(ty, t, n, []);
    var at := FirstWins(fs);
    paths := PathsAt(fs, at);
    AllSound(ty, t, n);
    AllSorted(ty, t, n);
    PathsSorted(fs, at, paths);
    PathsSay(ty, t, n, fs, out, at, paths);
    forall path, g | Leads(ty, t, path, g) ensures Taken(out, paths, path, g) {
      AllComplete(ty, t, path, g);
      FoundIsTaken(fs, out, at, paths, path, g);
    }
  }
}
