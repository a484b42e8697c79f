/** openrpc/schema.go: the types a schema is built from, as a finite graph that may be cyclic, and the flattening of
    embedded structs (flatFields). Types are numbered; a type refers to others by number. */
module TypeGraph {
  import opened Wrappers
  import WellFounded

  /** A struct field: fieldName is its Go name, tagName the part of the json tag before the first comma, dashed a tag
      that is just "-". */
  datatype Field = Field(fieldName: string, exported: bool, anonymous: bool, dashed: bool, tagName: string,
                         omitempty: bool, typ: nat)

  /** name is empty for an unnamed struct; full is the name qualified with the package. Plain stands for interfaces
      and for the kinds without a JSON form. */
  datatype Shape =
    | RawMessage
    | Time
    | Boolean
    | Integer
    | Uint8
    | Number
    | Text
    | Plain
    | Pointer(elem: nat)
    | Slice(elem: nat)
    | Map(elem: nat)
    | Struct(name: string, full: string, fields: seq<Field>)

  type Shapes = seq<Shape>

  /** What a schema has to say about one field. */
  datatype FlatField = FlatField(name: string, omitempty: bool, typ: nat)

  predicate InRange(shapes: Shapes, s: Shape) {
    match s
    case Pointer(e) => e < |shapes|
    case Slice(e) => e < |shapes|
    case Map(e) => e < |shapes|
    case Struct(_, _, fields) => forall i :: 0 <= i < |fields| ==> fields[i].typ < |shapes|
    case _ => true
  }

  /** All types referred to are there. */
  predicate Whole(shapes: Shapes) {
    forall t :: 0 <= t < |shapes| ==> InRange(shapes, shapes[t])
  }

  /** time.Time is a struct without exported fields. */
  function FieldsOf(s: Shape): seq<Field> {
    if s.Struct? then s.fields else []
  }

  predicate IsStruct(s: Shape) {
    s.Struct? || s.Time?
  }

  /** A named struct gets a definition of its own. */
  predicate Named(s: Shape) {
    s.Struct? && s.name != ""
  }

  predicate Skipped(f: Field) {
    !f.exported || f.dashed
  }

  predicate Embedded(f: Field) {
    !Skipped(f) && f.anonymous && f.tagName == ""
  }

  function JsonName(f: Field): string {
    if f.tagName == "" then f.fieldName else f.tagName
  }

  // ---- which types flatFields passes on the way ----

  function EmbeddedTypes(fields: seq<Field>): seq<nat> {
    if fields == [] then []
    else
      var k := |fields| - 1;
      EmbeddedTypes(fields[..k]) + if Embedded(fields[k]) then [fields[k].typ] else []
  }

  function WalkCalls(s: Shape): seq<nat> {
    match s
    case Pointer(e) => [e]
    case Struct(_, _, fields) => EmbeddedTypes(fields)
    case _ => []
  }

  function Walks(shapes: Shapes): (calls: WellFounded.Calls)
    ensures |calls| == |shapes| && forall t :: 0 <= t < |shapes| ==> calls[t] == WalkCalls(shapes[t])
  {
    seq(|shapes|, t requires 0 <= t < |shapes| => WalkCalls(shapes[t]))
  }

  lemma {:induction false} EmbeddedAt(fields: seq<Field>, i: nat)
    requires i < |fields| && Embedded(fields[i])
    ensures exists k :: 0 <= k < |EmbeddedTypes(fields)| && EmbeddedTypes(fields)[k] == fields[i].typ
  {
    var k := |fields| - 1;
    var front := EmbeddedTypes(fields[..k]);
    if i < k {
      EmbeddedAt(fields[..k], i);
      var j :| 0 <= j < |front| && front[j] == fields[i].typ;
      assert EmbeddedTypes(fields)[j] == front[j];
    } else {
      assert EmbeddedTypes(fields)[|front|] == fields[i].typ;
    }
  }

  type Types = shapes: Shapes | Whole(shapes) witness []

  lemma {:induction false} EmbeddedWithin(fields: seq<Field>, n: nat)
    requires forall i :: 0 <= i < |fields| ==> fields[i].typ < n
    ensures forall k :: 0 <= k < |EmbeddedTypes(fields)| ==> EmbeddedTypes(fields)[k] < n
    decreases |fields|
  {
    if fields != [] { EmbeddedWithin(fields[..|fields| - 1], n); }
  }

  lemma WalksWithin(ty: Types)
    ensures WellFounded.Within(Walks(ty))
  {
    forall t: nat, k | t < |ty| && 0 <= k < |Walks(ty)[t]| ensures Walks(ty)[t][k] < |ty| {
      assert InRange(ty, ty[t]);
      if ty[t].Struct? { EmbeddedWithin(ty[t].fields, |ty|); }
    }
  }

  /** How deep flattening goes, for the types on which it ends. */
  ghost function Heights(ty: Types): map<nat, nat> {
    WellFounded.Ranks(Walks(ty))
  }

  /** Flattening t ends: no struct on the way embeds itself, directly or through others, and no pointer type on the way
      is its own element. */
  ghost predicate Flat(ty: Types, t: nat) {
    t < |ty| && t in Heights(ty)
  }

  ghost function Height(ty: Types, t: nat): nat
    requires Flat(ty, t)
  {
    Heights(ty)[t] + 1
  }

  lemma EmbeddedIsSmaller(ty: Types, t: nat, i: nat)
    requires Flat(ty, t) && i < |FieldsOf(ty[t])| && Embedded(FieldsOf(ty[t])[i])
    ensures var u := FieldsOf(ty[t])[i].typ; Flat(ty, u) && Height(ty, u) < Height(ty, t)
  {
    EmbeddedAt(ty[t].fields, i);
    var k :| 0 <= k < |EmbeddedTypes(ty[t].fields)| && EmbeddedTypes(ty[t].fields)[k] == ty[t].fields[i].typ;
    assert Walks(ty)[t][k] == ty[t].fields[i].typ;
    assert InRange(ty, ty[t]);
    WellFounded.RanksDecrease(Walks(ty), t, k);
  }

  lemma ElemIsSmaller(ty: Types, t: nat)
    requires Flat(ty, t) && ty[t].Pointer?
    ensures Flat(ty, ty[t].elem) && Height(ty, ty[t].elem) < Height(ty, t)
  {
    assert Walks(ty)[t][0] == ty[t].elem;
    assert InRange(ty, ty[t]);
    WellFounded.RanksDecrease(Walks(ty), t, 0);
  }

  // ---- flatFields ----

  /** The type behind any number of pointers. */
  function Deref(ty: Types, t: nat): (u: nat)
    requires Flat(ty, t)
    ensures Flat(ty, u) && Height(ty, u) <= Height(ty, t) && !ty[u].Pointer?
    decreases Height(ty, t)
  {
    if ty[t].Pointer? then
      ElemIsSmaller(ty, t);
      assert InRange(ty, ty[t]);
      Deref(ty, ty[t].elem)
    else t
  }

  /** The name is that of one of the first n fields. */
  predicate HasIn(out: seq<FlatField>, n: nat, name: string)
    requires n <= |out|
  {
    n > 0 && (out[n - 1].name == name || HasIn(out, n - 1, name))
  }

  predicate Has(out: seq<FlatField>, name: string) {
    HasIn(out, |out|, name)
  }

  lemma {:induction false} HasInPrefix(out: seq<FlatField>, more: seq<FlatField>, n: nat, name: string)
    requires n <= |out| && out <= more
    ensures HasIn(more, n, name) == HasIn(out, n, name)
  {
    if n > 0 { HasInPrefix(out, more, n - 1, name); }
  }

  lemma {:induction false} HasInGrows(out: seq<FlatField>, m: nat, n: nat, name: string)
    requires m <= n <= |out| && HasIn(out, m, name)
    ensures HasIn(out, n, name)
  {
    if m < n { HasInGrows(out, m, n - 1, name); }
  }

  lemma {:induction false} HasInAt(out: seq<FlatField>, n: nat, k: nat)
    requires k < n <= |out|
    ensures HasIn(out, n, out[k].name)
  {
    if k < n - 1 { HasInAt(out, n - 1, k); }
  }

  /** A field that is listed, unless its name is taken already. */
  function Listed(out: seq<FlatField>, f: Field): seq<FlatField> {
    if Has(out, JsonName(f)) then out else out + [FlatField(JsonName(f), f.omitempty, f.typ)]
  }

  lemma FieldIsFlat(ty: Types, t: nat, i: nat)
    requires Flat(ty, t) && i < |FieldsOf(ty[t])|
    ensures var f := FieldsOf(ty[t])[i]; Embedded(f) ==> Flat(ty, f.typ) && Height(ty, f.typ) < Height(ty, t)
  {
    if Embedded(FieldsOf(ty[t])[i]) { EmbeddedIsSmaller(ty, t, i); }
  }

  /** A field that stands for the fields of the struct behind it. */
  predicate Flattened(ty: Types, f: Field)
    requires Embedded(f) ==> Flat(ty, f.typ)
  {
    Embedded(f) && IsStruct(ty[Deref(ty, f.typ)])
  }

  /** The list after the first n fields of t. */
  function Walked(ty: Types, t: nat, n: nat, out: seq<FlatField>): seq<FlatField>
    requires Flat(ty, t) && n <= |FieldsOf(ty[t])|
    decreases Height(ty, t), n, 1
  {
    if n == 0 then out
    else
      FieldIsFlat(ty, t, n - 1);
      Visited(ty, FieldsOf(ty[t])[n - 1], Walked(ty, t, n - 1, out))
  }

  /** What one turn of the loop makes of the list. */
  function Visited(ty: Types, f: Field, before: seq<FlatField>): seq<FlatField>
    requires Embedded(f) ==> Flat(ty, f.typ)
    decreases if Embedded(f) then Height(ty, f.typ) + 1 else 0, 0, 0
  {
    if Skipped(f) then before
    else if Flattened(ty, f) then
      var u := Deref(ty, f.typ);
      Walked(ty, u, |FieldsOf(ty[u])|, before)
    else Listed(before, f)
  }

  function FlatFields(ty: Types, t: nat): seq<FlatField>
    requires Flat(ty, t)
  {
    Walked(ty, t, |FieldsOf(ty[t])|, [])
  }

  /** flatFields with its captured variables. */
  class Flattener {
    var out: seq<FlatField>
    var seen: set<string>

    constructor ()
      ensures out == [] && seen == {}
    {
      out, seen := [], {};
    }

    ghost predicate Valid()
      reads this
    {
      forall name :: name in seen <==> Has(out, name)
    }

    method List(f: Field)
      requires Valid()
      modifies this
      ensures Valid() && out == Listed(old(out), f)
    {
      var name := f.tagName;
      if name == "" { name := f.fieldName; }
      if name in seen { return; }
      seen := seen + {name};
      out := out + [FlatField(name, f.omitempty, f.typ)];
      forall other ensures Has(Listed(old(out), f), other) <==> Has(old(out), other) || other == JsonName(f) {
        ListedHas(old(out), f, other);
      }
    }

    method Walk(ty: Types, t: nat)
      requires Flat(ty, t) && Valid()
      modifies this
      ensures Valid() && out == Walked(ty, t, |FieldsOf(ty[t])|, old(out))
      decreases Height(ty, t), 1
    {
      var fields := FieldsOf(ty[t]);
      for i := 0 to |fields|
        invariant Valid() && out == Walked(ty, t, i, old(out))
      {
        Visit(ty, t, i, old(out));
      }
    }

    /** One turn of the loop. */
    method Visit(ty: Types, t: nat, i: nat, ghost start: seq<FlatField>)
      requires Flat(ty, t) && i < |FieldsOf(ty[t])| && Valid() && out == Walked(ty, t, i, start)
      modifies this
      ensures Valid() && out == Walked(ty, t, i + 1, start)
      decreases Height(ty, t), 0
    {
      var f := FieldsOf(ty[t])[i];
      assert InRange(ty, ty[t]);
      if !f.exported || f.dashed { return; }
      if f.anonymous && f.tagName == "" {
        FieldIsFlat(ty, t, i);
        var ft := PointedTo(ty, f.typ);
        if IsStruct(ty[ft]) {
          Walk(ty, ft);
          return;
        }
      }
      List(f);
    }
  }

  /** The loop that strips pointers. */
  method PointedTo(ty: Types, t: nat) returns (u: nat)
    requires Flat(ty, t)
    ensures u == Deref(ty, t)
  {
    u := t;
    while ty[u].Pointer?
      invariant Flat(ty, u) && Deref(ty, u) == Deref(ty, t)
      decreases Height(ty, u)
    {
      ElemIsSmaller(ty, u);
      assert InRange(ty, ty[u]);
      u := ty[u].elem;
    }
  }

  lemma ListedHas(out: seq<FlatField>, f: Field, name: string)
    ensures Has(Listed(out, f), name) <==> Has(out, name) || name == JsonName(f)
  {
    HasInPrefix(out, Listed(out, f), |out|, name);
  }

  // ---- what the list is ----

  predicate Distinct(out: seq<FlatField>) {
    forall i, j :: 0 <= i < j < |out| ==> out[i].name != out[j].name
  }

  lemma ListedKeeps(out: seq<FlatField>, f: Field)
    ensures out <= Listed(out, f) && (Distinct(out) ==> Distinct(Listed(out, f)))
  {
    if !Has(out, JsonName(f)) {
      forall i | 0 <= i < |out| ensures out[i].name != JsonName(f) { HasInAt(out, |out|, i); }
    }
  }

  /** No JSON name is listed twice, and whoever is listed stays: an outer or earlier field wins. */
  lemma {:induction false} NamesDistinct(ty: Types, t: nat, n: nat, out: seq<FlatField>)
    requires Flat(ty, t) && n <= |FieldsOf(ty[t])|
    ensures out <= Walked(ty, t, n, out) && (Distinct(out) ==> Distinct(Walked(ty, t, n, out)))
    decreases Height(ty, t), n, 1
  {
    if n > 0 {
      NamesDistinct(ty, t, n - 1, out);
      FieldIsFlat(ty, t, n - 1);
      TurnDistinct(ty, FieldsOf(ty[t])[n - 1], Walked(ty, t, n - 1, out));
    }
  }

  lemma TurnDistinct(ty: Types, f: Field, before: seq<FlatField>)
    requires Embedded(f) ==> Flat(ty, f.typ)
    ensures before <= Visited(ty, f, before) && (Distinct(before) ==> Distinct(Visited(ty, f, before)))
    decreases if Embedded(f) then Height(ty, f.typ) + 1 else 0, 0, 0
  {
    if Skipped(f) {
    } else if Flattened(ty, f) {
      NamesDistinct(ty, Deref(ty, f.typ), |FieldsOf(ty[Deref(ty, f.typ)])|, before);
    } else {
      ListedKeeps(before, f);
    }
  }

  /** Every field of t with a place in the JSON form has its name in the list, whatever was listed before. */
  lemma {:induction false} FieldIsListed(ty: Types, t: nat, n: nat, out: seq<FlatField>, i: nat)
    requires Flat(ty, t) && i < n <= |FieldsOf(ty[t])|
    requires var f := FieldsOf(ty[t])[i];
             !Skipped(f) && (Embedded(f) ==> Flat(ty, f.typ)) && !Flattened(ty, f)
    ensures Has(Walked(ty, t, n, out), JsonName(FieldsOf(ty[t])[i]))
  {
    var name, last := JsonName(FieldsOf(ty[t])[i]), FieldsOf(ty[t])[n - 1];
    var before := Walked(ty, t, n - 1, out);
    FieldIsFlat(ty, t, n - 1);
    if i < n - 1 {
      FieldIsListed(ty, t, n - 1, out, i);
      TurnDistinct(ty, last, before);
      HasStill(before, Visited(ty, last, before), name);
    } else {
      ListedHas(before, last, name);
    }
  }

  lemma HasStill(out: seq<FlatField>, more: seq<FlatField>, name: string)
    requires out <= more && Has(out, name)
    ensures Has(more, name)
  {
    HasInPrefix(out, more, |out|, name);
    HasInGrows(more, |out|, |more|, name);
  }

  predicate InGraph(ty: Types, out: seq<FlatField>) {
    forall k :: 0 <= k < |out| ==> out[k].typ < |ty|
  }

  /** Every listed type is one of the graph. */
  lemma {:induction false} TypesInRange(ty: Types, t: nat, n: nat, out: seq<FlatField>)
    requires Flat(ty, t) && n <= |FieldsOf(ty[t])| && InGraph(ty, out)
    ensures InGraph(ty, Walked(ty, t, n, out))
    decreases Height(ty, t), n, 1
  {
    if n > 0 {
      TypesInRange(ty, t, n - 1, out);
      FieldIsFlat(ty, t, n - 1);
      assert InRange(ty, ty[t]);
      TurnInRange(ty, FieldsOf(ty[t])[n - 1], Walked(ty, t, n - 1, out));
    }
  }

  lemma TurnInRange(ty: Types, f: Field, before: seq<FlatField>)
    requires (Embedded(f) ==> Flat(ty, f.typ)) && f.typ < |ty| && InGraph(ty, before)
    ensures InGraph(ty, Visited(ty, f, before))
    decreases if Embedded(f) then Height(ty, f.typ) + 1 else 0, 0, 0
  {
    if !Skipped(f) && Flattened(ty, f) {
      TypesInRange(ty, Deref(ty, f.typ), |FieldsOf(ty[Deref(ty, f.typ)])|, before);
    }
  }

  // ---- when flatFields returns ----

  /** The pointer-stripping loop, cut off after fuel turns. */
  function DerefRun(ty: Types, t: nat, fuel: nat): (u: Option<nat>)
    requires t < |ty|
    ensures u.Some? ==> u.value < |ty|
    decreases fuel
  {
    if fuel == 0 then None
    else if !ty[t].Pointer? then Some(t)
    else
      assert InRange(ty, ty[t]);
      DerefRun(ty, ty[t].elem, fuel - 1)
  }

  /** The walk over the first n fields of t, cut off at depth fuel. */
  function WalkRun(ty: Types, t: nat, n: nat, out: seq<FlatField>, fuel: nat): Option<seq<FlatField>>
    requires t < |ty| && n <= |FieldsOf(ty[t])|
    decreases fuel, n, 0
  {
    if fuel == 0 then None
    else if n == 0 then Some(out)
    else
      match WalkRun(ty, t, n - 1, out, fuel)
      case None => None
      case Some(before) => VisitRun(ty, t, n - 1, before, fuel)
  }

  function VisitRun(ty: Types, t: nat, i: nat, before: seq<FlatField>, fuel: nat): Option<seq<FlatField>>
    requires t < |ty| && i < |FieldsOf(ty[t])| && fuel > 0
    decreases fuel, i, 1
  {
    var f := FieldsOf(ty[t])[i];
    assert InRange(ty, ty[t]);
    if Skipped(f) then Some(before)
    else if Embedded(f) then EmbeddedRun(ty, f, before, fuel - 1)
    else Some(Listed(before, f))
  }

  function EmbeddedRun(ty: Types, f: Field, before: seq<FlatField>, fuel: nat): Option<seq<FlatField>>
    requires f.typ < |ty|
    decreases fuel + 1, 0, 0
  {
    match DerefRun(ty, f.typ, fuel)
    case None => None
    case Some(u) => if IsStruct(ty[u]) then WalkRun(ty, u, |FieldsOf(ty[u])|, before, fuel) else Some(Listed(before, f))
  }

  /** flatFields, cut off at depth fuel. */
  function FlatRun(ty: Types, t: nat, fuel: nat): Option<seq<FlatField>>
    requires t < |ty|
  {
    WalkRun(ty, t, |FieldsOf(ty[t])|, [], fuel)
  }

  /** Stripping pointers from t ends at u, and u is flat: then so is t. */
  lemma {:induction false} FlatFromDeref(ty: Types, t: nat, fuel: nat)
    requires t < |ty| && DerefRun(ty, t, fuel).Some?
    requires IsStruct(ty[DerefRun(ty, t, fuel).value]) ==> Flat(ty, DerefRun(ty, t, fuel).value)
    ensures Flat(ty, t) && Deref(ty, t) == DerefRun(ty, t, fuel).value
    decreases fuel
  {
    if ty[t].Pointer? {
      assert InRange(ty, ty[t]);
      FlatFromDeref(ty, ty[t].elem, fuel - 1);
      WellFounded.RankFromCalls(Walks(ty), t);
    } else if !IsStruct(ty[t]) {
      WellFounded.RankFromCalls(Walks(ty), t);
    }
  }

  /** A walk that returns has met only flat embedded types, and lists what the specification lists. */
  lemma {:induction false} WalkReturns(ty: Types, t: nat, n: nat, out: seq<FlatField>, fuel: nat)
    requires t < |ty| && n <= |FieldsOf(ty[t])| && WalkRun(ty, t, n, out, fuel).Some?
    ensures forall i :: 0 <= i < n && Embedded(FieldsOf(ty[t])[i]) ==> Flat(ty, FieldsOf(ty[t])[i].typ)
    ensures Flat(ty, t) ==> WalkRun(ty, t, n, out, fuel) == Some(Walked(ty, t, n, out))
    decreases fuel, n, 1
  {
    if n > 0 {
      WalkReturns(ty, t, n - 1, out, fuel);
      var before := WalkRun(ty, t, n - 1, out, fuel).value;
      VisitReturns(ty, t, n - 1, before, fuel);
    }
  }

  lemma VisitReturns(ty: Types, t: nat, i: nat, before: seq<FlatField>, fuel: nat)
    requires t < |ty| && i < |FieldsOf(ty[t])| && fuel > 0 && VisitRun(ty, t, i, before, fuel).Some?
    ensures var f := FieldsOf(ty[t])[i];
            && (Embedded(f) ==> Flat(ty, f.typ))
            && VisitRun(ty, t, i, before, fuel) == Some(Visited(ty, f, before))
    decreases fuel, i, 2
  {
    var f := FieldsOf(ty[t])[i];
    assert InRange(ty, ty[t]);
    if Embedded(f) { EmbeddedReturns(ty, f, before, fuel - 1); }
  }

  lemma EmbeddedReturns(ty: Types, f: Field, before: seq<FlatField>, fuel: nat)
    requires f.typ < |ty| && Embedded(f) && EmbeddedRun(ty, f, before, fuel).Some?
    ensures Flat(ty, f.typ) && EmbeddedRun(ty, f, before, fuel) == Some(Visited(ty, f, before))
    decreases fuel + 1, 0, 0
  {
    var u := DerefRun(ty, f.typ, fuel).value;
    if IsStruct(ty[u]) { FlatRunReturns(ty, u, before, fuel); }
    FlatFromDeref(ty, f.typ, fuel);
  }

  lemma FlatRunReturns(ty: Types, t: nat, out: seq<FlatField>, fuel: nat)
    requires t < |ty| && IsStruct(ty[t]) && WalkRun(ty, t, |FieldsOf(ty[t])|, out, fuel).Some?
    ensures Flat(ty, t) && WalkRun(ty, t, |FieldsOf(ty[t])|, out, fuel) == Some(Walked(ty, t, |FieldsOf(ty[t])|, out))
    decreases fuel, |FieldsOf(ty[t])|, 2
  {
    WalkReturns(ty, t, |FieldsOf(ty[t])|, out, fuel);
    FlatFromEmbedded(ty, t);
  }

  lemma {:induction false} EmbeddedFrom(fields: seq<Field>, k: nat) returns (i: nat)
    requires k < |EmbeddedTypes(fields)|
    ensures i < |fields| && Embedded(fields[i]) && EmbeddedTypes(fields)[k] == fields[i].typ
    decreases |fields|
  {
    var last := |fields| - 1;
    if k < |EmbeddedTypes(fields[..last])| { i := EmbeddedFrom(fields[..last], k); } else { i := last; }
  }

  lemma FlatFromEmbedded(ty: Types, t: nat)
    requires t < |ty| && IsStruct(ty[t])
    requires forall i :: 0 <= i < |FieldsOf(ty[t])| && Embedded(FieldsOf(ty[t])[i]) ==> Flat(ty, FieldsOf(ty[t])[i].typ)
    ensures Flat(ty, t)
  {
    forall k | 0 <= k < |Walks(ty)[t]| ensures Walks(ty)[t][k] in Heights(ty) {
      var i := EmbeddedFrom(ty[t].fields, k);
      assert Flat(ty, FieldsOf(ty[t])[i].typ);
    }
    WellFounded.RankFromCalls(Walks(ty), t);
  }

  /** Flat types need no more fuel than their height. */
  lemma {:induction false} DerefEnough(ty: Types, t: nat, fuel: nat)
    requires Flat(ty, t) && fuel >= Height(ty, t)
    ensures DerefRun(ty, t, fuel) == Some(Deref(ty, t))
    decreases fuel
  {
    if ty[t].Pointer? {
      ElemIsSmaller(ty, t);
      DerefEnough(ty, ty[t].elem, fuel - 1);
    }
  }

  lemma {:induction false} WalkEnough(ty: Types, t: nat, n: nat, out: seq<FlatField>, fuel: nat)
    requires Flat(ty, t) && n <= |FieldsOf(ty[t])| && fuel >= Height(ty, t)
    ensures WalkRun(ty, t, n, out, fuel) == Some(Walked(ty, t, n, out))
    decreases fuel, n, 1
  {
    if n > 0 {
      WalkEnough(ty, t, n - 1, out, fuel);
      FieldIsFlat(ty, t, n - 1);
      VisitEnough(ty, t, n - 1, Walked(ty, t, n - 1, out), fuel);
    }
  }

  lemma VisitEnough(ty: Types, t: nat, i: nat, before: seq<FlatField>, fuel: nat)
    requires Flat(ty, t) && i < |FieldsOf(ty[t])| && fuel >= Height(ty, t)
    requires Embedded(FieldsOf(ty[t])[i]) ==> Flat(ty, FieldsOf(ty[t])[i].typ)
    ensures VisitRun(ty, t, i, before, fuel) == Some(Visited(ty, FieldsOf(ty[t])[i], before))
    decreases fuel, i, 2
  {
    var f := FieldsOf(ty[t])[i];
    FieldIsFlat(ty, t, i);
    if Embedded(f) { EmbeddedEnough(ty, f, before, fuel - 1); }
  }

  lemma EmbeddedEnough(ty: Types, f: Field, before: seq<FlatField>, fuel: nat)
    requires Embedded(f) && Flat(ty, f.typ) && fuel >= Height(ty, f.typ)
    ensures EmbeddedRun(ty, f, before, fuel) == Some(Visited(ty, f, before))
    decreases fuel + 1, 0, 0
  {
    DerefEnough(ty, f.typ, fuel);
    var u := Deref(ty, f.typ);
    if IsStruct(ty[u]) { WalkEnough(ty, u, |FieldsOf(ty[u])|, before, fuel); }
  }

  // More fuel gives the same result.

  lemma {:induction false} DerefMore(ty: Types, t: nat, fuel: nat, more: nat)
    requires t < |ty| && fuel <= more && DerefRun(ty, t, fuel).Some?
    ensures DerefRun(ty, t, more) == DerefRun(ty, t, fuel)
    decreases fuel
  {
    if ty[t].Pointer? {
      assert InRange(ty, ty[t]);
      DerefMore(ty, ty[t].elem, fuel - 1, more - 1);
    }
  }

  lemma {:induction false} WalkMore(ty: Types, t: nat, n: nat, out: seq<FlatField>, fuel: nat, more: nat)
    requires t < |ty| && n <= |FieldsOf(ty[t])| && fuel <= more && WalkRun(ty, t, n, out, fuel).Some?
    ensures WalkRun(ty, t, n, out, more) == WalkRun(ty, t, n, out, fuel)
    decreases fuel, n, 1
  {
    if n > 0 {
      WalkMore(ty, t, n - 1, out, fuel, more);
      VisitMore(ty, t, n - 1, WalkRun(ty, t, n - 1, out, fuel).value, fuel, more);
    }
  }

  lemma VisitMore(ty: Types, t: nat, i: nat, before: seq<FlatField>, fuel: nat, more: nat)
    requires t < |ty| && i < |FieldsOf(ty[t])| && 0 < fuel <= more && VisitRun(ty, t, i, before, fuel).Some?
    ensures VisitRun(ty, t, i, before, more) == VisitRun(ty, t, i, before, fuel)
    decreases fuel, i, 2
  {
    assert InRange(ty, ty[t]);
    if Embedded(FieldsOf(ty[t])[i]) { EmbeddedMore(ty, FieldsOf(ty[t])[i], before, fuel - 1, more - 1); }
  }

  lemma EmbeddedMore(ty: Types, f: Field, before: seq<FlatField>, fuel: nat, more: nat)
    requires f.typ < |ty| && fuel <= more && EmbeddedRun(ty, f, before, fuel).Some?
    ensures EmbeddedRun(ty, f, before, more) == EmbeddedRun(ty, f, before, fuel)
    decreases fuel + 1, 0, 0
  {
    DerefMore(ty, f.typ, fuel, more);
    var u := DerefRun(ty, f.typ, fuel).value;
    if IsStruct(ty[u]) { WalkMore(ty, u, |FieldsOf(ty[u])|, before, fuel, more); }
  }

  /** flatFields returns on a struct, with the list of the specification, exactly when the struct does not reach,
      through embedded fields and pointers, types that embed or point to each other for ever. */
  lemma FlatteningEnds(ty: Types, t: nat)
    requires t < |ty| && IsStruct(ty[t])
    ensures (exists fuel: nat :: FlatRun(ty, t, fuel).Some?) <==> !WellFounded.Reaches(Walks(ty), Walks(ty), t)
    ensures Flat(ty, t) <==> !WellFounded.Reaches(Walks(ty), Walks(ty), t)
    ensures forall fuel: nat :: FlatRun(ty, t, fuel).Some? ==>
              Flat(ty, t) && FlatRun(ty, t, fuel).value == FlatFields(ty, t)
  {
    WalksWithin(ty);
    WellFounded.EndsUnlessTrapped(Walks(ty), t);
    forall fuel: nat | FlatRun(ty, t, fuel).Some?
      ensures Flat(ty, t) && FlatRun(ty, t, fuel).value == FlatFields(ty, t)
    {
      FlatRunReturns(ty, t, [], fuel);
    }
    if Flat(ty, t) {
      WalkEnough(ty, t, |FieldsOf(ty[t])|, [], Height(ty, t));
      assert FlatRun(ty, t, Height(ty, t)).Some?;
    }
  }
}
