/** openrpc/schema.go: the builder that turns types into JSON schemas, one shared definition for each named struct. */
module SchemaBuilder {
  import opened Wrappers
  import opened TypeGraph
  import Decimal
  import Sets
  import WellFounded

  /** Ref(name) is "#/components/schemas/" + name; Any the empty schema. */
  datatype Schema =
    | Any
    | Scalar(typ: string, format: string, encoding: string)
    | ArrayOf(items: Schema)
    | MapOf(values: Schema)
    | Ref(name: string)
    | Object(properties: seq<Property>, required: seq<string>)

  datatype Property = Property(name: string, schema: Schema)

  function Encoded(): Schema { Scalar("string", "", "base64") }

  // ---- what schemaOf calls ----

  /** The types schemaOf goes on to for a type; for a named struct, those of its definition. */
  ghost function Callees(ty: Types, t: nat): seq<nat>
    requires t < |ty| && (ty[t].Struct? ==> Flat(ty, t))
  {
    match ty[t]
    case Pointer(e) => [e]
    case Slice(e) => if e < |ty| && ty[e].Uint8? then [] else [e]
    case Map(e) => [e]
    case Struct(_, _, _) => TypesOf(FlatFields(ty, t))
    case _ => []
  }

  function TypesOf(fs: seq<FlatField>): (ts: seq<nat>)
    ensures |ts| == |fs| && forall k :: 0 <= k < |fs| ==> ts[k] == fs[k].typ
  {
    seq(|fs|, k requires 0 <= k < |fs| => fs[k].typ)
  }

  lemma CalleesWithin(ty: Types, t: nat, k: nat)
    requires t < |ty| && (ty[t].Struct? ==> Flat(ty, t)) && k < |Callees(ty, t)|
    ensures Callees(ty, t)[k] < |ty|
  {
    assert InRange(ty, ty[t]);
    if ty[t].Struct? { TypesInRange(ty, t, |FieldsOf(ty[t])|, []); }
  }

  function Unnamed(ty: Types, ts: seq<nat>): seq<nat> {
    if ts == [] then []
    else
      var k := |ts| - 1;
      Unnamed(ty, ts[..k]) + if ts[k] < |ty| && Named(ty[ts[k]]) then [] else [ts[k]]
  }

  lemma {:induction false} UnnamedAt(ty: Types, ts: seq<nat>, i: nat) returns (k: nat)
    requires i < |ts| && ts[i] < |ty| && !Named(ty[ts[i]])
    ensures k < |Unnamed(ty, ts)| && Unnamed(ty, ts)[k] == ts[i]
  {
    var last := |ts| - 1;
    if i < last { k := UnnamedAt(ty, ts[..last], i); } else { k := |Unnamed(ty, ts[..last])|; }
  }

  lemma {:induction false} UnnamedWithin(ty: Types, ts: seq<nat>)
    requires forall i :: 0 <= i < |ts| ==> ts[i] < |ty|
    ensures forall k :: 0 <= k < |Unnamed(ty, ts)| ==> Unnamed(ty, ts)[k] < |ty| && !Named(ty[Unnamed(ty, ts)[k]])
    decreases |ts|
  {
    if ts != [] { UnnamedWithin(ty, ts[..|ts| - 1]); }
  }

  /** Where schemaOf goes from a type. A struct that cannot be flattened keeps it for ever. */
  ghost function VisitsAt(ty: Types, t: nat): seq<nat>
    requires t < |ty|
  {
    if ty[t].Struct? && !Flat(ty, t) then [t] else Callees(ty, t)
  }

  /** The same between two named structs, which are built once each. */
  ghost function LoopsAt(ty: Types, t: nat): seq<nat>
    requires t < |ty|
  {
    if ty[t].Struct? && !Flat(ty, t) then [t]
    else if Named(ty[t]) then []
    else Unnamed(ty, Callees(ty, t))
  }

  ghost function Visits(ty: Types): (calls: WellFounded.Calls)
    ensures |calls| == |ty| && forall t :: 0 <= t < |ty| ==> calls[t] == VisitsAt(ty, t)
  {
    seq(|ty|, t requires 0 <= t < |ty| => VisitsAt(ty, t))
  }

  ghost function Loops(ty: Types): (calls: WellFounded.Calls)
    ensures |calls| == |ty| && forall t :: 0 <= t < |ty| ==> calls[t] == LoopsAt(ty, t)
  {
    seq(|ty|, t requires 0 <= t < |ty| => LoopsAt(ty, t))
  }

  lemma LoopsWithin(ty: Types)
    ensures WellFounded.Within(Loops(ty))
  {
    forall t: nat, k | t < |ty| && 0 <= k < |Loops(ty)[t]| ensures Loops(ty)[t][k] < |ty| {
      if !(ty[t].Struct? && !Flat(ty, t)) && !Named(ty[t]) {
        forall i | 0 <= i < |Callees(ty, t)| ensures Callees(ty, t)[i] < |ty| { CalleesWithin(ty, t, i); }
        UnnamedWithin(ty, Callees(ty, t));
      }
    }
  }

  /** From t, through listed fields and the definitions of named structs, no types are reached that go on to each other
      for ever. */
  ghost predicate Builds(ty: Types, t: nat) {
    t < |ty| && t in WellFounded.FreeTo(Visits(ty), Loops(ty), |ty|)
  }

  lemma BuildsIs(ty: Types, t: nat)
    requires t < |ty|
    ensures Builds(ty, t) <==> !WellFounded.Reaches(Visits(ty), Loops(ty), t)
  {
    WellFounded.FreeToIs(Visits(ty), Loops(ty), |ty|, t);
  }

  lemma BuildsEnds(ty: Types, t: nat)
    requires Builds(ty, t)
    ensures t in WellFounded.Ranks(Loops(ty))
  {
    BuildsIs(ty, t);
    if t !in WellFounded.Ranks(Loops(ty)) {
      LoopsWithin(ty);
      var nodes := WellFounded.UnrankedIsTrap(Loops(ty), t);
      WellFounded.ReachesAtOnce(Visits(ty), Loops(ty), t, nodes);
    }
  }

  lemma BuildsFlat(ty: Types, t: nat)
    requires Builds(ty, t) && ty[t].Struct?
    ensures Flat(ty, t)
  {
    if !Flat(ty, t) {
      BuildsEnds(ty, t);
      assert Loops(ty)[t] == [t] && [t][0] == t;
      assert WellFounded.Trap(Loops(ty), {t});
      WellFounded.TrapIsUnranked(Loops(ty), {t}, t);
    }
  }

  lemma BuildsVisit(ty: Types, t: nat, k: nat)
    requires Builds(ty, t) && k < |Visits(ty)[t]| && Visits(ty)[t][k] < |ty|
    ensures Builds(ty, Visits(ty)[t][k])
  {
    BuildsIs(ty, t);
    BuildsIs(ty, Visits(ty)[t][k]);
    assert WellFounded.Step(Visits(ty), t, Visits(ty)[t][k]);
    if WellFounded.Reaches(Visits(ty), Loops(ty), Visits(ty)[t][k]) {
      WellFounded.ReachesBefore(Visits(ty), Loops(ty), t, Visits(ty)[t][k]);
    }
  }

  ghost function Fields(ty: Types, t: nat): seq<FlatField>
    requires Builds(ty, t) && ty[t].Struct?
  {
    BuildsFlat(ty, t);
    FlatFields(ty, t)
  }

  /** What a call of schemaOf may still cost in depth; nothing for a named struct. */
  ghost function Cost(ty: Types, t: nat): nat
    requires Builds(ty, t)
  {
    BuildsEnds(ty, t);
    if Named(ty[t]) then 0 else WellFounded.Ranks(Loops(ty))[t] + 1
  }

  lemma CalleeCosts(ty: Types, t: nat, i: nat)
    requires Builds(ty, t) && (ty[t].Struct? ==> Flat(ty, t)) && i < |Callees(ty, t)|
    ensures Builds(ty, Callees(ty, t)[i])
    ensures !Named(ty[t]) ==> Cost(ty, Callees(ty, t)[i]) < Cost(ty, t)
  {
    var u := Callees(ty, t)[i];
    CalleesWithin(ty, t, i);
    assert Visits(ty)[t][i] == u;
    BuildsVisit(ty, t, i);
    BuildsEnds(ty, t);
    BuildsEnds(ty, u);
    if !Named(ty[t]) && !Named(ty[u]) {
      var k := UnnamedAt(ty, Callees(ty, t), i);
      assert Loops(ty)[t][k] == u;
      WellFounded.RanksDecrease(Loops(ty), t, k);
    }
  }

  lemma FieldCosts(ty: Types, t: nat, k: nat)
    requires Builds(ty, t) && ty[t].Struct? && k < |Fields(ty, t)|
    ensures Builds(ty, Fields(ty, t)[k].typ)
    ensures !Named(ty[t]) ==> Cost(ty, Fields(ty, t)[k].typ) < Cost(ty, t)
  {
    BuildsFlat(ty, t);
    assert Callees(ty, t)[k] == Fields(ty, t)[k].typ;
    CalleeCosts(ty, t, k);
  }

  /** The element of a slice of bytes is not looked at. */
  predicate OfBytes(ty: Types, s: Shape) {
    s.Slice? && s.elem < |ty| && ty[s.elem].Uint8?
  }

  lemma ElemCosts(ty: Types, t: nat)
    requires Builds(ty, t) && !OfBytes(ty, ty[t])
    requires var s := ty[t]; s.Pointer? || s.Slice? || s.Map?
    ensures Builds(ty, ty[t].elem) && Cost(ty, ty[t].elem) < Cost(ty, t)
  {
    CalleeCosts(ty, t, 0);
  }

  // ---- the schema of a type under given names ----

  type Names = map<nat, string>

  ghost function SchemaUnder(ty: Types, names: Names, t: nat): Schema
    requires Builds(ty, t)
    decreases false, Cost(ty, t), 2, 0
  {
    match ty[t]
    case RawMessage => Any
    case Time => Scalar("string", "date-time", "")
    case Boolean => Scalar("boolean", "", "")
    case Integer => Scalar("integer", "", "")
    case Uint8 => Scalar("integer", "", "")
    case Number => Scalar("number", "", "")
    case Text => Scalar("string", "", "")
    case Plain => Any
    case Pointer(e) => ElemCosts(ty, t); SchemaUnder(ty, names, e)
    case Slice(e) => if OfBytes(ty, ty[t]) then Encoded() else ElemCosts(ty, t); ArrayOf(SchemaUnder(ty, names, e))
    case Map(e) => ElemCosts(ty, t); MapOf(SchemaUnder(ty, names, e))
    case Struct(name, _, _) =>
      if name == "" then Begun(ty, names, t, |Fields(ty, t)|) else if t in names then Ref(names[t]) else Any
  }

  ghost function ObjectUnder(ty: Types, names: Names, t: nat): Schema
    requires Builds(ty, t) && ty[t].Struct?
  {
    Begun(ty, names, t, |Fields(ty, t)|)
  }

  /** The object after its first n fields. */
  ghost function Begun(ty: Types, names: Names, t: nat, n: nat): (s: Schema)
    requires Builds(ty, t) && ty[t].Struct? && n <= |Fields(ty, t)|
    decreases Named(ty[t]), Cost(ty, t), 1, n + 1
  {
    Object(Props(ty, names, t, n), Required(Fields(ty, t), n))
  }

  ghost function Props(ty: Types, names: Names, t: nat, n: nat): (ps: seq<Property>)
    requires Builds(ty, t) && ty[t].Struct? && n <= |Fields(ty, t)|
    ensures |ps| == n
    decreases Named(ty[t]), Cost(ty, t), 1, n
  {
    if n == 0 then []
    else
      FieldCosts(ty, t, n - 1);
      var f := Fields(ty, t)[n - 1];
      Props(ty, names, t, n - 1) + [Property(f.name, SchemaUnder(ty, names, f.typ))]
  }

  /** The names of the first n fields without omitempty. */
  function Required(fs: seq<FlatField>, n: nat): seq<string>
    requires n <= |fs|
  {
    if n == 0 then [] else Required(fs, n - 1) + if fs[n - 1].omitempty then [] else [fs[n - 1].name]
  }

  /** The positions of the first n fields without omitempty. */
  ghost predicate RequiredAt(fs: seq<FlatField>, n: nat, at: seq<nat>)
    requires n <= |fs|
  {
    && (forall k :: 0 <= k < |at| ==> at[k] < n && !fs[at[k]].omitempty)
    && (forall j, k :: 0 <= j < k < |at| ==> at[j] < at[k])
    && (forall i :: 0 <= i < n && !fs[i].omitempty ==> i in at)
  }

  lemma RequiredMore(fs: seq<FlatField>, n: nat, at: seq<nat>)
    requires n < |fs| && RequiredAt(fs, n, at)
    ensures fs[n].omitempty ==> RequiredAt(fs, n + 1, at)
    ensures !fs[n].omitempty ==> RequiredAt(fs, n + 1, at + [n])
  {
    assert forall i :: i in at + [n] <==> i in at || i == n;
  }

  /** Required are exactly the names of the fields without omitempty, in their order. */
  lemma {:induction false} RequiredIs(fs: seq<FlatField>, n: nat) returns (at: seq<nat>)
    requires n <= |fs|
    ensures RequiredAt(fs, n, at)
    ensures |at| == |Required(fs, n)| && forall k :: 0 <= k < |at| ==> Required(fs, n)[k] == fs[at[k]].name
  {
    at := [];
    if n > 0 {
      at := RequiredIs(fs, n - 1);
      RequiredMore(fs, n - 1, at);
      if !fs[n - 1].omitempty { at := at + [n - 1]; }
    }
  }

  /** Every named struct the schema of t refers to is in the set. */
  ghost predicate Covered(ty: Types, t: nat, s: set<nat>)
    requires Builds(ty, t)
    decreases false, Cost(ty, t), 2, 0
  {
    match ty[t]
    case Pointer(e) => ElemCosts(ty, t); Covered(ty, e, s)
    case Slice(e) => OfBytes(ty, ty[t]) || (ElemCosts(ty, t); Covered(ty, e, s))
    case Map(e) => ElemCosts(ty, t); Covered(ty, e, s)
    case Struct(name, _, _) => if name == "" then FieldsCovered(ty, t, |Fields(ty, t)|, s) else t in s
    case _ => true
  }

  ghost predicate FieldsCovered(ty: Types, t: nat, n: nat, s: set<nat>)
    requires Builds(ty, t) && ty[t].Struct? && n <= |Fields(ty, t)|
    decreases Named(ty[t]), Cost(ty, t), 1, n
  {
    n == 0 || (FieldsCovered(ty, t, n - 1, s) && (FieldCosts(ty, t, n - 1); Covered(ty, Fields(ty, t)[n - 1].typ, s)))
  }

  /** The same of the definition of a struct. */
  ghost predicate BodyCovered(ty: Types, t: nat, s: set<nat>)
    requires Builds(ty, t) && ty[t].Struct?
  {
    FieldsCovered(ty, t, |Fields(ty, t)|, s)
  }

  lemma {:induction false} CoveredMore(ty: Types, t: nat, s: set<nat>, more: set<nat>)
    requires Builds(ty, t) && s <= more && Covered(ty, t, s)
    ensures Covered(ty, t, more)
    decreases false, Cost(ty, t), 2, 0
  {
    match ty[t]
    case Pointer(e) => ElemCosts(ty, t); CoveredMore(ty, e, s, more);
    case Slice(e) => if !OfBytes(ty, ty[t]) { ElemCosts(ty, t); CoveredMore(ty, e, s, more); }
    case Map(e) => ElemCosts(ty, t); CoveredMore(ty, e, s, more);
    case Struct(name, _, _) => if name == "" { FieldsCoveredMore(ty, t, |Fields(ty, t)|, s, more); }
    case _ =>
  }

  lemma {:induction false} FieldsCoveredMore(ty: Types, t: nat, n: nat, s: set<nat>, more: set<nat>)
    requires Builds(ty, t) && ty[t].Struct? && n <= |Fields(ty, t)| && s <= more && FieldsCovered(ty, t, n, s)
    ensures FieldsCovered(ty, t, n, more)
    decreases Named(ty[t]), Cost(ty, t), 1, n
  {
    if n > 0 {
      FieldCosts(ty, t, n - 1);
      FieldsCoveredMore(ty, t, n - 1, s, more);
      CoveredMore(ty, Fields(ty, t)[n - 1].typ, s, more);
    }
  }

  lemma {:induction false} FieldCovered(ty: Types, t: nat, n: nat, s: set<nat>, i: nat)
    requires Builds(ty, t) && ty[t].Struct? && i < n <= |Fields(ty, t)| && FieldsCovered(ty, t, n, s)
    ensures Builds(ty, Fields(ty, t)[i].typ) && Covered(ty, Fields(ty, t)[i].typ, s)
    decreases n
  {
    FieldCosts(ty, t, n - 1);
    if i < n - 1 { FieldCovered(ty, t, n - 1, s, i); }
  }

  /** more only adds names. */
  ghost predicate Extends(names: Names, more: Names) {
    forall u :: u in names ==> u in more && more[u] == names[u]
  }

  /** Names added later do not change a schema whose references were all there. */
  lemma {:induction false} SchemaStays(ty: Types, names: Names, more: Names, t: nat)
    requires Builds(ty, t) && Extends(names, more) && Covered(ty, t, names.Keys)
    ensures SchemaUnder(ty, more, t) == SchemaUnder(ty, names, t)
    decreases false, Cost(ty, t), 2, 0
  {
    match ty[t]
    case Pointer(e) => ElemCosts(ty, t); SchemaStays(ty, names, more, e);
    case Slice(e) => if !OfBytes(ty, ty[t]) { ElemCosts(ty, t); SchemaStays(ty, names, more, e); }
    case Map(e) => ElemCosts(ty, t); SchemaStays(ty, names, more, e);
    case Struct(name, _, _) => if name == "" { PropsStay(ty, names, more, t, |Fields(ty, t)|); }
    case _ =>
  }

  lemma {:induction false} PropsStay(ty: Types, names: Names, more: Names, t: nat, n: nat)
    requires Builds(ty, t) && ty[t].Struct? && n <= |Fields(ty, t)|
    requires Extends(names, more) && FieldsCovered(ty, t, n, names.Keys)
    ensures Props(ty, more, t, n) == Props(ty, names, t, n)
    decreases Named(ty[t]), Cost(ty, t), 1, n
  {
    if n > 0 {
      FieldCosts(ty, t, n - 1);
      PropsStay(ty, names, more, t, n - 1);
      SchemaStays(ty, names, more, Fields(ty, t)[n - 1].typ);
    }
  }

  // ---- names of definitions ----

  type Defs = map<string, Option<Schema>>

  predicate AllowedChar(c: char) {
    'a' <= c <= 'z' || 'A' <= c <= 'Z' || '0' <= c <= '9' || c == '_' || c == '.'
  }

  predicate Clean(s: string) {
    forall i :: 0 <= i < |s| ==> AllowedChar(s[i])
  }

  function SanitizeName(s: string): (r: string)
    ensures Clean(r) && |r| == |s|
    ensures forall i :: 0 <= i < |s| ==> r[i] == if AllowedChar(s[i]) then s[i] else '_'
    ensures Clean(s) ==> r == s
  {
    seq(|s|, i requires 0 <= i < |s| => if AllowedChar(s[i]) then s[i] else '_')
  }

  function Itoa(n: nat): (s: string)
    ensures |s| == |Decimal.Print(n)| && Clean(s)
  {
    seq(|Decimal.Print(n)|, i requires 0 <= i < |Decimal.Print(n)| =>
      assert Decimal.IsDigit(Decimal.Print(n)[i]); Decimal.Print(n)[i] as char)
  }

  lemma ItoaInjective(m: nat, n: nat)
    requires Itoa(m) == Itoa(n)
    ensures m == n
  {
    var a, b := Decimal.Print(m), Decimal.Print(n);
    forall i | 0 <= i < |a| ensures a[i] == b[i] { assert Itoa(m)[i] == Itoa(n)[i]; }
    Decimal.PrintInjective(m, n);
  }

  /** The names defName tries, in turn: the plain name, the qualified one, then qualified_2, qualified_3, ... */
  function Candidate(name: string, full: string, k: nat): (c: string)
    ensures Clean(c)
  {
    if k == 0 then SanitizeName(name)
    else if k == 1 then SanitizeName(full)
    else SanitizeName(full) + "_" + Itoa(k)
  }

  /** After the first, no candidate repeats. */
  lemma CandidatesDiffer(name: string, full: string, j: nat, k: nat)
    requires 1 <= j < k
    ensures Candidate(name, full, j) != Candidate(name, full, k)
  {
    var base := SanitizeName(full);
    var a, b := Candidate(name, full, j), Candidate(name, full, k);
    if j > 1 && a == b {
      assert a[|base| + 1..] == Itoa(j) && b[|base| + 1..] == Itoa(k);
      ItoaInjective(j, k);
    }
  }

  ghost predicate AllTaken(defs: Defs, name: string, full: string, k: nat) {
    forall j :: 0 <= j < k ==> Candidate(name, full, j) in defs
  }

  /** Candidate k is the first that is not taken. */
  ghost predicate FirstFree(defs: Defs, name: string, full: string, k: nat) {
    Candidate(name, full, k) !in defs && AllTaken(defs, name, full, k)
  }

  ghost function Candidates(name: string, full: string, k: nat): set<string> {
    set j | 1 <= j < k :: Candidate(name, full, j)
  }

  lemma {:induction false} CandidatesMany(name: string, full: string, k: nat)
    requires k > 0
    ensures |Candidates(name, full, k)| == k - 1
  {
    if k == 1 {
      assert Candidates(name, full, k) == {};
    } else {
      CandidatesMany(name, full, k - 1);
      var last := Candidate(name, full, k - 1);
      assert Candidates(name, full, k) == Candidates(name, full, k - 1) + {last};
      forall j | 1 <= j < k - 1 ensures Candidate(name, full, j) != last { CandidatesDiffer(name, full, j, k - 1); }
    }
  }

  /** Only so many names can be taken. */
  lemma {:induction false} SomeFree(defs: Defs, name: string, full: string, k: nat) returns (free: nat)
    requires AllTaken(defs, name, full, k)
    ensures FirstFree(defs, name, full, free)
    decreases |defs| + 2 - k
  {
    if Candidate(name, full, k) !in defs { return k; }
    if k > 0 {
      CandidatesMany(name, full, k);
      Sets.SubsetSize(Candidates(name, full, k), defs.Keys);
    }
    free := SomeFree(defs, name, full, k + 1);
  }

  /** The name defName picks. */
  ghost function NameFor(defs: Defs, name: string, full: string): (r: string)
    ensures r !in defs && Clean(r)
  {
    assert exists k: nat :: FirstFree(defs, name, full, k) by { var k := SomeFree(defs, name, full, 0); }
    var k: nat :| FirstFree(defs, name, full, k);
    Candidate(name, full, k)
  }

  lemma FirstFreeUnique(defs: Defs, name: string, full: string, k: nat)
    requires FirstFree(defs, name, full, k)
    ensures NameFor(defs, name, full) == Candidate(name, full, k)
  {
    forall j: nat | FirstFree(defs, name, full, j) ensures j == k {
      assert j < k ==> Candidate(name, full, j) in defs;
      assert k < j ==> Candidate(name, full, k) in defs;
    }
  }

  method DefName(defs: Defs, name: string, full: string) returns (r: string)
    ensures r == NameFor(defs, name, full)
  {
    ghost var free := SomeFree(defs, name, full, 0);
    FirstFreeUnique(defs, name, full, free);
    r := SanitizeName(name);
    assert r == Candidate(name, full, 0);
    if r !in defs { return; }
    var qualified := SanitizeName(full);
    var i := 2;
    while qualified in defs
      invariant 2 <= i && i - 1 <= free && qualified == Candidate(name, full, i - 1)
      decreases free - (i - 1)
    {
      qualified := SanitizeName(full) + "_" + Itoa(i);
      i := i + 1;
    }
    FirstFreeIsFirst(defs, name, full, free, i - 1);
    r := qualified;
  }

  lemma FirstFreeIsFirst(defs: Defs, name: string, full: string, free: nat, k: nat)
    requires FirstFree(defs, name, full, free) && k <= free && Candidate(name, full, k) !in defs
    ensures k == free
  {
  }

  // ---- the builder ----

  /** Two types never share a name. */
  ghost predicate Injective(names: Names) {
    forall u, v {:trigger SameName(names, u, v)} :: SameName(names, u, v) ==> u == v
  }

  ghost predicate SameName(names: Names, u: nat, v: nat) {
    u in names && v in names && names[u] == names[v]
  }

  /** The definition of u: still nil while u is being built, and otherwise complete. */
  ghost predicate Defined(ty: Types, defs: Defs, names: Names, stack: set<nat>, u: nat)
    requires u in names
  {
    && Builds(ty, u) && Named(ty[u]) && names[u] in defs
    && (defs[names[u]] == None <==> u in stack)
    && (u !in stack ==> BodyCovered(ty, u, names.Keys) && defs[names[u]] == Some(ObjectUnder(ty, names, u)))
  }

  ghost predicate AllDefined(ty: Types, defs: Defs, names: Names, stack: set<nat>) {
    forall u {:trigger Defined(ty, defs, names, stack, u)} :: u in names ==> Defined(ty, defs, names, stack, u)
  }

  ghost predicate HasOwner(names: Names, name: string) {
    exists u :: u in names && names[u] == name
  }

  /** Every definition belongs to a type, under a name that a reference may use. */
  ghost predicate Owned(defs: Defs, names: Names) {
    forall name :: name in defs ==> Clean(name) && HasOwner(names, name)
  }

  /** stack holds the named structs whose definitions are under way. */
  ghost predicate Consistent(ty: Types, defs: Defs, names: Names, stack: set<nat>) {
    && stack <= names.Keys
    && Injective(names) && Owned(defs, names) && AllDefined(ty, defs, names, stack)
  }

  /** A set of named structs that has every named struct its members refer to. */
  ghost predicate Closed(ty: Types, reach: set<nat>) {
    forall u {:trigger Opened(ty, reach, u)} :: u in reach ==> Opened(ty, reach, u)
  }

  ghost predicate Opened(ty: Types, reach: set<nat>, u: nat) {
    Builds(ty, u) && Named(ty[u]) && BodyCovered(ty, u, reach)
  }

  lemma OwnedMore(defs: Defs, names: Names, t: nat, name: string)
    requires Owned(defs, names) && t !in names && Clean(name)
    ensures Owned(defs[name := None], names[t := name])
  {
    var names' := names[t := name];
    forall n | n in defs[name := None] ensures Clean(n) && HasOwner(names', n) {
      if n == name { assert names'[t] == n; } else {
        var u :| u in names && names[u] == n;
        assert names'[u] == n;
      }
    }
  }

  lemma InjectiveMore(names: Names, t: nat, name: string)
    requires Injective(names) && t !in names && forall u :: u in names ==> names[u] != name
    ensures Injective(names[t := name])
  {
    var names' := names[t := name];
    forall u, v | SameName(names', u, v) ensures u == v {
      assert u != t && v != t ==> SameName(names, u, v);
    }
  }

  lemma DefinedMore(ty: Types, defs: Defs, names: Names, stack: set<nat>, t: nat, name: string, u: nat)
    requires u in names && Builds(ty, u) && Named(ty[u]) && Defined(ty, defs, names, stack, u)
    requires t !in names && name !in defs
    ensures Defined(ty, defs[name := None], names[t := name], stack + {t}, u)
  {
    if u !in stack {
      PropsStay(ty, names, names[t := name], u, |Fields(ty, u)|);
      FieldsCoveredMore(ty, u, |Fields(ty, u)|, names.Keys, names[t := name].Keys);
    }
  }

  /** defs[name] = nil, before the definition is built. */
  lemma Reserved(ty: Types, defs: Defs, names: Names, stack: set<nat>, t: nat, name: string)
    requires Consistent(ty, defs, names, stack) && Builds(ty, t) && Named(ty[t]) && t !in names
    requires name !in defs && Clean(name)
    ensures Consistent(ty, defs[name := None], names[t := name], stack + {t})
    ensures Extends(names, names[t := name])
  {
    OwnedMore(defs, names, t, name);
    forall u | u in names ensures names[u] != name { assert Defined(ty, defs, names, stack, u); }
    InjectiveMore(names, t, name);
    var names' := names[t := name];
    forall u | u in names' ensures Defined(ty, defs[name := None], names', stack + {t}, u) {
      if u != t {
        assert Defined(ty, defs, names, stack, u);
        DefinedMore(ty, defs, names, stack, t, name, u);
      }
    }
  }

  lemma DefinedStill(ty: Types, defs: Defs, names: Names, stack: set<nat>, t: nat, s: Schema, u: nat)
    requires t in names && u in names && u != t && names[u] != names[t] && Builds(ty, u) && Named(ty[u])
    requires Defined(ty, defs, names, stack + {t}, u)
    ensures Defined(ty, defs[names[t] := Some(s)], names, stack, u)
  {
  }

  lemma Completed(ty: Types, defs: Defs, names: Names, stack: set<nat>, t: nat)
    requires t in names && t !in stack && Consistent(ty, defs, names, stack + {t})
    requires Builds(ty, t) && Named(ty[t]) && BodyCovered(ty, t, names.Keys)
    ensures Consistent(ty, defs[names[t] := Some(ObjectUnder(ty, names, t))], names, stack)
  {
    var o := ObjectUnder(ty, names, t);
    var defs' := defs[names[t] := Some(o)];
    assert Defined(ty, defs, names, stack + {t}, t);
    forall u | u in names ensures Defined(ty, defs', names, stack, u) {
      if u != t {
        assert Defined(ty, defs, names, stack + {t}, u) && !SameName(names, u, t);
        DefinedStill(ty, defs, names, stack, t, o, u);
      }
    }
  }

  /** How many of the first n types are named structs still to be built. */
  ghost function Unbuilt(shapes: Shapes, names: Names, n: nat): nat
    requires n <= |shapes|
  {
    if n == 0 then 0
    else Unbuilt(shapes, names, n - 1) + if Named(shapes[n - 1]) && n - 1 !in names then 1 else 0
  }

  lemma {:induction false} UnbuiltSame(shapes: Shapes, names: Names, t: nat, name: string, n: nat)
    requires n <= t && n <= |shapes|
    ensures Unbuilt(shapes, names[t := name], n) == Unbuilt(shapes, names, n)
  {
    if n > 0 { UnbuiltSame(shapes, names, t, name, n - 1); }
  }

  lemma {:induction false} UnbuiltDrops(shapes: Shapes, names: Names, t: nat, name: string, n: nat)
    requires t < n <= |shapes| && Named(shapes[t]) && t !in names
    ensures Unbuilt(shapes, names[t := name], n) == Unbuilt(shapes, names, n) - 1
  {
    if t < n - 1 { UnbuiltDrops(shapes, names, t, name, n - 1); } else { UnbuiltSame(shapes, names, t, name, n - 1); }
  }

  ghost function Left(ty: Types, names: Names): nat {
    Unbuilt(ty, names, |ty|)
  }

  ghost predicate Within(names: Names, reach: set<nat>) {
    forall u :: u in names ==> u in reach
  }

  /** Consistent, and with at most left named structs still to be built; only those of reach ever are. */
  ghost predicate Ready(ty: Types, defs: Defs, names: Names, stack: set<nat>, reach: set<nat>, left: nat) {
    Consistent(ty, defs, names, stack) && Closed(ty, reach) && Within(names, reach) && Left(ty, names) <= left
  }

  // ---- the builder itself ----

  method ListFields(ty: Types, t: nat) returns (fs: seq<FlatField>)
    requires Builds(ty, t) && ty[t].Struct?
    ensures fs == Fields(ty, t)
  {
    BuildsFlat(ty, t);
    var flat := new Flattener();
    flat.Walk(ty, t);
    fs := flat.out;
  }

  /** s is the whole schema of t. */
  ghost predicate Answers(ty: Types, names: Names, t: nat, s: Schema)
    requires Builds(ty, t)
  {
    Covered(ty, t, names.Keys) && s == SchemaUnder(ty, names, t)
  }

  /** s is the object of t as far as field n. */
  ghost predicate Holds(ty: Types, names: Names, t: nat, n: nat, s: Schema)
    requires Builds(ty, t) && ty[t].Struct? && n <= |Fields(ty, t)|
  {
    FieldsCovered(ty, t, n, names.Keys) && s == Begun(ty, names, t, n)
  }

  class Builder {
    const ty: Types
    var defs: Defs
    var names: Names

    constructor (ty: Types)
      ensures this.ty == ty && names == map[] && Consistent(ty, defs, names, {})
    {
      this.ty, defs, names := ty, map[], map[];
    }

    /** The switch of schemaOf on a type that is not nil. */
    method TypeSchema(t: nat, ghost stack: set<nat>, ghost reach: set<nat>, ghost left: nat) returns (s: Schema)
      requires Ready(ty, defs, names, stack, reach, left)
      requires Builds(ty, t) && Covered(ty, t, reach)
      modifies this
      ensures Ready(ty, defs, names, stack, reach, left) && Extends(old(names), names)
      ensures Answers(ty, names, t, s)
      decreases left, false, Cost(ty, t), 3, 0
    {
      match ty[t] {
        case RawMessage => s := Any;
        case Time => s := Scalar("string", "date-time", "");
        case Boolean => s := Scalar("boolean", "", "");
        case Integer => s := Scalar("integer", "", "");
        case Uint8 => s := Scalar("integer", "", "");
        case Number => s := Scalar("number", "", "");
        case Text => s := Scalar("string", "", "");
        case Plain => s := Any;
        case Pointer(e) =>
          ElemCosts(ty, t);
          s := TypeSchema(e, stack, reach, left);
        case Slice(e) =>
          if OfBytes(ty, ty[t]) { s := Encoded(); } else {
            ElemCosts(ty, t);
            s := TypeSchema(e, stack, reach, left);
            s := ArrayOf(s);
          }
        case Map(e) =>
          ElemCosts(ty, t);
          s := TypeSchema(e, stack, reach, left);
          s := MapOf(s);
        case Struct(_, _, _) => s := StructSchema(t, stack, reach, left);
      }
    }

    method StructSchema(t: nat, ghost stack: set<nat>, ghost reach: set<nat>, ghost left: nat) returns (s: Schema)
      requires Ready(ty, defs, names, stack, reach, left)
      requires Builds(ty, t) && ty[t].Struct? && Covered(ty, t, reach)
      modifies this
      ensures Ready(ty, defs, names, stack, reach, left) && Extends(old(names), names)
      ensures Answers(ty, names, t, s)
      decreases left, false, Cost(ty, t), 2, 0
    {
      if ty[t].name == "" {
        s := ObjectSchema(t, stack, reach, left);
        return;
      }
      if t in names { return Ref(names[t]); }
      var name := DefName(defs, ty[t].name, ty[t].full);
      s := Define(t, name, stack, reach, left);
    }

    /** The definition of a named struct, reserved before it is built. */
    method Define(t: nat, name: string, ghost stack: set<nat>, ghost reach: set<nat>, ghost left: nat)
      returns (s: Schema)
      requires Ready(ty, defs, names, stack, reach, left)
      requires Builds(ty, t) && Named(ty[t]) && t !in names && t in reach
      requires name !in defs && Clean(name)
      modifies this
      ensures Ready(ty, defs, names, stack, reach, left) && Extends(old(names), names)
      ensures t in names && s == Ref(names[t])
      decreases left, false, Cost(ty, t), 1, 0
    {
      Reserved(ty, defs, names, stack, t, name);
      UnbuiltDrops(ty, names, t, name, |ty|);
      assert Opened(ty, reach, t);
      names := names[t := name];
      defs := defs[name := None];
      assert t in names;
      s := ObjectSchema(t, stack + {t}, reach, left - 1);
      Completed(ty, defs, names, stack, t);
      defs := defs[name := Some(s)];
      s := Ref(name);
    }

    method ObjectSchema(t: nat, ghost stack: set<nat>, ghost reach: set<nat>, ghost left: nat) returns (s: Schema)
      requires Ready(ty, defs, names, stack, reach, left)
      requires Builds(ty, t) && ty[t].Struct? && BodyCovered(ty, t, reach)
      modifies this
      ensures Ready(ty, defs, names, stack, reach, left) && Extends(old(names), names)
      ensures Holds(ty, names, t, |Fields(ty, t)|, s)
      decreases left, Named(ty[t]), Cost(ty, t), 1, 0
    {
      var fs := ListFields(ty, t);
      ghost var were := names;
      s := Object([], []);
      for i := 0 to |fs|
        invariant Ready(ty, defs, names, stack, reach, left) && Extends(were, names)
        invariant Holds(ty, names, t, i, s)
      {
        s := AddField(t, i, fs[i], s, were, stack, reach, left);
      }
    }

    /** One field of an object. */
    method AddField(t: nat, ghost i: nat, f: FlatField, s: Schema, ghost were: Names, ghost stack: set<nat>,
                    ghost reach: set<nat>, ghost left: nat)
      returns (more: Schema)
      requires Ready(ty, defs, names, stack, reach, left) && Extends(were, names)
      requires Builds(ty, t) && ty[t].Struct? && BodyCovered(ty, t, reach)
      requires i < |Fields(ty, t)| && f == Fields(ty, t)[i] && Holds(ty, names, t, i, s)
      modifies this
      ensures Ready(ty, defs, names, stack, reach, left) && Extends(were, names) && Holds(ty, names, t, i + 1, more)
      decreases left, Named(ty[t]), Cost(ty, t), 0, 0
    {
      ghost var before := names;
      FieldCosts(ty, t, i);
      FieldCovered(ty, t, |Fields(ty, t)|, reach, i);
      var p := TypeSchema(f.typ, stack, reach, left);
      FieldJoins(ty, before, names, t, i, s, p);
      more := s.(properties := s.properties + [Property(f.name, p)]);
      if !f.omitempty { more := more.(required := more.required + [f.name]); }
    }

    /** schemaOf; no type information gives the empty schema. */
    method SchemaOf(t: Option<nat>, ghost reach: set<nat>) returns (s: Schema)
      requires Consistent(ty, defs, names, {}) && Closed(ty, reach) && Within(names, reach)
      requires t.Some? ==> Builds(ty, t.value) && Covered(ty, t.value, reach)
      modifies this
      ensures Consistent(ty, defs, names, {}) && Extends(old(names), names) && Within(names, reach)
      ensures if t.None? then s == Any && defs == old(defs) && names == old(names) else Answers(ty, names, t.value, s)
    {
      if t.None? { return Any; }
      s := TypeSchema(t.value, {}, reach, Left(ty, names));
    }
  }

  lemma FieldJoins(ty: Types, names: Names, more: Names, t: nat, i: nat, s: Schema, p: Schema)
    requires Builds(ty, t) && ty[t].Struct? && i < |Fields(ty, t)| && Extends(names, more)
    requires Builds(ty, Fields(ty, t)[i].typ)
    requires Holds(ty, names, t, i, s) && Answers(ty, more, Fields(ty, t)[i].typ, p)
    ensures var f := Fields(ty, t)[i];
            var required := if f.omitempty then s.required else s.required + [f.name];
            Holds(ty, more, t, i + 1, Object(s.properties + [Property(f.name, p)], required))
  {
    FieldCosts(ty, t, i);
    PropsStay(ty, names, more, t, i);
    FieldsCoveredMore(ty, t, i, names.Keys, more.Keys);
  }

  // ---- which structs there are to build ----

  /** All named structs that can be built. */
  ghost function AllNamed(ty: Types): set<nat> {
    set u | 0 <= u < |ty| && Builds(ty, u) && Named(ty[u])
  }

  /** They cover every type that can be built, so they always serve as a closed set. */
  lemma {:induction false} AllNamedCovers(ty: Types, t: nat)
    requires Builds(ty, t)
    ensures Covered(ty, t, AllNamed(ty))
    decreases false, Cost(ty, t), 2, 0
  {
    match ty[t]
    case Pointer(e) => ElemCosts(ty, t); AllNamedCovers(ty, e);
    case Slice(e) => if !OfBytes(ty, ty[t]) { ElemCosts(ty, t); AllNamedCovers(ty, e); }
    case Map(e) => ElemCosts(ty, t); AllNamedCovers(ty, e);
    case Struct(name, _, _) => if name == "" { AllNamedCoversFields(ty, t, |Fields(ty, t)|); }
    case _ =>
  }

  lemma {:induction false} AllNamedCoversFields(ty: Types, t: nat, n: nat)
    requires Builds(ty, t) && ty[t].Struct? && n <= |Fields(ty, t)|
    ensures FieldsCovered(ty, t, n, AllNamed(ty))
    decreases Named(ty[t]), Cost(ty, t), 1, n
  {
    if n > 0 {
      FieldCosts(ty, t, n - 1);
      AllNamedCoversFields(ty, t, n - 1);
      AllNamedCovers(ty, Fields(ty, t)[n - 1].typ);
    }
  }

  lemma AllNamedClosed(ty: Types)
    ensures Closed(ty, AllNamed(ty))
  {
    forall u | u in AllNamed(ty) ensures Opened(ty, AllNamed(ty), u) {
      AllNamedCoversFields(ty, u, |Fields(ty, u)|);
    }
  }

  // ---- main results: references ----

  /** Every reference in the schema leads to a finished definition. */
  ghost predicate Resolves(s: Schema, defs: Defs) {
    match s
    case ArrayOf(items) => Resolves(items, defs)
    case MapOf(values) => Resolves(values, defs)
    case Ref(name) => name in defs && defs[name].Some?
    case Object(ps, _) => AllResolve(ps, defs)
    case _ => true
  }

  ghost predicate AllResolve(ps: seq<Property>, defs: Defs) {
    forall i :: 0 <= i < |ps| ==> Resolves(ps[i].schema, defs)
  }

  lemma {:induction false} SchemaResolves(ty: Types, defs: Defs, names: Names, t: nat)
    requires Builds(ty, t) && Consistent(ty, defs, names, {}) && Covered(ty, t, names.Keys)
    ensures Resolves(SchemaUnder(ty, names, t), defs)
    decreases false, Cost(ty, t), 2, 0
  {
    match ty[t]
    case Pointer(e) => ElemCosts(ty, t); SchemaResolves(ty, defs, names, e);
    case Slice(e) => if !OfBytes(ty, ty[t]) { ElemCosts(ty, t); SchemaResolves(ty, defs, names, e); }
    case Map(e) => ElemCosts(ty, t); SchemaResolves(ty, defs, names, e);
    case Struct(name, _, _) =>
      if name == "" {
        PropsResolve(ty, defs, names, t, |Fields(ty, t)|);
      } else {
        assert Defined(ty, defs, names, {}, t);
      }
    case _ =>
  }

  lemma AllResolveMore(ps: seq<Property>, p: Property, defs: Defs)
    requires AllResolve(ps, defs) && Resolves(p.schema, defs)
    ensures AllResolve(ps + [p], defs)
  {
  }

  lemma {:induction false} PropsResolve(ty: Types, defs: Defs, names: Names, t: nat, n: nat)
    requires Builds(ty, t) && ty[t].Struct? && n <= |Fields(ty, t)|
    requires Consistent(ty, defs, names, {}) && FieldsCovered(ty, t, n, names.Keys)
    ensures AllResolve(Props(ty, names, t, n), defs)
    decreases Named(ty[t]), Cost(ty, t), 1, n
  {
    if n > 0 {
      var f := Fields(ty, t)[n - 1];
      FieldCosts(ty, t, n - 1);
      PropsResolve(ty, defs, names, t, n - 1);
      SchemaResolves(ty, defs, names, f.typ);
      AllResolveMore(Props(ty, names, t, n - 1), Property(f.name, SchemaUnder(ty, names, f.typ)), defs);
    }
  }

  /** Between calls every definition is there, under a name no other type has, and every reference in it resolves. */
  lemma ReferencesResolve(ty: Types, defs: Defs, names: Names, name: string)
    requires Consistent(ty, defs, names, {}) && name in defs
    ensures defs[name].Some? && Resolves(defs[name].value, defs)
    ensures exists u :: u in names && names[u] == name && forall v :: v in names && names[v] == name ==> v == u
  {
    assert HasOwner(names, name);
    var u :| u in names && names[u] == name;
    assert Defined(ty, defs, names, {}, u);
    PropsResolve(ty, defs, names, u, |Fields(ty, u)|);
    forall v | v in names && names[v] == name ensures v == u { assert SameName(names, v, u); }
  }

  // ---- main results: the document means what the types mean ----

  /** What a type or a schema says down to a depth of named structs; Cut is where the unfolding stops. */
  datatype Tree =
    | Cut
    | Leaf(s: Schema)
    | ListOf(items: Tree)
    | DictOf(values: Tree)
    | Record(fields: seq<Entry>, required: seq<string>)

  datatype Entry = Entry(name: string, tree: Tree)

  /** The type, unfolded. */
  ghost function Meaning(ty: Types, t: nat, depth: nat): Tree
    requires Builds(ty, t)
    decreases depth, false, Cost(ty, t), 2, 0
  {
    match ty[t]
    case RawMessage => Leaf(Any)
    case Time => Leaf(Scalar("string", "date-time", ""))
    case Boolean => Leaf(Scalar("boolean", "", ""))
    case Integer => Leaf(Scalar("integer", "", ""))
    case Uint8 => Leaf(Scalar("integer", "", ""))
    case Number => Leaf(Scalar("number", "", ""))
    case Text => Leaf(Scalar("string", "", ""))
    case Plain => Leaf(Any)
    case Pointer(e) => ElemCosts(ty, t); Meaning(ty, e, depth)
    case Slice(e) =>
      if e < |ty| && ty[e].Uint8? then Leaf(Scalar("string", "", "base64"))
      else ElemCosts(ty, t); ListOf(Meaning(ty, e, depth))
    case Map(e) => ElemCosts(ty, t); DictOf(Meaning(ty, e, depth))
    case Struct(name, _, _) =>
      var n := |Fields(ty, t)|;
      if name == "" then Record(Entries(ty, t, n, depth), Required(Fields(ty, t), n))
      else if depth == 0 then Cut
      else Record(Entries(ty, t, n, depth - 1), Required(Fields(ty, t), n))
  }

  ghost function Entries(ty: Types, t: nat, n: nat, depth: nat): seq<Entry>
    requires Builds(ty, t) && ty[t].Struct? && n <= |Fields(ty, t)|
    decreases depth, Named(ty[t]), Cost(ty, t), 1, n
  {
    if n == 0 then []
    else
      FieldCosts(ty, t, n - 1);
      Entries(ty, t, n - 1, depth) + [Entry(Fields(ty, t)[n - 1].name, Meaning(ty, Fields(ty, t)[n - 1].typ, depth))]
  }

  /** The schema, with references followed through the definitions. */
  ghost function Expand(defs: Defs, s: Schema, depth: nat): Tree
    decreases depth, s
  {
    match s
    case ArrayOf(items) => ListOf(Expand(defs, items, depth))
    case MapOf(values) => DictOf(Expand(defs, values, depth))
    case Ref(name) =>
      if depth == 0 || name !in defs || defs[name].None? then Cut else Expand(defs, defs[name].value, depth - 1)
    case Object(ps, required) => Record(ExpandAll(defs, ps, |ps|, depth), required)
    case _ => Leaf(s)
  }

  ghost function ExpandAll(defs: Defs, ps: seq<Property>, n: nat, depth: nat): seq<Entry>
    requires n <= |ps|
    decreases depth, ps, n
  {
    if n == 0 then []
    else ExpandAll(defs, ps, n - 1, depth) + [Entry(ps[n - 1].name, Expand(defs, ps[n - 1].schema, depth))]
  }

  lemma {:induction false} ExpandAllPrefix(defs: Defs, ps: seq<Property>, more: seq<Property>, n: nat, depth: nat)
    requires n <= |ps| && ps <= more
    ensures ExpandAll(defs, more, n, depth) == ExpandAll(defs, ps, n, depth)
    decreases n
  {
    if n > 0 { ExpandAllPrefix(defs, ps, more, n - 1, depth); }
  }

  /** However deep it is unfolded, through cycles too, the document says of a type what the type itself says. */
  lemma {:induction false} MeaningPreserved(ty: Types, defs: Defs, names: Names, t: nat, depth: nat)
    requires Builds(ty, t) && Consistent(ty, defs, names, {}) && Covered(ty, t, names.Keys)
    ensures Expand(defs, SchemaUnder(ty, names, t), depth) == Meaning(ty, t, depth)
    decreases depth, false, Cost(ty, t), 2, 0
  {
    var s := ty[t];
    if s.Pointer? || s.Slice? || s.Map? { ElemPreserved(ty, defs, names, t, depth); }
    else if s.Struct? { StructPreserved(ty, defs, names, t, depth); }
    else { ScalarPreserved(ty, defs, names, t, depth); }
  }

  lemma ScalarPreserved(ty: Types, defs: Defs, names: Names, t: nat, depth: nat)
    requires Builds(ty, t)
    requires var s := ty[t]; !s.Pointer? && !s.Slice? && !s.Map? && !s.Struct?
    ensures Expand(defs, SchemaUnder(ty, names, t), depth) == Meaning(ty, t, depth)
  {
  }

  lemma ElemPreserved(ty: Types, defs: Defs, names: Names, t: nat, depth: nat)
    requires Builds(ty, t) && Consistent(ty, defs, names, {}) && Covered(ty, t, names.Keys)
    requires var s := ty[t]; s.Pointer? || s.Slice? || s.Map?
    ensures Expand(defs, SchemaUnder(ty, names, t), depth) == Meaning(ty, t, depth)
    decreases depth, false, Cost(ty, t), 1, 0
  {
    if !OfBytes(ty, ty[t]) {
      ElemCosts(ty, t);
      MeaningPreserved(ty, defs, names, ty[t].elem, depth);
      SchemaAround(ty, names, t);
      MeaningAround(ty, t, depth);
      ExpandAround(defs, ty[t], SchemaUnder(ty, names, ty[t].elem), depth);
    }
  }

  /** What a schema says of a pointer, slice or map, given what it says of the element. */
  function Around(s: Shape, elem: Schema): Schema {
    if s.Slice? then ArrayOf(elem) else if s.Map? then MapOf(elem) else elem
  }

  function TreeAround(s: Shape, elem: Tree): Tree {
    if s.Slice? then ListOf(elem) else if s.Map? then DictOf(elem) else elem
  }

  lemma SchemaAround(ty: Types, names: Names, t: nat)
    requires Builds(ty, t) && !OfBytes(ty, ty[t])
    requires (ty[t].Pointer? || ty[t].Slice? || ty[t].Map?) && Builds(ty, ty[t].elem)
    ensures SchemaUnder(ty, names, t) == Around(ty[t], SchemaUnder(ty, names, ty[t].elem))
  {
  }

  lemma MeaningAround(ty: Types, t: nat, depth: nat)
    requires Builds(ty, t) && !OfBytes(ty, ty[t])
    requires (ty[t].Pointer? || ty[t].Slice? || ty[t].Map?) && Builds(ty, ty[t].elem)
    ensures Meaning(ty, t, depth) == TreeAround(ty[t], Meaning(ty, ty[t].elem, depth))
  {
  }

  lemma ExpandAround(defs: Defs, s: Shape, elem: Schema, depth: nat)
    ensures Expand(defs, Around(s, elem), depth) == TreeAround(s, Expand(defs, elem, depth))
  {
  }

  lemma StructPreserved(ty: Types, defs: Defs, names: Names, t: nat, depth: nat)
    requires Builds(ty, t) && ty[t].Struct? && Consistent(ty, defs, names, {}) && Covered(ty, t, names.Keys)
    ensures Expand(defs, SchemaUnder(ty, names, t), depth) == Meaning(ty, t, depth)
    decreases depth, false, Cost(ty, t), 1, |Fields(ty, t)| + 2
  {
    if Named(ty[t]) {
      if depth > 0 { DefinitionPreserved(ty, defs, names, t, depth - 1); }
    } else {
      ObjectPreserved(ty, defs, names, t, depth);
    }
  }

  /** The object of a struct, its body's references being there. */
  lemma ObjectPreserved(ty: Types, defs: Defs, names: Names, t: nat, depth: nat)
    requires Builds(ty, t) && ty[t].Struct? && Consistent(ty, defs, names, {}) && BodyCovered(ty, t, names.Keys)
    ensures Expand(defs, ObjectUnder(ty, names, t), depth) == RecordOf(ty, t, depth)
    decreases depth, Named(ty[t]), Cost(ty, t), 1, |Fields(ty, t)| + 1
  {
    EntriesPreserved(ty, defs, names, t, |Fields(ty, t)|, depth);
  }

  ghost function RecordOf(ty: Types, t: nat, depth: nat): Tree
    requires Builds(ty, t) && ty[t].Struct?
  {
    Record(Entries(ty, t, |Fields(ty, t)|, depth), Required(Fields(ty, t), |Fields(ty, t)|))
  }

  lemma DefinitionDone(ty: Types, defs: Defs, names: Names, t: nat)
    requires Consistent(ty, defs, names, {}) && t in names
    ensures Builds(ty, t) && ty[t].Struct? && BodyCovered(ty, t, names.Keys)
    ensures names[t] in defs && defs[names[t]] == Some(ObjectUnder(ty, names, t))
  {
    assert Defined(ty, defs, names, {}, t);
  }

  lemma FollowReference(defs: Defs, name: string, s: Schema, depth: nat)
    requires name in defs && defs[name] == Some(s)
    ensures Expand(defs, Ref(name), depth + 1) == Expand(defs, s, depth)
  {
  }

  lemma DefinitionPreserved(ty: Types, defs: Defs, names: Names, t: nat, depth: nat)
    requires Builds(ty, t) && Named(ty[t]) && t in names && Consistent(ty, defs, names, {})
    ensures Expand(defs, Ref(names[t]), depth + 1) == RecordOf(ty, t, depth)
    decreases depth, true, Cost(ty, t), 3, 0
  {
    DefinitionDone(ty, defs, names, t);
    ObjectPreserved(ty, defs, names, t, depth);
    FollowReference(defs, names[t], ObjectUnder(ty, names, t), depth);
  }

  lemma {:induction false} EntriesPreserved(ty: Types, defs: Defs, names: Names, t: nat, n: nat, depth: nat)
    requires Builds(ty, t) && ty[t].Struct? && n <= |Fields(ty, t)|
    requires Consistent(ty, defs, names, {}) && FieldsCovered(ty, t, n, names.Keys)
    ensures ExpandAll(defs, Props(ty, names, t, n), n, depth) == Entries(ty, t, n, depth)
    decreases depth, Named(ty[t]), Cost(ty, t), 1, n
  {
    if n > 0 {
      FieldCosts(ty, t, n - 1);
      EntriesPreserved(ty, defs, names, t, n - 1, depth);
      MeaningPreserved(ty, defs, names, Fields(ty, t)[n - 1].typ, depth);
      ExpandAllPrefix(defs, Props(ty, names, t, n - 1), Props(ty, names, t, n), n - 1, depth);
    }
  }

  /** Names added later do not change what has been answered. */
  lemma AnswersStay(ty: Types, names: Names, more: Names, t: nat, s: Schema)
    requires Builds(ty, t) && Answers(ty, names, t, s) && Extends(names, more)
    ensures Answers(ty, more, t, s)
  {
    SchemaStays(ty, names, more, t);
    CoveredMore(ty, t, names.Keys, more.Keys);
  }
}
