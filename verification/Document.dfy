/** openrpc/openrpc.go: the schemas of a whole document, for the parameters and the result of every method, made one
    after the other by one builder. */
module Document {
  import opened Wrappers
  import opened TypeGraph
  import opened SchemaBuilder

  /** The types of a method's parameters and of its result; None when nothing is known of them. */
  datatype Signature = Signature(params: Option<nat>, result: Option<nat>)

  /** A content descriptor. */
  datatype Content = Content(name: string, required: bool, schema: Schema)

  datatype Described = Described(byName: bool, params: seq<Content>, result: Schema)

  // ---- what is to be described ----

  /** paramsOf returns for these parameters: stripping pointers does, flattening the struct behind them does, and so
      does schemaOf for what is listed. */
  ghost predicate ParamsBuild(ty: Types, t: nat) {
    && Flat(ty, t)
    && var u := Deref(ty, t);
    if ty[u].Struct? then ListedBuild(ty, FlatFields(ty, u)) else Builds(ty, u)
  }

  ghost predicate ListedBuild(ty: Types, fs: seq<FlatField>) {
    forall k :: 0 <= k < |fs| ==> Builds(ty, fs[k].typ)
  }

  ghost predicate CanDescribe(ty: Types, sig: Signature) {
    && (sig.params.Some? ==> ParamsBuild(ty, sig.params.value))
    && (sig.result.Some? ==> Builds(ty, sig.result.value))
  }

  // ---- what a descriptor has to be, under the names given so far ----

  ghost predicate Answered(ty: Types, names: Names, fs: seq<FlatField>, n: nat, cds: seq<Content>)
    requires ListedBuild(ty, fs) && n <= |fs|
  {
    |cds| == n && forall k :: 0 <= k < n ==>
      cds[k].name == fs[k].name && cds[k].required == !fs[k].omitempty && Answers(ty, names, fs[k].typ, cds[k].schema)
  }

  /** A struct gives parameters by name, one for each listed field; anything else is a single one. */
  ghost predicate ParamsAnswer(ty: Types, names: Names, t: nat, byName: bool, cds: seq<Content>)
    requires ParamsBuild(ty, t)
  {
    var u := Deref(ty, t);
    if ty[u].Struct? then
      byName == (FlatFields(ty, u) != []) && Answered(ty, names, FlatFields(ty, u), |FlatFields(ty, u)|, cds)
    else
      !byName && |cds| == 1 && cds[0].name == "params" && !cds[0].required && Answers(ty, names, u, cds[0].schema)
  }

  ghost predicate MethodAnswers(ty: Types, names: Names, sig: Signature, d: Described)
    requires CanDescribe(ty, sig)
  {
    && (if sig.params.None? then !d.byName && d.params == []
        else ParamsAnswer(ty, names, sig.params.value, d.byName, d.params))
    && (if sig.result.None? then d.result == Any else Answers(ty, names, sig.result.value, d.result))
  }

  lemma AnsweredStay(ty: Types, names: Names, more: Names, fs: seq<FlatField>, n: nat, cds: seq<Content>)
    requires ListedBuild(ty, fs) && n <= |fs| && Answered(ty, names, fs, n, cds) && Extends(names, more)
    ensures Answered(ty, more, fs, n, cds)
  {
    forall k | 0 <= k < n ensures Answers(ty, more, fs[k].typ, cds[k].schema) {
      AnswersStay(ty, names, more, fs[k].typ, cds[k].schema);
    }
  }

  lemma ParamsStay(ty: Types, names: Names, more: Names, t: nat, byName: bool, cds: seq<Content>)
    requires ParamsBuild(ty, t) && ParamsAnswer(ty, names, t, byName, cds) && Extends(names, more)
    ensures ParamsAnswer(ty, more, t, byName, cds)
  {
    var u := Deref(ty, t);
    if ty[u].Struct? {
      AnsweredStay(ty, names, more, FlatFields(ty, u), |FlatFields(ty, u)|, cds);
    } else {
      AnswersStay(ty, names, more, u, cds[0].schema);
    }
  }

  lemma MethodStays(ty: Types, names: Names, more: Names, sig: Signature, d: Described)
    requires CanDescribe(ty, sig) && MethodAnswers(ty, names, sig, d) && Extends(names, more)
    ensures MethodAnswers(ty, more, sig, d)
  {
    if sig.params.Some? { ParamsStay(ty, names, more, sig.params.value, d.byName, d.params); }
    if sig.result.Some? { AnswersStay(ty, names, more, sig.result.value, d.result); }
  }

  // ---- the code ----

  /** Between calls; all named structs that can be built serve as the closed set the builder stays in. */
  ghost predicate Idle(ty: Types, defs: Defs, names: Names) {
    Consistent(ty, defs, names, {}) && Within(names, AllNamed(ty))
  }

  method SchemaFor(b: Builder, t: nat) returns (s: Schema)
    requires Idle(b.ty, b.defs, b.names) && Builds(b.ty, t)
    modifies b
    ensures Idle(b.ty, b.defs, b.names) && Extends(old(b.names), b.names) && Answers(b.ty, b.names, t, s)
  {
    AllNamedClosed(b.ty);
    AllNamedCovers(b.ty, t);
    s := b.SchemaOf(Some(t), AllNamed(b.ty));
  }

  method DescribeFields(b: Builder, fs: seq<FlatField>) returns (cds: seq<Content>)
    requires Idle(b.ty, b.defs, b.names) && ListedBuild(b.ty, fs)
    modifies b
    ensures Idle(b.ty, b.defs, b.names) && Extends(old(b.names), b.names)
    ensures Answered(b.ty, b.names, fs, |fs|, cds)
  {
    cds := [];
    for i := 0 to |fs|
      invariant Idle(b.ty, b.defs, b.names) && Extends(old(b.names), b.names)
      invariant Answered(b.ty, b.names, fs, i, cds)
    {
      ghost var before := b.names;
      var s := SchemaFor(b, fs[i].typ);
      AnsweredStay(b.ty, before, b.names, fs, i, cds);
      cds := cds + [Content(fs[i].name, !fs[i].omitempty, s)];
    }
  }

  method ParamsOf(b: Builder, t: nat) returns (byName: bool, cds: seq<Content>)
    requires Idle(b.ty, b.defs, b.names) && ParamsBuild(b.ty, t)
    modifies b
    ensures Idle(b.ty, b.defs, b.names) && Extends(old(b.names), b.names)
    ensures ParamsAnswer(b.ty, b.names, t, byName, cds)
  {
    var u := PointedTo(b.ty, t);
    if b.ty[u].Struct? {
      var flat := new Flattener();
      flat.Walk(b.ty, u);
      cds := DescribeFields(b, flat.out);
      byName := |cds| != 0;
    } else {
      var s := SchemaFor(b, u);
      byName, cds := false, [Content("params", false, s)];
    }
  }

  method DescribeMethod(b: Builder, sig: Signature) returns (d: Described)
    requires Idle(b.ty, b.defs, b.names) && CanDescribe(b.ty, sig)
    modifies b
    ensures Idle(b.ty, b.defs, b.names) && Extends(old(b.names), b.names)
    ensures MethodAnswers(b.ty, b.names, sig, d)
  {
    var byName, cds := false, [];
    if sig.params.Some? { byName, cds := ParamsOf(b, sig.params.value); }
    ghost var before := b.names;
    var result := Any;
    if sig.result.Some? { result := SchemaFor(b, sig.result.value); }
    if sig.params.Some? { ParamsStay(b.ty, before, b.names, sig.params.value, byName, cds); }
    d := Described(byName, cds, result);
  }

  // ---- what the document says ----

  /** However deep it is unfolded, the schema says what the type says. */
  ghost predicate Says(ty: Types, defs: Defs, t: nat, s: Schema)
    requires Builds(ty, t)
  {
    forall depth: nat :: Expand(defs, s, depth) == Meaning(ty, t, depth)
  }

  ghost predicate ListSays(ty: Types, defs: Defs, fs: seq<FlatField>, cds: seq<Content>)
    requires ListedBuild(ty, fs)
  {
    |cds| == |fs| && forall k :: 0 <= k < |fs| ==>
      cds[k].name == fs[k].name && cds[k].required == !fs[k].omitempty && Says(ty, defs, fs[k].typ, cds[k].schema)
  }

  ghost predicate MethodSays(ty: Types, defs: Defs, sig: Signature, d: Described)
    requires CanDescribe(ty, sig)
  {
    && (match sig.params
        case None => !d.byName && d.params == []
        case Some(t) =>
          var u := Deref(ty, t);
          if ty[u].Struct? then
            d.byName == (FlatFields(ty, u) != []) && ListSays(ty, defs, FlatFields(ty, u), d.params)
          else
            !d.byName && |d.params| == 1 && d.params[0].name == "params" && !d.params[0].required
            && Says(ty, defs, u, d.params[0].schema))
    && (match sig.result
        case None => d.result == Any
        case Some(t) => Says(ty, defs, t, d.result))
  }

  lemma AnswerSays(ty: Types, defs: Defs, names: Names, t: nat, s: Schema)
    requires Consistent(ty, defs, names, {}) && Builds(ty, t) && Answers(ty, names, t, s)
    ensures Says(ty, defs, t, s)
  {
    forall depth: nat ensures Expand(defs, s, depth) == Meaning(ty, t, depth) {
      MeaningPreserved(ty, defs, names, t, depth);
    }
  }

  lemma AnsweredSays(ty: Types, defs: Defs, names: Names, fs: seq<FlatField>, cds: seq<Content>)
    requires Consistent(ty, defs, names, {}) && ListedBuild(ty, fs) && Answered(ty, names, fs, |fs|, cds)
    ensures ListSays(ty, defs, fs, cds)
  {
    forall k | 0 <= k < |fs| ensures Says(ty, defs, fs[k].typ, cds[k].schema) {
      AnswerSays(ty, defs, names, fs[k].typ, cds[k].schema);
    }
  }

  lemma MethodAnswerSays(ty: Types, defs: Defs, names: Names, sig: Signature, d: Described)
    requires Consistent(ty, defs, names, {}) && CanDescribe(ty, sig) && MethodAnswers(ty, names, sig, d)
    ensures MethodSays(ty, defs, sig, d)
  {
    if sig.params.Some? {
      var u := Deref(ty, sig.params.value);
      if ty[u].Struct? {
        AnsweredSays(ty, defs, names, FlatFields(ty, u), d.params);
      } else {
        AnswerSays(ty, defs, names, u, d.params[0].schema);
      }
    }
    if sig.result.Some? { AnswerSays(ty, defs, names, sig.result.value, d.result); }
  }

  ghost predicate CanDescribeAll(ty: Types, sigs: seq<Signature>) {
    forall i :: 0 <= i < |sigs| ==> CanDescribe(ty, sigs[i])
  }

  ghost predicate AllAnswer(ty: Types, names: Names, sigs: seq<Signature>, ds: seq<Described>)
    requires CanDescribeAll(ty, sigs)
  {
    |ds| <= |sigs| && forall i :: 0 <= i < |ds| ==> MethodAnswers(ty, names, sigs[i], ds[i])
  }

  lemma OneMoreAnswers(ty: Types, names: Names, more: Names, sigs: seq<Signature>, ds: seq<Described>, d: Described)
    requires CanDescribeAll(ty, sigs) && AllAnswer(ty, names, sigs, ds) && Extends(names, more) && |ds| < |sigs|
    requires MethodAnswers(ty, more, sigs[|ds|], d)
    ensures AllAnswer(ty, more, sigs, ds + [d])
  {
    forall k | 0 <= k < |ds| ensures MethodAnswers(ty, more, sigs[k], ds[k]) {
      MethodStays(ty, names, more, sigs[k], ds[k]);
    }
  }

  ghost predicate AllSay(ty: Types, defs: Defs, sigs: seq<Signature>, ds: seq<Described>)
    requires CanDescribeAll(ty, sigs)
  {
    |ds| == |sigs| && forall i :: 0 <= i < |sigs| ==> MethodSays(ty, defs, sigs[i], ds[i])
  }

  lemma AnswersSay(ty: Types, defs: Defs, names: Names, sigs: seq<Signature>, ds: seq<Described>)
    requires Consistent(ty, defs, names, {}) && CanDescribeAll(ty, sigs)
    requires AllAnswer(ty, names, sigs, ds) && |ds| == |sigs|
    ensures AllSay(ty, defs, sigs, ds)
  {
    forall i | 0 <= i < |sigs| ensures MethodSays(ty, defs, sigs[i], ds[i]) {
      MethodAnswerSays(ty, defs, names, sigs[i], ds[i]);
    }
  }

  /** The methods of a document, one after the other on one builder: whatever is defined on the way, in the end every
      parameter and every result is described by what its type says, through the final definitions. */
  method DescribeAll(ty: Types, sigs: seq<Signature>) returns (ds: seq<Described>, b: Builder)
    requires CanDescribeAll(ty, sigs)
    ensures Consistent(ty, b.defs, b.names, {}) && AllSay(ty, b.defs, sigs, ds)
  {
    b := new Builder(ty);
    ds := [];
    while |ds| < |sigs|
      invariant fresh(b) && b.ty == ty && Idle(ty, b.defs, b.names)
      invariant AllAnswer(ty, b.names, sigs, ds)
      decreases |sigs| - |ds|
    {
      ghost var before := b.names;
      var d := DescribeMethod(b, sigs[|ds|]);
      OneMoreAnswers(ty, before, b.names, sigs, ds, d);
      ds := ds + [d];
    }
    AnswersSay(ty, b.defs, b.names, sigs, ds);
  }
}
