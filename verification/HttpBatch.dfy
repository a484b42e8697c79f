/** batch.go (MarshalBatch, BatchResultFromResponse) and the batch call of jsonrpchttp/client.go: drawing ids for the
    entries of a batch, and putting the responses of the server back in the order of the entries. */
module HttpBatch {
  import opened Wrappers
  import opened Bytes
  import opened Decimal
  import Dispatch

  const INTERNAL_ERROR: int := -32603

  /** params are the marshaled params of the entry, None when they do not marshal. */
  datatype Spec = Spec(name: bytes, params: Option<bytes>, notify: bool)

  datatype RpcError = RpcError(code: int, message: bytes)

  /** A response object as the client decodes it. */
  datatype Response = Response(id: bytes, result: Option<bytes>, error: Option<RpcError>)

  /** ZERO is the zero value. */
  datatype BatchResult = BatchResult(result: Option<bytes>, error: Option<RpcError>)

  const ZERO: BatchResult := BatchResult(None, None)

  /** The body of the HTTP response: entries up to where dec.More() says there are no more, None for one that does
      not decode. */
  datatype Body = Empty | NoArray | Array(entries: seq<Option<Response>>)

  datatype Outcome =
    | NoCall
    | TooLarge
    | ParamsError
    | PostError
    | EmptyBody
    | NotAnArray
    | DecodeError
    | Returned(results: seq<BatchResult>)

  function BatchResultFromResponse(r: Response): BatchResult {
    if r.error.Some? then BatchResult(None, r.error)
    else if r.result.Some? then BatchResult(r.result, None)
    else ZERO
  }

  function NoResponse(id: bytes): BatchResult {
    BatchResult(None, Some(RpcError(INTERNAL_ERROR, Ascii("no response for batch id ") + id)))
  }

  // ---- what the slots should hold ----

  /** The first of the first n entries that bears the id. */
  function Find(entries: seq<Option<Response>>, id: bytes, n: nat): (r: Option<Response>)
    requires n <= |entries|
    ensures r.Some? ==> r.value.id == id
  {
    if n == 0 then None
    else
      var earlier := Find(entries, id, n - 1);
      if earlier.Some? then earlier
      else if entries[n - 1].Some? && entries[n - 1].value.id == id then entries[n - 1]
      else None
  }

  predicate Bears(entry: Option<Response>, id: bytes) {
    entry.Some? && entry.value.id == id
  }

  lemma {:induction false} FindIsFirst(entries: seq<Option<Response>>, id: bytes, n: nat, k: nat)
    requires k < n <= |entries| && Bears(entries[k], id)
    requires forall j :: 0 <= j < k ==> !Bears(entries[j], id)
    ensures Find(entries, id, n) == entries[k]
  {
    if k < n - 1 { FindIsFirst(entries, id, n - 1, k); } else { FindMisses(entries, id, k); }
  }

  lemma {:induction false} FindMisses(entries: seq<Option<Response>>, id: bytes, n: nat)
    requires n <= |entries|
    ensures Find(entries, id, n) == None <==> forall j :: 0 <= j < n ==> !Bears(entries[j], id)
  {
    if n > 0 { FindMisses(entries, id, n - 1); }
  }

  lemma {:induction false} FindStays(entries: seq<Option<Response>>, id: bytes, m: nat, n: nat)
    requires m <= n <= |entries| && Find(entries, id, m).Some?
    ensures Find(entries, id, n) == Find(entries, id, m)
  {
    if m < n { FindStays(entries, id, m, n - 1); }
  }

  /** No more entries are looked at than were sent. */
  function Window(ids: seq<Option<bytes>>, entries: seq<Option<Response>>): (n: nat)
    ensures n <= |entries| && n <= |ids|
  {
    if |entries| < |ids| then |entries| else |ids|
  }

  function Slot(id: Option<bytes>, entries: seq<Option<Response>>, n: nat): BatchResult
    requires n <= |entries|
  {
    match id
    case None => ZERO
    case Some(i) =>
      match Find(entries, i, n)
      case None => NoResponse(i)
      case Some(r) => BatchResultFromResponse(r)
  }

  function Slots(ids: seq<Option<bytes>>, entries: seq<Option<Response>>): (s: seq<BatchResult>)
    ensures |s| == |ids|
  {
    seq(|ids|, i requires 0 <= i < |ids| => Slot(ids[i], entries, Window(ids, entries)))
  }

  /** An id that was sent is still without a response after n entries. */
  predicate Waiting(ids: seq<Option<bytes>>, entries: seq<Option<Response>>, n: nat)
    requires n <= |entries|
  {
    exists i :: 0 <= i < |ids| && Unseen(ids[i], entries, n)
  }

  predicate Unseen(id: Option<bytes>, entries: seq<Option<Response>>, n: nat)
    requires n <= |entries|
  {
    id.Some? && Find(entries, id.value, n) == None
  }

  /** The scan runs into an entry that does not decode while some id is still without a response. */
  predicate RunsInto(ids: seq<Option<bytes>>, entries: seq<Option<Response>>, b: nat)
    requires b < |entries|
  {
    entries[b].None? && Waiting(ids, entries, b)
  }

  predicate Aborts(ids: seq<Option<bytes>>, entries: seq<Option<Response>>) {
    exists b :: 0 <= b < Window(ids, entries) && RunsInto(ids, entries, b)
  }

  predicate Distinct(ids: seq<Option<bytes>>) {
    forall i, j :: 0 <= i < j < |ids| && ids[i].Some? ==> ids[i] != ids[j]
  }

  // ---- the correlation loop ----

  /** expected maps each id still without a response to its position. */
  ghost predicate Expects(expected: map<bytes, nat>, ids: seq<Option<bytes>>, entries: seq<Option<Response>>, n: nat)
    requires n <= |entries|
  {
    && (forall id :: id in expected ==>
          expected[id] < |ids| && ids[expected[id]] == Some(id) && Find(entries, id, n) == None)
    && (forall i :: 0 <= i < |ids| && Unseen(ids[i], entries, n) ==> ids[i].value in expected)
  }

  /** Slots filled so far. */
  function Partial(id: Option<bytes>, entries: seq<Option<Response>>, n: nat): BatchResult
    requires n <= |entries|
  {
    if Unseen(id, entries, n) then ZERO else Slot(id, entries, n)
  }

  predicate Filled(slots: seq<BatchResult>, ids: seq<Option<bytes>>, entries: seq<Option<Response>>, n: nat)
    requires n <= |entries|
  {
    |slots| == |ids| && forall i :: 0 <= i < |ids| ==> slots[i] == Partial(ids[i], entries, n)
  }

  method Await(ids: seq<Option<bytes>>) returns (expected: map<bytes, nat>)
    requires Distinct(ids)
    ensures Expects(expected, ids, [], 0)
  {
    expected := map[];
    for i := 0 to |ids|
      invariant forall id :: id in expected ==> expected[id] < i && ids[expected[id]] == Some(id)
      invariant forall k :: 0 <= k < i && ids[k].Some? ==> ids[k].value in expected
    {
      if ids[i].Some? { expected := expected[ids[i].value := i]; }
    }
  }

  /** The first n entries have been dealt with. */
  ghost predicate Progress(expected: map<bytes, nat>, slots: seq<BatchResult>, ids: seq<Option<bytes>>,
                           entries: seq<Option<Response>>, n: nat)
  {
    && n <= |entries| && n <= |ids|
    && Expects(expected, ids, entries, n)
    && Filled(slots, ids, entries, n)
    && forall k :: 0 <= k < n ==> entries[k].Some?
  }

  /** One response, when its id is awaited, goes to the slot of that id. */
  method Place(ids: seq<Option<bytes>>, entries: seq<Option<Response>>, n: nat, ghost next: nat,
               expected: map<bytes, nat>, results: array<BatchResult>)
    returns (left: map<bytes, nat>)
    requires Distinct(ids) && n < |ids| && n < |entries| && entries[n].Some? && next == n + 1
    requires Progress(expected, results[..], ids, entries, n)
    modifies results
    ensures Progress(left, results[..], ids, entries, next)
  {
    var resp := entries[n].value;
    left := expected;
    if resp.id in expected {
      results[expected[resp.id]] := BatchResultFromResponse(resp);
      left := expected - {resp.id};
    }
  }

  /** Ids not in left have their final slot. */
  predicate Settling(left: map<bytes, nat>, slots: seq<BatchResult>, ids: seq<Option<bytes>>,
                     entries: seq<Option<Response>>, n: nat)
    requires n <= |entries|
  {
    |slots| == |ids| && forall i :: 0 <= i < |ids| ==>
      slots[i] == if ids[i].Some? && ids[i].value in left then ZERO else Slot(ids[i], entries, n)
  }

  lemma SettleOne(left: map<bytes, nat>, id: bytes, slots: seq<BatchResult>, ids: seq<Option<bytes>>,
                  entries: seq<Option<Response>>, n: nat)
    requires n <= |entries| && Distinct(ids) && Settling(left, slots, ids, entries, n)
    requires id in left && left[id] < |ids| && ids[left[id]] == Some(id) && Find(entries, id, n) == None
    ensures Settling(left - {id}, slots[left[id] := NoResponse(id)], ids, entries, n)
  {
  }

  /** Whatever is left gets an error slot. */
  method FillMissing(ids: seq<Option<bytes>>, ghost entries: seq<Option<Response>>, ghost n: nat,
                     expected: map<bytes, nat>, results: array<BatchResult>)
    requires n <= |entries|
    requires Distinct(ids) && Expects(expected, ids, entries, n)
    requires Filled(results[..], ids, entries, n)
    modifies results
    ensures Settling(map[], results[..], ids, entries, n)
  {
    var left := expected;
    while left != map[]
      invariant forall id :: id in left ==> id in expected && left[id] == expected[id]
      invariant results.Length == |ids| && Settling(left, results[..], ids, entries, n)
      decreases |left|
    {
      var id :| id in left;
      SettleOne(left, id, results[..], ids, entries, n);
      results[left[id]] := NoResponse(id);
      left := left - {id};
    }
  }

  lemma SlotsSettled(ids: seq<Option<bytes>>, entries: seq<Option<Response>>, n: nat)
    requires n <= Window(ids, entries) && (n == Window(ids, entries) || !Waiting(ids, entries, n))
    ensures forall i :: 0 <= i < |ids| ==> Slot(ids[i], entries, n) == Slots(ids, entries)[i]
  {
    forall i | 0 <= i < |ids| ensures Slot(ids[i], entries, n) == Slots(ids, entries)[i] {
      if n < Window(ids, entries) && ids[i].Some? {
        assert !Unseen(ids[i], entries, n);
        FindStays(entries, ids[i].value, n, Window(ids, entries));
      }
    }
  }

  lemma NeverAborts(ids: seq<Option<bytes>>, entries: seq<Option<Response>>, n: nat)
    requires n <= Window(ids, entries) && (n == Window(ids, entries) || !Waiting(ids, entries, n))
    requires forall k :: 0 <= k < n ==> entries[k].Some?
    ensures !Aborts(ids, entries)
  {
    forall b | 0 <= b < Window(ids, entries) ensures !RunsInto(ids, entries, b) {
      if b >= n {
        forall i | 0 <= i < |ids| ensures !Unseen(ids[i], entries, b) {
          assert !Unseen(ids[i], entries, n);
          if ids[i].Some? { FindStays(entries, ids[i].value, n, b); }
        }
      }
    }
  }

  lemma WaitingIsExpected(expected: map<bytes, nat>, ids: seq<Option<bytes>>, entries: seq<Option<Response>>, n: nat)
    requires n <= |entries| && Expects(expected, ids, entries, n)
    ensures Waiting(ids, entries, n) <==> expected != map[]
  {
    if expected != map[] {
      var id :| id in expected;
      assert Unseen(ids[expected[id]], entries, n);
    }
  }

  /** The loop over the decoded array; ok is false when an entry does not decode. */
  method Scan(ids: seq<Option<bytes>>, entries: seq<Option<Response>>, awaited: map<bytes, nat>,
              results: array<BatchResult>)
    returns (ok: bool, scanned: nat, expected: map<bytes, nat>)
    requires Distinct(ids) && Progress(awaited, results[..], ids, entries, 0)
    modifies results
    ensures Progress(expected, results[..], ids, entries, scanned)
    ensures ok ==> scanned == |entries| || scanned == |ids| || expected == map[]
    ensures !ok ==> scanned < |entries| && scanned < |ids| && entries[scanned].None? && expected != map[]
  {
    expected, scanned := awaited, 0;
    while scanned < |entries| && expected != map[] && scanned < |ids|
      invariant Progress(expected, results[..], ids, entries, scanned)
    {
      if entries[scanned].None? { return false, scanned, expected; }
      var n := scanned;
      scanned := scanned + 1;
      expected := Place(ids, entries, n, scanned, expected, results);
    }
    ok := true;
  }

  method Correlate(ids: seq<Option<bytes>>, entries: seq<Option<Response>>, awaited: map<bytes, nat>,
                   results: array<BatchResult>)
    returns (ok: bool)
    requires Distinct(ids) && results.Length == |ids| && Expects(awaited, ids, entries, 0)
    requires forall i :: 0 <= i < |ids| ==> results[i] == ZERO
    modifies results
    ensures ok == !Aborts(ids, entries)
    ensures ok ==> results[..] == Slots(ids, entries)
  {
    var scanned, expected;
    ok, scanned, expected := Scan(ids, entries, awaited, results);
    WaitingIsExpected(expected, ids, entries, scanned);
    if ok {
      NeverAborts(ids, entries, scanned);
      FillMissing(ids, entries, scanned, expected, results);
      SlotsSettled(ids, entries, scanned);
    } else {
      assert RunsInto(ids, entries, scanned);
    }
  }

  // ---- the client ----

  /** The id drawn for an entry, a number above lo and up to hi; none for a notification. */
  ghost predicate FreshId(id: Option<bytes>, notify: bool, lo: nat, hi: nat) {
    if notify then id.None? else exists n :: lo < n <= hi && id == Some(Print(n))
  }

  ghost predicate FreshIds(ids: seq<Option<bytes>>, specs: seq<Spec>, lo: nat, hi: nat) {
    |ids| == |specs| && forall i :: 0 <= i < |ids| ==> FreshId(ids[i], specs[i].notify, lo, hi)
  }

  function RequestFor(spec: Spec, id: Option<bytes>): Dispatch.Request
    requires spec.params.Some?
  {
    Dispatch.Request(Ascii("2.0"), spec.name, spec.params.value, if id.Some? then id.value else [])
  }

  predicate AllParams(specs: seq<Spec>) {
    forall i :: 0 <= i < |specs| ==> specs[i].params.Some?
  }

  /** What CallBatch returns when the ids drawn were these and the post got this far. */
  function CallOutcome(maxBatchSize: int, specs: seq<Spec>, ids: seq<Option<bytes>>, body: Option<Body>): Outcome {
    if specs == [] then NoCall
    else if maxBatchSize > 0 && |specs| > maxBatchSize then TooLarge
    else if !AllParams(specs) then ParamsError
    else if body == None then PostError
    else if forall i :: 0 <= i < |specs| ==> specs[i].notify then Returned(seq(|specs|, _ => ZERO))
    else
      match body.value
      case Empty => EmptyBody
      case NoArray => NotAnArray
      case Array(entries) => if Aborts(ids, entries) then DecodeError else Returned(Slots(ids, entries))
  }

  ghost predicate SomeCall(specs: seq<Spec>) {
    exists i :: 0 <= i < |specs| && !specs[i].notify
  }

  /** When a batch call returns what; every outcome has its own condition. */
  lemma OutcomeIsExact(maxBatchSize: int, specs: seq<Spec>, ids: seq<Option<bytes>>, body: Option<Body>)
    ensures var o := CallOutcome(maxBatchSize, specs, ids, body);
            var within := specs != [] && !(0 < maxBatchSize < |specs|);
            var sent := within && forall i :: 0 <= i < |specs| ==> specs[i].params.Some?;
            && (o == NoCall <==> specs == [])
            && (o == TooLarge <==> specs != [] && !within)
            && (o == ParamsError <==> within && !sent)
            && (o == PostError <==> sent && body == None)
            && (o == EmptyBody <==> sent && SomeCall(specs) && body == Some(Empty))
            && (o == NotAnArray <==> sent && SomeCall(specs) && body == Some(NoArray))
            && (o == DecodeError <==>
                  sent && SomeCall(specs) && body.Some? && body.value.Array? && Aborts(ids, body.value.entries))
            && (o.Returned? && SomeCall(specs) ==>
                  body.value.Array? && o.results == Slots(ids, body.value.entries))
            && (o.Returned? && !SomeCall(specs) ==>
                  |o.results| == |specs| && forall i :: 0 <= i < |specs| ==> o.results[i] == BatchResult(None, None))
  {
  }

  class Client {
    var last: nat
    const maxBatchSize: int

    constructor (maxBatchSize: int)
      ensures last == 0 && this.maxBatchSize == maxBatchSize
    {
      last, this.maxBatchSize := 0, maxBatchSize;
    }

    /** seq.Add(1), atomic; any number of other callers may have drawn ids since the last time. */
    method NextID() returns (id: bytes)
      modifies this
      ensures last > old(last) && id == Print(last)
    {
      var next :| next > last;
      last := next;
      id := Print(last);
    }

    method MarshalBatch(specs: seq<Spec>) returns (ok: bool, reqs: seq<Dispatch.Request>, ids: seq<Option<bytes>>)
      modifies this
      ensures last >= old(last) && ok == AllParams(specs)
      ensures ok ==> FreshIds(ids, specs, old(last), last) && Distinct(ids)
      ensures ok ==> |reqs| == |specs| && forall i :: 0 <= i < |specs| ==> reqs[i] == RequestFor(specs[i], ids[i])
    {
      ids, reqs := [], [];
      for i := 0 to |specs|
        invariant last >= old(last) && |ids| == |reqs| == i
        invariant forall k :: 0 <= k < i ==> specs[k].params.Some?
        invariant forall k :: 0 <= k < i ==> FreshId(ids[k], specs[k].notify, old(last), last)
        invariant forall k :: 0 <= k < i ==> reqs[k] == RequestFor(specs[k], ids[k])
        invariant Distinct(ids)
      {
        if specs[i].params.None? { return false, [], []; }
        var id := None;
        ghost var before := last;
        if !specs[i].notify {
          var next := NextID();
          id := Some(next);
          LaterIdIsNew(ids, specs, old(last), before, last);
        }
        ids := ids + [id];
        reqs := reqs + [RequestFor(specs[i], id)];
      }
      ok := true;
    }

    /** body is what the post returns, None when it fails. */
    method CallBatch(specs: seq<Spec>, body: Option<Body>) returns (outcome: Outcome, ghost ids: seq<Option<bytes>>)
      modifies this
      ensures last >= old(last)
      ensures outcome == CallOutcome(maxBatchSize, specs, ids, body)
      ensures outcome.Returned? ==> FreshIds(ids, specs, old(last), last) && Distinct(ids)
    {
      ids := [];
      if |specs| == 0 { return NoCall, ids; }
      if maxBatchSize > 0 && |specs| > maxBatchSize { return TooLarge, ids; }
      var ok, reqs, drawn := MarshalBatch(specs);
      if !ok { return ParamsError, ids; }
      ids := drawn;
      if body.None? { return PostError, ids; }
      var results := new BatchResult[|specs|](_ => ZERO);
      var expected := Await(drawn);
      AwaitedIsCalls(expected, drawn, specs, old(last), last);
      if expected == map[] { return Returned(results[..]), ids; }
      match body.value {
        case Empty => return EmptyBody, ids;
        case NoArray => return NotAnArray, ids;
        case Array(entries) =>
          StartsWaiting(expected, drawn, entries);
          ok := Correlate(drawn, entries, expected, results);
          return if ok then Returned(results[..]) else DecodeError, ids;
      }
    }
  }

  lemma AwaitedIsCalls(expected: map<bytes, nat>, ids: seq<Option<bytes>>, specs: seq<Spec>, lo: nat, hi: nat)
    requires FreshIds(ids, specs, lo, hi) && Expects(expected, ids, [], 0)
    ensures expected == map[] <==> forall i :: 0 <= i < |specs| ==> specs[i].notify
  {
    forall i | 0 <= i < |specs| && !specs[i].notify ensures ids[i].Some? && ids[i].value in expected {
      assert Unseen(ids[i], [], 0);
    }
    if expected != map[] {
      var id :| id in expected;
      assert !specs[expected[id]].notify;
    }
  }

  lemma StartsWaiting(expected: map<bytes, nat>, ids: seq<Option<bytes>>, entries: seq<Option<Response>>)
    requires Expects(expected, ids, [], 0)
    ensures Expects(expected, ids, entries, 0)
  {
    forall i | 0 <= i < |ids| && Unseen(ids[i], entries, 0) ensures ids[i].value in expected {
      assert Unseen(ids[i], [], 0);
    }
  }

  lemma LaterIdIsNew(ids: seq<Option<bytes>>, specs: seq<Spec>, lo: nat, before: nat, n: nat)
    requires |ids| <= |specs| && before < n
    requires forall k :: 0 <= k < |ids| ==> FreshId(ids[k], specs[k].notify, lo, before)
    ensures forall k :: 0 <= k < |ids| ==> ids[k] != Some(Print(n))
    ensures forall k :: 0 <= k < |ids| ==> FreshId(ids[k], specs[k].notify, lo, n)
  {
    forall k | 0 <= k < |ids| ensures ids[k] != Some(Print(n)) && FreshId(ids[k], specs[k].notify, lo, n) {
      if !specs[k].notify {
        var m :| lo < m <= before && ids[k] == Some(Print(m));
        if Print(m) == Print(n) { PrintInjective(m, n); }
      }
    }
  }

  // ---- what the slots mean ----

  /** Every slot holds what the first response bearing its id among as many entries as were sent says: its error, or
      else its result if it has one. */
  lemma SlotIsFirstResponse(ids: seq<Option<bytes>>, entries: seq<Option<Response>>, i: nat, k: nat)
    requires i < |ids| && ids[i].Some? && k < Window(ids, entries) && Bears(entries[k], ids[i].value)
    requires forall j :: 0 <= j < k ==> !Bears(entries[j], ids[i].value)
    ensures var r := entries[k].value;
            Slots(ids, entries)[i] == BatchResult(if r.error.Some? then None else r.result, r.error)
  {
    FindIsFirst(entries, ids[i].value, Window(ids, entries), k);
  }

  /** Without such a response a slot holds an internal error that names the id; a notification's stays empty. */
  lemma SlotWithoutResponse(ids: seq<Option<bytes>>, entries: seq<Option<Response>>, i: nat)
    requires i < |ids|
    requires ids[i].Some? ==> forall j :: 0 <= j < Window(ids, entries) ==> !Bears(entries[j], ids[i].value)
    ensures Slots(ids, entries)[i]
         == if ids[i].Some? then
              BatchResult(None, Some(RpcError(-32603, Ascii("no response for batch id ") + ids[i].value)))
            else BatchResult(None, None)
  {
    if ids[i].Some? { FindMisses(entries, ids[i].value, Window(ids, entries)); }
  }

  /** All entries decode, and no two bear the same id. */
  predicate OnePerId(entries: seq<Option<Response>>) {
    && (forall k :: 0 <= k < |entries| ==> entries[k].Some?)
    && (forall j, k :: 0 <= j < k < |entries| ==> entries[j].value.id != entries[k].value.id)
  }

  lemma {:induction false} FoundAt(entries: seq<Option<Response>>, id: bytes, k: nat)
    requires OnePerId(entries) && k < |entries| && Bears(entries[k], id)
    ensures Find(entries, id, |entries|) == entries[k]
  {
    forall j | 0 <= j < k ensures !Bears(entries[j], id) { assert entries[j].value.id != entries[k].value.id; }
    FindIsFirst(entries, id, |entries|, k);
  }

  lemma {:induction false} FoundSomewhere(entries: seq<Option<Response>>, id: bytes, n: nat)
    requires n <= |entries| && Find(entries, id, n).Some?
    ensures Find(entries, id, n) in entries
  {
    if Find(entries, id, n - 1).Some? { FoundSomewhere(entries, id, n - 1); }
  }

  lemma ShuffledFind(a: seq<Option<Response>>, b: seq<Option<Response>>, id: bytes)
    requires OnePerId(b) && multiset(a) == multiset(b)
    requires Find(a, id, |a|).Some?
    ensures Find(b, id, |b|) == Find(a, id, |a|)
  {
    var found := Find(a, id, |a|);
    FoundSomewhere(a, id, |a|);
    assert found in multiset(b);
    var k :| 0 <= k < |b| && b[k] == found;
    FoundAt(b, id, k);
  }

  /** The order in which the server answers makes no difference. */
  lemma OrderIsIrrelevant(ids: seq<Option<bytes>>, a: seq<Option<Response>>, b: seq<Option<Response>>)
    requires multiset(a) == multiset(b) && OnePerId(a) && OnePerId(b) && |a| <= |ids|
    ensures !Aborts(ids, a) && !Aborts(ids, b) && Slots(ids, a) == Slots(ids, b)
  {
    assert |a| == |multiset(a)| == |multiset(b)| == |b|;
    forall i | 0 <= i < |ids| ensures Slots(ids, a)[i] == Slots(ids, b)[i] {
      if ids[i].Some? {
        if Find(a, ids[i].value, |a|).Some? { ShuffledFind(a, b, ids[i].value); }
        else if Find(b, ids[i].value, |b|).Some? { ShuffledFind(b, a, ids[i].value); }
      }
    }
  }
}
