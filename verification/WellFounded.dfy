/** When a recursion over a finite graph ends: exactly from the nodes that cannot reach a set of nodes that call each
    other for ever. next lists the nodes each node calls. */
module WellFounded {

  type Calls = seq<seq<nat>>

  ghost predicate Within(next: Calls) {
    forall t: nat, k :: t < |next| && 0 <= k < |next[t]| ==> next[t][k] < |next|
  }

  /** The recursion started at t returns with at most fuel calls pending. */
  ghost predicate Finishes(next: Calls, t: nat, fuel: nat)
    decreases fuel
  {
    fuel > 0 && t < |next| && forall k :: 0 <= k < |next[t]| ==> Finishes(next, next[t][k], fuel - 1)
  }

  ghost predicate Ends(next: Calls, t: nat) {
    exists fuel :: Finishes(next, t, fuel)
  }

  lemma {:induction false} FinishesMore(next: Calls, t: nat, fuel: nat, more: nat)
    requires Finishes(next, t, fuel) && fuel <= more
    ensures Finishes(next, t, more)
    decreases fuel
  {
    forall k | 0 <= k < |next[t]| ensures Finishes(next, next[t][k], more - 1) {
      FinishesMore(next, next[t][k], fuel - 1, more - 1);
    }
  }

  /** Enough fuel for the first n calls of t. */
  lemma {:induction false} FuelForCalls(next: Calls, t: nat, n: nat) returns (fuel: nat)
    requires t < |next| && n <= |next[t]| && forall k :: 0 <= k < n ==> Ends(next, next[t][k])
    ensures forall k :: 0 <= k < n ==> Finishes(next, next[t][k], fuel)
  {
    fuel := 0;
    if n > 0 {
      var before := FuelForCalls(next, t, n - 1);
      var last :| Finishes(next, next[t][n - 1], last);
      fuel := if before > last then before else last;
      FinishesMore(next, next[t][n - 1], last, fuel);
      forall k | 0 <= k < n - 1 ensures Finishes(next, next[t][k], fuel) {
        FinishesMore(next, next[t][k], before, fuel);
      }
    }
  }

  lemma EndsFromCalls(next: Calls, t: nat)
    requires t < |next| && forall k :: 0 <= k < |next[t]| ==> Ends(next, next[t][k])
    ensures Ends(next, t)
  {
    var fuel := FuelForCalls(next, t, |next[t]|);
    assert Finishes(next, t, fuel + 1);
  }

  // ---- a rank for every node from which the recursion ends ----

  /** The least fuel, fuel being enough. */
  ghost function Least(next: Calls, t: nat, fuel: nat): (d: nat)
    requires Finishes(next, t, fuel)
    ensures 0 < d <= fuel && Finishes(next, t, d) && !Finishes(next, t, d - 1)
  {
    if Finishes(next, t, fuel - 1) then Least(next, t, fuel - 1) else fuel
  }

  ghost function Depth(next: Calls, t: nat): (d: nat)
    requires Ends(next, t)
    ensures d > 0 && Finishes(next, t, d) && !Finishes(next, t, d - 1)
  {
    var fuel :| Finishes(next, t, fuel);
    Least(next, t, fuel)
  }

  /** The depths of those of the first n nodes from which the recursion ends. */
  ghost function RanksTo(next: Calls, n: nat): map<nat, nat> {
    if n == 0 then map[]
    else if Ends(next, n - 1) then RanksTo(next, n - 1)[n - 1 := Depth(next, n - 1)]
    else RanksTo(next, n - 1)
  }

  ghost function Ranks(next: Calls): map<nat, nat> {
    RanksTo(next, |next|)
  }

  lemma {:induction false} RanksToAre(next: Calls, n: nat, t: nat)
    ensures t in RanksTo(next, n) <==> t < n && Ends(next, t)
    ensures t in RanksTo(next, n) ==> RanksTo(next, n)[t] == Depth(next, t)
  {
    if n > 0 { RanksToAre(next, n - 1, t); }
  }

  lemma RanksAre(next: Calls, t: nat)
    ensures t in Ranks(next) <==> Ends(next, t)
    ensures t in Ranks(next) ==> t < |next| && Ranks(next)[t] == Depth(next, t)
  {
    RanksToAre(next, |next|, t);
    if Ends(next, t) { var fuel: nat :| Finishes(next, t, fuel); }
  }

  lemma DepthDecreases(next: Calls, t: nat, k: nat)
    requires t < |next| && k < |next[t]| && Ends(next, t)
    ensures Ends(next, next[t][k]) && Depth(next, next[t][k]) < Depth(next, t)
  {
    var d, u := Depth(next, t), next[t][k];
    assert Finishes(next, u, d - 1);
    if Depth(next, u) >= d { FinishesMore(next, u, d - 1, Depth(next, u) - 1); }
  }

  lemma RanksDecrease(next: Calls, t: nat, k: nat)
    requires t < |next| && k < |next[t]| && t in Ranks(next)
    ensures next[t][k] in Ranks(next) && Ranks(next)[next[t][k]] < Ranks(next)[t]
  {
    RanksAre(next, t);
    DepthDecreases(next, t, k);
    RanksAre(next, next[t][k]);
  }

  lemma RankFromCalls(next: Calls, t: nat)
    requires t < |next| && forall k :: 0 <= k < |next[t]| ==> next[t][k] in Ranks(next)
    ensures t in Ranks(next)
  {
    forall k | 0 <= k < |next[t]| ensures Ends(next, next[t][k]) { RanksAre(next, next[t][k]); }
    EndsFromCalls(next, t);
    RanksAre(next, t);
  }

  // ---- traps ----

  predicate Avoids(calls: seq<nat>, nodes: set<nat>) {
    forall k :: 0 <= k < |calls| ==> calls[k] !in nodes
  }

  /** Every node of the set calls another one of the set. */
  ghost predicate Trap(next: Calls, nodes: set<nat>) {
    nodes != {} && forall t :: t in nodes ==> t < |next| && !Avoids(next[t], nodes)
  }

  predicate Step(next: Calls, t: nat, u: nat) {
    t < |next| && u in next[t]
  }

  /** A way from t along calls. */
  ghost predicate Path(next: Calls, t: nat, path: seq<nat>) {
    path != [] && path[0] == t && forall i :: 0 <= i < |path| - 1 ==> Step(next, path[i], path[i + 1])
  }

  /** Going along calls of ways, t comes to a set of nodes whose loop calls never leave it. */
  ghost predicate Reaches(ways: Calls, loop: Calls, t: nat) {
    exists path, nodes :: ReachesBy(ways, loop, t, path, nodes)
  }

  ghost predicate ReachesBy(ways: Calls, loop: Calls, t: nat, path: seq<nat>, nodes: set<nat>) {
    Path(ways, t, path) && Trap(loop, nodes) && path[|path| - 1] in nodes
  }

  /** Those of the first n nodes that reach no trap. */
  ghost function FreeTo(ways: Calls, loop: Calls, n: nat): set<nat> {
    if n == 0 then {} else FreeTo(ways, loop, n - 1) + if Reaches(ways, loop, n - 1) then {} else {n - 1}
  }

  lemma {:induction false} FreeToIs(ways: Calls, loop: Calls, n: nat, t: nat)
    ensures t in FreeTo(ways, loop, n) <==> t < n && !Reaches(ways, loop, t)
  {
    if n > 0 { FreeToIs(ways, loop, n - 1, t); }
  }

  lemma ReachesAtOnce(ways: Calls, loop: Calls, t: nat, nodes: set<nat>)
    requires Trap(loop, nodes) && t in nodes
    ensures Reaches(ways, loop, t)
  {
    assert ReachesBy(ways, loop, t, [t], nodes);
  }

  lemma PathBefore(next: Calls, t: nat, u: nat, path: seq<nat>)
    requires Step(next, t, u) && Path(next, u, path)
    ensures Path(next, t, [t] + path)
  {
    var longer := [t] + path;
    forall i | 0 <= i < |longer| - 1 ensures Step(next, longer[i], longer[i + 1]) {
      assert i > 0 ==> Step(next, path[i - 1], path[i]);
    }
  }

  lemma ReachesBefore(ways: Calls, loop: Calls, t: nat, u: nat)
    requires Step(ways, t, u) && Reaches(ways, loop, u)
    ensures Reaches(ways, loop, t)
  {
    var path, nodes :| ReachesBy(ways, loop, u, path, nodes);
    PathBefore(ways, t, u, path);
    assert ReachesBy(ways, loop, t, [t] + path, nodes);
  }

  lemma {:induction false} TrapNeverFinishes(next: Calls, nodes: set<nat>, t: nat, fuel: nat)
    requires Trap(next, nodes) && t in nodes
    ensures !Finishes(next, t, fuel)
    decreases fuel
  {
    if fuel > 0 {
      var k :| 0 <= k < |next[t]| && next[t][k] in nodes;
      TrapNeverFinishes(next, nodes, next[t][k], fuel - 1);
    }
  }

  lemma {:induction false} PathRanked(next: Calls, t: nat, path: seq<nat>, i: nat)
    requires Path(next, t, path) && i < |path| && t in Ranks(next)
    ensures path[i] in Ranks(next)
  {
    if i > 0 {
      PathRanked(next, t, path, i - 1);
      assert Step(next, path[i - 1], path[i]);
      var k :| 0 <= k < |next[path[i - 1]]| && next[path[i - 1]][k] == path[i];
      RanksDecrease(next, path[i - 1], k);
    }
  }

  lemma TrapIsUnranked(next: Calls, nodes: set<nat>, t: nat)
    requires Trap(next, nodes) && t in nodes
    ensures t !in Ranks(next)
  {
    if t in Ranks(next) {
      RanksAre(next, t);
      var fuel: nat :| Finishes(next, t, fuel);
      TrapNeverFinishes(next, nodes, t, fuel);
    }
  }

  /** The nodes without a rank make up a trap. */
  lemma UnrankedIsTrap(next: Calls, t: nat) returns (nodes: set<nat>)
    requires Within(next) && t < |next| && t !in Ranks(next)
    ensures Trap(next, nodes) && t in nodes
  {
    nodes := set u | 0 <= u < |next| && u !in Ranks(next);
    assert t in nodes;
    forall u | u in nodes ensures !Avoids(next[u], nodes) {
      if Avoids(next[u], nodes) { RankFromCalls(next, u); }
    }
  }

  /** The recursion returns from t, which is to have a rank, exactly when t does not reach a trap. */
  lemma EndsUnlessTrapped(next: Calls, t: nat)
    requires Within(next) && t < |next|
    ensures Ends(next, t) <==> !Reaches(next, next, t)
    ensures Ends(next, t) <==> t in Ranks(next)
  {
    RanksAre(next, t);
    if t !in Ranks(next) {
      var nodes := UnrankedIsTrap(next, t);
      ReachesAtOnce(next, next, t, nodes);
    } else if Reaches(next, next, t) {
      var path, nodes :| ReachesBy(next, next, t, path, nodes);
      PathRanked(next, t, path, |path| - 1);
      TrapIsUnranked(next, nodes, path[|path| - 1]);
    }
  }
}
