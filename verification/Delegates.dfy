/** Multicast delegates (src/aot_cpp/AotRuntime.cpp:883-1014): invocation lists kept as left-deep
    chains of heap objects, flattened to their leaves and rebuilt by every + and -. */
module Delegates {
  import opened Options

  datatype Value = NullObject | Object(ref: nat)

  /** A delegate object: a leaf, whose key stands for the seven fields that are compared, or a pair
      of delegates (flags 4). */
  datatype Node = Leaf(key: nat) | Pair(first: Value, second: Value)

  type Nodes = map<nat, Node>

  datatype Result<T> = Ok(value: T) | InvalidProgram

  const DEPTH_LIMIT: nat := 1024

  /** The lambda flatten. */
  function Flatten(nodes: Nodes, v: Value, depth: nat): (r: Result<seq<Value>>)
    decreases DEPTH_LIMIT + 1 - depth
  {
    match v
    case NullObject => Ok([])
    case Object(ref) =>
      if depth > DEPTH_LIMIT || ref !in nodes then InvalidProgram
      else
        match nodes[ref]
        case Leaf(_) => Ok([v])
        case Pair(first, second) =>
          match Flatten(nodes, first, depth + 1)
          case InvalidProgram => InvalidProgram
          case Ok(front) =>
            match Flatten(nodes, second, depth + 1)
            case InvalidProgram => InvalidProgram
            case Ok(back) => Ok(front + back)
  }

  predicate IsLeaf(nodes: Nodes, v: Value) {
    v.Object? && v.ref in nodes && nodes[v.ref].Leaf?
  }

  predicate AllLeaves(nodes: Nodes, leaves: seq<Value>) {
    forall i | 0 <= i < |leaves| :: IsLeaf(nodes, leaves[i])
  }

  lemma {:induction false} FlattenGivesLeaves(nodes: Nodes, v: Value, depth: nat)
    ensures Flatten(nodes, v, depth).Ok? ==> AllLeaves(nodes, Flatten(nodes, v, depth).value)
    decreases DEPTH_LIMIT + 1 - depth
  {
    if v.Object? && depth <= DEPTH_LIMIT && v.ref in nodes && nodes[v.ref].Pair? {
      FlattenGivesLeaves(nodes, nodes[v.ref].first, depth + 1);
      FlattenGivesLeaves(nodes, nodes[v.ref].second, depth + 1);
    }
  }

  // ----- which leaves, in which order -----

  /** A way down through pairs; each turn says whether it goes to the second delegate. */
  type Path = seq<bool>

  /** What that way leads to; nothing if it leaves the delegates on the way. */
  function At(nodes: Nodes, v: Value, path: Path): Maybe<Value>
    decreases |path|
  {
    if path == [] then Some(v)
    else if v.Object? && v.ref in nodes && nodes[v.ref].Pair? then
      At(nodes, if path[0] then nodes[v.ref].second else nodes[v.ref].first, path[1..])
    else None
  }

  /** Where they part, a goes to the first delegate and b to the second. */
  ghost predicate GoesBefore(a: Path, b: Path) {
    exists k :: 0 <= k < |a| && k < |b| && a[..k] == b[..k] && !a[k] && b[k]
  }

  ghost predicate InPathOrder(paths: seq<Path>) {
    forall i, j | 0 <= i < j < |paths| :: GoesBefore(paths[i], paths[j])
  }

  /** The paths lead to the leaves, each leaf once and no other, in order from the first delegates to the second. */
  ghost predicate Lists(nodes: Nodes, v: Value, paths: seq<Path>, leaves: seq<Value>) {
    && |paths| == |leaves|
    && (forall i | 0 <= i < |paths| :: At(nodes, v, paths[i]) == Some(leaves[i]))
    && InPathOrder(paths)
    && (forall path :: At(nodes, v, path).Some? && IsLeaf(nodes, At(nodes, v, path).value) ==> path in paths)
  }

  function Turned(turn: bool, paths: seq<Path>): seq<Path> {
    seq(|paths|, i requires 0 <= i < |paths| => [turn] + paths[i])
  }

  lemma OneTurn(nodes: Nodes, v: Value, turn: bool, path: Path)
    requires v.Object? && v.ref in nodes && nodes[v.ref].Pair?
    ensures At(nodes, v, [turn] + path) == At(nodes, if turn then nodes[v.ref].second else nodes[v.ref].first, path)
  {
    assert ([turn] + path)[1..] == path;
  }

  lemma TurnKeepsOrder(turn: bool, a: Path, b: Path)
    requires GoesBefore(a, b)
    ensures GoesBefore([turn] + a, [turn] + b)
  {
    var k :| 0 <= k < |a| && k < |b| && a[..k] == b[..k] && !a[k] && b[k];
    var x, y := [turn] + a, [turn] + b;
    assert x[..k + 1] == [turn] + a[..k] && y[..k + 1] == [turn] + b[..k];
    assert !x[k + 1] && y[k + 1];
  }

  lemma PairOrders(a: seq<Path>, b: seq<Path>)
    requires InPathOrder(a) && InPathOrder(b)
    ensures InPathOrder(Turned(false, a) + Turned(true, b))
  {
    var paths := Turned(false, a) + Turned(true, b);
    forall i, j | 0 <= i < j < |paths| ensures GoesBefore(paths[i], paths[j]) {
      if j < |a| {
        TurnKeepsOrder(false, a[i], a[j]);
      } else if i >= |a| {
        TurnKeepsOrder(true, b[i - |a|], b[j - |a|]);
      } else {
        assert paths[i][..0] == paths[j][..0] && !paths[i][0] && paths[j][0];
      }
    }
  }

  /** The lists of two delegates make the list of their pair. */
  lemma PairLists(nodes: Nodes, v: Value, a: seq<Path>, x: seq<Value>, b: seq<Path>, y: seq<Value>)
    requires v.Object? && v.ref in nodes && nodes[v.ref].Pair?
    requires Lists(nodes, nodes[v.ref].first, a, x) && Lists(nodes, nodes[v.ref].second, b, y)
    ensures Lists(nodes, v, Turned(false, a) + Turned(true, b), x + y)
  {
    var paths, leaves := Turned(false, a) + Turned(true, b), x + y;
    PairOrders(a, b);
    hide GoesBefore;
    forall i | 0 <= i < |paths| ensures At(nodes, v, paths[i]) == Some(leaves[i]) {
      if i < |a| { OneTurn(nodes, v, false, a[i]); } else { OneTurn(nodes, v, true, b[i - |a|]); }
    }
    forall path | At(nodes, v, path).Some? && IsLeaf(nodes, At(nodes, v, path).value) ensures path in paths {
      FoundInPair(nodes, v, a, b, path);
    }
  }

  lemma FoundInPair(nodes: Nodes, v: Value, a: seq<Path>, b: seq<Path>, path: Path)
    requires v.Object? && v.ref in nodes && nodes[v.ref].Pair?
    requires path != [] && path[1..] in if path[0] then b else a
    ensures path in Turned(false, a) + Turned(true, b)
  {
    var paths, rest := Turned(false, a) + Turned(true, b), path[1..];
    assert path == [path[0]] + rest;
    if path[0] {
      var k :| 0 <= k < |b| && b[k] == rest;
      assert paths[|a| + k] == path;
    } else {
      var k :| 0 <= k < |a| && a[k] == rest;
      assert paths[k] == path;
    }
  }

  /** Every object that is met is a delegate, and none is met below the limit. */
  ghost predicate Sensible(nodes: Nodes, v: Value, room: int) {
    forall path :: At(nodes, v, path).Some? && At(nodes, v, path).value.Object? ==>
      |path| <= room && At(nodes, v, path).value.ref in nodes
  }

  lemma HalfIsSensible(nodes: Nodes, v: Value, room: int, turn: bool)
    requires v.Object? && v.ref in nodes && nodes[v.ref].Pair? && Sensible(nodes, v, room)
    ensures Sensible(nodes, if turn then nodes[v.ref].second else nodes[v.ref].first, room - 1)
  {
    var half := if turn then nodes[v.ref].second else nodes[v.ref].first;
    forall path: Path | At(nodes, half, path).Some? && At(nodes, half, path).value.Object?
      ensures |path| <= room - 1 && At(nodes, half, path).value.ref in nodes
    {
      OneTurn(nodes, v, turn, path);
      assert At(nodes, v, [turn] + path).Some?;
    }
  }

  lemma PairIsSensible(nodes: Nodes, v: Value, room: int)
    requires v.Object? && v.ref in nodes && nodes[v.ref].Pair? && room >= 0
    ensures Sensible(nodes, v, room) <==>
            Sensible(nodes, nodes[v.ref].first, room - 1) && Sensible(nodes, nodes[v.ref].second, room - 1)
  {
    var first, second := nodes[v.ref].first, nodes[v.ref].second;
    if Sensible(nodes, v, room) {
      HalfIsSensible(nodes, v, room, false);
      HalfIsSensible(nodes, v, room, true);
    }
    if Sensible(nodes, first, room - 1) && Sensible(nodes, second, room - 1) {
      forall path: Path | At(nodes, v, path).Some? && At(nodes, v, path).value.Object?
        ensures |path| <= room && At(nodes, v, path).value.ref in nodes
      {
        if path != [] { assert At(nodes, v, path) == At(nodes, if path[0] then second else first, path[1..]); }
      }
    }
  }

  /** Flattening succeeds exactly when every object reachable from the delegate is a delegate and none
      lies more than 1024 pairs deep; it then gives every leaf once, first delegates before second. */
  lemma {:induction false} FlattensExactly(nodes: Nodes, v: Value, depth: nat)
    requires depth <= DEPTH_LIMIT + 1
    ensures Flatten(nodes, v, depth).Ok? <==> Sensible(nodes, v, 1024 - depth)
    ensures Flatten(nodes, v, depth).Ok? ==>
              exists paths: seq<Path> :: Lists(nodes, v, paths, Flatten(nodes, v, depth).value)
    decreases DEPTH_LIMIT + 1 - depth
  {
    var here: Path := [];
    assert At(nodes, v, here) == Some(v);
    if v.NullObject? {
      assert Lists(nodes, v, [], []);
    } else if depth <= DEPTH_LIMIT && v.ref in nodes {
      match nodes[v.ref]
      case Leaf(_) =>
        assert forall path: Path :: path != [] ==> At(nodes, v, path) == None;
        assert Lists(nodes, v, [here], [v]);
      case Pair(first, second) =>
        FlattensExactly(nodes, first, depth + 1);
        FlattensExactly(nodes, second, depth + 1);
        PairIsSensible(nodes, v, 1024 - depth);
        if Flatten(nodes, v, depth).Ok? {
          var x, y := Flatten(nodes, first, depth + 1).value, Flatten(nodes, second, depth + 1).value;
          var a: seq<Path> :| Lists(nodes, first, a, x);
          var b: seq<Path> :| Lists(nodes, second, b, y);
          PairLists(nodes, v, a, x, b, y);
        }
    }
  }

  /** Objects do not change, and none goes away. */
  predicate Extends(before: Nodes, after: Nodes) {
    forall r | r in before :: r in after && after[r] == before[r]
  }

  /** The chain that the rebuild loop makes of the leaves. */
  ghost predicate IsChain(nodes: Nodes, v: Value, leaves: seq<Value>)
    decreases |leaves|
  {
    if |leaves| == 0 then v == NullObject
    else if |leaves| == 1 then v == leaves[0]
    else
      v.Object? && v.ref in nodes && nodes[v.ref].Pair? &&
      nodes[v.ref].second == leaves[|leaves| - 1] && IsChain(nodes, nodes[v.ref].first, leaves[..|leaves| - 1])
  }

  lemma {:induction false} ChainSurvives(before: Nodes, after: Nodes, v: Value, leaves: seq<Value>)
    requires Extends(before, after) && IsChain(before, v, leaves)
    ensures IsChain(after, v, leaves)
    decreases |leaves|
  {
    if |leaves| > 1 { ChainSurvives(before, after, before[v.ref].first, leaves[..|leaves| - 1]); }
  }

  /** A chain flattens back to its leaves exactly when it is not too deep for where it is met. */
  lemma {:induction false} ChainFlattens(nodes: Nodes, v: Value, leaves: seq<Value>, depth: nat)
    requires IsChain(nodes, v, leaves) && AllLeaves(nodes, leaves)
    ensures Flatten(nodes, v, depth) ==
            if |leaves| == 0 || depth + |leaves| <= 1025 then Ok(leaves) else InvalidProgram
    decreases |leaves|
  {
    if |leaves| > 1 && depth <= DEPTH_LIMIT {
      var n := |leaves| - 1;
      ChainFlattens(nodes, nodes[v.ref].first, leaves[..n], depth + 1);
      ChainFlattens(nodes, leaves[n], [leaves[n]], depth + 1);
      assert leaves == leaves[..n] + [leaves[n]];
    } else if |leaves| == 1 {
      assert IsLeaf(nodes, leaves[0]) && leaves == [leaves[0]];
    }
  }

  // ----- removing -----

  function Key(nodes: Nodes, v: Value): nat {
    if v.Object? && v.ref in nodes && nodes[v.ref].Leaf? then nodes[v.ref].key else 0
  }

  /** sameLeaf. */
  predicate SameLeaf(nodes: Nodes, a: Value, b: Value) {
    IsLeaf(nodes, a) && IsLeaf(nodes, b) && Key(nodes, a) == Key(nodes, b)
  }

  /** The leaves of part stand in all from start on. */
  predicate MatchesAt(nodes: Nodes, all: seq<Value>, part: seq<Value>, start: int) {
    0 <= start && start + |part| <= |all| && forall i | 0 <= i < |part| :: SameLeaf(nodes, all[start + i], part[i])
  }

  /** all without the last stretch that matches part. */
  ghost predicate IsRemoval(nodes: Nodes, all: seq<Value>, part: seq<Value>, rest: seq<Value>) {
    if part == [] || forall start :: !MatchesAt(nodes, all, part, start) then rest == all
    else exists start :: IsLastMatch(nodes, all, part, start) && rest == all[..start] + all[start + |part|..]
  }

  ghost predicate IsLastMatch(nodes: Nodes, all: seq<Value>, part: seq<Value>, start: int) {
    MatchesAt(nodes, all, part, start) && forall later :: later > start ==> !MatchesAt(nodes, all, part, later)
  }

  method RemoveLast(nodes: Nodes, all: seq<Value>, part: seq<Value>) returns (rest: seq<Value>)
    ensures IsRemoval(nodes, all, part, rest)
    ensures AllLeaves(nodes, all) ==> AllLeaves(nodes, rest)
  {
    if part == [] || |part| > |all| { return all; }
    var removeAt := -1;
    for start := 0 to |all| - |part| + 1
      invariant removeAt < start
      invariant removeAt >= 0 ==> MatchesAt(nodes, all, part, removeAt)
      invariant forall s :: removeAt < s < start ==> !MatchesAt(nodes, all, part, s)
      invariant removeAt == -1 || 0 <= removeAt
    {
      if MatchesAt(nodes, all, part, start) { removeAt := start; }
    }
    if removeAt < 0 { return all; }
    assert IsLastMatch(nodes, all, part, removeAt);
    rest := all[..removeAt] + all[removeAt + |part|..];
  }

  lemma {:induction false} RemovalIsUnique(nodes: Nodes, all: seq<Value>, part: seq<Value>, a: seq<Value>, b: seq<Value>)
    requires IsRemoval(nodes, all, part, a) && IsRemoval(nodes, all, part, b)
    ensures a == b
  {
    if part != [] && exists start :: MatchesAt(nodes, all, part, start) {
      var x :| IsLastMatch(nodes, all, part, x) && a == all[..x] + all[x + |part|..];
      var y :| IsLastMatch(nodes, all, part, y) && b == all[..y] + all[y + |part|..];
      assert x == y;
    }
  }

  /** Removing what was just appended leaves the front. */
  lemma RemovalUndoesAppend(nodes: Nodes, front: seq<Value>, part: seq<Value>)
    requires AllLeaves(nodes, part)
    ensures IsRemoval(nodes, front + part, part, front)
  {
    var all := front + part;
    if part == [] {
      assert all == front;
    } else {
      assert MatchesAt(nodes, all, part, |front|);
      assert IsLastMatch(nodes, all, part, |front|);
      assert front == all[..|front|] + all[|front| + |part|..];
    }
  }

  function KeysOf(nodes: Nodes, leaves: seq<Value>): seq<nat> {
    seq(|leaves|, i requires 0 <= i < |leaves| => Key(nodes, leaves[i]))
  }

  /** The keys of part stand in all, as one stretch, from start on. */
  predicate KeysStand(nodes: Nodes, all: seq<Value>, part: seq<Value>, start: int) {
    0 <= start && start + |part| <= |all| && KeysOf(nodes, all[start..start + |part|]) == KeysOf(nodes, part)
  }

  lemma MatchesByKey(nodes: Nodes, all: seq<Value>, part: seq<Value>, start: int)
    requires AllLeaves(nodes, all) && AllLeaves(nodes, part)
    ensures MatchesAt(nodes, all, part, start) <==> KeysStand(nodes, all, part, start)
  {
    if 0 <= start && start + |part| <= |all| {
      var stretch := all[start..start + |part|];
      assert forall i :: 0 <= i < |part| ==> stretch[i] == all[start + i] && KeysOf(nodes, stretch)[i] == Key(nodes, all[start + i]);
      assert forall i :: 0 <= i < |part| ==> KeysOf(nodes, part)[i] == Key(nodes, part[i]);
    }
  }

  /** Leaves are told apart by their keys alone: what is removed is the last stretch with part's keys, and
      nothing is when there is none. */
  lemma RemovesByKey(nodes: Nodes, all: seq<Value>, part: seq<Value>, rest: seq<Value>)
    requires AllLeaves(nodes, all) && AllLeaves(nodes, part) && part != [] && IsRemoval(nodes, all, part, rest)
    ensures (rest == all && forall start :: !KeysStand(nodes, all, part, start)) ||
            (exists start :: KeysStand(nodes, all, part, start) && rest == all[..start] + all[start + |part|..] &&
                             forall later :: later > start ==> !KeysStand(nodes, all, part, later))
  {
    hide KeysStand;
    forall start ensures MatchesAt(nodes, all, part, start) <==> KeysStand(nodes, all, part, start) {
      MatchesByKey(nodes, all, part, start);
    }
    if exists start :: MatchesAt(nodes, all, part, start) {
      var start :| IsLastMatch(nodes, all, part, start) && rest == all[..start] + all[start + |part|..];
      assert KeysStand(nodes, all, part, start);
    }
  }

  // ----- the operation -----

  class DelegateHeap {
    var nodes: Nodes
    var next: nat

    ghost predicate Valid()
      reads this
    {
      forall r :: r in nodes ==> r < next
    }

    constructor ()
      ensures Valid() && nodes == map[]
    {
      nodes, next := map[], 0;
    }

    /** Allocation succeeds and nothing is collected. */
    method Allocate(node: Node) returns (v: Value)
      requires Valid()
      modifies this
      ensures Valid() && v == Object(old(next)) && old(next) !in old(nodes) && nodes == old(nodes)[v.ref := node]
    {
      v := Object(next);
      nodes := nodes[next := node];
      next := next + 1;
    }

    method Rebuild(leaves: seq<Value>) returns (result: Value)
      requires Valid() && AllLeaves(nodes, leaves)
      modifies this
      ensures Valid() && Extends(old(nodes), nodes) && IsChain(nodes, result, leaves)
    {
      if leaves == [] { return NullObject; }
      result := leaves[0];
      assert leaves[..1] == [leaves[0]];
      for index := 1 to |leaves|
        invariant Valid() && Extends(old(nodes), nodes) && IsChain(nodes, result, leaves[..index])
      {
        ghost var before := nodes;
        var first := result;
        result := Allocate(Pair(first, leaves[index]));
        ChainSurvives(before, nodes, first, leaves[..index]);
        assert leaves[..index + 1][..index] == leaves[..index];
      }
      assert leaves[..|leaves|] == leaves;
    }

    /** combineDelegates.  Old delegates are untouched; the result is a chain of the left leaves
        followed by the right ones, or without the last stretch that matches them.  It fails exactly
        when an operand does not flatten. */
    method CombineDelegates(left: Value, right: Value, remove: bool) returns (ok: bool, result: Value, ghost leaves: seq<Value>)
      requires Valid()
      modifies this
      ensures Valid() && Extends(old(nodes), nodes)
      ensures ok <==> Flatten(old(nodes), left, 0).Ok? && Flatten(old(nodes), right, 0).Ok?
      ensures ok ==> AllLeaves(nodes, leaves) && IsChain(nodes, result, leaves)
      ensures ok && !remove ==> leaves == Flatten(old(nodes), left, 0).value + Flatten(old(nodes), right, 0).value
      ensures ok && remove ==> IsRemoval(old(nodes), Flatten(old(nodes), left, 0).value, Flatten(old(nodes), right, 0).value, leaves)
    {
      ok, result, leaves := false, NullObject, [];
      var l := Flatten(nodes, left, 0);
      if l.InvalidProgram? { return; }
      var r := Flatten(nodes, right, 0);
      if r.InvalidProgram? { return; }
      FlattenGivesLeaves(nodes, left, 0);
      FlattenGivesLeaves(nodes, right, 0);
      var all := l.value + r.value;
      if remove { all := RemoveLast(nodes, l.value, r.value); }
      ok, leaves := true, all;
      result := Rebuild(all);
    }

    /** (a + b) - b has exactly a's leaves, and a combination flattens again exactly up to 1025 leaves. */
    method CombineThenRemove(a: Value, b: Value) returns (ok: bool, result: Value)
      requires Valid() && Flatten(nodes, a, 0).Ok? && Flatten(nodes, b, 0).Ok?
      modifies this
      ensures Valid() && Extends(old(nodes), nodes)
      ensures var n := |Flatten(old(nodes), a, 0).value| + |Flatten(old(nodes), b, 0).value|;
              ok <==> n <= 1025
      ensures ok ==> Flatten(nodes, result, 0) == Flatten(old(nodes), a, 0)
    {
      ghost var x, y := Flatten(nodes, a, 0).value, Flatten(nodes, b, 0).value;
      var _, both, all := CombineDelegates(a, b, false);
      ChainFlattens(nodes, both, all, 0);
      FlattenSurvives(old(nodes), nodes, b, 0);
      ghost var middle := nodes;
      ghost var rest;
      ok, result, rest := CombineDelegates(both, b, true);
      if ok {
        assert AllLeaves(middle, y) by { FlattenGivesLeaves(middle, b, 0); }
        RemovalUndoesAppend(middle, x, y);
        RemovalIsUnique(middle, x + y, y, x, rest);
        ChainFlattens(nodes, result, rest, 0);
      }
    }
  }

  lemma {:induction false} FlattenSurvives(before: Nodes, after: Nodes, v: Value, depth: nat)
    requires Extends(before, after) && Flatten(before, v, depth).Ok?
    ensures Flatten(after, v, depth) == Flatten(before, v, depth)
    decreases DEPTH_LIMIT + 1 - depth
  {
    if v.Object? && before[v.ref].Pair? {
      FlattenSurvives(before, after, before[v.ref].first, depth + 1);
      FlattenSurvives(before, after, before[v.ref].second, depth + 1);
    }
  }
}
