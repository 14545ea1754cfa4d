/** The control-flow and definition checks that both verifiers run on a function:
    src/mir/MirVerifier.cpp:260-545 and src/bytecode/BytecodeVerifier.cpp:726-1000 are the
    same algorithm over two instruction sets.  A function is seen here as blocks of steps,
    each of which uses some registers and may define one. */
module Ssa {
  import opened Scalars

  /** A register and its type. */
  datatype Register = Register(reg: int, ty: PrimitiveType)

  /** What one instruction does to the register table. */
  datatype Step = Step(defines: bool, def: Register, uses: seq<int>)

  /** A control-flow edge hands one argument to each parameter of its target. */
  datatype Edge = Edge(target: nat, args: seq<int>)

  datatype Block = Block(
    id: nat, params: seq<Register>, steps: seq<Step>, termUses: seq<int>, edges: seq<Edge>)

  /** Where a register is defined, and with which type; index -1 is a block parameter. */
  datatype Definition = Definition(block: nat, index: int, ty: PrimitiveType)

  // ----- the graph -----

  ghost predicate UniqueIds(blocks: seq<Block>) {
    forall i, j :: 0 <= i < j < |blocks| ==> blocks[i].id != blocks[j].id
  }

  function Ids(blocks: seq<Block>): set<nat> {
    set i | 0 <= i < |blocks| :: blocks[i].id
  }

  ghost predicate EdgeAt(blocks: seq<Block>, i: int, e: int, p: nat, t: nat) {
    0 <= i < |blocks| && 0 <= e < |blocks[i].edges| &&
    blocks[i].id == p && blocks[i].edges[e].target == t && t in Ids(blocks)
  }

  ghost predicate HasEdge(blocks: seq<Block>, p: nat, t: nat) {
    exists i, e :: EdgeAt(blocks, i, e, p, t)
  }

  /** A path from the entry block bb0. */
  ghost predicate IsPath(blocks: seq<Block>, path: seq<nat>) {
    |path| > 0 && path[0] == 0 && 0 in Ids(blocks) &&
    forall k :: 0 <= k < |path| - 1 ==> HasEdge(blocks, path[k], path[k + 1])
  }

  ghost predicate PathTo(blocks: seq<Block>, path: seq<nat>, b: nat) {
    IsPath(blocks, path) && path[|path| - 1] == b
  }

  ghost predicate Reaches(blocks: seq<Block>, b: nat) {
    exists path :: PathTo(blocks, path, b)
  }

  /** Every path from bb0 to b goes through d. */
  ghost predicate Dominates(blocks: seq<Block>, d: nat, b: nat) {
    forall path :: PathTo(blocks, path, b) ==> d in path
  }

  lemma PathExtends(blocks: seq<Block>, path: seq<nat>, b: nat, t: nat)
    requires PathTo(blocks, path, b) && HasEdge(blocks, b, t)
    ensures PathTo(blocks, path + [t], t)
  {
    var longer := path + [t];
    forall k | 0 <= k < |longer| - 1
      ensures HasEdge(blocks, longer[k], longer[k + 1])
    {
      if k == |path| - 1 { assert longer[k] == b && longer[k + 1] == t; }
    }
  }

  lemma PathShrinks(blocks: seq<Block>, path: seq<nat>, b: nat)
    requires PathTo(blocks, path, b) && |path| > 1
    ensures PathTo(blocks, path[..|path| - 1], path[|path| - 2])
    ensures HasEdge(blocks, path[|path| - 2], b)
  {
    var shorter := path[..|path| - 1];
    forall k | 0 <= k < |shorter| - 1
      ensures HasEdge(blocks, shorter[k], shorter[k + 1])
    {
      assert HasEdge(blocks, path[k], path[k + 1]);
    }
    assert HasEdge(blocks, path[|path| - 2], path[|path| - 2 + 1]);
  }

  // ----- edges -----

  function Lookup(m: map<nat, seq<nat>>, k: nat): seq<nat> {
    if k in m then m[k] else []
  }

  ghost predicate HasEdgeBefore(blocks: seq<Block>, i: int, e: int, p: nat, t: nat) {
    exists bi, ei :: EdgeAt(blocks, bi, ei, p, t) && (bi < i || (bi == i && ei < e))
  }

  /** Successor and predecessor lists, one entry for each edge whose target exists. */
  method BuildEdges(blocks: seq<Block>)
    returns (successors: map<nat, seq<nat>>, predecessors: map<nat, seq<nat>>)
    ensures forall p, t :: t in Lookup(successors, p) <==> HasEdge(blocks, p, t)
    ensures forall p, t :: p in Lookup(predecessors, t) <==> HasEdge(blocks, p, t)
  {
    successors, predecessors := map[], map[];
    var ids := Ids(blocks);
    for i := 0 to |blocks|
      invariant forall p, t :: t in Lookup(successors, p) <==> HasEdgeBefore(blocks, i, 0, p, t)
      invariant forall p, t :: p in Lookup(predecessors, t) <==> HasEdgeBefore(blocks, i, 0, p, t)
    {
      var block := blocks[i];
      for e := 0 to |block.edges|
        invariant forall p, t :: t in Lookup(successors, p) <==> HasEdgeBefore(blocks, i, e, p, t)
        invariant forall p, t :: p in Lookup(predecessors, t) <==> HasEdgeBefore(blocks, i, e, p, t)
      {
        var from, to := block.id, block.edges[e].target;
        ghost var was := (successors, predecessors);
        if to in ids {
          successors := successors[from := Lookup(successors, from) + [to]];
          predecessors := predecessors[to := Lookup(predecessors, to) + [from]];
        }
        forall p, t ensures t in Lookup(successors, p) <==> HasEdgeBefore(blocks, i, e + 1, p, t) {
          OneMoreEdge(blocks, i, e, p, t);
          assert EdgeAt(blocks, i, e, p, t) <==> p == from && t == to && to in ids;
          assert t in Lookup(successors, p) <==> t in Lookup(was.0, p) || EdgeAt(blocks, i, e, p, t);
        }
        forall p, t ensures p in Lookup(predecessors, t) <==> HasEdgeBefore(blocks, i, e + 1, p, t) {
          OneMoreEdge(blocks, i, e, p, t);
          assert EdgeAt(blocks, i, e, p, t) <==> p == from && t == to && to in ids;
          assert p in Lookup(predecessors, t) <==> p in Lookup(was.1, t) || EdgeAt(blocks, i, e, p, t);
        }
      }
      forall p, t
        ensures HasEdgeBefore(blocks, i + 1, 0, p, t) <==> HasEdgeBefore(blocks, i, |block.edges|, p, t)
      {
        NextBlockEdges(blocks, i, p, t);
      }
    }
    forall p, t ensures HasEdgeBefore(blocks, |blocks|, 0, p, t) <==> HasEdge(blocks, p, t) {
      if HasEdge(blocks, p, t) {
        var i, e :| EdgeAt(blocks, i, e, p, t);
      }
    }
  }

  lemma OneMoreEdge(blocks: seq<Block>, i: int, e: int, p: nat, t: nat)
    ensures HasEdgeBefore(blocks, i, e + 1, p, t) <==>
            HasEdgeBefore(blocks, i, e, p, t) || EdgeAt(blocks, i, e, p, t)
  {
    if HasEdgeBefore(blocks, i, e, p, t) {
      var bi, ei :| EdgeAt(blocks, bi, ei, p, t) && (bi < i || (bi == i && ei < e));
    }
    if HasEdgeBefore(blocks, i, e + 1, p, t) && !EdgeAt(blocks, i, e, p, t) {
      var bi, ei :| EdgeAt(blocks, bi, ei, p, t) && (bi < i || (bi == i && ei < e + 1));
    }
  }

  lemma NextBlockEdges(blocks: seq<Block>, i: int, p: nat, t: nat)
    requires 0 <= i < |blocks|
    ensures HasEdgeBefore(blocks, i + 1, 0, p, t) <==> HasEdgeBefore(blocks, i, |blocks[i].edges|, p, t)
  {
    if HasEdgeBefore(blocks, i + 1, 0, p, t) {
      var bi, ei :| EdgeAt(blocks, bi, ei, p, t) && (bi < i + 1 || (bi == i + 1 && ei < 0));
    }
    if HasEdgeBefore(blocks, i, |blocks[i].edges|, p, t) {
      var bi, ei :| EdgeAt(blocks, bi, ei, p, t) && (bi < i || (bi == i && ei < |blocks[i].edges|));
    }
  }

  // ----- reachability -----

  /** Breadth-first search from bb0 finds exactly the blocks some path leads to. */
  method ComputeReachable(blocks: seq<Block>, successors: map<nat, seq<nat>>)
    returns (reachable: set<nat>)
    requires forall p, t :: t in Lookup(successors, p) <==> HasEdge(blocks, p, t)
    ensures forall b :: b in reachable <==> Reaches(blocks, b)
  {
    reachable := {};
    var queue: seq<nat> := [];
    var ids := Ids(blocks);
    if 0 in ids {
      reachable := {0};
      queue := [0];
      assert PathTo(blocks, [0], 0);
    }
    while queue != []
      invariant reachable <= ids
      invariant 0 in ids ==> 0 in reachable
      invariant forall b :: b in queue ==> b in reachable
      invariant forall b :: b in reachable ==> Reaches(blocks, b)
      invariant forall b, t :: b in reachable && b !in queue && HasEdge(blocks, b, t) ==> t in reachable
      decreases ids - reachable, |queue|
    {
      var current := queue[0];
      queue := queue[1..];
      ghost var before, popped := reachable, queue;
      var next := Lookup(successors, current);
      for k := 0 to |next|
        invariant before <= reachable <= ids && current in reachable
        invariant reachable == before ==> queue == popped
        invariant forall b :: b in queue ==> b in reachable
        invariant forall b :: b in reachable ==> Reaches(blocks, b)
        invariant forall j :: 0 <= j < k ==> next[j] in reachable
        invariant forall b, t :: b in reachable && b !in queue && b != current && HasEdge(blocks, b, t)
                                 ==> t in reachable
      {
        if next[k] !in reachable {
          assert next[k] in next;
          assert HasEdge(blocks, current, next[k]);
          EdgeReaches(blocks, current, next[k]);
          reachable := reachable + {next[k]};
          queue := queue + [next[k]];
        }
      }
    }
    forall b | Reaches(blocks, b) ensures b in reachable {
      var path :| PathTo(blocks, path, b);
      ClosedSetHoldsPath(blocks, reachable, path, b);
    }
  }

  lemma EdgeReaches(blocks: seq<Block>, b: nat, t: nat)
    requires Reaches(blocks, b) && HasEdge(blocks, b, t)
    ensures Reaches(blocks, t) && t in Ids(blocks)
  {
    var path :| PathTo(blocks, path, b);
    PathExtends(blocks, path, b, t);
  }

  lemma {:induction false} ClosedSetHoldsPath(blocks: seq<Block>, closed: set<nat>, path: seq<nat>, b: nat)
    requires PathTo(blocks, path, b) && 0 in closed
    requires forall p, t :: p in closed && HasEdge(blocks, p, t) ==> t in closed
    ensures forall c :: c in path ==> c in closed
    decreases |path|
  {
    if |path| > 1 {
      PathShrinks(blocks, path, b);
      var n := |path| - 1;
      ClosedSetHoldsPath(blocks, closed, path[..n], path[n - 1]);
      assert path == path[..n] + [b];
    }
  }

  // ----- dominators -----

  /** c belongs to the meet over b's predecessors, or is b. */
  ghost predicate InMeet(blocks: seq<Block>, dominators: map<nat, set<nat>>, b: nat, c: nat) {
    c == b ||
    ((exists p :: HasEdge(blocks, p, b)) &&
     forall p :: HasEdge(blocks, p, b) ==> p in dominators && c in dominators[p])
  }

  method MeetPredecessors(
    blocks: seq<Block>, dominators: map<nat, set<nat>>, b: nat, incoming: seq<nat>)
    returns (next: set<nat>)
    requires forall p :: p in incoming <==> HasEdge(blocks, p, b)
    requires dominators.Keys == Ids(blocks)
    ensures forall c :: c in next <==> InMeet(blocks, dominators, b, c)
  {
    next := {};
    if |incoming| > 0 {
      SourcesExist(blocks, incoming, b);
      assert incoming[0] in incoming;
      next := dominators[incoming[0]];
      for index := 1 to |incoming|
        invariant forall c :: c in next <==> forall j :: 0 <= j < index ==> c in dominators[incoming[j]]
      {
        next := set c | c in next && c in dominators[incoming[index]];
      }
      forall c ensures c in next <==>
        forall p :: HasEdge(blocks, p, b) ==> p in dominators && c in dominators[p]
      {
        if c !in next {
          var j :| 0 <= j < |incoming| && c !in dominators[incoming[j]];
          assert HasEdge(blocks, incoming[j], b);
        }
      }
    } else {
      assert forall p :: p !in incoming;
    }
    next := next + {b};
  }

  lemma SourcesExist(blocks: seq<Block>, incoming: seq<nat>, b: nat)
    requires forall p :: p in incoming ==> HasEdge(blocks, p, b)
    ensures forall j :: 0 <= j < |incoming| ==> incoming[j] in Ids(blocks)
  {
    forall j | 0 <= j < |incoming| ensures incoming[j] in Ids(blocks) {
      assert incoming[j] in incoming;
      var i, e :| EdgeAt(blocks, i, e, incoming[j], b);
    }
  }

  ghost predicate Below(less: map<nat, set<nat>>, more: map<nat, set<nat>>) {
    less.Keys == more.Keys && forall b :: b in less ==> less[b] <= more[b]
  }

  /** What every step of the iteration keeps: sets only shrink towards the true dominators,
      and never past them. */
  ghost predicate Descending(blocks: seq<Block>, dominators: map<nat, set<nat>>) {
    && dominators.Keys == Ids(blocks)
    && (0 in dominators ==> dominators[0] == {0})
    && (forall b :: b in dominators ==> dominators[b] <= Ids(blocks))
    && (forall b, c :: b in dominators && b != 0 && Reaches(blocks, b) && InMeet(blocks, dominators, b, c)
                       ==> c in dominators[b])
    && (forall b, c :: b in dominators && c in Ids(blocks) && Dominates(blocks, c, b) && Reaches(blocks, b)
                       ==> c in dominators[b])
    && (forall b :: b in dominators && b != 0 && !Reaches(blocks, b) ==> dominators[b] == Ids(blocks))
  }

  /** At the fixpoint a set holds no more than the meet. */
  ghost predicate Settled(blocks: seq<Block>, dominators: map<nat, set<nat>>, b: nat)
  {
    b in dominators && b != 0 && Reaches(blocks, b)
    ==> forall c :: c in dominators[b] ==> InMeet(blocks, dominators, b, c)
  }

  lemma InitiallyDescending(blocks: seq<Block>, dominators: map<nat, set<nat>>)
    requires dominators == map b | b in Ids(blocks) :: if b == 0 then {0} else Ids(blocks)
    ensures Descending(blocks, dominators)
  {
    if 0 in dominators {
      forall c | Dominates(blocks, c, 0) ensures c == 0 { OnlyEntryDominatesEntry(blocks, c); }
    }
    forall b, c | b in dominators && b != 0 && Reaches(blocks, b) && InMeet(blocks, dominators, b, c)
      ensures c in dominators[b]
    {
      if c != b {
        var p :| HasEdge(blocks, p, b);
        assert c in dominators[p];
      }
    }
  }

  lemma TrueDominatorInMeet(blocks: seq<Block>, dominators: map<nat, set<nat>>, b: nat, c: nat)
    requires Descending(blocks, dominators)
    requires b in dominators && b != 0 && Reaches(blocks, b) && c in Ids(blocks) && Dominates(blocks, c, b)
    ensures InMeet(blocks, dominators, b, c)
  {
    if c != b {
      var path :| PathTo(blocks, path, b);
      assert |path| > 1;
      PathShrinks(blocks, path, b);
      forall p | HasEdge(blocks, p, b) ensures p in dominators && c in dominators[p] {
        var i, e :| EdgeAt(blocks, i, e, p, b);
        if Reaches(blocks, p) {
          forall toP | PathTo(blocks, toP, p) ensures c in toP {
            PathExtends(blocks, toP, p, b);
            assert c in toP + [b];
          }
          assert Dominates(blocks, c, p);
        } else if p == 0 {
          assert PathTo(blocks, [0], 0);
        }
      }
    }
  }

  lemma UpdateDescends(blocks: seq<Block>, dominators: map<nat, set<nat>>, b: nat, next: set<nat>)
    requires Descending(blocks, dominators)
    requires b in dominators && b != 0 && Reaches(blocks, b)
    requires forall c :: c in next <==> InMeet(blocks, dominators, b, c)
    ensures Descending(blocks, dominators[b := next])
    ensures Below(dominators[b := next], dominators)
  {
    var after := dominators[b := next];
    assert Below(after, dominators);
    forall d, c | d in after && d != 0 && Reaches(blocks, d) && InMeet(blocks, after, d, c)
      ensures c in after[d]
    {
      assert InMeet(blocks, dominators, d, c);
    }
    forall d, c | d in after && c in Ids(blocks) && Dominates(blocks, c, d) && Reaches(blocks, d)
      ensures c in after[d]
    {
      if d == b { TrueDominatorInMeet(blocks, dominators, b, c); }
    }
  }

  lemma {:induction false} SettledIsDominated(
    blocks: seq<Block>, dominators: map<nat, set<nat>>, path: seq<nat>, b: nat, c: nat)
    requires Descending(blocks, dominators)
    requires forall d :: Settled(blocks, dominators, d)
    requires PathTo(blocks, path, b) && b in dominators && c in dominators[b]
    ensures c in path
    decreases |path|
  {
    if b != 0 && c != b {
      assert Settled(blocks, dominators, b);
      assert |path| > 1;
      PathShrinks(blocks, path, b);
      var n := |path| - 1;
      assert c in dominators[path[n - 1]];
      SettledIsDominated(blocks, dominators, path[..n], path[n - 1], c);
    }
  }

  function Pairs(dominators: map<nat, set<nat>>): set<(nat, nat)> {
    set b, c | b in dominators && c in dominators[b] :: (b, c)
  }

  lemma PairsShrink(less: map<nat, set<nat>>, more: map<nat, set<nat>>, b: nat)
    requires Below(less, more) && b in more && less[b] != more[b]
    ensures Pairs(less) < Pairs(more)
  {
    var c :| c in more[b] && c !in less[b];
    assert (b, c) in Pairs(more) && (b, c) !in Pairs(less);
  }

  lemma PairsBelow(less: map<nat, set<nat>>, more: map<nat, set<nat>>)
    requires Below(less, more)
    ensures Pairs(less) <= Pairs(more)
  {
  }

  lemma PairsDrop(next: map<nat, set<nat>>, now: map<nat, set<nat>>, before: map<nat, set<nat>>, b: nat)
    requires Below(next, now) && Below(now, before) && b in now && next[b] != now[b]
    ensures Pairs(next) < Pairs(before) && Below(next, before)
  {
    PairsShrink(next, now, b);
    PairsBelow(now, before);
  }

  /** One sweep over the blocks in layout order. */
  method Sweep(
    blocks: seq<Block>, predecessors: map<nat, seq<nat>>, reachable: set<nat>, before: map<nat, set<nat>>)
    returns (dominators: map<nat, set<nat>>, changed: bool)
    requires forall p, t :: p in Lookup(predecessors, t) <==> HasEdge(blocks, p, t)
    requires forall b :: b in reachable <==> Reaches(blocks, b)
    requires Descending(blocks, before)
    ensures Descending(blocks, dominators)
    ensures changed ==> Pairs(dominators) < Pairs(before)
    ensures !changed ==> dominators == before && forall j :: 0 <= j < |blocks| ==> Settled(blocks, dominators, blocks[j].id)
  {
    dominators, changed := before, false;
    for i := 0 to |blocks|
      invariant Descending(blocks, dominators) && Below(dominators, before)
      invariant changed ==> Pairs(dominators) < Pairs(before)
      invariant !changed ==> dominators == before
      invariant !changed ==> forall j :: 0 <= j < i ==> Settled(blocks, dominators, blocks[j].id)
    {
      var id := blocks[i].id;
      if id != 0 && id in reachable {
        var next := MeetPredecessors(blocks, dominators, id, Lookup(predecessors, id));
        UpdateDescends(blocks, dominators, id, next);
        if next != dominators[id] {
          PairsDrop(dominators[id := next], dominators, before, id);
          dominators := dominators[id := next];
          changed := true;
        }
      }
    }
  }

  lemma SettledEverywhere(blocks: seq<Block>, dominators: map<nat, set<nat>>)
    requires dominators.Keys == Ids(blocks)
    requires forall j :: 0 <= j < |blocks| ==> Settled(blocks, dominators, blocks[j].id)
    ensures forall d :: Settled(blocks, dominators, d)
  {
    forall d ensures Settled(blocks, dominators, d) {
      if d in Ids(blocks) {
        var j :| 0 <= j < |blocks| && blocks[j].id == d;
        assert Settled(blocks, dominators, blocks[j].id);
      }
    }
  }

  lemma SettledIsExact(blocks: seq<Block>, dominators: map<nat, set<nat>>, b: nat)
    requires Descending(blocks, dominators) && b in dominators && Reaches(blocks, b)
    requires forall d :: Settled(blocks, dominators, d)
    ensures forall c :: c in dominators[b] <==> c in Ids(blocks) && Dominates(blocks, c, b)
  {
    forall c | c in dominators[b] ensures Dominates(blocks, c, b) {
      forall path | PathTo(blocks, path, b) ensures c in path {
        SettledIsDominated(blocks, dominators, path, b, c);
      }
    }
  }

  /** The iteration to a fixpoint, and the textbook statement of what it finds: for a
      reachable block, exactly the blocks that lie on every path to it. */
  method ComputeDominators(
    blocks: seq<Block>, predecessors: map<nat, seq<nat>>, reachable: set<nat>)
    returns (dominators: map<nat, set<nat>>)
    requires forall p, t :: p in Lookup(predecessors, t) <==> HasEdge(blocks, p, t)
    requires forall b :: b in reachable <==> Reaches(blocks, b)
    ensures dominators.Keys == Ids(blocks)
    ensures forall b, c :: b in dominators && Reaches(blocks, b) ==>
      (c in dominators[b] <==> c in Ids(blocks) && Dominates(blocks, c, b))
  {
    var ids := Ids(blocks);
    dominators := map b | b in ids :: if b == 0 then {0} else ids;
    InitiallyDescending(blocks, dominators);
    var changed := true;
    while changed
      invariant Descending(blocks, dominators)
      invariant !changed ==> forall j :: 0 <= j < |blocks| ==> Settled(blocks, dominators, blocks[j].id)
      decreases Pairs(dominators), changed
    {
      dominators, changed := Sweep(blocks, predecessors, reachable, dominators);
    }
    SettledEverywhere(blocks, dominators);
    forall b | b in dominators && Reaches(blocks, b)
      ensures forall c :: c in dominators[b] <==> c in Ids(blocks) && Dominates(blocks, c, b)
    {
      SettledIsExact(blocks, dominators, b);
    }
  }

  // ----- definitions -----

  function ParamDef(block: Block, j: nat): (int, Definition)
    requires j < |block.params|
  {
    (block.params[j].reg, Definition(block.id, -1, block.params[j].ty))
  }

  function StepDef(block: Block, k: nat): (int, Definition)
    requires k < |block.steps|
  {
    (block.steps[k].def.reg, Definition(block.id, k, block.steps[k].def.ty))
  }

  function ParamDefs(block: Block, n: nat): seq<(int, Definition)>
    requires n <= |block.params|
  {
    if n == 0 then [] else ParamDefs(block, n - 1) + [ParamDef(block, n - 1)]
  }

  function StepDefs(block: Block, n: nat): seq<(int, Definition)>
    requires n <= |block.steps|
  {
    if n == 0 then []
    else if block.steps[n - 1].defines
    then StepDefs(block, n - 1) + [StepDef(block, n - 1)]
    else StepDefs(block, n - 1)
  }

  /** Every definition of the first n blocks, in program order. */
  function DefsOf(blocks: seq<Block>, n: nat): seq<(int, Definition)>
    requires n <= |blocks|
  {
    if n == 0 then []
    else
      var block := blocks[n - 1];
      DefsOf(blocks, n - 1) + ParamDefs(block, |block.params|) + StepDefs(block, |block.steps|)
  }

  function AllDefs(blocks: seq<Block>): seq<(int, Definition)> {
    DefsOf(blocks, |blocks|)
  }

  /** Each register number is non-negative and defined once. */
  ghost predicate SingleDefs(defs: seq<(int, Definition)>) {
    (forall k :: 0 <= k < |defs| ==> defs[k].0 >= 0) &&
    (forall j, k :: 0 <= j < k < |defs| ==> defs[j].0 != defs[k].0)
  }

  ghost predicate Collected(defs: seq<(int, Definition)>, ok: bool, table: map<int, Definition>) {
    (ok <==> SingleDefs(defs)) &&
    (ok ==> forall r, d :: r in table && table[r] == d <==> (r, d) in defs)
  }

  /** One emplace into the definition table. */
  method Define(
    ok: bool, table: map<int, Definition>, def: (int, Definition), ghost defs: seq<(int, Definition)>)
    returns (ok': bool, table': map<int, Definition>)
    requires Collected(defs, ok, table)
    ensures Collected(defs + [def], ok', table')
  {
    var r := def.0;
    ghost var longer := defs + [def];
    assert forall k :: 0 <= k < |defs| ==> longer[k] == defs[k];
    if !ok { NotSingleStays(defs, def); }
    if r < 0 || r in table {
      if r < 0 {
        assert longer[|defs|].0 < 0;
      } else if ok {
        assert (r, table[r]) in defs;
        ghost var k :| 0 <= k < |defs| && defs[k] == (r, table[r]);
        assert longer[k].0 == longer[|defs|].0;
      }
      return false, table;
    }
    ok', table' := ok, table[r := def.1];
    if ok {
      forall k | 0 <= k < |defs| ensures defs[k].0 != r {
        assert (defs[k].0, defs[k].1) in defs;
      }
      assert SingleDefs(longer);
    }
  }

  lemma NotSingleStays(defs: seq<(int, Definition)>, last: (int, Definition))
    requires !SingleDefs(defs)
    ensures !SingleDefs(defs + [last])
  {
    var longer := defs + [last];
    assert forall k :: 0 <= k < |defs| ==> longer[k] == defs[k];
  }

  method CollectDefinitions(blocks: seq<Block>) returns (ok: bool, table: map<int, Definition>)
    ensures Collected(AllDefs(blocks), ok, table)
  {
    ok, table := true, map[];
    for i := 0 to |blocks|
      invariant Collected(DefsOf(blocks, i), ok, table)
    {
      var block := blocks[i];
      ghost var before := DefsOf(blocks, i);
      assert before + ParamDefs(block, 0) == before;
      for j := 0 to |block.params|
        invariant Collected(before + ParamDefs(block, j), ok, table)
      {
        ok, table := Define(ok, table, ParamDef(block, j), before + ParamDefs(block, j));
        assert before + ParamDefs(block, j + 1) == before + ParamDefs(block, j) + [ParamDef(block, j)];
      }
      before := before + ParamDefs(block, |block.params|);
      assert before + StepDefs(block, 0) == before;
      for k := 0 to |block.steps|
        invariant Collected(before + StepDefs(block, k), ok, table)
      {
        if block.steps[k].defines {
          ok, table := Define(ok, table, StepDef(block, k), before + StepDefs(block, k));
          assert before + StepDefs(block, k + 1) == before + StepDefs(block, k) + [StepDef(block, k)];
        }
      }
    }
  }

  // ----- a valid function -----

  /** Register r was defined before step k of block b, on every path that gets there. */
  ghost predicate Available(blocks: seq<Block>, b: nat, k: int, r: int) {
    exists d :: (r, d) in AllDefs(blocks) &&
      (if d.block == b then d.index < k || d.index < 0 else Dominates(blocks, d.block, b))
  }

  ghost predicate UsesAvailable(blocks: seq<Block>, i: nat)
    requires i < |blocks|
  {
    var block := blocks[i];
    && (forall k, u :: 0 <= k < |block.steps| && 0 <= u < |block.steps[k].uses|
                       ==> Available(blocks, block.id, k, block.steps[k].uses[u]))
    && (forall u :: 0 <= u < |block.termUses| ==> Available(blocks, block.id, |block.steps|, block.termUses[u]))
    && (forall e, u :: 0 <= e < |block.edges| && 0 <= u < |block.edges[e].args|
                       ==> Available(blocks, block.id, |block.steps|, block.edges[e].args[u]))
  }

  /** The block an id names: the first one that carries it, or -1. */
  function IndexOf(blocks: seq<Block>, id: nat): (i: int)
    ensures -1 <= i < |blocks|
    ensures i >= 0 ==> blocks[i].id == id
    ensures i == -1 ==> forall j :: 0 <= j < |blocks| ==> blocks[j].id != id
  {
    if |blocks| == 0 then -1
    else
      var before := IndexOf(blocks[..|blocks| - 1], id);
      if before >= 0 then before
      else if blocks[|blocks| - 1].id == id then |blocks| - 1 else -1
  }

  predicate EdgesFit(blocks: seq<Block>, i: nat)
    requires i < |blocks|
  {
    forall e | 0 <= e < |blocks[i].edges| ::
      var t := IndexOf(blocks, blocks[i].edges[e].target);
      t >= 0 && |blocks[t].params| == |blocks[i].edges[e].args|
  }

  /** What the verifiers promise about definitions and control flow. */
  ghost predicate Valid(blocks: seq<Block>) {
    && UniqueIds(blocks)
    && 0 in Ids(blocks)
    && SingleDefs(AllDefs(blocks))
    && (forall b :: b in Ids(blocks) ==> Reaches(blocks, b))
    && (forall i :: 0 <= i < |blocks| ==> EdgesFit(blocks, i) && UsesAvailable(blocks, i))
  }

  // ----- the checks -----

  predicate CheckUse(
    table: map<int, Definition>, dominators: map<nat, set<nat>>, r: int, useBlock: nat, useIndex: int)
  {
    r in table &&
    if table[r].block == useBlock
    then !(table[r].index >= useIndex && table[r].index >= 0)
    else useBlock in dominators && table[r].block in dominators[useBlock]
  }

  lemma CheckUseIsAvailable(
    blocks: seq<Block>, table: map<int, Definition>, dominators: map<nat, set<nat>>, r: int, b: nat, k: int)
    requires Collected(AllDefs(blocks), true, table)
    requires b in dominators
    requires forall c :: c in dominators[b] <==> c in Ids(blocks) && Dominates(blocks, c, b)
    ensures CheckUse(table, dominators, r, b, k) <==> Available(blocks, b, k, r)
  {
    if r in table {
      assert (r, table[r]) in AllDefs(blocks);
      DefiningBlockExists(blocks, |blocks|, (r, table[r]));
    }
    if Available(blocks, b, k, r) {
      var d :| (r, d) in AllDefs(blocks) &&
        (if d.block == b then d.index < k || d.index < 0 else Dominates(blocks, d.block, b));
      assert r in table && table[r] == d;
    }
  }

  lemma {:induction false} DefiningBlockExists(blocks: seq<Block>, n: nat, def: (int, Definition))
    requires n <= |blocks| && def in DefsOf(blocks, n)
    ensures exists i :: 0 <= i < n && blocks[i].id == def.1.block &&
              (def in ParamDefs(blocks[i], |blocks[i].params|) || def in StepDefs(blocks[i], |blocks[i].steps|))
    ensures def.1.block in Ids(blocks)
  {
    var block := blocks[n - 1];
    if def in DefsOf(blocks, n - 1) {
      DefiningBlockExists(blocks, n - 1, def);
    } else {
      BlockDefShape(block, |block.params|, |block.steps|, def);
      assert blocks[n - 1].id == def.1.block;
    }
  }

  lemma {:induction false} BlockDefShape(block: Block, n: nat, m: nat, def: (int, Definition))
    requires n <= |block.params| && m <= |block.steps|
    ensures def in ParamDefs(block, n) <==> exists j :: 0 <= j < n && def == ParamDef(block, j)
    ensures def in StepDefs(block, m) <==>
      0 <= def.1.index < m && block.steps[def.1.index].defines && def == StepDef(block, def.1.index)
    decreases n + m
  {
    if n > 0 { BlockDefShape(block, n - 1, m, def); }
    if m > 0 { BlockDefShape(block, n, m - 1, def); }
  }

  method CheckBlockUses(
    blocks: seq<Block>, i: nat, table: map<int, Definition>, dominators: map<nat, set<nat>>)
    returns (ok: bool)
    requires i < |blocks|
    requires Collected(AllDefs(blocks), true, table)
    requires blocks[i].id in dominators
    requires forall c :: c in dominators[blocks[i].id] <==> c in Ids(blocks) && Dominates(blocks, c, blocks[i].id)
    ensures ok <==> UsesAvailable(blocks, i)
  {
    var block := blocks[i];
    forall r, k ensures CheckUse(table, dominators, r, block.id, k) <==> Available(blocks, block.id, k, r) {
      CheckUseIsAvailable(blocks, table, dominators, r, block.id, k);
    }
    ok := true;
    for k := 0 to |block.steps|
      invariant ok <==> forall j, u :: 0 <= j < k && 0 <= u < |block.steps[j].uses|
                                       ==> Available(blocks, block.id, j, block.steps[j].uses[u])
    {
      var uses := block.steps[k].uses;
      if !forall u | 0 <= u < |uses| :: CheckUse(table, dominators, uses[u], block.id, k) { ok := false; }
    }
    var n := |block.steps|;
    if !forall u | 0 <= u < |block.termUses| :: CheckUse(table, dominators, block.termUses[u], block.id, n) {
      ok := false;
    }
    ghost var stepsAndTerm := ok;
    for e := 0 to |block.edges|
      invariant ok <==> (stepsAndTerm && forall j, u :: 0 <= j < e && 0 <= u < |block.edges[j].args| ==>
                                           Available(blocks, block.id, n, block.edges[j].args[u]))
    {
      var args := block.edges[e].args;
      if !forall u | 0 <= u < |args| :: CheckUse(table, dominators, args[u], block.id, n) { ok := false; }
    }
  }

  method HasUniqueIds(blocks: seq<Block>) returns (ok: bool)
    ensures ok <==> UniqueIds(blocks)
  {
    ok := true;
    var seen: set<nat> := {};
    for i := 0 to |blocks|
      invariant seen == set j | 0 <= j < i :: blocks[j].id
      invariant ok <==> UniqueIds(blocks[..i])
    {
      if blocks[i].id in seen { ok := false; }
      seen := seen + {blocks[i].id};
    }
    assert blocks[..|blocks|] == blocks;
  }

  /** The verdict is exactly validity, whose clauses speak of paths and not of the algorithm.
      The verifiers go on to further diagnostics after a failure; the verdict is the same. */
  method Verify(blocks: seq<Block>) returns (ok: bool)
    ensures ok <==> Valid(blocks)
  {
    var unique := HasUniqueIds(blocks);
    var single, table := CollectDefinitions(blocks);
    if !unique || !single || 0 !in Ids(blocks) { return false; }
    var successors, predecessors := BuildEdges(blocks);
    var reachable := ComputeReachable(blocks, successors);
    if !(Ids(blocks) <= reachable) { return false; }
    var dominators := ComputeDominators(blocks, predecessors, reachable);
    ok := true;
    for i := 0 to |blocks|
      invariant ok <==> forall j :: 0 <= j < i ==> EdgesFit(blocks, j) && UsesAvailable(blocks, j)
    {
      assert blocks[i].id in Ids(blocks);
      var uses := CheckBlockUses(blocks, i, table, dominators);
      if !uses || !EdgesFit(blocks, i) { ok := false; }
    }
  }

  // ----- types -----

  /** The type the definitions give a register; the last definition wins. */
  function TypeIn(defs: seq<(int, Definition)>, r: int): PrimitiveType {
    if |defs| == 0 then ErrorType
    else if defs[|defs| - 1].0 == r then defs[|defs| - 1].1.ty
    else TypeIn(defs[..|defs| - 1], r)
  }

  lemma {:induction false} TypeOfDefinition(defs: seq<(int, Definition)>, def: (int, Definition))
    requires SingleDefs(defs) && def in defs
    ensures TypeIn(defs, def.0) == def.1.ty
  {
    var n := |defs| - 1;
    if defs[n] != def {
      var k :| 0 <= k < n && defs[k] == def;
      assert defs[..n][k] == def;
      TypeOfDefinition(defs[..n], def);
    }
  }

  function TypeOf(blocks: seq<Block>, r: int): PrimitiveType {
    TypeIn(AllDefs(blocks), r)
  }

  lemma ParamType(blocks: seq<Block>, i: nat, j: nat)
    requires Valid(blocks) && i < |blocks| && j < |blocks[i].params|
    ensures TypeOf(blocks, blocks[i].params[j].reg) == blocks[i].params[j].ty
    ensures blocks[i].params[j].reg >= 0
  {
    var def := ParamDef(blocks[i], j);
    BlockDefShape(blocks[i], |blocks[i].params|, |blocks[i].steps|, def);
    DefMembership(blocks, i, def);
    TypeOfDefinition(AllDefs(blocks), def);
  }

  lemma StepType(blocks: seq<Block>, i: nat, k: nat)
    requires Valid(blocks) && i < |blocks| && k < |blocks[i].steps| && blocks[i].steps[k].defines
    ensures TypeOf(blocks, blocks[i].steps[k].def.reg) == blocks[i].steps[k].def.ty
    ensures blocks[i].steps[k].def.reg >= 0
  {
    var def := StepDef(blocks[i], k);
    BlockDefShape(blocks[i], |blocks[i].params|, |blocks[i].steps|, def);
    DefMembership(blocks, i, def);
    TypeOfDefinition(AllDefs(blocks), def);
  }

  // ----- what validity buys along a run -----

  lemma DefMembership(blocks: seq<Block>, i: nat, def: (int, Definition))
    requires i < |blocks|
    requires def in ParamDefs(blocks[i], |blocks[i].params|) || def in StepDefs(blocks[i], |blocks[i].steps|)
    ensures def in AllDefs(blocks)
  {
    DefMembershipUpTo(blocks, i, |blocks|, def);
  }

  lemma {:induction false} DefMembershipUpTo(blocks: seq<Block>, i: nat, n: nat, def: (int, Definition))
    requires i < n <= |blocks|
    requires def in ParamDefs(blocks[i], |blocks[i].params|) || def in StepDefs(blocks[i], |blocks[i].steps|)
    ensures def in DefsOf(blocks, n)
  {
    if i < n - 1 { DefMembershipUpTo(blocks, i, n - 1, def); }
  }

  lemma OnlyEntryDominatesEntry(blocks: seq<Block>, d: nat)
    requires 0 in Ids(blocks) && Dominates(blocks, d, 0)
    ensures d == 0
  {
    assert PathTo(blocks, [0], 0);
    assert d in [0];
  }

  lemma AvailableIsDefined(blocks: seq<Block>, b: nat, k: int, r: int)
    requires SingleDefs(AllDefs(blocks)) && Available(blocks, b, k, r)
    ensures r >= 0
  {
    var d :| (r, d) in AllDefs(blocks) &&
      (if d.block == b then d.index < k || d.index < 0 else Dominates(blocks, d.block, b));
    var j :| 0 <= j < |AllDefs(blocks)| && AllDefs(blocks)[j] == (r, d);
  }

  /** Nothing but its own parameters is available at the start of the entry block. */
  lemma EntryAvailability(blocks: seq<Block>, i: nat, r: int)
    requires Valid(blocks) && i < |blocks| && blocks[i].id == 0
    ensures Available(blocks, 0, 0, r) ==> exists j :: 0 <= j < |blocks[i].params| && blocks[i].params[j].reg == r
  {
    if Available(blocks, 0, 0, r) {
      var d :| (r, d) in AllDefs(blocks) &&
        (if d.block == 0 then d.index < 0 else Dominates(blocks, d.block, 0));
      if d.block == 0 {
        DefiningBlockExists(blocks, |blocks|, (r, d));
        var j :| 0 <= j < |blocks| && blocks[j].id == 0 &&
          ((r, d) in ParamDefs(blocks[j], |blocks[j].params|) || (r, d) in StepDefs(blocks[j], |blocks[j].steps|));
        assert j == i;
        BlockDefShape(blocks[j], |blocks[j].params|, |blocks[j].steps|, (r, d));
      } else {
        OnlyEntryDominatesEntry(blocks, d.block);
      }
    }
  }

  /** A step makes available what it defines and nothing else. */
  lemma StepAvailability(blocks: seq<Block>, i: nat, k: nat, r: int)
    requires Valid(blocks) && i < |blocks| && k < |blocks[i].steps|
    requires Available(blocks, blocks[i].id, k + 1, r)
    ensures Available(blocks, blocks[i].id, k, r) ||
            (blocks[i].steps[k].defines && blocks[i].steps[k].def.reg == r)
  {
    var b := blocks[i].id;
    var d :| (r, d) in AllDefs(blocks) &&
      (if d.block == b then d.index < k + 1 || d.index < 0 else Dominates(blocks, d.block, b));
    if d.block == b && d.index == k {
      DefiningBlockExists(blocks, |blocks|, (r, d));
      var j :| 0 <= j < |blocks| && blocks[j].id == b &&
        ((r, d) in ParamDefs(blocks[j], |blocks[j].params|) || (r, d) in StepDefs(blocks[j], |blocks[j].steps|));
      assert j == i;
      BlockDefShape(blocks[j], |blocks[j].params|, |blocks[j].steps|, (r, d));
    }
  }

  /** Crossing an edge makes available the target's parameters and nothing else. */
  lemma EdgeAvailability(blocks: seq<Block>, i: nat, e: nat, t: nat, r: int)
    requires Valid(blocks) && i < |blocks| && e < |blocks[i].edges|
    requires t < |blocks| && blocks[t].id == blocks[i].edges[e].target
    requires Available(blocks, blocks[t].id, 0, r)
    ensures Available(blocks, blocks[i].id, |blocks[i].steps|, r) ||
            exists j :: 0 <= j < |blocks[t].params| && blocks[t].params[j].reg == r
  {
    var b, target := blocks[i].id, blocks[t].id;
    var d :| (r, d) in AllDefs(blocks) &&
      (if d.block == target then d.index < 0 else Dominates(blocks, d.block, target));
    DefiningBlockExists(blocks, |blocks|, (r, d));
    var j :| 0 <= j < |blocks| && blocks[j].id == d.block &&
      ((r, d) in ParamDefs(blocks[j], |blocks[j].params|) || (r, d) in StepDefs(blocks[j], |blocks[j].steps|));
    BlockDefShape(blocks[j], |blocks[j].params|, |blocks[j].steps|, (r, d));
    if d.block == target {
      assert j == t;
    } else {
      assert EdgeAt(blocks, i, e, b, target);
      if d.block == b {
        assert j == i;
      } else {
        forall path | PathTo(blocks, path, b) ensures d.block in path {
          PathExtends(blocks, path, b, target);
          assert d.block in path + [target];
        }
      }
    }
  }

  /** Two definitions of one block never share a register. */
  lemma StepsDefineApart(blocks: seq<Block>, i: nat, j: nat, k: nat)
    requires Valid(blocks) && i < |blocks| && j < k < |blocks[i].steps|
    requires blocks[i].steps[j].defines && blocks[i].steps[k].defines
    ensures blocks[i].steps[j].def.reg != blocks[i].steps[k].def.reg
  {
    var b := blocks[i];
    var d1, d2 := StepDef(b, j), StepDef(b, k);
    BlockDefShape(b, |b.params|, |b.steps|, d1);
    BlockDefShape(b, |b.params|, |b.steps|, d2);
    DefMembership(blocks, i, d1);
    DefMembership(blocks, i, d2);
  }

  lemma SinglePart(x: seq<(int, Definition)>, y: seq<(int, Definition)>, z: seq<(int, Definition)>)
    requires SingleDefs(x + y + z)
    ensures SingleDefs(x) && SingleDefs(y)
  {
    var all := x + y + z;
    assert forall k :: 0 <= k < |x| ==> all[k] == x[k];
    assert forall k :: 0 <= k < |y| ==> all[|x| + k] == y[k];
  }

  lemma {:induction false} ParamDefAt(block: Block, n: nat, j: nat)
    requires j < n <= |block.params|
    ensures |ParamDefs(block, n)| == n && ParamDefs(block, n)[j] == ParamDef(block, j)
  {
    if j < n - 1 { ParamDefAt(block, n - 1, j); } else if n > 1 { ParamDefAt(block, n - 1, 0); }
  }

  lemma {:induction false} ParamsSingle(blocks: seq<Block>, n: nat, i: nat)
    requires i < n <= |blocks| && SingleDefs(DefsOf(blocks, n))
    ensures SingleDefs(ParamDefs(blocks[i], |blocks[i].params|))
  {
    var block := blocks[n - 1];
    SinglePart(DefsOf(blocks, n - 1), ParamDefs(block, |block.params|), StepDefs(block, |block.steps|));
    if i < n - 1 { ParamsSingle(blocks, n - 1, i); }
  }

  /** A block's parameters are different registers. */
  lemma ParamsDefineApart(blocks: seq<Block>, i: nat)
    requires Valid(blocks) && i < |blocks|
    ensures forall j, k :: 0 <= j < k < |blocks[i].params| ==> blocks[i].params[j].reg != blocks[i].params[k].reg
  {
    ParamsSingle(blocks, |blocks|, i);
    var n := |blocks[i].params|;
    forall j, k | 0 <= j < k < n ensures blocks[i].params[j].reg != blocks[i].params[k].reg {
      ParamDefAt(blocks[i], n, j);
      ParamDefAt(blocks[i], n, k);
    }
  }
}
