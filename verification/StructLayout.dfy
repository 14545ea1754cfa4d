/** The check that struct values have a finite layout (src/compiler/Compilation.cpp:4478-4537): a
    coloured depth-first search over value fields that reports recursive layouts as RS2487. */
module StructLayout {

  /** A field; only fields of struct type matter, and those name their type. */
  datatype Field = Field(isStruct: bool, typeName: string)

  type Structs = map<string, seq<Field>>

  predicate IsValueField(f: Field) { f.isStruct && f.typeName != "" }

  /** Struct a holds a value of struct b. */
  ghost predicate Edge(structs: Structs, a: string, b: string) {
    a in structs && b in structs && exists k :: 0 <= k < |structs[a]| && IsValueField(structs[a][k]) && structs[a][k].typeName == b
  }

  /** Only fields of struct type that name one count, whatever else the struct holds. */
  lemma EdgesExactly(structs: Structs, a: string, b: string)
    ensures Edge(structs, a, b) <==>
            a in structs && b in structs && b != "" && exists f :: f in structs[a] && f.isStruct && f.typeName == b
  {
    if a in structs {
      assert forall k :: 0 <= k < |structs[a]| ==> structs[a][k] in structs[a];
    }
  }

  ghost predicate IsPath(structs: Structs, path: seq<string>) {
    forall i :: 0 <= i < |path| - 1 ==> Edge(structs, path[i], path[i + 1])
  }

  /** A path that comes back to where it began. */
  ghost predicate IsCycle(structs: Structs, path: seq<string>) {
    |path| >= 2 && path[0] == path[|path| - 1] && IsPath(structs, path)
  }

  function Begin(path: seq<string>): string { if path == [] then "" else path[0] }

  /** No struct comes twice before the way is back where it began. */
  ghost predicate IsSimple(path: seq<string>) {
    forall i, j | 0 <= i < j < |path| - 1 :: path[i] != path[j]
  }

  ghost predicate HasCycle(structs: Structs) {
    exists path :: IsCycle(structs, path)
  }

  datatype Color = White | Gray | Black

  function ColorOf(colors: map<string, Color>, name: string): Color {
    if name in colors then colors[name] else White
  }

  /** Finished structs hold only values of structs finished before them. */
  ghost predicate Layered(structs: Structs, done: seq<string>) {
    forall i, w :: 0 <= i < |done| && Edge(structs, done[i], w) ==> w in done[..i]
  }

  lemma LayeredGrows(structs: Structs, done: seq<string>, name: string)
    requires Layered(structs, done) && forall w :: Edge(structs, name, w) ==> w in done
    ensures Layered(structs, done + [name])
  {
    var longer := done + [name];
    forall i, w | 0 <= i < |longer| && Edge(structs, longer[i], w) ensures w in longer[..i] {
      if i < |done| { assert longer[..i] == done[..i]; } else { assert longer[..i] == done; }
    }
  }

  /** The position of a name in the finishing order. */
  ghost function Rank(done: seq<string>, name: string): nat
    requires name in done
    ensures Rank(done, name) < |done| && done[Rank(done, name)] == name
    ensures name !in done[..Rank(done, name)]
  {
    if done[0] == name then 0
    else
      assert done == [done[0]] + done[1..];
      var r := Rank(done[1..], name);
      assert done[..r + 1] == [done[0]] + done[1..][..r];
      r + 1
  }

  lemma EdgesGoDown(structs: Structs, done: seq<string>, a: string, b: string)
    requires Layered(structs, done) && a in done && Edge(structs, a, b)
    ensures b in done && Rank(done, b) < Rank(done, a)
  {
    var i := Rank(done, a);
    assert done[i] == a && b in done[..i];
    var j :| 0 <= j < i && done[..i][j] == b;
    assert done[j] == b;
    FirstRank(done, b, j);
  }

  lemma {:induction false} FirstRank(done: seq<string>, name: string, j: nat)
    requires j < |done| && done[j] == name
    ensures Rank(done, name) <= j
  {
    if done[0] != name {
      assert name in done[1..] by { assert done[1..][j - 1] == name; }
      FirstRank(done[1..], name, j - 1);
    }
  }

  lemma {:induction false} PathGoesDown(structs: Structs, done: seq<string>, path: seq<string>)
    requires Layered(structs, done) && IsPath(structs, path) && |path| >= 2 && path[0] in done
    ensures path[|path| - 1] in done && Rank(done, path[|path| - 1]) < Rank(done, path[0])
    decreases |path|
  {
    assert Edge(structs, path[0], path[0 + 1]);
    EdgesGoDown(structs, done, path[0], path[1]);
    if |path| > 2 {
      var rest := path[1..];
      forall i | 0 <= i < |rest| - 1 ensures Edge(structs, rest[i], rest[i + 1]) {
        assert Edge(structs, path[i + 1], path[i + 1 + 1]);
      }
      PathGoesDown(structs, done, rest);
    }
  }

  lemma LayeredIsAcyclic(structs: Structs, done: seq<string>)
    requires Layered(structs, done) && forall name :: name in structs ==> name in done
    ensures !HasCycle(structs)
  {
    forall path | IsCycle(structs, path) ensures false {
      assert Edge(structs, path[0], path[0 + 1]);
      PathGoesDown(structs, done, path);
    }
  }

  class LayoutCheck {
    const structs: Structs
    var colors: map<string, Color>
    var reported: set<string>
    var stack: seq<string>
    /** The path of each RS2487, as it is printed. */
    var diagnostics: seq<seq<string>>
    /** The structs in the order they turned black. */
    ghost var done: seq<string>

    ghost predicate Valid()
      reads this
    {
      && (forall n :: ColorOf(colors, n) == Gray <==> n in stack)
      && (forall n :: ColorOf(colors, n) == Black <==> n in done)
      && (forall n :: n in stack || n in done ==> n in structs)
      && (forall i, j :: 0 <= i < j < |stack| ==> stack[i] != stack[j])
      && IsPath(structs, stack)
      && (forall d :: d in diagnostics ==> IsCycle(structs, d) && IsSimple(d) && Begin(d) in reported)
      && (forall i, j :: 0 <= i < j < |diagnostics| ==> Begin(diagnostics[i]) != Begin(diagnostics[j]))
      && (reported == {} <==> diagnostics == [])
      && (diagnostics == [] ==> Layered(structs, done))
    }

    ghost function WhiteStructs(): set<string>
      reads this
    {
      set n | n in structs && ColorOf(colors, n) == White
    }

    constructor (structs: Structs)
      ensures Valid() && this.structs == structs && stack == [] && done == [] && diagnostics == [] && colors == map[]
    {
      this.structs := structs;
      colors, reported, stack, diagnostics, done := map[], {}, [], [], [];
    }

    /** The path from the earlier visit of target down the stack, and back to it. */
    method ReportCycle(target: string)
      requires Valid() && target in stack && Edge(structs, stack[|stack| - 1], target)
      modifies this`diagnostics, this`reported
      ensures Valid() && diagnostics != []
      ensures if target in old(reported) then diagnostics == old(diagnostics)
              else exists d :: diagnostics == old(diagnostics) + [d] && Begin(d) == target
    {
      if target in reported { return; }
      reported := reported + {target};
      var begin := 0;
      while stack[begin] != target
        invariant begin < |stack| && target in stack[begin..]
        decreases |stack| - begin
      {
        assert stack[begin..] == [stack[begin]] + stack[begin + 1..];
        begin := begin + 1;
      }
      var cycle := stack[begin..] + [target];
      forall i | 0 <= i < |cycle| - 1 ensures Edge(structs, cycle[i], cycle[i + 1]) {
        if i < |cycle| - 2 { assert Edge(structs, stack[begin + i], stack[begin + i + 1]); }
      }
      diagnostics := diagnostics + [cycle];
    }

    method Visit(name: string)
      requires Valid() && name in structs && ColorOf(colors, name) == White
      requires stack == [] || Edge(structs, stack[|stack| - 1], name)
      modifies this
      ensures Valid() && stack == old(stack) && name in done
      ensures WhiteStructs() < old(WhiteStructs())
      ensures forall n :: n in old(done) ==> n in done
      ensures old(diagnostics) != [] ==> diagnostics != []
      decreases WhiteStructs()
    {
      hide Layered, IsPath, IsCycle;
      Enter(name);
      var fields := structs[name];
      for k := 0 to |fields|
        invariant Valid() && stack == old(stack) + [name] && WhiteStructs() < old(WhiteStructs())
        invariant forall n :: n in old(done) ==> n in done
        invariant old(diagnostics) != [] ==> diagnostics != []
        invariant diagnostics == [] ==>
          forall j :: 0 <= j < k && IsValueField(fields[j]) && fields[j].typeName in structs ==> fields[j].typeName in done
      {
        if !IsValueField(fields[k]) { continue; }
        var target := fields[k].typeName;
        var color := ColorOf(colors, target);
        if color == White {
          if target in structs {
            assert Edge(structs, name, target);
            Visit(target);
          }
        } else if color == Gray {
          assert Edge(structs, name, target);
          ReportCycle(target);
        }
      }
      Leave(name);
    }

    method Enter(name: string)
      requires Valid() && name in structs && ColorOf(colors, name) == White
      requires stack == [] || Edge(structs, stack[|stack| - 1], name)
      modifies this`colors, this`stack
      ensures Valid() && stack == old(stack) + [name] && WhiteStructs() < old(WhiteStructs())
    {
      assert name in WhiteStructs();
      colors := colors[name := Gray];
      stack := stack + [name];
      assert forall n :: n in stack <==> n in old(stack) || n == name;
    }

    method Leave(name: string)
      requires Valid() && stack != [] && stack[|stack| - 1] == name
      requires diagnostics == [] ==> forall w :: Edge(structs, name, w) ==> w in done
      modifies this`colors, this`stack, this`done
      ensures Valid() && stack == old(stack)[..|old(stack)| - 1] && done == old(done) + [name] &&
          WhiteStructs() <= old(WhiteStructs())
    {
      if diagnostics == [] { LayeredGrows(structs, done, name); }
      stack := stack[..|stack| - 1];
      colors := colors[name := Black];
      done := done + [name];
      assert old(stack) == stack + [name];
      assert forall n :: n in old(stack) <==> n in stack || n == name;
      assert forall i :: 0 <= i < |stack| ==> old(stack)[i] != old(stack)[|stack|];
      assert name !in stack;
    }
  }

  /** For any collection of structs, visited in any order: RS2487 is reported exactly when some struct
      holds a value of itself, directly or through others; every path it prints is such a cycle, without
      detours, and no two begin at the same struct. */
  method CheckLayouts(structs: Structs, order: seq<string>) returns (diagnostics: seq<seq<string>>)
    requires forall n :: n in structs <==> n in order
    ensures diagnostics != [] <==> HasCycle(structs)
    ensures forall d :: d in diagnostics ==> IsCycle(structs, d) && IsSimple(d)
    ensures forall i, j :: 0 <= i < j < |diagnostics| ==> Begin(diagnostics[i]) != Begin(diagnostics[j])
  {
    var check := new LayoutCheck(structs);
    for k := 0 to |order|
      invariant check.Valid() && check.structs == structs && check.stack == []
      invariant forall j :: 0 <= j < k ==> order[j] in check.done
    {
      if ColorOf(check.colors, order[k]) == White { check.Visit(order[k]); }
    }
    diagnostics := check.diagnostics;
    if diagnostics == [] {
      LayeredIsAcyclic(structs, check.done);
    } else {
      assert diagnostics[0] in diagnostics;
    }
  }
}
