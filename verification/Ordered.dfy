/** What the gameplay kernel uses of std::map: iteration in key order, and rebuilding a map from
    a list of entries that carry their keys. */
module Ordered {

  predicate IsLeast(s: set<nat>, x: nat) {
    x in s && forall y | y in s :: x <= y
  }

  lemma {:induction false} LeastExists(s: set<nat>)
    requires s != {}
    ensures exists x :: IsLeast(s, x)
    decreases |s|
  {
    var x :| x in s;
    if IsLeast(s, x) { return; }
    var rest := s - {x};
    var y :| y in s && y < x;
    assert y in rest;
    LeastExists(rest);
    var z :| IsLeast(rest, z);
    forall w | w in s ensures z <= w {
      if w != x { assert w in rest; }
    }
    assert IsLeast(s, z);
  }

  function Least(s: set<nat>): (x: nat)
    requires s != {}
    ensures IsLeast(s, x)
  {
    LeastExists(s);
    var x :| IsLeast(s, x);
    x
  }

  /** The members of s in order. */
  function Ascending(s: set<nat>): (keys: seq<nat>)
    ensures forall k :: k in keys <==> k in s
    ensures forall i, j :: 0 <= i < j < |keys| ==> keys[i] < keys[j]
  {
    if s == {} then []
    else
      var x := Least(s);
      var rest := Ascending(s - {x});
      assert forall j :: 0 <= j < |rest| ==> rest[j] in rest && x < rest[j];
      [x] + rest
  }

  /** The values of a map, in the order of their keys. */
  function Values<T>(m: map<nat, T>): (list: seq<T>)
    ensures |list| == |Ascending(m.Keys)|
    ensures forall i :: 0 <= i < |list| ==> Ascending(m.Keys)[i] in m && list[i] == m[Ascending(m.Keys)[i]]
  {
    var keys := Ascending(m.Keys);
    assert forall i :: 0 <= i < |keys| ==> keys[i] in keys;
    seq(|keys|, i requires 0 <= i < |keys| => m[keys[i]])
  }

  /** The map that emplacing the entries one by one builds: the first entry of a key stays. */
  function Emplaced<T>(list: seq<T>, key: T -> nat): map<nat, T> {
    if |list| == 0 then map[]
    else
      var n := |list| - 1;
      var before := Emplaced(list[..n], key);
      if key(list[n]) in before then before else before[key(list[n]) := list[n]]
  }

  predicate DistinctKeys<T>(list: seq<T>, key: T -> nat) {
    forall i, j | 0 <= i < j < |list| :: key(list[i]) != key(list[j])
  }

  lemma {:induction false} EmplacedFromList<T>(list: seq<T>, key: T -> nat)
    ensures forall k :: k in Emplaced(list, key) ==> Emplaced(list, key)[k] in list && key(Emplaced(list, key)[k]) == k
    ensures forall i :: 0 <= i < |list| ==> key(list[i]) in Emplaced(list, key)
  {
    if |list| > 0 {
      var n := |list| - 1;
      EmplacedFromList(list[..n], key);
      assert forall i :: 0 <= i < n ==> list[..n][i] == list[i];
      assert forall x :: x in list[..n] ==> x in list;
    }
  }

  lemma EmplacedAt<T>(list: seq<T>, key: T -> nat, i: nat)
    requires DistinctKeys(list, key) && i < |list|
    ensures key(list[i]) in Emplaced(list, key) && Emplaced(list, key)[key(list[i])] == list[i]
  {
    EmplacedFromList(list, key);
    var x := Emplaced(list, key)[key(list[i])];
    var j :| 0 <= j < |list| && list[j] == x;
    assert j == i;
  }

  /** A map whose values know their keys survives the trip through a list. */
  lemma ListingRoundTrips<T>(m: map<nat, T>, key: T -> nat)
    requires forall k :: k in m ==> key(m[k]) == k
    ensures DistinctKeys(Values(m), key)
    ensures Emplaced(Values(m), key) == m
  {
    hide Values, Ascending, Emplaced;
    var list, keys := Values(m), Ascending(m.Keys);
    assert forall i :: 0 <= i < |list| ==> key(list[i]) == keys[i];
    assert DistinctKeys(list, key);
    EmplacedFromList(list, key);
    forall k | k in m ensures k in Emplaced(list, key) && Emplaced(list, key)[k] == m[k] {
      assert k in keys;
      var i :| 0 <= i < |keys| && keys[i] == k;
      EmplacedAt(list, key, i);
    }
    forall k | k in Emplaced(list, key) ensures k in m {
      ListedIsInMap(m, Emplaced(list, key)[k]);
    }
    assert Emplaced(list, key).Keys == m.Keys;
  }

  lemma ListedIsInMap<T>(m: map<nat, T>, x: T)
    requires x in Values(m)
    ensures exists k :: k in m && m[k] == x
  {
    var i :| 0 <= i < |Values(m)| && Values(m)[i] == x;
    assert Ascending(m.Keys)[i] in m;
  }

  // ----- rebuilding in a loop that stops at the first repeated key -----

  lemma SharedKey<T>(list: seq<T>, i: nat, key: T -> nat)
    requires i < |list| && key(list[i]) in Emplaced(list[..i], key)
    ensures !DistinctKeys(list, key)
  {
    EmplacedFromList(list[..i], key);
    var x := Emplaced(list[..i], key)[key(list[i])];
    var j :| 0 <= j < i && list[..i][j] == x;
    assert key(list[j]) == key(list[i]);
  }

  lemma EmplacedGrows<T>(list: seq<T>, i: nat, key: T -> nat)
    requires i < |list| && DistinctKeys(list[..i], key) && key(list[i]) !in Emplaced(list[..i], key)
    ensures DistinctKeys(list[..i + 1], key)
    ensures Emplaced(list[..i + 1], key) == Emplaced(list[..i], key)[key(list[i]) := list[i]]
  {
    assert list[..i + 1][..i] == list[..i];
    EmplacedFromList(list[..i], key);
    assert forall j :: 0 <= j < i ==> list[..i][j] == list[j];
  }
}
