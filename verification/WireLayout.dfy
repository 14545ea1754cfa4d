/** Bytes at their places: what is written stands in a buffer exactly where each number, one byte after
    the other, and each element of a list has its place.  Used for both codecs. */
module WireLayout {
  import opened Scalars
  import opened Wire

  // ----- numbers -----

  /** Four bytes, the low one first. */
  predicate Has4(b: Bytes, p: nat, n: nat) {
    && p + 4 <= |b|
    && b[p] == n % 0x100 && b[p + 1] == n / 0x100 % 0x100 && b[p + 2] == n / 0x1_0000 % 0x100
    && b[p + 3] == n / 0x100_0000 % 0x100
  }

  predicate Has8(b: Bytes, p: nat, n: nat) {
    p + 8 <= |b| && Has4(b, p, n) && Has4(b, p + 4, n / 0x1_0000_0000)
  }

  /** Two's complement. */
  predicate HasInt(b: Bytes, p: nat, n: int) {
    InInt32(n) && Has4(b, p, if n < 0 then n + 0x1_0000_0000 else n)
  }

  predicate HasLong(b: Bytes, p: nat, n: int) {
    InInt64(n) && Has8(b, p, if n < 0 then n + 0x1_0000_0000_0000_0000 else n)
  }

  lemma LittleStep(n: nat, k: nat)
    requires k > 0
    ensures Little(n, k) == [n % 0x100] + Little(n / 0x100, k - 1)
  {
  }

  lemma FourMore(n: nat, k: nat)
    ensures Little(n, 4 + k) == [n % 0x100, n / 0x100 % 0x100, n / 0x1_0000 % 0x100, n / 0x100_0000 % 0x100] +
                                Little(n / 0x1_0000_0000, k)
  {
    hide Little;
    var n1 := n / 0x100;
    var n2 := n1 / 0x100;
    var n3 := n2 / 0x100;
    LittleStep(n, 4 + k);
    LittleStep(n1, 3 + k);
    LittleStep(n2, 2 + k);
    LittleStep(n3, 1 + k);
    assert n2 == n / 0x1_0000 && n3 == n / 0x100_0000 && n3 / 0x100 == n / 0x1_0000_0000;
  }

  lemma NoBytes(n: nat)
    ensures Little(n, 0) == []
  {
  }

  lemma Stands4(b: Bytes, p: nat, n: nat)
    ensures Stands(b, p, Little(n, 4)) <==> Has4(b, p, n)
  {
    FourMore(n, 0);
    if p + 4 <= |b| {
      assert b[p..p + 4] == [b[p], b[p + 1], b[p + 2], b[p + 3]];
    }
  }

  lemma Stands8(b: Bytes, p: nat, n: nat)
    ensures Stands(b, p, Little(n, 8)) <==> Has8(b, p, n)
  {
    hide Has4, Stands, Little;
    FourMore(n, 4);
    FourMore(n, 0);
    NoBytes(n / 0x1_0000_0000);
    assert Little(n, 8) == Little(n, 4) + Little(n / 0x1_0000_0000, 4);
    StandsApart(b, p, Little(n, 4), Little(n / 0x1_0000_0000, 4));
    Stands4(b, p, n);
    Stands4(b, p + 4, n / 0x1_0000_0000);
    StandsFits(b, p, Little(n, 8));
  }

  lemma StandsFits(b: Bytes, p: nat, e: Bytes)
    ensures Stands(b, p, e) ==> p + |e| <= |b|
  {
  }

  // ----- parts -----

  lemma StandsTagged(b: Bytes, p: nat, tag: Byte, e: Bytes)
    ensures Stands(b, p, [tag] + e) <==> p < |b| && b[p] == tag && Stands(b, p + 1, e)
  {
    StandsApart(b, p, [tag], e);
    if p < |b| { assert b[p..p + 1] == [b[p]]; }
  }

  lemma StandsNothing(b: Bytes, p: nat)
    ensures Stands(b, p, []) <==> p <= |b|
  {
  }

  lemma StandsOne(b: Bytes, p: nat, x: Byte)
    ensures Stands(b, p, [x]) <==> p < |b| && b[p] == x
  {
    if p < |b| { assert b[p..p + 1] == [b[p]]; }
  }

  // ----- lists -----

  /** A list's elements, one after the other from p on. */
  predicate HasAll<T(!new)>(b: Bytes, p: nat, has: (nat, T) -> bool, size: T -> nat, list: seq<T>)
    decreases |list|
  {
    if list == [] then p <= |b| else has(p, list[0]) && HasAll(b, p + size(list[0]), has, size, list[1..])
  }

  function SizeOfAll<T>(size: T -> nat, list: seq<T>): nat {
    if list == [] then 0 else size(list[0]) + SizeOfAll(size, list[1..])
  }

  /** Its number of elements in four bytes, and then they. */
  predicate HasList<T(!new)>(b: Bytes, p: nat, has: (nat, T) -> bool, size: T -> nat, list: seq<T>) {
    Has4(b, p, |list|) && HasAll(b, p + 4, has, size, list)
  }

  /** What stands for an element stands where its fields do, in as many bytes. */
  ghost predicate Described<T(!new)>(b: Bytes, write: T -> Bytes, fits: T -> bool, has: (nat, T) -> bool, size: T -> nat) {
    && (forall x | fits(x) :: |write(x)| == size(x))
    && (forall p: nat, x | fits(x) :: Stands(b, p, write(x)) <==> has(p, x))
  }

  lemma {:induction false} StandsAll<T(!new)>(
    b: Bytes, p: nat, write: T -> Bytes, fits: T -> bool, has: (nat, T) -> bool, size: T -> nat, list: seq<T>)
    requires Described(b, write, fits, has, size) && AllFit(fits, list)
    ensures Stands(b, p, WriteAll(write, list)) <==> HasAll(b, p, has, size, list)
    ensures |WriteAll(write, list)| == SizeOfAll(size, list)
    decreases |list|
  {
    if list == [] {
      StandsNothing(b, p);
    } else {
      StandsApart(b, p, write(list[0]), WriteAll(write, list[1..]));
      StandsAll(b, p + size(list[0]), write, fits, has, size, list[1..]);
    }
  }

  lemma StandsList<T(!new)>(
    b: Bytes, p: nat, write: T -> Bytes, fits: T -> bool, has: (nat, T) -> bool, size: T -> nat, list: seq<T>)
    requires Described(b, write, fits, has, size) && AllFit(fits, list)
    ensures Stands(b, p, WriteCounted(write, list)) <==> HasList(b, p, has, size, list)
    ensures |WriteCounted(write, list)| == 4 + SizeOfAll(size, list)
  {
    hide Has4, Little, Described;
    StandsApart(b, p, Little(|list|, 4), WriteAll(write, list));
    Stands4(b, p, |list|);
    StandsAll(b, p + 4, write, fits, has, size, list);
  }

  lemma {:induction false} EqualSizes<T>(size: T -> nat, each: nat, list: seq<T>)
    requires forall x :: size(x) == each
    ensures SizeOfAll(size, list) == each * |list|
  {
    if list != [] {
      EqualSizes(size, each, list[1..]);
      OneMoreOf(each, |list|);
    }
  }

  lemma OneMoreOf(each: nat, n: nat)
    requires n > 0
    ensures each * n == each + each * (n - 1)
  {
  }
}
