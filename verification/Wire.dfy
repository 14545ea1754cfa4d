/** Little-endian bytes, as the writers and readers of both codecs handle them
    (src/game/GameplayStateCodec.cpp:51-307, src/bytecode/BytecodeCodec.cpp:35-148). */
module Wire {

  type Byte = n: nat | n < 256 witness 0

  type Bytes = seq<Byte>

  function Pow256(k: nat): (p: nat)
    ensures p > 0
  {
    if k == 0 then 1 else 256 * Pow256(k - 1)
  }

  /** The k low bytes of n, lowest first. */
  function Little(n: nat, k: nat): (s: Bytes)
    ensures |s| == k
  {
    if k == 0 then [] else [n % 256] + Little(n / 256, k - 1)
  }

  function Number(s: Bytes): nat {
    if s == [] then 0 else s[0] + 256 * Number(s[1..])
  }

  lemma {:induction false} NumberOfLittle(n: nat, k: nat)
    requires n < Pow256(k)
    ensures Number(Little(n, k)) == n
  {
    if k > 0 {
      NumberOfLittle(n / 256, k - 1);
      assert Little(n, k)[1..] == Little(n / 256, k - 1);
    }
  }

  lemma {:induction false} LittleOfNumber(s: Bytes)
    ensures Little(Number(s), |s|) == s && Number(s) < Pow256(|s|)
  {
    if s != [] {
      LittleOfNumber(s[1..]);
      assert s == [s[0]] + s[1..];
    }
  }

  lemma Widths()
    ensures Pow256(1) == 0x100 && Pow256(4) == 0x1_0000_0000 && Pow256(8) == 0x1_0000_0000_0000_0000
  {
  }

  /** The bytes e stand in b at p. */
  predicate Stands(b: Bytes, p: nat, e: Bytes) {
    p + |e| <= |b| && b[p..p + |e|] == e
  }

  lemma StandsApart(b: Bytes, p: nat, x: Bytes, y: Bytes)
    ensures Stands(b, p, x + y) <==> Stands(b, p, x) && Stands(b, p + |x|, y)
  {
    var e := x + y;
    if p + |e| <= |b| {
      assert b[p..p + |e|] == b[p..p + |x|] + b[p + |x|..p + |e|];
      assert e[..|x|] == x && e[|x|..] == y;
    }
  }

  // ----- parsing -----

  datatype Fault = Truncated | Malformed | LimitExceeded

  /** What a reading function gives: the first error, or a value and the position after it. */
  datatype Parsed<T> = Fail(fault: Fault) | Got(value: T, next: nat) {
    predicate IsFailure() { Fail? }

    function PropagateFailure<U>(): Parsed<U>
      requires Fail?
    {
      Fail(fault)
    }

    function Extract(): (T, nat)
      requires Got?
    {
      (value, next)
    }
  }

  function ReadNumber(b: Bytes, p: nat, width: nat): Parsed<nat> {
    if p + width > |b| then Fail(Truncated) else Got(Number(b[p..p + width]), p + width)
  }

  /** A number is read exactly where its bytes stand. */
  lemma ReadNumberExact(b: Bytes, p: nat, width: nat, n: nat, q: nat)
    ensures ReadNumber(b, p, width) == Got(n, q) <==> n < Pow256(width) && q == p + width && Stands(b, p, Little(n, width))
    ensures ReadNumber(b, p, width).Got? ==> ReadNumber(b, p, width).next == p + width
  {
    if p + width <= |b| { LittleOfNumber(b[p..p + width]); }
    if n < Pow256(width) { NumberOfLittle(n, width); }
  }

  /** A format is exact on b when reading finds a value exactly where what is written for it stands. */
  ghost predicate ExactAt<T(!new)>(b: Bytes, p: nat, read: nat -> Parsed<T>, write: T -> Bytes, fits: T -> bool) {
    forall t, q :: read(p) == Got(t, q) <==> fits(t) && q == p + |write(t)| && Stands(b, p, write(t))
  }

  ghost predicate Exact<T(!new)>(b: Bytes, read: nat -> Parsed<T>, write: T -> Bytes, fits: T -> bool) {
    forall p :: ExactAt(b, p, read, write, fits)
  }

  /** The elements of a list, one after the other. */
  function WriteAll<T>(write: T -> Bytes, list: seq<T>): Bytes {
    if list == [] then [] else write(list[0]) + WriteAll(write, list[1..])
  }

  lemma {:induction false} OneMoreWritten<T>(write: T -> Bytes, list: seq<T>, k: nat)
    requires k < |list|
    ensures WriteAll(write, list[..k + 1]) == WriteAll(write, list[..k]) + write(list[k])
    decreases k
  {
    if k == 0 {
      assert list[..1][1..] == [];
    } else {
      OneMoreWritten(write, list[1..], k - 1);
      assert list[..k + 1][1..] == list[1..][..k] && list[..k][1..] == list[1..][..k - 1];
    }
  }

  lemma Regroup(x: Bytes, y: Bytes, z: Bytes)
    ensures x + (y + z) == x + y + z
  {
  }

  function ReadAll<T>(read: nat -> Parsed<T>, p: nat, n: nat): Parsed<seq<T>>
    decreases n
  {
    if n == 0 then Got([], p)
    else
      var (first, p) :- read(p);
      var (rest, p) :- ReadAll(read, p, n - 1);
      Got([first] + rest, p)
  }

  predicate AllFit<T>(fits: T -> bool, list: seq<T>) {
    forall i | 0 <= i < |list| :: fits(list[i])
  }

  lemma {:induction false} ReadAllWhere<T(!new)>(
    b: Bytes, read: nat -> Parsed<T>, write: T -> Bytes, fits: T -> bool, p: nat, list: seq<T>)
    requires Exact(b, read, write, fits) && AllFit(fits, list) && Stands(b, p, WriteAll(write, list))
    ensures ReadAll(read, p, |list|) == Got(list, p + |WriteAll(write, list)|)
    decreases |list|
  {
    if list != [] {
      StandsApart(b, p, write(list[0]), WriteAll(write, list[1..]));
      assert ExactAt(b, p, read, write, fits);
      assert read(p) == Got(list[0], p + |write(list[0])|);
      ReadAllWhere(b, read, write, fits, p + |write(list[0])|, list[1..]);
      assert [list[0]] + list[1..] == list && |list[1..]| == |list| - 1;
    }
  }

  lemma {:induction false} ReadAllFound<T(!new)>(
    b: Bytes, read: nat -> Parsed<T>, write: T -> Bytes, fits: T -> bool, p: nat, n: nat)
    requires Exact(b, read, write, fits) && ReadAll(read, p, n).Got?
    ensures var list := ReadAll(read, p, n).value;
            |list| == n && AllFit(fits, list) && ReadAll(read, p, n).next == p + |WriteAll(write, list)| &&
            (p <= |b| ==> Stands(b, p, WriteAll(write, list)))
    decreases n
  {
    if n > 0 {
      assert ExactAt(b, p, read, write, fits);
      var first := read(p);
      ReadAllFound(b, read, write, fits, first.next, n - 1);
      var rest := ReadAll(read, first.next, n - 1).value;
      StandsApart(b, p, write(first.value), WriteAll(write, rest));
      assert ([first.value] + rest)[1..] == rest;
    }
  }

  /** A list behind its 32-bit count, which may not exceed a limit. */
  function WriteCounted<T>(write: T -> Bytes, list: seq<T>): Bytes {
    Little(|list|, 4) + WriteAll(write, list)
  }

  function ReadCounted<T>(b: Bytes, read: nat -> Parsed<T>, maximum: nat, p: nat): Parsed<seq<T>> {
    var (n, p) :- ReadNumber(b, p, 4);
    if n > maximum then Fail(LimitExceeded) else ReadAll(read, p, n)
  }

  predicate CountFits(n: nat, maximum: nat) { n <= maximum && n < Pow256(4) }

  lemma ReadCountedExact<T(!new)>(
    b: Bytes, read: nat -> Parsed<T>, write: T -> Bytes, fits: T -> bool, maximum: nat, p: nat, list: seq<T>, q: nat)
    requires Exact(b, read, write, fits)
    ensures ReadCounted(b, read, maximum, p) == Got(list, q) <==>
            CountFits(|list|, maximum) && AllFit(fits, list) && q == p + |WriteCounted(write, list)| &&
            Stands(b, p, WriteCounted(write, list))
  {
    hide ReadNumber, Little, Exact;
    StandsApart(b, p, Little(|list|, 4), WriteAll(write, list));
    ReadNumberExact(b, p, 4, |list|, p + 4);
    if CountFits(|list|, maximum) && AllFit(fits, list) && Stands(b, p, WriteCounted(write, list)) {
      ReadAllWhere(b, read, write, fits, p + 4, list);
    }
    if ReadCounted(b, read, maximum, p) == Got(list, q) {
      var count := ReadNumber(b, p, 4);
      ReadNumberExact(b, p, 4, count.value, count.next);
      ReadAllFound(b, read, write, fits, count.next, count.value);
    }
  }

  // ----- the buffers themselves -----

  class Writer {
    var bytes: Bytes

    constructor ()
      ensures bytes == []
    {
      bytes := [];
    }

    method U8(value: Byte)
      modifies this
      ensures bytes == old(bytes) + [value]
    {
      bytes := bytes + [value];
    }

    /** u16, u32 and u64: one byte a turn, the low one first. */
    method Unsigned(value: nat, width: nat)
      modifies this
      ensures bytes == old(bytes) + Little(value, width)
    {
      var rest := value;
      for k := 0 to width
        invariant bytes + Little(rest, width - k) == old(bytes) + Little(value, width)
      {
        var low: Byte := rest % 256;
        assert bytes + Little(rest, width - k) == (bytes + [low]) + Little(rest / 256, width - k - 1);
        U8(low);
        rest := rest / 256;
      }
    }
  }

  class Reader {
    const bytes: Bytes
    const end: nat
    var position: nat

    ghost predicate Valid()
      reads this
    {
      position <= end <= |bytes|
    }

    constructor (bytes: Bytes, begin: nat, end: nat)
      requires begin <= end <= |bytes|
      ensures Valid() && this.bytes == bytes && this.end == end && position == begin
    {
      this.bytes, this.end, position := bytes, end, begin;
    }

    method U8() returns (ok: bool, value: Byte)
      requires Valid()
      modifies this
      ensures Valid() && (ok <==> old(position) < end)
      ensures ok ==> value == bytes[old(position)] && position == old(position) + 1
      ensures !ok ==> position == old(position)
    {
      if position >= end { return false, 0; }
      ok, value := true, bytes[position];
      position := position + 1;
    }

    /** Reads width bytes, or as many as there are and fails. */
    method Unsigned(width: nat) returns (ok: bool, value: nat)
      requires Valid()
      modifies this
      ensures Valid() && (ok <==> old(position) + width <= end)
      ensures ok ==> position == old(position) + width && value == Number(bytes[old(position)..position])
    {
      var weight: nat := 1;
      value := 0;
      for k := 0 to width
        invariant Valid() && position == old(position) + k && weight == Pow256(k)
        invariant value == Number(bytes[old(position)..position])
      {
        var more, byte := U8();
        if !more { return false, 0; }
        NumberGrows(bytes[old(position)..position - 1], byte);
        assert bytes[old(position)..position] == bytes[old(position)..position - 1] + [byte];
        value := value + weight * byte;
        weight := 256 * weight;
      }
      ok := true;
    }
  }

  lemma {:induction false} NumberGrows(s: Bytes, last: Byte)
    ensures Number(s + [last]) == Number(s) + Pow256(|s|) * last
  {
    if s == [] {
      assert ([] + [last])[1..] == [];
    } else {
      NumberGrows(s[1..], last);
      assert (s + [last])[1..] == s[1..] + [last];
      Shift(Pow256(|s| - 1), last);
    }
  }

  lemma Shift(p: nat, b: nat)
    ensures 256 * (p * b) == (256 * p) * b
  {
  }
}
