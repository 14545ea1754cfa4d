/** RandomStream (src/game/GameplayPrimitives.cpp:216-274): a linear congruential generator of full
    period behind a permuted output, and rejection sampling on top of it. */
module Random {

  // ----- powers of two -----

  function Pow2(k: nat): (p: nat)
    ensures p > 0
  {
    if k == 0 then 1 else 2 * Pow2(k - 1)
  }

  lemma {:induction false} Pow2Sum(j: nat, k: nat)
    ensures Pow2(j + k) == Pow2(j) * Pow2(k)
  {
    if j > 0 {
      Pow2Sum(j - 1, k);
      assert Pow2(j + k) == 2 * Pow2(j - 1 + k);
      Regroup(Pow2(j - 1), Pow2(k));
    }
  }

  lemma Regroup(x: int, y: int)
    ensures 2 * (x * y) == (2 * x) * y
  {
  }

  const TWO32: nat := 0x1_0000_0000
  const TWO64: nat := 0x1_0000_0000_0000_0000

  lemma PowersOfTwo()
    ensures Pow2(32) == TWO32 && Pow2(64) == TWO64
  {
    assert Pow2(8) == 256;
    Pow2Sum(8, 8);
    Pow2Sum(16, 16);
    Pow2Sum(32, 32);
  }

  // ----- the generator -----

  const MULTIPLIER: nat := 6364136223846793005

  function NextState(state: nat, increment: nat): nat {
    (state * MULTIPLIER + increment) % TWO64
  }

  function StateAfter(state: nat, increment: nat, n: nat): nat {
    if n == 0 then state else NextState(StateAfter(state, increment, n - 1), increment)
  }

  /** Bitwise exclusive or. */
  function Xor(a: nat, b: nat): nat {
    if a == 0 && b == 0 then 0 else 2 * Xor(a / 2, b / 2) + (a + b) % 2
  }

  /** A 32-bit word rotated right, one place at a time. */
  function RotateRight(word: nat, rotation: nat): (r: nat)
    requires word < TWO32
    ensures r < TWO32
    decreases rotation
  {
    if rotation == 0 then word else RotateRight(word / 2 + (word % 2) * 0x8000_0000, rotation - 1)
  }

  /** The word drawn from a state: high bits folded together, rotated by the topmost five. */
  function Output(state: nat): (word: nat)
    requires state < TWO64
    ensures word < TWO32
  {
    RotateRight((Xor(state / 0x4_0000, state) / 0x800_0000) % TWO32, state / 0x800_0000_0000_0000)
  }

  /** a with k zero bits behind it. */
  function Shifted(a: nat, k: nat): nat {
    if k == 0 then a else 2 * Shifted(a, k - 1)
  }

  lemma {:induction false} ShiftedIsTimes(a: nat, k: nat)
    ensures Shifted(a, k) == a * Pow2(k)
  {
    if k > 0 { ShiftedIsTimes(a, k - 1); }
  }

  lemma Bits41()
    ensures Pow2(41) == 0x200_0000_0000
  {
    assert Pow2(8) == 256;
    Pow2Sum(8, 8);
    Pow2Sum(16, 16);
    Pow2Sum(32, 8);
  }

  lemma XorUnrolls(a: nat, b: nat)
    ensures Xor(a, b) == 2 * Xor(a / 2, b / 2) + (a + b) % 2
  {
    assert Xor(0, 0) == 0;
  }

  lemma {:induction false} XorZero(a: nat)
    ensures Xor(0, a) == a
  {
    if a > 0 {
      XorUnrolls(0, a);
      XorZero(a / 2);
    }
  }

  lemma {:induction false} XorDisjoint(a: nat, b: nat, k: nat)
    requires b < Shifted(1, k)
    ensures Xor(b, Shifted(a, k)) == Shifted(a, k) + b
  {
    hide Xor;
    if k == 0 {
      XorZero(a);
    } else {
      XorUnrolls(b, Shifted(a, k));
      XorDisjoint(a, b / 2, k - 1);
    }
  }

  /** The state with bits 41 to 58 set draws the word with all bits set. */
  const TOP_STATE: nat := 0x7ff_fe00_0000_0000

  lemma TopStateDrawsTopWord()
    ensures TOP_STATE < TWO64 && Output(TOP_STATE) == TWO32 - 1
  {
    hide Xor, Shifted, Pow2;
    Bits41();
    ShiftedIsTimes(1, 41);
    ShiftedIsTimes(0x3_ffff, 41);
    XorDisjoint(0x3_ffff, 0x1ff_ff80_0000, 41);
  }

  // ----- full period -----

  /** 1 + a + ... + a^(n-1). */
  function Geometric(a: nat, n: nat): nat {
    if n == 0 then 0 else 1 + a * Geometric(a, n - 1)
  }

  function Power(a: nat, n: nat): nat {
    if n == 0 then 1 else a * Power(a, n - 1)
  }

  /** The generator without the reduction modulo 2^64. */
  function Raw(x: nat, a: nat, c: nat, n: nat): nat {
    if n == 0 then x else a * Raw(x, a, c, n - 1) + c
  }

  lemma {:induction false} RawIsGeometric(x: nat, a: nat, c: nat, n: nat)
    requires a > 0
    ensures Raw(x, a, c, n) == x + Geometric(a, n) * ((a - 1) * x + c)
  {
    if n > 0 {
      RawIsGeometric(x, a, c, n - 1);
      var g, d := Geometric(a, n - 1), (a - 1) * x + c;
      assert a * (x + g * d) == a * x + a * (g * d) by { Distribute(a, x, g * d); }
      assert (1 + a * g) * d == d + a * (g * d) by {
        Distribute(d, 1, a * g);
        Associate(a, g, d);
      }
      assert a * x == (a - 1) * x + x;
    }
  }

  lemma Distribute(x: int, y: int, z: int)
    ensures x * (y + z) == x * y + x * z
  {
  }

  lemma Associate(x: int, y: int, z: int)
    ensures (x * y) * z == x * (y * z)
  {
  }

  lemma {:induction false} GeometricSum(a: nat, m: nat, n: nat)
    ensures Geometric(a, m + n) == Geometric(a, m) + Power(a, m) * Geometric(a, n)
  {
    if m > 0 {
      GeometricSum(a, m - 1, n);
      assert Geometric(a, m + n) == 1 + a * Geometric(a, m - 1 + n);
      Distribute(a, Geometric(a, m - 1), Power(a, m - 1) * Geometric(a, n));
      Associate(a, Power(a, m - 1), Geometric(a, n));
    }
  }

  lemma {:induction false} PowerIsOneMod4(a: nat, n: nat)
    requires a % 4 == 1
    ensures Power(a, n) % 4 == 1
  {
    if n > 0 {
      PowerIsOneMod4(a, n - 1);
      var p, q := a / 4, Power(a, n - 1) / 4;
      assert a == 4 * p + 1 && Power(a, n - 1) == 4 * q + 1;
      FourTimes(p, q);
    }
  }

  lemma FourTimes(p: nat, q: nat)
    ensures (4 * p + 1) * (4 * q + 1) % 4 == 1
  {
    assert (4 * p + 1) * (4 * q + 1) == 4 * (4 * (p * q) + p + q) + 1;
  }

  lemma OddTimes(h: nat, g: nat)
    ensures (2 * h + 1) * g == 2 * (h * g) + g
  {
  }

  lemma OddProduct(a: nat, g: nat) returns (x: nat)
    requires a % 2 == 1
    ensures a * g == x + x + g
  {
    var h := a / 2;
    OddTimes(h, g);
    x := h * g;
  }

  lemma NextParity(product: nat, x: nat, g: nat, n: nat)
    requires product == x + x + g && n > 0 && g % 2 == (n - 1) % 2
    ensures (1 + product) % 2 == n % 2
  {
  }

  lemma {:induction false} GeometricParity(a: nat, n: nat)
    requires a % 4 == 1
    ensures Geometric(a, n) % 2 == n % 2
  {
    if n > 0 {
      GeometricParity(a, n - 1);
      var g := Geometric(a, n - 1);
      var x := OddProduct(a, g);
      NextParity(a * g, x, g, n);
    }
  }

  /** 2^k divides n. */
  predicate Halvable(n: nat, k: nat) {
    k == 0 || (n % 2 == 0 && Halvable(n / 2, k - 1))
  }

  lemma {:induction false} HalvableIsDivisible(n: nat, k: nat)
    ensures Halvable(n, k) <==> n % Pow2(k) == 0
  {
    if k > 0 {
      var p := Pow2(k - 1);
      if n % 2 == 0 {
        HalvableIsDivisible(n / 2, k - 1);
        EvenHalves(n / 2, p);
      } else {
        OddIsNotDivisible(n, p);
      }
    }
  }

  lemma EvenHalves(m: nat, d: nat)
    requires d > 0
    ensures (2 * m) % (2 * d) == 0 <==> m % d == 0
  {
    var q, r := m / d, m % d;
    assert 2 * m == q * (2 * d) + 2 * r;
    RemainderIs(2 * m, 2 * d, q, 2 * r);
  }

  lemma RemainderIs(a: nat, d: nat, q: nat, r: nat)
    requires d > 0 && r < d && a == q * d + r
    ensures a % d == r && a / d == q
  {
    var e := a / d - q;
    assert e * d == r - a % d;
    NonzeroMultiple(e, d);
  }

  lemma NonzeroMultiple(e: int, d: nat)
    ensures e >= 1 ==> e * d >= d
    ensures e <= -1 ==> e * d <= 0 - d
  {
  }

  lemma OddIsNotDivisible(m: nat, d: nat)
    requires m % 2 == 1 && d > 0
    ensures m % (2 * d) != 0
  {
    var q := m / (2 * d);
    assert m == q * (2 * d) + m % (2 * d);
    Associate(q, 2, d);
    Associate(2, q, d);
  }

  /** An odd factor does not help divisibility by a power of two. */
  lemma {:induction false} OddFactor(m: nat, q: nat, k: nat)
    requires q % 2 == 1
    ensures Halvable(m * q, k) <==> Halvable(m, k)
    decreases k
  {
    if k > 0 {
      OddTimes(q / 2, m);
      assert m * q == 2 * (q / 2 * m) + m;
      if m % 2 == 0 {
        Associate(2, m / 2, q);
        assert m * q / 2 == m / 2 * q;
        OddFactor(m / 2, q, k - 1);
      }
    }
  }

  /** The heart of the period: the sum is divisible by 2^k exactly when its length is. */
  lemma {:induction false} GeometricDivides(a: nat, n: nat, k: nat)
    requires a % 4 == 1
    ensures Halvable(Geometric(a, n), k) <==> Halvable(n, k)
    decreases k
  {
    hide Geometric;
    if k > 0 {
      GeometricParity(a, n);
      if n % 2 == 0 {
        var m := n / 2;
        var q := GeometricHalves(a, m);
        assert n == m + m;
        GeometricDivides(a, m, k - 1);
        OddFactor(Geometric(a, m), q, k - 1);
      }
    }
  }

  lemma GeometricHalves(a: nat, m: nat) returns (q: nat)
    requires a % 4 == 1
    ensures q % 2 == 1 && Geometric(a, m + m) == 2 * (Geometric(a, m) * q)
  {
    hide Geometric, Power;
    GeometricSum(a, m, m);
    PowerIsOneMod4(a, m);
    q := (1 + Power(a, m)) / 2;
    Doubled(Geometric(a, m), Power(a, m), q);
  }

  lemma Doubled(g: nat, p: nat, q: nat)
    requires 1 + p == 2 * q
    ensures g + p * g == 2 * (g * q)
  {
    Distribute(g, 1, p);
    Associate(2, q, g);
  }

  lemma AddMultiple(x: nat, t: nat, n: nat)
    requires n > 0
    ensures (x + t * n) % n == x % n
  {
    Distribute(n, x / n, t);
    RemainderIs(x + t * n, n, x / n + t, x % n);
  }

  lemma ModStep(r: nat, a: nat, c: nat, n: nat)
    requires n > 0
    ensures ((r % n) * a + c) % n == (a * r + c) % n
  {
    var q, m := r / n, r % n;
    assert r == q * n + m;
    Distribute(a, q * n, m);
    Associate(a, q, n);
    AddMultiple(m * a + c, a * q, n);
  }

  lemma {:induction false} StateIsRaw(state: nat, increment: nat, n: nat)
    requires state < TWO64
    ensures StateAfter(state, increment, n) == Raw(state, MULTIPLIER, increment, n) % TWO64
  {
    if n > 0 {
      StateIsRaw(state, increment, n - 1);
      ModStep(Raw(state, MULTIPLIER, increment, n - 1), MULTIPLIER, increment, TWO64);
    }
  }

  lemma MultipleVanishes(x: nat, s: nat, n: nat)
    requires n > 0 && x < n
    ensures (x + s) % n == x <==> s % n == 0
  {
    var q, r := s / n, s % n;
    AddMultiple(x + r, q, n);
    if x + r >= n { RemainderIs(x + r, n, 1, x + r - n); } else { RemainderIs(x + r, n, 0, x + r); }
  }

  lemma OddDelta(state: nat, increment: nat)
    requires increment % 2 == 1
    ensures ((MULTIPLIER - 1) * state + increment) % 2 == 1
  {
    Associate(2, (MULTIPLIER - 1) / 2, state);
  }

  /** With an odd increment the generator returns to a state after n steps exactly when n is a
      multiple of 2^64. */
  lemma ReturnsExactly(state: nat, increment: nat, n: nat)
    requires state < TWO64 && increment % 2 == 1
    ensures StateAfter(state, increment, n) == state <==> n % TWO64 == 0
  {
    hide StateAfter, Raw, Geometric, Halvable, Pow2;
    PowersOfTwo();
    StateIsRaw(state, increment, n);
    RawIsGeometric(state, MULTIPLIER, increment, n);
    var g, d := Geometric(MULTIPLIER, n), (MULTIPLIER - 1) * state + increment;
    OddDelta(state, increment);
    MultipleVanishes(state, g * d, TWO64);
    HalvableIsDivisible(g * d, 64);
    HalvableIsDivisible(n, 64);
    OddFactor(g, d, 64);
    GeometricDivides(MULTIPLIER, n, 64);
  }

  lemma {:induction false} StateAfterSum(state: nat, increment: nat, i: nat, m: nat)
    ensures StateAfter(state, increment, i + m) == StateAfter(StateAfter(state, increment, i), increment, m)
    decreases m
  {
    if m > 0 { StateAfterSum(state, increment, i, m - 1); }
  }

  lemma {:induction false} StateFits(state: nat, increment: nat, n: nat)
    requires state < TWO64
    ensures StateAfter(state, increment, n) < TWO64
  {
  }

  /** No state comes twice within one period. */
  lemma StatesDiffer(state: nat, increment: nat, i: nat, j: nat)
    requires state < TWO64 && increment % 2 == 1 && i < j < TWO64
    ensures StateAfter(state, increment, i) != StateAfter(state, increment, j)
  {
    hide StateAfter;
    StateFits(state, increment, i);
    StateAfterSum(state, increment, i, j - i);
    ReturnsExactly(StateAfter(state, increment, i), increment, j - i);
  }

  /** The states of the first n draws. */
  ghost function Visited(state: nat, increment: nat, n: nat): set<nat> {
    if n == 0 then {} else Visited(state, increment, n - 1) + {StateAfter(state, increment, n - 1)}
  }

  lemma {:induction false} VisitedWhen(state: nat, increment: nat, n: nat, y: nat) returns (i: nat)
    requires y in Visited(state, increment, n)
    ensures i < n && StateAfter(state, increment, i) == y
  {
    hide StateAfter;
    i := n - 1;
    if StateAfter(state, increment, i) != y { i := VisitedWhen(state, increment, n - 1, y); }
  }

  lemma {:induction false} VisitedSize(state: nat, increment: nat, n: nat)
    requires state < TWO64 && increment % 2 == 1 && n <= TWO64
    ensures |Visited(state, increment, n)| == n
    ensures forall y :: y in Visited(state, increment, n) ==> y < TWO64
  {
    if n > 0 {
      VisitedSize(state, increment, n - 1);
      StateFits(state, increment, n - 1);
      var last := StateAfter(state, increment, n - 1);
      if last in Visited(state, increment, n - 1) {
        var i := VisitedWhen(state, increment, n - 1, last);
        StatesDiffer(state, increment, i, n - 1);
      }
    }
  }

  ghost function Below(n: nat): set<nat> {
    if n == 0 then {} else Below(n - 1) + {n - 1}
  }

  lemma {:induction false} BelowHolds(n: nat)
    ensures |Below(n)| == n && forall i: nat :: i in Below(n) <==> i < n
  {
    if n > 0 { BelowHolds(n - 1); }
  }

  lemma {:induction false} FullSubset(a: set<nat>, b: set<nat>)
    requires a <= b && |a| == |b|
    ensures a == b
    decreases |a|
  {
    if a == {} {
      assert |b| == 0;
    } else {
      var x :| x in a;
      FullSubset(a - {x}, b - {x});
      assert a == a - {x} + {x} && b == b - {x} + {x};
    }
  }

  /** Within one period the generator comes through every state. */
  lemma EveryStateComes(state: nat, increment: nat, target: nat)
    requires state < TWO64 && increment % 2 == 1 && target < TWO64
    ensures exists n: nat :: n < TWO64 && StateAfter(state, increment, n) == target
  {
    CoverageAt(state, increment, target, TWO64);
  }

  lemma CoverageAt(state: nat, increment: nat, target: nat, n: nat)
    requires state < TWO64 && increment % 2 == 1 && target < n == TWO64
    ensures exists i: nat :: i < n && StateAfter(state, increment, i) == target
  {
    hide StateAfter, Visited;
    VisitedSize(state, increment, n);
    BelowHolds(n);
    FullSubset(Visited(state, increment, n), Below(n));
    var i := VisitedWhen(state, increment, n, target);
  }

  // ----- rejection sampling -----

  /** static_cast<uint32_t>(0u - range) % range. */
  function Threshold(range: nat): nat
    requires 0 < range <= TWO32
  {
    (TWO32 - range) % range
  }

  /** Fewer words than the range has results are thrown away, and no other threshold so low leaves a
      multiple of the range. */
  lemma ThresholdIsLeast(range: nat, t: nat)
    requires 0 < range <= TWO32
    ensures Threshold(range) < range
    ensures t < range ==> ((TWO32 - t) % range == 0 <==> t == Threshold(range))
  {
    ThresholdCutsEvenly(range);
    RemainderBelow(TWO32 - range, range);
    if t < range && (TWO32 - t) % range == 0 { SameRemainder(TWO32 - t, TWO32 - Threshold(range), range); }
  }

  /** The word of draw k. */
  function Draw(state: nat, increment: nat, k: nat): nat
    requires state < TWO64
  {
    StateFits(state, increment, k);
    Output(StateAfter(state, increment, k))
  }

  /** Some draw is accepted, whatever the range. */
  lemma AcceptedDrawComes(state: nat, increment: nat, range: nat)
    requires state < TWO64 && increment % 2 == 1 && 0 < range <= TWO32
    ensures exists k: nat :: k < TWO64 && Draw(state, increment, k) >= Threshold(range)
  {
    hide StateAfter, Output;
    TopStateDrawsTopWord();
    EveryStateComes(state, increment, TOP_STATE);
    var k: nat :| k < TWO64 && StateAfter(state, increment, k) == TOP_STATE;
    assert Draw(state, increment, k) == TWO32 - 1;
    RemainderBelow(TWO32 - range, range);
  }

  lemma NoDraw(state: nat, increment: nat)
    ensures StateAfter(state, increment, 0) == state
  {
  }

  /** That many words were drawn; the last of them decides the result and those before it are thrown away. */
  ghost predicate Decides(state: nat, increment: nat, range: nat, draws: nat, result: nat)
    requires state < TWO64 && 0 < range <= TWO32
  {
    && 0 < draws
    && Draw(state, increment, draws - 1) >= Threshold(range) && result == Draw(state, increment, draws - 1) % range
    && forall k: nat | k < draws - 1 :: Draw(state, increment, k) < Threshold(range)
  }

  /** Only words below the range are thrown away, so a first word of at least the range decides. */
  lemma FirstLargeDecides(state: nat, increment: nat, range: nat, draws: nat)
    requires state < TWO64 && 0 < range <= TWO32 && 0 < draws
    requires Draw(state, increment, draws - 1) >= Threshold(range)
    requires forall k: nat :: k < draws - 1 ==> Draw(state, increment, k) < Threshold(range)
    ensures Decides(state, increment, range, draws, Draw(state, increment, draws - 1) % range)
    ensures 0 <= Draw(state, increment, draws - 1) % range < range
    ensures forall k: nat :: k < draws - 1 ==> Draw(state, increment, k) < range
    ensures Output(state) >= range ==> draws == 1
  {
    hide Output, Threshold, StateAfter;
    ThresholdIsLeast(range, 0);
    NoDraw(state, increment);
    assert Draw(state, increment, 0) == Output(state);
    RemainderBelow(Draw(state, increment, draws - 1), range);
  }

  lemma NextDraw(state: nat, increment: nat, k: nat)
    requires state < TWO64
    ensures StateAfter(state, increment, k) < TWO64
    ensures Draw(state, increment, k) == Output(StateAfter(state, increment, k))
    ensures StateAfter(state, increment, k + 1) == NextState(StateAfter(state, increment, k), increment)
  {
    StateFits(state, increment, k);
  }

  lemma RemainderBelow(a: nat, d: nat)
    requires d > 0
    ensures a % d < d && a % d <= a
  {
    NonzeroMultiple(a / d, d);
  }

  /** The stream of seed 42 and sequence 7, as it stands before its first draw. */
  lemma KnownSeed()
    ensures (2 * 7) % TWO64 + 1 == 15
    ensures NextState((NextState(0, 15) + 42) % TWO64, 15) == 0xaa3f5e160d495114
  {
  }

  class RandomStream {
    var state: nat
    var increment: nat

    ghost predicate Valid()
      reads this
    {
      state < TWO64 && increment < TWO64 && increment % 2 == 1
    }

    /** The increment is made odd, then two draws stir the seed in. */
    constructor (seed: nat, sequence: nat)
      requires seed < TWO64 && sequence < TWO64
      ensures Valid() && increment == (2 * sequence) % TWO64 + 1
      ensures state == NextState((NextState(0, increment) + seed) % TWO64, increment)
    {
      state := 0;
      increment := (2 * sequence) % TWO64 + 1;
      new;
      var _ := NextUInt();
      state := (state + seed) % TWO64;
      var _ := NextUInt();
    }

    method NextUInt() returns (word: nat)
      requires Valid()
      modifies this`state
      ensures Valid() && word == Output(old(state)) < TWO32 && state == NextState(old(state), increment)
    {
      word := Output(state);
      state := NextState(state, increment);
    }

    /** Always ends; draws until a word reaches the threshold, and the first that does decides.  A word
        of at least the range always does. */
    method NextInt(minimum: int, maximum: int) returns (value: int, ghost draws: nat)
      requires Valid() && -0x8000_0000 <= minimum < 0x8000_0000 && -0x8000_0000 <= maximum < 0x8000_0000
      modifies this`state
      ensures Valid() && state == StateAfter(old(state), increment, draws)
      ensures maximum <= minimum ==> value == minimum && draws == 0
      ensures maximum > minimum ==>
        && minimum <= value < maximum && 0 < draws <= TWO64
        && Decides(old(state), increment, maximum - minimum, draws, value - minimum)
        && (forall k: nat :: k < draws - 1 ==> Draw(old(state), increment, k) < maximum - minimum)
        && (Output(old(state)) >= maximum - minimum ==> draws == 1)
    {
      hide Output, Threshold, StateAfter, NextState, Draw, Decides;
      draws := 0;
      NoDraw(state, increment);
      if maximum <= minimum { return minimum, 0; }
      var range := maximum - minimum;
      var threshold := Threshold(range);
      AcceptedDrawComes(state, increment, range);
      ghost var enough: nat :| enough < TWO64 && Draw(state, increment, enough) >= Threshold(range);
      NextDraw(state, increment, 0);
      var word := NextUInt();
      draws := 1;
      while word < threshold
        invariant Valid() && 0 < draws <= enough + 1 && state == StateAfter(old(state), increment, draws)
        invariant word == Draw(old(state), increment, draws - 1)
        invariant forall k: nat :: k < draws - 1 ==> Draw(old(state), increment, k) < threshold
        decreases enough + 1 - draws
      {
        NextDraw(old(state), increment, draws);
        word := NextUInt();
        draws := draws + 1;
      }
      var remainder := word % range;
      FirstLargeDecides(old(state), increment, range, draws);
      value := minimum + remainder;
    }

    method Restore(savedState: nat, savedIncrement: nat) returns (ok: bool)
      requires savedState < TWO64 && savedIncrement < TWO64
      modifies this
      ensures ok <==> savedIncrement % 2 == 1
      ensures if ok then Valid() && state == savedState && increment == savedIncrement
              else state == old(state) && increment == old(increment)
    {
      if savedIncrement % 2 == 0 { return false; }
      state, increment := savedState, savedIncrement;
      return true;
    }
  }

  // ----- no result is favoured -----

  /** The accepted words that give result v: those from low on, below low + length. */
  ghost function WordsOf(low: nat, length: nat, range: nat, v: nat): set<nat>
    requires range > 0
  {
    set w: nat | low <= w < low + length && w % range == v
  }

  lemma OnePerBlock(low: nat, range: nat, v: nat)
    requires v < range
    ensures exists w: nat :: WordsOf(low, range, range, v) == {w}
  {
    var base := low % range;
    var w := if v >= base then low - base + v else low - base + range + v;
    var q := low / range;
    assert low == q * range + base;
    RemainderIs(if v >= base then q * range + v else (q + 1) * range + v, range, if v >= base then q else q + 1, v);
    assert w % range == v;
    forall x | x in WordsOf(low, range, range, v) ensures x == w {
      SameRemainder(x, w, range);
    }
    assert w in WordsOf(low, range, range, v);
    assert WordsOf(low, range, range, v) == {w};
  }

  lemma SameRemainder(x: nat, y: nat, range: nat)
    requires range > 0 && x % range == y % range && x < y + range && y < x + range
    ensures x == y
  {
    var e := x / range - y / range;
    assert e * range == x - y;
    NonzeroMultiple(e, range);
  }

  lemma {:induction false} BlocksOfWords(low: nat, blocks: nat, range: nat, v: nat)
    requires v < range
    ensures |WordsOf(low, blocks * range, range, v)| == blocks
  {
    if blocks == 0 {
      assert WordsOf(low, 0, range, v) == {};
    } else {
      var before := (blocks - 1) * range;
      assert blocks * range == before + range;
      BlocksOfWords(low, blocks - 1, range, v);
      OnePerBlock(low + before, range, v);
      var w: nat :| WordsOf(low + before, range, range, v) == {w};
      assert WordsOf(low, blocks * range, range, v) == WordsOf(low, before, range, v) + {w};
      assert w in WordsOf(low + before, range, range, v);
    }
  }

  /** The threshold cuts off exactly as many words as make the rest a multiple of the range. */
  lemma ThresholdCutsEvenly(range: nat)
    requires 0 < range <= TWO32
    ensures Threshold(range) <= TWO32 && (TWO32 - Threshold(range)) % range == 0
  {
    var a := TWO32 - range;
    RemainderBelow(a, range);
    assert TWO32 - Threshold(range) == (a / range + 1) * range + 0;
    RemainderIs(TWO32 - Threshold(range), range, a / range + 1, 0);
  }

  /** Every result of a range comes from the same number of accepted words. */
  lemma ResultsAreUnbiased(range: nat, v: nat)
    requires v < range <= TWO32
    ensures Threshold(range) <= TWO32
    ensures |WordsOf(Threshold(range), TWO32 - Threshold(range), range, v)| == (TWO32 - Threshold(range)) / range
  {
    ThresholdCutsEvenly(range);
    var blocks := (TWO32 - Threshold(range)) / range;
    assert TWO32 - Threshold(range) == blocks * range;
    BlocksOfWords(Threshold(range), blocks, range, v);
  }
}
