/** The permuted output of RandomStream (src/game/GameplayPrimitives.cpp:229-236) favours no word:
    each comes from the same number of states, and so equally often in a period. */
module RandomOutput {
  import opened Random

  // ----- folding the high bits in -----

  function ShiftRight(a: nat, k: nat): nat
    decreases k
  {
    if k == 0 then a else ShiftRight(a / 2, k - 1)
  }

  lemma {:induction false} ShiftIsQuotient(a: nat, k: nat)
    ensures ShiftRight(a, k) == a / Pow2(k)
    decreases k
  {
    if k > 0 {
      ShiftIsQuotient(a / 2, k - 1);
      QuotientOfHalf(a, Pow2(k - 1));
    }
  }

  lemma QuotientOfHalf(a: nat, p: nat)
    requires p > 0
    ensures (a / 2) / p == a / (2 * p)
  {
    var q, r := (a / 2) / p, (a / 2) % p;
    Regroup(q, p);
    RemainderIs(a, 2 * p, q, 2 * r + a % 2);
  }

  lemma {:induction false} ShiftsAdd(a: nat, j: nat, k: nat)
    ensures ShiftRight(ShiftRight(a, j), k) == ShiftRight(a, j + k)
    decreases j
  {
    if j > 0 { ShiftsAdd(a / 2, j - 1, k); }
  }

  lemma {:induction false} ShiftedOut(a: nat, k: nat)
    requires a < Pow2(k)
    ensures ShiftRight(a, k) == 0
    decreases k
  {
    if k > 0 { ShiftedOut(a / 2, k - 1); }
  }

  lemma {:induction false} ShiftOfXor(a: nat, b: nat, k: nat)
    ensures ShiftRight(Xor(a, b), k) == Xor(ShiftRight(a, k), ShiftRight(b, k))
    decreases k
  {
    hide Xor;
    if k > 0 {
      XorUnrolls(a, b);
      ShiftOfXor(a / 2, b / 2, k - 1);
    }
  }

  lemma {:induction false} XorCancels(a: nat, b: nat, c: nat)
    ensures Xor(Xor(a, b), Xor(b, c)) == Xor(a, c)
    decreases a + b + c
  {
    hide Xor;
    XorUnrolls(a, b);
    XorUnrolls(b, c);
    XorUnrolls(a, c);
    XorUnrolls(Xor(a, b), Xor(b, c));
    if a + b + c > 0 { XorCancels(a / 2, b / 2, c / 2); }
  }

  lemma {:induction false} XorFits(a: nat, b: nat, k: nat)
    requires a < Pow2(k) && b < Pow2(k)
    ensures Xor(a, b) < Pow2(k)
    decreases k
  {
    hide Xor;
    XorUnrolls(a, b);
    if k > 0 {
      XorFits(a / 2, b / 2, k - 1);
    } else {
      XorZero(0);
    }
  }

  /** state >> k ^ state. */
  function Mix(state: nat, k: nat): nat {
    Xor(ShiftRight(state, k), state)
  }

  /** Mixing twice is mixing once with twice the distance. */
  lemma MixTwice(s: nat, k: nat)
    ensures Mix(Mix(s, k), k) == Mix(s, 2 * k)
  {
    hide Xor, ShiftRight;
    ShiftOfXor(ShiftRight(s, k), s, k);
    ShiftsAdd(s, k, k);
    XorCancels(ShiftRight(s, 2 * k), ShiftRight(s, k), s);
  }

  lemma MixFits(s: nat, k: nat)
    requires s < TWO64
    ensures Mix(s, k) < TWO64
  {
    hide Xor, Pow2;
    PowersOfTwo();
    ShiftFits(s, k);
    XorFits(ShiftRight(s, k), s, 64);
  }

  lemma {:induction false} ShiftFits(s: nat, k: nat)
    ensures ShiftRight(s, k) <= s
    decreases k
  {
    if k > 0 { ShiftFits(s / 2, k - 1); }
  }

  /** Folding a 64-bit state four times over gives it back: folding loses nothing. */
  lemma FourFolds(s: nat)
    requires s < TWO64
    ensures Mix(Mix(Mix(Mix(s, 18), 18), 18), 18) == s
  {
    hide Xor, Mix, ShiftRight;
    MixTwice(s, 18);
    MixTwice(Mix(s, 36), 18);
    MixTwice(s, 36);
    MixFar(s);
  }

  lemma MixFar(s: nat)
    requires s < TWO64
    ensures Mix(s, 72) == s
  {
    hide Xor, ShiftRight, Pow2;
    PowersOfTwo();
    Pow2Sum(64, 8);
    assert Pow2(64) * Pow2(8) >= Pow2(64) * 1;
    ShiftedOut(s, 72);
    XorZero(s);
  }

  // ----- rotating -----

  function RotateLeft(word: nat, rotation: nat): (r: nat)
    requires word < TWO32
    ensures r < TWO32
    decreases rotation
  {
    if rotation == 0 then word
    else
      var x := RotateLeft(word, rotation - 1);
      if x < 0x8000_0000 then 2 * x else 2 * (x - 0x8000_0000) + 1
  }

  lemma {:induction false} RotatesBack(word: nat, rotation: nat)
    requires word < TWO32
    ensures RotateLeft(RotateRight(word, rotation), rotation) == word
    decreases rotation
  {
    if rotation > 0 { RotatesBack(word / 2 + (word % 2) * 0x8000_0000, rotation - 1); }
  }

  lemma {:induction false} RotatesForth(word: nat, rotation: nat)
    requires word < TWO32
    ensures RotateRight(RotateLeft(word, rotation), rotation) == word
    decreases rotation
  {
    if rotation > 0 { RotatesForth(word, rotation - 1); }
  }

  // ----- the bits of a word -----

  predicate Bit(a: nat, k: nat) { (a / Pow2(k)) % 2 == 1 }

  lemma BitIsShift(a: nat, k: nat)
    ensures Bit(a, k) <==> ShiftRight(a, k) % 2 == 1
  {
    hide ShiftRight, Pow2;
    ShiftIsQuotient(a, k);
  }

  lemma XorIsBitwise(a: nat, b: nat, k: nat)
    ensures Bit(Xor(a, b), k) <==> Bit(a, k) != Bit(b, k)
  {
    hide Xor, ShiftRight, Pow2, Bit;
    BitIsShift(a, k);
    BitIsShift(b, k);
    BitIsShift(Xor(a, b), k);
    ShiftOfXor(a, b, k);
    XorUnrolls(ShiftRight(a, k), ShiftRight(b, k));
  }

  lemma BitOfQuotient(a: nat, j: nat, k: nat, q: nat)
    requires q == a / Pow2(j)
    ensures Bit(q, k) <==> Bit(a, j + k)
  {
    hide ShiftRight, Pow2, Bit;
    ShiftIsQuotient(a, j);
    BitIsShift(q, k);
    BitIsShift(a, j + k);
    ShiftsAdd(a, j, k);
  }

  lemma {:induction false} ShiftDropsHigher(x: nat, c: nat, j: nat, k: nat)
    requires k < j
    ensures ShiftRight(x + Shifted(c, j), k) % 2 == ShiftRight(x, k) % 2
    decreases k
  {
    hide Shifted, ShiftRight;
    var half := ShiftedIsEven(c, j);
    HalfOfSum(x, half);
    ShiftUnrolls(x, k);
    ShiftUnrolls(x + Shifted(c, j), k);
    if k > 0 { ShiftDropsHigher(x / 2, c, j - 1, k - 1); }
  }

  lemma ShiftedIsEven(c: nat, j: nat) returns (half: nat)
    requires j > 0
    ensures half == Shifted(c, j - 1) && Shifted(c, j) == 2 * half
  {
    half := Shifted(c, j - 1);
  }

  lemma HalfOfSum(x: nat, half: nat)
    ensures (x + 2 * half) / 2 == x / 2 + half && (x + 2 * half) % 2 == x % 2
  {
  }

  lemma ShiftUnrolls(a: nat, k: nat)
    ensures ShiftRight(a, k) == if k == 0 then a else ShiftRight(a / 2, k - 1)
  {
  }

  lemma HigherBitsDoNotMatter(x: nat, c: nat, j: nat, k: nat, sum: nat)
    requires k < j && sum == x + c * Pow2(j)
    ensures Bit(sum, k) <==> Bit(x, k)
  {
    hide ShiftRight, Pow2, Bit, Shifted;
    ShiftedIsTimes(c, j);
    ShiftDropsHigher(x, c, j, k);
    BitIsShift(sum, k);
    BitIsShift(x, k);
  }

  lemma PowerStep(k: nat)
    ensures Pow2(k + 1) == 2 * Pow2(k)
  {
  }

  lemma TurnedBit(word: nat, k: nat)
    requires word < TWO32 && k < 32
    ensures Bit(word / 2 + (word % 2) * 0x8000_0000, k) <==> Bit(word, (k + 1) % 32)
  {
    hide Bit, Pow2;
    TopPower();
    BitOfQuotient(word, 1, k, word / 2);
    if k < 31 {
      HigherBitsDoNotMatter(word / 2, word % 2, 31, k, word / 2 + (word % 2) * 0x8000_0000);
    } else {
      TopBit(word / 2, word % 2);
      LowBit(word);
    }
  }

  lemma TopPower()
    ensures Pow2(31) == 0x8000_0000 && Pow2(1) == 2
  {
    hide Pow2;
    PowersOfTwo();
    PowerStep(31);
    PowerStep(0);
    PowerZero();
  }

  lemma PowerZero()
    ensures Pow2(0) == 1
  {
  }

  lemma TopBit(x: nat, c: nat)
    requires x < 0x8000_0000 && c < 2
    ensures Bit(x + c * 0x8000_0000, 31) <==> c == 1
  {
    hide Pow2;
    TopPower();
  }

  lemma LowBit(word: nat)
    ensures Bit(word, 0) <==> word % 2 == 1
  {
  }

  lemma {:induction false} RotationTurnsBits(word: nat, rotation: nat, k: nat)
    requires word < TWO32 && k < 32
    ensures Bit(RotateRight(word, rotation), k) <==> Bit(word, (k + rotation) % 32)
    decreases rotation
  {
    hide Bit, Pow2;
    if rotation > 0 {
      RotationTurnsBits(word / 2 + (word % 2) * 0x8000_0000, rotation - 1, k);
      TurnedBit(word, (k + rotation - 1) % 32);
    }
  }

  /** Each bit of a drawn word, from the bits of the state: bits 27 to 58 and 45 to 76 one against the
      other, turned by the number in the topmost five. */
  lemma OutputBits(s: nat, k: nat)
    requires s < TWO64 && k < 32
    ensures var turned := (k + s / 0x800_0000_0000_0000) % 32;
            Bit(Output(s), k) <==> Bit(s, 27 + turned) != Bit(s, 45 + turned)
  {
    hide Bit, Pow2, Xor, RotateRight;
    ShiftPowers();
    PowersOfTwo();
    var y := Xor(s / 0x4_0000, s);
    var rotation := s / 0x800_0000_0000_0000;
    var i := (k + rotation) % 32;
    var word := (y / 0x800_0000) % TWO32;
    RotationTurnsBits(word, rotation, k);
    HigherBitsDoNotMatter(word, y / 0x800_0000 / TWO32, 32, i, y / 0x800_0000);
    BitOfQuotient(y, 27, i, y / 0x800_0000);
    XorIsBitwise(s / 0x4_0000, s, 27 + i);
    BitOfQuotient(s, 18, 27 + i, s / 0x4_0000);
  }

  lemma ShiftPowers()
    ensures Pow2(18) == 0x4_0000 && Pow2(27) == 0x800_0000 && Pow2(59) == 0x800_0000_0000_0000
  {
    assert Pow2(9) == 512;
    Pow2Sum(9, 9);
    Pow2Sum(9, 18);
    PowersOfTwo();
    Pow2Sum(32, 27);
  }

  // ----- where a word comes from -----

  const TWO27: nat := 0x800_0000
  const TWO59: nat := 0x800_0000_0000_0000

  /** The word, from the folded state. */
  function Cut(y: nat): (word: nat)
    ensures word < TWO32
  {
    RotateRight((y / TWO27) % TWO32, y / TWO59)
  }

  lemma OutputIsCut(s: nat)
    requires s < TWO64
    ensures Output(s) == Cut(Mix(s, 18))
  {
    hide Xor, ShiftRight, Pow2;
    ShiftPowers();
    ShiftIsQuotient(s, 18);
    var y := Mix(s, 18);
    ShiftOfXor(ShiftRight(s, 18), s, 59);
    ShiftsAdd(s, 18, 59);
    PowersOfTwo();
    Pow2Sum(64, 13);
    assert Pow2(64) * Pow2(13) >= Pow2(64) * 1;
    ShiftedOut(s, 77);
    XorZero(ShiftRight(s, 59));
    ShiftIsQuotient(s, 59);
    ShiftIsQuotient(y, 59);
  }

  /** The folded state whose word is w, number j of them: five bits of j are on top, the others below. */
  function FoldedFor(w: nat, j: nat): nat
    requires w < TWO32
  {
    j / TWO27 * TWO59 + RotateLeft(w, j / TWO27) * TWO27 + j % TWO27
  }

  function IndexOf(y: nat): nat {
    y / TWO59 * TWO27 + y % TWO27
  }

  lemma PartsOf(r: nat, m: nat, l: nat)
    requires m < TWO32 && l < TWO27
    ensures var y := r * TWO59 + m * TWO27 + l;
            y / TWO59 == r && (y / TWO27) % TWO32 == m && y % TWO27 == l && (r < 32 ==> y < TWO64)
  {
  }

  lemma FoldedForHolds(w: nat, j: nat)
    requires w < TWO32 && j < TWO32
    ensures FoldedFor(w, j) < TWO64 && Cut(FoldedFor(w, j)) == w && IndexOf(FoldedFor(w, j)) == j
  {
    hide RotateLeft, RotateRight;
    PartsOf(j / TWO27, RotateLeft(w, j / TWO27), j % TWO27);
    RotatesForth(w, j / TWO27);
  }

  lemma IndexHolds(y: nat)
    requires y < TWO64
    ensures IndexOf(y) < TWO32 && FoldedFor(Cut(y), IndexOf(y)) == y
  {
    hide RotateLeft, RotateRight;
    var r, m, l := y / TWO59, (y / TWO27) % TWO32, y % TWO27;
    assert y == r * TWO59 + m * TWO27 + l;
    RotatesBack(m, r);
  }

  function Unfold(y: nat): nat { Mix(Mix(Mix(y, 18), 18), 18) }

  lemma UnfoldHolds(y: nat)
    requires y < TWO64
    ensures Unfold(y) < TWO64 && Mix(Unfold(y), 18) == y && Unfold(Mix(y, 18)) == y
  {
    hide Mix;
    FourFolds(y);
    MixFits(y, 18);
    MixFits(Mix(y, 18), 18);
    MixFits(Mix(Mix(y, 18), 18), 18);
  }

  /** The states that draw the word. */
  ghost function StatesDrawing(w: nat): set<nat> {
    set s: nat | s < TWO64 && Output(s) == w
  }

  function SourceOf(w: nat, j: nat): nat
    requires w < TWO32
  {
    Unfold(FoldedFor(w, j))
  }

  lemma SourceHolds(w: nat, j: nat)
    requires w < TWO32 && j < TWO32
    ensures SourceOf(w, j) in StatesDrawing(w) && IndexOf(Mix(SourceOf(w, j), 18)) == j
  {
    hide Mix, Unfold, Output, Cut, FoldedFor, IndexOf;
    FoldedForHolds(w, j);
    UnfoldHolds(FoldedFor(w, j));
    OutputIsCut(SourceOf(w, j));
  }

  lemma StateIsSource(s: nat)
    requires s < TWO64
    ensures IndexOf(Mix(s, 18)) < TWO32 && SourceOf(Output(s), IndexOf(Mix(s, 18))) == s
  {
    hide Mix, Unfold, Output, Cut, FoldedFor, IndexOf;
    MixFits(s, 18);
    OutputIsCut(s);
    IndexHolds(Mix(s, 18));
    UnfoldHolds(s);
  }

  // ----- counting -----

  lemma {:induction false} AsLarge(a: set<nat>, b: set<nat>, f: nat -> nat, g: nat -> nat)
    requires forall k: nat :: k in a ==> f(k) in b && g(f(k)) == k
    requires forall s: nat :: s in b ==> g(s) in a && f(g(s)) == s
    ensures |a| == |b|
    decreases |a|
  {
    if a == {} {
      assert b == {};
    } else {
      var k :| k in a;
      AsLarge(a - {k}, b - {f(k)}, f, g);
      assert a == a - {k} + {k} && b == b - {f(k)} + {f(k)};
    }
  }

  /** Every word is drawn by exactly 2^32 of the 2^64 states. */
  lemma EveryWordFromAsManyStates(w: nat)
    requires w < TWO32
    ensures |StatesDrawing(w)| == TWO32
  {
    hide Output, IndexOf, Mix, SourceOf, Below;
    BelowHolds(TWO32);
    forall j: nat | j < TWO32 ensures SourceOf(w, j) in StatesDrawing(w) && IndexOf(Mix(SourceOf(w, j), 18)) == j {
      SourceHolds(w, j);
    }
    forall s: nat | s in StatesDrawing(w) ensures IndexOf(Mix(s, 18)) < TWO32 && SourceOf(w, IndexOf(Mix(s, 18))) == s {
      StateIsSource(s);
    }
    AsLarge(StatesDrawing(w), Below(TWO32), s => IndexOf(Mix(s, 18)), j => SourceOf(w, j));
  }

  /** The draws of a period that give the word. */
  ghost function DrawsGiving(state: nat, increment: nat, w: nat): set<nat>
    requires state < TWO64
  {
    set k: nat | k < TWO64 && Draw(state, increment, k) == w
  }

  /** The draw of the period that starts from the state. */
  ghost function DrawFrom(state: nat, increment: nat, target: nat): (k: nat)
    requires state < TWO64 && increment % 2 == 1
    ensures target < TWO64 ==> k < TWO64 && StateAfter(state, increment, k) == target
  {
    if target >= TWO64 then 0
    else
      EveryStateComes(state, increment, target);
      var k: nat :| k < TWO64 && StateAfter(state, increment, k) == target;
      k
  }

  lemma DrawFromIsUnique(state: nat, increment: nat, k: nat)
    requires state < TWO64 && increment % 2 == 1 && k < TWO64
    ensures StateAfter(state, increment, k) < TWO64
    ensures DrawFrom(state, increment, StateAfter(state, increment, k)) == k
  {
    hide StateAfter;
    StateFits(state, increment, k);
    var j := DrawFrom(state, increment, StateAfter(state, increment, k));
    if j < k { StatesDiffer(state, increment, j, k); }
    if k < j { StatesDiffer(state, increment, k, j); }
  }

  /** In every period, from every seed, each 32-bit word is drawn exactly 2^32 times. */
  lemma EveryWordEquallyOften(state: nat, increment: nat, w: nat)
    requires state < TWO64 && increment % 2 == 1 && w < TWO32
    ensures |DrawsGiving(state, increment, w)| == TWO32
  {
    hide Output, StateAfter, DrawFrom;
    EveryWordFromAsManyStates(w);
    var draws, states := DrawsGiving(state, increment, w), StatesDrawing(w);
    forall k: nat | k in draws
      ensures StateAfter(state, increment, k) in states && DrawFrom(state, increment, StateAfter(state, increment, k)) == k
    {
      DrawFromIsUnique(state, increment, k);
    }
    AsLarge(draws, states, k => StateAfter(state, increment, k), s => DrawFrom(state, increment, s));
  }

  /** The draws of a period that give one of the words. */
  ghost function DrawsGivingAny(state: nat, increment: nat, words: set<nat>): set<nat>
    requires state < TWO64
  {
    set k: nat | k < TWO64 && Draw(state, increment, k) in words
  }

  lemma {:induction false} AnyOfTheWords(state: nat, increment: nat, words: set<nat>)
    requires state < TWO64 && increment % 2 == 1 && forall w :: w in words ==> w < TWO32
    ensures |DrawsGivingAny(state, increment, words)| == |words| * TWO32
    decreases |words|
  {
    hide Draw;
    if words == {} {
      assert DrawsGivingAny(state, increment, words) == {};
    } else {
      var w :| w in words;
      var rest := words - {w};
      AnyOfTheWords(state, increment, rest);
      EveryWordEquallyOften(state, increment, w);
      assert words == rest + {w};
      assert DrawsGivingAny(state, increment, words) ==
             DrawsGivingAny(state, increment, rest) + DrawsGiving(state, increment, w);
    }
  }

  /** In every period, for every range, each result comes from the same number of accepted draws. */
  lemma ResultsEquallyOften(state: nat, increment: nat, range: nat, v: nat)
    requires state < TWO64 && increment % 2 == 1 && v < range <= TWO32
    ensures Threshold(range) <= TWO32
    ensures |DrawsGivingAny(state, increment, WordsOf(Threshold(range), TWO32 - Threshold(range), range, v))| ==
            (TWO32 - Threshold(range)) / range * TWO32
  {
    hide Threshold;
    ResultsAreUnbiased(range, v);
    AnyOfTheWords(state, increment, WordsOf(Threshold(range), TWO32 - Threshold(range), range, v));
  }
}
