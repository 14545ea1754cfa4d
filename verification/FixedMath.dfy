/** The embedded fixed-point library (src/compiler/Compilation.cpp:1226-1241, 1244-1363, 1644-1723):
    Math.Sqrt64 and Vec2.MoveTowards.  Script arithmetic is checked: what leaves its type fails. */
module FixedMath {
  import opened Scalars

  datatype Outcome<T> = Ok(value: T) | Overflow

  /** Raw fixed-point coordinates, 1/256 each. */
  datatype Vec2 = Vec2(x: int, y: int)

  // ----- products -----

  lemma Product(a: nat, b: nat, c: nat, d: nat)
    requires a <= b && c <= d
    ensures a * c <= b * d
  {
    assert b * d == a * c + a * (d - c) + (b - a) * d;
  }

  lemma QuotientTest(m: nat, n: nat)
    requires m > 0
    ensures m <= n / m <==> m * m <= n
  {
    var q, r := n / m, n % m;
    assert n == q * m + r;
    if m <= q {
      Product(m, q, m, m);
    } else {
      Product(q + 1, m, m, m);
      assert (q + 1) * m == q * m + m;
    }
  }

  lemma SquareGrows(a: nat, b: nat)
    ensures a <= b ==> a * a <= b * b
    ensures a < b ==> a * a < b * b
  {
    if a <= b { Product(a, b, a, b); }
    if a < b { assert b * b == a * a + a * (b - a) + (b - a) * b; Product(0, a, 0, b - a); Product(1, b - a, 1, b); }
  }

  // ----- the integer square root -----

  predicate IsRoot(n: nat, r: nat) {
    r * r <= n < (r + 1) * (r + 1)
  }

  lemma {:induction false} RootExists(n: nat)
    ensures exists r: nat :: IsRoot(n, r)
  {
    if n == 0 {
      assert IsRoot(0, 0);
    } else {
      RootExists(n - 1);
      var r: nat :| IsRoot(n - 1, r);
      if (r + 1) * (r + 1) <= n {
        SquareGrows(r + 1, r + 2);
        assert IsRoot(n, r + 1);
      } else {
        assert IsRoot(n, r);
      }
    }
  }

  lemma RootIsUnique(n: nat, a: nat, b: nat)
    requires IsRoot(n, a) && IsRoot(n, b)
    ensures a == b
  {
    SquareGrows(a + 1, b);
    SquareGrows(b + 1, a);
  }

  ghost function Root(n: int): (r: nat)
    ensures n <= 0 ==> r == 0
    ensures n > 0 ==> IsRoot(n, r)
  {
    if n <= 0 then 0
    else
      RootExists(n);
      var r: nat :| IsRoot(n, r);
      r
  }

  /** floor(sqrt(2^63 - 1)). */
  const ROOT_MAX: nat := 3037000499

  lemma RootMaxIsRoot()
    ensures IsRoot(LONG_MAX, ROOT_MAX)
  {
  }

  /** The exact integer square root of every 64-bit n; no intermediate value leaves 64 bits. */
  method Sqrt64(n: int) returns (ans: int)
    requires InInt64(n)
    ensures ans == Root(n) && 0 <= ans <= ROOT_MAX
  {
    if n <= 0 { return 0; }
    RootMaxIsRoot();
    var lo, hi := 1, if n < ROOT_MAX then n else ROOT_MAX;
    ans := 1;
    SquareGrows(1, hi + 1);
    if n < ROOT_MAX { SquareGrows(n, n + 1); Product(1, n + 1, n + 1, n + 1); }
    while lo <= hi
      invariant 1 <= lo <= hi + 1 <= ROOT_MAX + 1 && ans == (if lo == 1 then 1 else lo - 1)
      invariant ans * ans <= n < (hi + 1) * (hi + 1)
      decreases hi + 1 - lo
    {
      var mid := lo + (hi - lo) / 2;
      assert lo <= mid <= hi && InInt64(mid) && InInt64(hi - lo);
      QuotientTest(mid, n);
      if mid <= n / mid {
        ans := mid;
        lo := mid + 1;
      } else {
        hi := mid - 1;
      }
    }
    RootIsUnique(n, ans, Root(n));
  }

  // ----- moving towards a point -----

  /** The script's conversion of a long to int, and the range check on int results. */
  function ToInt(n: int): Outcome<int> {
    if InInt32(n) then Ok(n) else Overflow
  }

  /** Vec2.Length. */
  ghost function Length(v: Vec2): Outcome<int> {
    var r2 := v.x * v.x + v.y * v.y;
    if !InInt64(r2) then Overflow else ToInt(Root(r2))
  }

  /** (delta * maxDelta) / dist in one coordinate. */
  function StepOf(delta: int, maxDelta: int, dist: int): Outcome<int>
    requires dist != 0
  {
    match ToInt(TruncDiv(delta * maxDelta, 256))
    case Overflow => Overflow
    case Ok(scaled) => ToInt(TruncDiv(scaled * 256, dist))
  }

  ghost function MoveTowards(current: Vec2, target: Vec2, maxDelta: int): Outcome<Vec2> {
    var dx, dy := target.x - current.x, target.y - current.y;
    if !InInt32(dx) || !InInt32(dy) then Overflow
    else
      match Length(Vec2(dx, dy))
      case Overflow => Overflow
      case Ok(dist) =>
        if dist <= maxDelta || dist <= 0 then Ok(target)
        else
          match (StepOf(dx, maxDelta, dist), StepOf(dy, maxDelta, dist))
          case (Ok(sx), Ok(sy)) =>
            if InInt32(current.x + sx) && InInt32(current.y + sy) then Ok(Vec2(current.x + sx, current.y + sy)) else Overflow
          case _ => Overflow
  }

  method MoveTowardsByScript(current: Vec2, target: Vec2, maxDelta: int) returns (r: Outcome<Vec2>)
    requires InInt32(current.x) && InInt32(current.y) && InInt32(target.x) && InInt32(target.y) && InInt32(maxDelta)
    ensures r == MoveTowards(current, target, maxDelta)
  {
    var dx, dy := target.x - current.x, target.y - current.y;
    if !InInt32(dx) || !InInt32(dy) { return Overflow; }
    var r2 := dx * dx + dy * dy;
    if !InInt64(r2) { return Overflow; }
    var dist := Sqrt64(r2);
    if !InInt32(dist) { return Overflow; }
    if dist <= maxDelta || dist <= 0 { return Ok(target); }
    var fx, fy := TruncDiv(dx * maxDelta, 256), TruncDiv(dy * maxDelta, 256);
    if !InInt32(fx) || !InInt32(fy) { return Overflow; }
    var sx, sy := TruncDiv(fx * 256, dist), TruncDiv(fy * 256, dist);
    if !InInt32(sx) || !InInt32(sy) || !InInt32(current.x + sx) || !InInt32(current.y + sy) { return Overflow; }
    return Ok(Vec2(current.x + sx, current.y + sy));
  }

  predicate Between(a: int, b: int, c: int) {
    (a <= b <= c) || (c <= b <= a)
  }

  lemma FloorTimes(a: nat, b: nat)
    requires b > 0
    ensures (a / b) * b <= a
  {
    NatDivMod(a, b);
  }

  lemma AbsProduct(a: int, b: int)
    ensures Abs(a * b) == Abs(a) * Abs(b)
  {
    SignedProducts(Abs(a), Abs(b));
  }

  /** One coordinate's step points towards the target and is no longer than its share. */
  lemma StepIsBounded(delta: int, maxDelta: nat, dist: nat)
    requires maxDelta < dist && StepOf(delta, maxDelta, dist).Ok?
    ensures var step := StepOf(delta, maxDelta, dist).value;
            Between(0, step, delta) && Abs(step) * dist <= Abs(delta) * maxDelta
  {
    hide TruncDiv;
    var product := delta * maxDelta;
    AbsProduct(delta, maxDelta);
    SignOfProduct(delta, maxDelta);
    var scaled := TruncDiv(product, 256);
    TruncShrinks(product, 256);
    var step := TruncDiv(scaled * 256, dist);
    TruncShrinks(scaled * 256, dist);
    assert Abs(step) * dist <= Abs(delta) * maxDelta;
    QuotientAtMost(Abs(step), dist, Abs(delta), maxDelta);
  }

  lemma TruncShrinks(a: int, b: nat)
    requires b > 0
    ensures Abs(TruncDiv(a, b)) * b <= Abs(a)
    ensures a >= 0 ==> TruncDiv(a, b) >= 0
    ensures a <= 0 ==> TruncDiv(a, b) <= 0
  {
    FloorTimes(Abs(a), b);
    NatDivMod(Abs(a), b);
    assert Abs(TruncDiv(a, b)) == Abs(a) / b;
  }

  lemma QuotientAtMost(g: nat, dist: nat, e: nat, m: nat)
    requires g * dist <= e * m && m < dist
    ensures g <= e
  {
    Product(e, e, m, dist);
    if g > e {
      assert (e + 1) * dist == e * dist + dist;
      Product(e + 1, g, dist, dist);
    }
  }

  lemma SignOfProduct(a: int, b: nat)
    ensures a >= 0 ==> a * b >= 0
    ensures a <= 0 ==> a * b <= 0
  {
  }

  lemma SquaresOfShare(step: int, delta: int, m: nat, d: nat)
    requires Abs(step) * d <= Abs(delta) * m
    ensures (step * step) * (d * d) <= (delta * delta) * (m * m)
  {
    AbsProduct(step, step);
    AbsProduct(delta, delta);
    var s, e := Abs(step), Abs(delta);
    SquareGrows(s * d, e * m);
    Regroup(s, d);
    Regroup(e, m);
    assert step * step == s * s && delta * delta == e * e by { SignedProducts(s, s); SignedProducts(e, e); }
  }

  lemma Regroup(a: nat, b: nat)
    ensures (a * b) * (a * b) == (a * a) * (b * b)
  {
    assert (a * b) * (a * b) == a * (b * (a * b));
    assert b * (a * b) == a * (b * b);
  }

  /** The squared step is less than (m + 1)^2 when its coordinates keep to their shares. */
  lemma SquaredStep(sx: int, sy: int, dx: int, dy: int, m: nat, d: nat)
    requires m < d && IsRoot(dx * dx + dy * dy, d)
    requires Abs(sx) * d <= Abs(dx) * m && Abs(sy) * d <= Abs(dy) * m
    ensures sx * sx + sy * sy < (m + 1) * (m + 1)
  {
    SquaresOfShare(sx, dx, m, d);
    SquaresOfShare(sy, dy, m, d);
    Distribute(sx * sx, sy * sy, d * d);
    Distribute(dx * dx, dy * dy, m * m);
    ShareOfSquare(sx * sx + sy * sy, dx * dx + dy * dy, m, d);
  }

  lemma Distribute(x: int, y: int, z: int)
    ensures (x + y) * z == x * z + y * z
  {
  }

  lemma ShareOfSquare(s: nat, r2: nat, m: nat, d: nat)
    requires m < d && IsRoot(r2, d) && s * (d * d) <= r2 * (m * m)
    ensures s < (m + 1) * (m + 1)
  {
    Product(r2, (d + 1) * (d + 1), m * m, m * m);
    Regroup(d + 1, m);
    Regroup(d, m + 1);
    Distribute(d, 1, m);
    Distribute(m, 1, d);
    SquareGrows((d + 1) * m, d * (m + 1));
    var bound := (m + 1) * (m + 1);
    assert s * (d * d) < bound * (d * d);
    if s >= bound { Product(bound, s, d * d, d * d); }
  }

  /** A move that does not fail ends in the box between the two points, and is shorter than maxDelta
      plus one unit, also where it goes all the way to the target. */
  lemma MoveStaysInBox(current: Vec2, target: Vec2, maxDelta: int)
    requires maxDelta >= 0 && MoveTowards(current, target, maxDelta).Ok?
    ensures var r := MoveTowards(current, target, maxDelta).value;
            && Between(current.x, r.x, target.x) && Between(current.y, r.y, target.y) &&
            var sx, sy := r.x - current.x, r.y - current.y;
            sx * sx + sy * sy < (maxDelta + 1) * (maxDelta + 1)
  {
    var dx, dy := target.x - current.x, target.y - current.y;
    var dist := Length(Vec2(dx, dy)).value;
    if dist > maxDelta {
      StepIsBounded(dx, maxDelta, dist);
      StepIsBounded(dy, maxDelta, dist);
      var r := MoveTowards(current, target, maxDelta).value;
      SquaredStep(r.x - current.x, r.y - current.y, dx, dy, maxDelta, dist);
    } else {
      SquareGrows(dist + 1, maxDelta + 1);
    }
  }

  // ----- how far a move gets -----

  lemma TruncLeaves(a: int, b: nat)
    requires b > 0
    ensures Abs(a) < Abs(TruncDiv(a, b)) * b + b
  {
    NatDivMod(Abs(a), b);
    assert Abs(TruncDiv(a, b)) == Abs(a) / b;
  }

  /** What the two roundings take from a coordinate's share is less than one unit and 256 / dist. */
  lemma StepNearlyReaches(delta: int, maxDelta: nat, dist: nat)
    requires maxDelta < dist && StepOf(delta, maxDelta, dist).Ok?
    ensures Abs(delta) * maxDelta < Abs(StepOf(delta, maxDelta, dist).value) * dist + dist + 256
  {
    hide TruncDiv;
    AbsProduct(delta, maxDelta);
    var scaled := TruncDiv(delta * maxDelta, 256);
    TruncLeaves(delta * maxDelta, 256);
    TruncLeaves(scaled * 256, dist);
  }

  /** A target whose distance is less than maxDelta plus one unit is reached. */
  lemma NearTargetIsReached(current: Vec2, target: Vec2, maxDelta: int)
    requires 0 <= maxDelta <= INT_MAX
    requires var dx, dy := target.x - current.x, target.y - current.y;
             dx * dx + dy * dy < (maxDelta + 1) * (maxDelta + 1)
    ensures MoveTowards(current, target, maxDelta) == Ok(target)
  {
    var dx, dy := target.x - current.x, target.y - current.y;
    SmallSquare(dx, dy, maxDelta + 1);
    SmallSquare(dy, dx, maxDelta + 1);
    var r2 := dx * dx + dy * dy;
    var root := Root(r2);
    assert IsRoot(r2, root);
    if root > maxDelta { SquareGrows(maxDelta + 1, root); }
    SquareGrows(maxDelta + 1, 0x8000_0000);
  }

  lemma SmallSquare(x: int, y: int, bound: nat)
    requires x * x + y * y < bound * bound
    ensures Abs(x) < bound && 0 <= x * x
  {
    AbsProduct(x, x);
    AbsProduct(y, y);
    Product(0, Abs(x), 0, Abs(x));
    Product(0, Abs(y), 0, Abs(y));
    SignedProducts(Abs(x), Abs(x));
    SignedProducts(Abs(y), Abs(y));
    if Abs(x) >= bound { SquareGrows(bound, Abs(x)); }
  }

  /** A move that does not fail ends at the target exactly when the target is that near. */
  lemma ReachesExactly(current: Vec2, target: Vec2, maxDelta: int)
    requires 0 <= maxDelta <= INT_MAX && MoveTowards(current, target, maxDelta).Ok?
    ensures var dx, dy := target.x - current.x, target.y - current.y;
            MoveTowards(current, target, maxDelta).value == target <==> dx * dx + dy * dy < (maxDelta + 1) * (maxDelta + 1)
  {
    var dx, dy := target.x - current.x, target.y - current.y;
    var r2 := dx * dx + dy * dy;
    var dist := Root(r2);
    assert IsRoot(r2, dist);
    if r2 < (maxDelta + 1) * (maxDelta + 1) {
      NearTargetIsReached(current, target, maxDelta);
    } else {
      if dist < maxDelta + 1 { SquareGrows(dist + 1, maxDelta + 1); }
      StepIsBounded(dx, maxDelta, dist);
      StepIsBounded(dy, maxDelta, dist);
      StepStopsShort(StepOf(dx, maxDelta, dist).value, dx, maxDelta, dist);
      StepStopsShort(StepOf(dy, maxDelta, dist).value, dy, maxDelta, dist);
    }
  }

  lemma StepStopsShort(step: int, delta: int, m: nat, d: nat)
    requires m < d && Abs(step) * d <= Abs(delta) * m
    ensures step == delta ==> delta == 0
  {
    MoreTimesMore(Abs(delta), m, d);
  }

  lemma MoreTimesMore(e: nat, m: nat, d: nat)
    requires m < d
    ensures e > 0 ==> e * m < e * d
  {
    Distribute(m, d - m, e);
    if e > 0 { Product(1, d - m, 1, e); }
  }

  /** The products of a coordinate that its first rounding can still take. */
  predicate ProductFits(delta: int, maxDelta: int) {
    -0x80_0000_0100 < delta * maxDelta < 0x80_0000_0000
  }

  lemma QuotientBelow(a: nat, b: nat, bound: nat)
    requires b > 0
    ensures a / b < bound <==> a < bound * b
  {
    NatDivMod(a, b);
    if a / b < bound { Product(a / b + 1, bound, b, b); } else { Product(bound, a / b, b, b); }
  }

  lemma StepFits(delta: int, maxDelta: nat, dist: nat)
    requires InInt32(delta) && maxDelta < dist
    ensures StepOf(delta, maxDelta, dist).Ok? <==> ProductFits(delta, maxDelta)
  {
    var product := delta * maxDelta;
    QuotientBelow(Abs(product), 256, 0x8000_0000);
    QuotientBelow(Abs(product), 256, 0x8000_0001);
    var scaled := TruncDiv(product, 256);
    assert InInt32(scaled) <==> ProductFits(delta, maxDelta);
    hide TruncDiv;
    TruncShrinks(product, 256);
    var step := TruncDiv(scaled * 256, dist);
    TruncShrinks(scaled * 256, dist);
    AbsProduct(delta, maxDelta);
    SignOfProduct(delta, maxDelta);
    QuotientAtMost(Abs(step), dist, Abs(delta), maxDelta);
  }

  /** A move succeeds exactly when the differences of the coordinates and the distance are int values
      and, unless the target is reached, both first products are small enough. */
  lemma SucceedsExactly(current: Vec2, target: Vec2, maxDelta: int)
    requires InInt32(current.x) && InInt32(current.y) && InInt32(target.x) && InInt32(target.y) && 0 <= maxDelta <= INT_MAX
    ensures var dx, dy := target.x - current.x, target.y - current.y;
            var r2 := dx * dx + dy * dy;
            MoveTowards(current, target, maxDelta).Ok? <==>
            && InInt32(dx) && InInt32(dy) && r2 < 0x8000_0000 * 0x8000_0000
            && (r2 < (maxDelta + 1) * (maxDelta + 1) || (ProductFits(dx, maxDelta) && ProductFits(dy, maxDelta)))
  {
    hide ProductFits, StepOf;
    var dx, dy := target.x - current.x, target.y - current.y;
    var r2 := dx * dx + dy * dy;
    SquareOfSum(dx, dy);
    SmallSquare(dx, dy, Abs(dx) + Abs(dy) + 1);
    SmallSquare(dy, dx, Abs(dx) + Abs(dy) + 1);
    var dist := Root(r2);
    SquareGrows(maxDelta + 1, dist);
    SquareGrows(dist + 1, maxDelta + 1);
    SquareGrows(dist + 1, 0x8000_0000);
    SquareGrows(0x8000_0000, dist);
    if InInt32(dx) && InInt32(dy) && dist > maxDelta {
      StepFits(dx, maxDelta, dist);
      StepFits(dy, maxDelta, dist);
      if StepOf(dx, maxDelta, dist).Ok? { StepIsBounded(dx, maxDelta, dist); }
      if StepOf(dy, maxDelta, dist).Ok? { StepIsBounded(dy, maxDelta, dist); }
    }
  }

  lemma SquareOfSum(x: int, y: int)
    ensures x * x + y * y < (Abs(x) + Abs(y) + 1) * (Abs(x) + Abs(y) + 1)
  {
    AbsProduct(x, x);
    AbsProduct(y, y);
    SignedProducts(Abs(x), Abs(x));
    SignedProducts(Abs(y), Abs(y));
    Product(0, Abs(x), 0, Abs(y));
  }

  lemma NegativeStep(delta: int, maxDelta: int, dist: nat)
    requires maxDelta < 0 < dist && StepOf(delta, maxDelta, dist).Ok?
    ensures Between(StepOf(delta, maxDelta, dist).value, 0, delta)
  {
    hide TruncDiv;
    SignOfProduct(delta, -maxDelta);
    SignedProducts(delta, -maxDelta);
    var scaled := TruncDiv(delta * maxDelta, 256);
    TruncShrinks(delta * maxDelta, 256);
    TruncShrinks(scaled * 256, dist);
  }

  /** A negative maxDelta never leads towards the target. */
  lemma NegativeMovesAway(current: Vec2, target: Vec2, maxDelta: int)
    requires maxDelta < 0 && MoveTowards(current, target, maxDelta).Ok?
    ensures var r := MoveTowards(current, target, maxDelta).value;
            && Between(r.x, current.x, target.x) && Between(r.y, current.y, target.y)
            && (r == target ==> current == target)
  {
    hide StepOf;
    var dx, dy := target.x - current.x, target.y - current.y;
    var dist := Root(dx * dx + dy * dy);
    if dist > 0 {
      NegativeStep(dx, maxDelta, dist);
      NegativeStep(dy, maxDelta, dist);
    } else {
      SmallSquare(dx, dy, 1);
      SmallSquare(dy, dx, 1);
    }
  }
}
