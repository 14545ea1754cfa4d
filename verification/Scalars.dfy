/** Types, error codes and machine arithmetic shared by the compiler and runtime models. */
module Scalars {

  /** semantic::PrimitiveType (include/realscript/semantic/Semantic.h:21-43). */
  datatype PrimitiveType =
    | ErrorType | Void | Bool | Byte | SByte | Short | UShort | Int | UInt | Long | ULong
    | Float | Double | Char | String | Object | Struct | Enum | Array | Handle | Null

  /** The members of runtime::ErrorCode that scalar code can raise. */
  datatype ErrorCode =
    | InvalidArguments | TypeMismatch | DivisionByZero | IntegerOverflow
    | InstructionBudgetExceeded | InvalidProgram

  const INT_MIN: int := -0x8000_0000
  const INT_MAX: int := 0x7fff_ffff
  const LONG_MIN: int := -0x8000_0000_0000_0000
  const LONG_MAX: int := 0x7fff_ffff_ffff_ffff
  const UINT_MAX: int := 0xffff_ffff
  const ULONG_MAX: int := 0xffff_ffff_ffff_ffff

  predicate InInt32(n: int) { INT_MIN <= n <= INT_MAX }

  predicate InInt64(n: int) { LONG_MIN <= n <= LONG_MAX }

  function Abs(n: int): nat { if n < 0 then -n else n }

  /** Division as C++ and the script language do it: towards zero. */
  function TruncDiv(a: int, b: int): int
    requires b != 0
  {
    var q := Abs(a) / Abs(b);
    if (a < 0) == (b < 0) then q else -q
  }

  /** The remainder that goes with TruncDiv: it has the sign of the dividend. */
  function TruncMod(a: int, b: int): int
    requires b != 0
  {
    var m := Abs(a) % Abs(b);
    if a < 0 then -m else m
  }

  lemma NatDivMod(x: nat, y: nat)
    requires y > 0
    ensures x == (x / y) * y + x % y && 0 <= x % y < y
    ensures x / y <= x && x % y <= x
    ensures y > 1 ==> 2 * (x / y) <= x
  {
    var q := x / y;
    if y > 1 {
      MulGrows(q, 2, y);
    } else {
      MulGrows(q, 1, y);
    }
  }

  lemma MulGrows(q: nat, low: nat, y: nat)
    requires low <= y
    ensures q * low <= q * y
  {
    assert q * y == q * low + q * (y - low);
  }

  lemma TruncDivMod(a: int, b: int)
    requires b != 0
    ensures a == TruncDiv(a, b) * b + TruncMod(a, b)
    ensures Abs(TruncMod(a, b)) < Abs(b)
    ensures Abs(TruncMod(a, b)) <= Abs(a) && Abs(TruncDiv(a, b)) <= Abs(a)
  {
    NatDivMod(Abs(a), Abs(b));
    SignedProducts(Abs(a) / Abs(b), Abs(b));
  }

  /** Rounding is towards zero, for either sign of either operand: the remainder has the sign of the
      dividend, and the quotient does not overshoot. */
  lemma TruncatesTowardsZero(a: int, b: int)
    requires b != 0
    ensures a >= 0 ==> TruncMod(a, b) >= 0
    ensures a <= 0 ==> TruncMod(a, b) <= 0
    ensures Abs(TruncDiv(a, b)) * Abs(b) <= Abs(a)
  {
    TruncDivMod(a, b);
    NatDivMod(Abs(a), Abs(b));
    assert Abs(TruncDiv(a, b)) == Abs(a) / Abs(b);
  }

  lemma MultipleIsLarge(e: int, y: int)
    ensures e != 0 ==> Abs(e * y) >= Abs(y)
  {
    SignedProducts(Abs(e), Abs(y));
    if e != 0 { MulGrows(Abs(y), 1, Abs(e)); }
  }

  /** They are the only quotient and remainder like that. */
  lemma TruncationIsUnique(a: int, b: int, q: int, m: int)
    requires b != 0 && a == q * b + m && Abs(m) < Abs(b)
    requires m == 0 || (m < 0) == (a < 0)
    ensures q == TruncDiv(a, b) && m == TruncMod(a, b)
  {
    hide TruncDiv, TruncMod;
    TruncDivMod(a, b);
    TruncatesTowardsZero(a, b);
    SmallMultiple(q, TruncDiv(a, b), b, m, TruncMod(a, b));
  }

  lemma SmallMultiple(q: int, p: int, b: int, m: int, r: int)
    requires q * b + m == p * b + r && Abs(m - r) < Abs(b)
    ensures q == p && m == r
  {
    MultipleIsLarge(q - p, b);
    assert (q - p) * b == q * b - p * b;
  }

  lemma SignedProducts(q: int, y: int)
    ensures (-q) * (-y) == q * y && (-q) * y == -(q * y) && q * (-y) == -(q * y)
  {
  }

  /** The quotient of two int32 values is an int32 value, but for INT_MIN / -1. */
  lemma TruncDivFits(a: int, b: int)
    requires InInt32(a) && InInt32(b) && b != 0
    ensures InInt32(TruncMod(a, b))
    ensures InInt32(TruncDiv(a, b)) <==> !(a == INT_MIN && b == -1)
  {
    NatDivMod(Abs(a), Abs(b));
    if b == 1 || b == -1 { assert Abs(a) / 1 == Abs(a); }
  }

  /** The int32 value with the same low 32 bits (src/aot_cpp/AotRuntime.cpp:134-140). */
  function WrapInt32(n: int): int {
    var bits := n % 0x1_0000_0000;
    if bits <= INT_MAX then bits else bits - 0x1_0000_0000
  }
}
