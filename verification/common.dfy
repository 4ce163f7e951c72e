/**
 Shared vocabulary for the model: an Option type for nullable engine objects and the
 C/C++ numeric conversions the game code relies on (truncating casts, the game's
 rounding helper, the truncated remainder `%`, and the conversion of a signed value to
 `size_t`).
 */
module Common {

  /** A value that may be absent, standing for a nullable pointer or handle. */
  datatype Option<+T> = None | Some(value: T)

  function OptionToSeq<T>(o: Option<T>): (r: seq<T>)
    ensures |r| <= 1
    ensures o.Some? <==> |r| == 1
    ensures o.Some? ==> r[0] == o.value
  {
    match o
    case None => []
    case Some(v) => [v]
  }

  /** 2^64: the modulus of a 64-bit `size_t`. */
  const SIZE_MODULUS: int := 0x1_0000_0000_0000_0000

  /** C++ conversion `(int)x` of a floating value: truncation toward zero. */
  function Trunc(x: real): (r: int)
    ensures x >= 0.0 ==> 0 <= r && r as real <= x < r as real + 1.0
    ensures x < 0.0 ==> r <= 0 && r as real - 1.0 < x <= r as real
  {
    if x >= 0.0 then x.Floor else -((-x).Floor)
  }

  /** Truncation toward zero commutes with negation. */
  lemma TruncNegate(x: real)
    ensures Trunc(-x) == -Trunc(x)
  {
  }

  /**
   The game's own one-argument `Round` helper, taken to give the nearest integer with
   halfway cases away from zero (its definition is not part of this model).
   */
  function Round(x: real): (r: int)
    ensures x >= 0.0 ==> x - 0.5 < r as real <= x + 0.5
    ensures x < 0.0 ==> x - 0.5 <= r as real < x + 0.5
    ensures x - x.Floor as real == 0.5 ==> (x >= 0.0 ==> r == x.Floor + 1) && (x < 0.0 ==> r == x.Floor)
    ensures x >= 0.0 ==> r >= 0
    ensures x <= 0.0 ==> r <= 0
  {
    if x >= 0.0 then (x + 0.5).Floor else -((-x + 0.5).Floor)
  }

  lemma RoundOfInteger(k: int)
    ensures Round(k as real) == k
  {
  }

  /** C's `a % 2` on a signed integer: the remainder takes the sign of the dividend. */
  function CRem2(a: int): (r: int)
    ensures a >= 0 ==> r == 0 || r == 1
    ensures a < 0 ==> r == 0 || r == -1
    ensures r == 0 <==> a % 2 == 0
  {
    if a >= 0 then a % 2 else -((-a) % 2)
  }

  /** The value a signed integer takes once converted to a 64-bit `size_t`. */
  function ToSize64(x: int): (r: nat)
    ensures r < SIZE_MODULUS
    ensures 0 <= x < SIZE_MODULUS ==> r == x
    ensures (x - r) % SIZE_MODULUS == 0
  {
    x % SIZE_MODULUS
  }

  function MinNat(a: nat, b: nat): (r: nat)
    ensures r <= a && r <= b
    ensures r == a || r == b
  {
    if a <= b then a else b
  }
}
