/** The two machine integer types of the contract, and its checked and saturating operators.
    A value assigned to one of these types must be proved in range, so every unchecked
    `+` or `-` of the contract becomes a proof obligation here. */
module Machine {
  import opened Wrappers

  const U32_MAX: int := 0xFFFF_FFFF
  const I128_MAX: int := 0x7FFF_FFFF_FFFF_FFFF_FFFF_FFFF_FFFF_FFFF

  type U32 = x: int | 0 <= x <= U32_MAX
  type I128 = x: int | -I128_MAX - 1 <= x <= I128_MAX

  function Min(a: int, b: int): int { if a <= b then a else b }

  function Max(a: int, b: int): int { if a >= b then a else b }

  predicate FitsI128(x: int) { -I128_MAX - 1 <= x <= I128_MAX }

  /** `i128::checked_mul`, `checked_add` and `checked_sub`: the exact value, if it fits. */
  function Checked(x: int): Option<I128> {
    if FitsI128(x) then Some(x) else None
  }

  /** `u32::checked_add` */
  function CheckedU32(x: int): Option<U32> {
    if 0 <= x <= U32_MAX then Some(x) else None
  }

  /** `u32::saturating_add` and `u32::saturating_sub`: the exact value, clamped. */
  function SaturatingU32(x: int): U32 {
    if x < 0 then 0 else if x > U32_MAX then U32_MAX else x
  }

  /** `i128::saturating_add`, `saturating_sub` and `saturating_mul` */
  function SaturatingI128(x: int): I128 {
    if x < -I128_MAX - 1 then -I128_MAX - 1 else if x > I128_MAX then I128_MAX else x
  }

  // ----- the ledger clock -----

  /** Ledgers at which something happens, none before the one before it. */
  ghost predicate NonDecreasing(now: U32, ledgers: seq<U32>)
    decreases |ledgers|
  {
    ledgers == [] || (now <= ledgers[0] && NonDecreasing(ledgers[0], ledgers[1..]))
  }

  lemma {:induction false} LastIsLatest(now: U32, ledgers: seq<U32>)
    requires NonDecreasing(now, ledgers) && ledgers != []
    ensures now <= Last(ledgers)
    decreases |ledgers|
  {
    if |ledgers| > 1 {
      LastIsLatest(ledgers[0], ledgers[1..]);
      assert Last(ledgers) == Last(ledgers[1..]);
    }
  }

  // Products of two variables, kept out of the other proofs.

  lemma MulAdd(r: int, a: int, b: int)
    ensures r * (a + b) == r * a + r * b
  {}

  lemma MulSub(r: int, a: int, b: int)
    ensures r * (a - b) == r * a - r * b
  {}

  lemma MulMono(r: int, a: int, b: int)
    requires 0 <= r && a <= b
    ensures r * a <= r * b
  {}

  lemma MulStrict(r: int, a: int, b: int)
    requires 0 < r && a < b
    ensures r * a < r * b
  {}
}
