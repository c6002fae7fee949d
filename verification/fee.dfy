/** The submission fee: a percentage of the requested amount, raised to a
    minimum. The product is formed in unsigned 64-bit arithmetic from the
    requested amount's bit pattern, so it wraps. */
module Fee {
  import opened Widths

  /** The percentage part of the fee, before the minimum applies. */
  function Quota(amount: i64, feePercentage: u16): (q: u64)
    ensures 0 <= amount && amount * feePercentage < U64_MODULUS ==>
              100 * q <= amount * feePercentage < 100 * (q + 1)
  {
    WrapU64(ToUnsigned(amount) * feePercentage) / 100
  }

  function FeeFor(amount: i64, feePercentage: u16, feeMin: u64): (fee: u64)
    ensures fee >= feeMin
    ensures fee >= Quota(amount, feePercentage)
    ensures fee == feeMin || fee == Quota(amount, feePercentage)
  {
    var quota := Quota(amount, feePercentage);
    if quota > feeMin then quota else feeMin
  }

  function Max(a: int, b: int): (m: int)
    ensures m >= a && m >= b && (m == a || m == b)
  {
    if a >= b then a else b
  }

  /** Without wrap-around the fee is the larger of the floored percentage
      and the minimum, and equals the minimum exactly when the floored
      percentage does not exceed it. */
  lemma FeeRule(amount: i64, feePercentage: u16, feeMin: u64)
    requires 0 <= amount && amount * feePercentage < U64_MODULUS
    ensures FeeFor(amount, feePercentage, feeMin) == Max(amount * feePercentage / 100, feeMin)
    ensures FeeFor(amount, feePercentage, feeMin) == feeMin <==> amount * feePercentage < 100 * (feeMin + 1)
  {
  }

  /** The defaults applied to one million units: 3 % is 30,000, below the
      minimum, so the minimum of 500,000 is charged. */
  lemma DefaultFeeExample()
    ensures FeeFor(1000000, 3, 500000) == 500000
    ensures FeeFor(100000000, 3, 500000) == 3000000
  {
  }

  /** No sign check precedes the cast: a requested amount of -1 is read as
      2^64 - 1, the product wraps, and the fee charged is enormous. */
  lemma NegativeAmountWraps()
    ensures FeeFor(-1, 3, 500000) == 184467440737095516
  {
  }
}

/** Fees charged on amounts within the token's asset range. */
module FeeRange {
  import opened Widths
  import opened Fee

  /** Requested amounts within the token's asset range (below 2^62) never
      wrap at a percentage of at most 4, which covers the default of 3: the
      fee is then exactly the larger of the floored percentage and the
      minimum. */
  lemma NoWrapAtSmallPercentages(amount: i64, feePercentage: u16, feeMin: u64)
    requires 0 <= amount < 0x4000_0000_0000_0000 && feePercentage <= 4
    ensures amount * feePercentage < U64_MODULUS
    ensures FeeFor(amount, feePercentage, feeMin) == Max(amount * feePercentage / 100, feeMin)
  {
    FeeRule(amount, feePercentage, feeMin);
  }
}
