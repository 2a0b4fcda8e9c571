/** Machine words, durations and minima. */
module Numbers {

  const U64_MAX: nat := 0xFFFF_FFFF_FFFF_FFFF

  type u64 = x: nat | x <= U64_MAX

  /** `duration_since`, which is zero when the argument is later. */
  function Since(now: nat, then_: nat): nat {
    if now >= then_ then now - then_ else 0
  }

  function Min(a: nat, b: nat): nat {
    if a <= b then a else b
  }
}
