/** 64-bit unsigned arithmetic that stops at its bounds, and the optional value. */
module Words {
  datatype Option<+T> = Some(value: T) | None

  const U64_MAX: nat := 0xFFFF_FFFF_FFFF_FFFF

  /** A 64-bit unsigned number. */
  type Amount = n: nat | n <= U64_MAX

  function SaturatingAdd(a: nat, b: nat): nat {
    if a + b > U64_MAX then U64_MAX else a + b
  }

  function SaturatingSub(a: nat, b: nat): nat {
    if a < b then 0 else a - b
  }
}
