/** Bytes and little-endian integers. */
module Bytes {
  type Byte = x: int | 0 <= x < 256

  /** 256^n. */
  function Limit(n: nat): (r: nat)
    ensures r > 0
  {
    if n == 0 then 1 else 256 * Limit(n - 1)
  }

  function FromLE(b: seq<Byte>): (v: nat)
    ensures v < Limit(|b|)
  {
    if b == [] then 0 else b[0] + 256 * FromLE(b[1..])
  }

  /** The n low bytes of v. */
  function ToLE(v: nat, n: nat): (b: seq<Byte>)
    ensures |b| == n
  {
    if n == 0 then [] else [v % 256] + ToLE(v / 256, n - 1)
  }

  function ZeroBytes(n: nat): (z: seq<Byte>)
    ensures |z| == n && forall i :: 0 <= i < n ==> z[i] == 0
  {
    seq(n, _ => 0)
  }

  lemma {:induction false} ToLEFromLE(b: seq<Byte>, n: nat)
    requires |b| <= n
    ensures ToLE(FromLE(b), n) == b + ZeroBytes(n - |b|)
  {
    if b == [] {
      ToLEZero(n);
    } else {
      ToLEFromLE(b[1..], n - 1);
      var v := FromLE(b);
      assert v % 256 == b[0] && v / 256 == FromLE(b[1..]);
      assert b == [b[0]] + b[1..];
    }
  }

  lemma {:induction false} ToLEZero(n: nat)
    ensures ToLE(0, n) == ZeroBytes(n)
  {
    if n != 0 {
      ToLEZero(n - 1);
    }
  }

  lemma {:induction false} FromLEToLE(v: nat, n: nat)
    requires v < Limit(n)
    ensures FromLE(ToLE(v, n)) == v
  {
    if n != 0 {
      FromLEToLE(v / 256, n - 1);
      assert ToLE(v, n)[1..] == ToLE(v / 256, n - 1);
    }
  }

  lemma Limits()
    ensures Limit(1) == 0x100 && Limit(4) == 0x1_0000_0000 && Limit(7) == 0x100_0000_0000_0000
    ensures Limit(8) == 0x1_0000_0000_0000_0000
    ensures Limit(16) == 0x1_0000_0000_0000_0000_0000_0000_0000_0000
  {
    assert Limit(4) == 256 * 256 * 256 * 256 * Limit(0);
    assert Limit(7) == 256 * 256 * 256 * Limit(4);
    assert Limit(8) == 256 * Limit(7);
    assert Limit(12) == 256 * 256 * 256 * 256 * Limit(8);
    assert Limit(16) == 256 * 256 * 256 * 256 * Limit(12);
  }
}
