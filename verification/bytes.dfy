/**
 * Fixed-width unsigned integers and the big-endian byte order used by
 * `u32::to_be_bytes` and `u32::from_be_bytes`.
 */
module Bytes {

  /** Rust's `u8`. */
  type Byte = x: int | 0 <= x < 0x100

  /** Rust's `u32`. */
  type U32 = x: int | 0 <= x < 0x1_0000_0000

  /** `x.to_be_bytes()`: most significant byte first. */
  function ToBeBytes(x: U32): (r: seq<Byte>)
    ensures |r| == 4
  {
    [x / 0x100_0000, (x / 0x1_0000) % 0x100, (x / 0x100) % 0x100, x % 0x100]
  }

  /** `u32::from_be_bytes(b)`. */
  function FromBeBytes(b: seq<Byte>): (r: U32)
    requires |b| == 4
    ensures r % 0x100 == b[3] && r / 0x100_0000 == b[0]
  {
    b[0] as int * 0x100_0000 + b[1] as int * 0x1_0000 + b[2] as int * 0x100 + b[3] as int
  }

  /** `from_be_bytes` undoes `to_be_bytes`. */
  lemma FromToBeBytes(x: U32)
    ensures FromBeBytes(ToBeBytes(x)) == x
  {
    var b := ToBeBytes(x);
    assert x == (x / 0x100) * 0x100 + x % 0x100;
    assert x / 0x100 == (x / 0x1_0000) * 0x100 + (x / 0x100) % 0x100;
    assert x / 0x1_0000 == (x / 0x100_0000) * 0x100 + (x / 0x1_0000) % 0x100;
  }

  /** Splitting `q * 256 + r` into its last byte and the rest. */
  lemma DivModByte(q: int, r: int)
    requires 0 <= r < 0x100
    ensures (q * 0x100 + r) / 0x100 == q && (q * 0x100 + r) % 0x100 == r
  {
  }

  /** `to_be_bytes` undoes `from_be_bytes`: the two are inverse bijections. */
  lemma ToFromBeBytes(b: seq<Byte>)
    requires |b| == 4
    ensures ToBeBytes(FromBeBytes(b)) == b
  {
    var x := FromBeBytes(b);
    var hi2 := b[0] as int * 0x100 + b[1] as int;
    var hi3 := hi2 * 0x100 + b[2] as int;
    assert x == hi3 * 0x100 + b[3] as int;
    DivModByte(hi3, b[3]);
    DivModByte(hi2, b[2]);
    DivModByte(b[0], b[1]);
    assert x / 0x1_0000 == hi3 / 0x100;
    assert x / 0x100_0000 == hi2 / 0x100;
  }

  /** A value below 256 is written as three zero bytes and then itself. */
  lemma ToBeBytesOfSmall(x: U32)
    requires x < 0x100
    ensures ToBeBytes(x) == [0, 0, 0, x]
  {
  }

  /** The all-zero sequence of length `n`. */
  function Zeros(n: nat): (r: seq<Byte>)
    ensures |r| == n && forall i :: 0 <= i < n ==> r[i] == 0
  {
    seq(n, _ => 0)
  }

  /** True when every byte of `s` is zero (`s == [0u8; N]`). */
  predicate AllZero(s: seq<Byte>)
  {
    forall i :: 0 <= i < |s| ==> s[i] == 0
  }

  /**
   * `dst[start..start + |src|].copy_from_slice(src)`: overwrite that slice of
   * `dst` with `src`, leaving the rest of `dst` alone.
   */
  method CopyFromSlice(dst: array<Byte>, start: nat, src: seq<Byte>)
    requires start + |src| <= dst.Length
    modifies dst
    ensures dst[..] == old(dst[..start]) + src + old(dst[start + |src|..])
  {
    forall i | start <= i < start + |src| {
      dst[i] := src[i - start];
    }
    assert dst[..] == old(dst[..start]) + src + old(dst[start + |src|..]);
  }
}
