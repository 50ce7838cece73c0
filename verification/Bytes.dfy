/** Bytes, machine-integer ranges and the result types shared by every module. */
module Bytes {

  type byte = x: int | 0 <= x < 256

  /** A SHA-256 digest. */
  type Digest = d: seq<byte> | |d| == 32 witness seq(32, _ => 0)

  /** 2^64 and 2^63: the ranges of `u64` and `i64`. */
  const TWO_64: int := 0x1_0000_0000_0000_0000
  const TWO_63: int := 0x8000_0000_0000_0000

  datatype Option<+T> = None | Some(value: T)

  datatype Result<+T> = Ok(value: T) | Err(error: string) {
    predicate IsFailure() { Err? }
    function PropagateFailure<U>(): Result<U>
      requires Err?
    {
      Err(error)
    }

    function Extract(): T
      requires Ok?
    {
      value
    }
  }

  /** `v as i64` for a `u64` value: the representative of `v` modulo 2^64 in the range of `i64`. */
  function ToI64(v: nat): (r: int)
    requires v < TWO_64
    ensures -TWO_63 <= r < TWO_63
    ensures r == v || r == v - TWO_64
  {
    if v < TWO_63 then v else v - TWO_64
  }

  /** The value of `x` in 64 bits: `x` modulo 2^64. */
  function Wrap64(x: int): (r: nat)
    ensures r < TWO_64 && (x - r) % TWO_64 == 0
    ensures 0 <= x < TWO_64 ==> r == x
  {
    x % 0x1_0000_0000_0000_0000
  }

  /** Wrapping `u64` subtraction. */
  function Sub64(a: nat, b: nat): (r: nat)
    ensures r < TWO_64
    ensures b <= a < TWO_64 ==> r == a - b
  {
    Wrap64(a - b)
  }

  /** `n` as `k` little-endian bytes (higher bytes are dropped). */
  function LeBytes(n: nat, k: nat): (s: seq<byte>)
    ensures |s| == k
  {
    if k == 0 then [] else [n % 256] + LeBytes(n / 256, k - 1)
  }

  /** The number whose little-endian bytes are `s`. */
  function LeValue(s: seq<byte>): (n: nat)
  {
    if s == [] then 0 else s[0] + 256 * LeValue(s[1..])
  }

  function Pow256(k: nat): (p: nat)
    ensures p > 0
  {
    if k == 0 then 1 else 256 * Pow256(k - 1)
  }

  /** Writing `n` in `k` little-endian bytes and reading it back gives `n`, for every `n` that fits. */
  lemma {:induction false} LeRoundTrip(n: nat, k: nat)
    requires n < Pow256(k)
    ensures LeValue(LeBytes(n, k)) == n
  {
    if k > 0 {
      assert n / 256 < Pow256(k - 1);
      LeRoundTrip(n / 256, k - 1);
      assert LeBytes(n, k)[1..] == LeBytes(n / 256, k - 1);
    }
  }

  /** Reading bytes as a number and writing it in as many bytes gives them back. */
  lemma {:induction false} LeBytesOfValue(s: seq<byte>)
    ensures LeBytes(LeValue(s), |s|) == s
    decreases |s|
  {
    if s != [] {
      var rest := LeValue(s[1..]);
      LeBytesOfValue(s[1..]);
      LowByte(s[0], rest);
      assert LeBytes(LeValue(s), |s|) == [s[0]] + LeBytes(rest, |s| - 1);
    }
  }

  lemma LowByte(b: byte, rest: nat)
    ensures (b + 256 * rest) % 256 == b && (b + 256 * rest) / 256 == rest
  {
  }

  /** The `u64` case of `LeRoundTrip`. */
  lemma LeRoundTrip64(n: nat)
    requires n < TWO_64
    ensures LeValue(LeBytes(n, 8)) == n
  {
    assert Pow256(4) == 256 * 256 * 256 * 256;
    assert Pow256(8) == 256 * 256 * 256 * 256 * Pow256(4);
    LeRoundTrip(n, 8);
  }

  lemma Assoc<T>(a: seq<T>, b: seq<T>, c: seq<T>)
    ensures a + (b + c) == a + b + c
  {
  }
}
