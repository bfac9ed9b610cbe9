/** Bytes, fixed-width integers and digests: the vocabulary every other module shares. */
module Bytes {
  type Byte = x: int | 0 <= x < 256
  type Bytes = seq<Byte>

  function Zeros(n: nat): (z: Bytes)
    ensures |z| == n
  {
    if n == 0 then [] else [0] + Zeros(n - 1)
  }

  /** The fixed-size byte arrays of the node, kept apart only by their length. */
  type Hash = h: Bytes | |h| == 32 witness Zeros(32)
  type PublicKey = k: Bytes | |k| == 32 witness Zeros(32)
  type Signature = s: Bytes | |s| == 64 witness Zeros(64)
  type Address = a: Bytes | |a| == 20 witness Zeros(20)

  const ZERO: Hash := Zeros(32)
  const ZERO_ADDRESS: Address := Zeros(20)
  const ZERO_SIGNATURE: Signature := Zeros(64)

  const U32_END: int := 0x1_0000_0000
  const U64_END: int := 0x1_0000_0000_0000_0000
  type U32 = x: int | 0 <= x < U32_END
  type U64 = x: int | 0 <= x < U64_END

  /** Rust's plain `+`, `-` and `*` on u64 in a release build. */
  function WrapAdd(a: U64, b: U64): U64 {
    (a + b) % U64_END
  }

  function WrapSub(a: U64, b: U64): U64 {
    (a - b) % U64_END
  }

  function WrapMul(a: U64, b: U64): U64 {
    (a * b) % U64_END
  }

  function SatAdd(a: U64, b: U64): U64 {
    if a + b < U64_END then a + b else U64_END - 1
  }

  function SatSub(a: U64, b: U64): U64 {
    if a < b then 0 else a - b
  }

  /** `saturating_sub` on usize, whose width is not modelled. */
  function SaturatingSub(a: nat, b: nat): nat {
    if a < b then 0 else a - b
  }

  /** `to_be_bytes`: the low `width` bytes of n, most significant first. */
  function BigEndian(n: nat, width: nat): (b: Bytes)
    ensures |b| == width
  {
    if width == 0 then [] else BigEndian(n / 256, width - 1) + [n % 256]
  }

  /** `from_be_bytes`. */
  function FromBigEndian(b: Bytes): nat {
    if b == [] then 0 else 256 * FromBigEndian(b[..|b| - 1]) + b[|b| - 1]
  }

  function FromU64Bytes(b: Bytes): U64
    requires |b| == 8
  {
    FromBigEndianBound(b);
    U64Width();
    FromBigEndian(b)
  }

  function Pow256(width: nat): nat {
    if width == 0 then 1 else 256 * Pow256(width - 1)
  }

  lemma {:induction false} BigEndianRoundTrip(n: nat, width: nat)
    requires n < Pow256(width)
    ensures FromBigEndian(BigEndian(n, width)) == n
  {
    if width != 0 {
      BigEndianRoundTrip(n / 256, width - 1);
      assert BigEndian(n, width)[..width - 1] == BigEndian(n / 256, width - 1);
    }
  }

  lemma {:induction false} FromBigEndianBound(b: Bytes)
    ensures FromBigEndian(b) < Pow256(|b|)
  {
    if b != [] {
      FromBigEndianBound(b[..|b| - 1]);
    }
  }

  /** The first byte counts most. */
  lemma {:induction false} MostSignificantFirst(high: Byte, rest: Bytes)
    ensures FromBigEndian([high] + rest) == high * Pow256(|rest|) + FromBigEndian(rest)
  {
    var b := [high] + rest;
    if rest == [] {
      assert b[..0] == [];
    } else {
      var before := rest[..|rest| - 1];
      MostSignificantFirst(high, before);
      assert b[..|b| - 1] == [high] + before;
      Shifted(high, Pow256(|before|));
    }
  }

  lemma Shifted(high: nat, p: nat)
    ensures 256 * (high * p) == high * (256 * p)
  {
  }

  lemma U32Width()
    ensures Pow256(4) == U32_END
  {
    assert Pow256(4) == 256 * (256 * (256 * (256 * Pow256(0))));
  }

  lemma U64Width()
    ensures Pow256(8) == U64_END
  {
    U32Width();
    assert Pow256(8) == 256 * (256 * (256 * (256 * Pow256(4))));
  }

  lemma U64RoundTrip(n: U64)
    ensures FromBigEndian(BigEndian(n, 8)) == n
  {
    U64Width();
    BigEndianRoundTrip(n, 8);
  }

  /** Fixed-width fields concatenate unambiguously. */
  lemma ConcatInjective<T>(a: seq<T>, b: seq<T>, c: seq<T>, d: seq<T>)
    requires a + b == c + d && (|a| == |c| || |b| == |d|)
    ensures a == c && b == d
  {
    assert |a| == |c|;
    assert a == (a + b)[..|a|] && c == (c + d)[..|c|];
    assert b == (a + b)[|a|..] && d == (c + d)[|c|..];
  }

  lemma ConcatAssociative<T>(a: seq<T>, b: seq<T>, c: seq<T>)
    ensures a + (b + c) == (a + b) + c
  {
  }

  lemma BigEndianInjective(m: nat, n: nat, width: nat)
    requires m < Pow256(width) && n < Pow256(width) && BigEndian(m, width) == BigEndian(n, width)
    ensures m == n
  {
    BigEndianRoundTrip(m, width);
    BigEndianRoundTrip(n, width);
  }

  lemma U64Injective(m: U64, n: U64)
    requires BigEndian(m, 8) == BigEndian(n, 8)
    ensures m == n
  {
    U64Width();
    BigEndianInjective(m, n, 8);
  }

  datatype Option<+T> = None | Some(value: T)

  datatype Result<+T, +E> = Ok(value: T) | Err(error: E)

  datatype Outcome<+E> = Pass | Fail(error: E)
}
