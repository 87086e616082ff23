/**
  Index generation by double hashing: one 256-bit digest of the item is split
  into two 128-bit big-endian halves `h1` (high) and `h2` (low, replaced by 1
  when it is 0), and round `i` of `k` yields the position `(h1 + i * h2) % m`.

  The digest itself (SHA-256 in the source) is not modelled here; it enters as
  a 32-byte value.
 */
module DoubleHashing {
  import opened BitBuffer

  /** Positive integers: the bit count `m` and the round count `k`. */
  type Positive = x: int | x > 0 witness 1

  /** A 256-bit digest, as its 32 bytes. */
  type Digest = d: seq<byte> | |d| == 32 witness Zeros(32)

  /** 2^128, one more than the largest value of a 16-byte half. */
  const TwoTo128: nat := 0x1_0000_0000_0000_0000_0000_0000_0000_0000

  /** 256 to the power `n`. */
  function Pow256(n: nat): (r: nat)
    ensures r >= 1
  {
    if n == 0 then 1 else 256 * Pow256(n - 1)
  }

  /** `int.from_bytes(s, "big")`: the unsigned value of `s`, most significant byte first. */
  function FromBigEndian(s: seq<byte>): (r: nat)
    ensures r < Pow256(|s|)
  {
    if s == [] then 0
    else
      var front := FromBigEndian(s[..|s| - 1]);
      var last := s[|s| - 1] as nat;
      assert front * 256 + last < Pow256(|s|) by {
        assert front <= Pow256(|s| - 1) - 1;
        assert front * 256 <= Pow256(|s|) - 256;
      }
      front * 256 + last
  }

  /** A big-endian value is 0 exactly when every byte is 0. */
  lemma {:induction false} FromBigEndianZero(s: seq<byte>)
    ensures FromBigEndian(s) == 0 <==> forall i | 0 <= i < |s| :: s[i] == 0
  {
    if s != [] {
      var front := s[..|s| - 1];
      FromBigEndianZero(front);
      assert FromBigEndian(s) == FromBigEndian(front) * 256 + s[|s| - 1] as nat;
      assert (forall i | 0 <= i < |s| :: s[i] == 0) <==>
        (forall i | 0 <= i < |front| :: front[i] == 0) && s[|s| - 1] == 0;
    }
  }

  /** A 16-byte half ranges below 2^128. */
  lemma SixteenBytes()
    ensures Pow256(16) == TwoTo128
  {
    assert Pow256(1) == 256;
    assert Pow256(2) == 65536;
    assert Pow256(3) == 16777216;
    assert Pow256(4) == 4294967296;
    assert Pow256(5) == 1099511627776;
    assert Pow256(6) == 281474976710656;
    assert Pow256(7) == 72057594037927936;
    assert Pow256(8) == 18446744073709551616;
    assert Pow256(9) == 4722366482869645213696;
    assert Pow256(10) == 1208925819614629174706176;
    assert Pow256(11) == 309485009821345068724781056;
    assert Pow256(12) == 79228162514264337593543950336;
    assert Pow256(13) == 20282409603651670423947251286016;
    assert Pow256(14) == 5192296858534827628530496329220096;
    assert Pow256(15) == 1329227995784915872903807060280344576;
    assert Pow256(16) == 340282366920938463463374607431768211456;
  }

  /**
    The two base hashes of a digest: `h1` is bytes 0..16 and `h2` bytes 16..32,
    each read big-endian, and `h2` is never 0 (an all-zero low half gives 1).
   */
  function BaseHashes(d: Digest): (h: (nat, nat))
    ensures h.0 == FromBigEndian(d[..16]) && h.0 < TwoTo128
    ensures 1 <= h.1 < TwoTo128
    ensures (forall i | 16 <= i < 32 :: d[i] == 0) ==> h.1 == 1
    ensures !(forall i | 16 <= i < 32 :: d[i] == 0) ==> h.1 == FromBigEndian(d[16..])
  {
    var high := FromBigEndian(d[..16]);
    var low := FromBigEndian(d[16..]);
    SixteenBytes();
    FromBigEndianZero(d[16..]);
    assert forall i | 16 <= i < 32 :: d[i] == d[16..][i - 16];
    (high, if low == 0 then 1 else low)
  }

  /** The `k` positions `(h1 + i * h2) % m` for `i` in `0 .. k`, each a valid position below `m`. */
  function IndexSequence(h1: nat, h2: nat, m: Positive, k: nat): (r: seq<nat>)
    ensures |r| == k
    ensures forall i | 0 <= i < k :: r[i] < m && r[i] / 8 < ByteLength(m)
  {
    seq(k, i requires 0 <= i < k => (h1 + i * h2) % m)
  }

  /** The positions an item with digest `d` addresses in a filter of `m` bits and `k` rounds. */
  function Indices(d: Digest, m: Positive, k: Positive): (r: seq<nat>)
    ensures |r| == k && |r| >= 1
    ensures forall t | t in r :: t < m
  {
    var h := BaseHashes(d);
    IndexSequence(h.0, h.1, m, k)
  }

  /** `a % m` is `r` when `a` is `q * m + r` with `0 <= r < m`. */
  lemma ModOfMultiplePlus(a: int, m: Positive, q: int, r: int)
    requires a == q * m + r && 0 <= r < m
    ensures a % m == r
  {
    var q', r' := a / m, a % m;
    assert a == q' * m + r';
    assert (q - q') * m == r' - r;
    if q > q' {
      AtLeastOneMultiple(q - q', m);
    } else if q < q' {
      AtLeastOneMultiple(q' - q, m);
    }
  }

  lemma AtLeastOneMultiple(x: int, m: Positive)
    requires x >= 1
    ensures x * m >= m
  {
  }

  /**
    The first two rounds coincide exactly when the step `h2` is a multiple of
    `m`; forcing `h2` to be non-zero excludes the step 0 but not every such multiple.
   */
  lemma FirstTwoRoundsCoincide(h1: nat, h2: nat, m: Positive, k: nat)
    requires k >= 2
    ensures IndexSequence(h1, h2, m, k)[1] == IndexSequence(h1, h2, m, k)[0] <==> h2 % m == 0
  {
    var r := IndexSequence(h1, h2, m, k);
    assert r[0] == h1 % m && r[1] == (h1 + h2) % m;
    var q1, r1 := h1 / m, h1 % m;
    var q2, r2 := h2 / m, h2 % m;
    assert h1 + h2 == (q1 + q2) * m + (r1 + r2);
    if r1 + r2 < m {
      ModOfMultiplePlus(h1 + h2, m, q1 + q2, r1 + r2);
    } else {
      ModOfMultiplePlus(h1 + h2, m, q1 + q2 + 1, r1 + r2 - m);
    }
  }
}
