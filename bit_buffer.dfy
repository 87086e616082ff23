/**
  The filter's storage: a fixed-length byte buffer addressed bit by bit.
  Bit position `idx` lives in byte `idx / 8`, at bit offset `idx % 8`
  (offset 0 is the least significant bit of the byte).

  Everything here is a pure function on `seq<byte>`; the filter class keeps
  the buffer in an array and is specified through these functions.
 */
module BitBuffer {

  type byte = bv8

  /** Number of bytes holding `m` bit positions: `(m + 7) // 8`, that is, m/8 rounded up. */
  function ByteLength(m: nat): (r: nat)
    ensures m <= 8 * r < m + 8
  {
    (m + 7) / 8
  }

  /** Every bit position below `m` falls in a byte of a buffer of `ByteLength(m)` bytes. */
  lemma ByteIndexInBounds(m: nat, idx: nat)
    requires idx < m
    ensures idx / 8 < ByteLength(m)
    ensures idx < 8 * ByteLength(m)
  {
  }

  /** The byte with only bit `offset` set: `1 << offset`. */
  function Mask(offset: nat): byte
    requires offset < 8
  {
    (1 as byte) << offset
  }

  /** Whether bit position `idx` of the buffer holds a 1. */
  predicate Test(buf: seq<byte>, idx: nat)
    requires idx < 8 * |buf|
  {
    buf[idx / 8] & Mask(idx % 8) != 0
  }

  /** A buffer of `len` zero bytes. */
  function Zeros(len: nat): (r: seq<byte>)
    ensures |r| == len
    ensures forall j | 0 <= j < 8 * len :: !Test(r, j)
  {
    seq(len, _ => 0 as byte)
  }

  /** Or-ing a mask into a byte turns on exactly the mask's bit. */
  lemma OrMask(x: byte, a: nat, b: nat)
    requires a < 8 && b < 8
    ensures ((x | Mask(a)) & Mask(b) != 0) <==> (x & Mask(b) != 0 || a == b)
    ensures (x | Mask(a)) & x == x
  {
  }

  /** Two bytes that agree on all eight bits are equal. */
  lemma ByteExtensionality(x: byte, y: byte)
    requires forall o | 0 <= o < 8 :: (x & Mask(o) != 0) == (y & Mask(o) != 0)
    ensures x == y
  {
    assert (x & Mask(0) != 0) == (y & Mask(0) != 0);
    assert (x & Mask(1) != 0) == (y & Mask(1) != 0);
    assert (x & Mask(2) != 0) == (y & Mask(2) != 0);
    assert (x & Mask(3) != 0) == (y & Mask(3) != 0);
    assert (x & Mask(4) != 0) == (y & Mask(4) != 0);
    assert (x & Mask(5) != 0) == (y & Mask(5) != 0);
    assert (x & Mask(6) != 0) == (y & Mask(6) != 0);
    assert (x & Mask(7) != 0) == (y & Mask(7) != 0);
  }

  /** Two buffers of one length that agree on every bit position are equal. */
  lemma BufferExtensionality(a: seq<byte>, b: seq<byte>)
    requires |a| == |b|
    requires forall j | 0 <= j < 8 * |a| :: Test(a, j) == Test(b, j)
    ensures a == b
  {
    forall i | 0 <= i < |a|
      ensures a[i] == b[i]
    {
      forall o | 0 <= o < 8
        ensures (a[i] & Mask(o) != 0) == (b[i] & Mask(o) != 0)
      {
        var j := 8 * i + o;
        assert j / 8 == i && j % 8 == o;
        assert Test(a, j) == Test(b, j);
      }
      ByteExtensionality(a[i], b[i]);
    }
  }

  /**
    `bits[idx // 8] |= 1 << (idx % 8)`: bit `idx` becomes 1, every other bit
    keeps its value, and no byte other than byte `idx / 8` changes.
   */
  function Set(buf: seq<byte>, idx: nat): (r: seq<byte>)
    requires idx < 8 * |buf|
    ensures |r| == |buf|
    ensures forall j | 0 <= j < 8 * |buf| :: Test(r, j) <==> Test(buf, j) || j == idx
    ensures forall i | 0 <= i < |buf| && i != idx / 8 :: r[i] == buf[i]
    ensures forall i | 0 <= i < |buf| :: r[i] & buf[i] == buf[i]
  {
    var r := buf[idx / 8 := buf[idx / 8] | Mask(idx % 8)];
    OrMask(buf[idx / 8], idx % 8, 0);
    forall j | 0 <= j < 8 * |buf|
      ensures Test(r, j) <==> Test(buf, j) || j == idx
    {
      SetAt(buf, idx, j);
    }
    r
  }

  /** One bit position of `Set`: only position `idx` can change, and it becomes 1. */
  lemma SetAt(buf: seq<byte>, idx: nat, j: nat)
    requires idx < 8 * |buf| && j < 8 * |buf|
    ensures var r := buf[idx / 8 := buf[idx / 8] | Mask(idx % 8)];
      Test(r, j) <==> Test(buf, j) || j == idx
  {
    var r := buf[idx / 8 := buf[idx / 8] | Mask(idx % 8)];
    if j / 8 == idx / 8 {
      OrMask(buf[idx / 8], idx % 8, j % 8);
      assert j == idx <==> j % 8 == idx % 8;
    } else {
      assert r[j / 8] == buf[j / 8];
      assert j != idx;
    }
  }

  /** Every index of `idxs` addresses a bit of a buffer of `len` bytes. */
  predicate InRange(len: nat, idxs: seq<nat>)
  {
    forall t | t in idxs :: t < 8 * len
  }

  /**
    Sets every bit position of `idxs`, in order. Afterwards exactly the bits
    that were 1 or are named by `idxs` are 1, and every byte that no index
    addresses is unchanged.
   */
  function SetIndices(buf: seq<byte>, idxs: seq<nat>): (r: seq<byte>)
    requires InRange(|buf|, idxs)
    ensures |r| == |buf|
    ensures forall j | 0 <= j < 8 * |buf| :: Test(r, j) <==> Test(buf, j) || j in idxs
    ensures forall i | 0 <= i < |buf| && (forall t | t in idxs :: t / 8 != i) :: r[i] == buf[i]
    decreases |idxs|
  {
    if idxs == [] then buf
    else
      var front := idxs[..|idxs| - 1];
      var last := idxs[|idxs| - 1];
      assert idxs == front + [last];
      assert last in idxs && forall t | t in front :: t in idxs;
      var mid := SetIndices(buf, front);
      var r := Set(mid, last);
      assert forall i | 0 <= i < |buf| && (forall t | t in idxs :: t / 8 != i) :: r[i] == buf[i] by {
        forall i | 0 <= i < |buf| && (forall t | t in idxs :: t / 8 != i)
          ensures r[i] == buf[i]
        {
          assert last / 8 != i;
          assert forall t | t in front :: t / 8 != i;
        }
      }
      assert forall j | 0 <= j < 8 * |buf| :: (j in idxs <==> j in front || j == last);
      r
  }

  /** Whether every bit position of `idxs` holds a 1. */
  predicate AllIndicesSet(buf: seq<byte>, idxs: seq<nat>)
    requires InRange(|buf|, idxs)
  {
    forall t | t in idxs :: Test(buf, t)
  }

  /** Whether the bits at positions from `m` up to the end of the last byte are all 0. */
  predicate PaddingClear(buf: seq<byte>, m: nat)
    requires m <= 8 * |buf|
  {
    forall j | m <= j < 8 * |buf| :: !Test(buf, j)
  }

  /** The abstract view of the buffer: bit `j` for every position `j < m`. */
  function View(buf: seq<byte>, m: nat): (v: seq<bool>)
    requires m <= 8 * |buf|
  {
    seq(m, j requires 0 <= j < m => Test(buf, j))
  }

  /**
    The abstract view determines the buffer: two buffers of `ByteLength(m)`
    bytes whose padding bits are 0 and whose views agree are the same bytes.
   */
  lemma ViewDeterminesBuffer(a: seq<byte>, b: seq<byte>, m: nat)
    requires |a| == ByteLength(m) && |b| == ByteLength(m)
    requires PaddingClear(a, m) && PaddingClear(b, m)
    requires View(a, m) == View(b, m)
    ensures a == b
  {
    forall j | 0 <= j < 8 * |a|
      ensures Test(a, j) == Test(b, j)
    {
      if j < m {
        assert View(a, m)[j] == View(b, m)[j];
      }
    }
    BufferExtensionality(a, b);
  }

  /** Setting positions below `m` keeps the padding bits 0. */
  lemma SetIndicesKeepsPadding(buf: seq<byte>, m: nat, idxs: seq<nat>)
    requires m <= 8 * |buf| && PaddingClear(buf, m)
    requires forall t | t in idxs :: t < m
    ensures InRange(|buf|, idxs)
    ensures PaddingClear(SetIndices(buf, idxs), m)
  {
  }

  /** In the view, setting `idxs` turns on exactly the positions of `idxs`. */
  lemma SetIndicesView(buf: seq<byte>, m: nat, idxs: seq<nat>)
    requires m <= 8 * |buf|
    requires InRange(|buf|, idxs)
    ensures forall j | 0 <= j < m :: View(SetIndices(buf, idxs), m)[j] == (View(buf, m)[j] || j in idxs)
  {
  }

  /** Setting the same positions a second time changes nothing. */
  lemma SetIndicesIdempotent(buf: seq<byte>, idxs: seq<nat>)
    requires InRange(|buf|, idxs)
    ensures SetIndices(SetIndices(buf, idxs), idxs) == SetIndices(buf, idxs)
  {
    var once := SetIndices(buf, idxs);
    BufferExtensionality(SetIndices(once, idxs), once);
  }

  /** A bit that is 1 stays 1, so every query that held still holds. */
  lemma SetIndicesMonotone(buf: seq<byte>, idxs: seq<nat>, other: seq<nat>)
    requires InRange(|buf|, idxs) && InRange(|buf|, other)
    requires AllIndicesSet(buf, other)
    ensures AllIndicesSet(SetIndices(buf, idxs), other)
  {
  }

  /** Applies `SetIndices` for each batch of positions, in order. */
  function SetBatches(buf: seq<byte>, batches: seq<seq<nat>>): (r: seq<byte>)
    requires forall b | b in batches :: InRange(|buf|, b)
    ensures |r| == |buf|
    decreases |batches|
  {
    if batches == [] then buf
    else SetBatches(SetIndices(buf, batches[0]), batches[1..])
  }

  /**
    No false negatives: once the positions `x` are set, they are all 1 after
    any later sequence of insertions.
   */
  lemma {:induction false} NoFalseNegatives(buf: seq<byte>, x: seq<nat>, later: seq<seq<nat>>)
    requires InRange(|buf|, x)
    requires forall b | b in later :: InRange(|buf|, b)
    ensures AllIndicesSet(SetBatches(SetIndices(buf, x), later), x)
    decreases |later|
  {
    StaysSet(SetIndices(buf, x), x, later);
  }

  /** Positions that are all 1 remain all 1 through any sequence of insertions. */
  lemma {:induction false} StaysSet(buf: seq<byte>, x: seq<nat>, later: seq<seq<nat>>)
    requires InRange(|buf|, x)
    requires forall b | b in later :: InRange(|buf|, b)
    requires AllIndicesSet(buf, x)
    ensures AllIndicesSet(SetBatches(buf, later), x)
    decreases |later|
  {
    if later != [] {
      var next := SetIndices(buf, later[0]);
      SetIndicesMonotone(buf, later[0], x);
      assert forall b | b in later[1..] :: b in later;
      StaysSet(next, x, later[1..]);
    }
  }
}
