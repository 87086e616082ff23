/**
  The Bloom filter: an add-only membership structure over a byte buffer of
  `ByteLength(m)` bytes, queried and updated at the `k` positions that double
  hashing derives from an item's digest.

  The class keeps the source's fields and updates the buffer in place; its
  contracts are stated through the pure functions of `BitBuffer`, and the
  pure functions `CheckIn` and `CheckInAll` give the check-in operation on
  buffer values so that whole sequences of calls can be reasoned about.
 */
module Bloom {
  import opened BitBuffer
  import opened DoubleHashing

  /** The one failure of the core: construction with parameters out of range. */
  datatype Error = InvalidParameters

  datatype Result<T> = Success(value: T) | Failure(error: Error)

  /** `expected_items > 0` and `0 < false_positive_rate < 1`. */
  predicate ValidParameters(expectedItems: int, falsePositiveRate: real)
  {
    expectedItems > 0 && 0.0 < falsePositiveRate < 1.0
  }

  /** `max(1, raw)`: the round count is at least 1 whatever the sizing formula gives. */
  function HashCount(raw: int): (k: Positive)
    ensures k >= raw && (k == raw || k == 1)
  {
    if raw < 1 then 1 else raw
  }

  class BloomFilter {
    /** Expected number of items (`n`). */
    const n: int
    /** Target false-positive rate (`p`). */
    const p: real
    /** Number of bit positions (`m`). */
    const m: Positive
    /** Number of hash rounds (`k`). */
    const k: Positive
    /** The 256-bit digest of an item's bytes. */
    const digest: seq<byte> -> Digest
    /** The bit buffer, `ByteLength(m)` bytes. */
    const bits: array<byte>

    /** The buffer has its length, and no position at or beyond `m` is ever set. */
    ghost predicate Valid()
      reads bits
    {
      bits.Length == ByteLength(m) && PaddingClear(bits[..], m)
    }

    /** The abstract state: one bit for each of the `m` positions. */
    ghost function Bits(): (v: seq<bool>)
      reads bits
      requires Valid()
    {
      View(bits[..], m)
    }

    /** Allocates a zero buffer of `ByteLength(bitSize)` bytes; the parameters are checked by `Create`. */
    constructor (expectedItems: int, falsePositiveRate: real, bitSize: Positive, rawHashCount: int,
                 digest: seq<byte> -> Digest)
      requires ValidParameters(expectedItems, falsePositiveRate)
      ensures Valid() && fresh(bits)
      ensures n == expectedItems && p == falsePositiveRate
      ensures m == bitSize && k == HashCount(rawHashCount) && this.digest == digest
      ensures bits[..] == Zeros(ByteLength(bitSize))
    {
      n := expectedItems;
      p := falsePositiveRate;
      m := bitSize;
      k := HashCount(rawHashCount);
      this.digest := digest;
      bits := new byte[ByteLength(bitSize)](_ => 0 as byte);
      new;
      assert bits[..] == Zeros(ByteLength(bitSize));
    }

    /**
      Construction with its parameter check: invalid parameters fail with
      `InvalidParameters`, valid ones give a filter whose buffer is all zero,
      which therefore reports no item present.
     */
    static method Create(expectedItems: int, falsePositiveRate: real, bitSize: Positive, rawHashCount: int,
                         digest: seq<byte> -> Digest)
      returns (r: Result<BloomFilter>)
      ensures r.Failure? <==> !ValidParameters(expectedItems, falsePositiveRate)
      ensures r.Failure? ==> r.error == InvalidParameters
      ensures r.Success? ==> fresh(r.value) && fresh(r.value.bits) && r.value.Valid()
      ensures r.Success? ==> r.value.m == bitSize && r.value.k == HashCount(rawHashCount)
      ensures r.Success? ==> r.value.n == expectedItems && r.value.p == falsePositiveRate
      ensures r.Success? ==> r.value.digest == digest
      ensures r.Success? ==> r.value.bits[..] == Zeros(ByteLength(bitSize))
      ensures r.Success? ==> forall x :: !r.value.MightContain(x)
    {
      if !ValidParameters(expectedItems, falsePositiveRate) {
        return Failure(InvalidParameters);
      }
      var f := new BloomFilter(expectedItems, falsePositiveRate, bitSize, rawHashCount, digest);
      forall x
        ensures !f.MightContain(x)
      {
        var idx := f.Hashes(x);
        assert idx[0] in idx;
      }
      return Success(f);
    }

    /** `_hashes`: the `k` positions of an item, all below `m`. */
    function Hashes(item: seq<byte>): (r: seq<nat>)
      ensures |r| == k
      ensures forall t | t in r :: t < m && t / 8 < ByteLength(m)
    {
      Indices(digest(item), m, k)
    }

    /**
      `might_contain`: true exactly when every position of the item holds a 1.
      As a function it reads the buffer and cannot change it.
     */
    function MightContain(item: seq<byte>): (r: bool)
      reads bits
      requires Valid()
      ensures r <==> forall i | 0 <= i < k :: Bits()[Hashes(item)[i]]
      ensures r == AllIndicesSet(bits[..], Hashes(item))
    {
      var idx := Hashes(item);
      assert forall i | 0 <= i < |idx| :: idx[i] in idx;
      assert forall i | 0 <= i < |idx| :: Bits()[idx[i]] == Test(bits[..], idx[i]);
      forall i | 0 <= i < |idx| :: bits[idx[i] / 8] & Mask(idx[i] % 8) != 0
    }

    /**
      `add`: sets every position of the item. Exactly those positions turn
      from 0 to 1, every bit already 1 stays 1, bytes no position addresses
      are unchanged, the item is then reported present, and so is every item
      that was reported present before.
     */
    method Add(item: seq<byte>)
      requires Valid()
      modifies bits
      ensures Valid()
      ensures bits[..] == SetIndices(old(bits[..]), Hashes(item))
      ensures forall j | 0 <= j < m :: Bits()[j] == (old(Bits())[j] || j in Hashes(item))
      ensures MightContain(item)
      ensures forall y :: old(MightContain(y)) ==> MightContain(y)
    {
      var idx := Hashes(item);
      for i := 0 to |idx|
        invariant bits[..] == SetIndices(old(bits[..]), idx[..i])
      {
        var t := idx[i];
        assert t in idx;
        assert idx[..i + 1] == idx[..i] + [t];
        bits[t / 8] := bits[t / 8] | Mask(t % 8);
      }
      assert idx[..|idx|] == idx;
      SetIndicesKeepsPadding(old(bits[..]), m, idx);
      SetIndicesView(old(bits[..]), m, idx);
      forall y | old(MightContain(y))
        ensures MightContain(y)
      {
        SetIndicesMonotone(old(bits[..]), idx, Hashes(y));
      }
    }

    /**
      `check_in_and_sign`: an item already reported present is refused
      (`false`, buffer unchanged); any other item is added and accepted
      (`true`). Either way the item is present afterwards, so an immediately
      repeated call is refused.
     */
    method CheckInAndSign(item: seq<byte>) returns (signed: bool)
      requires Valid()
      modifies bits
      ensures Valid()
      ensures signed == !old(MightContain(item))
      ensures !signed ==> bits[..] == old(bits[..])
      ensures signed ==> bits[..] == SetIndices(old(bits[..]), Hashes(item))
      ensures (signed, bits[..]) == CheckIn(old(bits[..]), Hashes(item))
      ensures MightContain(item)
      ensures forall y :: old(MightContain(y)) ==> MightContain(y)
    {
      if MightContain(item) {
        return false;
      }
      Add(item);
      return true;
    }
  }

  /** `check_in_and_sign` on a buffer value: the verdict and the buffer afterwards. */
  function CheckIn(buf: seq<byte>, idxs: seq<nat>): (out: (bool, seq<byte>))
    requires InRange(|buf|, idxs)
    ensures |out.1| == |buf|
    ensures AllIndicesSet(out.1, idxs)
    ensures out.0 == !AllIndicesSet(buf, idxs)
    ensures out.0 ==> out.1 == SetIndices(buf, idxs)
    ensures !out.0 ==> out.1 == buf
  {
    if AllIndicesSet(buf, idxs) then (false, buf) else (true, SetIndices(buf, idxs))
  }

  /** Whether every batch of positions addresses bits of a buffer of `len` bytes. */
  predicate AllInRange(len: nat, batches: seq<seq<nat>>)
  {
    forall b | b in batches :: InRange(len, b)
  }

  /** The verdicts of a sequence of check-ins, one batch of positions per item, starting from `buf`. */
  function CheckInAll(buf: seq<byte>, batches: seq<seq<nat>>): (verdicts: seq<bool>)
    requires AllInRange(|buf|, batches)
    ensures |verdicts| == |batches|
    decreases |batches|
  {
    if batches == [] then []
    else
      var first := CheckIn(buf, batches[0]);
      assert forall b | b in batches[1..] :: b in batches;
      [first.0] + CheckInAll(first.1, batches[1..])
  }

  /** Once an item's positions are all 1, every later check-in of it is refused. */
  lemma {:induction false} RefusedWhilePresent(buf: seq<byte>, batches: seq<seq<nat>>, x: seq<nat>, j: nat)
    requires AllInRange(|buf|, batches) && InRange(|buf|, x)
    requires AllIndicesSet(buf, x)
    requires j < |batches| && batches[j] == x
    ensures !CheckInAll(buf, batches)[j]
    decreases |batches|
  {
    var first := CheckIn(buf, batches[0]);
    if j > 0 {
      assert forall b | b in batches[1..] :: b in batches;
      if first.0 {
        SetIndicesMonotone(buf, batches[0], x);
      }
      RefusedWhilePresent(first.1, batches[1..], x, j - 1);
    }
  }

  /**
    A first-time check-in succeeds at most once: in any sequence of check-ins,
    an item whose positions were checked in at step `i` is refused at every
    later step `j` that checks in the same positions.
   */
  lemma {:induction false} CheckInAtMostOnce(buf: seq<byte>, batches: seq<seq<nat>>, i: nat, j: nat)
    requires AllInRange(|buf|, batches)
    requires i < j < |batches| && batches[i] == batches[j]
    ensures !CheckInAll(buf, batches)[j]
    decreases i
  {
    var first := CheckIn(buf, batches[0]);
    assert forall b | b in batches[1..] :: b in batches;
    if i == 0 {
      assert batches[0] in batches;
      RefusedWhilePresent(first.1, batches[1..], batches[0], j - 1);
    } else {
      CheckInAtMostOnce(first.1, batches[1..], i - 1, j - 1);
    }
  }

  /**
    The usage scenario of a filter sized for 100 items at a 1% rate (the sizing
    formulas give 959 bits and 7 rounds): checking in u1, u2, u1, u3, u2 accepts
    the first u1 and refuses both repeats, whatever the digest function.
    (u2 and u3 may be refused as false positives, so nothing is promised of them.)
   */
  method Scenario(digest: seq<byte> -> Digest) returns (r1: bool, r2: bool, r3: bool, r4: bool, r5: bool)
    ensures r1 && !r3 && !r5
  {
    var u1: seq<byte> := [0x75, 0x31];
    var u2: seq<byte> := [0x75, 0x32];
    var u3: seq<byte> := [0x75, 0x33];
    var created := BloomFilter.Create(100, 0.01, 959, 7, digest);
    if created.Failure? {
      assert false;
      return;
    }
    var f := created.value;
    r1 := f.CheckInAndSign(u1);
    r2 := f.CheckInAndSign(u2);
    r3 := f.CheckInAndSign(u1);
    r4 := f.CheckInAndSign(u3);
    r5 := f.CheckInAndSign(u2);
  }
}
