# Bloom filter: a verified model

This project models the `BloomFilter` class of `Bloom_Filter.py`. It is an
add-only set-membership structure. It can report an item as present that was
never added (a false positive), but never the reverse. It has four parts:

- a byte buffer of `(m + 7) // 8` bytes, where bit `idx` lives in byte
  `idx // 8` at offset `idx % 8`;
- `k` bit positions per item, made by double hashing. A 256-bit digest is split
  into two big-endian 128-bit halves `h1` and `h2`, `h2` is replaced by 1 when
  it is 0, and round `i` gives `(h1 + i * h2) % m`;
- `add`, which sets those positions, and `might_contain`, which tests them;
- `check_in_and_sign`, which refuses an item already present and adds any
  other item.

Files:

- `bit_buffer.dfy` (module `BitBuffer`): the buffer as pure functions on
  `seq<byte>`. It covers setting and testing bits, the abstract view (one `bool`
  per position) and the lemmas about monotonicity, idempotence and no false
  negatives.
- `double_hashing.dfy` (module `DoubleHashing`): big-endian decoding, the two
  base hashes and the index sequence.
- `bloom_filter.dfy` (module `Bloom`): the class `BloomFilter`. Its buffer is an
  `array<byte>` that `Add` updates in place. `MightContain` is a function that
  only reads the buffer. The module also holds `CheckIn` and `CheckInAll`, the
  pure counterparts of `check_in_and_sign`, used for statements about whole
  sequences of calls.

The digest function is a constructor parameter of the filter: any total
function from item bytes to 32 bytes. Every property proved here holds
whatever that function is.

## Model

| member | source | states |
|---|---|---|
| `BitBuffer.ByteLength` | Bloom_Filter.py:16 | `(m + 7) // 8` is the least number of bytes with room for `m` bits: `m <= 8 * r < m + 8` |
| `BitBuffer.ByteIndexInBounds` | Bloom_Filter.py:39 | a position below `m` addresses a byte below `(m + 7) // 8`, so the byte access in `add` and `might_contain` is in bounds |
| `BitBuffer.Zeros` | Bloom_Filter.py:16 | the freshly allocated buffer has no bit set |
| `BitBuffer.Set` | Bloom_Filter.py:39 | or-ing `1 << (idx % 8)` into byte `idx // 8` turns bit `idx` on and leaves every other bit and every other byte as it was; each byte only gains 1-bits |
| `BitBuffer.SetIndices` | Bloom_Filter.py:38-39 | after the loop over the indices, a bit is 1 exactly when it was 1 before or is one of the indices; bytes that no index addresses are unchanged |
| `BitBuffer.SetIndicesMonotone` | Bloom_Filter.py:37-45 | adding never makes a query that held fail: bits only go from 0 to 1 |
| `BitBuffer.SetIndicesIdempotent` | Bloom_Filter.py:37-39 | adding the same positions twice leaves the buffer as adding them once |
| `BitBuffer.SetIndicesKeepsPadding` | Bloom_Filter.py:37-39 | setting positions below `m` never sets a padding bit of the last byte |
| `BitBuffer.SetIndicesView` | Bloom_Filter.py:37-39 | in the per-position view, adding turns on exactly the item's positions |
| `BitBuffer.ViewDeterminesBuffer` | Bloom_Filter.py:16 | a buffer of `(m + 7) // 8` bytes with clear padding is fully determined by its `m`-bit view |
| `BitBuffer.StaysSet` | Bloom_Filter.py:37-45 | positions that are all 1 stay all 1 through any later sequence of adds |
| `BitBuffer.NoFalseNegatives` | Bloom_Filter.py:37-45 | after adding `x`, every position of `x` is 1 after any later sequence of adds |
| `DoubleHashing.FromBigEndian` | Bloom_Filter.py:32-33 | `int.from_bytes(s, "big")` is below `256^len(s)`; a 16-byte half is below 2^128 |
| `DoubleHashing.FromBigEndianZero` | Bloom_Filter.py:33 | a half decodes to 0 exactly when all its bytes are 0, the case `or 1` replaces |
| `DoubleHashing.BaseHashes` | Bloom_Filter.py:31-33 | `h1` is the high 16 bytes big-endian; `h2` is the low 16 bytes, or 1 when they are all zero; hence `0 <= h1 < 2^128` and `1 <= h2 < 2^128` |
| `DoubleHashing.IndexSequence` | Bloom_Filter.py:34-35 | exactly `k` positions, each below `m`, each in a byte below `(m + 7) // 8` |
| `DoubleHashing.Indices` | Bloom_Filter.py:31-35 | an item's digest yields exactly `k >= 1` positions, all below `m` |
| `DoubleHashing.FirstTwoRoundsCoincide` | Bloom_Filter.py:33-35 | rounds 0 and 1 give the same position exactly when `h2 % m == 0`; a non-zero `h2` excludes the zero step but not every multiple of `m` |
| `Bloom.HashCount` | Bloom_Filter.py:22 | `max(1, raw)`: the round count is at least 1 and equals the formula's value when that is positive |
| `Bloom.BloomFilter.constructor` | Bloom_Filter.py:12-16 | stores `n`, `p`, `m`, `k` and allocates a fresh all-zero buffer of `(m + 7) // 8` bytes |
| `Bloom.BloomFilter.Create` | Bloom_Filter.py:10-16 | fails with `InvalidParameters` exactly when `expected_items <= 0` or the rate is outside `(0, 1)`; otherwise gives a valid filter with a zero buffer that reports no item present |
| `Bloom.BloomFilter.Hashes` | Bloom_Filter.py:24-35 | `_hashes` yields exactly `k` positions, all below `m` and addressing bytes inside the buffer |
| `Bloom.BloomFilter.MightContain` | Bloom_Filter.py:41-45 | true exactly when every one of the item's `k` positions is 1 in the view; only reads the buffer |
| `Bloom.BloomFilter.Add` | Bloom_Filter.py:37-39 | the new buffer is the old one with the item's positions set and nothing else changed; padding stays clear; the item is then present; every item present before stays present |
| `Bloom.BloomFilter.CheckInAndSign` | Bloom_Filter.py:47-51 | returns false with the buffer unchanged when the item was present; otherwise adds it and returns true; afterwards the item is present, so an immediately repeated call returns false |
| `Bloom.CheckIn` | Bloom_Filter.py:47-51 | on buffer values: the verdict is "not yet present", the buffer is unchanged on refusal and has the positions set on acceptance, and the positions are all 1 afterwards |
| `Bloom.RefusedWhilePresent` | Bloom_Filter.py:47-51 | once an item is present, every later check-in of it in a sequence of check-ins is refused |
| `Bloom.CheckInAtMostOnce` | Bloom_Filter.py:47-51 | in any sequence of check-ins, an item checked in at step `i` is refused at every later step `j` with the same positions: at most one call per item returns true |
| `Bloom.Scenario` | Bloom_Filter.py:72-73 | on a fresh filter, the sequence u1, u2, u1, u3, u2 accepts the first u1 and refuses both repeats, whatever the digest |

## Left out

- The sizing formulas `_optimal_bit_size` and `_optimal_hash_count` (Bloom_Filter.py:18-22) use floating-point `math.log` and `math.ceil`. The bit count `m` is therefore taken as a given positive integer; the formula gives at least 1 for valid parameters. The raw value of the hash-count formula is also taken as given, and only its `max(1, ...)` floor is modelled (`Bloom.HashCount`).
- SHA-256 (`hashlib.sha256`, Bloom_Filter.py:31) is a library call. It is modelled as a constructor parameter: an arbitrary total function from item bytes to a 32-byte digest.
- Item canonicalisation (Bloom_Filter.py:25-30) is left out. The UTF-8 encoding of `str`, the copy of `bytes`/`bytearray` and the `str(item)` fallback are dynamic-type conversions. Items are modelled directly as byte sequences, so the text/bytes equivalence of a text item and its UTF-8 bytes is not stated.
- The command-line block (Bloom_Filter.py:53-73) is left out because it is I/O: argv, the interactive prompt loop, printing, `KeyboardInterrupt` and `sys.exit`. `Bloom.Scenario` models only its use of `check_in_and_sign` over a list of identifiers.
- The false-positive rate is statistical, not a deterministic contract. Without pinning down the digest, nothing is proved about items that were never added, beyond a fresh filter reporting none present.
- Concurrency is left out: the source has none. Its check-then-set sequence is single-threaded, as is the model.
- Python's `ValueError` from `__init__` becomes the `Failure(InvalidParameters)` result of `Bloom.BloomFilter.Create`. The constructor itself requires valid parameters and is reached only through `Create`.
- The attributes `n`, `p`, `m`, `k` and `bits` are `const` fields, because nothing in the source reassigns them. Only the contents of the buffer change.
- Determinism of the index generation is not stated as a lemma. `Hashes` is a function of the item's bytes and of fields that never change, so equal items always give equal positions.
- Bloom.CheckInAtMostOnce: stated over the position batches of the items. Equal items have equal batches because `Hashes` is a function.
