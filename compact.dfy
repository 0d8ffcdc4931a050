/**
 * The byte-level codecs of compact-encoding that lib/messages.js is built from.
 *
 * compact-encoding itself is not part of this model; this module states, once, what
 * each of its primitives is assumed to do:
 *  - `uint` is a varint: one byte for a value up to 0xfc, otherwise a marker byte
 *    0xfd, 0xfe or 0xff followed by 2, 4 or 8 little-endian bytes;
 *  - `uint32` is 4 little-endian bytes holding the low 32 bits of its argument;
 *  - `fixed32` and `fixed64` are 32 and 64 raw bytes;
 *  - `buffer` is a `uint` length followed by that many bytes; a null buffer is
 *    written as length 0, and length 0 reads back as null.
 * Every decoder throws 'Out of bounds' when fewer bytes remain than it has to read.
 *
 * The compact-encoding state `{ start, end, buffer }` is threaded explicitly:
 * a `...Preencode` function gives how far `preencode` moves `state.end`, an
 * `...Encode` function gives the bytes `encode` writes at `state.start` (after
 * which `state.start` has moved by their length), and a `...Decode` function reads
 * at `start` in `buf` and returns the value with the new `state.start`.
 */
module Compact {
  import opened Wrappers

  /** A byte as the integer it holds (an element of a `Uint8Array`). */
  type Byte = b: int | 0 <= b < 256

  type Bytes = seq<Byte>

  const TWO_32: nat := 0x1_0000_0000
  const TWO_64: nat := 0x1_0000_0000_0000_0000

  /** The values a `uint` can carry (JavaScript numbers never exceed it). */
  type Uint = n: nat | n < 0x1_0000_0000_0000_0000

  type Bytes32 = s: Bytes | |s| == 32 witness Zeros(32)
  type Bytes64 = s: Bytes | |s| == 64 witness Zeros(64)

  /** Bytes whose length a `uint` can carry (every buffer JavaScript can hold). */
  type Blob = s: Bytes | |s| < 0x1_0000_0000_0000_0000

  /** A `buffer` field: `None` is null. */
  type Buffer = Option<Blob>

  /** The errors the decoders throw. */
  datatype CodecError =
    | OutOfBounds            // 'Out of bounds' (compact-encoding)
    | UnknownInviteVersion   // 'Unknown invite version' (Invite.decode)

  function Zeros(n: nat): (r: Bytes)
    ensures |r| == n && forall i :: 0 <= i < n ==> r[i] == 0
  {
    seq(n, _ => 0)
  }

  /** `s` is what `buf` holds from position `start` on. */
  predicate At(buf: Bytes, start: nat, s: Bytes) {
    start + |s| <= |buf| && buf[start..start + |s|] == s
  }

  lemma AtSplit(buf: Bytes, start: nat, a: Bytes, b: Bytes)
    requires At(buf, start, a + b)
    ensures At(buf, start, a) && At(buf, start + |a|, b)
  {
    var whole := buf[start..start + |a| + |b|];
    assert whole == a + b;
    assert buf[start..start + |a|] == whole[..|a|];
    assert buf[start + |a|..start + |a| + |b|] == whole[|a|..];
  }

  // ---------------------------------------------------------------------------
  // Little-endian integers

  function Pow256(k: nat): (r: nat)
    ensures r >= 1
  {
    if k == 0 then 1 else 256 * Pow256(k - 1)
  }

  /** The `width` low-order bytes of `n`, least significant first. */
  function LittleEndian(n: nat, width: nat): (r: Bytes)
    ensures |r| == width
  {
    if width == 0 then [] else [n % 256] + LittleEndian(n / 256, width - 1)
  }

  /** The number whose little-endian bytes are `s`. */
  function FromLittleEndian(s: Bytes): (n: nat)
    ensures n < Pow256(|s|)
  {
    if s == [] then 0 else s[0] + 256 * FromLittleEndian(s[1..])
  }

  lemma {:induction false} LittleEndianRoundTrip(n: nat, width: nat)
    requires n < Pow256(width)
    ensures FromLittleEndian(LittleEndian(n, width)) == n
  {
    if width > 0 {
      var high := n / 256;
      assert n == 256 * high + n % 256;
      assert high < Pow256(width - 1) by {
        assert Pow256(width) == 256 * Pow256(width - 1);
      }
      LittleEndianRoundTrip(high, width - 1);
      var s := LittleEndian(n, width);
      assert s[1..] == LittleEndian(high, width - 1);
    }
  }

  // ---------------------------------------------------------------------------
  // uint: the varint

  function UintPreencode(n: Uint): nat {
    if n <= 0xfc then 1 else if n <= 0xffff then 3 else if n <= 0xffff_ffff then 5 else 9
  }

  function UintEncode(n: Uint): (r: Bytes)
    ensures |r| == UintPreencode(n)
  {
    if n <= 0xfc then [n]
    else if n <= 0xffff then [0xfd] + LittleEndian(n, 2)
    else if n <= 0xffff_ffff then [0xfe] + LittleEndian(n, 4)
    else [0xff] + LittleEndian(n, 8)
  }

  function UintDecode(buf: Bytes, start: nat): (r: Result<(Uint, nat), CodecError>)
    ensures r.Success? ==> start < r.value.1 <= |buf|
    ensures r.Failure? ==> r.error == OutOfBounds
  {
    if start >= |buf| then Failure(OutOfBounds)
    else
      var marker := buf[start];
      if marker <= 0xfc then Success((marker, start + 1))
      else
        var width := if marker == 0xfd then 2 else if marker == 0xfe then 4 else 8;
        if |buf| - (start + 1) < width then Failure(OutOfBounds)
        else
          assert Pow256(8) == TWO_64;
          Success((FromLittleEndian(buf[start + 1..start + 1 + width]), start + 1 + width))
  }

  lemma UintRoundTrip(n: Uint, buf: Bytes, start: nat)
    requires At(buf, start, UintEncode(n))
    ensures UintDecode(buf, start) == Success((n, start + |UintEncode(n)|))
  {
    var e := UintEncode(n);
    if n <= 0xfc {
      assert buf[start] == e[0] == n;
    } else {
      var width := if n <= 0xffff then 2 else if n <= 0xffff_ffff then 4 else 8;
      assert Pow256(2) == 0x1_0000 && Pow256(4) == TWO_32 && Pow256(8) == TWO_64;
      var marker: Byte := if n <= 0xffff then 0xfd else if n <= 0xffff_ffff then 0xfe else 0xff;
      assert e == [marker] + LittleEndian(n, width);
      AtSplit(buf, start, [marker], LittleEndian(n, width));
      assert buf[start] == marker;
      LittleEndianRoundTrip(n, width);
    }
  }

  // ---------------------------------------------------------------------------
  // uint32

  function Uint32Encode(n: nat): (r: Bytes)
    ensures |r| == 4
    ensures FromLittleEndian(r) == n % TWO_32
  {
    assert Pow256(4) == TWO_32;
    LittleEndianRoundTrip(n % TWO_32, 4);
    LittleEndian(n % TWO_32, 4)
  }

  function Uint32Decode(buf: Bytes, start: nat): (r: Result<(nat, nat), CodecError>)
    ensures r.Success? ==> r.value.0 < TWO_32 && r.value.1 == start + 4 <= |buf|
    ensures r.Failure? <==> start + 4 > |buf|
  {
    if start + 4 > |buf| then Failure(OutOfBounds)
    else
      assert Pow256(4) == TWO_32;
      Success((FromLittleEndian(buf[start..start + 4]), start + 4))
  }

  /** A uint32 reads back as the low 32 bits of what was written. */
  lemma Uint32RoundTrip(n: nat, buf: Bytes, start: nat)
    requires At(buf, start, Uint32Encode(n))
    ensures Uint32Decode(buf, start) == Success((n % TWO_32, start + 4))
  {
    assert Pow256(4) == TWO_32;
    LittleEndianRoundTrip(n % TWO_32, 4);
  }

  // ---------------------------------------------------------------------------
  // fixed32 and fixed64 (written as they are)

  function FixedDecode(buf: Bytes, start: nat, width: nat): (r: Result<(Bytes, nat), CodecError>)
    ensures r.Success? ==> |r.value.0| == width && r.value.1 == start + width <= |buf|
    ensures r.Success? ==> At(buf, start, r.value.0)
    ensures r.Failure? <==> start + width > |buf|
  {
    if start + width > |buf| then Failure(OutOfBounds)
    else Success((buf[start..start + width], start + width))
  }

  function Fixed32Decode(buf: Bytes, start: nat): (r: Result<(Bytes32, nat), CodecError>)
    ensures r.Success? ==> r.value.1 == start + 32
  {
    var f :- FixedDecode(buf, start, 32);
    Success((f.0, f.1))
  }

  function Fixed64Decode(buf: Bytes, start: nat): (r: Result<(Bytes64, nat), CodecError>)
    ensures r.Success? ==> r.value.1 == start + 64
  {
    var f :- FixedDecode(buf, start, 64);
    Success((f.0, f.1))
  }

  lemma FixedRoundTrip(s: Bytes, buf: Bytes, start: nat)
    requires At(buf, start, s)
    ensures FixedDecode(buf, start, |s|) == Success((s, start + |s|))
  {
  }

  // ---------------------------------------------------------------------------
  // buffer

  function BufferPreencode(b: Buffer): nat {
    if b.Some? then UintPreencode(|b.value|) + |b.value| else 1
  }

  function BufferEncode(b: Buffer): (r: Bytes)
    ensures |r| == BufferPreencode(b)
    ensures b.None? ==> r == [0]
    ensures b.Some? ==> r[..UintPreencode(|b.value|)] == UintEncode(|b.value|)
                        && r[UintPreencode(|b.value|)..] == b.value
  {
    if b.Some? then UintEncode(|b.value|) + b.value else [0]
  }

  function BufferDecode(buf: Bytes, start: nat): (r: Result<(Buffer, nat), CodecError>)
    ensures r.Success? ==> start < r.value.1 <= |buf|
    ensures r.Success? && r.value.0.Some? ==> r.value.0.value != []
  {
    var lengthAt :- UintDecode(buf, start);
    var (length, next) := lengthAt;
    if length == 0 then Success((None, next))
    else if |buf| - next < length then Failure(OutOfBounds)
    else Success((Some(buf[next..next + length]), next + length))
  }

  /** What a buffer reads back as: an empty buffer comes back as null. */
  function NormalizeBuffer(b: Buffer): (r: Buffer)
    ensures r.None? <==> (b.None? || b.value == [])
    ensures r.Some? ==> r == b
  {
    if b == Some([]) then None else b
  }

  lemma BufferRoundTrip(b: Buffer, buf: Bytes, start: nat)
    requires At(buf, start, BufferEncode(b))
    ensures BufferDecode(buf, start) == Success((NormalizeBuffer(b), start + |BufferEncode(b)|))
  {
    if b.Some? {
      var length := |b.value|;
      AtSplit(buf, start, UintEncode(length), b.value);
      UintRoundTrip(length, buf, start);
      var next := start + |UintEncode(length)|;
      assert UintDecode(buf, start) == Success((length as Uint, next));
      assert buf[next..next + length] == b.value;
    } else {
      UintRoundTrip(0, buf, start);
      assert UintDecode(buf, start) == Success((0 as Uint, start + 1));
    }
  }

  /** A null buffer and an empty one are written alike. */
  lemma BufferEncodeNormalize(b: Buffer)
    ensures BufferEncode(NormalizeBuffer(b)) == BufferEncode(b)
  {
  }
}
