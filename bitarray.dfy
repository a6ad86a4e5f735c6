/**
 * Packed bit arrays (src/toggle/utils.rs).
 *
 * Bit `pos` of a bit array lives in byte `pos / 8`, at bit position
 * `pos % 8` counted from the least significant bit. The logical length
 * `len` is kept beside the byte buffer; reads are checked only against the
 * buffer, never against `len`.
 */
module BitArrays {

  /** An owned value of a bit array: its byte buffer and its logical length.
      Datatype equality compares both fields, as the derived equality does. */
  datatype Bits = Bits(bytes: seq<bv8>, len: nat)

  /** Number of bytes that hold `n` bits: the exact integer form of ceil(n / 8). */
  function ByteCount(n: nat): nat
  {
    (n + 7) / 8
  }

  /** The mask that selects bit position `k` of a byte. */
  function Mask(k: nat): bv8
    requires k < 8
  {
    if k == 0 then 0x01 else if k == 1 then 0x02 else if k == 2 then 0x04
    else if k == 3 then 0x08 else if k == 4 then 0x10 else if k == 5 then 0x20
    else if k == 6 then 0x40 else 0x80
  }

  predicate BitOfByte(b: bv8, k: nat)
    requires k < 8
  {
    b & Mask(k) != 0
  }

  /** Two to the power `k`. */
  function Pow2(k: nat): (p: nat)
    ensures p >= 1
  {
    if k == 0 then 1 else 2 * Pow2(k - 1)
  }

  /** The mask test reads binary digit `k` of the byte, counting from the
      least significant. */
  lemma BitOfByteIsDigit(b: bv8, k: nat)
    requires k < 8
    ensures BitOfByte(b, k) == ((b as int / Pow2(k)) % 2 == 1)
  {
    if k == 0 { Digit0(b); }
    else if k == 1 { Digit1(b); }
    else if k == 2 { Digit2(b); }
    else if k == 3 { Digit3(b); }
    else if k == 4 { Digit4(b); }
    else if k == 5 { Digit5(b); }
    else if k == 6 { Digit6(b); }
    else { Digit7(b); }
  }

  // Digit k of a byte, one mask at a time.
  lemma Digit0(b: bv8)
    ensures BitOfByte(b, 0) == ((b as int / Pow2(0)) % 2 == 1)
  {
    assert b & Mask(0) == b & 0x01;
  }

  lemma Digit1(b: bv8)
    ensures BitOfByte(b, 1) == ((b as int / Pow2(1)) % 2 == 1)
  {
    assert Pow2(1) == 2; assert b & Mask(1) == b & 0x02;
  }

  lemma Digit2(b: bv8)
    ensures BitOfByte(b, 2) == ((b as int / Pow2(2)) % 2 == 1)
  {
    assert Pow2(2) == 4; assert b & Mask(2) == b & 0x04;
  }

  lemma Digit3(b: bv8)
    ensures BitOfByte(b, 3) == ((b as int / Pow2(3)) % 2 == 1)
  {
    assert Pow2(3) == 8; assert b & Mask(3) == b & 0x08;
  }

  lemma Digit4(b: bv8)
    ensures BitOfByte(b, 4) == ((b as int / Pow2(4)) % 2 == 1)
  {
    assert Pow2(4) == 16; assert b & Mask(4) == b & 0x10;
  }

  lemma Digit5(b: bv8)
    ensures BitOfByte(b, 5) == ((b as int / Pow2(5)) % 2 == 1)
  {
    assert Pow2(5) == 32; assert b & Mask(5) == b & 0x20;
  }

  lemma Digit6(b: bv8)
    ensures BitOfByte(b, 6) == ((b as int / Pow2(6)) % 2 == 1)
  {
    assert Pow2(6) == 64; assert b & Mask(6) == b & 0x40;
  }

  lemma Digit7(b: bv8)
    ensures BitOfByte(b, 7) == ((b as int / Pow2(7)) % 2 == 1)
  {
    assert Pow2(7) == 128; assert b & Mask(7) == b & 0x80;
  }

  /** Bit `pos` of `v`; it exists whenever its byte does. */
  function BitAt(v: Bits, pos: nat): bool
    requires pos / 8 < |v.bytes|
  {
    BitOfByte(v.bytes[pos / 8], pos % 8)
  }

  /** The deduplication key of a bit array: its bytes and nothing else
      (the source encodes exactly these bytes in base64). */
  function Key(v: Bits): seq<bv8>
  {
    v.bytes
  }

  /** The byte whose bits 0 to 7 are `b0` to `b7`. */
  function Byte8(b0: bool, b1: bool, b2: bool, b3: bool, b4: bool, b5: bool, b6: bool, b7: bool): bv8
  {
    (if b0 then 0x01 else 0) | (if b1 then 0x02 else 0) | (if b2 then 0x04 else 0) | (if b3 then 0x08 else 0) |
    (if b4 then 0x10 else 0) | (if b5 then 0x20 else 0) | (if b6 then 0x40 else 0) | (if b7 then 0x80 else 0)
  }

  /** The byte whose bit `k` is `c[k]`. */
  function ByteOf(c: seq<bool>): bv8
    requires |c| == 8
  {
    Byte8(c[0], c[1], c[2], c[3], c[4], c[5], c[6], c[7])
  }

  /** The bits of byte `j` of the packed form of `bits`; bits past the end are clear. */
  function Chunk(bits: seq<bool>, j: nat): (c: seq<bool>)
    ensures |c| == 8
  {
    seq(8, k requires 0 <= k < 8 => 8 * j + k < |bits| && bits[8 * j + k])
  }

  /** The canonical packed form of a boolean sequence: `ByteCount(|bits|)`
      bytes, padding bits clear, length `|bits|`. */
  function Pack(bits: seq<bool>): (v: Bits)
    ensures v.len == |bits| && |v.bytes| == ByteCount(|bits|)
  {
    Bits(seq(ByteCount(|bits|), j requires 0 <= j => ByteOf(Chunk(bits, j))), |bits|)
  }

  /** The boolean sequence held by the first `n` bits of `v`. */
  function Unpack(v: Bits, n: nat): (s: seq<bool>)
    requires n <= 8 * |v.bytes|
    ensures |s| == n
    ensures forall i :: 0 <= i < n ==> s[i] == BitAt(v, i)
  {
    seq(n, i requires 0 <= i < n => BitAt(v, i))
  }

  /** Each bit of `Byte8` is the flag given for it. */
  lemma Byte8Bits(b0: bool, b1: bool, b2: bool, b3: bool, b4: bool, b5: bool, b6: bool, b7: bool)
    ensures var v := Byte8(b0, b1, b2, b3, b4, b5, b6, b7);
      (v & 0x01 != 0) == b0 && (v & 0x02 != 0) == b1 && (v & 0x04 != 0) == b2 && (v & 0x08 != 0) == b3 &&
      (v & 0x10 != 0) == b4 && (v & 0x20 != 0) == b5 && (v & 0x40 != 0) == b6 && (v & 0x80 != 0) == b7
  {
  }

  lemma ByteOfBit(c: seq<bool>, k: nat)
    requires |c| == 8 && k < 8
    ensures BitOfByte(ByteOf(c), k) == c[k]
  {
    Byte8Bits(c[0], c[1], c[2], c[3], c[4], c[5], c[6], c[7]);
  }

  /** A byte is determined by its eight bits. */
  lemma SameBitsSameByte(a: bv8, b: bv8)
    requires forall k: nat :: k < 8 ==> BitOfByte(a, k) == BitOfByte(b, k)
    ensures a == b
  {
    assert BitOfByte(a, 0) == BitOfByte(b, 0) && BitOfByte(a, 1) == BitOfByte(b, 1);
    assert BitOfByte(a, 2) == BitOfByte(b, 2) && BitOfByte(a, 3) == BitOfByte(b, 3);
    assert BitOfByte(a, 4) == BitOfByte(b, 4) && BitOfByte(a, 5) == BitOfByte(b, 5);
    assert BitOfByte(a, 6) == BitOfByte(b, 6) && BitOfByte(a, 7) == BitOfByte(b, 7);
    BitsDetermineByte(a, b);
  }


  /** Two bytes that agree on every mask bit are equal. */
  lemma BitsDetermineByte(a: bv8, b: bv8)
    requires (a & 0x01 != 0) == (b & 0x01 != 0) && (a & 0x02 != 0) == (b & 0x02 != 0)
    requires (a & 0x04 != 0) == (b & 0x04 != 0) && (a & 0x08 != 0) == (b & 0x08 != 0)
    requires (a & 0x10 != 0) == (b & 0x10 != 0) && (a & 0x20 != 0) == (b & 0x20 != 0)
    requires (a & 0x40 != 0) == (b & 0x40 != 0) && (a & 0x80 != 0) == (b & 0x80 != 0)
    ensures a == b
  {
  }

  /** Setting or clearing bit `k` of a byte changes bit `k` only. */
  lemma UpdateBit(b: bv8, k: nat, m: nat, on: bool)
    requires k < 8 && m < 8
    ensures BitOfByte(WithBit(b, k, on), m) == if m == k then on else BitOfByte(b, m)
  {
  }

  /** Reading the packed form gives back the sequence, and padding bits are clear. */
  lemma PackBitAt(bits: seq<bool>, pos: nat)
    requires pos / 8 < ByteCount(|bits|)
    ensures BitAt(Pack(bits), pos) == (pos < |bits| && bits[pos])
  {
    var j, k := pos / 8, pos % 8;
    assert 8 * j + k == pos;
    ByteOfBit(Chunk(bits, j), k);
  }

  /** Two buffers of the same size that agree on every bit are the same buffer,
      so they have the same key. */
  lemma {:induction false} KeyDeterminedByBits(a: Bits, b: Bits)
    requires |a.bytes| == |b.bytes|
    requires forall pos: nat :: pos / 8 < |a.bytes| ==> BitAt(a, pos) == BitAt(b, pos)
    ensures Key(a) == Key(b)
  {
    forall j | 0 <= j < |a.bytes|
      ensures a.bytes[j] == b.bytes[j]
    {
      forall k: nat | k < 8
        ensures BitOfByte(a.bytes[j], k) == BitOfByte(b.bytes[j], k)
      {
        var pos: nat := 8 * j + k;
        assert pos / 8 == j && pos % 8 == k;
        assert BitAt(a, pos) == BitAt(b, pos);
      }
      SameBitsSameByte(a.bytes[j], b.bytes[j]);
    }
  }

  /** A differing bit gives a differing key. */
  lemma KeySeparatesBits(a: Bits, b: Bits, pos: nat)
    requires pos / 8 < |a.bytes| && pos / 8 < |b.bytes|
    requires BitAt(a, pos) != BitAt(b, pos)
    ensures Key(a) != Key(b)
  {
  }

  /** A buffer of `ByteCount(len)` bytes whose padding bits are clear is the
      packed form of its first `len` bits. */
  lemma PackCanonical(v: Bits)
    requires |v.bytes| == ByteCount(v.len)
    requires forall pos: nat :: v.len <= pos && pos / 8 < |v.bytes| ==> !BitAt(v, pos)
    ensures Pack(Unpack(v, v.len)) == v
  {
    var bits := Unpack(v, v.len);
    var p := Pack(bits);
    forall pos: nat | pos / 8 < |v.bytes|
      ensures BitAt(p, pos) == BitAt(v, pos)
    {
      PackBitAt(bits, pos);
    }
    KeyDeterminedByBits(p, v);
  }

  /** Packing and then reading the first `|bits|` bits is the identity. */
  /** A bit array holds exactly `bits`, with clear padding, only when it is
      `Pack(bits)`. */
  lemma PackedAs(v: Bits, bits: seq<bool>)
    requires v.len == |bits| && |v.bytes| == ByteCount(|bits|)
    requires forall pos: nat :: pos / 8 < |v.bytes| ==> BitAt(v, pos) == (pos < |bits| && bits[pos])
    ensures v == Pack(bits)
  {
    PackCanonical(v);
    assert Unpack(v, v.len) == bits;
  }

  lemma UnpackPack(bits: seq<bool>)
    ensures |bits| <= 8 * |Pack(bits).bytes|
    ensures Unpack(Pack(bits), |bits|) == bits
  {
    var p := Pack(bits);
    forall i | 0 <= i < |bits|
      ensures BitAt(p, i) == bits[i]
    {
      PackBitAt(bits, i);
    }
  }

  /** The guard of the zero-padding loop in `resize` never holds. */
  lemma ResizeGuardNeverHolds(n: nat)
    ensures ByteCount(n) <= n
  {
  }

  /** The byte that `set` writes when it stores `on` at bit `k` of `b`:
      an or with the mask to set, an and with its complement to clear. */
  function WithBit(b: bv8, k: nat, on: bool): bv8
    requires k < 8
  {
    if on then b | Mask(k) else b & !Mask(k)
  }

  /** Writing bit `pos` leaves bit `q` of the buffer alone. */
  lemma WriteOtherBit(before: Bits, pos: nat, on: bool, after: Bits, q: nat)
    requires pos / 8 < |before.bytes| && q / 8 < |before.bytes| && q != pos
    requires after.bytes == before.bytes[pos / 8 := WithBit(before.bytes[pos / 8], pos % 8, on)]
    ensures BitAt(after, q) == BitAt(before, q)
  {
    if q / 8 == pos / 8 {
      assert q == 8 * (q / 8) + q % 8 && pos == 8 * (pos / 8) + pos % 8;
      UpdateBit(before.bytes[pos / 8], pos % 8, q % 8, on);
    }
  }

  /** The effect of writing one bit into a buffer, as `set` does. */
  lemma WriteBit(before: Bits, pos: nat, on: bool, after: Bits)
    requires pos / 8 < |before.bytes|
    requires after.bytes == before.bytes[pos / 8 := WithBit(before.bytes[pos / 8], pos % 8, on)]
    ensures BitAt(after, pos) == on
    ensures forall q: nat :: q / 8 < |after.bytes| && q != pos ==> BitAt(after, q) == BitAt(before, q)
  {
    UpdateBit(before.bytes[pos / 8], pos % 8, pos % 8, on);
    forall q: nat | q / 8 < |after.bytes| && q != pos
      ensures BitAt(after, q) == BitAt(before, q)
    {
      WriteOtherBit(before, pos, on, after, q);
    }
  }

  /** The mutable bit array of the source. */
  class BitArray {
    var bytes: seq<bv8>
    var len: nat

    /** The current value of the array. */
    function Value(): Bits
      reads this
    {
      Bits(bytes, len)
    }

    /** BitArray::new: `x` bits backed by `ByteCount(x)` zero bytes. */
    constructor (x: nat)
      ensures len == x && |bytes| == ByteCount(x)
      ensures forall j :: 0 <= j < |bytes| ==> bytes[j] == 0
      ensures forall pos: nat :: pos / 8 < |bytes| ==> !BitAt(Value(), pos)
    {
      var size := ByteCount(x);
      var buffer: seq<bv8> := [];
      for i := 0 to size
        invariant |buffer| == i
        invariant forall j :: 0 <= j < i ==> buffer[j] == 0
      {
        buffer := buffer + [0];
      }
      bytes := buffer;
      len := x;
    }

    /** BitArray::from: the given bytes, with a length of eight bits per byte. */
    constructor From(r: seq<bv8>)
      ensures bytes == r && len == 8 * |r|
    {
      bytes := r;
      len := |r| * 8;
    }

    /** BitArray::len: the length `new` or `resize` last set, which
        `resize` lets exceed the bits the bytes hold. */
    function Len(): (n: nat)
      reads this
      ensures n == Value().len
    {
      len
    }

    /** BitArray::get: binary digit `pos % 8` of byte `pos / 8`, least
        significant first; panics in the source when the byte does not
        exist, and never compares `pos` with the length. */
    function Get(pos: nat): (r: bool)
      reads this
      requires pos / 8 < |bytes|
      ensures r == ((bytes[pos / 8] as int / Pow2(pos % 8)) % 2 == 1)
    {
      BitOfByteIsDigit(bytes[pos / 8], pos % 8);
      BitAt(Value(), pos)
    }

    /** BitArray::set: writes one bit in place, leaving every other bit,
        the byte count and the length as they were. */
    method Set(pos: nat, isOn: bool)
      requires pos / 8 < |bytes|
      modifies this
      ensures len == old(len) && |bytes| == old(|bytes|)
      ensures BitAt(Value(), pos) == isOn
      ensures forall q: nat :: q / 8 < |bytes| && q != pos ==> BitAt(Value(), q) == BitAt(old(Value()), q)
    {
      var byteIndex := pos / 8;
      var bitPos := pos % 8;
      ghost var before := Value();
      bytes := bytes[byteIndex := WithBit(bytes[byteIndex], bitPos, isOn)];
      WriteBit(before, pos, isOn, Value());
    }

    /** BitArray::resize: only the length changes, because the guard of its
        zero-padding loop never holds (see ResizeGuardNeverHolds). */
    method Resize(newLength: nat)
      modifies this
      ensures len == newLength && bytes == old(bytes)
    {
      var size := ByteCount(newLength);
      if size > newLength {
        assert false;
      }
      len := newLength;
    }
  }
}
