/** The data codewords of js/qr.js (`encodeData`): byte mode for versions
    1 to 3 at level L, as sections 7.4.3 to 7.4.10 of ISO/IEC 18004:2015
    describe them, and the version choice of `renderQR`. The text arrives
    as its UTF-8 bytes. */
module QrEncode {
  import opened Common
  import opened Bits
  import opened QrSpecs

  /** A bit stream, one 0 or 1 per element, as the `bits` array holds it. */
  type BitStream = seq<nat>

  predicate IsBits(b: BitStream) {
    forall i :: 0 <= i < |b| ==> b[i] < 2
  }

  /** The bits of each byte in turn, eight per byte, most significant first. */
  function BytesBits(bytes: seq<Byte>): (r: BitStream)
    ensures |r| == 8 * |bytes|
    decreases |bytes|
  {
    if bytes == [] then [] else BytesBits(bytes[..|bytes| - 1]) + BitsOf(bytes[|bytes| - 1], 8)
  }

  /** `parseInt(bits.join(''), 2)`: the bits read as a binary numeral,
      most significant first. */
  function Value(b: BitStream): nat
    decreases |b|
  {
    if b == [] then 0 else 2 * Value(b[..|b| - 1]) + b[|b| - 1]
  }

  lemma {:induction false} ValueBound(b: BitStream)
    requires IsBits(b)
    ensures Value(b) < Pow2(|b|)
    decreases |b|
  {
    if b != [] {
      ValueBound(b[..|b| - 1]);
    }
  }

  lemma {:induction false} DivUnique(a: int, d: int, q: int, r: int)
    requires d > 0 && 0 <= r < d && a == d * q + r
    ensures a / d == q
  {
    var t := q - a / d;
    assert d * t == a % d - r;
  }

  /** Appending a bit doubles the value: bits above the lowest move up one. */
  lemma {:induction false} BitDouble(u: nat, x: nat, k: nat)
    requires x < 2
    ensures Bit(2 * u + x, k + 1) == Bit(u, k) && Bit(2 * u + x, 0) == x
  {
    var p := Pow2(k);
    assert Pow2(k + 1) == 2 * p;
    DoubleDiv(u, x, p);
    assert Pow2(0) == 1;
  }

  /** Dividing 2u + x by 2p is dividing u by p, for a bit x. */
  lemma {:induction false} DoubleDiv(u: nat, x: nat, p: nat)
    requires x < 2 && p >= 1
    ensures (2 * u + x) / (2 * p) == u / p
  {
    var q, r := u / p, u % p;
    assert (2 * p) * q == 2 * (p * q);
    DivUnique(2 * u + x, 2 * p, q, 2 * r + x);
  }

  lemma {:induction false} BitsOfDouble(u: nat, x: nat, n: nat)
    requires x < 2
    ensures BitsOf(2 * u + x, n + 1) == BitsOf(u, n) + [x]
    decreases n
  {
    if n == 0 {
      BitDouble(u, x, 0);
    } else {
      BitDouble(u, x, n - 1);
      BitsOfDouble(u, x, n - 1);
      calc {
        BitsOf(2 * u + x, n + 1);
        [Bit(u, n - 1)] + BitsOf(2 * u + x, n);
        [Bit(u, n - 1)] + (BitsOf(u, n - 1) + [x]);
        ([Bit(u, n - 1)] + BitsOf(u, n - 1)) + [x];
      }
    }
  }

  /** `pushBits` of a value read from bits gives back the bits. */
  lemma {:induction false} ValueBits(b: BitStream)
    requires IsBits(b)
    ensures BitsOf(Value(b), |b|) == b
    decreases |b|
  {
    if b != [] {
      var n := |b| - 1;
      ValueBits(b[..n]);
      BitsOfDouble(Value(b[..n]), b[n], n);
      assert b == b[..n] + [b[n]];
    }
  }

  /** Bit j of `BitsOf(v, n)` is bit n - 1 - j of v. */
  lemma {:induction false} BitsOfIndex(v: nat, n: nat, j: nat)
    requires j < n
    ensures BitsOf(v, n)[j] == Bit(v, n - 1 - j)
    decreases n
  {
    if j > 0 {
      BitsOfIndex(v, n - 1, j - 1);
    }
  }

  lemma {:induction false} BitsOfIsBits(v: nat, n: nat)
    ensures IsBits(BitsOf(v, n))
  {
    forall j | 0 <= j < n
      ensures BitsOf(v, n)[j] < 2
    {
      BitsOfIndex(v, n, j);
    }
  }

  /** The last bit `BitsOf` emits is the lowest one. */
  lemma {:induction false} BitsOfLow(v: nat, n: nat)
    ensures BitsOf(v, n + 1) == BitsOf(v / 2, n) + [v % 2]
  {
    BitsOfDouble(v / 2, v % 2, n);
  }

  /** Reading back the bits of a value that fits them gives the value. */
  lemma {:induction false} ValueOfBits(v: nat, n: nat)
    requires v < Pow2(n)
    ensures Value(BitsOf(v, n)) == v
    decreases n
  {
    if n > 0 {
      ValueOfBits(v / 2, n - 1);
      BitsOfLow(v, n - 1);
      var b := BitsOf(v, n);
      assert b[..n - 1] == BitsOf(v / 2, n - 1);
    }
  }

  lemma {:induction false} BytesBitsIsBits(bytes: seq<Byte>)
    ensures IsBits(BytesBits(bytes))
    decreases |bytes|
  {
    if bytes != [] {
      BytesBitsIsBits(bytes[..|bytes| - 1]);
      BitsOfIsBits(bytes[|bytes| - 1], 8);
    }
  }

  lemma {:induction false} AppendAssoc(x: BitStream, y: BitStream, z: BitStream)
    ensures (x + y) + z == x + (y + z)
  {
  }

  /** The stream of a sequence with one more byte. */
  lemma {:induction false} BytesBitsSnoc(front: seq<Byte>, x: Byte)
    ensures BytesBits(front + [x]) == BytesBits(front) + BitsOf(x, 8)
  {
    var bytes := front + [x];
    assert bytes[..|bytes| - 1] == front;
  }

  lemma {:induction false} BytesBitsAppend(a: seq<Byte>, b: seq<Byte>)
    ensures BytesBits(a + b) == BytesBits(a) + BytesBits(b)
    decreases |b|
  {
    if b == [] {
      assert a + b == a;
    } else {
      var n := |b| - 1;
      var last := BitsOf(b[n], 8);
      AppendSnoc(a, b);
      BytesBitsSnoc(a + b[..n], b[n]);
      BytesBitsAppend(a, b[..n]);
      AppendAssoc(BytesBits(a), BytesBits(b[..n]), last);
    }
  }

  lemma {:induction false} AppendSnoc<T>(a: seq<T>, b: seq<T>)
    requires b != []
    ensures a + b == (a + b[..|b| - 1]) + [b[|b| - 1]]
  {
  }

  lemma {:induction false} SplitAt<T>(s: seq<T>, i: nat)
    requires i <= |s|
    ensures s == s[..i] + s[i..]
  {
  }

  lemma {:induction false} TakeSnoc<T>(s: seq<T>, i: nat)
    requires i < |s|
    ensures s[..i + 1] == s[..i] + [s[i]]
  {
  }

  lemma {:induction false} TakeSlice<T>(s: seq<T>, n: nat, i: nat, j: nat)
    requires i <= j <= n <= |s|
    ensures s[..n][i..j] == s[i..j]
  {
  }

  /** `parseInt` of one group of eight bits. */
  function ByteOf(b: BitStream): (r: Byte)
    requires |b| == 8 && IsBits(b)
    ensures BitsOf(r, 8) == b
  {
    ValueBound(b);
    assert Pow2(8) == 256;
    ValueBits(b);
    Value(b)
  }

  /** The stream cut into groups of eight bits, each read as a byte. */
  function Pack(bits: BitStream): (r: seq<Byte>)
    requires |bits| % 8 == 0 && IsBits(bits)
    ensures |r| == |bits| / 8
    decreases |bits|
  {
    if bits == [] then [] else Pack(bits[..|bits| - 8]) + [ByteOf(bits[|bits| - 8..])]
  }

  lemma {:induction false} PrefixIsBits(bits: BitStream, n: nat)
    requires n <= |bits| && IsBits(bits)
    ensures IsBits(bits[..n]) && IsBits(bits[n..])
  {
  }

  lemma {:induction false} Eights(k: nat)
    ensures (8 * k) % 8 == 0 && (8 * k) / 8 == k
  {
  }

  /** Packing a byte-aligned stream loses no bit. */
  lemma {:induction false} BitsOfPack(bits: BitStream)
    requires |bits| % 8 == 0 && IsBits(bits)
    ensures BytesBits(Pack(bits)) == bits
    decreases |bits|
  {
    if bits != [] {
      var n := |bits| - 8;
      PrefixIsBits(bits, n);
      BitsOfPack(bits[..n]);
      BytesBitsSnoc(Pack(bits[..n]), ByteOf(bits[n..]));
      SplitAt(bits, n);
    }
  }

  lemma {:induction false} ByteOfBits(v: Byte)
    ensures IsBits(BitsOf(v, 8)) && ByteOf(BitsOf(v, 8)) == v
  {
    BitsOfIsBits(v, 8);
    assert Pow2(8) == 256;
    ValueOfBits(v, 8);
  }

  /** Reading the stream of a byte sequence gives back the bytes. */
  lemma {:induction false} PackBytes(bytes: seq<Byte>)
    ensures |BytesBits(bytes)| % 8 == 0 && IsBits(BytesBits(bytes))
    ensures Pack(BytesBits(bytes)) == bytes
    decreases |bytes|
  {
    if bytes != [] {
      var front, last := bytes[..|bytes| - 1], bytes[|bytes| - 1];
      assert bytes == front + [last] by {
        AppendSnoc([], bytes);
      }
      PackBytes(front);
      PackBytesSnoc(front, last);
    }
  }

  lemma {:induction false} PackBytesSnoc(front: seq<Byte>, last: Byte)
    requires |BytesBits(front)| % 8 == 0 && IsBits(BytesBits(front))
    requires Pack(BytesBits(front)) == front
    ensures |BytesBits(front + [last])| % 8 == 0 && IsBits(BytesBits(front + [last]))
    ensures Pack(BytesBits(front + [last])) == front + [last]
  {
    BytesBitsSnoc(front, last);
    BytesBitsIsBits(front + [last]);
    ByteOfBits(last);
    PackAppend(BytesBits(front), BitsOf(last, 8));
  }

  /** Packing a stream with one more group of eight bits. */
  lemma {:induction false} PackAppend(head: BitStream, tail: BitStream)
    requires |head| % 8 == 0 && IsBits(head) && |tail| == 8 && IsBits(tail)
    ensures |head + tail| % 8 == 0 && IsBits(head + tail)
    ensures Pack(head + tail) == Pack(head) + [ByteOf(tail)]
  {
    var bits := head + tail;
    assert bits[..|bits| - 8] == head && bits[|bits| - 8..] == tail;
  }

  function Zeros(k: nat): (r: BitStream)
    ensures |r| == k
  {
    seq(k, _ => 0)
  }

  lemma {:induction false} BitsOfZero(k: nat)
    ensures BitsOf(0, k) == Zeros(k)
  {
    forall j | 0 <= j < k
      ensures BitsOf(0, k)[j] == 0
    {
      BitsOfIndex(0, k, j);
    }
  }

  /** The byte-mode indicator 0100. */
  const ModeIndicator: BitStream := [0, 1, 0, 0]

  lemma {:induction false} ModeIndicatorBits()
    ensures BitsOf(4, 4) == ModeIndicator && Value(ModeIndicator) == 4
  {
    assert Pow2(4) == 16;
    ValueOfBits(4, 4);
  }

  lemma {:induction false} IsBitsAppend(x: BitStream, y: BitStream)
    requires IsBits(x) && IsBits(y)
    ensures IsBits(x + y)
  {
  }

  /** The mode indicator 0100, the count byte and the payload bytes. */
  function Header(bytes: seq<Byte>): (r: BitStream)
    ensures |r| == 12 + 8 * |bytes|
  {
    ModeIndicator + BitsOf(|bytes|, 8) + BytesBits(bytes)
  }

  /** The terminator of at most four zero bits that the capacity still
      allows, then the zeros up to the next byte boundary. */
  function Terminate(bits: BitStream, capacity: int): BitStream {
    var remaining := capacity - |bits|;
    var terminated := if remaining > 0 then bits + Zeros(Min(4, remaining)) else bits;
    terminated + Zeros((8 - |terminated| % 8) % 8)
  }

  /** The stream before it is cut into bytes. */
  function Stream(bytes: seq<Byte>, dataCodewords: nat): BitStream {
    Terminate(Header(bytes), 8 * dataCodewords)
  }

  /** The pad codewords 0xEC and 0x11 in turn. */
  function PadBytes(k: nat): (r: seq<Byte>)
    ensures |r| == k
    ensures forall i :: 0 <= i < k ==> r[i] == (if i % 2 == 0 then 0xEC else 0x11)
  {
    seq(k, i => if i % 2 == 0 then 0xEC else 0x11)
  }

  /** How many pad codewords the capacity still takes. */
  function PadCount(used: nat, dataCodewords: nat): nat {
    if used < dataCodewords then dataCodewords - used else 0
  }

  /** Pad codewords up to the capacity; nothing when the data already fills it. */
  function Padded(data: seq<Byte>, dataCodewords: nat): (r: seq<Byte>)
    ensures |r| == if |data| < dataCodewords then dataCodewords else |data|
  {
    data + PadBytes(PadCount(|data|, dataCodewords))
  }

  lemma {:induction false} AppendNothing(s: BitStream)
    ensures s + Zeros(0) == s
  {
  }

  /** A stream four bits past a byte boundary always gets four zero bits:
      either the terminator supplies them or the byte alignment does. */
  lemma {:induction false} TerminateFour(bits: BitStream, capacity: int)
    requires |bits| % 8 == 4 && capacity % 8 == 0
    ensures Terminate(bits, capacity) == bits + Zeros(4)
  {
    var remaining := capacity - |bits|;
    FourPastBoundary(capacity, |bits|);
    if remaining > 0 {
      assert Min(4, remaining) == 4;
      var terminated := bits + Zeros(4);
      assert |terminated| % 8 == 0;
      AppendNothing(terminated);
    } else {
      assert (8 - |bits| % 8) % 8 == 4;
    }
  }

  lemma {:induction false} FourPastBoundary(a: int, b: int)
    requires a % 8 == 0 && b % 8 == 4
    ensures (a - b) % 8 == 4 && (b + 4) % 8 == 0
    ensures a - b > 0 ==> a - b >= 4
  {
    var p, q := a / 8, b / 8;
    assert a - b == 8 * (p - q - 1) + 4;
    DivUnique(a - b, 8, p - q - 1, 4);
  }

  lemma {:induction false} StreamIsHeaderAndZeros(bytes: seq<Byte>, dataCodewords: nat)
    ensures Stream(bytes, dataCodewords) == Header(bytes) + Zeros(4)
  {
    Eights(|bytes| + 1);
    Eights(dataCodewords);
    assert (12 + 8 * |bytes|) % 8 == 4;
    TerminateFour(Header(bytes), 8 * dataCodewords);
  }

  lemma {:induction false} SliceIsBits(bits: BitStream, i: nat, j: nat)
    requires i <= j <= |bits| && IsBits(bits)
    ensures IsBits(bits[i..j])
  {
  }

  lemma {:induction false} HeaderIsBits(bytes: seq<Byte>)
    ensures IsBits(Header(bytes) + Zeros(4))
  {
    BitsOfIsBits(|bytes|, 8);
    BytesBitsIsBits(bytes);
    IsBitsAppend(ModeIndicator, BitsOf(|bytes|, 8));
    IsBitsAppend(ModeIndicator + BitsOf(|bytes|, 8), BytesBits(bytes));
    IsBitsAppend(Header(bytes), Zeros(4));
  }

  /** The stream is whole bytes, n + 2 of them. */
  lemma {:induction false} StreamReady(bytes: seq<Byte>, dataCodewords: nat)
    ensures IsBits(Stream(bytes, dataCodewords))
    ensures |Stream(bytes, dataCodewords)| == 8 * (|bytes| + 2)
    ensures |Stream(bytes, dataCodewords)| % 8 == 0 && |Stream(bytes, dataCodewords)| / 8 == |bytes| + 2
  {
    StreamIsHeaderAndZeros(bytes, dataCodewords);
    HeaderIsBits(bytes);
    Eights(|bytes| + 2);
  }

  datatype EncodeError = UnsupportedVersion | PayloadTooLong

  datatype Encoding = Encoded(data: seq<Byte>) | Failed(error: EncodeError)

  /** The data codewords for a payload that the capacity check let through. */
  function Codewords(bytes: seq<Byte>, dataCodewords: nat): (r: seq<Byte>)
    ensures |r| == if |bytes| + 2 < dataCodewords then dataCodewords else |bytes| + 2
  {
    StreamReady(bytes, dataCodewords);
    Padded(Pack(Stream(bytes, dataCodewords)), dataCodewords)
  }

  /** `encodeData` as written: an unsupported version and a payload longer
      than the data capacity throw; anything else yields the codewords. */
  function EncodeSpec(bytes: seq<Byte>, version: int): (r: Encoding)
    ensures r == Failed(UnsupportedVersion) <==> !Supported(version)
    ensures r == Failed(PayloadTooLong) <==> Supported(version) && |bytes| > SpecOf(version).value.dataCodewords
    ensures r.Encoded? ==> |r.data| == if |bytes| + 2 < SpecOf(version).value.dataCodewords
                                       then SpecOf(version).value.dataCodewords else |bytes| + 2
  {
    match SpecOf(version)
    case None => Failed(UnsupportedVersion)
    case Some(spec) =>
      if |bytes| > spec.dataCodewords then Failed(PayloadTooLong)
      else Encoded(Codewords(bytes, spec.dataCodewords))
  }

  /** A byte-mode segment as a reader takes it back out of the codewords. */
  datatype Segment = Segment(mode: nat, payload: seq<Byte>)

  /** The reader's side: the 4-bit mode indicator, the 8-bit count, then
      that many bytes; `None` when the stream is too short for them. */
  function DecodeBits(bits: BitStream): (r: Option<Segment>)
    requires IsBits(bits)
    ensures r.Some? ==> 12 + 8 * |r.value.payload| <= |bits|
  {
    if |bits| < 12 then None
    else
      var n := Value(bits[4..12]);
      if |bits| < 12 + 8 * n then None
      else
        SliceIsBits(bits, 12, 12 + 8 * n);
        Eights(n);
        Some(Segment(Value(bits[..4]), Pack(bits[12..12 + 8 * n])))
  }

  function Decode(data: seq<Byte>): (r: Option<Segment>)
    ensures r.Some? ==> 12 + 8 * |r.value.payload| <= 8 * |data|
  {
    BytesBitsIsBits(data);
    DecodeBits(BytesBits(data))
  }

  /** The bit stream of the codewords: the header, four zero bits and the
      pad codewords. */
  lemma {:induction false} CodewordsBits(bytes: seq<Byte>, dataCodewords: nat)
    ensures BytesBits(Codewords(bytes, dataCodewords))
         == Header(bytes) + (Zeros(4) + BytesBits(PadBytes(PadCount(|bytes| + 2, dataCodewords))))
  {
    var stream := Stream(bytes, dataCodewords);
    StreamReady(bytes, dataCodewords);
    StreamIsHeaderAndZeros(bytes, dataCodewords);
    var packed := Pack(stream);
    var pad := PadBytes(PadCount(|bytes| + 2, dataCodewords));
    BytesBitsAppend(packed, pad);
    BitsOfPack(stream);
    AppendAssoc(Header(bytes), Zeros(4), BytesBits(pad));
  }

  lemma {:induction false} Fields(bits: BitStream, a: BitStream, b: BitStream, c: BitStream, rest: BitStream)
    requires bits == a + b + c + rest
    ensures bits[..|a|] == a
    ensures bits[|a|..|a| + |b|] == b
    ensures bits[|a| + |b|..|a| + |b| + |c|] == c
  {
  }

  lemma {:induction false} DecodeHeader(bits: BitStream, bytes: seq<Byte>, rest: BitStream)
    requires |bytes| < 256 && IsBits(bits)
    requires bits == ModeIndicator + BitsOf(|bytes|, 8) + BytesBits(bytes) + rest
    ensures DecodeBits(bits) == Some(Segment(4, bytes))
  {
    var n := |bytes|;
    var count, payload := BitsOf(n, 8), BytesBits(bytes);
    Fields(bits, ModeIndicator, count, payload, rest);
    assert bits[..4] == ModeIndicator && bits[4..12] == count && bits[12..12 + 8 * n] == payload;
    ModeIndicatorBits();
    assert Pow2(8) == 256;
    ValueOfBits(n, 8);
    PackBytes(bytes);
    assert Pack(bits[12..12 + 8 * n]) == bytes;
  }

  lemma {:induction false} CodewordsDecode(bytes: seq<Byte>, dataCodewords: nat)
    requires |bytes| < 256
    ensures Decode(Codewords(bytes, dataCodewords)) == Some(Segment(4, bytes))
  {
    var data := Codewords(bytes, dataCodewords);
    var bits := BytesBits(data);
    BytesBitsIsBits(data);
    CodewordsBits(bytes, dataCodewords);
    var rest := Zeros(4) + BytesBits(PadBytes(PadCount(|bytes| + 2, dataCodewords)));
    DecodeHeader(bits, bytes, rest);
  }

  /** A reader gets back the mode indicator and exactly the payload from
      whatever `encodeData` returns. */
  lemma {:induction false} EncodeDecode(bytes: seq<Byte>, version: int)
    requires EncodeSpec(bytes, version).Encoded?
    ensures Decode(EncodeSpec(bytes, version).data) == Some(Segment(4, bytes))
  {
    var dc := SpecOf(version).value.dataCodewords;
    assert EncodeSpec(bytes, version).data == Codewords(bytes, dc);
    CodewordsDecode(bytes, dc);
  }

  lemma {:induction false} CodewordsLayout(bytes: seq<Byte>, dataCodewords: nat)
    requires |bytes| + 2 <= dataCodewords
    ensures |Codewords(bytes, dataCodewords)| == dataCodewords
    ensures Codewords(bytes, dataCodewords)[|bytes| + 2..] == PadBytes(dataCodewords - |bytes| - 2)
    ensures BytesBits(Codewords(bytes, dataCodewords)[..|bytes| + 2]) == Header(bytes) + Zeros(4)
  {
    var stream := Stream(bytes, dataCodewords);
    StreamReady(bytes, dataCodewords);
    StreamIsHeaderAndZeros(bytes, dataCodewords);
    var packed := Pack(stream);
    var pad := PadBytes(PadCount(|bytes| + 2, dataCodewords));
    var data := packed + pad;
    assert data[..|packed|] == packed && data[|packed|..] == pad;
    BitsOfPack(stream);
  }

  /** Up to two bytes short of the capacity, the codewords are exactly the
      capacity: the header and terminator in the first n + 2 codewords, then
      0xEC and 0x11 in turn. */
  lemma {:induction false} EncodeLayout(bytes: seq<Byte>, version: int)
    requires Supported(version) && |bytes| + 2 <= SpecOf(version).value.dataCodewords
    ensures EncodeSpec(bytes, version).Encoded?
    ensures |EncodeSpec(bytes, version).data| == SpecOf(version).value.dataCodewords
    ensures EncodeSpec(bytes, version).data[|bytes| + 2..] == PadBytes(SpecOf(version).value.dataCodewords - |bytes| - 2)
    ensures BytesBits(EncodeSpec(bytes, version).data[..|bytes| + 2]) == Header(bytes) + Zeros(4)
  {
    var dc := SpecOf(version).value.dataCodewords;
    assert EncodeSpec(bytes, version).data == Codewords(bytes, dc);
    CodewordsLayout(bytes, dc);
  }

  /** As written, one or two bytes short of the capacity passes the check
      but yields one or two codewords more than the symbol holds. */
  lemma {:induction false} EncodeOverflow(bytes: seq<Byte>, version: int)
    requires Supported(version)
    requires SpecOf(version).value.dataCodewords - 2 < |bytes| <= SpecOf(version).value.dataCodewords
    ensures EncodeSpec(bytes, version).Encoded?
    ensures |EncodeSpec(bytes, version).data| == |bytes| + 2 > SpecOf(version).value.dataCodewords
  {
  }

  /** Nineteen bytes at version 1: 21 data codewords where 19 fit. */
  lemma {:induction false} Version1Overflow()
    ensures |EncodeSpec(seq(19, _ => 0x41), 1).data| == 21
  {
    EncodeOverflow(seq(19, _ => 0x41), 1);
  }

  /** The capacity check with the two codewords of mode indicator, count and
      terminator taken into account. */
  function EncodeChecked(bytes: seq<Byte>, version: int): (r: Encoding)
    ensures r == Failed(UnsupportedVersion) <==> !Supported(version)
    ensures r == Failed(PayloadTooLong) <==> Supported(version) && |bytes| + 2 > SpecOf(version).value.dataCodewords
    ensures r.Encoded? ==> |r.data| == SpecOf(version).value.dataCodewords
  {
    if Supported(version) && |bytes| + 2 > SpecOf(version).value.dataCodewords then Failed(PayloadTooLong)
    else EncodeSpec(bytes, version)
  }

  /** Whatever the checked encoder accepts fills the symbol exactly and
      reads back as the payload. */
  lemma {:induction false} EncodeCheckedFits(bytes: seq<Byte>, version: int)
    requires EncodeChecked(bytes, version).Encoded?
    ensures EncodeChecked(bytes, version) == EncodeSpec(bytes, version)
    ensures |EncodeChecked(bytes, version).data| == SpecOf(version).value.dataCodewords
    ensures Decode(EncodeChecked(bytes, version).data) == Some(Segment(4, bytes))
  {
    EncodeDecode(bytes, version);
  }

  /** `renderQR` as written: version 1 if the bytes fit its 19 data
      codewords, else version 2 if they fit its 34, else version 3. */
  function ChooseVersionAsWritten(n: nat): (v: int)
    ensures Supported(v)
    ensures v < 3 ==> n <= SpecOf(v).value.dataCodewords
    ensures forall w :: Supported(w) && n <= SpecOf(w).value.dataCodewords ==> v <= w
  {
    if n <= SpecOf(1).value.dataCodewords then 1
    else if n <= SpecOf(2).value.dataCodewords then 2
    else 3
  }

  /** Eighteen bytes choose version 1, whose 19 data codewords cannot hold
      the 20 the encoder then returns. */
  lemma {:induction false} ChooseVersionOverflow()
    ensures ChooseVersionAsWritten(18) == 1
    ensures |EncodeSpec(seq(18, _ => 0x41), 1).data| == 20
  {
    EncodeOverflow(seq(18, _ => 0x41), 1);
  }

  /** As written, the chosen version's capacity check lets every payload of
      up to 55 bytes through, although the largest symbol holds only 53. */
  lemma {:induction false} ChooseVersionAsWrittenEncodes(bytes: seq<Byte>)
    ensures EncodeSpec(bytes, ChooseVersionAsWritten(|bytes|)).Encoded? <==> |bytes| <= 55
  {
  }

  /** The corrected choice: the smallest version whose data codewords hold
      the bytes and their two codewords of overhead, else 3. */
  function ChooseVersion(n: nat): (v: int)
    ensures Supported(v)
    ensures v < 3 ==> n + 2 <= SpecOf(v).value.dataCodewords
    ensures forall w :: Supported(w) && n + 2 <= SpecOf(w).value.dataCodewords ==> v <= w
  {
    if n + 2 <= SpecOf(1).value.dataCodewords then 1
    else if n + 2 <= SpecOf(2).value.dataCodewords then 2
    else 3
  }

  /** With the corrected choice, encoding fails exactly when the payload
      exceeds the 53 bytes version 3 holds, and otherwise fills the symbol. */
  lemma {:induction false} ChooseVersionFits(bytes: seq<Byte>)
    ensures EncodeChecked(bytes, ChooseVersion(|bytes|)).Encoded? <==> |bytes| <= 53
  {
  }

  /** The two choices differ exactly for 18, 19, 33 and 34 bytes, where the
      as-written choice is one version too small. */
  lemma {:induction false} ChooseVersionsDiffer(n: nat)
    ensures ChooseVersionAsWritten(n) != ChooseVersion(n) <==> n == 18 || n == 19 || n == 33 || n == 34
    ensures ChooseVersionAsWritten(n) != ChooseVersion(n) ==> ChooseVersion(n) == ChooseVersionAsWritten(n) + 1
  {
  }

  lemma {:induction false} ZerosSnoc(k: nat)
    ensures Zeros(k + 1) == Zeros(k) + [0]
  {
  }

  lemma {:induction false} PadBytesSnoc(k: nat)
    ensures PadBytes(k + 1) == PadBytes(k) + [if k % 2 == 0 then 0xEC else 0x11]
  {
  }

  lemma {:induction false} AppendAssocBytes(x: seq<Byte>, y: seq<Byte>, z: seq<Byte>)
    ensures (x + y) + z == x + (y + z)
  {
  }

  /** `pushBits(value, length)`: bits length - 1 down to 0 of value. */
  method PushBits(bits: BitStream, value: nat, length: nat) returns (out: BitStream)
    ensures out == bits + BitsOf(value, length)
  {
    ghost var all := BitsOf(value, length);
    out := bits;
    var i: int := length - 1;
    while i >= 0
      invariant -1 <= i < length
      invariant out == bits + all[..length - 1 - i]
      decreases i + 1
    {
      BitsOfIndex(value, length, length - 1 - i);
      TakeSnoc(all, length - 1 - i);
      AppendAssoc(bits, all[..length - 1 - i], [all[length - 1 - i]]);
      out := out + [Bit(value, i)];
      i := i - 1;
    }
    assert all[..length] == all;
  }

  /** `bytes.forEach(b => pushBits(b, 8))`. */
  method PushBytes(bits: BitStream, bytes: seq<Byte>) returns (out: BitStream)
    ensures out == bits + BytesBits(bytes)
  {
    out := bits;
    for k := 0 to |bytes|
      invariant out == bits + BytesBits(bytes[..k])
    {
      TakeSnoc(bytes, k);
      BytesBitsSnoc(bytes[..k], bytes[k]);
      AppendAssoc(bits, BytesBits(bytes[..k]), BitsOf(bytes[k], 8));
      out := PushBits(out, bytes[k], 8);
    }
    assert bytes[..|bytes|] == bytes;
  }

  /** Adding k zeros reaches a byte boundary exactly when k is the padding. */
  lemma {:induction false} AlignStep(n: nat, k: nat)
    requires k <= (8 - n % 8) % 8
    ensures ((n + k) % 8 == 0) == (k == (8 - n % 8) % 8)
  {
    var q, r := n / 8, n % 8;
    assert n + k == 8 * q + (r + k);
    if r + k < 8 {
      assert (n + k) % 8 == r + k;
    } else {
      assert (n + k) % 8 == 0;
    }
  }

  /** `while (bits.length % 8 !== 0) bits.push(0)`. */
  method AlignToByte(bits: BitStream) returns (out: BitStream)
    ensures out == bits + Zeros((8 - |bits| % 8) % 8)
  {
    var pad := (8 - |bits| % 8) % 8;
    out := bits;
    var k := 0;
    AlignStep(|bits|, k);
    assert bits + Zeros(0) == bits;
    while |out| % 8 != 0
      invariant k <= pad && out == bits + Zeros(k)
      invariant (|out| % 8 == 0) == (k == pad)
      decreases pad - k
    {
      ZerosSnoc(k);
      AppendAssoc(bits, Zeros(k), [0]);
      out := out + [0];
      k := k + 1;
      AlignStep(|bits|, k);
    }
  }

  /** The loop that reads each group of eight bits as one codeword. */
  method PackGroups(bits: BitStream) returns (data: seq<Byte>)
    requires |bits| % 8 == 0 && IsBits(bits)
    ensures data == Pack(bits)
  {
    data := [];
    var i := 0;
    while i < |bits|
      invariant i % 8 == 0 && i <= |bits|
      invariant IsBits(bits[..i]) && data == Pack(bits[..i])
      decreases |bits| - i
    {
      PackStep(bits, i, data);
      data := data + [ByteOf(bits[i..i + 8])];
      i := i + 8;
    }
    assert bits[..i] == bits;
  }

  /** One round of the packing loop keeps its invariant. */
  lemma {:induction false} PackStep(bits: BitStream, i: nat, data: seq<Byte>)
    requires |bits| % 8 == 0 && IsBits(bits) && i % 8 == 0 && i < |bits|
    requires IsBits(bits[..i]) && data == Pack(bits[..i])
    ensures i + 8 <= |bits| && (i + 8) % 8 == 0 && IsBits(bits[i..i + 8])
    ensures IsBits(bits[..i + 8]) && data + [ByteOf(bits[i..i + 8])] == Pack(bits[..i + 8])
  {
    NextGroup(i, |bits|);
    PackPrefix(bits, i);
  }

  /** The codewords of the first i + 8 bits: one more than of the first i. */
  lemma {:induction false} PackPrefix(bits: BitStream, i: nat)
    requires i % 8 == 0 && i + 8 <= |bits| && IsBits(bits)
    ensures IsBits(bits[..i]) && IsBits(bits[..i + 8]) && IsBits(bits[i..i + 8])
    ensures Pack(bits[..i + 8]) == Pack(bits[..i]) + [ByteOf(bits[i..i + 8])]
  {
    var group := bits[..i + 8];
    PrefixIsBits(bits, i + 8);
    assert group[..i] == bits[..i] && group[i..] == bits[i..i + 8];
    PackAppend(bits[..i], bits[i..i + 8]);
    assert bits[..i] + bits[i..i + 8] == group;
  }

  lemma {:induction false} NextGroup(i: nat, n: nat)
    requires i % 8 == 0 && n % 8 == 0 && i < n
    ensures i + 8 <= n && (i + 8) % 8 == 0
  {
  }

  /** The loop that appends 0xEC and 0x11 in turn up to the capacity. */
  method PadData(data: seq<Byte>, dataCodewords: nat) returns (out: seq<Byte>)
    ensures out == Padded(data, dataCodewords)
  {
    var padBytes: seq<Byte> := [0xEC, 0x11];
    var padIndex := 0;
    out := data;
    assert data + PadBytes(0) == data;
    while |out| < dataCodewords
      invariant out == data + PadBytes(padIndex)
      invariant |out| <= dataCodewords || padIndex == 0
      decreases dataCodewords - |out|
    {
      PadBytesSnoc(padIndex);
      AppendAssocBytes(data, PadBytes(padIndex), [padBytes[padIndex % |padBytes|]]);
      out := out + [padBytes[padIndex % |padBytes|]];
      padIndex := padIndex + 1;
    }
  }

  /** The bit stream `encodeData` builds: mode, count, payload, terminator
      and the zeros up to the byte boundary. */
  method BuildStream(bytes: seq<Byte>, maxBytes: nat) returns (bits: BitStream)
    ensures bits == Stream(bytes, maxBytes)
  {
    bits := PushHeader(bytes);
    bits := PushTerminator(bits, maxBytes * 8);
  }

  /** `pushBits(0b0100, 4)`, `pushBits(bytes.length, 8)` and the payload. */
  method PushHeader(bytes: seq<Byte>) returns (bits: BitStream)
    ensures bits == Header(bytes)
  {
    bits := PushBits([], 4, 4);
    ModeIndicatorBits();
    assert bits == ModeIndicator;
    bits := PushBits(bits, |bytes|, 8);
    bits := PushBytes(bits, bytes);
  }

  /** The terminator and the zeros up to the byte boundary. */
  method PushTerminator(header: BitStream, capacity: int) returns (bits: BitStream)
    ensures bits == Terminate(header, capacity)
  {
    bits := header;
    var remaining := capacity - |bits|;
    if remaining > 0 {
      bits := PushBits(bits, 0, Min(4, remaining));
      BitsOfZero(Min(4, remaining));
    }
    bits := AlignToByte(bits);
  }

  /** `encodeData` on the UTF-8 bytes of the text. */
  method EncodeData(bytes: seq<Byte>, version: int) returns (r: Encoding)
    ensures r == EncodeSpec(bytes, version)
  {
    var spec := SpecOf(version);
    if spec.None? {
      return Failed(UnsupportedVersion);
    }
    var maxBytes := spec.value.dataCodewords;
    if |bytes| > maxBytes {
      return Failed(PayloadTooLong);
    }
    var bits := BuildStream(bytes, maxBytes);
    StreamReady(bytes, maxBytes);
    var data := PackGroups(bits);
    data := PadData(data, maxBytes);
    return Encoded(data);
  }

  /** The encoder with the corrected capacity check. */
  method EncodeDataChecked(bytes: seq<Byte>, version: int) returns (r: Encoding)
    ensures r == EncodeChecked(bytes, version)
  {
    var spec := SpecOf(version);
    if spec.Some? && |bytes| + 2 > spec.value.dataCodewords {
      return Failed(PayloadTooLong);
    }
    r := EncodeData(bytes, version);
  }
}
