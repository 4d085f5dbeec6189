/**
  Byte-order primitives of the SAC codec: the bytes that `struct.pack` and
  `struct.unpack` produce and consume for the three header value kinds
  (libs/SacLib.py, `_fread` and `_fwrite`).

  A 32-bit float is treated as an opaque 32-bit word, so only its byte layout
  is modelled; a 32-bit integer is two's complement; a fixed-width string is
  exactly `width` raw bytes, one character per byte.
 */
module Wire {

  /** One byte of a file. */
  type Byte = b: int | 0 <= b < 256

  /** A 32-bit word: the bit pattern of a single-precision float, or of an int32. */
  type Word32 = w: int | 0 <= w < 0x1_0000_0000

  /** The two byte orders `_fread`/`_fwrite` accept ('le' and 'be'). */
  datatype ByteOrder = LE | BE

  const TWO_TO_31: int := 0x8000_0000
  const TWO_TO_32: int := 0x1_0000_0000

  /** The values a 4-byte two's-complement integer can hold. */
  predicate IsInt32(x: int) {
    -TWO_TO_31 <= x < TWO_TO_31
  }

  /** A string every character of which fits in one byte. */
  predicate IsByteString(s: string) {
    forall i :: 0 <= i < |s| ==> s[i] as int < 256
  }

  /** The unsigned value of four bytes, least significant first. */
  function LittleValue(b: seq<Byte>): (w: Word32)
    requires |b| == 4
  {
    b[0] as int + 0x100 * (b[1] as int + 0x100 * (b[2] as int + 0x100 * b[3] as int))
  }

  /** The bytes of a word in the given order ('<' or '>' in struct formats). */
  function EncodeWord(w: Word32, order: ByteOrder): (b: seq<Byte>)
    ensures |b| == 4
  {
    var q1 := w / 0x100;
    var q2 := q1 / 0x100;
    var b0, b1, b2, b3 := w % 0x100, q1 % 0x100, q2 % 0x100, q2 / 0x100;
    if order == LE then [b0, b1, b2, b3] else [b3, b2, b1, b0]
  }

  /** The word that four bytes in the given order stand for. */
  function DecodeWord(b: seq<Byte>, order: ByteOrder): (w: Word32)
    requires |b| == 4
    ensures w % 0x100 == (if order == LE then b[0] else b[3])
    ensures w / 0x100_0000 == (if order == LE then b[3] else b[0])
  {
    if order == LE then LittleValue(b) else LittleValue([b[3], b[2], b[1], b[0]])
  }

  function Reverse(s: seq<Byte>): (r: seq<Byte>)
    ensures |r| == |s|
    ensures forall i :: 0 <= i < |s| ==> r[i] == s[|s| - 1 - i]
  {
    if s == [] then [] else Reverse(s[1..]) + [s[0]]
  }

  /** Big-endian bytes are the little-endian bytes reversed. */
  lemma BigEndianIsReversed(w: Word32)
    ensures EncodeWord(w, BE) == Reverse(EncodeWord(w, LE))
  {
  }

  /** Decoding the bytes of a word gives the word back, in both byte orders. */
  lemma WordRoundTrip(w: Word32, order: ByteOrder)
    ensures DecodeWord(EncodeWord(w, order), order) == w
  {
    var b := EncodeWord(w, order);
    var q1 := w / 0x100;
    var q2 := q1 / 0x100;
    assert w == w % 0x100 + 0x100 * q1;
    assert q1 == q1 % 0x100 + 0x100 * q2;
    assert q2 == q2 % 0x100 + 0x100 * (q2 / 0x100);
    var r := if order == LE then b else [b[3], b[2], b[1], b[0]];
    assert r == [w % 0x100, q1 % 0x100, q2 % 0x100, q2 / 0x100];
  }

  /** Every 4-byte sequence is the encoding of exactly one word: decoding loses nothing. */
  lemma BytesRoundTrip(b: seq<Byte>, order: ByteOrder)
    requires |b| == 4
    ensures EncodeWord(DecodeWord(b, order), order) == b
  {
    var r := if order == LE then b else [b[3], b[2], b[1], b[0]];
    var w := LittleValue(r);
    var q1 := r[1] as int + 0x100 * (r[2] as int + 0x100 * r[3] as int);
    var q2 := r[2] as int + 0x100 * r[3] as int;
    assert w / 0x100 == q1 && w % 0x100 == r[0];
    assert q1 / 0x100 == q2 && q1 % 0x100 == r[1];
    assert q2 / 0x100 == r[3] && q2 % 0x100 == r[2];
    if order == BE {
      assert [r[3], r[2], r[1], r[0]] == b;
    }
  }

  /** The two's-complement bit pattern of an int32. */
  function ToUnsigned(x: int): (w: Word32)
    requires IsInt32(x)
  {
    if x < 0 then x + TWO_TO_32 else x
  }

  /** The int32 a bit pattern stands for. */
  function ToSigned(w: Word32): (x: int)
    ensures IsInt32(x)
  {
    if w < TWO_TO_31 then w else w - TWO_TO_32
  }

  lemma SignedUnsignedInverse(x: int, w: Word32)
    requires IsInt32(x)
    ensures ToSigned(ToUnsigned(x)) == x
    ensures ToUnsigned(ToSigned(w)) == w
  {
  }

  /** `pack('<i', x)` / `pack('>i', x)`. */
  function EncodeInt32(x: int, order: ByteOrder): (b: seq<Byte>)
    requires IsInt32(x)
    ensures |b| == 4
  {
    EncodeWord(ToUnsigned(x), order)
  }

  /** `unpack('<i', b)[0]` / `unpack('>i', b)[0]`. */
  function DecodeInt32(b: seq<Byte>, order: ByteOrder): (x: int)
    requires |b| == 4
    ensures IsInt32(x)
  {
    ToSigned(DecodeWord(b, order))
  }

  /** Int32 round trip: every int32, in each byte order, comes back from its 4 bytes. */
  lemma Int32RoundTrip(x: int, order: ByteOrder)
    requires IsInt32(x)
    ensures DecodeInt32(EncodeInt32(x, order), order) == x
  {
    WordRoundTrip(ToUnsigned(x), order);
  }

  /** `pack('<Ns', s)` for a string that is already N bytes long. */
  function EncodeText(s: string): (b: seq<Byte>)
    requires IsByteString(s)
    ensures |b| == |s|
    ensures forall i :: 0 <= i < |s| ==> b[i] == s[i] as int
  {
    seq(|s|, i requires 0 <= i < |s| => s[i] as int as Byte)
  }

  /** `unpack('<Ns', b)[0]`: the raw bytes as characters, nothing trimmed. */
  function DecodeText(b: seq<Byte>): (s: string)
    ensures |s| == |b| && IsByteString(s)
    ensures forall i :: 0 <= i < |b| ==> s[i] as int == b[i]
  {
    seq(|b|, i requires 0 <= i < |b| => b[i] as char)
  }

  lemma TextRoundTrip(s: string)
    requires IsByteString(s)
    ensures DecodeText(EncodeText(s)) == s
  {
    var t := DecodeText(EncodeText(s));
    assert forall i :: 0 <= i < |s| ==> t[i] == s[i];
  }

  /** Every byte sequence is the encoding of the text it decodes to. */
  lemma TextBytesRoundTrip(b: seq<Byte>)
    ensures EncodeText(DecodeText(b)) == b
  {
    var t := EncodeText(DecodeText(b));
    assert forall i :: 0 <= i < |b| ==> t[i] == b[i];
  }

  /**
    The `width` characters `pack('<Ns', s)` stores for a string of any
    length: the string cut to `width`, or padded with NUL characters.
   */
  function Fixed(s: string, width: nat): (t: string)
    ensures |t| == width
    ensures IsByteString(s) ==> IsByteString(t)
  {
    if |s| >= width then s[..width] else s + seq(width - |s|, _ => '\0')
  }

  /** Character `i` of the stored string is that of `s` where `s` has one, NUL past its end. */
  lemma FixedChars(s: string, width: nat, i: nat)
    requires i < width
    ensures Fixed(s, width)[i] == if i < |s| then s[i] else '\0'
  {
  }

  /** A string of exactly the width is stored as it is. */
  lemma FixedExact(s: string)
    ensures Fixed(s, |s|) == s
  {
  }

  /** `pack('<Ns', s)` for a string of any length. */
  function EncodeFixed(s: string, width: nat): (b: seq<Byte>)
    requires IsByteString(s)
    ensures |b| == width
  {
    EncodeText(Fixed(s, width))
  }

  /** Unpacking the bytes packed for a string gives the string cut or padded to the width. */
  lemma FixedRoundTrip(s: string, width: nat)
    requires IsByteString(s)
    ensures DecodeText(EncodeFixed(s, width)) == Fixed(s, width)
  {
    TextRoundTrip(Fixed(s, width));
  }

  /** Packing a string already cut or padded to the width emits the same bytes. */
  lemma FixedIdempotent(s: string, width: nat)
    requires IsByteString(s)
    ensures Fixed(Fixed(s, width), width) == Fixed(s, width)
    ensures EncodeFixed(Fixed(s, width), width) == EncodeFixed(s, width)
  {
    FixedExact(Fixed(s, width));
  }
}
