/**
  The SAC byte layout that `Sac.Read` consumes and `Sac.Write` produces
  (libs/SacLib.py:77-149, 189-212), as functions over byte sequences.

  A file is the header (every `_HdrStruc` entry in order, each taking its
  width), then NPTS 4-byte samples of the first block, then, when the header
  asks for it, NPTS samples of the second block. `Scan` is what a read of a
  byte sequence leaves behind, including the partial result of a read that
  stops at a short field or sample; `Encode` is what a write emits.
 */
module Codec {
  import opened Wire
  import opened Schema
  import opened Seqs

  // ---------------------------------------------------------------------------
  // One header value (`_fwrite` / `_fread`)

  /** The bytes `_fwrite` emits for value `v` of field `f`. */
  function EncodeValue(f: FieldDesc, v: Value, order: ByteOrder): (b: seq<Byte>)
    requires WellFormed(f) && Packs(f, v)
    ensures |b| == f.width
  {
    match f.kind
    case F32 => EncodeWord(v.word, order)
    case I32 => EncodeInt32(v.n, order)
    case Str => EncodeFixed(v.text, f.width)
  }

  /** The value `_fread` returns for the `f.width` bytes `b` of field `f`. */
  function DecodeValue(f: FieldDesc, b: seq<Byte>, order: ByteOrder): (v: Value)
    requires WellFormed(f) && |b| == f.width
    ensures Fits(f, v)
  {
    match f.kind
    case F32 => FloatVal(DecodeWord(b, order))
    case I32 => IntVal(DecodeInt32(b, order))
    case Str => StrVal(DecodeText(b))
  }

  /**
    Reading back what was written for a field gives the value that was
    written, a string cut or padded to the field's width; a value that
    already fits comes back unchanged.
   */
  lemma ValueRoundTrip(f: FieldDesc, v: Value, order: ByteOrder)
    requires WellFormed(f) && Packs(f, v)
    ensures DecodeValue(f, EncodeValue(f, v, order), order) == Normal(f, v)
    ensures Fits(f, v) ==> DecodeValue(f, EncodeValue(f, v, order), order) == v
  {
    match f.kind
    case F32 => WordRoundTrip(v.word, order);
    case I32 => Int32RoundTrip(v.n, order);
    case Str => FixedRoundTrip(v.text, f.width);
  }

  /** Writing a value and writing the value it reads back as emit the same bytes. */
  lemma NormalBytes(f: FieldDesc, v: Value, order: ByteOrder)
    requires WellFormed(f) && Packs(f, v)
    ensures EncodeValue(f, Normal(f, v), order) == EncodeValue(f, v, order)
  {
    if f.kind == Str {
      FixedIdempotent(v.text, f.width);
    }
  }

  /** Writing back a value that was read reproduces its bytes: decoding loses nothing. */
  lemma ValueBytesRoundTrip(f: FieldDesc, b: seq<Byte>, order: ByteOrder)
    requires WellFormed(f) && |b| == f.width
    ensures EncodeValue(f, DecodeValue(f, b, order), order) == b
  {
    match f.kind
    case F32 => BytesRoundTrip(b, order);
    case I32 =>
      BytesRoundTrip(b, order);
      SignedUnsignedInverse(0, DecodeWord(b, order));
    case Str =>
      FixedExact(DecodeText(b));
      TextBytesRoundTrip(b);
  }

  // ---------------------------------------------------------------------------
  // The header

  /** The bytes the header loop of `Write` emits for the first `k` fields. */
  function HeaderBytes(hdr: seq<FieldDesc>, head: map<string, Value>, order: ByteOrder, k: nat): (b: seq<Byte>)
    requires Usable(hdr) && Packable(hdr, head) && k <= |hdr|
    ensures |b| == Offset(hdr, k)
  {
    if k == 0 then []
    else
      OffsetStep(hdr, k - 1);
      HeaderBytes(hdr, head, order, k - 1) + EncodeValue(hdr[k - 1], head[hdr[k - 1].name], order)
  }

  /** The value the header loop of `Read` stores for field `k`: its bytes, decoded. */
  function ReadField(hdr: seq<FieldDesc>, s: seq<Byte>, order: ByteOrder, k: nat): (v: Value)
    requires Usable(hdr) && k < |hdr| && Offset(hdr, k + 1) <= |s|
    ensures Fits(hdr[k], v)
  {
    OffsetStep(hdr, k);
    DecodeValue(hdr[k], s[Offset(hdr, k)..Offset(hdr, k + 1)], order)
  }

  /** The header entries after the first `k` passes of the header loop of `Read`. */
  function DecodeHeader(hdr: seq<FieldDesc>, s: seq<Byte>, order: ByteOrder, k: nat): (head: map<string, Value>)
    requires Usable(hdr) && k <= |hdr| && Offset(hdr, k) <= |s|
  {
    if k == 0 then map[]
    else DecodeHeader(hdr, s, order, k - 1)[hdr[k - 1].name := ReadField(hdr, s, order, k - 1)]
  }

  /** The last of the first `k` fields is written at the end of their bytes. */
  lemma HeaderBytesLast(hdr: seq<FieldDesc>, head: map<string, Value>, order: ByteOrder, k: nat)
    requires Usable(hdr) && Packable(hdr, head) && 0 < k <= |hdr|
    ensures Offset(hdr, k - 1) <= Offset(hdr, k)
    ensures HeaderBytes(hdr, head, order, k)[Offset(hdr, k - 1)..Offset(hdr, k)]
         == EncodeValue(hdr[k - 1], head[hdr[k - 1].name], order)
  {
    OffsetStep(hdr, k - 1);
    var prev := HeaderBytes(hdr, head, order, k - 1);
    var enc := EncodeValue(hdr[k - 1], head[hdr[k - 1].name], order);
    assert HeaderBytes(hdr, head, order, k) == prev + enc;
    SliceOfSuffix(prev, enc);
  }

  /** Writing one more field leaves the bytes of the fields before it alone. */
  lemma HeaderBytesGrow(hdr: seq<FieldDesc>, head: map<string, Value>, order: ByteOrder, k: nat, lo: nat, hi: nat)
    requires Usable(hdr) && Packable(hdr, head) && 0 < k <= |hdr| && lo <= hi <= Offset(hdr, k - 1)
    ensures Offset(hdr, k - 1) <= Offset(hdr, k)
    ensures HeaderBytes(hdr, head, order, k)[lo..hi] == HeaderBytes(hdr, head, order, k - 1)[lo..hi]
  {
    OffsetStep(hdr, k - 1);
    var prev := HeaderBytes(hdr, head, order, k - 1);
    var enc := EncodeValue(hdr[k - 1], head[hdr[k - 1].name], order);
    assert HeaderBytes(hdr, head, order, k) == prev + enc;
    SliceOfPrefix(prev, enc, lo, hi);
  }

  /** Field `j` of the first `k` fields is written at its offset. */
  lemma {:induction false} HeaderBytesField(hdr: seq<FieldDesc>, head: map<string, Value>, order: ByteOrder, k: nat, j: nat)
    requires Usable(hdr) && Packable(hdr, head) && j < k <= |hdr|
    ensures Offset(hdr, j) <= Offset(hdr, j + 1) <= Offset(hdr, k)
    ensures HeaderBytes(hdr, head, order, k)[Offset(hdr, j)..Offset(hdr, j + 1)]
         == EncodeValue(hdr[j], head[hdr[j].name], order)
  {
    OffsetStep(hdr, j);
    OffsetMonotone(hdr, j + 1, k);
    if j < k - 1 {
      HeaderBytesField(hdr, head, order, k - 1, j);
      HeaderBytesGrow(hdr, head, order, k, Offset(hdr, j), Offset(hdr, j + 1));
    } else {
      HeaderBytesLast(hdr, head, order, k);
    }
  }

  /** After `k` passes, every field read so far holds its decoded bytes. */
  lemma {:induction false} DecodeHeaderField(hdr: seq<FieldDesc>, s: seq<Byte>, order: ByteOrder, k: nat, j: nat)
    requires Usable(hdr) && DistinctNames(hdr) && j < k <= |hdr| && Offset(hdr, k) <= |s|
    ensures Offset(hdr, j + 1) <= |s|
    ensures hdr[j].name in DecodeHeader(hdr, s, order, k)
    ensures DecodeHeader(hdr, s, order, k)[hdr[j].name] == ReadField(hdr, s, order, j)
  {
    OffsetMonotone(hdr, j + 1, k);
    OffsetStep(hdr, k - 1);
    if j < k - 1 {
      DecodeHeaderField(hdr, s, order, k - 1, j);
      assert NameDiffers(hdr, j, k - 1);
    }
  }

  /** After `k` passes, the header holds exactly the names of the first `k` fields. */
  lemma {:induction false} DecodeHeaderKeys(hdr: seq<FieldDesc>, s: seq<Byte>, order: ByteOrder, k: nat)
    requires Usable(hdr) && k <= |hdr| && Offset(hdr, k) <= |s|
    ensures DecodeHeader(hdr, s, order, k).Keys == NamesUpTo(hdr, k)
  {
    if k > 0 {
      OffsetStep(hdr, k - 1);
      DecodeHeaderKeys(hdr, s, order, k - 1);
      NamesUpToStep(hdr, k - 1);
    }
  }

  /** Reading a written header gives field `j` the value written for it, cut or padded to its width. */
  lemma HeaderFieldRoundTrip(hdr: seq<FieldDesc>, head: map<string, Value>, order: ByteOrder, rest: seq<Byte>, j: nat)
    requires Usable(hdr) && DistinctNames(hdr) && Packable(hdr, head) && j < |hdr|
    ensures var s := HeaderBytes(hdr, head, order, |hdr|) + rest;
      && hdr[j].name in DecodeHeader(hdr, s, order, |hdr|)
      && DecodeHeader(hdr, s, order, |hdr|)[hdr[j].name] == Normal(hdr[j], head[hdr[j].name])
  {
    var b := HeaderBytes(hdr, head, order, |hdr|);
    var s := b + rest;
    var f, v := hdr[j], head[hdr[j].name];
    DecodeHeaderField(hdr, s, order, |hdr|, j);
    HeaderBytesField(hdr, head, order, |hdr|, j);
    var lo, hi := Offset(hdr, j), Offset(hdr, j + 1);
    assert s[lo..hi] == b[lo..hi] == EncodeValue(f, v, order);
    ValueRoundTrip(f, v, order);
    assert ReadField(hdr, s, order, j) == DecodeValue(f, s[lo..hi], order);
  }

  /** Decoding the header bytes of a header gives back every schema field's value, cut or padded to its width. */
  lemma HeaderRoundTrip(hdr: seq<FieldDesc>, head: map<string, Value>, order: ByteOrder, rest: seq<Byte>)
    requires Usable(hdr) && DistinctNames(hdr) && Packable(hdr, head)
    ensures NormalFields(hdr, DecodeHeader(hdr, HeaderBytes(hdr, head, order, |hdr|) + rest, order, |hdr|), head)
  {
    forall j | 0 <= j < |hdr|
      ensures var s := HeaderBytes(hdr, head, order, |hdr|) + rest;
        hdr[j].name in DecodeHeader(hdr, s, order, |hdr|) && DecodeHeader(hdr, s, order, |hdr|)[hdr[j].name] == Normal(hdr[j], head[hdr[j].name])
    {
      HeaderFieldRoundTrip(hdr, head, order, rest, j);
    }
  }

  /** Writing back the value read for field `j` reproduces its bytes. */
  lemma ReadFieldBytes(hdr: seq<FieldDesc>, s: seq<Byte>, order: ByteOrder, j: nat)
    requires Usable(hdr) && j < |hdr| && Offset(hdr, j + 1) <= |s|
    ensures Offset(hdr, j) <= Offset(hdr, j + 1)
    ensures EncodeValue(hdr[j], ReadField(hdr, s, order, j), order) == s[Offset(hdr, j)..Offset(hdr, j + 1)]
  {
    OffsetStep(hdr, j);
    ValueBytesRoundTrip(hdr[j], s[Offset(hdr, j)..Offset(hdr, j + 1)], order);
  }

  /** A decoded header can be written back. */
  lemma DecodedWritable(hdr: seq<FieldDesc>, s: seq<Byte>, order: ByteOrder)
    requires Usable(hdr) && DistinctNames(hdr) && Offset(hdr, |hdr|) <= |s|
    ensures Writable(hdr, DecodeHeader(hdr, s, order, |hdr|))
  {
    var head := DecodeHeader(hdr, s, order, |hdr|);
    forall j | 0 <= j < |hdr| ensures hdr[j].name in head && Fits(hdr[j], head[hdr[j].name]) {
      DecodeHeaderField(hdr, s, order, |hdr|, j);
    }
  }

  lemma {:induction false} HeaderBytesOfDecodedUpTo(hdr: seq<FieldDesc>, s: seq<Byte>, order: ByteOrder, k: nat)
    requires Usable(hdr) && DistinctNames(hdr) && Offset(hdr, |hdr|) <= |s| && k <= |hdr|
    requires Writable(hdr, DecodeHeader(hdr, s, order, |hdr|))
    ensures Offset(hdr, k) <= |s|
    ensures HeaderBytes(hdr, DecodeHeader(hdr, s, order, |hdr|), order, k) == s[..Offset(hdr, k)]
  {
    OffsetMonotone(hdr, k, |hdr|);
    if k > 0 {
      var head := DecodeHeader(hdr, s, order, |hdr|);
      HeaderBytesOfDecodedUpTo(hdr, s, order, k - 1);
      OffsetStep(hdr, k - 1);
      var lo, hi := Offset(hdr, k - 1), Offset(hdr, k);
      var f := hdr[k - 1];
      var prev := HeaderBytes(hdr, head, order, k - 1);
      assert prev == s[..lo];
      var v := head[f.name];
      DecodeHeaderField(hdr, s, order, |hdr|, k - 1);
      assert v == ReadField(hdr, s, order, k - 1);
      ReadFieldBytes(hdr, s, order, k - 1);
      assert EncodeValue(f, v, order) == s[lo..hi];
      assert HeaderBytes(hdr, head, order, k) == prev + EncodeValue(f, v, order);
      TakeSplit(s, lo, hi);
    }
  }

  /** Decoding loses nothing: the header bytes of a decoded header are the bytes it came from. */
  lemma HeaderBytesOfDecoded(hdr: seq<FieldDesc>, s: seq<Byte>, order: ByteOrder)
    requires Usable(hdr) && DistinctNames(hdr) && Offset(hdr, |hdr|) <= |s|
    ensures Writable(hdr, DecodeHeader(hdr, s, order, |hdr|))
    ensures HeaderBytes(hdr, DecodeHeader(hdr, s, order, |hdr|), order, |hdr|) == s[..Offset(hdr, |hdr|)]
  {
    DecodedWritable(hdr, s, order);
    HeaderBytesOfDecodedUpTo(hdr, s, order, |hdr|);
  }

  /** Reading a header looks at nothing past the fields it reads. */
  lemma {:induction false} DecodeHeaderPrefix(hdr: seq<FieldDesc>, s: seq<Byte>, t: seq<Byte>, order: ByteOrder, k: nat)
    requires Usable(hdr) && k <= |hdr| && Offset(hdr, k) <= |s|
    ensures DecodeHeader(hdr, s + t, order, k) == DecodeHeader(hdr, s, order, k)
  {
    if k > 0 {
      OffsetStep(hdr, k - 1);
      DecodeHeaderPrefix(hdr, s, t, order, k - 1);
      var lo, hi := Offset(hdr, k - 1), Offset(hdr, k);
      assert (s + t)[lo..hi] == s[lo..hi];
    }
  }

  /** How many header fields `Read` gets through on an `n`-byte file, from field `k` on. */
  function FitFrom(hdr: seq<FieldDesc>, n: nat, k: nat): (r: nat)
    requires k <= |hdr| && Offset(hdr, k) <= n
    ensures k <= r <= |hdr| && Offset(hdr, r) <= n
    ensures r < |hdr| ==> n < Offset(hdr, r + 1)
    decreases |hdr| - k
  {
    if k == |hdr| || n < Offset(hdr, k + 1) then k else FitFrom(hdr, n, k + 1)
  }

  /**
    The number of header fields `Read` stores from an `n`-byte file: the
    fields that lie entirely within the file. The next one, if any, is cut
    short, and there `unpack` raises.
   */
  function FieldsRead(hdr: seq<FieldDesc>, n: nat): (k: nat)
    ensures k <= |hdr| && Offset(hdr, k) <= n
    ensures k < |hdr| ==> n < Offset(hdr, k + 1)
  {
    FitFrom(hdr, n, 0)
  }

  /** The field count is determined by those two conditions. */
  lemma FieldsReadUnique(hdr: seq<FieldDesc>, n: nat, k: nat)
    requires Usable(hdr) && k <= |hdr| && Offset(hdr, k) <= n
    requires k < |hdr| ==> n < Offset(hdr, k + 1)
    ensures FieldsRead(hdr, n) == k
  {
    var r := FieldsRead(hdr, n);
    if r < k {
      OffsetMonotone(hdr, r + 1, k);
    } else if k < r {
      OffsetMonotone(hdr, k + 1, r);
    }
  }

  // ---------------------------------------------------------------------------
  // Samples

  /** Sample `i` of a block that starts at byte `off`. */
  function SampleAt(s: seq<Byte>, off: nat, i: nat, order: ByteOrder): Word32
    requires off + 4 * i + 4 <= |s|
  {
    DecodeWord(s[off + 4 * i..off + 4 * i + 4], order)
  }

  /** The samples the sample loop of `Read` appends after `count` passes. */
  function DecodeSamples(s: seq<Byte>, off: nat, count: nat, order: ByteOrder): (d: seq<Word32>)
    requires off + 4 * count <= |s|
    ensures |d| == count
  {
    if count == 0 then [] else DecodeSamples(s, off, count - 1, order) + [SampleAt(s, off, count - 1, order)]
  }

  /** The bytes the sample loop of `Write` emits for a block. */
  function SampleBytes(d: seq<Word32>, order: ByteOrder): (b: seq<Byte>)
    ensures |b| == 4 * |d|
  {
    if d == [] then [] else SampleBytes(d[..|d| - 1], order) + EncodeWord(d[|d| - 1], order)
  }

  /** Sample `i` of a decoded block is the word at byte `off + 4 * i`. */
  lemma {:induction false} DecodeSamplesAt(s: seq<Byte>, off: nat, count: nat, order: ByteOrder, i: nat)
    requires off + 4 * count <= |s| && i < count
    ensures DecodeSamples(s, off, count, order)[i] == SampleAt(s, off, i, order)
  {
    if i < count - 1 {
      DecodeSamplesAt(s, off, count - 1, order, i);
    }
  }

  /** A written block reads back as the same samples, wherever it sits in the file. */
  lemma {:induction false} SamplesRoundTrip(pre: seq<Byte>, d: seq<Word32>, post: seq<Byte>, order: ByteOrder)
    ensures DecodeSamples(pre + SampleBytes(d, order) + post, |pre|, |d|, order) == d
  {
    if d != [] {
      var init, w := d[..|d| - 1], d[|d| - 1];
      var enc := EncodeWord(w, order);
      var mid := pre + SampleBytes(init, order);
      AppendAssoc(pre, SampleBytes(init, order), enc, post);
      SamplesRoundTrip(pre, init, enc + post, order);
      WordAt(mid, w, post, order);
      ButLast(d);
    }
  }

  /** The word written right after `mid` reads back from there. */
  lemma WordAt(mid: seq<Byte>, w: Word32, post: seq<Byte>, order: ByteOrder)
    ensures DecodeWord((mid + EncodeWord(w, order) + post)[|mid|..|mid| + 4], order) == w
  {
    SliceOfConcat(mid, EncodeWord(w, order), post);
    WordRoundTrip(w, order);
  }

  /** Reading a block looks at nothing past its last sample. */
  lemma {:induction false} DecodeSamplesPrefix(s: seq<Byte>, t: seq<Byte>, off: nat, count: nat, order: ByteOrder)
    requires off + 4 * count <= |s|
    ensures DecodeSamples(s + t, off, count, order) == DecodeSamples(s, off, count, order)
  {
    if count > 0 {
      DecodeSamplesPrefix(s, t, off, count - 1, order);
      var lo := off + 4 * (count - 1);
      assert (s + t)[lo..lo + 4] == s[lo..lo + 4];
    }
  }

  // ---------------------------------------------------------------------------
  // Whole files

  /** `range(0, Head['NPTS'])` runs this many times: NPTS when positive, else zero. */
  function SampleCount(head: map<string, Value>): nat {
    if "NPTS" in head && head["NPTS"].IntVal? && head["NPTS"].n > 0 then head["NPTS"].n else 0
  }

  /** `Head['LEVEN'] != 1 or Head['IFTYPE'] in (2, 3)`: the file holds a second block. */
  predicate SecondBlock(head: map<string, Value>)
    ensures "LEVEN" in head && head["LEVEN"] == IntVal(1) && "IFTYPE" in head && head["IFTYPE"] == IntVal(1) ==> !SecondBlock(head)
    ensures "IFTYPE" in head && head["IFTYPE"].IntVal? && 2 <= head["IFTYPE"].n <= 3 ==> SecondBlock(head)
  {
    || ("LEVEN" in head && head["LEVEN"] != IntVal(1))
    || ("IFTYPE" in head && head["IFTYPE"] in {IntVal(2), IntVal(3)})
  }

  /** The bytes a complete file with header `head` has: header plus one or two blocks. */
  function FileLength(hdr: seq<FieldDesc>, head: map<string, Value>): nat {
    Offset(hdr, |hdr|) + 4 * SampleCount(head) * (if SecondBlock(head) then 2 else 1)
  }

  function Min(a: nat, b: nat): nat {
    if a < b then a else b
  }

  /**
    The sample loop of `Read` for one block of `count` samples from byte
    `off`: the samples that lie entirely within `s`. When there are fewer
    than `count`, the next `unpack` raises.
   */
  function ReadBlock(s: seq<Byte>, off: nat, count: nat, order: ByteOrder): (d: seq<Word32>)
    requires off <= |s|
    ensures |d| <= count
    ensures |d| == count <==> off + 4 * count <= |s|
    ensures off + 4 * |d| <= |s|
    ensures |d| < count ==> |s| < off + 4 * |d| + 4
  {
    DecodeSamples(s, off, Min(count, (|s| - off) / 4), order)
  }

  /** What a read leaves: the header entries and samples it got, and whether it reached the end. */
  datatype Decoded = Decoded(head: map<string, Value>, data0: seq<Word32>, data1: seq<Word32>, complete: bool)

  /**
    The sample loops of `Read`, once the whole header `head` has been read:
    up to NPTS samples of the first block; then, when the first is whole and
    `SecondBlock` holds, up to NPTS samples of the second.
   */
  function Blocks(hdr: seq<FieldDesc>, s: seq<Byte>, order: ByteOrder, head: map<string, Value>): (r: Decoded)
    requires Offset(hdr, |hdr|) <= |s|
    ensures r.head == head && |r.data0| <= SampleCount(head) && |r.data1| <= SampleCount(head)
    ensures r.data1 != [] ==> SecondBlock(head) && |r.data0| == SampleCount(head)
    ensures r.complete <==> |r.data0| == SampleCount(head) && |r.data1| == (if SecondBlock(head) then SampleCount(head) else 0)
  {
    var off0 := Offset(hdr, |hdr|);
    var count := SampleCount(head);
    var d0 := ReadBlock(s, off0, count, order);
    if |d0| < count then Decoded(head, d0, [], false)
    else if !SecondBlock(head) then Decoded(head, d0, [], true)
    else
      var d1 := ReadBlock(s, SecondStart(hdr, head), count, order);
      Decoded(head, d0, d1, |d1| == count)
  }

  /** Where the second block starts: after the header and NPTS samples of the first. */
  function SecondStart(hdr: seq<FieldDesc>, head: map<string, Value>): nat
  {
    Offset(hdr, |hdr|) + 4 * SampleCount(head)
  }

  /**
    The effect of `Read` on the byte sequence `s`: the header fields, in
    schema order, as long as each fits in what remains; then the sample
    blocks. `complete` is false when the read stops at a short field or
    sample, where the source raises with the partial update in place.
   */
  function Scan(hdr: seq<FieldDesc>, s: seq<Byte>, order: ByteOrder): (r: Decoded)
    requires Usable(hdr)
    ensures |r.data0| <= SampleCount(r.head) && |r.data1| <= SampleCount(r.head)
    ensures r.data1 != [] ==> SecondBlock(r.head) && |r.data0| == SampleCount(r.head)
    ensures r.complete ==> |s| >= Offset(hdr, |hdr|) && |r.data0| == SampleCount(r.head)
  {
    var k := FieldsRead(hdr, |s|);
    if k < |hdr| then Decoded(DecodeHeader(hdr, s, order, k), [], [], false)
    else Blocks(hdr, s, order, DecodeHeader(hdr, s, order, |hdr|))
  }

  /** The bytes `Write` emits: the header, every first-block sample, every second-block sample. */
  function Encode(hdr: seq<FieldDesc>, head: map<string, Value>, d0: seq<Word32>, d1: seq<Word32>, order: ByteOrder): (b: seq<Byte>)
    requires Usable(hdr) && Packable(hdr, head)
    ensures |b| == Offset(hdr, |hdr|) + 4 * |d0| + 4 * |d1|
  {
    HeaderBytes(hdr, head, order, |hdr|) + SampleBytes(d0, order) + SampleBytes(d1, order)
  }

  /** A written file is the 632-byte header followed by 4 bytes per sample of each block. */
  lemma EncodeLength(hdr: seq<FieldDesc>, head: map<string, Value>, d0: seq<Word32>, d1: seq<Word32>, order: ByteOrder)
    requires ValidSchema(hdr) && Packable(hdr, head)
    ensures |Encode(hdr, head, d0, d1, order)| == HEADER_SIZE + 4 * |d0| + 4 * |d1|
  {
    HeaderSize(hdr);
  }

  /** A written block, followed by anything, reads back whole. */
  lemma ReadBlockExact(pre: seq<Byte>, d: seq<Word32>, post: seq<Byte>, order: ByteOrder)
    ensures ReadBlock(pre + SampleBytes(d, order) + post, |pre|, |d|, order) == d
  {
    SamplesRoundTrip(pre, d, post, order);
  }

  /** A written block that ends the sequence reads back whole. */
  lemma ReadBlockLast(pre: seq<Byte>, d: seq<Word32>, order: ByteOrder)
    ensures ReadBlock(pre + SampleBytes(d, order), |pre|, |d|, order) == d
  {
    assert pre + SampleBytes(d, order) == pre + SampleBytes(d, order) + [];
    ReadBlockExact(pre, d, [], order);
  }

  /** A written block that ends the sequence, read with a larger count, reads back as what is there. */
  lemma ReadBlockShort(pre: seq<Byte>, d: seq<Word32>, count: nat, order: ByteOrder)
    requires |d| <= count
    ensures ReadBlock(pre + SampleBytes(d, order), |pre|, count, order) == d
  {
    var s := pre + SampleBytes(d, order);
    assert s == pre + SampleBytes(d, order) + [];
    assert Min(count, (|s| - |pre|) / 4) == |d|;
    SamplesRoundTrip(pre, d, [], order);
  }

  /** Reading a whole block looks at nothing past it. */
  lemma ReadBlockPrefix(s: seq<Byte>, t: seq<Byte>, off: nat, count: nat, order: ByteOrder)
    requires off + 4 * count <= |s|
    ensures ReadBlock(s + t, off, count, order) == ReadBlock(s, off, count, order)
  {
    assert Min(count, (|s + t| - off) / 4) == count == Min(count, (|s| - off) / 4);
    DecodeSamplesPrefix(s, t, off, count, order);
  }

  /** Blocks of the lengths the header asks for, written after the header, read back whole. */
  lemma BlocksOf(hdr: seq<FieldDesc>, head: map<string, Value>, h: seq<Byte>, d0: seq<Word32>, d1: seq<Word32>, order: ByteOrder)
    requires |h| == Offset(hdr, |hdr|) && |d0| == SampleCount(head)
    requires |d1| == (if SecondBlock(head) then |d0| else 0)
    ensures Blocks(hdr, h + SampleBytes(d0, order) + SampleBytes(d1, order), order, head) == Decoded(head, d0, d1, true)
  {
    var b0, b1 := SampleBytes(d0, order), SampleBytes(d1, order);
    ReadBlockExact(h, d0, b1, order);
    if SecondBlock(head) {
      ReadBlockLast(h + b0, d1, order);
      assert SecondStart(hdr, head) == |h + b0|;
    }
  }

  /** A second block shorter than the header asks for reads back as what is there, and the read is incomplete. */
  lemma BlocksShort(hdr: seq<FieldDesc>, head: map<string, Value>, h: seq<Byte>, d0: seq<Word32>, d1: seq<Word32>, order: ByteOrder)
    requires |h| == Offset(hdr, |hdr|) && |d0| == SampleCount(head)
    requires SecondBlock(head) && |d1| < |d0|
    ensures Blocks(hdr, h + SampleBytes(d0, order) + SampleBytes(d1, order), order, head) == Decoded(head, d0, d1, false)
  {
    var b0, b1 := SampleBytes(d0, order), SampleBytes(d1, order);
    ReadBlockExact(h, d0, b1, order);
    ReadBlockShort(h + b0, d1, |d0|, order);
    assert SecondStart(hdr, head) == |h + b0|;
  }

  /** Two headers hold the same value for every schema field. */
  predicate SameFields(hdr: seq<FieldDesc>, a: map<string, Value>, b: map<string, Value>) {
    forall j :: 0 <= j < |hdr| ==> hdr[j].name in a && hdr[j].name in b && a[hdr[j].name] == b[hdr[j].name]
  }

  /** Header `a` holds, for every schema field, what header `b` holds once written and read back. */
  predicate NormalFields(hdr: seq<FieldDesc>, a: map<string, Value>, b: map<string, Value>) {
    forall j :: 0 <= j < |hdr| ==>
      && hdr[j].name in a && hdr[j].name in b && Packs(hdr[j], b[hdr[j].name])
      && a[hdr[j].name] == Normal(hdr[j], b[hdr[j].name])
  }

  /** A header whose values all fit already comes back exactly. */
  lemma NormalFieldsExact(hdr: seq<FieldDesc>, a: map<string, Value>, b: map<string, Value>)
    requires NormalFields(hdr, a, b) && Writable(hdr, b)
    ensures SameFields(hdr, a, b)
  {
  }

  /** NPTS, LEVEN and IFTYPE are integer fields, so writing and reading back keeps the sample layout. */
  lemma NormalControl(hdr: seq<FieldDesc>, a: map<string, Value>, b: map<string, Value>)
    requires ValidSchema(hdr) && NormalFields(hdr, a, b)
    ensures SampleCount(a) == SampleCount(b) && SecondBlock(a) == SecondBlock(b)
  {
    assert hdr[NPTS_INDEX].name == "NPTS" && hdr[NPTS_INDEX].kind == I32;
    assert hdr[IFTYPE_INDEX].name == "IFTYPE" && hdr[IFTYPE_INDEX].kind == I32;
    assert hdr[LEVEN_INDEX].name == "LEVEN" && hdr[LEVEN_INDEX].kind == I32;
  }

  /** NPTS, LEVEN and IFTYPE are schema fields, so headers that agree on the schema agree on the sample layout. */
  lemma SameControl(hdr: seq<FieldDesc>, a: map<string, Value>, b: map<string, Value>)
    requires ValidSchema(hdr) && SameFields(hdr, a, b)
    ensures SampleCount(a) == SampleCount(b) && SecondBlock(a) == SecondBlock(b)
  {
    assert hdr[NPTS_INDEX].name == "NPTS";
    assert hdr[IFTYPE_INDEX].name == "IFTYPE";
    assert hdr[LEVEN_INDEX].name == "LEVEN";
  }

  /** On a sequence that holds the whole header, the read gets through every field and on to the samples. */
  lemma WholeHeader(hdr: seq<FieldDesc>, s: seq<Byte>, order: ByteOrder)
    requires Usable(hdr) && Offset(hdr, |hdr|) <= |s|
    ensures FieldsRead(hdr, |s|) == |hdr|
    ensures Scan(hdr, s, order) == Blocks(hdr, s, order, DecodeHeader(hdr, s, order, |hdr|))
  {
    FieldsReadUnique(hdr, |s|, |hdr|);
  }

  /** The header of a written file reads back with exactly the schema names, each holding what was written. */
  lemma EncodedHeader(hdr: seq<FieldDesc>, head: map<string, Value>, rest: seq<Byte>, order: ByteOrder)
    requires ValidSchema(hdr) && Packable(hdr, head)
    ensures var s := HeaderBytes(hdr, head, order, |hdr|) + rest;
      && Offset(hdr, |hdr|) <= |s|
      && DecodeHeader(hdr, s, order, |hdr|).Keys == NamesUpTo(hdr, |hdr|)
      && NormalFields(hdr, DecodeHeader(hdr, s, order, |hdr|), head)
      && SampleCount(DecodeHeader(hdr, s, order, |hdr|)) == SampleCount(head)
      && SecondBlock(DecodeHeader(hdr, s, order, |hdr|)) == SecondBlock(head)
  {
    var s := HeaderBytes(hdr, head, order, |hdr|) + rest;
    HeaderRoundTrip(hdr, head, order, rest);
    DecodeHeaderKeys(hdr, s, order, |hdr|);
    NormalControl(hdr, DecodeHeader(hdr, s, order, |hdr|), head);
  }

  /**
    Round trip: reading back what `Write` emits gives the header's schema
    fields, strings cut or padded to their widths, and both blocks, provided
    the first block has NPTS samples and the second has NPTS samples exactly
    when the header asks for one, and none otherwise. A header whose strings
    have their widths comes back exactly.
   */
  lemma ScanEncode(hdr: seq<FieldDesc>, head: map<string, Value>, d0: seq<Word32>, d1: seq<Word32>, order: ByteOrder)
    requires ValidSchema(hdr) && Packable(hdr, head)
    requires |d0| == SampleCount(head)
    requires |d1| == (if SecondBlock(head) then |d0| else 0)
    ensures var r := Scan(hdr, Encode(hdr, head, d0, d1, order), order);
      && r.complete
      && r.head.Keys == NamesUpTo(hdr, |hdr|)
      && NormalFields(hdr, r.head, head)
      && (Writable(hdr, head) ==> SameFields(hdr, r.head, head))
      && r.data0 == d0
      && r.data1 == d1
  {
    var h, b0, b1 := HeaderBytes(hdr, head, order, |hdr|), SampleBytes(d0, order), SampleBytes(d1, order);
    var s := h + b0 + b1;
    assert s == h + (b0 + b1);
    EncodedHeader(hdr, head, b0 + b1, order);
    WholeHeader(hdr, s, order);
    BlocksOf(hdr, DecodeHeader(hdr, s, order, |hdr|), h, d0, d1, order);
    if Writable(hdr, head) {
      NormalFieldsExact(hdr, DecodeHeader(hdr, s, order, |hdr|), head);
    }
  }

  /** A read is complete exactly when the sequence is as long as its header says the file is. */
  lemma ScanCompleteIff(hdr: seq<FieldDesc>, s: seq<Byte>, order: ByteOrder)
    requires Usable(hdr)
    ensures var r := Scan(hdr, s, order);
      r.complete <==> |s| >= FileLength(hdr, r.head)
  {
    var k := FieldsRead(hdr, |s|);
    if k < |hdr| {
      OffsetMonotone(hdr, k + 1, |hdr|);
    }
  }

  /** A complete read holds NPTS samples in the first block, and NPTS or none in the second. */
  lemma ScanCompleteCounts(hdr: seq<FieldDesc>, s: seq<Byte>, order: ByteOrder)
    requires Usable(hdr)
    ensures var r := Scan(hdr, s, order);
      r.complete ==>
        && |r.data0| == SampleCount(r.head)
        && |r.data1| == (if SecondBlock(r.head) then SampleCount(r.head) else 0)
  {
  }

  /** Bytes after the end of a complete file are never looked at. */
  lemma ScanPrefix(hdr: seq<FieldDesc>, s: seq<Byte>, t: seq<Byte>, order: ByteOrder)
    requires Usable(hdr) && Scan(hdr, s, order).complete
    ensures Scan(hdr, s + t, order) == Scan(hdr, s, order)
  {
    var n := |hdr|;
    ScanCompleteIff(hdr, s, order);
    WholeHeader(hdr, s, order);
    WholeHeader(hdr, s + t, order);
    DecodeHeaderPrefix(hdr, s, t, order, n);
    var head := DecodeHeader(hdr, s, order, n);
    var off0, count := Offset(hdr, n), SampleCount(head);
    ReadBlockPrefix(s, t, off0, count, order);
    if SecondBlock(head) {
      ReadBlockPrefix(s, t, SecondStart(hdr, head), count, order);
    }
  }

  /**
    When the header does not ask for a second block, whatever `Write` emits
    for `Data[1]` is trailing bytes: the read gets the first block alone.
   */
  lemma DroppedSecondBlock(hdr: seq<FieldDesc>, head: map<string, Value>, d0: seq<Word32>, d1: seq<Word32>, order: ByteOrder)
    requires ValidSchema(hdr) && Packable(hdr, head)
    requires |d0| == SampleCount(head) && !SecondBlock(head)
    ensures var r := Scan(hdr, Encode(hdr, head, d0, d1, order), order);
      r.complete && r.data0 == d0 && r.data1 == []
  {
    var h, b0, b1 := HeaderBytes(hdr, head, order, |hdr|), SampleBytes(d0, order), SampleBytes(d1, order);
    ScanEncode(hdr, head, d0, [], order);
    var s := Encode(hdr, head, d0, [], order);
    assert SampleBytes([], order) == [];
    assert s == h + b0;
    ScanPrefix(hdr, s, b1, order);
  }

  /**
    When the header asks for a second block but `Data[1]` is shorter than
    NPTS, the read stops inside that block: incomplete, with what was there.
   */
  lemma MissingSecondBlock(hdr: seq<FieldDesc>, head: map<string, Value>, d0: seq<Word32>, d1: seq<Word32>, order: ByteOrder)
    requires ValidSchema(hdr) && Packable(hdr, head)
    requires |d0| == SampleCount(head) && SecondBlock(head) && |d1| < |d0|
    ensures var r := Scan(hdr, Encode(hdr, head, d0, d1, order), order);
      !r.complete && r.data0 == d0 && r.data1 == d1
  {
    var h, b0, b1 := HeaderBytes(hdr, head, order, |hdr|), SampleBytes(d0, order), SampleBytes(d1, order);
    var s := h + b0 + b1;
    assert s == h + (b0 + b1);
    EncodedHeader(hdr, head, b0 + b1, order);
    WholeHeader(hdr, s, order);
    BlocksShort(hdr, DecodeHeader(hdr, s, order, |hdr|), h, d0, d1, order);
  }

  /**
    A sequence too short for the header: the read stores exactly the fields
    that fit and no samples.
   */
  lemma ShortHeader(hdr: seq<FieldDesc>, s: seq<Byte>, order: ByteOrder)
    requires Usable(hdr) && |s| < Offset(hdr, |hdr|)
    ensures var r := Scan(hdr, s, order);
      && !r.complete && r.data0 == [] && r.data1 == []
      && r.head.Keys == NamesUpTo(hdr, FieldsRead(hdr, |s|))
  {
    DecodeHeaderKeys(hdr, s, order, FieldsRead(hdr, |s|));
  }

  /**
    Where the sample loop stops: after `i` samples, when either all `count`
    are in or the next one is cut short. That is the block `ReadBlock` gives.
   */
  lemma ReadBlockStop(s: seq<Byte>, off: nat, count: nat, i: nat, order: ByteOrder)
    requires i <= count && off + 4 * i <= |s|
    requires i == count || |s| < off + 4 * i + 4
    ensures ReadBlock(s, off, count, order) == DecodeSamples(s, off, i, order)
  {
    assert Min(count, (|s| - off) / 4) == i;
  }

  /**
    The header loop of `Read` overwrites the entries of an existing map, so
    the samples it then reads depend only on what it decoded.
   */
  lemma OverlayControl(hdr: seq<FieldDesc>, before: map<string, Value>, s: seq<Byte>, order: ByteOrder)
    requires ValidSchema(hdr) && Offset(hdr, |hdr|) <= |s|
    ensures var got := DecodeHeader(hdr, s, order, |hdr|);
      SampleCount(before + got) == SampleCount(got) && SecondBlock(before + got) == SecondBlock(got)
  {
    var got := DecodeHeader(hdr, s, order, |hdr|);
    DecodeHeaderKeys(hdr, s, order, |hdr|);
    forall j | 0 <= j < |hdr| ensures hdr[j].name in got {
      assert hdr[j].name in NamesUpTo(hdr, |hdr|);
    }
    SameControl(hdr, before + got, got);
  }
}
