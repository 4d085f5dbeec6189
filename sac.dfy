/**
  The `Sac` record of libs/SacLib.py:30-184: a header map `Head`, the two
  sample blocks `Data[0]` and `Data[1]` (here `Data0` and `Data1`) and the
  byte order `Byte`, with the methods that fill them from a file, write
  them to a file, copy them and list the header fields that were changed.

  Files are the contents of a `FileSystem` map; a name that is not in it is
  a file that `open` cannot find. Where the source raises (a missing file, a
  field or sample cut short), the methods return a status instead, with the
  record updated exactly as far as the source had got.
 */
module SacRecord {
  import opened Wire
  import opened Schema
  import opened HdrTable
  import opened Codec
  import opened Seqs
  import opened Maps
  import opened Wrappers

  /** The files `open` and `isfile` see: name to contents. */
  type FileSystem = map<string, seq<Byte>>

  /**
    How `Read` ended: normally; with `open` raising because the file is not
    there; or with `unpack` raising on a field or sample cut short.
   */
  datatype ReadStatus = Done | NotFound | Truncated

  /** How `Write` ended: the file written, or the overwrite guard refusing. */
  datatype WriteStatus = Written | NotOverwriting

  /** A `ByteOrder` argument replaces the current order when it is given (non-empty). */
  function Chosen(byteOrder: Option<ByteOrder>, current: ByteOrder): (order: ByteOrder)
    ensures byteOrder.None? ==> order == current
    ensures byteOrder.Some? ==> order == byteOrder.value
  {
    if byteOrder.Some? then byteOrder.value else current
  }

  // ---------------------------------------------------------------------------
  // `Print`: the header fields that differ from their defaults

  /** Every schema field has an entry (`self.Head[H[0]]` would raise otherwise). */
  predicate HasNames(hdr: seq<FieldDesc>, head: map<string, Value>) {
    forall k :: 0 <= k < |hdr| ==> hdr[k].name in head
  }

  /**
    The (name, value) lines `Print` emits for the first `k` schema fields:
    each field whose value differs from its default, in schema order. Every
    line shows the field's current entry.
   */
  function Changed(hdr: seq<FieldDesc>, head: map<string, Value>, k: nat): (r: seq<(string, Value)>)
    requires HasNames(hdr, head) && k <= |hdr|
    ensures |r| <= k
    ensures forall i :: 0 <= i < |r| ==> r[i].0 in head && head[r[i].0] == r[i].1
  {
    if k == 0 then []
    else
      var f := hdr[k - 1];
      Changed(hdr, head, k - 1) + (if head[f.name] != f.default then [(f.name, head[f.name])] else [])
  }

  /** A line is printed exactly when some field of that name holds that value and it is not the default. */
  lemma {:induction false} ChangedMembers(hdr: seq<FieldDesc>, head: map<string, Value>, k: nat, n: string, v: Value)
    requires HasNames(hdr, head) && k <= |hdr|
    ensures (n, v) in Changed(hdr, head, k)
        <==> exists j :: 0 <= j < k && hdr[j].name == n && head[n] == v && v != hdr[j].default
  {
    if k > 0 {
      ChangedMembers(hdr, head, k - 1, n, v);
      var f := hdr[k - 1];
      var extra := if head[f.name] != f.default then [(f.name, head[f.name])] else [];
      assert Changed(hdr, head, k) == Changed(hdr, head, k - 1) + extra;
      if (n, v) in extra {
        assert hdr[k - 1].name == n;
      }
    }
  }

  /** Lines come out in schema order: those of the first `j` fields come first. */
  lemma {:induction false} ChangedPrefix(hdr: seq<FieldDesc>, head: map<string, Value>, j: nat, k: nat)
    requires HasNames(hdr, head) && j <= k <= |hdr|
    ensures Changed(hdr, head, j) <= Changed(hdr, head, k)
  {
    if j < k {
      ChangedPrefix(hdr, head, j, k - 1);
    }
  }

  /** Line `i` of the first `k` fields' lines names one of those fields, `hdr[j]`. */
  lemma {:induction false} ChangedSource(hdr: seq<FieldDesc>, head: map<string, Value>, k: nat, i: nat) returns (j: nat)
    requires HasNames(hdr, head) && k <= |hdr| && i < |Changed(hdr, head, k)|
    ensures j < k && hdr[j].name == Changed(hdr, head, k)[i].0
  {
    var prev := Changed(hdr, head, k - 1);
    var f := hdr[k - 1];
    var extra := if head[f.name] != f.default then [(f.name, head[f.name])] else [];
    assert Changed(hdr, head, k) == prev + extra;
    if i < |prev| {
      assert Changed(hdr, head, k)[i] == prev[i];
      j := ChangedSource(hdr, head, k - 1, i);
    } else {
      j := k - 1;
    }
  }

  /** With distinct field names, no field is listed twice. */
  lemma {:induction false} ChangedDistinct(hdr: seq<FieldDesc>, head: map<string, Value>, k: nat)
    requires HasNames(hdr, head) && DistinctNames(hdr) && k <= |hdr|
    ensures forall a, b :: 0 <= a < b < |Changed(hdr, head, k)| ==> Changed(hdr, head, k)[a].0 != Changed(hdr, head, k)[b].0
  {
    if k > 0 {
      ChangedDistinct(hdr, head, k - 1);
      var r := Changed(hdr, head, k);
      var prev := Changed(hdr, head, k - 1);
      var f := hdr[k - 1];
      var extra := if head[f.name] != f.default then [(f.name, head[f.name])] else [];
      assert r == prev + extra;
      forall a, b | 0 <= a < b < |r|
        ensures r[a].0 != r[b].0
      {
        assert r[a] == prev[a];
        if b < |prev| {
          assert r[b] == prev[b];
        } else {
          var j := ChangedSource(hdr, head, k - 1, a);
          assert r[b].0 == f.name;
          assert NameDiffers(hdr, j, k - 1);
        }
      }
    }
  }

  /** A header at its defaults prints nothing. */
  lemma {:induction false} ChangedOfDefaults(hdr: seq<FieldDesc>, k: nat)
    requires Usable(hdr) && DistinctNames(hdr) && k <= |hdr|
    ensures HasNames(hdr, DefaultsUpTo(hdr, |hdr|))
    ensures Changed(hdr, DefaultsUpTo(hdr, |hdr|), k) == []
  {
    DefaultsComplete(hdr);
    if k > 0 {
      ChangedOfDefaults(hdr, k - 1);
      DefaultsUpToAt(hdr, |hdr|, k - 1);
    }
  }

  /** Every field other than those at the indices in `ex` holds its default. */
  predicate DefaultExcept(hdr: seq<FieldDesc>, head: map<string, Value>, ex: set<nat>)
    requires HasNames(hdr, head)
  {
    forall m :: 0 <= m < |hdr| && m !in ex ==> head[hdr[m].name] == hdr[m].default
  }

  /** A header whose fields other than `j` hold their defaults prints at most field `j`. */
  lemma {:induction false} ChangedOnly(hdr: seq<FieldDesc>, head: map<string, Value>, j: nat, k: nat)
    requires HasNames(hdr, head) && j < |hdr| && k <= |hdr| && DefaultExcept(hdr, head, {j})
    requires head[hdr[j].name] != hdr[j].default
    ensures Changed(hdr, head, k) == if j < k then [(hdr[j].name, head[hdr[j].name])] else []
  {
    if k > 0 {
      ChangedOnly(hdr, head, j, k - 1);
    }
  }

  /** A header whose fields other than `i` and `j` hold their defaults prints at most those two, in order. */
  lemma {:induction false} ChangedPair(hdr: seq<FieldDesc>, head: map<string, Value>, i: nat, j: nat, k: nat)
    requires HasNames(hdr, head) && i < j < |hdr| && k <= |hdr| && DefaultExcept(hdr, head, {i, j})
    requires head[hdr[i].name] != hdr[i].default && head[hdr[j].name] != hdr[j].default
    ensures Changed(hdr, head, k)
         == (if i < k then [(hdr[i].name, head[hdr[i].name])] else []) + (if j < k then [(hdr[j].name, head[hdr[j].name])] else [])
  {
    if k > 0 {
      ChangedPair(hdr, head, i, j, k - 1);
    }
  }

  /** Changing one field of a default header prints that one line. */
  lemma ChangedOne(hdr: seq<FieldDesc>, j: nat, v: Value, k: nat)
    requires Usable(hdr) && DistinctNames(hdr) && j < |hdr| && k <= |hdr| && v != hdr[j].default
    ensures HasNames(hdr, DefaultsUpTo(hdr, |hdr|)[hdr[j].name := v])
    ensures Changed(hdr, DefaultsUpTo(hdr, |hdr|)[hdr[j].name := v], k) == if j < k then [(hdr[j].name, v)] else []
  {
    var head := DefaultsUpTo(hdr, |hdr|)[hdr[j].name := v];
    DefaultsComplete(hdr);
    forall m | 0 <= m < |hdr| && m !in {j}
      ensures head[hdr[m].name] == hdr[m].default
    {
      if m < j {
        assert NameDiffers(hdr, m, j);
      } else {
        assert NameDiffers(hdr, j, m);
      }
    }
    ChangedOnly(hdr, head, j, k);
  }

  /** Changing two fields of a default header prints those two lines, in schema order. */
  lemma ChangedTwo(hdr: seq<FieldDesc>, i: nat, vi: Value, j: nat, vj: Value, k: nat)
    requires Usable(hdr) && DistinctNames(hdr) && i < j < |hdr| && k <= |hdr|
    requires vi != hdr[i].default && vj != hdr[j].default
    ensures HasNames(hdr, DefaultsUpTo(hdr, |hdr|)[hdr[i].name := vi][hdr[j].name := vj])
    ensures Changed(hdr, DefaultsUpTo(hdr, |hdr|)[hdr[i].name := vi][hdr[j].name := vj], k)
         == (if i < k then [(hdr[i].name, vi)] else []) + (if j < k then [(hdr[j].name, vj)] else [])
  {
    var head := DefaultsUpTo(hdr, |hdr|)[hdr[i].name := vi][hdr[j].name := vj];
    DefaultsComplete(hdr);
    assert NameDiffers(hdr, i, j);
    forall m | 0 <= m < |hdr| && m !in {i, j}
      ensures head[hdr[m].name] == hdr[m].default
    {
      if m < i {
        assert NameDiffers(hdr, m, i) && NameDiffers(hdr, m, j);
      } else if m < j {
        assert NameDiffers(hdr, i, m) && NameDiffers(hdr, m, j);
      } else {
        assert NameDiffers(hdr, i, m) && NameDiffers(hdr, j, m);
      }
    }
    ChangedPair(hdr, head, i, j, k);
  }

  /** A default header with NPTS set to 100 and KSTNM to "TESTSTA " prints exactly those two lines, NPTS first. */
  lemma ChangedExample()
    ensures var head := DefaultsUpTo(Table(), |Table()|)["NPTS" := IntVal(100)]["KSTNM" := StrVal("TESTSTA ")];
      && HasNames(Table(), head)
      && Changed(Table(), head, |Table()|) == [("NPTS", IntVal(100)), ("KSTNM", StrVal("TESTSTA "))]
  {
    KstnmEntry();
    assert Table()[NPTS_INDEX].name == "NPTS";
    ChangedTwo(Table(), NPTS_INDEX, IntVal(100), 110, StrVal("TESTSTA "), |Table()|);
  }

  // ---------------------------------------------------------------------------
  // The record

  class Sac {
    var Head: map<string, Value>
    var Data0: seq<Word32>
    var Data1: seq<Word32>
    var Byte: ByteOrder

    /**
      `Sac()` or `Sac(ByteOrder=...)` without a file: every header field at
      its default, no samples, byte order 'le' unless one is given.
     */
    constructor (byteOrder: Option<ByteOrder> := None)
      ensures Head == DefaultsUpTo(Table(), |Table()|)
      ensures Head.Keys == NamesUpTo(Table(), |Table()|)
      ensures Writable(Table(), Head)
      ensures Data0 == [] && Data1 == []
      ensures Byte == Chosen(byteOrder, LE)
    {
      Head := map[];
      Data0 := [];
      Data1 := [];
      Byte := LE;
      if byteOrder.Some? {
        Byte := byteOrder.value;
      }
      new;
      SetDefaults(Table());
      EmptyUnion(DefaultsUpTo(Table(), |Table()|));
      DefaultsComplete(Table());
    }

    /** A record with nothing in it yet, as `__init__` has it before reading a file. */
    constructor Blank(byteOrder: Option<ByteOrder>)
      ensures Head == map[] && Data0 == [] && Data1 == []
      ensures Byte == Chosen(byteOrder, LE)
    {
      Head := map[];
      Data0 := [];
      Data1 := [];
      Byte := LE;
      if byteOrder.Some? {
        Byte := byteOrder.value;
      }
    }

    /** `Sac(File, ByteOrder)`: a record read from `file`, or the default record when no file is named. */
    static method Open(fs: FileSystem, file: string, byteOrder: Option<ByteOrder> := None) returns (s: Sac, status: ReadStatus)
      ensures fresh(s)
      ensures s.Byte == Chosen(byteOrder, LE)
      ensures file == "" ==>
        && status == Done && s.Head == DefaultsUpTo(Table(), |Table()|) && s.Data0 == [] && s.Data1 == []
      ensures file != "" && file !in fs ==>
        && status == NotFound && s.Head == map[] && s.Data0 == [] && s.Data1 == []
      ensures file != "" && file in fs ==>
        var r := Scan(Table(), fs[file], s.Byte);
        && s.Head == r.head && s.Data0 == r.data0 && s.Data1 == r.data1
        && status == (if r.complete then Done else Truncated)
    {
      if file == "" {
        s := new Sac(byteOrder);
        status := Done;
      } else {
        s := new Sac.Blank(byteOrder);
        status := s.Read(fs, file);
        if file in fs {
          var r := Scan(Table(), fs[file], s.Byte);
          EmptyUnion(r.head);
          assert [] + r.data0 == r.data0 && [] + r.data1 == r.data1;
        }
      }
    }

    /** The defaults loop of `__init__`, over the header table `hdr`. */
    method SetDefaults(hdr: seq<FieldDesc>)
      modifies this
      ensures Head == old(Head) + DefaultsUpTo(hdr, |hdr|)
      ensures Data0 == old(Data0) && Data1 == old(Data1) && Byte == old(Byte)
    {
      var k := 0;
      while k < |hdr|
        invariant k <= |hdr|
        invariant Head == old(Head) + DefaultsUpTo(hdr, k)
        invariant Data0 == old(Data0) && Data1 == old(Data1) && Byte == old(Byte)
      {
        UnionUpdate(old(Head), DefaultsUpTo(hdr, k), hdr[k].name, hdr[k].default);
        Head := Head[hdr[k].name := hdr[k].default];
        k := k + 1;
      }
    }

    /**
      `Read(FileName, ByteOrder)`. The byte order is set first, even when the
      file is then not found. The header entries read overwrite those of the
      same name and the samples are appended to what the blocks already hold.
     */
    method Read(fs: FileSystem, fileName: string, byteOrder: Option<ByteOrder> := None) returns (status: ReadStatus)
      modifies this
      ensures Byte == Chosen(byteOrder, old(Byte))
      ensures fileName !in fs ==>
        && status == NotFound && Head == old(Head) && Data0 == old(Data0) && Data1 == old(Data1)
      ensures fileName in fs ==>
        var r := Scan(Table(), fs[fileName], Byte);
        && Head == old(Head) + r.head && Data0 == old(Data0) + r.data0 && Data1 == old(Data1) + r.data1
        && status == (if r.complete then Done else Truncated)
    {
      if byteOrder.Some? {
        Byte := byteOrder.value;
      }
      if fileName !in fs {
        return NotFound;
      }
      status := ReadFrom(Table(), fs[fileName]);
    }

    /** The body of `Read` once the file is open, over the header table `hdr`. */
    method ReadFrom(hdr: seq<FieldDesc>, s: seq<Byte>) returns (status: ReadStatus)
      requires ValidSchema(hdr)
      modifies this
      ensures Byte == old(Byte)
      ensures var r := Scan(hdr, s, Byte);
        && Head == old(Head) + r.head && Data0 == old(Data0) + r.data0 && Data1 == old(Data1) + r.data1
        && status == (if r.complete then Done else Truncated)
    {
      var whole := ReadHeader(hdr, s);
      if !whole {
        assert old(Data0) + [] == old(Data0) && old(Data1) + [] == old(Data1);
        return Truncated;
      }
      ghost var got := DecodeHeader(hdr, s, Byte, |hdr|);
      WholeHeader(hdr, s, Byte);
      OverlayControl(hdr, old(Head), s, Byte);
      var off0 := Offset(hdr, |hdr|);
      var count := SampleCount(Head);
      var whole0 := ReadSamples(s, off0, count, false);
      if !whole0 {
        return Truncated;
      }
      if SecondBlock(Head) {
        var off1 := off0 + 4 * count;
        assert off1 == SecondStart(hdr, got);
        var whole1 := ReadSamples(s, off1, count, true);
        status := if whole1 then Done else Truncated;
      } else {
        status := Done;
      }
    }

    /**
      The header loop of `Read`: each field in schema order decoded from the
      next `width` bytes, until the fields run out or the next one is cut short.
     */
    method ReadHeader(hdr: seq<FieldDesc>, s: seq<Byte>) returns (whole: bool)
      requires Usable(hdr)
      modifies this
      ensures Head == old(Head) + DecodeHeader(hdr, s, Byte, FieldsRead(hdr, |s|))
      ensures whole <==> FieldsRead(hdr, |s|) == |hdr|
      ensures Data0 == old(Data0) && Data1 == old(Data1) && Byte == old(Byte)
    {
      var k, pos := 0, 0;
      while k < |hdr| && pos + hdr[k].width <= |s|
        invariant k <= |hdr| && pos == Offset(hdr, k) && pos <= |s|
        invariant Head == old(Head) + DecodeHeader(hdr, s, Byte, k)
        invariant Data0 == old(Data0) && Data1 == old(Data1) && Byte == old(Byte)
        decreases |hdr| - k
      {
        OffsetStep(hdr, k);
        var next := pos + hdr[k].width;
        assert next == Offset(hdr, k + 1);
        var v := DecodeValue(hdr[k], s[pos..next], Byte);
        assert v == ReadField(hdr, s, Byte, k);
        UnionUpdate(old(Head), DecodeHeader(hdr, s, Byte, k), hdr[k].name, v);
        Head := Head[hdr[k].name := v];
        pos := next;
        k := k + 1;
      }
      if k < |hdr| {
        OffsetStep(hdr, k);
      }
      FieldsReadUnique(hdr, |s|, k);
      whole := k == |hdr|;
    }

    /**
      A sample loop of `Read`: up to `count` 4-byte words from byte `off`,
      appended to `Data[0]`, or to `Data[1]` when `second` holds.
     */
    method ReadSamples(s: seq<Byte>, off: nat, count: nat, second: bool) returns (whole: bool)
      requires off <= |s|
      modifies this
      ensures !second ==> Data0 == old(Data0) + ReadBlock(s, off, count, Byte) && Data1 == old(Data1)
      ensures second ==> Data1 == old(Data1) + ReadBlock(s, off, count, Byte) && Data0 == old(Data0)
      ensures whole <==> |ReadBlock(s, off, count, Byte)| == count
      ensures Head == old(Head) && Byte == old(Byte)
    {
      var i := 0;
      while i < count && off + 4 * i + 4 <= |s|
        invariant i <= count && off + 4 * i <= |s|
        invariant !second ==> Data0 == old(Data0) + DecodeSamples(s, off, i, Byte) && Data1 == old(Data1)
        invariant second ==> Data1 == old(Data1) + DecodeSamples(s, off, i, Byte) && Data0 == old(Data0)
        invariant Head == old(Head) && Byte == old(Byte)
      {
        var w := DecodeWord(s[off + 4 * i..off + 4 * i + 4], Byte);
        if second {
          AppendOne(old(Data1), DecodeSamples(s, off, i, Byte), w);
          Data1 := Data1 + [w];
        } else {
          AppendOne(old(Data0), DecodeSamples(s, off, i, Byte), w);
          Data0 := Data0 + [w];
        }
        i := i + 1;
      }
      ReadBlockStop(s, off, count, i, Byte);
      whole := i == count;
    }

    /**
      `Write(FileName, ByteOrder, OverWrite)`. An existing file is left alone
      unless `overWrite` holds, and then nothing changes, not even the byte
      order. Otherwise the byte order is set (to 'le' when not given) and the
      file becomes the header, then `Data[0]`, then `Data[1]`.
     */
    method Write(fs: FileSystem, fileName: string, byteOrder: Option<ByteOrder> := Some(LE), overWrite: bool := false)
      returns (fs': FileSystem, status: WriteStatus)
      requires !(fileName in fs && !overWrite) ==> Packable(Table(), Head)
      modifies this
      ensures Head == old(Head) && Data0 == old(Data0) && Data1 == old(Data1)
      ensures fileName in fs && !overWrite ==> status == NotOverwriting && fs' == fs && Byte == old(Byte)
      ensures !(fileName in fs && !overWrite) ==>
        && status == Written
        && Byte == Chosen(byteOrder, old(Byte))
        && fs' == fs[fileName := Encode(Table(), Head, Data0, Data1, Byte)]
    {
      if fileName in fs && !overWrite {
        return fs, NotOverwriting;
      }
      if byteOrder.Some? {
        Byte := byteOrder.value;
      }
      var out := WriteBytes(Table());
      fs' := fs[fileName := out];
      status := Written;
    }

    /** The body of the `with open(FileName, 'wb')` block of `Write`, over the header table `hdr`. */
    method WriteBytes(hdr: seq<FieldDesc>) returns (out: seq<Byte>)
      requires Usable(hdr) && Packable(hdr, Head)
      ensures out == Encode(hdr, Head, Data0, Data1, Byte)
    {
      out := WriteHeader(hdr);
      var block := WriteSamples(Data0);
      out := out + block;
      if Data1 != [] {
        block := WriteSamples(Data1);
        out := out + block;
      } else {
        assert SampleBytes(Data1, Byte) == [];
      }
    }

    /** The header loop of `Write`: every field of `hdr`, in order, in its width. */
    method WriteHeader(hdr: seq<FieldDesc>) returns (out: seq<Byte>)
      requires Usable(hdr) && Packable(hdr, Head)
      ensures out == HeaderBytes(hdr, Head, Byte, |hdr|)
    {
      out := [];
      var k := 0;
      while k < |hdr|
        invariant k <= |hdr| && out == HeaderBytes(hdr, Head, Byte, k)
      {
        out := out + EncodeValue(hdr[k], Head[hdr[k].name], Byte);
        k := k + 1;
      }
    }

    /** A sample loop of `Write`: every word of `d`, in order, 4 bytes each. */
    method WriteSamples(d: seq<Word32>) returns (out: seq<Byte>)
      ensures out == SampleBytes(d, Byte)
    {
      out := [];
      var i := 0;
      while i < |d|
        invariant i <= |d| && out == SampleBytes(d[..i], Byte)
      {
        TakeOne(d, i);
        assert d[..i + 1][..i] == d[..i];
        out := out + EncodeWord(d[i], Byte);
        i := i + 1;
      }
      assert d[..|d|] == d;
    }

    /** `Copy`: a new record with the same contents, sharing nothing with this one. */
    method Copy() returns (c: Sac)
      ensures fresh(c)
      ensures c.Head == Head && c.Data0 == Data0 && c.Data1 == Data1 && c.Byte == Byte
    {
      c := new Sac.Blank(Some(Byte));
      c.Head := Head;
      c.Data0 := Data0;
      c.Data1 := Data1;
    }

    /** `Print`: the changed header fields, as (name, value) lines, none twice; a record at its defaults prints none. */
    function Print(): (r: seq<(string, Value)>)
      reads this
      requires HasNames(Table(), Head)
      ensures Head == DefaultsUpTo(Table(), |Table()|) ==> r == []
      ensures forall a, b :: 0 <= a < b < |r| ==> r[a].0 != r[b].0
    {
      ChangedOfDefaults(Table(), |Table()|);
      ChangedDistinct(Table(), Head, |Table()|);
      Changed(Table(), Head, |Table()|)
    }
  }

  /**
    Round trip through a file: writing a record and reading the file back
    into a new record, in the same byte order, gives back every header field,
    strings cut or padded to their widths, and both blocks, provided the
    blocks have the lengths the header asks for. A header whose strings have
    their widths comes back exactly.
   */
  method WriteReadBack(src: Sac, fs: FileSystem, name: string, order: ByteOrder) returns (dst: Sac, status: ReadStatus)
    requires name != "" && Packable(Table(), src.Head)
    requires |src.Data0| == SampleCount(src.Head)
    requires |src.Data1| == (if SecondBlock(src.Head) then |src.Data0| else 0)
    modifies src
    ensures fresh(dst) && status == Done
    ensures NormalFields(Table(), dst.Head, src.Head) && dst.Head.Keys == NamesUpTo(Table(), |Table()|)
    ensures Writable(Table(), src.Head) ==> SameFields(Table(), dst.Head, src.Head)
    ensures dst.Data0 == src.Data0 && dst.Data1 == src.Data1 && dst.Byte == order
    ensures src.Byte == order && src.Head == old(src.Head) && src.Data0 == old(src.Data0) && src.Data1 == old(src.Data1)
  {
    var written, _ := src.Write(fs, name, Some(order), true);
    ScanEncode(Table(), src.Head, src.Data0, src.Data1, order);
    dst, status := Sac.Open(written, name, Some(order));
  }
}
