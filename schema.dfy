/**
  The generic side of the SAC header table (`_HdrStruc`, libs/SacLib.py:221-353):
  what an entry is, what a value must be to fit it, where each field starts,
  which header map holds the defaults, and the layout facts the codec relies
  on. The literal table itself is in module `HdrTable`.
 */
module Schema {
  import opened Wire

  /** The struct format letter of an entry: 'f', 'i' or 's'. */
  datatype Kind = F32 | I32 | Str

  /** A header value: a float (as its 32-bit pattern), an integer or a string. */
  datatype Value = FloatVal(word: Word32) | IntVal(n: int) | StrVal(text: string)

  /** One `_HdrStruc` tuple. */
  datatype FieldDesc = FieldDesc(name: string, width: nat, kind: Kind, default: Value)

  /** The "unset" sentinel of numeric fields. */
  const UNSET: int := -12345

  /** The single-precision bit pattern of -12345.0, the float default. */
  const UNSET_FLOAT: Word32 := 0xC640_E400

  const UNSET_TEXT_8: string := "-12345  "
  const UNSET_TEXT_16: string := "-12345  -12345  "


  const FIELD_COUNT: nat := 133
  const HEADER_SIZE: nat := 632

  /** Positions of the fields the codec itself consults. */
  const NPTS_INDEX: nat := 79
  const IFTYPE_INDEX: nat := 85
  const LEVEN_INDEX: nat := 105
  const KEVNM_INDEX: nat := 111

  /**
    Whether `pack` accepts `v` for a field described by `f`: a float, an
    int32, or a string of one-byte characters of any length.
   */
  predicate Packs(f: FieldDesc, v: Value) {
    match f.kind
    case F32 => v.FloatVal?
    case I32 => v.IntVal? && IsInt32(v.n)
    case Str => v.StrVal? && IsByteString(v.text)
  }

  /** Whether `v` is a value a field described by `f` can hold on disk: it packs, and a string has exactly the width. */
  predicate Fits(f: FieldDesc, v: Value) {
    Packs(f, v) && (f.kind == Str ==> |v.text| == f.width)
  }

  /**
    The value a field holds once `v` is written and read back: a string is
    cut or NUL-padded to the width, anything else is unchanged.
   */
  function Normal(f: FieldDesc, v: Value): (r: Value)
    requires Packs(f, v)
    ensures Fits(f, r)
    ensures Fits(f, v) ==> r == v
    ensures f.kind != Str ==> r == v
  {
    if f.kind == Str then
      FixedExact(v.text);
      StrVal(Fixed(v.text, f.width))
    else v
  }

  /** A descriptor the codec can use: numeric entries are 4 bytes and the default fits. */
  predicate WellFormed(f: FieldDesc) {
    && f.width > 0
    && (f.kind != Str ==> f.width == 4)
    && Fits(f, f.default)
  }

  /** Entries `i` and `j` have different names. */
  predicate NameDiffers(fs: seq<FieldDesc>, i: nat, j: nat)
    requires i < |fs| && j < |fs|
  {
    fs[i].name != fs[j].name
  }

  /**
    No two entries share a name. The trigger keeps the solver from comparing
    names that a proof does not ask about.
   */
  predicate DistinctNames(fs: seq<FieldDesc>) {
    forall i, j {:trigger NameDiffers(fs, i, j)} :: 0 <= i < j < |fs| ==> NameDiffers(fs, i, j)
  }

  predicate DisjointNames(a: seq<FieldDesc>, b: seq<FieldDesc>) {
    forall i, j :: 0 <= i < |a| && 0 <= j < |b| ==> a[i].name != b[j].name
  }

  /** Byte offset of field `k` in the header: the widths of the fields before it. */
  function Offset(hdr: seq<FieldDesc>, k: nat): (o: nat)
    requires k <= |hdr|
  {
    if k == 0 then 0 else Offset(hdr, k - 1) + hdr[k - 1].width
  }

  /** The names of the first `k` fields. */
  function NamesUpTo(hdr: seq<FieldDesc>, k: nat): set<string>
    requires k <= |hdr|
  {
    set j | 0 <= j < k :: hdr[j].name
  }

  lemma NamesUpToStep(hdr: seq<FieldDesc>, k: nat)
    requires k < |hdr|
    ensures NamesUpTo(hdr, k + 1) == NamesUpTo(hdr, k) + {hdr[k].name}
  {
  }

  /** Kind, width and name constraints of the entry at position `k` of the SAC table. */
  predicate PlacedAt(f: FieldDesc, k: nat) {
    && (f.kind == F32 <==> k < 70)
    && (f.kind == I32 <==> 70 <= k < 110)
    && (f.kind == Str <==> 110 <= k)
    && f.width == (if k == KEVNM_INDEX then 16 else if 110 <= k then 8 else 4)
    && (f.name == "KEVNM" <==> k == KEVNM_INDEX)
    && (k == NPTS_INDEX ==> f == FieldDesc("NPTS", 4, I32, IntVal(UNSET)))
    && (k == IFTYPE_INDEX ==> f == FieldDesc("IFTYPE", 4, I32, IntVal(1)))
    && (k == LEVEN_INDEX ==> f == FieldDesc("LEVEN", 4, I32, IntVal(1)))
    && WellFormed(f)
  }

  predicate LayoutAt(hdr: seq<FieldDesc>, k: nat)
    requires k < |hdr|
  {
    PlacedAt(hdr[k], k)
  }

  /** Every entry of `g` is placed correctly when `g` starts at position `off`. */
  predicate PlacedFrom(g: seq<FieldDesc>, off: nat) {
    forall i :: 0 <= i < |g| ==> PlacedAt(g[i], off + i)
  }

  /** Every entry is well formed. */
  predicate Usable(hdr: seq<FieldDesc>) {
    forall k :: 0 <= k < |hdr| ==> WellFormed(hdr[k])
  }

  /**
    What the codec relies on about a header table: 133 entries laid out as
    70 floats and 40 ints of 4 bytes, then 23 strings of 8 bytes except
    KEVNM of 16; distinct names; defaults that fit; and NPTS, IFTYPE and
    LEVEN at their positions.
   */
  predicate ValidSchema(hdr: seq<FieldDesc>) {
    && |hdr| == FIELD_COUNT
    && Usable(hdr)
    && (forall k :: 0 <= k < |hdr| ==> LayoutAt(hdr, k))
    && DistinctNames(hdr)
    && hdr[NPTS_INDEX] == FieldDesc("NPTS", 4, I32, IntVal(UNSET))
    && hdr[IFTYPE_INDEX] == FieldDesc("IFTYPE", 4, I32, IntVal(1))
    && hdr[LEVEN_INDEX] == FieldDesc("LEVEN", 4, I32, IntVal(1))
  }

  // ---------------------------------------------------------------------------
  // Building the table facts from facts about its pieces

  lemma DisjointAppend(a: seq<FieldDesc>, b: seq<FieldDesc>, c: seq<FieldDesc>)
    requires DisjointNames(a, c) && DisjointNames(b, c)
    ensures DisjointNames(a + b, c)
  {
    forall i, j | 0 <= i < |a + b| && 0 <= j < |c| ensures (a + b)[i].name != c[j].name {
      if i >= |a| {
        assert (a + b)[i] == b[i - |a|];
      }
    }
  }

  lemma DistinctAppend(a: seq<FieldDesc>, b: seq<FieldDesc>)
    requires DistinctNames(a) && DistinctNames(b) && DisjointNames(a, b)
    ensures DistinctNames(a + b)
  {
    forall i, j | 0 <= i < j < |a + b| ensures NameDiffers(a + b, i, j) {
      if j < |a| {
        assert NameDiffers(a, i, j);
      } else if i < |a| {
        assert (a + b)[j] == b[j - |a|];
      } else {
        assert NameDiffers(b, i - |a|, j - |a|);
        assert (a + b)[i] == b[i - |a|] && (a + b)[j] == b[j - |a|];
      }
    }
  }

  lemma PlacedAppend(a: seq<FieldDesc>, b: seq<FieldDesc>, off: nat)
    requires PlacedFrom(a, off) && PlacedFrom(b, off + |a|)
    ensures PlacedFrom(a + b, off)
  {
    forall i | 0 <= i < |a + b| ensures PlacedAt((a + b)[i], off + i) {
      if i >= |a| {
        assert (a + b)[i] == b[i - |a|];
      }
    }
  }


  /** A table laid out as `PlacedAt` says, with distinct names, is valid. */
  lemma PlacedValid(hdr: seq<FieldDesc>)
    requires |hdr| == FIELD_COUNT && PlacedFrom(hdr, 0) && DistinctNames(hdr)
    ensures ValidSchema(hdr)
  {
    forall k | 0 <= k < |hdr| ensures LayoutAt(hdr, k) && WellFormed(hdr[k]) {
      assert PlacedAt(hdr[k], 0 + k);
    }
    assert PlacedAt(hdr[NPTS_INDEX], 0 + NPTS_INDEX);
    assert PlacedAt(hdr[IFTYPE_INDEX], 0 + IFTYPE_INDEX);
    assert PlacedAt(hdr[LEVEN_INDEX], 0 + LEVEN_INDEX);
  }

  // ---------------------------------------------------------------------------
  // Offsets

  /** Field `k` occupies bytes Offset(k) .. Offset(k + 1). */
  lemma OffsetStep(hdr: seq<FieldDesc>, k: nat)
    requires k < |hdr|
    ensures Offset(hdr, k + 1) == Offset(hdr, k) + hdr[k].width
  {
  }

  /** Offsets grow with the field index. */
  lemma {:induction false} OffsetMonotone(hdr: seq<FieldDesc>, j: nat, k: nat)
    requires j <= k <= |hdr|
    ensures Offset(hdr, j) <= Offset(hdr, k)
  {
    if j < k {
      OffsetMonotone(hdr, j, k - 1);
      OffsetStep(hdr, k - 1);
    }
  }

  /** Byte offset of every field: 4 bytes per numeric field, 8 per string but KEVNM's 16. */
  lemma {:induction false} OffsetFormula(hdr: seq<FieldDesc>, k: nat)
    requires ValidSchema(hdr) && k <= |hdr|
    ensures Offset(hdr, k) == if k <= 110 then 4 * k else if k == 111 then 448 else 8 * k - 432
  {
    if k > 0 {
      OffsetFormula(hdr, k - 1);
      OffsetStep(hdr, k - 1);
      assert LayoutAt(hdr, k - 1);
    }
  }

  /** The widths of the header fields add up to 632 bytes. */
  lemma HeaderSize(hdr: seq<FieldDesc>)
    requires ValidSchema(hdr)
    ensures Offset(hdr, FIELD_COUNT) == HEADER_SIZE
  {
    OffsetFormula(hdr, FIELD_COUNT);
  }

  // ---------------------------------------------------------------------------
  // Default header values

  /** The header after the first `k` passes of the default-setting loop of `Sac()`. */
  function DefaultsUpTo(hdr: seq<FieldDesc>, k: nat): (m: map<string, Value>)
    requires k <= |hdr|
  {
    if k == 0 then map[] else DefaultsUpTo(hdr, k - 1)[hdr[k - 1].name := hdr[k - 1].default]
  }

  /** A header `Write` can emit: every field of `hdr` is present and `pack` accepts its value. */
  predicate Packable(hdr: seq<FieldDesc>, head: map<string, Value>) {
    forall k :: 0 <= k < |hdr| ==> hdr[k].name in head && Packs(hdr[k], head[hdr[k].name])
  }

  /** A header whose every field holds a value of that field's kind and exact width. */
  predicate Writable(hdr: seq<FieldDesc>, head: map<string, Value>) {
    && Packable(hdr, head)
    && forall k :: 0 <= k < |hdr| ==> Fits(hdr[k], head[hdr[k].name])
  }

  /** The default loop stores every name it has passed, and no other. */
  lemma {:induction false} DefaultsUpToKeys(hdr: seq<FieldDesc>, k: nat)
    requires k <= |hdr|
    ensures DefaultsUpTo(hdr, k).Keys == NamesUpTo(hdr, k)
  {
    if k > 0 {
      DefaultsUpToKeys(hdr, k - 1);
      NamesUpToStep(hdr, k - 1);
    }
  }

  /** After `k` passes of the default loop, field `j < k` holds its default. */
  lemma {:induction false} DefaultsUpToAt(hdr: seq<FieldDesc>, k: nat, j: nat)
    requires DistinctNames(hdr) && j < k <= |hdr|
    ensures hdr[j].name in DefaultsUpTo(hdr, k)
    ensures DefaultsUpTo(hdr, k)[hdr[j].name] == hdr[j].default
  {
    if j < k - 1 {
      DefaultsUpToAt(hdr, k - 1, j);
      assert NameDiffers(hdr, j, k - 1);
    }
  }

  /**
    The header of `Sac()` without a file: every schema field, and nothing
    else, holds its default, and that header can be written.
   */
  lemma DefaultsComplete(hdr: seq<FieldDesc>)
    requires Usable(hdr) && DistinctNames(hdr)
    ensures DefaultsUpTo(hdr, |hdr|).Keys == NamesUpTo(hdr, |hdr|)
    ensures forall k :: 0 <= k < |hdr| ==> hdr[k].name in DefaultsUpTo(hdr, |hdr|) && DefaultsUpTo(hdr, |hdr|)[hdr[k].name] == hdr[k].default
    ensures Writable(hdr, DefaultsUpTo(hdr, |hdr|))
  {
    DefaultsUpToKeys(hdr, |hdr|);
    forall k | 0 <= k < |hdr|
      ensures hdr[k].name in DefaultsUpTo(hdr, |hdr|) && DefaultsUpTo(hdr, |hdr|)[hdr[k].name] == hdr[k].default
      ensures Packs(hdr[k], hdr[k].default)
    {
      DefaultsUpToAt(hdr, |hdr|, k);
    }
  }
}
