/**
  The SAC header table of libs/SacLib.py:221-353 (`_HdrStruc`): the ordered
  list of (name, byte width, kind, default) entries that both the reader and
  the writer walk. Field order here is field order on disk.

  The source lists 133 entries: 70 floats, 40 integers and 23 strings, 632
  bytes in all. The list is written below in chunks of ten consecutive
  entries, in source order, and `HDR_STRUC` is their concatenation; each
  fact about the table is checked chunk by chunk and then carried over to
  the whole by the generic lemmas of `Schema`.

  Float defaults are written `-12345` in the source, an int that `pack('f')`
  turns into -12345.0; the entries below hold the single-precision pattern of
  that float, which Python's `==` also equates with the int.
 */
module HdrTable {
  import opened Schema

  /** Entries 0..9; libs/SacLib.py:221-230. */
  const FIELDS_000: seq<FieldDesc> := [
    FieldDesc("DELTA", 4, F32, FloatVal(UNSET_FLOAT)),
    FieldDesc("DEPMIN", 4, F32, FloatVal(UNSET_FLOAT)),
    FieldDesc("DEPMAX", 4, F32, FloatVal(UNSET_FLOAT)),
    FieldDesc("SCALE", 4, F32, FloatVal(UNSET_FLOAT)),
    FieldDesc("ODELTA", 4, F32, FloatVal(UNSET_FLOAT)),
    FieldDesc("B", 4, F32, FloatVal(UNSET_FLOAT)),
    FieldDesc("E", 4, F32, FloatVal(UNSET_FLOAT)),
    FieldDesc("O", 4, F32, FloatVal(UNSET_FLOAT)),
    FieldDesc("A", 4, F32, FloatVal(UNSET_FLOAT)),
    FieldDesc("INTERNAL1", 4, F32, FloatVal(UNSET_FLOAT))
  ]

  /** Entries 10..19; libs/SacLib.py:231-240. */
  const FIELDS_010: seq<FieldDesc> := [
    FieldDesc("T0", 4, F32, FloatVal(UNSET_FLOAT)),
    FieldDesc("T1", 4, F32, FloatVal(UNSET_FLOAT)),
    FieldDesc("T2", 4, F32, FloatVal(UNSET_FLOAT)),
    FieldDesc("T3", 4, F32, FloatVal(UNSET_FLOAT)),
    FieldDesc("T4", 4, F32, FloatVal(UNSET_FLOAT)),
    FieldDesc("T5", 4, F32, FloatVal(UNSET_FLOAT)),
    FieldDesc("T6", 4, F32, FloatVal(UNSET_FLOAT)),
    FieldDesc("T7", 4, F32, FloatVal(UNSET_FLOAT)),
    FieldDesc("T8", 4, F32, FloatVal(UNSET_FLOAT)),
    FieldDesc("T9", 4, F32, FloatVal(UNSET_FLOAT))
  ]

  /** Entries 20..29; libs/SacLib.py:241-250. */
  const FIELDS_020: seq<FieldDesc> := [
    FieldDesc("F", 4, F32, FloatVal(UNSET_FLOAT)),
    FieldDesc("RESP0", 4, F32, FloatVal(UNSET_FLOAT)),
    FieldDesc("RESP1", 4, F32, FloatVal(UNSET_FLOAT)),
    FieldDesc("RESP2", 4, F32, FloatVal(UNSET_FLOAT)),
    FieldDesc("RESP3", 4, F32, FloatVal(UNSET_FLOAT)),
    FieldDesc("RESP4", 4, F32, FloatVal(UNSET_FLOAT)),
    FieldDesc("RESP5", 4, F32, FloatVal(UNSET_FLOAT)),
    FieldDesc("RESP6", 4, F32, FloatVal(UNSET_FLOAT)),
    FieldDesc("RESP7", 4, F32, FloatVal(UNSET_FLOAT)),
    FieldDesc("RESP8", 4, F32, FloatVal(UNSET_FLOAT))
  ]

  /** Entries 30..39; libs/SacLib.py:251-260. */
  const FIELDS_030: seq<FieldDesc> := [
    FieldDesc("RESP9", 4, F32, FloatVal(UNSET_FLOAT)),
    FieldDesc("STLA", 4, F32, FloatVal(UNSET_FLOAT)),
    FieldDesc("STLO", 4, F32, FloatVal(UNSET_FLOAT)),
    FieldDesc("STEL", 4, F32, FloatVal(UNSET_FLOAT)),
    FieldDesc("STDP", 4, F32, FloatVal(UNSET_FLOAT)),
    FieldDesc("EVLA", 4, F32, FloatVal(UNSET_FLOAT)),
    FieldDesc("EVLO", 4, F32, FloatVal(UNSET_FLOAT)),
    FieldDesc("EVEL", 4, F32, FloatVal(UNSET_FLOAT)),
    FieldDesc("EVDP", 4, F32, FloatVal(UNSET_FLOAT)),
    FieldDesc("MAG", 4, F32, FloatVal(UNSET_FLOAT))
  ]

  /** Entries 40..49; libs/SacLib.py:261-270. */
  const FIELDS_040: seq<FieldDesc> := [
    FieldDesc("USER0", 4, F32, FloatVal(UNSET_FLOAT)),
    FieldDesc("USER1", 4, F32, FloatVal(UNSET_FLOAT)),
    FieldDesc("USER2", 4, F32, FloatVal(UNSET_FLOAT)),
    FieldDesc("USER3", 4, F32, FloatVal(UNSET_FLOAT)),
    FieldDesc("USER4", 4, F32, FloatVal(UNSET_FLOAT)),
    FieldDesc("USER5", 4, F32, FloatVal(UNSET_FLOAT)),
    FieldDesc("USER6", 4, F32, FloatVal(UNSET_FLOAT)),
    FieldDesc("USER7", 4, F32, FloatVal(UNSET_FLOAT)),
    FieldDesc("USER8", 4, F32, FloatVal(UNSET_FLOAT)),
    FieldDesc("USER9", 4, F32, FloatVal(UNSET_FLOAT))
  ]

  /** Entries 50..59; libs/SacLib.py:271-280. */
  const FIELDS_050: seq<FieldDesc> := [
    FieldDesc("DIST", 4, F32, FloatVal(UNSET_FLOAT)),
    FieldDesc("AZ", 4, F32, FloatVal(UNSET_FLOAT)),
    FieldDesc("BAZ", 4, F32, FloatVal(UNSET_FLOAT)),
    FieldDesc("GCARC", 4, F32, FloatVal(UNSET_FLOAT)),
    FieldDesc("INTERNAL2", 4, F32, FloatVal(UNSET_FLOAT)),
    FieldDesc("INTERNAL3", 4, F32, FloatVal(UNSET_FLOAT)),
    FieldDesc("DEPMEN", 4, F32, FloatVal(UNSET_FLOAT)),
    FieldDesc("CMPAZ", 4, F32, FloatVal(UNSET_FLOAT)),
    FieldDesc("CMPINC", 4, F32, FloatVal(UNSET_FLOAT)),
    FieldDesc("XMINIMUM", 4, F32, FloatVal(UNSET_FLOAT))
  ]

  /** Entries 60..69; libs/SacLib.py:281-290. */
  const FIELDS_060: seq<FieldDesc> := [
    FieldDesc("XMAXIMUM", 4, F32, FloatVal(UNSET_FLOAT)),
    FieldDesc("YMINIMUM", 4, F32, FloatVal(UNSET_FLOAT)),
    FieldDesc("YMAXIMUM", 4, F32, FloatVal(UNSET_FLOAT)),
    FieldDesc("UNUSED1", 4, F32, FloatVal(UNSET_FLOAT)),
    FieldDesc("UNUSED2", 4, F32, FloatVal(UNSET_FLOAT)),
    FieldDesc("UNUSED3", 4, F32, FloatVal(UNSET_FLOAT)),
    FieldDesc("UNUSED4", 4, F32, FloatVal(UNSET_FLOAT)),
    FieldDesc("UNUSED5", 4, F32, FloatVal(UNSET_FLOAT)),
    FieldDesc("UNUSED6", 4, F32, FloatVal(UNSET_FLOAT)),
    FieldDesc("UNUSED7", 4, F32, FloatVal(UNSET_FLOAT))
  ]

  /** Entries 70..79; libs/SacLib.py:291-300. */
  const FIELDS_070: seq<FieldDesc> := [
    FieldDesc("NZYEAR", 4, I32, IntVal(UNSET)),
    FieldDesc("NZJDAY", 4, I32, IntVal(UNSET)),
    FieldDesc("NZHOUR", 4, I32, IntVal(UNSET)),
    FieldDesc("NZMIN", 4, I32, IntVal(UNSET)),
    FieldDesc("NZSEC", 4, I32, IntVal(UNSET)),
    FieldDesc("NZMSEC", 4, I32, IntVal(UNSET)),
    FieldDesc("NVHDR", 4, I32, IntVal(6)),
    FieldDesc("NORID", 4, I32, IntVal(UNSET)),
    FieldDesc("NEVID", 4, I32, IntVal(UNSET)),
    FieldDesc("NPTS", 4, I32, IntVal(UNSET))
  ]

  /** Entries 80..89; libs/SacLib.py:301-310. */
  const FIELDS_080: seq<FieldDesc> := [
    FieldDesc("INTERNAL4", 4, I32, IntVal(UNSET)),
    FieldDesc("NWFID", 4, I32, IntVal(UNSET)),
    FieldDesc("NXSIZE", 4, I32, IntVal(UNSET)),
    FieldDesc("NYSIZE", 4, I32, IntVal(UNSET)),
    FieldDesc("UNUSED8", 4, I32, IntVal(UNSET)),
    FieldDesc("IFTYPE", 4, I32, IntVal(1)),
    FieldDesc("IDEP", 4, I32, IntVal(UNSET)),
    FieldDesc("IZTYPE", 4, I32, IntVal(UNSET)),
    FieldDesc("UNUSED9", 4, I32, IntVal(UNSET)),
    FieldDesc("IINST", 4, I32, IntVal(UNSET))
  ]

  /** Entries 90..99; libs/SacLib.py:311-320. */
  const FIELDS_090: seq<FieldDesc> := [
    FieldDesc("ISTREG", 4, I32, IntVal(UNSET)),
    FieldDesc("IEVREG", 4, I32, IntVal(UNSET)),
    FieldDesc("IEVTYP", 4, I32, IntVal(UNSET)),
    FieldDesc("IQUAL", 4, I32, IntVal(UNSET)),
    FieldDesc("ISYNTH", 4, I32, IntVal(UNSET)),
    FieldDesc("IMAGTYP", 4, I32, IntVal(UNSET)),
    FieldDesc("IMAGSRC", 4, I32, IntVal(UNSET)),
    FieldDesc("UNUSED10", 4, I32, IntVal(UNSET)),
    FieldDesc("UNUSED11", 4, I32, IntVal(UNSET)),
    FieldDesc("UNUSED12", 4, I32, IntVal(UNSET))
  ]

  /** Entries 100..109; libs/SacLib.py:321-330. */
  const FIELDS_100: seq<FieldDesc> := [
    FieldDesc("UNUSED13", 4, I32, IntVal(UNSET)),
    FieldDesc("UNUSED14", 4, I32, IntVal(UNSET)),
    FieldDesc("UNUSED15", 4, I32, IntVal(UNSET)),
    FieldDesc("UNUSED16", 4, I32, IntVal(UNSET)),
    FieldDesc("UNUSED17", 4, I32, IntVal(UNSET)),
    FieldDesc("LEVEN", 4, I32, IntVal(1)),
    FieldDesc("LPSPOL", 4, I32, IntVal(0)),
    FieldDesc("LOVROK", 4, I32, IntVal(1)),
    FieldDesc("LCALDA", 4, I32, IntVal(1)),
    FieldDesc("UNUSED18", 4, I32, IntVal(0))
  ]

  /** Entries 110..119; libs/SacLib.py:331-340. */
  const FIELDS_110: seq<FieldDesc> := [
    FieldDesc("KSTNM", 8, Str, StrVal(UNSET_TEXT_8)),
    FieldDesc("KEVNM", 16, Str, StrVal(UNSET_TEXT_16)),
    FieldDesc("KHOLE", 8, Str, StrVal(UNSET_TEXT_8)),
    FieldDesc("KO", 8, Str, StrVal(UNSET_TEXT_8)),
    FieldDesc("KA", 8, Str, StrVal(UNSET_TEXT_8)),
    FieldDesc("KT0", 8, Str, StrVal(UNSET_TEXT_8)),
    FieldDesc("KT1", 8, Str, StrVal(UNSET_TEXT_8)),
    FieldDesc("KT2", 8, Str, StrVal(UNSET_TEXT_8)),
    FieldDesc("KT3", 8, Str, StrVal(UNSET_TEXT_8)),
    FieldDesc("KT4", 8, Str, StrVal(UNSET_TEXT_8))
  ]

  /** Entries 120..129; libs/SacLib.py:341-350. */
  const FIELDS_120: seq<FieldDesc> := [
    FieldDesc("KT5", 8, Str, StrVal(UNSET_TEXT_8)),
    FieldDesc("KT6", 8, Str, StrVal(UNSET_TEXT_8)),
    FieldDesc("KT7", 8, Str, StrVal(UNSET_TEXT_8)),
    FieldDesc("KT8", 8, Str, StrVal(UNSET_TEXT_8)),
    FieldDesc("KT9", 8, Str, StrVal(UNSET_TEXT_8)),
    FieldDesc("KF", 8, Str, StrVal(UNSET_TEXT_8)),
    FieldDesc("KUSER0", 8, Str, StrVal(UNSET_TEXT_8)),
    FieldDesc("KUSER1", 8, Str, StrVal(UNSET_TEXT_8)),
    FieldDesc("KUSER2", 8, Str, StrVal(UNSET_TEXT_8)),
    FieldDesc("KCMPNM", 8, Str, StrVal(UNSET_TEXT_8))
  ]

  /** Entries 130..132; libs/SacLib.py:351-353. */
  const FIELDS_130: seq<FieldDesc> := [
    FieldDesc("KNETWK", 8, Str, StrVal(UNSET_TEXT_8)),
    FieldDesc("KDATRD", 8, Str, StrVal(UNSET_TEXT_8)),
    FieldDesc("KINST", 8, Str, StrVal(UNSET_TEXT_8))
  ]

  /** `_HdrStruc`, in source order. */
  const HDR_STRUC: seq<FieldDesc> :=
    FIELDS_000 + FIELDS_010 + FIELDS_020 + FIELDS_030
    + FIELDS_040 + FIELDS_050 + FIELDS_060 + FIELDS_070
    + FIELDS_080 + FIELDS_090 + FIELDS_100 + FIELDS_110
    + FIELDS_120 + FIELDS_130

  // ---------------------------------------------------------------------------
  // Facts about each chunk, checked on one short literal at a time

  lemma Placed000()
    ensures |FIELDS_000| == 10 && PlacedFrom(FIELDS_000, 0)
  {
  }

  lemma Distinct000()
    ensures DistinctNames(FIELDS_000)
  {
  }

  lemma Placed010()
    ensures |FIELDS_010| == 10 && PlacedFrom(FIELDS_010, 10)
  {
  }

  lemma Distinct010()
    ensures DistinctNames(FIELDS_010)
  {
  }

  lemma Placed020()
    ensures |FIELDS_020| == 10 && PlacedFrom(FIELDS_020, 20)
  {
  }

  lemma Distinct020()
    ensures DistinctNames(FIELDS_020)
  {
  }

  lemma Placed030()
    ensures |FIELDS_030| == 10 && PlacedFrom(FIELDS_030, 30)
  {
  }

  lemma Distinct030()
    ensures DistinctNames(FIELDS_030)
  {
  }

  lemma Placed040()
    ensures |FIELDS_040| == 10 && PlacedFrom(FIELDS_040, 40)
  {
  }

  lemma Distinct040()
    ensures DistinctNames(FIELDS_040)
  {
  }

  lemma Placed050()
    ensures |FIELDS_050| == 10 && PlacedFrom(FIELDS_050, 50)
  {
  }

  lemma Distinct050()
    ensures DistinctNames(FIELDS_050)
  {
  }

  lemma Placed060()
    ensures |FIELDS_060| == 10 && PlacedFrom(FIELDS_060, 60)
  {
  }

  lemma Distinct060()
    ensures DistinctNames(FIELDS_060)
  {
  }

  lemma Placed070()
    ensures |FIELDS_070| == 10 && PlacedFrom(FIELDS_070, 70)
  {
  }

  lemma Distinct070()
    ensures DistinctNames(FIELDS_070)
  {
  }

  lemma Placed080()
    ensures |FIELDS_080| == 10 && PlacedFrom(FIELDS_080, 80)
  {
  }

  lemma Distinct080()
    ensures DistinctNames(FIELDS_080)
  {
  }

  lemma Placed090()
    ensures |FIELDS_090| == 10 && PlacedFrom(FIELDS_090, 90)
  {
  }

  lemma Distinct090()
    ensures DistinctNames(FIELDS_090)
  {
  }

  lemma Placed100()
    ensures |FIELDS_100| == 10 && PlacedFrom(FIELDS_100, 100)
  {
  }

  lemma Distinct100()
    ensures DistinctNames(FIELDS_100)
  {
  }

  lemma Placed110()
    ensures |FIELDS_110| == 10 && PlacedFrom(FIELDS_110, 110)
  {
  }

  lemma Distinct110()
    ensures DistinctNames(FIELDS_110)
  {
  }

  lemma Placed120()
    ensures |FIELDS_120| == 10 && PlacedFrom(FIELDS_120, 120)
  {
  }

  lemma Distinct120()
    ensures DistinctNames(FIELDS_120)
  {
  }

  lemma Placed130()
    ensures |FIELDS_130| == 3 && PlacedFrom(FIELDS_130, 130)
  {
  }

  lemma Distinct130()
    ensures DistinctNames(FIELDS_130)
  {
  }

  lemma Apart000_010() ensures DisjointNames(FIELDS_000, FIELDS_010) {}
  lemma Apart000_020() ensures DisjointNames(FIELDS_000, FIELDS_020) {}
  lemma Apart000_030() ensures DisjointNames(FIELDS_000, FIELDS_030) {}
  lemma Apart000_040() ensures DisjointNames(FIELDS_000, FIELDS_040) {}
  lemma Apart000_050() ensures DisjointNames(FIELDS_000, FIELDS_050) {}
  lemma Apart000_060() ensures DisjointNames(FIELDS_000, FIELDS_060) {}
  lemma Apart000_070() ensures DisjointNames(FIELDS_000, FIELDS_070) {}
  lemma Apart000_080() ensures DisjointNames(FIELDS_000, FIELDS_080) {}
  lemma Apart000_090() ensures DisjointNames(FIELDS_000, FIELDS_090) {}
  lemma Apart000_100() ensures DisjointNames(FIELDS_000, FIELDS_100) {}
  lemma Apart000_110() ensures DisjointNames(FIELDS_000, FIELDS_110) {}
  lemma Apart000_120() ensures DisjointNames(FIELDS_000, FIELDS_120) {}
  lemma Apart000_130() ensures DisjointNames(FIELDS_000, FIELDS_130) {}
  lemma Apart010_020() ensures DisjointNames(FIELDS_010, FIELDS_020) {}
  lemma Apart010_030() ensures DisjointNames(FIELDS_010, FIELDS_030) {}
  lemma Apart010_040() ensures DisjointNames(FIELDS_010, FIELDS_040) {}
  lemma Apart010_050() ensures DisjointNames(FIELDS_010, FIELDS_050) {}
  lemma Apart010_060() ensures DisjointNames(FIELDS_010, FIELDS_060) {}
  lemma Apart010_070() ensures DisjointNames(FIELDS_010, FIELDS_070) {}
  lemma Apart010_080() ensures DisjointNames(FIELDS_010, FIELDS_080) {}
  lemma Apart010_090() ensures DisjointNames(FIELDS_010, FIELDS_090) {}
  lemma Apart010_100() ensures DisjointNames(FIELDS_010, FIELDS_100) {}
  lemma Apart010_110() ensures DisjointNames(FIELDS_010, FIELDS_110) {}
  lemma Apart010_120() ensures DisjointNames(FIELDS_010, FIELDS_120) {}
  lemma Apart010_130() ensures DisjointNames(FIELDS_010, FIELDS_130) {}
  lemma Apart020_030() ensures DisjointNames(FIELDS_020, FIELDS_030) {}
  lemma Apart020_040() ensures DisjointNames(FIELDS_020, FIELDS_040) {}
  lemma Apart020_050() ensures DisjointNames(FIELDS_020, FIELDS_050) {}
  lemma Apart020_060() ensures DisjointNames(FIELDS_020, FIELDS_060) {}
  lemma Apart020_070() ensures DisjointNames(FIELDS_020, FIELDS_070) {}
  lemma Apart020_080() ensures DisjointNames(FIELDS_020, FIELDS_080) {}
  lemma Apart020_090() ensures DisjointNames(FIELDS_020, FIELDS_090) {}
  lemma Apart020_100() ensures DisjointNames(FIELDS_020, FIELDS_100) {}
  lemma Apart020_110() ensures DisjointNames(FIELDS_020, FIELDS_110) {}
  lemma Apart020_120() ensures DisjointNames(FIELDS_020, FIELDS_120) {}
  lemma Apart020_130() ensures DisjointNames(FIELDS_020, FIELDS_130) {}
  lemma Apart030_040() ensures DisjointNames(FIELDS_030, FIELDS_040) {}
  lemma Apart030_050() ensures DisjointNames(FIELDS_030, FIELDS_050) {}
  lemma Apart030_060() ensures DisjointNames(FIELDS_030, FIELDS_060) {}
  lemma Apart030_070() ensures DisjointNames(FIELDS_030, FIELDS_070) {}
  lemma Apart030_080() ensures DisjointNames(FIELDS_030, FIELDS_080) {}
  lemma Apart030_090() ensures DisjointNames(FIELDS_030, FIELDS_090) {}
  lemma Apart030_100() ensures DisjointNames(FIELDS_030, FIELDS_100) {}
  lemma Apart030_110() ensures DisjointNames(FIELDS_030, FIELDS_110) {}
  lemma Apart030_120() ensures DisjointNames(FIELDS_030, FIELDS_120) {}
  lemma Apart030_130() ensures DisjointNames(FIELDS_030, FIELDS_130) {}
  lemma Apart040_050() ensures DisjointNames(FIELDS_040, FIELDS_050) {}
  lemma Apart040_060() ensures DisjointNames(FIELDS_040, FIELDS_060) {}
  lemma Apart040_070() ensures DisjointNames(FIELDS_040, FIELDS_070) {}
  lemma Apart040_080() ensures DisjointNames(FIELDS_040, FIELDS_080) {}
  lemma Apart040_090() ensures DisjointNames(FIELDS_040, FIELDS_090) {}
  lemma Apart040_100() ensures DisjointNames(FIELDS_040, FIELDS_100) {}
  lemma Apart040_110() ensures DisjointNames(FIELDS_040, FIELDS_110) {}
  lemma Apart040_120() ensures DisjointNames(FIELDS_040, FIELDS_120) {}
  lemma Apart040_130() ensures DisjointNames(FIELDS_040, FIELDS_130) {}
  lemma Apart050_060() ensures DisjointNames(FIELDS_050, FIELDS_060) {}
  lemma Apart050_070() ensures DisjointNames(FIELDS_050, FIELDS_070) {}
  lemma Apart050_080() ensures DisjointNames(FIELDS_050, FIELDS_080) {}
  lemma Apart050_090() ensures DisjointNames(FIELDS_050, FIELDS_090) {}
  lemma Apart050_100() ensures DisjointNames(FIELDS_050, FIELDS_100) {}
  lemma Apart050_110() ensures DisjointNames(FIELDS_050, FIELDS_110) {}
  lemma Apart050_120() ensures DisjointNames(FIELDS_050, FIELDS_120) {}
  lemma Apart050_130() ensures DisjointNames(FIELDS_050, FIELDS_130) {}
  lemma Apart060_070() ensures DisjointNames(FIELDS_060, FIELDS_070) {}
  lemma Apart060_080() ensures DisjointNames(FIELDS_060, FIELDS_080) {}
  lemma Apart060_090() ensures DisjointNames(FIELDS_060, FIELDS_090) {}
  lemma Apart060_100() ensures DisjointNames(FIELDS_060, FIELDS_100) {}
  lemma Apart060_110() ensures DisjointNames(FIELDS_060, FIELDS_110) {}
  lemma Apart060_120() ensures DisjointNames(FIELDS_060, FIELDS_120) {}
  lemma Apart060_130() ensures DisjointNames(FIELDS_060, FIELDS_130) {}
  lemma Apart070_080() ensures DisjointNames(FIELDS_070, FIELDS_080) {}
  lemma Apart070_090() ensures DisjointNames(FIELDS_070, FIELDS_090) {}
  lemma Apart070_100() ensures DisjointNames(FIELDS_070, FIELDS_100) {}
  lemma Apart070_110() ensures DisjointNames(FIELDS_070, FIELDS_110) {}
  lemma Apart070_120() ensures DisjointNames(FIELDS_070, FIELDS_120) {}
  lemma Apart070_130() ensures DisjointNames(FIELDS_070, FIELDS_130) {}
  lemma Apart080_090() ensures DisjointNames(FIELDS_080, FIELDS_090) {}
  lemma Apart080_100() ensures DisjointNames(FIELDS_080, FIELDS_100) {}
  lemma Apart080_110() ensures DisjointNames(FIELDS_080, FIELDS_110) {}
  lemma Apart080_120() ensures DisjointNames(FIELDS_080, FIELDS_120) {}
  lemma Apart080_130() ensures DisjointNames(FIELDS_080, FIELDS_130) {}
  lemma Apart090_100() ensures DisjointNames(FIELDS_090, FIELDS_100) {}
  lemma Apart090_110() ensures DisjointNames(FIELDS_090, FIELDS_110) {}
  lemma Apart090_120() ensures DisjointNames(FIELDS_090, FIELDS_120) {}
  lemma Apart090_130() ensures DisjointNames(FIELDS_090, FIELDS_130) {}
  lemma Apart100_110() ensures DisjointNames(FIELDS_100, FIELDS_110) {}
  lemma Apart100_120() ensures DisjointNames(FIELDS_100, FIELDS_120) {}
  lemma Apart100_130() ensures DisjointNames(FIELDS_100, FIELDS_130) {}
  lemma Apart110_120() ensures DisjointNames(FIELDS_110, FIELDS_120) {}
  lemma Apart110_130() ensures DisjointNames(FIELDS_110, FIELDS_130) {}
  lemma Apart120_130() ensures DisjointNames(FIELDS_120, FIELDS_130) {}

  lemma Prefix010Distinct()
    ensures DistinctNames(FIELDS_000 + FIELDS_010)
  {
    Distinct000();
    Distinct010();
    Apart000_010();
    DistinctAppend(FIELDS_000, FIELDS_010);
  }

  lemma Prefix020Distinct()
    ensures DistinctNames(FIELDS_000 + FIELDS_010 + FIELDS_020)
  {
    Prefix010Distinct();
    Distinct020();
    Apart000_020(); Apart010_020();
    DisjointAppend(FIELDS_000, FIELDS_010, FIELDS_020);
    DistinctAppend(FIELDS_000 + FIELDS_010, FIELDS_020);
  }

  lemma Prefix030Distinct()
    ensures DistinctNames(FIELDS_000 + FIELDS_010 + FIELDS_020 + FIELDS_030)
  {
    Prefix020Distinct();
    Distinct030();
    Apart000_030(); Apart010_030(); Apart020_030();
    DisjointAppend(FIELDS_000, FIELDS_010, FIELDS_030);
    DisjointAppend(FIELDS_000 + FIELDS_010, FIELDS_020, FIELDS_030);
    DistinctAppend(FIELDS_000 + FIELDS_010 + FIELDS_020, FIELDS_030);
  }

  lemma Prefix040Distinct()
    ensures DistinctNames(FIELDS_000 + FIELDS_010 + FIELDS_020 + FIELDS_030 + FIELDS_040)
  {
    Prefix030Distinct();
    Distinct040();
    Apart000_040(); Apart010_040(); Apart020_040(); Apart030_040();
    DisjointAppend(FIELDS_000, FIELDS_010, FIELDS_040);
    DisjointAppend(FIELDS_000 + FIELDS_010, FIELDS_020, FIELDS_040);
    DisjointAppend(FIELDS_000 + FIELDS_010 + FIELDS_020, FIELDS_030, FIELDS_040);
    DistinctAppend(FIELDS_000 + FIELDS_010 + FIELDS_020 + FIELDS_030, FIELDS_040);
  }

  lemma Prefix050Distinct()
    ensures DistinctNames(FIELDS_000 + FIELDS_010 + FIELDS_020 + FIELDS_030 + FIELDS_040 + FIELDS_050)
  {
    Prefix040Distinct();
    Distinct050();
    Apart000_050(); Apart010_050(); Apart020_050(); Apart030_050(); Apart040_050();
    DisjointAppend(FIELDS_000, FIELDS_010, FIELDS_050);
    DisjointAppend(FIELDS_000 + FIELDS_010, FIELDS_020, FIELDS_050);
    DisjointAppend(FIELDS_000 + FIELDS_010 + FIELDS_020, FIELDS_030, FIELDS_050);
    DisjointAppend(FIELDS_000 + FIELDS_010 + FIELDS_020 + FIELDS_030, FIELDS_040, FIELDS_050);
    DistinctAppend(FIELDS_000 + FIELDS_010 + FIELDS_020 + FIELDS_030 + FIELDS_040, FIELDS_050);
  }

  lemma Prefix060Distinct()
    ensures DistinctNames(FIELDS_000 + FIELDS_010 + FIELDS_020 + FIELDS_030 + FIELDS_040 + FIELDS_050 + FIELDS_060)
  {
    Prefix050Distinct();
    Distinct060();
    Apart000_060(); Apart010_060(); Apart020_060(); Apart030_060(); Apart040_060(); Apart050_060();
    DisjointAppend(FIELDS_000, FIELDS_010, FIELDS_060);
    DisjointAppend(FIELDS_000 + FIELDS_010, FIELDS_020, FIELDS_060);
    DisjointAppend(FIELDS_000 + FIELDS_010 + FIELDS_020, FIELDS_030, FIELDS_060);
    DisjointAppend(FIELDS_000 + FIELDS_010 + FIELDS_020 + FIELDS_030, FIELDS_040, FIELDS_060);
    DisjointAppend(FIELDS_000 + FIELDS_010 + FIELDS_020 + FIELDS_030 + FIELDS_040, FIELDS_050, FIELDS_060);
    DistinctAppend(FIELDS_000 + FIELDS_010 + FIELDS_020 + FIELDS_030 + FIELDS_040 + FIELDS_050, FIELDS_060);
  }

  lemma Prefix070Distinct()
    ensures DistinctNames(FIELDS_000 + FIELDS_010 + FIELDS_020 + FIELDS_030 + FIELDS_040 + FIELDS_050 + FIELDS_060 + FIELDS_070)
  {
    Prefix060Distinct();
    Distinct070();
    Apart000_070(); Apart010_070(); Apart020_070(); Apart030_070(); Apart040_070(); Apart050_070(); Apart060_070();
    DisjointAppend(FIELDS_000, FIELDS_010, FIELDS_070);
    DisjointAppend(FIELDS_000 + FIELDS_010, FIELDS_020, FIELDS_070);
    DisjointAppend(FIELDS_000 + FIELDS_010 + FIELDS_020, FIELDS_030, FIELDS_070);
    DisjointAppend(FIELDS_000 + FIELDS_010 + FIELDS_020 + FIELDS_030, FIELDS_040, FIELDS_070);
    DisjointAppend(FIELDS_000 + FIELDS_010 + FIELDS_020 + FIELDS_030 + FIELDS_040, FIELDS_050, FIELDS_070);
    DisjointAppend(FIELDS_000 + FIELDS_010 + FIELDS_020 + FIELDS_030 + FIELDS_040 + FIELDS_050, FIELDS_060, FIELDS_070);
    DistinctAppend(FIELDS_000 + FIELDS_010 + FIELDS_020 + FIELDS_030 + FIELDS_040 + FIELDS_050 + FIELDS_060, FIELDS_070);
  }

  lemma Prefix080Distinct()
    ensures DistinctNames(FIELDS_000 + FIELDS_010 + FIELDS_020 + FIELDS_030 + FIELDS_040 + FIELDS_050 + FIELDS_060 + FIELDS_070 + FIELDS_080)
  {
    Prefix070Distinct();
    Distinct080();
    Apart000_080(); Apart010_080(); Apart020_080(); Apart030_080(); Apart040_080(); Apart050_080(); Apart060_080(); Apart070_080();
    DisjointAppend(FIELDS_000, FIELDS_010, FIELDS_080);
    DisjointAppend(FIELDS_000 + FIELDS_010, FIELDS_020, FIELDS_080);
    DisjointAppend(FIELDS_000 + FIELDS_010 + FIELDS_020, FIELDS_030, FIELDS_080);
    DisjointAppend(FIELDS_000 + FIELDS_010 + FIELDS_020 + FIELDS_030, FIELDS_040, FIELDS_080);
    DisjointAppend(FIELDS_000 + FIELDS_010 + FIELDS_020 + FIELDS_030 + FIELDS_040, FIELDS_050, FIELDS_080);
    DisjointAppend(FIELDS_000 + FIELDS_010 + FIELDS_020 + FIELDS_030 + FIELDS_040 + FIELDS_050, FIELDS_060, FIELDS_080);
    DisjointAppend(FIELDS_000 + FIELDS_010 + FIELDS_020 + FIELDS_030 + FIELDS_040 + FIELDS_050 + FIELDS_060, FIELDS_070, FIELDS_080);
    DistinctAppend(FIELDS_000 + FIELDS_010 + FIELDS_020 + FIELDS_030 + FIELDS_040 + FIELDS_050 + FIELDS_060 + FIELDS_070, FIELDS_080);
  }

  lemma Prefix090Distinct()
    ensures DistinctNames(FIELDS_000 + FIELDS_010 + FIELDS_020 + FIELDS_030 + FIELDS_040 + FIELDS_050 + FIELDS_060 + FIELDS_070 + FIELDS_080 + FIELDS_090)
  {
    Prefix080Distinct();
    Distinct090();
    Apart000_090(); Apart010_090(); Apart020_090(); Apart030_090(); Apart040_090(); Apart050_090(); Apart060_090(); Apart070_090(); Apart080_090();
    DisjointAppend(FIELDS_000, FIELDS_010, FIELDS_090);
    DisjointAppend(FIELDS_000 + FIELDS_010, FIELDS_020, FIELDS_090);
    DisjointAppend(FIELDS_000 + FIELDS_010 + FIELDS_020, FIELDS_030, FIELDS_090);
    DisjointAppend(FIELDS_000 + FIELDS_010 + FIELDS_020 + FIELDS_030, FIELDS_040, FIELDS_090);
    DisjointAppend(FIELDS_000 + FIELDS_010 + FIELDS_020 + FIELDS_030 + FIELDS_040, FIELDS_050, FIELDS_090);
    DisjointAppend(FIELDS_000 + FIELDS_010 + FIELDS_020 + FIELDS_030 + FIELDS_040 + FIELDS_050, FIELDS_060, FIELDS_090);
    DisjointAppend(FIELDS_000 + FIELDS_010 + FIELDS_020 + FIELDS_030 + FIELDS_040 + FIELDS_050 + FIELDS_060, FIELDS_070, FIELDS_090);
    DisjointAppend(FIELDS_000 + FIELDS_010 + FIELDS_020 + FIELDS_030 + FIELDS_040 + FIELDS_050 + FIELDS_060 + FIELDS_070, FIELDS_080, FIELDS_090);
    DistinctAppend(FIELDS_000 + FIELDS_010 + FIELDS_020 + FIELDS_030 + FIELDS_040 + FIELDS_050 + FIELDS_060 + FIELDS_070 + FIELDS_080, FIELDS_090);
  }

  lemma Prefix100Distinct()
    ensures DistinctNames(FIELDS_000 + FIELDS_010 + FIELDS_020 + FIELDS_030 + FIELDS_040 + FIELDS_050 + FIELDS_060 + FIELDS_070 + FIELDS_080 + FIELDS_090 + FIELDS_100)
  {
    Prefix090Distinct();
    Distinct100();
    Apart000_100(); Apart010_100(); Apart020_100(); Apart030_100(); Apart040_100(); Apart050_100(); Apart060_100(); Apart070_100(); Apart080_100(); Apart090_100();
    DisjointAppend(FIELDS_000, FIELDS_010, FIELDS_100);
    DisjointAppend(FIELDS_000 + FIELDS_010, FIELDS_020, FIELDS_100);
    DisjointAppend(FIELDS_000 + FIELDS_010 + FIELDS_020, FIELDS_030, FIELDS_100);
    DisjointAppend(FIELDS_000 + FIELDS_010 + FIELDS_020 + FIELDS_030, FIELDS_040, FIELDS_100);
    DisjointAppend(FIELDS_000 + FIELDS_010 + FIELDS_020 + FIELDS_030 + FIELDS_040, FIELDS_050, FIELDS_100);
    DisjointAppend(FIELDS_000 + FIELDS_010 + FIELDS_020 + FIELDS_030 + FIELDS_040 + FIELDS_050, FIELDS_060, FIELDS_100);
    DisjointAppend(FIELDS_000 + FIELDS_010 + FIELDS_020 + FIELDS_030 + FIELDS_040 + FIELDS_050 + FIELDS_060, FIELDS_070, FIELDS_100);
    DisjointAppend(FIELDS_000 + FIELDS_010 + FIELDS_020 + FIELDS_030 + FIELDS_040 + FIELDS_050 + FIELDS_060 + FIELDS_070, FIELDS_080, FIELDS_100);
    DisjointAppend(FIELDS_000 + FIELDS_010 + FIELDS_020 + FIELDS_030 + FIELDS_040 + FIELDS_050 + FIELDS_060 + FIELDS_070 + FIELDS_080, FIELDS_090, FIELDS_100);
    DistinctAppend(FIELDS_000 + FIELDS_010 + FIELDS_020 + FIELDS_030 + FIELDS_040 + FIELDS_050 + FIELDS_060 + FIELDS_070 + FIELDS_080 + FIELDS_090, FIELDS_100);
  }

  lemma Prefix110Distinct()
    ensures DistinctNames(FIELDS_000 + FIELDS_010 + FIELDS_020 + FIELDS_030 + FIELDS_040 + FIELDS_050 + FIELDS_060 + FIELDS_070 + FIELDS_080 + FIELDS_090 + FIELDS_100 + FIELDS_110)
  {
    Prefix100Distinct();
    Distinct110();
    Apart000_110(); Apart010_110(); Apart020_110(); Apart030_110(); Apart040_110(); Apart050_110(); Apart060_110(); Apart070_110(); Apart080_110(); Apart090_110(); Apart100_110();
    DisjointAppend(FIELDS_000, FIELDS_010, FIELDS_110);
    DisjointAppend(FIELDS_000 + FIELDS_010, FIELDS_020, FIELDS_110);
    DisjointAppend(FIELDS_000 + FIELDS_010 + FIELDS_020, FIELDS_030, FIELDS_110);
    DisjointAppend(FIELDS_000 + FIELDS_010 + FIELDS_020 + FIELDS_030, FIELDS_040, FIELDS_110);
    DisjointAppend(FIELDS_000 + FIELDS_010 + FIELDS_020 + FIELDS_030 + FIELDS_040, FIELDS_050, FIELDS_110);
    DisjointAppend(FIELDS_000 + FIELDS_010 + FIELDS_020 + FIELDS_030 + FIELDS_040 + FIELDS_050, FIELDS_060, FIELDS_110);
    DisjointAppend(FIELDS_000 + FIELDS_010 + FIELDS_020 + FIELDS_030 + FIELDS_040 + FIELDS_050 + FIELDS_060, FIELDS_070, FIELDS_110);
    DisjointAppend(FIELDS_000 + FIELDS_010 + FIELDS_020 + FIELDS_030 + FIELDS_040 + FIELDS_050 + FIELDS_060 + FIELDS_070, FIELDS_080, FIELDS_110);
    DisjointAppend(FIELDS_000 + FIELDS_010 + FIELDS_020 + FIELDS_030 + FIELDS_040 + FIELDS_050 + FIELDS_060 + FIELDS_070 + FIELDS_080, FIELDS_090, FIELDS_110);
    DisjointAppend(FIELDS_000 + FIELDS_010 + FIELDS_020 + FIELDS_030 + FIELDS_040 + FIELDS_050 + FIELDS_060 + FIELDS_070 + FIELDS_080 + FIELDS_090, FIELDS_100, FIELDS_110);
    DistinctAppend(FIELDS_000 + FIELDS_010 + FIELDS_020 + FIELDS_030 + FIELDS_040 + FIELDS_050 + FIELDS_060 + FIELDS_070 + FIELDS_080 + FIELDS_090 + FIELDS_100, FIELDS_110);
  }

  lemma Prefix120Distinct()
    ensures DistinctNames(FIELDS_000 + FIELDS_010 + FIELDS_020 + FIELDS_030 + FIELDS_040 + FIELDS_050 + FIELDS_060 + FIELDS_070 + FIELDS_080 + FIELDS_090 + FIELDS_100 + FIELDS_110 + FIELDS_120)
  {
    Prefix110Distinct();
    Distinct120();
    Apart000_120(); Apart010_120(); Apart020_120(); Apart030_120(); Apart040_120(); Apart050_120(); Apart060_120(); Apart070_120(); Apart080_120(); Apart090_120(); Apart100_120(); Apart110_120();
    DisjointAppend(FIELDS_000, FIELDS_010, FIELDS_120);
    DisjointAppend(FIELDS_000 + FIELDS_010, FIELDS_020, FIELDS_120);
    DisjointAppend(FIELDS_000 + FIELDS_010 + FIELDS_020, FIELDS_030, FIELDS_120);
    DisjointAppend(FIELDS_000 + FIELDS_010 + FIELDS_020 + FIELDS_030, FIELDS_040, FIELDS_120);
    DisjointAppend(FIELDS_000 + FIELDS_010 + FIELDS_020 + FIELDS_030 + FIELDS_040, FIELDS_050, FIELDS_120);
    DisjointAppend(FIELDS_000 + FIELDS_010 + FIELDS_020 + FIELDS_030 + FIELDS_040 + FIELDS_050, FIELDS_060, FIELDS_120);
    DisjointAppend(FIELDS_000 + FIELDS_010 + FIELDS_020 + FIELDS_030 + FIELDS_040 + FIELDS_050 + FIELDS_060, FIELDS_070, FIELDS_120);
    DisjointAppend(FIELDS_000 + FIELDS_010 + FIELDS_020 + FIELDS_030 + FIELDS_040 + FIELDS_050 + FIELDS_060 + FIELDS_070, FIELDS_080, FIELDS_120);
    DisjointAppend(FIELDS_000 + FIELDS_010 + FIELDS_020 + FIELDS_030 + FIELDS_040 + FIELDS_050 + FIELDS_060 + FIELDS_070 + FIELDS_080, FIELDS_090, FIELDS_120);
    DisjointAppend(FIELDS_000 + FIELDS_010 + FIELDS_020 + FIELDS_030 + FIELDS_040 + FIELDS_050 + FIELDS_060 + FIELDS_070 + FIELDS_080 + FIELDS_090, FIELDS_100, FIELDS_120);
    DisjointAppend(FIELDS_000 + FIELDS_010 + FIELDS_020 + FIELDS_030 + FIELDS_040 + FIELDS_050 + FIELDS_060 + FIELDS_070 + FIELDS_080 + FIELDS_090 + FIELDS_100, FIELDS_110, FIELDS_120);
    DistinctAppend(FIELDS_000 + FIELDS_010 + FIELDS_020 + FIELDS_030 + FIELDS_040 + FIELDS_050 + FIELDS_060 + FIELDS_070 + FIELDS_080 + FIELDS_090 + FIELDS_100 + FIELDS_110, FIELDS_120);
  }

  lemma Prefix130Distinct()
    ensures DistinctNames(FIELDS_000 + FIELDS_010 + FIELDS_020 + FIELDS_030 + FIELDS_040 + FIELDS_050 + FIELDS_060 + FIELDS_070 + FIELDS_080 + FIELDS_090 + FIELDS_100 + FIELDS_110 + FIELDS_120 + FIELDS_130)
  {
    Prefix120Distinct();
    Distinct130();
    Apart000_130(); Apart010_130(); Apart020_130(); Apart030_130(); Apart040_130(); Apart050_130(); Apart060_130(); Apart070_130(); Apart080_130(); Apart090_130(); Apart100_130(); Apart110_130(); Apart120_130();
    DisjointAppend(FIELDS_000, FIELDS_010, FIELDS_130);
    DisjointAppend(FIELDS_000 + FIELDS_010, FIELDS_020, FIELDS_130);
    DisjointAppend(FIELDS_000 + FIELDS_010 + FIELDS_020, FIELDS_030, FIELDS_130);
    DisjointAppend(FIELDS_000 + FIELDS_010 + FIELDS_020 + FIELDS_030, FIELDS_040, FIELDS_130);
    DisjointAppend(FIELDS_000 + FIELDS_010 + FIELDS_020 + FIELDS_030 + FIELDS_040, FIELDS_050, FIELDS_130);
    DisjointAppend(FIELDS_000 + FIELDS_010 + FIELDS_020 + FIELDS_030 + FIELDS_040 + FIELDS_050, FIELDS_060, FIELDS_130);
    DisjointAppend(FIELDS_000 + FIELDS_010 + FIELDS_020 + FIELDS_030 + FIELDS_040 + FIELDS_050 + FIELDS_060, FIELDS_070, FIELDS_130);
    DisjointAppend(FIELDS_000 + FIELDS_010 + FIELDS_020 + FIELDS_030 + FIELDS_040 + FIELDS_050 + FIELDS_060 + FIELDS_070, FIELDS_080, FIELDS_130);
    DisjointAppend(FIELDS_000 + FIELDS_010 + FIELDS_020 + FIELDS_030 + FIELDS_040 + FIELDS_050 + FIELDS_060 + FIELDS_070 + FIELDS_080, FIELDS_090, FIELDS_130);
    DisjointAppend(FIELDS_000 + FIELDS_010 + FIELDS_020 + FIELDS_030 + FIELDS_040 + FIELDS_050 + FIELDS_060 + FIELDS_070 + FIELDS_080 + FIELDS_090, FIELDS_100, FIELDS_130);
    DisjointAppend(FIELDS_000 + FIELDS_010 + FIELDS_020 + FIELDS_030 + FIELDS_040 + FIELDS_050 + FIELDS_060 + FIELDS_070 + FIELDS_080 + FIELDS_090 + FIELDS_100, FIELDS_110, FIELDS_130);
    DisjointAppend(FIELDS_000 + FIELDS_010 + FIELDS_020 + FIELDS_030 + FIELDS_040 + FIELDS_050 + FIELDS_060 + FIELDS_070 + FIELDS_080 + FIELDS_090 + FIELDS_100 + FIELDS_110, FIELDS_120, FIELDS_130);
    DistinctAppend(FIELDS_000 + FIELDS_010 + FIELDS_020 + FIELDS_030 + FIELDS_040 + FIELDS_050 + FIELDS_060 + FIELDS_070 + FIELDS_080 + FIELDS_090 + FIELDS_100 + FIELDS_110 + FIELDS_120, FIELDS_130);
  }

  /** The layout of `_HdrStruc`, position by position. */
  lemma Layout()
    ensures |HDR_STRUC| == FIELD_COUNT
    ensures PlacedFrom(HDR_STRUC, 0)
  {
    Placed000(); Placed010(); Placed020(); Placed030(); Placed040(); Placed050(); Placed060(); Placed070(); Placed080(); Placed090(); Placed100(); Placed110(); Placed120(); Placed130();
    PlacedAppend(FIELDS_000, FIELDS_010, 0);
    PlacedAppend(FIELDS_000 + FIELDS_010, FIELDS_020, 0);
    PlacedAppend(FIELDS_000 + FIELDS_010 + FIELDS_020, FIELDS_030, 0);
    PlacedAppend(FIELDS_000 + FIELDS_010 + FIELDS_020 + FIELDS_030, FIELDS_040, 0);
    PlacedAppend(FIELDS_000 + FIELDS_010 + FIELDS_020 + FIELDS_030 + FIELDS_040, FIELDS_050, 0);
    PlacedAppend(FIELDS_000 + FIELDS_010 + FIELDS_020 + FIELDS_030 + FIELDS_040 + FIELDS_050, FIELDS_060, 0);
    PlacedAppend(FIELDS_000 + FIELDS_010 + FIELDS_020 + FIELDS_030 + FIELDS_040 + FIELDS_050 + FIELDS_060, FIELDS_070, 0);
    PlacedAppend(FIELDS_000 + FIELDS_010 + FIELDS_020 + FIELDS_030 + FIELDS_040 + FIELDS_050 + FIELDS_060 + FIELDS_070, FIELDS_080, 0);
    PlacedAppend(FIELDS_000 + FIELDS_010 + FIELDS_020 + FIELDS_030 + FIELDS_040 + FIELDS_050 + FIELDS_060 + FIELDS_070 + FIELDS_080, FIELDS_090, 0);
    PlacedAppend(FIELDS_000 + FIELDS_010 + FIELDS_020 + FIELDS_030 + FIELDS_040 + FIELDS_050 + FIELDS_060 + FIELDS_070 + FIELDS_080 + FIELDS_090, FIELDS_100, 0);
    PlacedAppend(FIELDS_000 + FIELDS_010 + FIELDS_020 + FIELDS_030 + FIELDS_040 + FIELDS_050 + FIELDS_060 + FIELDS_070 + FIELDS_080 + FIELDS_090 + FIELDS_100, FIELDS_110, 0);
    PlacedAppend(FIELDS_000 + FIELDS_010 + FIELDS_020 + FIELDS_030 + FIELDS_040 + FIELDS_050 + FIELDS_060 + FIELDS_070 + FIELDS_080 + FIELDS_090 + FIELDS_100 + FIELDS_110, FIELDS_120, 0);
    PlacedAppend(FIELDS_000 + FIELDS_010 + FIELDS_020 + FIELDS_030 + FIELDS_040 + FIELDS_050 + FIELDS_060 + FIELDS_070 + FIELDS_080 + FIELDS_090 + FIELDS_100 + FIELDS_110 + FIELDS_120, FIELDS_130, 0);
  }

  /** No two entries of `_HdrStruc` share a name. */
  lemma NamesDistinct()
    ensures DistinctNames(HDR_STRUC)
  {
    Prefix130Distinct();
  }

  /** `_HdrStruc` is a valid header table. */
  lemma SchemaValid()
    ensures ValidSchema(HDR_STRUC)
  {
    Layout();
    NamesDistinct();
    PlacedValid(HDR_STRUC);
  }

  /** `_HdrStruc`, with its validity carried by the contract: what the record's methods walk. */
  function Table(): (t: seq<FieldDesc>)
    ensures t == HDR_STRUC && ValidSchema(t)
  {
    SchemaValid();
    HDR_STRUC
  }

  /** KSTNM, the station name, is the first string field. */
  lemma KstnmEntry()
    ensures HDR_STRUC[110] == FieldDesc("KSTNM", 8, Str, StrVal(UNSET_TEXT_8))
  {
    Layout();
    var p := FIELDS_000 + FIELDS_010 + FIELDS_020 + FIELDS_030 + FIELDS_040 + FIELDS_050 + FIELDS_060 + FIELDS_070 + FIELDS_080 + FIELDS_090 + FIELDS_100;
    assert |p| == 110;
    assert HDR_STRUC == p + FIELDS_110 + FIELDS_120 + FIELDS_130;
    assert (p + FIELDS_110)[110] == FIELDS_110[0];
  }
}
