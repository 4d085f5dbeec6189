# SAC trace codec, modelled in Dafny

SacLib reads and writes seismic traces in the SAC binary format. A file
starts with a fixed header: 133 named fields in a fixed order, 632 bytes in
all. The fields are 70 single-precision floats, 40 32-bit integers and 23
fixed-width strings. After the header come `NPTS` 4-byte samples. A second
block of `NPTS` samples follows when `LEVEN` is not 1 or `IFTYPE` is 2 or 3.
The same byte order, little- or big-endian, applies to every field and every
sample.

The in-memory `Sac` record holds:

- a header map `Head`;
- the sample blocks `Data[0]` and `Data[1]`;
- the byte order `Byte`.

The header table `_HdrStruc` says, for each field, its name, width, kind and
default. Both the reader and the writer walk it in order. The record can be
built from defaults or from a file, read, written behind an overwrite guard,
deep-copied, and asked which header fields differ from their defaults.

A small calendar module comes with it. It covers the Gregorian leap rule,
leap years before a year, day of year, and seconds since 1 January of year 1.

The project is split in modules that follow the program:

- `Wire`: the bytes of one float word, int32 or string in a byte order (`_fread`/`_fwrite`);
- `Schema`: what a header table is, field offsets, default headers, generic over the table;
- `HdrTable`: the 133-entry `_HdrStruc` literal and the proof that it is a valid table;
- `Codec`: the header and sample layout as functions on byte sequences;
  - `Scan` is the effect of a read, including one that stops short;
  - `Encode` is what a write emits;
- `SacRecord`: the `Sac` class with `Read`, `Write`, `Copy` and `Print`, written as methods with loops over the table;
- `Calendar`: the helpers of `sacutils.py`;
- `Seqs`, `Maps`, `Wrappers`: small generic lemmas and an `Option` type.

Floats are modelled by their 32-bit patterns. Integers are exact. A file
system is a map from names to byte sequences.

A string field is written the way `pack('Ns')` writes it: cut to the
field's width, or padded with NUL bytes. Reading it back gives that cut or
padded string, so a header comes back exactly when its strings already have
their widths (as every default does).

The header has 133 fields in 632 bytes (158 4-byte words). A read that
raises part-way leaves the record updated as far as it got, and the model
reports this with a `Truncated` status.

## Model

| member | source | states |
|---|---|---|
| Wire.EncodeWord | libs/SacLib.py:204-212 | a float or int word is written as exactly 4 bytes |
| Wire.DecodeWord | libs/SacLib.py:189-199 | the word `unpack` reads from 4 bytes: its low byte is the first byte in '<' order and the last in '>' order, and its high byte the other end; WordRoundTrip and BytesRoundTrip make it the inverse of EncodeWord |
| Wire.BigEndianIsReversed | libs/SacLib.py:194-195 | the '>' bytes of a word are its '<' bytes in reverse order |
| Wire.WordRoundTrip | libs/SacLib.py:189-212 | unpacking the 4 bytes packed for a word gives the word back, in each byte order |
| Wire.BytesRoundTrip | libs/SacLib.py:189-212 | every 4 bytes are the packing of the word they unpack to; reading loses nothing |
| Wire.ToSigned | libs/SacLib.py:197 | an 'i' field always decodes to a value in the int32 range |
| Wire.SignedUnsignedInverse | libs/SacLib.py:197 | the two's-complement pattern of an int32 and the int32 of a pattern are inverse |
| Wire.EncodeInt32 | libs/SacLib.py:210 | an int32 is packed as 4 bytes |
| Wire.DecodeInt32 | libs/SacLib.py:197 | 4 bytes unpack to an int32 |
| Wire.Int32RoundTrip | libs/SacLib.py:189-212 | every int32 comes back from its 4 bytes in each byte order |
| Wire.TextRoundTrip | libs/SacLib.py:189-212 | a byte string comes back unchanged from its bytes |
| Wire.TextBytesRoundTrip | libs/SacLib.py:189-212 | every byte sequence is the packing of the text it unpacks to |
| Wire.Fixed | libs/SacLib.py:204-212 | the string `pack('Ns')` stores has exactly the width, and stays a byte string |
| Wire.FixedChars | libs/SacLib.py:204-212 | each stored character is the string's own where it has one, NUL past its end |
| Wire.FixedExact | libs/SacLib.py:204-212 | a string of exactly the width is stored unchanged |
| Wire.EncodeFixed | libs/SacLib.py:204-212 | packing a string of any length emits exactly the width in bytes |
| Wire.FixedRoundTrip | libs/SacLib.py:189-212 | unpacking a packed string gives the string cut or NUL-padded to the width |
| Wire.FixedIdempotent | libs/SacLib.py:204-212 | cutting or padding twice is cutting or padding once, and packs the same bytes |
| Schema.NamesUpToStep | libs/SacLib.py:221-353 | one more table entry adds exactly its name to the names passed |
| Schema.DisjointAppend | libs/SacLib.py:221-353 | names disjoint from a third list stay disjoint when two lists are joined |
| Schema.DistinctAppend | libs/SacLib.py:221-353 | two name-distinct lists with no shared name join into a name-distinct list |
| Schema.PlacedAppend | libs/SacLib.py:221-353 | position facts of two consecutive pieces of the table hold for their join |
| Schema.PlacedValid | libs/SacLib.py:221-353 | a 133-entry table laid out position by position with distinct names is a valid header table |
| Schema.Offset | libs/SacLib.py:94-95 | where the file cursor stands before field k: the sum of the widths of the fields before it, as each `_fread`/`_fwrite` call advances it; OffsetStep, OffsetMonotone and OffsetFormula give its steps and its closed form |
| Schema.OffsetStep | libs/SacLib.py:94-95 | field k occupies the bytes from its offset to its offset plus its width |
| Schema.OffsetMonotone | libs/SacLib.py:94-95 | field offsets never decrease along the table |
| Schema.OffsetFormula | libs/SacLib.py:221-353 | offset of field k is 4k up to the strings, 448 after KSTNM, then 8k - 432 |
| Schema.HeaderSize | libs/SacLib.py:221-353 | the field widths add up to the 632-byte header |
| Schema.Normal | libs/SacLib.py:189-212 | a value after a write and a read back fits its field exactly, and is the value itself when that already fits |
| Schema.DefaultsUpTo | libs/SacLib.py:72-73 | the header after k passes of the defaults loop of `__init__`; DefaultsUpToKeys and DefaultsUpToAt show that it holds exactly the first k names, each at its default |
| Schema.DefaultsUpToKeys | libs/SacLib.py:72-73 | after k passes the default loop has stored exactly the names of the first k fields |
| Schema.DefaultsUpToAt | libs/SacLib.py:72-73 | after k passes every field passed holds its default |
| Schema.DefaultsComplete | libs/SacLib.py:72-73 | the default header has every schema name and no other, each at its default, and can be written |
| HdrTable.Layout | libs/SacLib.py:221-353 | the table has 133 entries: 70 floats, 40 ints, 23 strings of 8 bytes except KEVNM of 16, with NPTS, IFTYPE and LEVEN at their places and defaults |
| HdrTable.NamesDistinct | libs/SacLib.py:221-353 | no two table entries share a name |
| HdrTable.SchemaValid | libs/SacLib.py:221-353 | the table is a valid header table: well-formed entries, layout, distinct names, the three control fields |
| HdrTable.Table | libs/SacLib.py:221-353 | the table the record walks is `_HdrStruc` and is valid |
| HdrTable.KstnmEntry | libs/SacLib.py:331 | KSTNM is the first string field: 8 bytes, default "-12345  " |
| Codec.EncodeValue | libs/SacLib.py:204-212 | a value of its field's kind is written in exactly the field's width, a string cut or NUL-padded |
| Codec.DecodeValue | libs/SacLib.py:189-199 | the bytes of a field decode to a value of the field's kind and width |
| Codec.ValueRoundTrip | libs/SacLib.py:189-212 | reading back what was written for a field gives the value written, a string cut or NUL-padded to the width; a value of the exact width comes back unchanged |
| Codec.NormalBytes | libs/SacLib.py:204-212 | writing the value as it reads back emits the same bytes as writing the value itself |
| Codec.ValueBytesRoundTrip | libs/SacLib.py:189-212 | writing back a value that was read reproduces its bytes |
| Codec.HeaderBytes | libs/SacLib.py:136-137 | the header loop of Write emits exactly as many bytes as the widths of the fields it went through |
| Codec.ReadField | libs/SacLib.py:94-95 | the value read for field k fits field k |
| Codec.HeaderBytesField | libs/SacLib.py:136-137 | field j of the written header sits, encoded, at its offset |
| Codec.HeaderBytesLast | libs/SacLib.py:136-137 | the last field the header loop went through is the last thing it emitted, at its offset |
| Codec.HeaderBytesGrow | libs/SacLib.py:136-137 | one more turn of the header loop leaves the bytes already emitted alone |
| Codec.DecodeHeader | libs/SacLib.py:94-95 | the entries stored by the first k passes of the header loop of `Read`; DecodeHeaderField and DecodeHeaderKeys show that it holds exactly the first k names, each decoded from its own bytes |
| Codec.DecodeHeaderField | libs/SacLib.py:94-95 | after k passes of the header loop of Read, each field passed holds the value decoded from its bytes |
| Codec.DecodeHeaderKeys | libs/SacLib.py:94-95 | after k passes the header holds exactly the names of the first k fields |
| Codec.HeaderFieldRoundTrip | libs/SacLib.py:94-95 | reading a written header gives field j the value written for it, strings cut or NUL-padded, whatever follows the header |
| Codec.HeaderRoundTrip | libs/SacLib.py:94-95 | reading a written header gives every schema field the value written for it, strings cut or NUL-padded |
| Codec.ReadFieldBytes | libs/SacLib.py:94-95 | writing back the value read for a field reproduces its bytes |
| Codec.DecodedWritable | libs/SacLib.py:94-95 | a header read from a file can always be written again |
| Codec.HeaderBytesOfDecodedUpTo | libs/SacLib.py:94-95 | the first k fields of a header read from a file are written back as the file's first bytes |
| Codec.HeaderBytesOfDecoded | libs/SacLib.py:94-95 | a header read and written back is the same 632 bytes |
| Codec.DecodeHeaderPrefix | libs/SacLib.py:94-95 | reading a header looks at nothing past the fields it reads |
| Codec.FitFrom | libs/SacLib.py:94-95 | from field k on, the fields read all lie within the file, and the next one, if any, does not fit |
| Codec.FieldsRead | libs/SacLib.py:94-95 | Read stores exactly the fields that lie within the file; the next one is cut short |
| Codec.FieldsReadUnique | libs/SacLib.py:94-95 | the field count is fixed by those two conditions |
| Codec.DecodeSamples | libs/SacLib.py:98-99 | a block read from the file has exactly the requested number of samples |
| Codec.SampleBytes | libs/SacLib.py:140-146 | a written block takes 4 bytes per sample |
| Codec.DecodeSamplesAt | libs/SacLib.py:98-99 | sample i of a block is the word at byte off + 4i |
| Codec.SamplesRoundTrip | libs/SacLib.py:98-104 | a written block reads back as the same samples wherever it sits in the file |
| Codec.WordAt | libs/SacLib.py:99 | the word written after some bytes reads back from there |
| Codec.DecodeSamplesPrefix | libs/SacLib.py:98-99 | reading a block looks at nothing past its last sample |
| Codec.SampleCount | libs/SacLib.py:98 | the number of turns of `range(0, Head['NPTS'])`, NPTS or zero when NPTS is negative; ReadBlockExact, ScanCompleteCounts and ScanCompleteIff give it its meaning: a finished read holds exactly that many samples in each block it reads |
| Codec.SecondBlock | libs/SacLib.py:102 | the second-block test: a header with LEVEN = 1 and IFTYPE = 1 has no second block, and one with IFTYPE 2 or 3 has one; SameControl and OverlayControl say which fields decide it |
| Codec.ReadBlock | libs/SacLib.py:98-104 | the sample loop gets min(NPTS, whole samples left): all NPTS exactly when they fit, otherwise the next one is cut short |
| Codec.Encode | libs/SacLib.py:133-146 | a written file is the header widths plus 4 bytes per sample of each block |
| Codec.EncodeLength | libs/SacLib.py:133-146 | a written file is 632 bytes plus 4 per sample of each block |
| Codec.Blocks | libs/SacLib.py:98-104 | the two sample loops of `Read` after a whole header: at most NPTS samples per block, a second block only when the test holds and the first block is whole, and the read complete exactly when each block the header asks for is whole; BlocksOf and BlocksShort give the blocks of a written and of a short file |
| Codec.ReadBlockExact | libs/SacLib.py:98-104 | a written block followed by anything reads back whole |
| Codec.ReadBlockLast | libs/SacLib.py:98-104 | a written block that ends the file reads back whole |
| Codec.ReadBlockShort | libs/SacLib.py:98-104 | a block shorter than the count read for gives back what is there |
| Codec.ReadBlockPrefix | libs/SacLib.py:98-104 | reading a whole block looks at nothing past it |
| Codec.BlocksOf | libs/SacLib.py:98-104 | blocks of the lengths the header asks for, after the header, read back whole |
| Codec.BlocksShort | libs/SacLib.py:101-104 | a second block shorter than NPTS reads back as what is there and the read is incomplete |
| Codec.SameControl | libs/SacLib.py:98-102 | headers agreeing on the schema agree on the sample count and on the second-block rule |
| Codec.WholeHeader | libs/SacLib.py:94-104 | given the whole header, Read gets through every field and on to the samples |
| Codec.EncodedHeader | libs/SacLib.py:94-137 | a written header reads back with exactly the schema names, each with its value (strings cut or NUL-padded), and the same sample layout |
| Codec.NormalFieldsExact | libs/SacLib.py:94-95 | a header read back whose source strings have their widths holds exactly the values written |
| Codec.NormalControl | libs/SacLib.py:98-104 | cutting or padding strings leaves NPTS, IFTYPE and LEVEN, and so the sample layout, as written |
| Codec.Scan | libs/SacLib.py:77-107 | the effect of `Read` on a file's bytes: no block longer than NPTS, a second block only when the test holds after a whole first block, and a complete read only after a whole header and first block; ScanEncode, ScanCompleteIff and ScanPrefix give its round trip with Encode, when it completes, and that it ignores trailing bytes |
| Codec.ScanEncode | libs/SacLib.py:77-149 | reading back a written file gives every header field (strings cut or NUL-padded; exactly, when they have their widths) and both blocks, when the blocks have the lengths the header asks for |
| Codec.ScanCompleteIff | libs/SacLib.py:77-107 | a read finishes exactly when the file is as long as its own header says: the header plus NPTS samples, twice NPTS when a second block is asked for |
| Codec.ScanCompleteCounts | libs/SacLib.py:98-104 | a finished read has NPTS samples in Data[0], and NPTS or none in Data[1] as the rule says |
| Codec.ScanPrefix | libs/SacLib.py:77-107 | bytes after a complete file are never looked at |
| Codec.DroppedSecondBlock | libs/SacLib.py:102-146 | Data[1] written when the header does not ask for it is not read back |
| Codec.MissingSecondBlock | libs/SacLib.py:102-146 | when the header asks for a second block and Data[1] is shorter, the read stops in it with what was there |
| Codec.ShortHeader | libs/SacLib.py:94-95 | on a file shorter than the header, Read stores exactly the fields that fit and no samples |
| Codec.ReadBlockStop | libs/SacLib.py:98-104 | the sample loop stops with all NPTS samples or at the first one cut short, which is the block ReadBlock gives |
| Codec.OverlayControl | libs/SacLib.py:94-102 | entries already in Head do not affect the samples read: the fields just read decide |
| SacRecord.Changed | libs/SacLib.py:179-184 | no more lines than fields passed, each showing its field's current value |
| SacRecord.ChangedSource | libs/SacLib.py:179-184 | every line names one of the fields the loop went through |
| SacRecord.ChangedDistinct | libs/SacLib.py:179-184 | with distinct field names, no field is listed twice |
| SacRecord.ChangedMembers | libs/SacLib.py:179-184 | a (name, value) line is printed exactly when a field of that name holds that value and it is not the default |
| SacRecord.ChangedPrefix | libs/SacLib.py:180 | lines come out in schema order |
| SacRecord.ChangedOfDefaults | libs/SacLib.py:72-184 | a header at its defaults prints nothing |
| SacRecord.ChangedOnly | libs/SacLib.py:179-184 | a header with every field but one at its default prints that field's line alone |
| SacRecord.ChangedPair | libs/SacLib.py:179-184 | a header with every field but two at its default prints those two lines, in schema order |
| SacRecord.ChangedOne | libs/SacLib.py:179-184 | one field changed from the defaults prints exactly that line |
| SacRecord.ChangedTwo | libs/SacLib.py:179-184 | two fields changed from the defaults print exactly those lines, in schema order |
| SacRecord.ChangedExample | libs/SacLib.py:179-184 | defaults with NPTS 100 and KSTNM "TESTSTA " print exactly those two lines, NPTS first |
| SacRecord.Sac.constructor | libs/SacLib.py:32-73 | Sac() without a file: every schema field at its default and no other entry, no samples, byte order 'le' unless given |
| SacRecord.Sac.Blank | libs/SacLib.py:57-64 | the empty record __init__ starts from, with the byte order given or 'le' |
| SacRecord.Sac.Open | libs/SacLib.py:32-73 | Sac(File): no file name gives the defaults; a missing file fails with an empty record; otherwise the record is what reading the file gives |
| SacRecord.Sac.SetDefaults | libs/SacLib.py:72-73 | the defaults loop sets every schema field to its default and keeps other entries |
| SacRecord.Sac.Read | libs/SacLib.py:77-107 | sets the byte order first; a missing file changes nothing else; otherwise the fields read overwrite Head and the samples are appended to Data[0] and Data[1] |
| SacRecord.Sac.ReadFrom | libs/SacLib.py:91-107 | the record after reading the bytes is the old one updated with what Scan gets, with Done exactly when the read finishes |
| SacRecord.Sac.ReadHeader | libs/SacLib.py:94-95 | the header loop stores every field that fits, decoded, and says whether all did |
| SacRecord.Sac.ReadSamples | libs/SacLib.py:98-104 | a sample loop appends the block ReadBlock gives to one data block and says whether it was whole |
| SacRecord.Sac.Write | libs/SacLib.py:114-149 | an existing file is left alone and nothing changes unless OverWrite, whatever Head holds; otherwise the byte order is set and the file becomes the header, Data[0], then Data[1] |
| SacRecord.Sac.WriteBytes | libs/SacLib.py:133-146 | the bytes written are Encode of the record |
| SacRecord.Sac.WriteHeader | libs/SacLib.py:136-137 | the header loop emits every field, in order, in its width |
| SacRecord.Sac.WriteSamples | libs/SacLib.py:140-146 | a sample loop emits every word of a block, in order |
| SacRecord.Sac.Copy | libs/SacLib.py:156-167 | a new record with the same header, blocks and byte order, sharing nothing |
| SacRecord.Sac.Print | libs/SacLib.py:171-184 | no field is printed twice, and a record at its defaults prints no field |
| SacRecord.WriteReadBack | libs/SacLib.py:32-149 | writing a record and opening the file again in the same byte order gives every header field (strings cut or NUL-padded; exactly, when they have their widths), both blocks and the byte order back; the written record keeps its fields and samples and takes the byte order written |
| Calendar.MonthTable | libs/sacutils.py:164-167 | the table of days before each month has 12 entries |
| Calendar.MonthLength | libs/sacutils.py:164-167 | a month has 28 to 31 days |
| Calendar.OrdinalDay | libs/sacutils.py:162-171 | a result exists exactly for months -11..12, the ones Python's list indexing accepts |
| Calendar.DateConvert | libs/sacutils.py:174-182 | a result exists exactly for lists of six or more with a valid month; then it is [year, ordinal day, hour, min, sec] |
| Calendar.LeapCheck | libs/sacutils.py:214-223 | `_leapcheck`: every leap year is divisible by 4, and a century year is a leap year exactly when divisible by 400; LeapExamples and LeapPeriod give its values and its 400-year period |
| Calendar.LeapExamples | libs/sacutils.py:214-223 | 2000 and 2004 are leap years, 1900 and 2001 are not |
| Calendar.LeapPeriod | libs/sacutils.py:214-223 | the leap rule repeats every 400 years |
| Calendar.ModShift | libs/sacutils.py:218-220 | adding a multiple of the divisor leaves the remainder alone |
| Calendar.LeapsBefore | libs/sacutils.py:202-211 | the count of leap years before a year, one year at a time, is smaller than the year |
| Calendar.FloorStep | libs/sacutils.py:207-209 | the floor quotient grows by one exactly when a multiple of the divisor is crossed |
| Calendar.DivUnique | libs/sacutils.py:207-209 | floor division and remainder are unique |
| Calendar.MulMono | libs/sacutils.py:207-209 | multiplying by a positive number keeps order |
| Calendar.LeapNum | libs/sacutils.py:202-211 | `_leapnum`: from year 1 on, between 0 and one less than the year; LeapNumCounts and LeapNumStep show that it counts the leap years before the year |
| Calendar.LeapNumStep | libs/sacutils.py:202-211 | the leap count grows by one exactly past a leap year |
| Calendar.LeapNumCounts | libs/sacutils.py:202-223 | from year 1 on, `_leapnum` is the number of leap years before the year |
| Calendar.LeapNumExample | libs/sacutils.py:202-211 | 485 leap years come before 2001 |
| Calendar.TablesCumulative | libs/sacutils.py:164-167 | each table entry is the previous one plus the length of the month before |
| Calendar.TablesEnds | libs/sacutils.py:164-167 | both tables start at 0 and the last month ends the year |
| Calendar.TablesIncreasing | libs/sacutils.py:164-167 | both tables are strictly increasing |
| Calendar.TablesDiffer | libs/sacutils.py:164-167 | the leap table equals the common one for January and February and is one more from March on |
| Calendar.OrdinalDayExamples | libs/sacutils.py:162-171 | 1 March is day 60 in 2001 and day 61 in 2000; 1 January is day 1; 31 December 2000 is day 366 |
| Calendar.OrdinalDayRange | libs/sacutils.py:162-171 | a real date has an ordinal day from 1 to the length of its year |
| Calendar.OrdinalDayNextMonth | libs/sacutils.py:162-171 | the day after the last of a month is the first of the next |
| Calendar.Date2Sec | libs/sacutils.py:185-199 | `_date2sec`: a date of year 1 or later with non-negative time of day is at or after second 0; Date2SecCountsDays and Date2SecYearStep show that it counts the days since year 1 in seconds, plus the time of day |
| Calendar.Date2SecEpoch | libs/sacutils.py:185-199 | midnight, 1 January of year 1 is second 0 |
| Calendar.Date2SecDayStep | libs/sacutils.py:185-199 | one ordinal day more is 86400 seconds more |
| Calendar.Date2SecYearStep | libs/sacutils.py:185-211 | 1 January to 1 January of the next year is the length of that year in seconds |
| Calendar.Date2SecRollover | libs/sacutils.py:185-211 | the day after the last of a year is 1 January of the next |
| Calendar.Date2SecMillis | libs/sacutils.py:185-199 | milliseconds add a thousandth of a second each |
| Calendar.Date2SecCountsDays | libs/sacutils.py:185-223 | midnight of 1 January is the number of days since year 1 in seconds, counted year by year |

## Left out

- Floats are their 32-bit patterns. The conversion between Python floats and single precision is not modelled, and neither is rounding by `pack('f')`. The pattern of -12345.0 stands for the source's int default -12345. Python's `==` treats the two as equal and `pack('f')` writes the same bytes.
- Files are a map from names to bytes. Directories, permissions and I/O errors are not modelled.
- The `print` lines of `Read`, `Write` and `Print` are not modelled. `Print`'s output is the list of (name, value) pairs it formats. The two "File not found" prints are never reached, because `open` raises first.
- Exceptions are not modelled. Where `Read` or `Sac(File)` raises, the model returns a status and keeps the partial update the source leaves behind. For `Sac(File)` the caller gets no object at all; `Sac.Open` returns that object together with the status. The raising paths of `Write` and `Print` are excluded by their preconditions, as the next lines say.
- A byte order other than 'le' or 'be' is not modelled. Such a value leaves the struct format without a prefix, which means native order.
- An empty `ByteOrder` argument is modelled as `None`. Python treats any falsy value (`[]`, `''`, `None`) the same way.
- SacRecord.Sac.Write: when it writes the file, requires every schema field to be present and hold a value of its kind, an integer within the int32 range and a string of one-byte characters. A missing key raises `KeyError`; a value `pack` rejects for the field's format, such as an integer like 2**31 outside the int32 range for 'i' or a number for 's', makes it raise `struct.error`. Neither path, nor the partial file left behind, is modelled. The overwrite guard asks nothing of `Head`.
- SacRecord.Sac.Write and SacRecord.Sac.Print: each value carries its kind as a tag (`FloatVal`, `IntVal`, `StrVal`), and a field holds only values of its own kind. The source lets any Python value sit in `Head`. An int stored in a float field, which `pack('<f', 0)` accepts and writes as a float, is therefore not modelled: `Write` requires a `FloatVal` there. Python's equality of ints and floats is not modelled either. With `Head['DELTA'] = -12345`, an int, the source's `Data != H[3]` is False and nothing is printed, while `Changed` compares `IntVal(-12345)` with the float default and lists the field.
- SacRecord.Sac.Print: requires every schema field to be present in `Head`. The source raises `KeyError` at the first missing field, after printing the lines of the fields before it; that path is not modelled.
- `Copy` uses `deepcopy`. Values in the model are immutable, so a fresh object with equal fields has the same meaning.
- Calendar functions use exact integers and reals instead of Python floats. Rounding is not modelled, and neither are fractional days or months, or float `MDAYS` entries.
- Calendar.DateConvert: takes a list of integers, so a fractional seconds entry is outside the model.
- The `Sac` subclass of `sacutils.py` is not part of this model. It extends `sacio.Sac` with `filter`, `cut` and `wgs2xy`, which rely on numpy, scipy and pyproj.
- `Data[0]` and `Data[1]` are the fields `Data0` and `Data1`. The model does not represent the outer list, which the source never replaces.
