# A verified model of the Two Worlds PAR editor core

The Two Worlds PAR editor opens the game's `.par` parameter files. It shows
their lists of named entries, edits those entries, and compares two files so
that chosen differences can be merged from an input file into a source file.
This project models the core of the editor in Dafny and proves properties
about that model.

The model covers five parts:

- **The container codec** (`wire.dfy`, `model.dfy`, `format.dfy`,
  `reading.dfy`, `writing.dfy`).
  - `ParReader` is a class over the file bytes with a `pos` cursor. Its
    methods are proved equal to a functional grammar (`ParFormat`). That
    grammar covers the header (magic, version, list count, a reserved word),
    then lists, entries, type-tag vectors, typed values, the presence-word
    arrays, and the trailing bytes.
  - `ParWriter` is a class whose `buf` the write methods extend. Each write
    method is proved to append exactly the encoding that `ParFormat` defines.
  - The write-then-read round trip (`ParFormat.ParseEncFile`) is proved
    about those encodings, together with the error conditions.
  - The read-then-write direction (`canonical.dfy`). Reading forgets three
    things: the reserved header word, the exact presence word of an array
    (any nonzero value means "present", and the writer always writes 1),
    and bytes of 0x80 and above inside a string (they decode to U+FFFD and
    are written back as `?`). A file is *strict* when its reserved word is
    0, every presence word is 0, or 1 followed by a nonzero count, and every
    string byte is below 0x80. Writing what was read gives back exactly
    the bytes of a strict file (`ParCanonical.ReadThenWrite`). Each of the
    three conditions is needed, and everything the writer emits is strict.
- **The envelope** (`envelope.dfy`). It dispatches between a raw container,
  one zlib stream, and two zlib streams (a wrapper header, then the
  container). zlib is a pair of function parameters with stated laws.
- **The entry-editing commands** (`text.dfy`, `editing.dfy`). These cover
  add, duplicate, rename and delete on the editor's `ParEditor` state, the
  name suggestion for copies, and the search result list.
- **The diff engine** (`compare.dfy`). This is the record list that
  `_cmp_run_compare` builds, defined list by list and name by name, with a
  method that builds it. The proofs show:
  - each record describes a real difference, and every real difference has
    a record;
  - the records are in list order, and in name order within a list;
  - a file compared with itself yields no records.
- **The merge engine and the compare tab** (`merge.dfy`, `comparetab.dfy`).
  - Applying one record is specified exactly, including what it leaves
    unchanged.
  - The merge loop is a method proved equal to a fold over the records.
  - Merging what was ticked after a comparison runs to the end, and
    merging the same selection again into the result changes nothing and
    adds no entry (`ParCompareTab.MergeIdempotent`).
  - The `CompareTab` class holds the source, the input, the records and the
    ticked indexes.

Python exceptions are `Err` results, or an `Option` that is `None`. Dialog
answers and confirmations are method parameters. Nested lists, entries and
fields are values, so the deep copies of the source are plain value copies.

## Model

| member | source | states |
|---|---|---|
| Wire.Mask16IsMod | TW_Par_Editor_EN/tw1_par_editor.py:298-299 | `write_u16` masks with 0xFFFF: the value written is the argument modulo 65536 |
| Wire.Mask32IsMod | TW_Par_Editor_EN/tw1_par_editor.py:301-302 | `write_u32` masks with 0xFFFFFFFF: the value written is the argument modulo 2^32 |
| Wire.Mask32 | TW_Par_Editor_EN/tw1_par_editor.py:301-302 | below 2^32 the mask leaves the value unchanged |
| Wire.Mask16 | TW_Par_Editor_EN/tw1_par_editor.py:298-299 | below 2^16 the mask leaves the value unchanged |
| Wire.ParseU8At | TW_Par_Editor_EN/tw1_par_editor.py:104-105 | reading the byte of a u8 gives it back and advances by 1 |
| Wire.ParseI8At | TW_Par_Editor_EN/tw1_par_editor.py:107-108 | reading the two's-complement byte of an i8 gives it back and advances by 1 |
| Wire.ParseU16At | TW_Par_Editor_EN/tw1_par_editor.py:110-111 | reading the little-endian encoding of a u16 gives it back and advances by 2 |
| Wire.ParseU32At | TW_Par_Editor_EN/tw1_par_editor.py:113-114 | the same for u32, advancing by 4 |
| Wire.ParseI32At | TW_Par_Editor_EN/tw1_par_editor.py:116-117 | the same for two's-complement i32, advancing by 4 |
| Wire.ParseU64At | TW_Par_Editor_EN/tw1_par_editor.py:122-123 | the same for u64, advancing by 8 |
| Wire.EncU16At | TW_Par_Editor_EN/tw1_par_editor.py:110-111 | any two bytes read as a u16 and written back give the same bytes |
| Wire.EncU32At | TW_Par_Editor_EN/tw1_par_editor.py:113-114 | any four bytes read as a u32 and written back give the same bytes |
| Wire.ParseU8Back | TW_Par_Editor_EN/tw1_par_editor.py:104-105 | read-then-write for one byte: writing the value read gives back the bytes read |
| Wire.ParseU16Back | TW_Par_Editor_EN/tw1_par_editor.py:110-111 | the same for a little-endian u16 |
| Wire.ParseU32Back | TW_Par_Editor_EN/tw1_par_editor.py:113-114 | the same for a little-endian u32 |
| Wire.ParseU64Back | TW_Par_Editor_EN/tw1_par_editor.py:122-123 | the same for a little-endian u64 |
| Wire.ParseI8Back | TW_Par_Editor_EN/tw1_par_editor.py:107-108 | the same for a two's-complement i8 |
| Wire.ParseI32Back | TW_Par_Editor_EN/tw1_par_editor.py:116-117 | the same for a two's-complement i32 |
| Wire.EncU64At | TW_Par_Editor_EN/tw1_par_editor.py:122-123 | any eight bytes read as a u64 and written back give the same bytes |
| ParFormat.EncodeChars | TW_Par_Editor_EN/tw1_par_editor.py:313-316 | ASCII encoding with replacement gives one byte per character |
| ParFormat.DecodeBytes | TW_Par_Editor_EN/tw1_par_editor.py:132 | ASCII decoding with replacement gives one character per byte |
| ParFormat.EncodeCharsSpec | TW_Par_Editor_EN/tw1_par_editor.py:314 | `encode('ascii', errors='replace')` position by position: a character below 0x80 becomes its code, and any other character becomes `?` (0x3F) |
| ParFormat.DecodeBytesSpec | TW_Par_Editor_EN/tw1_par_editor.py:132 | `decode('ascii', errors='replace')` position by position: a byte below 0x80 becomes that character, and any other byte becomes U+FFFD |
| ParFormat.DecodeEncodeChars | TW_Par_Editor_EN/tw1_par_editor.py:132 | an ASCII string encoded and then decoded is unchanged |
| ParFormat.EncodeDecodeBytes | TW_Par_Editor_EN/tw1_par_editor.py:314 | ASCII bytes decoded and then encoded are unchanged |
| ParFormat.ParseStringAt | TW_Par_Editor_EN/tw1_par_editor.py:125-132 | a written string of at most 1,000,000 ASCII bytes reads back as itself and the cursor moves past it |
| ParFormat.StringFailures | TW_Par_Editor_EN/tw1_par_editor.py:125-132 | a declared length above 1,000,000 fails before any payload is read; a payload past the end fails; length 0 yields "" after just the count |
| ParFormat.StringsReadBack | TW_Par_Editor_EN/tw1_par_editor.py:125-132 | string writing and reading are inverse wherever the string is written |
| ParFormat.PresenceOf | TW_Par_Editor_EN/tw1_par_editor.py:385-409 | the presence word written is 0 exactly for an empty array |
| ParFormat.EmptyArrayBytes | TW_Par_Editor_EN/tw1_par_editor.py:387-389 | an empty array is written as exactly eight zero bytes |
| ParFormat.PresenceWord | TW_Par_Editor_EN/tw1_par_editor.py:250-264 | presence word 0 reads `[]` without a count; any other presence word reads a u32 count, then that many items |
| ParFormat.ArrayItemsAt | TW_Par_Editor_EN/tw1_par_editor.py:390-398 | a non-empty array is written as u64 1, then the u32 count, then the items |
| ParFormat.ArrayAt | TW_Par_Editor_EN/tw1_par_editor.py:250-276 | an array written with fewer than 2^32 items reads back as itself |
| ParFormat.I32sReadBack | TW_Par_Editor_EN/tw1_par_editor.py:116-117 | i32 items read back |
| ParFormat.U32sReadBack | TW_Par_Editor_EN/tw1_par_editor.py:113-114 | u32 items, including float bit patterns, read back |
| ParFormat.ParseValueAt | TW_Par_Editor_EN/tw1_par_editor.py:215-236 | every written field value reads back under its own type tag |
| ParFormat.ValuesReadBack | TW_Par_Editor_EN/tw1_par_editor.py:215-238 | the values of an entry read back one per tag, in order |
| ParFormat.UnknownTagRefused | TW_Par_Editor_EN/tw1_par_editor.py:235-236 | a type tag outside 0..7 fails the entry at the offset where its value would start |
| ParFormat.TagsOf | TW_Par_Editor_EN/tw1_par_editor.py:350-352 | the type vector has one tag per field, each the field's own type |
| ParFormat.EntryHeadAt | TW_Par_Editor_EN/tw1_par_editor.py:203-208 | the signed byte, the field count and the two u16 words of an entry read back |
| ParFormat.ParseEntryAt | TW_Par_Editor_EN/tw1_par_editor.py:200-240 | an entry with an ASCII name, fewer than 65536 fields and valid values reads back |
| ParFormat.ParseListAt | TW_Par_Editor_EN/tw1_par_editor.py:193-241 | a list with fewer than 2^32 valid entries reads back |
| ParFormat.HeaderAt | TW_Par_Editor_EN/tw1_par_editor.py:181-191 | the header reads back: magic, version, list count, and a reserved word of 0 |
| ParFormat.ParseFile | TW_Par_Editor_EN/tw1_par_editor.py:177-247 | a file that reads has at least the 16 header bytes, comes back with the envelope fields cleared, and its trailing bytes, when kept, are a non-empty suffix of the data |
| ParFormat.EncFile | TW_Par_Editor_EN/tw1_par_editor.py:322-382 | what write_par emits starts with the magic, has the reserved word written as 0 at bytes 12-15, and ends with the trailing bytes when there are some |
| ParFormat.ParseEncFile | TW_Par_Editor_EN/tw1_par_editor.py:177-247 | write then read gives the file back: lists, version, and trailing bytes when non-empty. The envelope fields come back cleared |
| ParFormat.BadMagicRefused | TW_Par_Editor_EN/tw1_par_editor.py:182-184 | data whose first four bytes are not `PAR\0` is refused |
| ParCanonical.ManyWritesBack | TW_Par_Editor_EN/tw1_par_editor.py:193-241 | `n` items read back to back, each strict, are written back as exactly the bytes they were read from |
| ParCanonical.StringWritesBack | TW_Par_Editor_EN/tw1_par_editor.py:125-132 | a strict string (all bytes below 0x80) is written back as exactly its bytes: the same length word and the same payload |
| ParCanonical.StringsWriteBack | TW_Par_Editor_EN/tw1_par_editor.py:125-132 | the same, as a law over every position |
| ParCanonical.I32sWriteBack | TW_Par_Editor_EN/tw1_par_editor.py:116-117 | every i32 read is written back as its four bytes |
| ParCanonical.U32sWriteBack | TW_Par_Editor_EN/tw1_par_editor.py:113-114 | every u32 read is written back as its four bytes |
| ParCanonical.TagsWriteBack | TW_Par_Editor_EN/tw1_par_editor.py:210-213 | every type tag read is written back as its byte |
| ParCanonical.ArrayWritesBack | TW_Par_Editor_EN/tw1_par_editor.py:250-276 | an array whose presence word is 0, or 1 with a nonzero count, and whose items are strict, is written back byte for byte |
| ParCanonical.ValueWritesBack | TW_Par_Editor_EN/tw1_par_editor.py:215-236 | a strict value of any of the eight type tags (0..7) is written back byte for byte |
| ParCanonical.ValuesWriteBack | TW_Par_Editor_EN/tw1_par_editor.py:215-238 | the values of an entry, strict for their tags, are written back byte for byte |
| ParCanonical.EntryHeadWritesBack | TW_Par_Editor_EN/tw1_par_editor.py:203-208 | the i8, the field count and the two u16 words of an entry header are written back byte for byte |
| ParCanonical.EntryTailWritesBack | TW_Par_Editor_EN/tw1_par_editor.py:210-238 | the tag vector and the values that follow it are written back byte for byte |
| ParCanonical.EntryParts | TW_Par_Editor_EN/tw1_par_editor.py:202-240 | a strict entry splits into a strict name, a header, tags and strict values, each read where the last ended |
| ParCanonical.EntryWritesBack | TW_Par_Editor_EN/tw1_par_editor.py:202-240 | a strict entry is written back byte for byte |
| ParCanonical.EntriesWriteBack | TW_Par_Editor_EN/tw1_par_editor.py:201-240 | the same, as a law over every position |
| ParCanonical.ListWritesBack | TW_Par_Editor_EN/tw1_par_editor.py:194-241 | a list of strict entries is written back byte for byte, with both unknown words and the count |
| ParCanonical.ListsWriteBack | TW_Par_Editor_EN/tw1_par_editor.py:194-241 | the same, as a law over every position |
| ParCanonical.ReadThenWrite | TW_Par_Editor_EN/tw1_par_editor.py:177-247 | read-then-write: a strict file that reads is written back as exactly the bytes it was read from, trailing bytes included |
| ParCanonical.NonAsciiNotKept | TW_Par_Editor_EN/tw1_par_editor.py:132 | a string holding a byte of 0x80 or above is not written back as the bytes it was read from |
| ParCanonical.ReplacedByte | TW_Par_Editor_EN/tw1_par_editor.py:314 | such a byte comes back as `?` |
| ParCanonical.PresenceNotKept | TW_Par_Editor_EN/tw1_par_editor.py:250-264 | an array whose presence word is above 1, or is 1 with a zero count, is not written back as the bytes it was read from |
| ParCanonical.ReservedNotKept | TW_Par_Editor_EN/tw1_par_editor.py:191 | a file whose reserved header word is not 0 is not written back as the bytes it was read from |
| ParCanonical.ManyStrictAt | TW_Par_Editor_EN/tw1_par_editor.py:341-374 | items written back to back by a writer whose output is strict read back as strict |
| ParCanonical.StringStrictAt | TW_Par_Editor_EN/tw1_par_editor.py:313-316 | a written ASCII string is strict |
| ParCanonical.StringsStrictWhereWritten | TW_Par_Editor_EN/tw1_par_editor.py:313-316 | the same, as a law over every position |
| ParCanonical.ArrayStrictAt | TW_Par_Editor_EN/tw1_par_editor.py:385-409 | a written array is strict: its presence word is 0, or 1 with a nonzero count |
| ParCanonical.ValueStrictAt | TW_Par_Editor_EN/tw1_par_editor.py:355-374 | a written value is strict for its tag |
| ParCanonical.ValuesStrictAt | TW_Par_Editor_EN/tw1_par_editor.py:354-374 | the written values of an entry are strict for its tags |
| ParCanonical.EntryStrictAt | TW_Par_Editor_EN/tw1_par_editor.py:342-374 | a written entry is strict |
| ParCanonical.EntriesStrictWhereWritten | TW_Par_Editor_EN/tw1_par_editor.py:341-374 | the same, as a law over every position |
| ParCanonical.ListStrictAt | TW_Par_Editor_EN/tw1_par_editor.py:334-374 | a written list is strict |
| ParCanonical.ListsStrictWhereWritten | TW_Par_Editor_EN/tw1_par_editor.py:334-374 | the same, as a law over every position |
| ParCanonical.WrittenIsStrict | TW_Par_Editor_EN/tw1_par_editor.py:322-382 | everything write_par emits for a file the codec carries is strict, so `ReadThenWrite` applies to it |
| ParReading.ParReader.constructor | TW_Par_Editor_EN/tw1_par_editor.py:92-95 | the cursor starts at 0 over the whole data |
| ParReading.ParReader.ReadBytes | TW_Par_Editor_EN/tw1_par_editor.py:97-102 | a read past the end fails and leaves `pos` unchanged; otherwise it returns the next n bytes and advances by n |
| ParReading.ParReader.Advance | TW_Par_Editor_EN/tw1_par_editor.py:134-139 | the same bounds check; returns the old position |
| ParReading.ParReader.ReadU8 | TW_Par_Editor_EN/tw1_par_editor.py:104-105 | reads the grammar's u8 at `pos`; a failed read leaves `pos` unchanged |
| ParReading.ParReader.ReadI8 | TW_Par_Editor_EN/tw1_par_editor.py:107-108 | the same for i8 |
| ParReading.ParReader.ReadU16 | TW_Par_Editor_EN/tw1_par_editor.py:110-111 | the same for u16 |
| ParReading.ParReader.ReadU32 | TW_Par_Editor_EN/tw1_par_editor.py:113-114 | the same for u32 |
| ParReading.ParReader.ReadI32 | TW_Par_Editor_EN/tw1_par_editor.py:116-117 | the same for i32 |
| ParReading.ParReader.ReadF32 | TW_Par_Editor_EN/tw1_par_editor.py:119-120 | reads the 32-bit pattern of a float |
| ParReading.ParReader.ReadU64 | TW_Par_Editor_EN/tw1_par_editor.py:122-123 | the same for u64 |
| ParReading.ParReader.ReadDelphiString | TW_Par_Editor_EN/tw1_par_editor.py:125-132 | returns the grammar's string; on failure `pos` is where the length read left it |
| ParReading.ReadExtraArray | TW_Par_Editor_EN/tw1_par_editor.py:250-264 | reads the grammar's numeric array for the format character |
| ParReading.ReadItems | TW_Par_Editor_EN/tw1_par_editor.py:256-264 | the item loop reads exactly `count` numbers of the format, failing with the first item that fails |
| ParReading.ReadExtraStringArray | TW_Par_Editor_EN/tw1_par_editor.py:267-276 | reads the grammar's string array |
| ParReading.ReadValue | TW_Par_Editor_EN/tw1_par_editor.py:216-236 | reads one value by its tag; an unknown tag fails |
| ParReading.ReadTypeList | TW_Par_Editor_EN/tw1_par_editor.py:210-213 | reads the type vector of an entry |
| ParReading.ReadFieldValues | TW_Par_Editor_EN/tw1_par_editor.py:215-238 | reads one value per tag, in order |
| ParReading.ReadEntry | TW_Par_Editor_EN/tw1_par_editor.py:202-240 | reads one entry as the grammar defines it |
| ParReading.ReadEntries | TW_Par_Editor_EN/tw1_par_editor.py:201-240 | reads the counted entries of a list |
| ParReading.ReadList | TW_Par_Editor_EN/tw1_par_editor.py:194-241 | reads one list |
| ParReading.ReadPar | TW_Par_Editor_EN/tw1_par_editor.py:177-247 | `read_par` returns exactly the grammar's result, including the trailing bytes kept only when non-empty (243-245) |
| ParWriting.ParWriter.constructor | TW_Par_Editor_EN/tw1_par_editor.py:286-287 | the buffer starts empty |
| ParWriting.ParWriter.WriteBytes | TW_Par_Editor_EN/tw1_par_editor.py:289-290 | appends the bytes |
| ParWriting.ParWriter.WriteU8 | TW_Par_Editor_EN/tw1_par_editor.py:292-293 | appends the one-byte encoding |
| ParWriting.ParWriter.WriteI8 | TW_Par_Editor_EN/tw1_par_editor.py:295-296 | appends the two's-complement byte |
| ParWriting.ParWriter.WriteU16 | TW_Par_Editor_EN/tw1_par_editor.py:298-299 | appends the 16-bit masked value, little-endian |
| ParWriting.ParWriter.WriteU32 | TW_Par_Editor_EN/tw1_par_editor.py:301-302 | appends the 32-bit masked value, little-endian |
| ParWriting.ParWriter.WriteI32 | TW_Par_Editor_EN/tw1_par_editor.py:304-305 | appends the two's-complement i32 |
| ParWriting.ParWriter.WriteF32 | TW_Par_Editor_EN/tw1_par_editor.py:307-308 | appends the float's 32-bit pattern |
| ParWriting.ParWriter.WriteU64 | TW_Par_Editor_EN/tw1_par_editor.py:310-311 | appends the u64 |
| ParWriting.ParWriter.WriteDelphiString | TW_Par_Editor_EN/tw1_par_editor.py:313-316 | appends the u32 byte count, then the ASCII bytes |
| ParWriting.WriteExtraArray | TW_Par_Editor_EN/tw1_par_editor.py:385-398 | appends the presence-word array encoding for the format character |
| ParWriting.WriteItems | TW_Par_Editor_EN/tw1_par_editor.py:392-398 | the item loop appends the encodings of the numbers in order |
| ParWriting.WriteExtraStringArray | TW_Par_Editor_EN/tw1_par_editor.py:401-409 | appends the string array encoding |
| ParWriting.WriteValue | TW_Par_Editor_EN/tw1_par_editor.py:355-374 | appends the encoding of one value by its type |
| ParWriting.WriteTypeList | TW_Par_Editor_EN/tw1_par_editor.py:350-352 | appends one tag byte per field |
| ParWriting.WriteFieldValues | TW_Par_Editor_EN/tw1_par_editor.py:354-374 | appends the values in field order |
| ParWriting.WriteEntry | TW_Par_Editor_EN/tw1_par_editor.py:342-374 | appends the entry encoding |
| ParWriting.WriteEntries | TW_Par_Editor_EN/tw1_par_editor.py:341-374 | appends the entries in order |
| ParWriting.WriteList | TW_Par_Editor_EN/tw1_par_editor.py:334-374 | appends the list head, then its entries |
| ParWriting.WritePar | TW_Par_Editor_EN/tw1_par_editor.py:322-382 | `write_par` returns exactly the grammar's encoding, trailing bytes appended verbatim |
| ParEnvelope.Head | TW_Par_Editor_EN/tw1_par_editor.py:431 | the bytes shown in the error are at most four, taken from the start |
| ParEnvelope.Decompress | TW_Par_Editor_EN/tw1_par_editor.py:416-451 | success always yields `PAR\0` data; uncompressed data is returned as is; data that is neither zlib nor PAR is refused with its head; zlib errors propagate |
| ParEnvelope.Compress | TW_Par_Editor_EN/tw1_par_editor.py:454-466 | a single stream without a wrapper; otherwise the compressed wrapper followed by the compressed payload |
| ParEnvelope.RawPassThrough | TW_Par_Editor_EN/tw1_par_editor.py:427-430 | a raw container passes through uncompressed and without a wrapper |
| ParEnvelope.SingleStreamRoundTrip | TW_Par_Editor_EN/tw1_par_editor.py:434-441 | compressing without a wrapper and decompressing gives the container back |
| ParEnvelope.DualStreamRoundTrip | TW_Par_Editor_EN/tw1_par_editor.py:434-451 | compressing with a wrapper and decompressing gives the container and the wrapper back |
| ParEnvelope.RecompressRoundTrip | TW_Par_Editor_EN/tw1_par_editor.py:416-466 | whatever was decompressed recompresses to something that decompresses to the same container and wrapper |
| ParText.Lower | TW_Par_Editor_EN/tw1_par_editorV2_1.py:1607 | `lower()` keeps the length and maps each character |
| ParText.StripLeft | TW_Par_Editor_EN/tw1_par_editorV2_1.py:1579 | removes exactly the leading whitespace |
| ParText.StripRight | TW_Par_Editor_EN/tw1_par_editorV2_1.py:1579 | removes exactly the trailing whitespace |
| ParText.Strip | TW_Par_Editor_EN/tw1_par_editorV2_1.py:1577-1579 | the result has no whitespace at either end, and is empty exactly for an all-whitespace answer |
| ParText.FindFrom | TW_Par_Editor_EN/tw1_par_editorV2_1.py:1613 | returns the first occurrence at or after `from`, or -1 |
| ParText.Find | TW_Par_Editor_EN/tw1_par_editorV2_1.py:1613 | the answer is -1 or a place where the needle occurs |
| ParText.FindFromFirst | TW_Par_Editor_EN/tw1_par_editorV2_1.py:1613 | no occurrence at or after the start position precedes the answer |
| ParText.FindSpec | TW_Par_Editor_EN/tw1_par_editorV2_1.py:1613 | returns -1 exactly when there is no occurrence; otherwise the first one |
| ParText.ReplaceFirstIgnoringCase | TW_Par_Editor_EN/tw1_par_editorV2_1.py:1609-1614 | without a case-insensitive occurrence the value is unchanged; otherwise the first occurrence is replaced by the new name and the rest is kept |
| ParText.DigitChar | TW_Par_Editor_EN/tw1_par_editorV2_1.py:1757 | a digit character with the given value |
| ParText.Decimal | TW_Par_Editor_EN/tw1_par_editorV2_1.py:1757 | the decimal rendering is a non-empty digit string |
| ParText.Zeros | TW_Par_Editor_EN/tw1_par_editorV2_1.py:1757 | k zero digits |
| ParText.ZeroPadded | TW_Par_Editor_EN/tw1_par_editorV2_1.py:1757 | `{n:0{width}d}` has length max(width, digits of n) |
| ParText.DecimalValueOfDecimal | TW_Par_Editor_EN/tw1_par_editorV2_1.py:1755-1757 | `int()` of the rendering of n is n |
| ParText.ZeroPaddedValue | TW_Par_Editor_EN/tw1_par_editorV2_1.py:1755-1757 | the zero-padded rendering still denotes n |
| ParText.RunEnd | TW_Par_Editor_EN/tw1_par_editorV2_1.py:1752 | the end of the name the pattern's `$` may match at |
| ParText.RunStart | TW_Par_Editor_EN/tw1_par_editorV2_1.py:1752 | the start of the maximal digit run ending there |
| ParText.SuggestAt | TW_Par_Editor_EN/tw1_par_editorV2_1.py:1752-1757 | a name with a trailing digit run becomes its prefix followed by the incremented number |
| ParText.SuggestOfSplit | TW_Par_Editor_EN/tw1_par_editorV2_1.py:1752-1757 | prefix + digits becomes prefix + (number + 1) zero-padded to the digit width |
| ParText.SuggestIncrements | TW_Par_Editor_EN/tw1_par_editorV2_1.py:1752-1757 | the suggestion keeps the prefix and its digit part denotes the old number plus one |
| ParText.Incremented | TW_Par_Editor_EN/tw1_par_editorV2_1.py:1755-1757 | the incremented name keeps the prefix, is no shorter, and its digit part denotes the number plus one |
| ParText.SuggestNextName | TW_Par_Editor_EN/tw1_par_editorV2_1.py:1749-1758 | a name with a trailing number keeps everything before the number, and the number is replaced by digits that denote it plus one; any other name gets "_COPY" appended |
| ParText.SuggestWithoutNumber | TW_Par_Editor_EN/tw1_par_editorV2_1.py:1758 | a name without trailing digits gets `_COPY` appended |
| ParText.SuggestOrc01 | TW_Par_Editor_EN/tw1_par_editorV2_1.py:1749-1758 | "Orc01" suggests "Orc02" |
| ParText.SuggestOrc99 | TW_Par_Editor_EN/tw1_par_editorV2_1.py:1749-1758 | "Orc99" suggests "Orc100" |
| ParText.SuggestDropsFinalNewline | TW_Par_Editor_EN/tw1_par_editorV2_1.py:1752 | `$` matches before a final newline, so "Orc01\n" suggests "Orc02" |
| ParText.SuggestCopyExamples | TW_Par_Editor_EN/tw1_par_editorV2_1.py:1752-1758 | "Orc" and a name with an inner newline before its digits get `_COPY` |
| ParEditing.Accepted | TW_Par_Editor_EN/tw1_par_editorV2_1.py:1577-1579 | a cancelled or blank answer is refused; an accepted name has no surrounding whitespace |
| ParEditing.ZeroOf | TW_Par_Editor_EN/tw1_par_editorV2_1.py:1719-1731 | the zero value keeps the field's type |
| ParEditing.NewEntry | TW_Par_Editor_EN/tw1_par_editorV2_1.py:1710-1732 | the new entry has the given name; in an empty list it is bare; otherwise it copies the first entry's header words and has one zero field per template field |
| ParEditing.RenameField | TW_Par_Editor_EN/tw1_par_editorV2_1.py:1609-1614 | renaming keeps the type and leaves non-string fields unchanged |
| ParEditing.Renamed | TW_Par_Editor_EN/tw1_par_editorV2_1.py:1593-1614 | the copy has the new name and the same header words, and each field is renamed |
| ParEditing.InsertAt | TW_Par_Editor_EN/tw1_par_editorV2_1.py:1617 | `list.insert` puts the element at the index and shifts the rest |
| ParEditing.RemoveAt | TW_Par_Editor_EN/tw1_par_editorV2_1.py:1689 | `list.pop` removes exactly that element |
| ParEditing.WithEntries | TW_Par_Editor_EN/tw1_par_editorV2_1.py:1617 | replacing a list's entries changes nothing else in the file |
| ParEditing.ZeroedFields | TW_Par_Editor_EN/tw1_par_editorV2_1.py:1719-1732 | the template loop yields the zero of each template field |
| ParEditing.RenameStringFields | TW_Par_Editor_EN/tw1_par_editorV2_1.py:1609-1614 | the field loop renames each field |
| ParEditing.CollectNames | TW_Par_Editor_EN/tw1_par_editorV2_1.py:1582-1585 | the name set holds exactly the names of all entries of all lists |
| ParEditing.ParEditor.constructor | TW_Par_Editor_EN/tw1_par_editorV2_1.py:1561 | an editor over a possibly absent file, not modified |
| ParEditing.ParEditor.AddEntryToList | TW_Par_Editor_EN/tw1_par_editorV2_1.py:1696-1736 | with no file, a bad list index or no name, nothing changes; otherwise the new entry is appended to that list and the editor is modified |
| ParEditing.ParEditor.DuplicateEntry | TW_Par_Editor_EN/tw1_par_editorV2_1.py:1559-1619 | offers the suggested name; refuses on no name, or on a taken name unless confirmed; otherwise the renamed copy is inserted right after the original |
| ParEditing.ParEditor.RenameEntry | TW_Par_Editor_EN/tw1_par_editorV2_1.py:1633-1661 | nothing changes when the name is missing or equal to the old one; otherwise the entry is renamed in place, string fields included |
| ParEditing.ParEditor.DeleteEntry | TW_Par_Editor_EN/tw1_par_editorV2_1.py:1675-1690 | removes the entry only when it exists and the deletion is confirmed |
| ParEditing.NewEntryKeepsTypes | TW_Par_Editor_EN/tw1_par_editorV2_1.py:1713-1732 | a new entry has the template's field types |
| ParEditing.RenamedKeepsOthers | TW_Par_Editor_EN/tw1_par_editorV2_1.py:1606-1614 | non-string fields, and string fields not containing the old name, are copied unchanged |
| ParEditing.DeleteUndoesDuplicate | TW_Par_Editor_EN/tw1_par_editorV2_1.py:1617 | deleting the copy just inserted restores the list |
| ParEditing.DeleteUndoesAdd | TW_Par_Editor_EN/tw1_par_editorV2_1.py:1734 | deleting the entry just added restores the list |
| ParEditing.EntryMatches | TW_Par_Editor_EN/tw1_par_editorV2_1.py:1849-1857 | an entry is a hit when its lower-cased name or one of its string fields contains the query |
| ParEditing.SearchResults | TW_Par_Editor_EN/tw1_par_editorV2_1.py:1847-1857 | the search result list is the hits, list by list |
| ParEditing.ListResults | TW_Par_Editor_EN/tw1_par_editorV2_1.py:1849-1857 | the inner search loop collects exactly the hits of one list, in entry order |
| ParEditing.ListHitsMembers | TW_Par_Editor_EN/tw1_par_editorV2_1.py:1849-1857 | a coordinate is in a list's hits exactly when that entry matches |
| ParEditing.ListHitsOrdered | TW_Par_Editor_EN/tw1_par_editorV2_1.py:1849-1857 | a list's hits are in strictly increasing entry order |
| ParEditing.SearchHitsMembers | TW_Par_Editor_EN/tw1_par_editorV2_1.py:1847-1857 | a coordinate is a result exactly when it names a matching entry |
| ParEditing.SearchHitsOrdered | TW_Par_Editor_EN/tw1_par_editorV2_1.py:1847-1857 | the results are in strictly increasing tree order, so none repeats |
| ParEditing.ConcatInOrder | TW_Par_Editor_EN/tw1_par_editorV2_1.py:1847-1857 | the hits of one list, all after those of the lists before it, keep the whole result ordered |
| ParCompare.FieldsEqual | TW_Par_Editor_EN/tw1_par_editorV2_1.py:2121-2127 | fields of different types never compare equal |
| ParCompare.FieldsEqualSpec | TW_Par_Editor_EN/tw1_par_editorV2_1.py:2121-2127 | fields of different types are never equal; scalar floats are equal exactly when close; float arrays are equal element by element; every other pair is compared exactly |
| ParCompare.FieldsEqualReflexive | TW_Par_Editor_EN/tw1_par_editorV2_1.py:2121-2127 | with a reflexive float comparison, every field equals itself |
| ParCompare.StrLessIrreflexive | TW_Par_Editor_EN/tw1_par_editorV2_1.py:2214 | the string order of `sorted` is strict |
| ParCompare.StrLessTransitive | TW_Par_Editor_EN/tw1_par_editorV2_1.py:2214 | and transitive |
| ParCompare.StrLessTotal | TW_Par_Editor_EN/tw1_par_editorV2_1.py:2214 | and total |
| ParCompare.InsertSpec | TW_Par_Editor_EN/tw1_par_editorV2_1.py:2213-2214 | inserting into a sorted name list keeps it strictly sorted and adds exactly that name |
| ParCompare.SortedUniqueSpec | TW_Par_Editor_EN/tw1_par_editorV2_1.py:2213-2214 | `sorted(set(...))` is strictly sorted and has exactly the names given |
| ParCompare.IndexByName | TW_Par_Editor_EN/tw1_par_editorV2_1.py:2192-2198 | every index in the name map is in range |
| ParCompare.IndexByNameSpec | TW_Par_Editor_EN/tw1_par_editorV2_1.py:2192-2198 | the map sends each name to an entry of that name, and to the last one |
| ParCompare.IndexLookup | TW_Par_Editor_EN/tw1_par_editorV2_1.py:2192-2198 | a name is in the map exactly when some entry has it, and then it maps to the last such entry |
| ParCompare.IndexOfLast | TW_Par_Editor_EN/tw1_par_editorV2_1.py:2192-2198 | the last entry with a name is the one the map holds |
| ParCompare.OneSided | TW_Par_Editor_EN/tw1_par_editorV2_1.py:2157-2189 | a list present on one side yields one record per entry |
| ParCompare.OneSidedShape | TW_Par_Editor_EN/tw1_par_editorV2_1.py:2157-2189 | each such record names its entry, has field -1, and has -1 for the absent side's coordinates |
| ParCompare.FieldDiffsShape | TW_Par_Editor_EN/tw1_par_editorV2_1.py:2255-2281 | each field record is `changed` with `src_li = inp_li = li`, a field index below max(len), and a missing or unequal field there |
| ParCompare.FieldDiffsHas | TW_Par_Editor_EN/tw1_par_editorV2_1.py:2255-2281 | every missing or unequal field index below max(len) has a record |
| ParCompare.OneSidedHas | TW_Par_Editor_EN/tw1_par_editorV2_1.py:2157-2189 | every entry of a one-sided list has its record |
| ParCompare.BuildIndex | TW_Par_Editor_EN/tw1_par_editorV2_1.py:2192-2198 | the dictionary loop builds the name map |
| ParCompare.OneSidedRecords | TW_Par_Editor_EN/tw1_par_editorV2_1.py:2157-2189 | the record loop of a one-sided list |
| ParCompare.FieldRecords | TW_Par_Editor_EN/tw1_par_editorV2_1.py:2255-2281 | the field loop of a matched name |
| ParCompare.MatchedRecords | TW_Par_Editor_EN/tw1_par_editorV2_1.py:2213-2281 | the sorted-name loop of two present lists |
| ParCompare.ListRecords | TW_Par_Editor_EN/tw1_par_editorV2_1.py:2153-2281 | the records of one list index |
| ParCompare.CompareFiles | TW_Par_Editor_EN/tw1_par_editorV2_1.py:2142-2281 | `_cmp_run_compare` builds exactly the record list `Diffs` |
| ParCompare.FieldDiffsSelf | TW_Par_Editor_EN/tw1_par_editorV2_1.py:2255-2265 | an entry compared with itself yields no field records |
| ParCompare.NameDiffsSelf | TW_Par_Editor_EN/tw1_par_editorV2_1.py:2215-2265 | a name compared within the same list yields no records |
| ParCompare.NamesDiffsSelf | TW_Par_Editor_EN/tw1_par_editorV2_1.py:2214-2281 | the name loop over a list and itself yields no records |
| ParCompare.AllNamesIndexed | TW_Par_Editor_EN/tw1_par_editorV2_1.py:2192-2214 | every sorted name is in the name map |
| ParCompare.ListSelf | TW_Par_Editor_EN/tw1_par_editorV2_1.py:2152-2281 | a list compared with itself yields no records |
| ParCompare.DiffsUpToSelf | TW_Par_Editor_EN/tw1_par_editorV2_1.py:2150-2281 | the list loop over a file and itself yields no records |
| ParCompare.Diffs | TW_Par_Editor_EN/tw1_par_editorV2_1.py:2129-2281 | with a reflexive float comparison, a file compared with itself yields no records |
| ParCompare.NameDiffsSound | TW_Par_Editor_EN/tw1_par_editorV2_1.py:2215-2281 | each record of a name describes a real difference at that name |
| ParCompare.NamesDiffsSound | TW_Par_Editor_EN/tw1_par_editorV2_1.py:2214-2281 | each record of the name loop describes a real difference |
| ParCompare.ListDiffsSound | TW_Par_Editor_EN/tw1_par_editorV2_1.py:2152-2281 | each record of a list index describes a real difference in that list |
| ParCompare.DiffsUpToSound | TW_Par_Editor_EN/tw1_par_editorV2_1.py:2150-2281 | each record of the list loop so far describes a real difference |
| ParCompare.DiffsSound | TW_Par_Editor_EN/tw1_par_editorV2_1.py:2129-2281 | every record describes a real difference. For a `changed` record: both entries are the last with that name, and the field is missing or unequal. For a one-sided record: the other side has no such list or no such name |
| ParCompare.NamesDiffsHas | TW_Par_Editor_EN/tw1_par_editorV2_1.py:2214-2281 | a record of any visited name is in the name loop's result |
| ParCompare.MatchedHas | TW_Par_Editor_EN/tw1_par_editorV2_1.py:2213-2281 | a record of a name present on either side is in the list's result |
| ParCompare.DiffsUpToHas | TW_Par_Editor_EN/tw1_par_editorV2_1.py:2150-2281 | a record of any visited list index is in the result |
| ParCompare.ChangedComplete | TW_Par_Editor_EN/tw1_par_editorV2_1.py:2250-2281 | every real field difference has a `changed` record |
| ParCompare.InputOnlyComplete | TW_Par_Editor_EN/tw1_par_editorV2_1.py:2157-2172 | every entry only in the input has an `input_only` record; same for a name only in the input (2234-2248) |
| ParCompare.SourceOnlyComplete | TW_Par_Editor_EN/tw1_par_editorV2_1.py:2174-2189 | every entry only in the source has a `source_only` record; same for a name only in the source (2218-2232) |
| ParCompare.DiffsExact | TW_Par_Editor_EN/tw1_par_editorV2_1.py:2129-2281 | a record is produced exactly when it describes a real difference |
| ParCompare.NameDiffsNamed | TW_Par_Editor_EN/tw1_par_editorV2_1.py:2215-2281 | the records of a name carry that name |
| ParCompare.NamesDiffsOrdered | TW_Par_Editor_EN/tw1_par_editorV2_1.py:2214 | over sorted names, records come in name order |
| ParCompare.MatchedOrdered | TW_Par_Editor_EN/tw1_par_editorV2_1.py:2213-2214 | the records of one list come in name order |
| ParCompare.DiffsUpToOrdered | TW_Par_Editor_EN/tw1_par_editorV2_1.py:2152 | the list loop's records come in list order, below the bound |
| ParCompare.DiffsOrdered | TW_Par_Editor_EN/tw1_par_editorV2_1.py:2150-2281 | all records come in list order (and within a list in name order, by MatchedOrdered) |
| ParMerge.PadFields | TW_Par_Editor_EN/tw1_par_editorV2_1.py:2446-2447 | padding keeps the old fields, appends `ParField(0, 0)` only, and leaves more than `fi` fields |
| ParMerge.PadLists | TW_Par_Editor_EN/tw1_par_editorV2_1.py:2461-2463 | padding keeps the old lists, appends empty lists only, and leaves more than `ili` lists |
| ParMerge.PadFieldsLoop | TW_Par_Editor_EN/tw1_par_editorV2_1.py:2446-2447 | the padding loop computes `PadFields` |
| ParMerge.PadListsLoop | TW_Par_Editor_EN/tw1_par_editorV2_1.py:2461-2463 | the padding loop computes `PadLists` |
| ParMerge.Apply | TW_Par_Editor_EN/tw1_par_editorV2_1.py:2431-2482 | a `source_only` record changes nothing and counts nothing |
| ParMerge.ApplyRecord | TW_Par_Editor_EN/tw1_par_editorV2_1.py:2431-2482 | the loop body applies one record as `Apply` defines; an IndexError is `None` |
| ParMerge.MergeUpTo | TW_Par_Editor_EN/tw1_par_editorV2_1.py:2428-2482 | the two counters together never exceed the records applied |
| ParMerge.MergeAll | TW_Par_Editor_EN/tw1_par_editorV2_1.py:2428-2482 | the apply loop of _cmp_merge counts at most one changed field or added entry per record |
| ParMerge.MergeRecords | TW_Par_Editor_EN/tw1_par_editorV2_1.py:2424-2482 | the merge loop computes the fold `MergeAll`, stopping at the first IndexError |
| ParMerge.FailureSticks | TW_Par_Editor_EN/tw1_par_editorV2_1.py:2424-2482 | after an IndexError nothing more is applied |
| ParMerge.ChangedEffect | TW_Par_Editor_EN/tw1_par_editorV2_1.py:2432-2452 | failing guards change nothing. Otherwise it raises exactly when Python indexing fails on either side. When it does not raise, it counts 1 and sets only that field of that entry, after padding |
| ParMerge.InputOnlyEffect | TW_Par_Editor_EN/tw1_par_editorV2_1.py:2454-2482 | failing guards change nothing. An input index out of range raises. Otherwise lists are padded, and the copy is appended and counted exactly when its name is not yet in the target list |
| ParMerge.ApplyTwice | TW_Par_Editor_EN/tw1_par_editorV2_1.py:2431-2482 | applying a record to its own result changes nothing more, and an `input_only` record then counts nothing |
| ParMerge.MergeResolves | TW_Par_Editor_EN/tw1_par_editorV2_1.py:2424-2482 | a compared record never raises, and once applied it is no longer a difference |
| ParMerge.GrowsTransitive | TW_Par_Editor_EN/tw1_par_editorV2_1.py:2424-2482 | the merge only grows the source: this relation composes |
| ParMerge.GrowsKeepsName | TW_Par_Editor_EN/tw1_par_editorV2_1.py:2477-2479 | a name in a list stays there as the source grows |
| ParMerge.ApplyGrows | TW_Par_Editor_EN/tw1_par_editorV2_1.py:2431-2482 | applying one record only grows the source |
| ParMerge.PlacedGrows | TW_Par_Editor_EN/tw1_par_editorV2_1.py:2454-2482 | a placed entry stays placed as the source grows |
| ParMerge.ApplyPlaces | TW_Par_Editor_EN/tw1_par_editorV2_1.py:2454-2482 | after an `input_only` record, its name is in the target list |
| ParMerge.MergeStep | TW_Par_Editor_EN/tw1_par_editorV2_1.py:2441-2482 | a merge that got past a record got past every record before it, and that record applied to their result |
| ParMerge.MergeGrows | TW_Par_Editor_EN/tw1_par_editorV2_1.py:2424-2482 | after a merge without error the source has only grown: no list or entry was removed or renamed |
| ParMerge.FirstPass | TW_Par_Editor_EN/tw1_par_editorV2_1.py:2424-2482 | after a merge without error, every applicable `input_only` record's name is in its target list |
| ParMerge.SecondPass | TW_Par_Editor_EN/tw1_par_editorV2_1.py:2424-2482 | merging records whose names are all in place raises nothing and adds nothing |
| ParMerge.MergeTwiceAddsNothing | TW_Par_Editor_EN/tw1_par_editorV2_1.py:2424-2482 | repeating a merge that raised nothing, when no changed record counts from the end, raises nothing and adds no entry; field copies may still change values |
| ParMerge.SafeNeverFails | TW_Par_Editor_EN/tw1_par_editorV2_1.py:2424-2482 | records with no negative field index, whose input-only records name existing input entries, never raise |
| ParMerge.ApplyResolves | TW_Par_Editor_EN/tw1_par_editorV2_1.py:2432-2452 | after a changed record is applied, its field in the source equals the input's field |
| ParMerge.ResolvedStep | TW_Par_Editor_EN/tw1_par_editorV2_1.py:2431-2482 | applying a record keeps an earlier changed record resolved, unless both name the same source entry and a different input entry |
| ParMerge.FirstPassResolves | TW_Par_Editor_EN/tw1_par_editorV2_1.py:2424-2482 | merging safe records in which each source entry is paired with one input entry runs to the end and leaves every changed record resolved |
| ParMerge.ResolvedAfter | TW_Par_Editor_EN/tw1_par_editorV2_1.py:2424-2482 | the step of that proof: one more record keeps all earlier ones resolved |
| ParMerge.ApplyFixed | TW_Par_Editor_EN/tw1_par_editorV2_1.py:2431-2482 | a record whose work is already done leaves the source exactly as it is and adds nothing |
| ParMerge.SecondPassFixed | TW_Par_Editor_EN/tw1_par_editorV2_1.py:2424-2482 | merging records whose work is all done leaves the source unchanged, raises nothing and adds nothing |
| ParMerge.MergeTwiceSame | TW_Par_Editor_EN/tw1_par_editorV2_1.py:2424-2482 | for such records, the first merge runs to the end and a second merge gives the same file and adds no entry |
| ParCompareTab.SelectedSpec | TW_Par_Editor_EN/tw1_par_editorV2_1.py:2405-2406 | a record is selected exactly when it sits at a ticked index |
| ParCompareTab.SelectRecords | TW_Par_Editor_EN/tw1_par_editorV2_1.py:2405-2406 | the selection loop keeps the ticked records in record order |
| ParCompareTab.SelectionFromCompare | TW_Par_Editor_EN/tw1_par_editorV2_1.py:2405-2406 | no ticked record of a comparison has a negative field index |
| ParCompareTab.SelectionSound | TW_Par_Editor_EN/tw1_par_editorV2_1.py:2405-2406 | every ticked record describes a real difference between the two files |
| ParCompareTab.MergeIdempotent | TW_Par_Editor_EN/tw1_par_editorV2_1.py:2399-2482 | whatever is ticked after a comparison, the merge raises nothing, and merging the same selection again into the result gives the same file and adds no entry |
| ParCompareTab.CompareTab.constructor | TW_Par_Editor_EN/tw1_par_editorV2_1.py:2061-2075 | a tab over the loaded files, with no records and nothing ticked |
| ParCompareTab.CompareTab.LoadSource | TW_Par_Editor_EN/tw1_par_editorV2_1.py:2061-2067 | a loaded file replaces the source; the records and ticks are kept |
| ParCompareTab.CompareTab.LoadInput | TW_Par_Editor_EN/tw1_par_editorV2_1.py:2069-2075 | a loaded file replaces the input; the records and ticks are kept |
| ParCompareTab.CompareTab.RunCompare | TW_Par_Editor_EN/tw1_par_editorV2_1.py:2129-2143 | with either file missing nothing changes; otherwise the records become `Diffs(source, input)` and nothing is ticked (2283-2285) |
| ParCompareTab.CompareTab.Merge | TW_Par_Editor_EN/tw1_par_editorV2_1.py:2399-2482 | without both files, a selection and a confirmation nothing changes; otherwise the source becomes the merge of the ticked records, the counters are the merge's, and the records are not recomputed |

## Left out

- The Tk user interface is not modelled. This covers the widgets, the tree
  and its population, the theme, the tooltips, the labels and status
  texts, and the `_update_title` and selection calls after each command.
- The dialogs are parameters. These are the file dialogs, the
  `askstring` answers and the `askyesno` confirmations, which include the
  merge confirmation and the "Duplicate anyway?" question.
- The checkbox, select-all, filter and tree-click handlers of the compare
  tab are not modelled. The tab's ticked set is a field that these
  handlers would change. The handlers also refuse to tick `source_only`
  records, but `Apply` ignores those records anyway.
- The compare tab's optional third ("original") file only fills a display
  column. It does not change which records exist, so it is left out.
- The display fields of a record are left out: the field label and the
  value strings from `_cmp_field_value_str`. Label lookup only annotates
  records.
- Floating point is abstract. Float32 values are 32-bit patterns. The 1e-7
  closeness of scalar floats, and the exact `==` on float-array elements,
  are the two function values of a `FloatCmp`. "No NaN" is the requirement
  that both are reflexive. `write_f32(float(v))` is assumed to give back
  the bits read by `read_f32`; this fails for signalling NaNs.
- zlib is a pair of function parameters. It is constrained only by the
  `Lawful` predicate (the leading 0x78 byte, and inflate undoing deflate
  with unused input kept). Recompressed bytes are not compared with the
  original compressed bytes.
- The earlier `decompress_par_file` and `compress_par_file` in
  `tw1_par_editor.py` are not modelled. They are rebound by the later
  definitions and never run.
- JSON export and import, file I/O, the labels and descriptions stores,
  the CLI and the entry points are not modelled.
- Read-then-write byte exactness holds only for strict files
  (`ParCanonical.ReadThenWrite`). For a file that is not strict the bytes
  written differ from the bytes read, and the model proves that they do
  for each of the three causes rather than modelling a normalising pass.
- ParText.Lower: lower-cases the ASCII letters only. Python's Unicode case
  mapping is not modelled. The whitespace test of `strip` (`ParText.IsSpace`)
  is Python's full `str.isspace` set.
- Integer widths are subset types (`u8`, `i8`, `u16`, `u32`, `i32`, `u64` in
  `wire.dfy`). `ParWriter.WriteI8`, `WriteI32` and `WriteU64` accept only
  in-range values, so the `struct.error` that `write_i8`, `write_i32` and
  `write_u64` raise on an out-of-range argument is excluded by typing, and
  `WriteU8` takes a `u8`, so the `& 0xFF` mask of `write_u8` never acts.
  Every value the core writes was read or copied from a read file, or is a
  type tag 0..7, so it is always in range. `write_u16` and `write_u32` are
  modelled with their masks.
- A `\d` in the name pattern matches ASCII digits only here. Python's
  Unicode digits are not modelled.
- ParEditing.ParEditor.RenameEntry: when the entry index is out of range,
  the source raises IndexError before any change. The model leaves the
  state unchanged, which is the same observable result.
- ParCompareTab.CompareTab.Merge: when a record raises IndexError part way
  through, the source keeps the records applied before it, as in Python.
  The exception itself is reported only as the `raised` flag.
- The entry objects inside a list are values, so Python's in-place updates
  of nested objects become reassignments of the whole file value. No
  aliasing exists between the source and the input, because the merge
  copies everything it takes from the input.
