/** ParWriter and write_par: an append-only buffer and the writing loops
    built on it. Every method is proved to append exactly the encoding
    ParFormat gives for its argument. */
module ParWriting {
  import opened Wire
  import opened ParModel
  import opened ParFormat
  import opened ParReading

  class ParWriter {
    var buf: seq<byte>

    constructor ()
      ensures buf == []
    {
      buf := [];
    }

    method WriteBytes(b: seq<byte>)
      modifies this
      ensures buf == old(buf) + b
    {
      buf := buf + b;
    }

    /** write_u8 masks to 8 bits, which leaves a u8 unchanged. */
    method WriteU8(v: u8)
      modifies this
      ensures buf == old(buf) + EncU8(v)
    {
      buf := buf + [v];
    }

    method WriteI8(v: i8)
      modifies this
      ensures buf == old(buf) + EncI8(v)
    {
      buf := buf + [if v < 0 then v + 0x100 else v];
    }

    /** write_u16 and write_u32 mask their argument to the width. */
    method WriteU16(v: nat)
      modifies this
      ensures buf == old(buf) + EncU16(Mask16(v))
    {
      var x := Mask16(v);
      buf := buf + [x % 0x100, x / 0x100];
    }

    method WriteU32(v: nat)
      modifies this
      ensures buf == old(buf) + EncU32(Mask32(v))
    {
      var x := Mask32(v);
      var lo, hi := x % 0x1_0000, x / 0x1_0000;
      buf := buf + [lo % 0x100, lo / 0x100, hi % 0x100, hi / 0x100];
    }

    method WriteI32(v: i32)
      modifies this
      ensures buf == old(buf) + EncI32(v)
    {
      WriteU32(if v < 0 then v + 0x1_0000_0000 else v);
    }

    /** write_f32: the value's 32-bit pattern. */
    method WriteF32(bits: u32)
      modifies this
      ensures buf == old(buf) + EncU32(bits)
    {
      WriteU32(bits);
    }

    method WriteU64(v: u64)
      modifies this
      ensures buf == old(buf) + EncU64(v)
    {
      WriteU32(v % 0x1_0000_0000);
      WriteU32(v / 0x1_0000_0000);
    }

    /** write_delphi_string: the byte count of the ASCII encoding, then the
        bytes. */
    method WriteDelphiString(s: string)
      modifies this
      ensures buf == old(buf) + EncString(s)
    {
      var encoded := EncodeChars(s);
      WriteU32(|encoded|);
      buf := buf + encoded;
    }
  }

  /** _write_extra_array: eight zero bytes for an empty array; otherwise
      the presence word 1, the count and the numbers in the given format. */
  method WriteExtraArray(w: ParWriter, values: seq<int>, fmt: NumFormat)
    requires fmt == FmtI32 ==> forall k :: 0 <= k < |values| ==> -0x8000_0000 <= values[k] < 0x8000_0000
    requires fmt != FmtI32 ==> forall k :: 0 <= k < |values| ==> 0 <= values[k] < 0x1_0000_0000
    modifies w
    ensures fmt == FmtI32 ==> w.buf == old(w.buf) + EncArray<i32>(values, EncI32)
    ensures fmt != FmtI32 ==> w.buf == old(w.buf) + EncArray<u32>(values, EncU32)
  {
    if |values| == 0 {
      w.WriteU64(0);
      return;
    }
    w.WriteU64(1);
    w.WriteU32(|values|);
    WriteItems(w, values, fmt);
  }

  /** The item loop of _write_extra_array: the numbers in the format. */
  method WriteItems(w: ParWriter, values: seq<int>, fmt: NumFormat)
    requires fmt == FmtI32 ==> forall k :: 0 <= k < |values| ==> -0x8000_0000 <= values[k] < 0x8000_0000
    requires fmt != FmtI32 ==> forall k :: 0 <= k < |values| ==> 0 <= values[k] < 0x1_0000_0000
    modifies w
    ensures fmt == FmtI32 ==> w.buf == old(w.buf) + Concat<i32>(values, EncI32)
    ensures fmt != FmtI32 ==> w.buf == old(w.buf) + Concat<u32>(values, EncU32)
  {
    var i := 0;
    ConcatNothing<i32>(values[..0], EncI32);
    ConcatNothing<u32>(values[..0], EncU32);
    while i < |values|
      invariant 0 <= i <= |values|
      invariant fmt == FmtI32 ==> w.buf == old(w.buf) + Concat<i32>(values[..i], EncI32)
      invariant fmt != FmtI32 ==> w.buf == old(w.buf) + Concat<u32>(values[..i], EncU32)
    {
      assert values[..i + 1] == values[..i] + [values[i]];
      if fmt == FmtI32 {
        w.WriteI32(values[i]);
        ConcatSnoc<i32>(values[..i], values[i], EncI32);
      } else if fmt == FmtF32 {
        w.WriteF32(values[i]);
        ConcatSnoc<u32>(values[..i], values[i], EncU32);
      } else {
        w.WriteU32(values[i]);
        ConcatSnoc<u32>(values[..i], values[i], EncU32);
      }
      i := i + 1;
    }
    assert values[..i] == values;
  }

  /** _write_extra_string_array: as _write_extra_array, with
      length-prefixed strings as the items. */
  method WriteExtraStringArray(w: ParWriter, values: seq<string>)
    modifies w
    ensures w.buf == old(w.buf) + EncArray(values, EncString)
  {
    if |values| == 0 {
      w.WriteU64(0);
      return;
    }
    w.WriteU64(1);
    w.WriteU32(|values|);
    ghost var head := w.buf;
    var i := 0;
    ConcatNothing(values[..0], EncString);
    while i < |values|
      invariant 0 <= i <= |values|
      invariant w.buf == head + Concat(values[..i], EncString)
    {
      assert values[..i + 1] == values[..i] + [values[i]];
      w.WriteDelphiString(values[i]);
      ConcatSnoc(values[..i], values[i], EncString);
      i := i + 1;
    }
    assert values[..i] == values;
  }

  /** One field value, written by its type: the if/elif chain of
      write_par. */
  method WriteValue(w: ParWriter, f: Field)
    modifies w
    ensures w.buf == old(w.buf) + EncValue(f)
  {
    match f
    case Int32(v) => w.WriteI32(v);
    case Float32(b) => w.WriteF32(b);
    case UInt32(v) => w.WriteU32(v);
    case Str(s) => w.WriteDelphiString(s);
    case Int32Array(xs) => WriteExtraArray(w, xs, FmtI32);
    case Float32Array(xs) => WriteExtraArray(w, xs, FmtF32);
    case UInt32Array(xs) => WriteExtraArray(w, xs, FmtU32);
    case StrArray(xs) => WriteExtraStringArray(w, xs);
  }

  /** The type list of an entry: one byte per field. */
  method WriteTypeList(w: ParWriter, fields: seq<Field>)
    modifies w
    ensures w.buf == old(w.buf) + Concat(TagsOf(fields), TagByte)
  {
    var i := 0;
    ConcatNothing(TagsOf(fields[..0]), TagByte);
    while i < |fields|
      invariant 0 <= i <= |fields|
      invariant w.buf == old(w.buf) + Concat(TagsOf(fields[..i]), TagByte)
    {
      assert TagsOf(fields[..i + 1]) == TagsOf(fields[..i]) + [fields[i].Tag()];
      w.WriteU8(fields[i].Tag());
      ConcatSnoc(TagsOf(fields[..i]), fields[i].Tag(), TagByte);
      i := i + 1;
    }
    assert fields[..i] == fields;
  }

  /** The data entry list of an entry: the values in field order. */
  method WriteFieldValues(w: ParWriter, fields: seq<Field>)
    modifies w
    ensures w.buf == old(w.buf) + Concat(fields, EncValue)
  {
    var i := 0;
    ConcatNothing(fields[..0], EncValue);
    while i < |fields|
      invariant 0 <= i <= |fields|
      invariant w.buf == old(w.buf) + Concat(fields[..i], EncValue)
    {
      assert fields[..i + 1] == fields[..i] + [fields[i]];
      WriteValue(w, fields[i]);
      ConcatSnoc(fields[..i], fields[i], EncValue);
      i := i + 1;
    }
    assert fields[..i] == fields;
  }

  /** One entry of write_par; the field count is written masked to 16 bits. */
  method WriteEntry(w: ParWriter, e: Entry)
    modifies w
    ensures w.buf == old(w.buf) + EncEntry(e)
  {
    w.WriteDelphiString(e.name);
    w.WriteI8(e.unknownByte);
    w.WriteU16(|e.fields|);
    w.WriteU16(e.unknownU16a);
    w.WriteU16(e.unknownU16b);
    WriteTypeList(w, e.fields);
    WriteFieldValues(w, e.fields);
  }

  /** The entries of a list, in order. */
  method WriteEntries(w: ParWriter, entries: seq<Entry>)
    modifies w
    ensures w.buf == old(w.buf) + Concat(entries, EncEntry)
  {
    var i := 0;
    ConcatNothing(entries[..0], EncEntry);
    while i < |entries|
      invariant 0 <= i <= |entries|
      invariant w.buf == old(w.buf) + Concat(entries[..i], EncEntry)
    {
      assert entries[..i + 1] == entries[..i] + [entries[i]];
      WriteEntry(w, entries[i]);
      ConcatSnoc(entries[..i], entries[i], EncEntry);
      i := i + 1;
    }
    assert entries[..i] == entries;
  }

  method WriteList(w: ParWriter, pl: ParList)
    modifies w
    ensures w.buf == old(w.buf) + EncList(pl)
  {
    w.WriteU32(pl.unknown1);
    w.WriteU32(pl.unknown2);
    w.WriteU32(|pl.entries|);
    WriteEntries(w, pl.entries);
  }

  /** write_par: it computes `EncFile`, so the reserved word is written as
      0, the trailing bytes follow verbatim when there are some, and
      read_par reads the result back (`ParseEncFile`). */
  method WritePar(par: ParFile) returns (out: seq<byte>)
    ensures out == EncFile(par)
  {
    var w := new ParWriter();
    w.WriteBytes(PAR_MAGIC);
    w.WriteU32(par.version);
    w.WriteU32(|par.lists|);
    w.WriteU32(0);
    var i := 0;
    ConcatNothing(par.lists[..0], EncList);
    while i < |par.lists|
      invariant 0 <= i <= |par.lists|
      invariant w.buf == EncHeader(par) + Concat(par.lists[..i], EncList)
    {
      assert par.lists[..i + 1] == par.lists[..i] + [par.lists[i]];
      WriteList(w, par.lists[i]);
      ConcatSnoc(par.lists[..i], par.lists[i], EncList);
      i := i + 1;
    }
    assert par.lists[..i] == par.lists;
    out := w.buf;
    if par.trailing.Some? && |par.trailing.value| > 0 {
      out := out + par.trailing.value;
    }
  }
}
