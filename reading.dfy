/** ParReader and read_par: a bounds-checked cursor over the buffer and the
    reading loops built on it. Every method is proved to compute the parse
    function of ParFormat at the cursor it starts from. A raised ValueError
    is an `Err` result; the caller gives up on the reader after one. */
module ParReading {
  import opened Wire
  import opened ParModel
  import opened ParFormat

  class ParReader {
    const data: seq<byte>
    const size: nat
    var pos: nat

    ghost predicate Valid()
      reads this
    {
      size == |data| && pos <= size
    }

    constructor (data: seq<byte>)
      ensures Valid() && this.data == data && pos == 0
    {
      this.data := data;
      this.size := |data|;
      this.pos := 0;
    }

    /** read_bytes: the next n bytes; past the end it fails and the cursor
        stays where it was. */
    method ReadBytes(n: nat) returns (r: Result<seq<byte>>)
      requires Valid()
      modifies this
      ensures Valid()
      ensures r == Drop(Take(data, old(pos), n)) && pos == After(Take(data, old(pos), n), old(pos))
    {
      if pos + n > size {
        return Err(OutOfBounds(pos, n));
      }
      r := Ok(data[pos..pos + n]);
      pos := pos + n;
    }

    /** _advance: checks that n bytes remain, moves past them and returns
        the offset they start at. */
    method Advance(n: nat) returns (r: Result<nat>)
      requires Valid()
      modifies this
      ensures Valid()
      ensures old(pos) + n > |data| ==> r == Err(OutOfBounds(old(pos), n)) && pos == old(pos)
      ensures old(pos) + n <= |data| ==> r == Ok(old(pos)) && pos == old(pos) + n
    {
      if pos + n > size {
        return Err(OutOfBounds(pos, n));
      }
      r := Ok(pos);
      pos := pos + n;
    }

    method ReadU8() returns (r: Result<u8>)
      requires Valid()
      modifies this
      ensures Valid()
      ensures r == Drop(ParseU8(data, old(pos))) && pos == After(ParseU8(data, old(pos)), old(pos))
    {
      var p := Advance(1);
      if p.Err? {
        return Err(p.error);
      }
      r := Ok(data[p.value]);
    }

    method ReadI8() returns (r: Result<i8>)
      requires Valid()
      modifies this
      ensures Valid()
      ensures r == Drop(ParseI8(data, old(pos))) && pos == After(ParseI8(data, old(pos)), old(pos))
    {
      var p := Advance(1);
      if p.Err? {
        return Err(p.error);
      }
      var b := data[p.value];
      r := Ok(if b >= 0x80 then b as int - 0x100 else b as int);
    }

    method ReadU16() returns (r: Result<u16>)
      requires Valid()
      modifies this
      ensures Valid()
      ensures r == Drop(ParseU16(data, old(pos))) && pos == After(ParseU16(data, old(pos)), old(pos))
    {
      var p := Advance(2);
      if p.Err? {
        return Err(p.error);
      }
      r := Ok(U16At(data, p.value));
    }

    method ReadU32() returns (r: Result<u32>)
      requires Valid()
      modifies this
      ensures Valid()
      ensures r == Drop(ParseU32(data, old(pos))) && pos == After(ParseU32(data, old(pos)), old(pos))
    {
      var p := Advance(4);
      if p.Err? {
        return Err(p.error);
      }
      r := Ok(U32At(data, p.value));
    }

    method ReadI32() returns (r: Result<i32>)
      requires Valid()
      modifies this
      ensures Valid()
      ensures r == Drop(ParseI32(data, old(pos))) && pos == After(ParseI32(data, old(pos)), old(pos))
    {
      var p := Advance(4);
      if p.Err? {
        return Err(p.error);
      }
      var x: int := U32At(data, p.value);
      r := Ok(if x >= 0x8000_0000 then x - 0x1_0000_0000 else x);
    }

    /** read_f32: the four bytes, kept as their bit pattern. */
    method ReadF32() returns (r: Result<u32>)
      requires Valid()
      modifies this
      ensures Valid()
      ensures r == Drop(ParseU32(data, old(pos))) && pos == After(ParseU32(data, old(pos)), old(pos))
    {
      var p := Advance(4);
      if p.Err? {
        return Err(p.error);
      }
      r := Ok(U32At(data, p.value));
    }

    method ReadU64() returns (r: Result<u64>)
      requires Valid()
      modifies this
      ensures Valid()
      ensures r == Drop(ParseU64(data, old(pos))) && pos == After(ParseU64(data, old(pos)), old(pos))
    {
      var p := Advance(8);
      if p.Err? {
        return Err(p.error);
      }
      r := Ok(U64At(data, p.value));
    }

    /** read_delphi_string. A failure after the length was read leaves the
        cursor just past the length. */
    method ReadDelphiString() returns (r: Result<string>)
      requires Valid()
      modifies this
      ensures Valid()
      ensures r == Drop(ParseString(data, old(pos)))
      ensures r.Ok? ==> pos == ParseString(data, old(pos)).value.1
      ensures r.Err? ==> pos == After(ParseU32(data, old(pos)), old(pos))
    {
      var length := ReadU32();
      if length.Err? {
        return Err(length.error);
      }
      if length.value > MAX_STRING_LEN {
        return Err(CorruptLength(length.value, pos));
      }
      if length.value == 0 {
        return Ok("");
      }
      var raw := ReadBytes(length.value);
      if raw.Err? {
        return Err(raw.error);
      }
      DecodeAtSlice(data, old(pos) + 4, length.value);
      r := Ok(DecodeBytes(raw.value));
    }
  }

  /** The `fmt_char` of _read_extra_array: 'i', 'f' or 'I'. */
  datatype NumFormat = FmtI32 | FmtF32 | FmtU32

  /** _read_extra_array: the presence word, then for a nonzero one the
      count and that many numbers of the given format. */
  method ReadExtraArray(r: ParReader, fmt: NumFormat) returns (res: Result<seq<int>>)
    requires r.Valid()
    modifies r
    ensures r.Valid()
    ensures fmt == FmtI32 ==> res == Drop(ParseArray<i32>(r.data, old(r.pos), ParseI32))
                              && (res.Ok? ==> r.pos == ParseArray<i32>(r.data, old(r.pos), ParseI32).value.1)
    ensures fmt != FmtI32 ==> res == Drop(ParseArray<u32>(r.data, old(r.pos), ParseU32))
                              && (res.Ok? ==> r.pos == ParseArray<u32>(r.data, old(r.pos), ParseU32).value.1)
  {
    var check := r.ReadU64();
    if check.Err? {
      return Err(check.error);
    }
    if check.value == 0 {
      return Ok([]);
    }
    var length := r.ReadU32();
    if length.Err? {
      return Err(length.error);
    }
    res := ReadItems(r, fmt, length.value);
  }

  /** The item loop of _read_extra_array: `count` numbers in the format. */
  method ReadItems(r: ParReader, fmt: NumFormat, count: nat) returns (res: Result<seq<int>>)
    requires r.Valid()
    modifies r
    ensures r.Valid()
    ensures fmt == FmtI32 ==> res == Drop(ParseMany<i32>(r.data, old(r.pos), count, ParseI32))
                              && (res.Ok? ==> r.pos == ParseMany<i32>(r.data, old(r.pos), count, ParseI32).value.1)
    ensures fmt != FmtI32 ==> res == Drop(ParseMany<u32>(r.data, old(r.pos), count, ParseU32))
                              && (res.Ok? ==> r.pos == ParseMany<u32>(r.data, old(r.pos), count, ParseU32).value.1)
  {
    var start := r.pos;
    var values: seq<int> := [];
    var i := 0;
    PrependNothing(ParseMany<i32>(r.data, start, count, ParseI32));
    PrependNothing(ParseMany<u32>(r.data, start, count, ParseU32));
    while i < count
      invariant r.Valid() && 0 <= i <= count
      invariant fmt == FmtI32 ==> (forall k :: 0 <= k < |values| ==> -0x8000_0000 <= values[k] < 0x8000_0000)
      invariant fmt == FmtI32 ==>
        Prepend<i32>(values, ParseMany<i32>(r.data, r.pos, count - i, ParseI32)) == ParseMany<i32>(r.data, start, count, ParseI32)
      invariant fmt != FmtI32 ==> (forall k :: 0 <= k < |values| ==> 0 <= values[k] < 0x1_0000_0000)
      invariant fmt != FmtI32 ==>
        Prepend<u32>(values, ParseMany<u32>(r.data, r.pos, count - i, ParseU32)) == ParseMany<u32>(r.data, start, count, ParseU32)
    {
      ghost var p := r.pos;
      var v: Result<int>;
      if fmt == FmtI32 {
        v := r.ReadI32();
      } else if fmt == FmtF32 {
        v := r.ReadF32();
      } else {
        v := r.ReadU32();
      }
      if v.Err? {
        if fmt == FmtI32 {
          ParseManyFails<i32>(r.data, p, count - i, ParseI32);
        } else {
          ParseManyFails<u32>(r.data, p, count - i, ParseU32);
        }
        return Err(v.error);
      }
      if fmt == FmtI32 {
        ParseManyStep<i32>(r.data, p, count - i, ParseI32, values);
      } else {
        ParseManyStep<u32>(r.data, p, count - i, ParseU32, values);
      }
      values := values + [v.value];
      i := i + 1;
    }
    ParseManyDone<i32>(r.data, r.pos, ParseI32);
    ParseManyDone<u32>(r.data, r.pos, ParseU32);
    assert values + [] == values;
    res := Ok(values);
  }

  /** _read_extra_string_array: as _read_extra_array, with length-prefixed
      strings as the items. */
  method ReadExtraStringArray(r: ParReader) returns (res: Result<seq<string>>)
    requires r.Valid()
    modifies r
    ensures r.Valid()
    ensures res == Drop(ParseArray(r.data, old(r.pos), ParseString))
    ensures res.Ok? ==> r.pos == ParseArray(r.data, old(r.pos), ParseString).value.1
  {
    var check := r.ReadU64();
    if check.Err? {
      return Err(check.error);
    }
    if check.value == 0 {
      return Ok([]);
    }
    var length := r.ReadU32();
    if length.Err? {
      return Err(length.error);
    }
    var start := r.pos;
    var values: seq<string> := [];
    var i := 0;
    PrependNothing(ParseMany(r.data, start, length.value, ParseString));
    while i < length.value
      invariant r.Valid() && 0 <= i <= length.value
      invariant Prepend(values, ParseMany(r.data, r.pos, length.value - i, ParseString)) == ParseMany(r.data, start, length.value, ParseString)
    {
      ghost var p := r.pos;
      var v := r.ReadDelphiString();
      if v.Err? {
        ParseManyFails(r.data, p, length.value - i, ParseString);
        return Err(v.error);
      }
      ParseManyStep(r.data, p, length.value - i, ParseString, values);
      values := values + [v.value];
      i := i + 1;
    }
    ParseManyDone(r.data, r.pos, ParseString);
    assert values + [] == values;
    res := Ok(values);
  }

  /** One field value by its type tag: the if/elif chain of read_par. */
  method ReadValue(r: ParReader, dtype: u8) returns (res: Result<Field>)
    requires r.Valid()
    modifies r
    ensures r.Valid()
    ensures res == Drop(ParseValue(dtype, r.data, old(r.pos)))
    ensures res.Ok? ==> r.pos == ParseValue(dtype, r.data, old(r.pos)).value.1
  {
    if dtype == TYPE_INT32 {
      var v := r.ReadI32();
      if v.Err? { return Err(v.error); }
      res := Ok(Int32(v.value));
    } else if dtype == TYPE_FLOAT32 {
      var v := r.ReadF32();
      if v.Err? { return Err(v.error); }
      res := Ok(Float32(v.value));
    } else if dtype == TYPE_UINT32 {
      var v := r.ReadU32();
      if v.Err? { return Err(v.error); }
      res := Ok(UInt32(v.value));
    } else if dtype == TYPE_STRING {
      var v := r.ReadDelphiString();
      if v.Err? { return Err(v.error); }
      res := Ok(Str(v.value));
    } else if dtype == TYPE_ARRAY_INT32 {
      var v := ReadExtraArray(r, FmtI32);
      if v.Err? { return Err(v.error); }
      res := Ok(Int32Array(v.value));
    } else if dtype == TYPE_ARRAY_FLOAT {
      var v := ReadExtraArray(r, FmtF32);
      if v.Err? { return Err(v.error); }
      res := Ok(Float32Array(v.value));
    } else if dtype == TYPE_ARRAY_UINT32 {
      var v := ReadExtraArray(r, FmtU32);
      if v.Err? { return Err(v.error); }
      res := Ok(UInt32Array(v.value));
    } else if dtype == TYPE_ARRAY_STR {
      var v := ReadExtraStringArray(r);
      if v.Err? { return Err(v.error); }
      res := Ok(StrArray(v.value));
    } else {
      res := Err(UnknownFieldType(dtype, r.pos));
    }
  }

  /** The type list of an entry: `count` type bytes. */
  method ReadTypeList(r: ParReader, count: nat) returns (res: Result<seq<u8>>)
    requires r.Valid()
    modifies r
    ensures r.Valid()
    ensures res == Drop(ParseMany(r.data, old(r.pos), count, ParseU8))
    ensures res.Ok? ==> r.pos == ParseMany(r.data, old(r.pos), count, ParseU8).value.1
  {
    var typeList: seq<u8> := [];
    var i := 0;
    PrependNothing(ParseMany(r.data, r.pos, count, ParseU8));
    while i < count
      invariant r.Valid() && 0 <= i <= count
      invariant Prepend(typeList, ParseMany(r.data, r.pos, count - i, ParseU8)) == ParseMany(r.data, old(r.pos), count, ParseU8)
    {
      ghost var p := r.pos;
      var t := r.ReadU8();
      if t.Err? {
        ParseManyFails(r.data, p, count - i, ParseU8);
        return Err(t.error);
      }
      ParseManyStep(r.data, p, count - i, ParseU8, typeList);
      typeList := typeList + [t.value];
      i := i + 1;
    }
    ParseManyDone(r.data, r.pos, ParseU8);
    assert typeList + [] == typeList;
    res := Ok(typeList);
  }

  /** The data entry list of an entry: one value per type, in order. */
  method ReadFieldValues(r: ParReader, typeList: seq<u8>) returns (res: Result<seq<Field>>)
    requires r.Valid()
    modifies r
    ensures r.Valid()
    ensures res == Drop(ParseValues(typeList, r.data, old(r.pos)))
    ensures res.Ok? ==> r.pos == ParseValues(typeList, r.data, old(r.pos)).value.1
  {
    var fields: seq<Field> := [];
    var j := 0;
    PrependNothing(ParseValues(typeList, r.data, r.pos));
    while j < |typeList|
      invariant r.Valid() && 0 <= j <= |typeList|
      invariant Prepend(fields, ParseValues(typeList[j..], r.data, r.pos)) == ParseValues(typeList, r.data, old(r.pos))
    {
      ghost var p := r.pos;
      var f := ReadValue(r, typeList[j]);
      if f.Err? {
        ParseEachFails(typeList[j..], r.data, p, ParseValue);
        return Err(f.error);
      }
      ParseEachStep(typeList[j..], r.data, p, ParseValue, fields);
      assert typeList[j..][1..] == typeList[j + 1..];
      fields := fields + [f.value];
      j := j + 1;
    }
    ParseEachDone(typeList[j..], r.data, r.pos, ParseValue);
    assert fields + [] == fields;
    res := Ok(fields);
  }

  /** One entry of read_par: name, signed byte, field count, the two u16
      words, the type list, then one value per type. */
  method ReadEntry(r: ParReader) returns (res: Result<Entry>)
    requires r.Valid()
    modifies r
    ensures r.Valid()
    ensures res == Drop(ParseEntry(r.data, old(r.pos)))
    ensures res.Ok? ==> r.pos == ParseEntry(r.data, old(r.pos)).value.1
  {
    var name := r.ReadDelphiString();
    if name.Err? { return Err(name.error); }
    var b := r.ReadI8();
    if b.Err? { return Err(b.error); }
    var count := r.ReadU16();
    if count.Err? { return Err(count.error); }
    var ua := r.ReadU16();
    if ua.Err? { return Err(ua.error); }
    var ub := r.ReadU16();
    if ub.Err? { return Err(ub.error); }

    var typeList := ReadTypeList(r, count.value);
    if typeList.Err? { return Err(typeList.error); }
    var fields := ReadFieldValues(r, typeList.value);
    if fields.Err? { return Err(fields.error); }
    res := Ok(Entry(name.value, b.value, ua.value, ub.value, fields.value));
  }

  /** The entries of a list: `count` entries back to back. */
  method ReadEntries(r: ParReader, count: nat) returns (res: Result<seq<Entry>>)
    requires r.Valid()
    modifies r
    ensures r.Valid()
    ensures res == Drop(ParseMany(r.data, old(r.pos), count, ParseEntry))
    ensures res.Ok? ==> r.pos == ParseMany(r.data, old(r.pos), count, ParseEntry).value.1
  {
    var entries: seq<Entry> := [];
    var i := 0;
    PrependNothing(ParseMany(r.data, r.pos, count, ParseEntry));
    while i < count
      invariant r.Valid() && 0 <= i <= count
      invariant Prepend(entries, ParseMany(r.data, r.pos, count - i, ParseEntry)) == ParseMany(r.data, old(r.pos), count, ParseEntry)
    {
      ghost var p := r.pos;
      var e := ReadEntry(r);
      if e.Err? {
        ParseManyFails(r.data, p, count - i, ParseEntry);
        return Err(e.error);
      }
      ParseManyStep(r.data, p, count - i, ParseEntry, entries);
      entries := entries + [e.value];
      i := i + 1;
    }
    ParseManyDone(r.data, r.pos, ParseEntry);
    assert entries + [] == entries;
    res := Ok(entries);
  }

  /** One list of read_par: two u32 words, the entry count, the entries. */
  method ReadList(r: ParReader) returns (res: Result<ParList>)
    requires r.Valid()
    modifies r
    ensures r.Valid()
    ensures res == Drop(ParseList(r.data, old(r.pos)))
    ensures res.Ok? ==> r.pos == ParseList(r.data, old(r.pos)).value.1
  {
    var u1 := r.ReadU32();
    if u1.Err? { return Err(u1.error); }
    var u2 := r.ReadU32();
    if u2.Err? { return Err(u2.error); }
    var count := r.ReadU32();
    if count.Err? { return Err(count.error); }
    var entries := ReadEntries(r, count.value);
    if entries.Err? { return Err(entries.error); }
    res := Ok(ParList(u1.value, u2.value, entries.value));
  }

  /** read_par: it computes `ParseFile`, so it refuses a wrong magic, keeps
      the bytes after the last list only when there are some, and reads
      back what write_par writes (`ParseEncFile`). */
  method ReadPar(data: seq<byte>) returns (res: Result<ParFile>)
    ensures res == ParseFile(data)
  {
    var r := new ParReader(data);
    var magic := r.ReadBytes(4);
    if magic.Err? { return Err(magic.error); }
    if magic.value != PAR_MAGIC {
      return Err(BadMagic(magic.value));
    }
    var version := r.ReadU32();
    if version.Err? { return Err(version.error); }
    var listCount := r.ReadU32();
    if listCount.Err? { return Err(listCount.error); }
    var pad := r.ReadU32();
    if pad.Err? { return Err(pad.error); }

    var lists: seq<ParList> := [];
    var li := 0;
    PrependNothing(ParseMany(data, 16, listCount.value, ParseList));
    while li < listCount.value
      invariant r.Valid() && r.data == data && 0 <= li <= listCount.value
      invariant Prepend(lists, ParseMany(data, r.pos, listCount.value - li, ParseList)) == ParseMany(data, 16, listCount.value, ParseList)
    {
      ghost var p := r.pos;
      var pl := ReadList(r);
      if pl.Err? {
        ParseManyFails(data, p, listCount.value - li, ParseList);
        return Err(pl.error);
      }
      ParseManyStep(data, p, listCount.value - li, ParseList, lists);
      lists := lists + [pl.value];
      li := li + 1;
    }
    ParseManyDone(data, r.pos, ParseList);
    assert lists + [] == lists;
    var trailing := if r.pos < r.size then Some(data[r.pos..]) else None;
    res := Ok(ParFile(version.value, lists, None, false, trailing));
  }
}
