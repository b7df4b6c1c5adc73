/** Read-then-write: which byte layouts the writer reproduces exactly.
    read_par forgets three things about its input: the reserved header
    word, the value of a nonzero presence word, and the bytes the ASCII
    decoder replaced. The `Strict*` predicates say, part by part, that
    none of these was lost: the reserved word is 0, every presence word
    is 0 or else 1 with a nonzero count, and every string byte is below
    0x80. Bytes that read successfully and are strict come back from the
    writer byte for byte. */
module ParCanonical {
  import opened Wire
  import opened ParModel
  import opened ParFormat

  /** Numbers have one spelling each: nothing to check. */
  predicate AnyBytes(data: seq<byte>, pos: nat)
  {
    true
  }

  /** `item`, read at `q` where `strict` holds, consumed exactly what `enc`
      writes for the value it returned. */
  ghost predicate WritesBack<T>(item: (seq<byte>, nat) -> Result<(T, nat)>, enc: T -> seq<byte>,
                                strict: (seq<byte>, nat) -> bool)
  {
    forall data: seq<byte>, q: nat {:trigger item(data, q)} ::
      item(data, q).Ok? && strict(data, q) ==>
        && At(data, q, enc(item(data, q).value.0))
        && item(data, q).value.1 == q + |enc(item(data, q).value.0)|
  }

  // ---------------------------------------------------------------------
  // Sequences of items

  /** Each of the `n` items read back to back is strict where it starts. */
  predicate StrictMany<T>(data: seq<byte>, pos: nat, n: nat, item: (seq<byte>, nat) -> Result<(T, nat)>,
                          strict: (seq<byte>, nat) -> bool)
    decreases n
  {
    n == 0 ||
    (strict(data, pos) &&
     match item(data, pos)
     case Err(_) => true
     case Ok((_, next)) => StrictMany(data, next, n - 1, item, strict))
  }

  /** Items with nothing to check are strict. */
  lemma {:induction false} AnyStrict<T>(data: seq<byte>, pos: nat, n: nat, item: (seq<byte>, nat) -> Result<(T, nat)>)
    ensures StrictMany(data, pos, n, item, AnyBytes)
    decreases n
  {
    if n > 0 && item(data, pos).Ok? {
      AnyStrict(data, item(data, pos).value.1, n - 1, item);
    }
  }

  lemma {:induction false} ManyWritesBack<T>(data: seq<byte>, pos: nat, n: nat, item: (seq<byte>, nat) -> Result<(T, nat)>,
                                             enc: T -> seq<byte>, strict: (seq<byte>, nat) -> bool)
    requires WritesBack(item, enc, strict) && pos <= |data|
    requires ParseMany(data, pos, n, item).Ok? && StrictMany(data, pos, n, item, strict)
    ensures var (xs, end) := ParseMany(data, pos, n, item).value;
            |xs| == n && At(data, pos, Concat(xs, enc)) && end == pos + |Concat(xs, enc)|
    decreases n
  {
    assert ParseMany(data, pos, n, item) == ParseManyNext(data, pos, n, item);
    var xs := ParseMany(data, pos, n, item).value.0;
    assert Concat(xs, enc) == ConcatNext(xs, enc);
    if n == 0 {
      AtSlice(data, pos, []);
    } else {
      var (x, next) := item(data, pos).value;
      AtSlice(data, pos, enc(x));
      ManyWritesBack(data, next, n - 1, item, enc, strict);
      var rest := ParseMany(data, next, n - 1, item).value.0;
      assert xs[1..] == rest;
      AtJoin(data, pos, enc(x), Concat(rest, enc));
    }
  }

  // ---------------------------------------------------------------------
  // Strings

  /** Every payload byte of the string at `pos` is ASCII, so decoding
      replaced nothing. */
  predicate StrictString(data: seq<byte>, pos: nat)
  {
    match ParseString(data, pos)
    case Err(_) => true
    case Ok((_, end)) => forall i :: pos + 4 <= i < end ==> data[i] < 0x80
  }

  lemma {:induction false} StringWritesBack(data: seq<byte>, pos: nat)
    requires ParseString(data, pos).Ok? && StrictString(data, pos)
    ensures var (s, end) := ParseString(data, pos).value;
            At(data, pos, EncString(s)) && end == pos + |EncString(s)|
  {
    ParseU32Back(data, pos);
    var length := ParseU32(data, pos).value.0;
    var (s, end) := ParseString(data, pos).value;
    assert end == pos + 4 + length <= |data|;
    var payload := data[pos + 4..end];
    if length > 0 {
      DecodeAtSlice(data, pos + 4, length);
    }
    assert s == DecodeBytes(payload);
    assert AsciiBytes(payload) by {
      forall j | 0 <= j < |payload|
        ensures payload[j] < 0x80
      {
        assert payload[j] == data[pos + 4 + j];
      }
    }
    EncodeDecodeBytes(payload);
    AtSlice(data, pos + 4, payload);
    AtJoin(data, pos, EncU32(length), payload);
  }

  lemma {:induction false} StringsWriteBack()
    ensures WritesBack(ParseString, EncString, StrictString)
  {
    forall data: seq<byte>, q: nat | ParseString(data, q).Ok? && StrictString(data, q)
      ensures At(data, q, EncString(ParseString(data, q).value.0))
      ensures ParseString(data, q).value.1 == q + |EncString(ParseString(data, q).value.0)|
    {
      StringWritesBack(data, q);
    }
  }

  lemma {:induction false} I32sWriteBack()
    ensures WritesBack(ParseI32, EncI32, AnyBytes)
  {
    forall data: seq<byte>, q: nat | ParseI32(data, q).Ok?
      ensures At(data, q, EncI32(ParseI32(data, q).value.0))
      ensures ParseI32(data, q).value.1 == q + 4
    {
      ParseI32Back(data, q);
    }
  }

  lemma {:induction false} U32sWriteBack()
    ensures WritesBack(ParseU32, EncU32, AnyBytes)
  {
    forall data: seq<byte>, q: nat | ParseU32(data, q).Ok?
      ensures At(data, q, EncU32(ParseU32(data, q).value.0))
      ensures ParseU32(data, q).value.1 == q + 4
    {
      ParseU32Back(data, q);
    }
  }

  lemma {:induction false} TagsWriteBack()
    ensures WritesBack(ParseU8, TagByte, AnyBytes)
  {
    forall data: seq<byte>, q: nat | ParseU8(data, q).Ok?
      ensures At(data, q, TagByte(ParseU8(data, q).value.0))
      ensures ParseU8(data, q).value.1 == q + 1
    {
      ParseU8Back(data, q);
    }
  }

  // ---------------------------------------------------------------------
  // Arrays

  /** The presence word is 0, or 1 followed by a nonzero count; the items
      are strict. */
  predicate StrictArray<T>(data: seq<byte>, pos: nat, item: (seq<byte>, nat) -> Result<(T, nat)>,
                           strict: (seq<byte>, nat) -> bool)
  {
    match ParseU64(data, pos)
    case Err(_) => true
    case Ok((check, p1)) =>
      check == 0 ||
      (check == 1 &&
       match ParseU32(data, p1)
       case Err(_) => true
       case Ok((length, p2)) => length > 0 && StrictMany(data, p2, length, item, strict))
  }

  lemma {:induction false} ArrayWritesBack<T>(data: seq<byte>, pos: nat, item: (seq<byte>, nat) -> Result<(T, nat)>,
                                              enc: T -> seq<byte>, strict: (seq<byte>, nat) -> bool)
    requires WritesBack(item, enc, strict)
    requires ParseArray(data, pos, item).Ok? && StrictArray(data, pos, item, strict)
    ensures var (xs, end) := ParseArray(data, pos, item).value;
            At(data, pos, EncArray(xs, enc)) && end == pos + |EncArray(xs, enc)|
  {
    var check := ParseU64(data, pos).value.0;
    ParseU64Back(data, pos);
    AtSlice(data, pos, EncU64(check));
    var xs := ParseArray(data, pos, item).value.0;
    if check == 0 {
      assert EncArray(xs, enc) == EncU64(0);
    } else {
      var length := ParseU32(data, pos + 8).value.0;
      ParseU32Back(data, pos + 8);
      AtSlice(data, pos + 8, EncU32(length));
      ManyWritesBack(data, pos + 12, length, item, enc, strict);
      assert EncArray(xs, enc) == EncU64(1) + (EncU32(length) + Concat(xs, enc));
      AtJoin(data, pos + 8, EncU32(length), Concat(xs, enc));
      AtJoin(data, pos, EncU64(1), EncU32(length) + Concat(xs, enc));
    }
  }

  // ---------------------------------------------------------------------
  // Field values

  /** The value of type `tag` at `pos` is strict: its string bytes and its
      presence word, if it has them. */
  predicate StrictValue(tag: u8, data: seq<byte>, pos: nat)
  {
    if tag == TYPE_STRING then StrictString(data, pos)
    else if tag == TYPE_ARRAY_INT32 then StrictArray(data, pos, ParseI32, AnyBytes)
    else if tag == TYPE_ARRAY_FLOAT || tag == TYPE_ARRAY_UINT32 then StrictArray(data, pos, ParseU32, AnyBytes)
    else if tag == TYPE_ARRAY_STR then StrictArray(data, pos, ParseString, StrictString)
    else true
  }

  lemma {:induction false} ValueWritesBack(tag: u8, data: seq<byte>, pos: nat)
    requires ParseValue(tag, data, pos).Ok? && StrictValue(tag, data, pos)
    ensures var (f, end) := ParseValue(tag, data, pos).value;
            f.Tag() == tag && At(data, pos, EncValue(f)) && end == pos + |EncValue(f)|
  {
    if tag == TYPE_INT32 {
      ParseI32Back(data, pos);
    } else if tag == TYPE_FLOAT32 || tag == TYPE_UINT32 {
      ParseU32Back(data, pos);
    } else if tag == TYPE_STRING {
      StringWritesBack(data, pos);
    } else if tag == TYPE_ARRAY_INT32 {
      I32sWriteBack();
      ArrayWritesBack(data, pos, ParseI32, EncI32, AnyBytes);
    } else if tag == TYPE_ARRAY_FLOAT || tag == TYPE_ARRAY_UINT32 {
      U32sWriteBack();
      ArrayWritesBack(data, pos, ParseU32, EncU32, AnyBytes);
    } else {
      StringsWriteBack();
      ArrayWritesBack(data, pos, ParseString, EncString, StrictString);
    }
  }

  /** Each value of an entry is strict, under its own type tag. */
  predicate StrictValues(tags: seq<u8>, data: seq<byte>, pos: nat)
    decreases |tags|
  {
    |tags| == 0 ||
    (StrictValue(tags[0], data, pos) &&
     match ParseValue(tags[0], data, pos)
     case Err(_) => true
     case Ok((_, next)) => StrictValues(tags[1..], data, next))
  }

  lemma {:induction false} ValuesWriteBack(tags: seq<u8>, data: seq<byte>, pos: nat)
    requires pos <= |data| && ParseValues(tags, data, pos).Ok? && StrictValues(tags, data, pos)
    ensures var (fs, end) := ParseValues(tags, data, pos).value;
            TagsOf(fs) == tags && At(data, pos, Concat(fs, EncValue)) && end == pos + |Concat(fs, EncValue)|
    decreases |tags|
  {
    assert ParseEach(tags, data, pos, ParseValue) == ParseEachNext(tags, data, pos, ParseValue);
    var fs := ParseValues(tags, data, pos).value.0;
    assert Concat(fs, EncValue) == ConcatNext(fs, EncValue);
    if |tags| == 0 {
      AtSlice(data, pos, []);
    } else {
      ValueWritesBack(tags[0], data, pos);
      var (f, next) := ParseValue(tags[0], data, pos).value;
      AtSlice(data, pos, EncValue(f));
      ValuesWriteBack(tags[1..], data, next);
      var (rest, end) := ParseValues(tags[1..], data, next).value;
      assert ParseValues(tags, data, pos) == Ok(([f] + rest, end));
      assert fs[0] == f && fs[1..] == rest;
      assert TagsOf(fs) == [f.Tag()] + TagsOf(rest);
      AtJoin(data, pos, EncValue(f), Concat(rest, EncValue));
      assert tags == [tags[0]] + tags[1..];
    }
  }

  // ---------------------------------------------------------------------
  // Entries, lists, the file

  /** The name and every value of the entry at `pos` are strict. */
  predicate StrictEntry(data: seq<byte>, pos: nat)
  {
    match ParseString(data, pos)
    case Err(_) => true
    case Ok((_, p1)) =>
      && StrictString(data, pos)
      && match ParseU16(data, p1 + 1)
         case Err(_) => true
         case Ok((count, _)) =>
           match ParseMany(data, p1 + 7, count, ParseU8)
           case Err(_) => true
           case Ok((tags, p2)) => StrictValues(tags, data, p2)
  }

  /** The fixed-size part of an entry read at `p1` is what the writer
      emits for it. */
  lemma {:induction false} EntryHeadWritesBack(data: seq<byte>, p1: nat, e: Entry)
    requires ParseI8(data, p1) == Ok((e.unknownByte, p1 + 1))
    requires ParseU16(data, p1 + 1) == Ok((|e.fields|, p1 + 3))
    requires ParseU16(data, p1 + 3) == Ok((e.unknownU16a, p1 + 5))
    requires ParseU16(data, p1 + 5) == Ok((e.unknownU16b, p1 + 7))
    ensures At(data, p1, EncEntryHead(e))
  {
    ParseI8Back(data, p1);
    ParseU16Back(data, p1 + 1);
    ParseU16Back(data, p1 + 3);
    ParseU16Back(data, p1 + 5);
    var a, b, c, d := EncI8(e.unknownByte), EncU16(|e.fields|), EncU16(e.unknownU16a), EncU16(e.unknownU16b);
    AtJoin(data, p1 + 5, d, []);
    AtJoin(data, p1 + 3, c, d);
    AtJoin(data, p1 + 1, b, c + d);
    AtJoin(data, p1, a, b + (c + d));
    assert EncEntryHead(e) == a + (b + (c + d));
  }

  /** The type vector and the values of an entry, read from `p`, are
      what the writer emits for the values. */
  lemma {:induction false} EntryTailWritesBack(data: seq<byte>, p: nat, count: u16)
    requires p <= |data| && ParseMany(data, p, count, ParseU8).Ok?
    requires var (tags, p2) := ParseMany(data, p, count, ParseU8).value;
             ParseValues(tags, data, p2).Ok? && StrictValues(tags, data, p2)
    ensures var (tags, p2) := ParseMany(data, p, count, ParseU8).value;
            var (fs, end) := ParseValues(tags, data, p2).value;
            var tail := Concat(TagsOf(fs), TagByte) + Concat(fs, EncValue);
            |fs| == count && At(data, p, tail) && end == p + |tail|
  {
    AnyStrict(data, p, count, ParseU8);
    TagsWriteBack();
    ManyWritesBack(data, p, count, ParseU8, TagByte, AnyBytes);
    var (tags, p2) := ParseMany(data, p, count, ParseU8).value;
    AtSlice(data, p, Concat(tags, TagByte));
    ValuesWriteBack(tags, data, p2);
    var fs := ParseValues(tags, data, p2).value.0;
    AtJoin(data, p, Concat(tags, TagByte), Concat(fs, EncValue));
  }

  /** The parts a successful entry read went through. */
  lemma {:induction false} EntryParts(data: seq<byte>, pos: nat)
    requires ParseEntry(data, pos).Ok? && StrictEntry(data, pos)
    ensures ParseString(data, pos).Ok? && StrictString(data, pos)
    ensures var p1 := ParseString(data, pos).value.1;
            var (e, end) := ParseEntry(data, pos).value;
            && e.name == ParseString(data, pos).value.0
            && ParseI8(data, p1) == Ok((e.unknownByte, p1 + 1))
            && ParseU16(data, p1 + 1).Ok? && ParseU16(data, p1 + 1).value.1 == p1 + 3
            && ParseU16(data, p1 + 3) == Ok((e.unknownU16a, p1 + 5))
            && ParseU16(data, p1 + 5) == Ok((e.unknownU16b, p1 + 7))
            && ParseMany(data, p1 + 7, ParseU16(data, p1 + 1).value.0, ParseU8).Ok?
            && var (tags, p2) := ParseMany(data, p1 + 7, ParseU16(data, p1 + 1).value.0, ParseU8).value;
               ParseValues(tags, data, p2) == Ok((e.fields, end)) && StrictValues(tags, data, p2)
  {
  }

  lemma {:induction false} EntryWritesBack(data: seq<byte>, pos: nat)
    requires ParseEntry(data, pos).Ok? && StrictEntry(data, pos)
    ensures var (e, end) := ParseEntry(data, pos).value;
            At(data, pos, EncEntry(e)) && end == pos + |EncEntry(e)|
  {
    EntryParts(data, pos);
    var (e, end) := ParseEntry(data, pos).value;
    StringWritesBack(data, pos);
    var p1 := ParseString(data, pos).value.1;
    AtSlice(data, pos, EncString(e.name));
    var count := ParseU16(data, p1 + 1).value.0;
    ParseU16Back(data, p1 + 5);
    EntryTailWritesBack(data, p1 + 7, count);
    EntryHeadWritesBack(data, p1, e);
    var name, head, tail := EncString(e.name), EncEntryHead(e), Concat(TagsOf(e.fields), TagByte) + Concat(e.fields, EncValue);
    AtJoin(data, p1, head, tail);
    AtJoin(data, pos, name, head + tail);
    assert EncEntry(e) == name + (head + tail);
  }

  lemma {:induction false} EntriesWriteBack()
    ensures WritesBack(ParseEntry, EncEntry, StrictEntry)
  {
    forall data: seq<byte>, q: nat | ParseEntry(data, q).Ok? && StrictEntry(data, q)
      ensures At(data, q, EncEntry(ParseEntry(data, q).value.0))
      ensures ParseEntry(data, q).value.1 == q + |EncEntry(ParseEntry(data, q).value.0)|
    {
      EntryWritesBack(data, q);
    }
  }

  /** Every entry of the list at `pos` is strict. */
  predicate StrictList(data: seq<byte>, pos: nat)
  {
    match ParseU32(data, pos + 8)
    case Err(_) => true
    case Ok((count, p)) => StrictMany(data, p, count, ParseEntry, StrictEntry)
  }

  lemma {:induction false} ListWritesBack(data: seq<byte>, pos: nat)
    requires ParseList(data, pos).Ok? && StrictList(data, pos)
    ensures var (l, end) := ParseList(data, pos).value;
            At(data, pos, EncList(l)) && end == pos + |EncList(l)|
  {
    var (l, end) := ParseList(data, pos).value;
    ParseU32Back(data, pos);
    ParseU32Back(data, pos + 4);
    ParseU32Back(data, pos + 8);
    var a, b, c := EncU32(l.unknown1), EncU32(l.unknown2), EncU32(ParseU32(data, pos + 8).value.0);
    AtSlice(data, pos + 8, c);
    EntriesWriteBack();
    ManyWritesBack(data, pos + 12, ParseU32(data, pos + 8).value.0, ParseEntry, EncEntry, StrictEntry);
    var entries := Concat(l.entries, EncEntry);
    AtJoin(data, pos + 8, c, entries);
    AtJoin(data, pos + 4, b, c + entries);
    AtJoin(data, pos, a, b + (c + entries));
    assert EncList(l) == a + (b + (c + entries));
  }

  lemma {:induction false} ListsWriteBack()
    ensures WritesBack(ParseList, EncList, StrictList)
  {
    forall data: seq<byte>, q: nat | ParseList(data, q).Ok? && StrictList(data, q)
      ensures At(data, q, EncList(ParseList(data, q).value.0))
      ensures ParseList(data, q).value.1 == q + |EncList(ParseList(data, q).value.0)|
    {
      ListWritesBack(data, q);
    }
  }

  /** The reserved header word is 0 and every list is strict. */
  predicate StrictFile(data: seq<byte>)
  {
    && (ParseU32(data, 12).Ok? ==> ParseU32(data, 12).value.0 == 0)
    && match ParseU32(data, 8)
       case Err(_) => true
       case Ok((count, _)) => StrictMany(data, 16, count, ParseList, StrictList)
  }

  /** Read-then-write: write_par(read_par(data)) is `data` itself whenever
      read_par accepts it and it is strict. */
  lemma {:induction false} ReadThenWrite(data: seq<byte>)
    requires ParseFile(data).Ok? && StrictFile(data)
    ensures EncFile(ParseFile(data).value) == data
  {
    var f := ParseFile(data).value;
    var count := ParseU32(data, 8).value.0;
    ParseU32Back(data, 4);
    ParseU32Back(data, 8);
    ParseU32Back(data, 12);
    AtSlice(data, 12, EncU32(0));
    ListsWriteBack();
    ManyWritesBack(data, 16, count, ParseList, EncList, StrictList);
    var end := ParseMany(data, 16, count, ParseList).value.1;
    var body := Concat(f.lists, EncList);
    AtSlice(data, 0, PAR_MAGIC);
    AtJoin(data, 12, EncU32(0), body);
    AtJoin(data, 8, EncU32(count), EncU32(0) + body);
    AtJoin(data, 4, EncU32(f.version), EncU32(count) + (EncU32(0) + body));
    AtJoin(data, 0, PAR_MAGIC, EncU32(f.version) + (EncU32(count) + (EncU32(0) + body)));
    assert EncBody(f) == PAR_MAGIC + (EncU32(f.version) + (EncU32(count) + (EncU32(0) + body)));
    AtSlice(data, 0, EncBody(f));
    assert data == data[..end] + data[end..];
  }

  // ---------------------------------------------------------------------
  // Each condition is needed

  /** A string byte at or above 0x80 comes back from the writer as '?'. */
  lemma {:induction false} NonAsciiNotKept(data: seq<byte>, pos: nat, i: nat)
    requires ParseString(data, pos).Ok?
    requires pos + 4 <= i < ParseString(data, pos).value.1 && data[i] >= 0x80
    ensures !At(data, pos, EncString(ParseString(data, pos).value.0))
  {
    var length := ParseU32(data, pos).value.0;
    var s := ParseString(data, pos).value.0;
    var k := i - (pos + 4);
    var payload := data[pos + 4..pos + 4 + length];
    DecodeAtSlice(data, pos + 4, length);
    assert s == DecodeBytes(payload) && payload[k] == data[i];
    ReplacedByte(payload, k);
    assert EncString(s)[4 + k] == 0x3F;
    AtSlice(data, pos, EncString(s));
  }

  /** A byte at or above 0x80 decodes to U+FFFD, which encodes as '?'. */
  lemma ReplacedByte(payload: seq<byte>, k: nat)
    requires k < |payload| && payload[k] >= 0x80
    ensures EncodeChars(DecodeBytes(payload))[k] == 0x3F
  {
    DecodeBytesSpec(payload);
    EncodeCharsSpec(DecodeBytes(payload));
  }

  /** A presence word other than 0, or 1 over a zero count, is written
      back differently. */
  lemma {:induction false} PresenceNotKept<T>(data: seq<byte>, pos: nat, item: (seq<byte>, nat) -> Result<(T, nat)>,
                                              enc: T -> seq<byte>)
    requires ParseArray(data, pos, item).Ok?
    requires var check := ParseU64(data, pos).value.0;
             check > 1 || (check == 1 && ParseU32(data, pos + 8).value.0 == 0)
    ensures !At(data, pos, EncArray(ParseArray(data, pos, item).value.0, enc))
  {
    var xs := ParseArray(data, pos, item).value.0;
    if ParseU64(data, pos).value.0 == 1 {
      ParseManyDone(data, pos + 12, item);
    }
    if At(data, pos, EncArray(xs, enc)) {
      var tail := if |xs| == 0 then [] else EncU32(Mask32(|xs|)) + Concat(xs, enc);
      AtConcat(data, pos, EncU64(PresenceOf(|xs|)), tail);
      U64AtOf(data, pos, PresenceOf(|xs|));
    }
  }

  /** A nonzero reserved word is written back as 0. */
  lemma {:induction false} ReservedNotKept(data: seq<byte>)
    requires ParseFile(data).Ok? && ParseU32(data, 12).value.0 != 0
    ensures EncFile(ParseFile(data).value) != data
  {
    var out := EncFile(ParseFile(data).value);
    assert out[12..16] == EncU32(0);
    AtSlice(out, 12, EncU32(0));
    U32AtOf(out, 12, 0);
  }

  // ---------------------------------------------------------------------
  // What the writer emits is strict

  /** Wherever `enc` writes a value `ok` admits, `strict` holds. */
  ghost predicate StrictWhereWritten<T(!new)>(enc: T -> seq<byte>, ok: T -> bool, strict: (seq<byte>, nat) -> bool)
  {
    forall data: seq<byte>, x: T, q: nat {:trigger At(data, q, enc(x))} ::
      ok(x) && At(data, q, enc(x)) ==> strict(data, q)
  }

  lemma {:induction false} ManyStrictAt<T(!new)>(data: seq<byte>, pos: nat, xs: seq<T>, item: (seq<byte>, nat) -> Result<(T, nat)>,
                                                 enc: T -> seq<byte>, ok: T -> bool, strict: (seq<byte>, nat) -> bool)
    requires ReadsBack(item, enc, ok) && StrictWhereWritten(enc, ok, strict)
    requires (forall i :: 0 <= i < |xs| ==> ok(xs[i])) && At(data, pos, Concat(xs, enc))
    ensures StrictMany(data, pos, |xs|, item, strict)
    decreases |xs|
  {
    if |xs| > 0 {
      assert Concat(xs, enc) == ConcatNext(xs, enc);
      AtConcat(data, pos, enc(xs[0]), Concat(xs[1..], enc));
      assert item(data, pos) == Ok((xs[0], pos + |enc(xs[0])|));
      assert forall i :: 0 <= i < |xs[1..]| ==> ok(xs[1..][i]) by {
        forall i | 0 <= i < |xs[1..]| ensures ok(xs[1..][i]) { assert xs[1..][i] == xs[i + 1]; }
      }
      ManyStrictAt(data, pos + |enc(xs[0])|, xs[1..], item, enc, ok, strict);
    }
  }

  lemma {:induction false} StringStrictAt(data: seq<byte>, pos: nat, s: string)
    requires StringOk(s) && At(data, pos, EncString(s))
    ensures StrictString(data, pos)
  {
    ParseStringAt(data, pos, s);
    AtSlice(data, pos, EncString(s));
    EncodeCharsSpec(s);
    forall i | pos + 4 <= i < pos + |EncString(s)|
      ensures data[i] < 0x80
    {
      assert data[i] == EncString(s)[i - pos] == EncodeChars(s)[i - pos - 4];
    }
  }

  lemma {:induction false} StringsStrictWhereWritten()
    ensures StrictWhereWritten(EncString, StringOk, StrictString)
  {
    forall data: seq<byte>, s: string, q: nat | StringOk(s) && At(data, q, EncString(s))
      ensures StrictString(data, q)
    {
      StringStrictAt(data, q, s);
    }
  }

  lemma {:induction false} ArrayStrictAt<T(!new)>(data: seq<byte>, pos: nat, xs: seq<T>, item: (seq<byte>, nat) -> Result<(T, nat)>,
                                                  enc: T -> seq<byte>, ok: T -> bool, strict: (seq<byte>, nat) -> bool)
    requires ReadsBack(item, enc, ok) && StrictWhereWritten(enc, ok, strict)
    requires (forall i :: 0 <= i < |xs| ==> ok(xs[i])) && |xs| < 0x1_0000_0000 && At(data, pos, EncArray(xs, enc))
    ensures StrictArray(data, pos, item, strict)
  {
    if |xs| == 0 {
      AtConcat(data, pos, EncU64(0), []);
      ParseU64At(data, pos, 0);
    } else {
      ArrayItemsAt(data, pos, xs, enc);
      ParseU64At(data, pos, 1);
      ParseU32At(data, pos + 8, |xs|);
      ManyStrictAt(data, pos + 12, xs, item, enc, ok, strict);
    }
  }

  lemma {:induction false} ValueStrictAt(data: seq<byte>, pos: nat, f: Field)
    requires FieldOk(f) && At(data, pos, EncValue(f))
    ensures StrictValue(f.Tag(), data, pos)
  {
    match f
    case Str(s) => StringStrictAt(data, pos, s);
    case Int32Array(xs) =>
      I32sReadBack();
      ArrayStrictAt(data, pos, xs, ParseI32, EncI32, Always, AnyBytes);
    case Float32Array(xs) =>
      U32sReadBack();
      ArrayStrictAt(data, pos, xs, ParseU32, EncU32, Always, AnyBytes);
    case UInt32Array(xs) =>
      U32sReadBack();
      ArrayStrictAt(data, pos, xs, ParseU32, EncU32, Always, AnyBytes);
    case StrArray(xs) =>
      StringsReadBack();
      StringsStrictWhereWritten();
      ArrayStrictAt(data, pos, xs, ParseString, EncString, StringOk, StrictString);
    case _ =>
  }

  lemma {:induction false} ValuesStrictAt(data: seq<byte>, pos: nat, fs: seq<Field>)
    requires (forall i :: 0 <= i < |fs| ==> FieldOk(fs[i])) && At(data, pos, Concat(fs, EncValue))
    ensures StrictValues(TagsOf(fs), data, pos)
    decreases |fs|
  {
    if |fs| > 0 {
      assert Concat(fs, EncValue) == ConcatNext(fs, EncValue);
      AtConcat(data, pos, EncValue(fs[0]), Concat(fs[1..], EncValue));
      ValueStrictAt(data, pos, fs[0]);
      ParseValueAt(data, pos, fs[0]);
      assert TagsOf(fs)[1..] == TagsOf(fs[1..]);
      ValuesStrictAt(data, pos + |EncValue(fs[0])|, fs[1..]);
    }
  }

  lemma {:induction false} EntryStrictAt(data: seq<byte>, pos: nat, e: Entry)
    requires EntryOk(e) && At(data, pos, EncEntry(e))
    ensures StrictEntry(data, pos)
  {
    EntryLayout(data, pos, e);
    var p1 := pos + |EncString(e.name)|;
    var p2 := p1 + 7 + |Concat(TagsOf(e.fields), TagByte)|;
    ParseStringAt(data, pos, e.name);
    StringStrictAt(data, pos, e.name);
    EntryHeadAt(data, p1, e);
    EntryTagsAt(data, p1 + 7, e.fields);
    ValuesStrictAt(data, p2, e.fields);
  }

  lemma {:induction false} EntriesStrictWhereWritten()
    ensures StrictWhereWritten(EncEntry, EntryOk, StrictEntry)
  {
    forall data: seq<byte>, e: Entry, q: nat | EntryOk(e) && At(data, q, EncEntry(e))
      ensures StrictEntry(data, q)
    {
      EntryStrictAt(data, q, e);
    }
  }

  lemma {:induction false} ListStrictAt(data: seq<byte>, pos: nat, l: ParList)
    requires ListOk(l) && At(data, pos, EncList(l))
    ensures StrictList(data, pos)
  {
    AtConcat(data, pos, EncListHead(l), Concat(l.entries, EncEntry));
    ListHeadAt(data, pos, l);
    EntriesReadBack();
    EntriesStrictWhereWritten();
    ManyStrictAt(data, pos + 12, l.entries, ParseEntry, EncEntry, EntryOk, StrictEntry);
  }

  lemma {:induction false} ListsStrictWhereWritten()
    ensures StrictWhereWritten(EncList, ListOk, StrictList)
  {
    forall data: seq<byte>, l: ParList, q: nat | ListOk(l) && At(data, q, EncList(l))
      ensures StrictList(data, q)
    {
      ListStrictAt(data, q, l);
    }
  }

  /** Everything write_par emits for a file the codec carries is strict,
      so with `ParseEncFile` and `ReadThenWrite` the strict readable
      buffers are exactly the writer's outputs. */
  lemma {:induction false} WrittenIsStrict(f: ParFile)
    requires FileOk(f)
    ensures StrictFile(EncFile(f))
  {
    var data := EncFile(f);
    var body := Concat(f.lists, EncList);
    var tail := if f.trailing.Some? then f.trailing.value else [];
    AtSlice(data, 0, data);
    AtConcat3(data, 0, EncHeader(f), body, tail);
    HeaderAt(data, f);
    ListsReadBack();
    ListsStrictWhereWritten();
    ManyStrictAt(data, 16, f.lists, ParseList, EncList, ListOk, StrictList);
  }
}
