/** The PAR container grammar as functions: `Parse*` says what the reader
    produces from the bytes at a position (and where it stops), `Enc*` says
    what the writer emits for a value. The round-trip lemmas connect them. */
module ParFormat {
  import opened Wire
  import opened ParModel

  /** read_delphi_string refuses a declared length above this. */
  const MAX_STRING_LEN: nat := 1000000

  // ---------------------------------------------------------------------
  // Sequences of items

  /** `n` items read back to back. The verifier unfolds a function call
      a fixed number of levels by itself; the two forwarding layers
      `ParseManyOnce` and `ParseManyNext` keep that unfolding from
      reaching the first item, so a proof about a parse that contains
      `ParseMany` sees its items only when it asserts
      `ParseMany(..) == ParseManyNext(..)`. This keeps the proofs about
      whole files small. */
  function ParseMany<T>(data: seq<byte>, pos: nat, n: nat, item: (seq<byte>, nat) -> Result<(T, nat)>): Result<(seq<T>, nat)>
    decreases n, 2
  {
    ParseManyOnce(data, pos, n, item)
  }

  function ParseManyOnce<T>(data: seq<byte>, pos: nat, n: nat, item: (seq<byte>, nat) -> Result<(T, nat)>): Result<(seq<T>, nat)>
    decreases n, 1
  {
    ParseManyNext(data, pos, n, item)
  }

  function ParseManyNext<T>(data: seq<byte>, pos: nat, n: nat, item: (seq<byte>, nat) -> Result<(T, nat)>): Result<(seq<T>, nat)>
    decreases n, 0
  {
    if n == 0 then Ok(([], pos))
    else
      match item(data, pos)
      case Err(e) => Err(e)
      case Ok((x, next)) =>
        match ParseMany(data, next, n - 1, item)
        case Err(e) => Err(e)
        case Ok((xs, end)) => Ok(([x] + xs, end))
  }

  /** Items written back to back; split like `ParseMany`. */
  function Concat<T>(xs: seq<T>, enc: T -> seq<byte>): seq<byte>
    decreases |xs|, 2
  {
    ConcatOnce(xs, enc)
  }

  function ConcatOnce<T>(xs: seq<T>, enc: T -> seq<byte>): seq<byte>
    decreases |xs|, 1
  {
    ConcatNext(xs, enc)
  }

  function ConcatNext<T>(xs: seq<T>, enc: T -> seq<byte>): seq<byte>
    decreases |xs|, 0
  {
    if |xs| == 0 then [] else enc(xs[0]) + Concat(xs[1..], enc)
  }

  /** Puts already-read items in front of a parse result. */
  function Prepend<T>(acc: seq<T>, r: Result<(seq<T>, nat)>): Result<(seq<T>, nat)>
  {
    match r
    case Err(e) => Err(e)
    case Ok((xs, end)) => Ok((acc + xs, end))
  }

  lemma {:induction false} ConcatNothing<T>(xs: seq<T>, enc: T -> seq<byte>)
    requires |xs| == 0
    ensures Concat(xs, enc) == []
  {
    assert Concat(xs, enc) == ConcatNext(xs, enc);
  }

  lemma {:induction false} ConcatSnoc<T>(xs: seq<T>, x: T, enc: T -> seq<byte>)
    ensures Concat(xs + [x], enc) == Concat(xs, enc) + enc(x)
  {
    assert Concat(xs + [x], enc) == ConcatNext(xs + [x], enc);
    if |xs| == 0 {
      assert xs + [x] == [x];
      assert Concat([x][1..], enc) == ConcatNext([x][1..], enc);
    } else {
      assert Concat(xs, enc) == ConcatNext(xs, enc);
      assert (xs + [x])[1..] == xs[1..] + [x];
      ConcatSnoc(xs[1..], x, enc);
    }
  }

  /** The step a reading loop takes: one more item read successfully moves
      it from the parse that remains onto the accumulated items. */
  lemma {:induction false} ParseManyStep<T>(data: seq<byte>, pos: nat, n: nat, item: (seq<byte>, nat) -> Result<(T, nat)>, acc: seq<T>)
    requires n > 0 && item(data, pos).Ok?
    ensures Prepend(acc, ParseMany(data, pos, n, item))
         == Prepend(acc + [item(data, pos).value.0], ParseMany(data, item(data, pos).value.1, n - 1, item))
  {
    var x := item(data, pos).value.0;
    assert ParseMany(data, pos, n, item) == ParseManyNext(data, pos, n, item);
    match ParseMany(data, item(data, pos).value.1, n - 1, item)
    case Err(_) =>
    case Ok((xs, _)) => assert acc + ([x] + xs) == (acc + [x]) + xs;
  }

  lemma {:induction false} PrependNothing<T>(r: Result<(seq<T>, nat)>)
    ensures Prepend([], r) == r
  {
    if r.Ok? {
      assert [] + r.value.0 == r.value.0;
    }
  }

  /** A reading loop that has read all its items has the parse's result;
      one whose next item fails fails with that item's error. */
  lemma {:induction false} ParseManyDone<T>(data: seq<byte>, pos: nat, item: (seq<byte>, nat) -> Result<(T, nat)>)
    ensures ParseMany(data, pos, 0, item) == Ok(([], pos))
  {
    assert ParseMany(data, pos, 0, item) == ParseManyNext(data, pos, 0, item);
  }

  lemma {:induction false} ParseManyFails<T>(data: seq<byte>, pos: nat, n: nat, item: (seq<byte>, nat) -> Result<(T, nat)>)
    requires n > 0 && item(data, pos).Err?
    ensures ParseMany(data, pos, n, item) == Err(item(data, pos).error)
  {
    assert ParseMany(data, pos, n, item) == ParseManyNext(data, pos, n, item);
  }

  /** Every value at all. */
  predicate Always<T>(x: T)
  {
    true
  }

  /** `item` reads back what `enc` writes, for every value `ok` admits,
      wherever in whatever buffer it is written. */
  ghost predicate ReadsBack<T(!new)>(item: (seq<byte>, nat) -> Result<(T, nat)>, enc: T -> seq<byte>, ok: T -> bool)
  {
    forall data: seq<byte>, x: T, q: nat {:trigger At(data, q, enc(x))} ::
      ok(x) && At(data, q, enc(x)) ==> item(data, q) == Ok((x, q + |enc(x)|))
  }

  /** Items written back to back read back as the same items, once each
      item reads back on its own. */
  lemma {:induction false} ParseManyAt<T(!new)>(data: seq<byte>, pos: nat, xs: seq<T>,
                                         item: (seq<byte>, nat) -> Result<(T, nat)>, enc: T -> seq<byte>, ok: T -> bool)
    requires ReadsBack(item, enc, ok) && (forall i :: 0 <= i < |xs| ==> ok(xs[i]))
    requires At(data, pos, Concat(xs, enc))
    ensures ParseMany(data, pos, |xs|, item) == Ok((xs, pos + |Concat(xs, enc)|))
    decreases |xs|
  {
    assert ParseMany(data, pos, |xs|, item) == ParseManyNext(data, pos, |xs|, item);
    assert Concat(xs, enc) == ConcatNext(xs, enc);
    if |xs| > 0 {
      var next := pos + |enc(xs[0])|;
      AtConcat(data, pos, enc(xs[0]), Concat(xs[1..], enc));
      assert item(data, pos) == Ok((xs[0], next));
      assert forall i :: 0 <= i < |xs[1..]| ==> ok(xs[1..][i]) by {
        forall i | 0 <= i < |xs[1..]| ensures ok(xs[1..][i]) { assert xs[1..][i] == xs[i + 1]; }
      }
      ParseManyAt(data, next, xs[1..], item, enc, ok);
      assert [xs[0]] + xs[1..] == xs;
    }
  }

  /** One value per key, read back to back; split like `ParseMany`. */
  function ParseEach<K, T>(keys: seq<K>, data: seq<byte>, pos: nat, item: (K, seq<byte>, nat) -> Result<(T, nat)>): Result<(seq<T>, nat)>
    decreases |keys|, 2
  {
    ParseEachOnce(keys, data, pos, item)
  }

  function ParseEachOnce<K, T>(keys: seq<K>, data: seq<byte>, pos: nat, item: (K, seq<byte>, nat) -> Result<(T, nat)>): Result<(seq<T>, nat)>
    decreases |keys|, 1
  {
    ParseEachNext(keys, data, pos, item)
  }

  function ParseEachNext<K, T>(keys: seq<K>, data: seq<byte>, pos: nat, item: (K, seq<byte>, nat) -> Result<(T, nat)>): Result<(seq<T>, nat)>
    decreases |keys|, 0
  {
    if |keys| == 0 then Ok(([], pos))
    else
      match item(keys[0], data, pos)
      case Err(e) => Err(e)
      case Ok((x, next)) =>
        match ParseEach(keys[1..], data, next, item)
        case Err(e) => Err(e)
        case Ok((xs, end)) => Ok(([x] + xs, end))
  }

  /** The loop steps for `ParseEach`, as for `ParseMany`. */
  lemma {:induction false} ParseEachStep<K, T>(keys: seq<K>, data: seq<byte>, pos: nat, item: (K, seq<byte>, nat) -> Result<(T, nat)>, acc: seq<T>)
    requires |keys| > 0 && item(keys[0], data, pos).Ok?
    ensures Prepend(acc, ParseEach(keys, data, pos, item))
         == Prepend(acc + [item(keys[0], data, pos).value.0], ParseEach(keys[1..], data, item(keys[0], data, pos).value.1, item))
  {
    var x := item(keys[0], data, pos).value.0;
    assert ParseEach(keys, data, pos, item) == ParseEachNext(keys, data, pos, item);
    match ParseEach(keys[1..], data, item(keys[0], data, pos).value.1, item)
    case Err(_) =>
    case Ok((xs, _)) => assert acc + ([x] + xs) == (acc + [x]) + xs;
  }

  lemma {:induction false} ParseEachDone<K, T>(keys: seq<K>, data: seq<byte>, pos: nat, item: (K, seq<byte>, nat) -> Result<(T, nat)>)
    requires |keys| == 0
    ensures ParseEach(keys, data, pos, item) == Ok(([], pos))
  {
    assert ParseEach(keys, data, pos, item) == ParseEachNext(keys, data, pos, item);
  }

  lemma {:induction false} ParseEachFails<K, T>(keys: seq<K>, data: seq<byte>, pos: nat, item: (K, seq<byte>, nat) -> Result<(T, nat)>)
    requires |keys| > 0 && item(keys[0], data, pos).Err?
    ensures ParseEach(keys, data, pos, item) == Err(item(keys[0], data, pos).error)
  {
    assert ParseEach(keys, data, pos, item) == ParseEachNext(keys, data, pos, item);
  }

  /** The keyed item parser reads back what `enc` writes under the key
      `key` gives it. */
  ghost predicate ReadsBackKeyed<K, T(!new)>(item: (K, seq<byte>, nat) -> Result<(T, nat)>, key: T -> K,
                                       enc: T -> seq<byte>, ok: T -> bool)
  {
    forall data: seq<byte>, x: T, q: nat {:trigger At(data, q, enc(x))} ::
      ok(x) && At(data, q, enc(x)) ==> item(key(x), data, q) == Ok((x, q + |enc(x)|))
  }

  lemma {:induction false} ParseEachAt<K, T(!new)>(data: seq<byte>, pos: nat, keys: seq<K>, xs: seq<T>,
                                            item: (K, seq<byte>, nat) -> Result<(T, nat)>, key: T -> K,
                                            enc: T -> seq<byte>, ok: T -> bool)
    requires ReadsBackKeyed(item, key, enc, ok) && (forall i :: 0 <= i < |xs| ==> ok(xs[i]))
    requires |keys| == |xs| && (forall i :: 0 <= i < |xs| ==> keys[i] == key(xs[i]))
    requires At(data, pos, Concat(xs, enc))
    ensures ParseEach(keys, data, pos, item) == Ok((xs, pos + |Concat(xs, enc)|))
    decreases |xs|
  {
    assert ParseEach(keys, data, pos, item) == ParseEachNext(keys, data, pos, item);
    assert Concat(xs, enc) == ConcatNext(xs, enc);
    if |xs| > 0 {
      var next := pos + |enc(xs[0])|;
      AtConcat(data, pos, enc(xs[0]), Concat(xs[1..], enc));
      assert item(keys[0], data, pos) == Ok((xs[0], next));
      assert forall i :: 0 <= i < |xs[1..]| ==> ok(xs[1..][i]) && keys[1..][i] == key(xs[1..][i]) by {
        forall i | 0 <= i < |xs[1..]| ensures ok(xs[1..][i]) && keys[1..][i] == key(xs[1..][i]) {
          assert xs[1..][i] == xs[i + 1];
        }
      }
      ParseEachAt(data, next, keys[1..], xs[1..], item, key, enc, ok);
      assert [xs[0]] + xs[1..] == xs;
    }
  }

  // ---------------------------------------------------------------------
  // Length-prefixed ("Delphi") strings

  /** str.encode('ascii', errors='replace'): one byte per character. */
  function EncodeChar(c: char): byte
  {
    if c as int < 0x80 then c as int else 0x3F   // '?'
  }

  /** bytes.decode('ascii', errors='replace'): one character per byte. */
  function DecodeByte(b: byte): char
  {
    if b < 0x80 then b as char else '�'
  }

  function EncodeChars(s: string): (r: seq<byte>)
    ensures |r| == |s|
  {
    if |s| == 0 then [] else [EncodeChar(s[0])] + EncodeChars(s[1..])
  }

  function DecodeBytes(b: seq<byte>): (r: string)
    ensures |r| == |b|
  {
    if |b| == 0 then [] else [DecodeByte(b[0])] + DecodeBytes(b[1..])
  }

  /** Encoding keeps each ASCII character as its code and replaces every
      other character by '?', one byte per character. */
  lemma {:induction false} EncodeCharsSpec(s: string)
    ensures forall i :: 0 <= i < |s| ==>
              && (s[i] as int < 0x80 ==> EncodeChars(s)[i] == s[i] as int)
              && (s[i] as int >= 0x80 ==> EncodeChars(s)[i] == 0x3F)
    decreases |s|
  {
    if |s| > 0 {
      EncodeCharsSpec(s[1..]);
      forall i | 0 < i < |s|
        ensures EncodeChars(s)[i] == EncodeChars(s[1..])[i - 1]
      {
      }
    }
  }

  /** Decoding keeps each byte below 0x80 as that character and replaces
      every other byte by U+FFFD, one character per byte. */
  lemma {:induction false} DecodeBytesSpec(b: seq<byte>)
    ensures forall i :: 0 <= i < |b| ==>
              && (b[i] < 0x80 ==> DecodeBytes(b)[i] == b[i] as char)
              && (b[i] >= 0x80 ==> DecodeBytes(b)[i] == '\U{FFFD}')
    decreases |b|
  {
    if |b| > 0 {
      DecodeBytesSpec(b[1..]);
      forall i | 0 < i < |b|
        ensures DecodeBytes(b)[i] == DecodeBytes(b[1..])[i - 1]
      {
      }
    }
  }

  predicate IsAscii(s: string)
  {
    forall i :: 0 <= i < |s| ==> s[i] as int < 0x80
  }

  predicate AsciiBytes(b: seq<byte>)
  {
    forall i :: 0 <= i < |b| ==> b[i] < 0x80
  }

  /** What write_delphi_string emits: the u32 byte count, then the bytes. */
  function EncString(s: string): seq<byte>
  {
    EncU32(Mask32(|s|)) + EncodeChars(s)
  }

  /** What read_delphi_string reads: a u32 length, refused above the
      ceiling before any payload is read, then that many bytes. */
  function ParseString(data: seq<byte>, pos: nat): Result<(string, nat)>
  {
    match ParseU32(data, pos)
    case Err(e) => Err(e)
    case Ok((length, p1)) =>
      if length > MAX_STRING_LEN then Err(CorruptLength(length, p1))
      else if length == 0 then Ok(("", p1))
      else if p1 + length > |data| then Err(OutOfBounds(p1, length))
      else Ok((DecodeAt(data, p1, length), p1 + length))
  }

  /** The n bytes of `data` at `p`, decoded; split like `LE`. */
  function DecodeAt(data: seq<byte>, p: nat, n: nat): (r: string)
    requires p + n <= |data|
    ensures |r| == n
    decreases n, 1
  {
    DecodeAtNext(data, p, n)
  }

  function DecodeAtNext(data: seq<byte>, p: nat, n: nat): (r: string)
    requires p + n <= |data|
    ensures |r| == n
    decreases n, 0
  {
    if n == 0 then [] else [DecodeByte(data[p])] + DecodeAt(data, p + 1, n - 1)
  }

  /** The payload is what read_bytes returns, decoded. */
  lemma {:induction false} DecodeAtSlice(data: seq<byte>, p: nat, n: nat)
    requires p + n <= |data|
    ensures Take(data, p, n) == Ok((data[p..p + n], p + n))
    ensures DecodeAt(data, p, n) == DecodeBytes(data[p..p + n])
    decreases n
  {
    if n > 0 {
      DecodeAtSlice(data, p + 1, n - 1);
      assert data[p..p + n][1..] == data[p + 1..p + n];
    }
  }

  lemma {:induction false} DecodeAtEncoded(data: seq<byte>, p: nat, s: string)
    requires IsAscii(s) && At(data, p, EncodeChars(s))
    ensures p + |s| <= |data| && DecodeAt(data, p, |s|) == s
    decreases |s|
  {
    assert At(data, p, EncodeChars(s)) == AtByByte(data, p, EncodeChars(s));
    if |s| > 0 {
      assert EncodeChars(s)[1..] == EncodeChars(s[1..]);
      DecodeAtEncoded(data, p + 1, s[1..]);
    }
  }

  /** A string the codec carries unchanged: ASCII and within the ceiling. */
  predicate StringOk(s: string)
  {
    IsAscii(s) && |s| <= MAX_STRING_LEN
  }

  /** Decoding undoes encoding on ASCII text. */
  lemma {:induction false} DecodeEncodeChars(s: string)
    requires IsAscii(s)
    ensures DecodeBytes(EncodeChars(s)) == s
  {
    if |s| > 0 {
      DecodeEncodeChars(s[1..]);
      assert EncodeChars(s)[1..] == EncodeChars(s[1..]);
    }
  }

  /** Encoding undoes decoding on ASCII bytes. */
  lemma {:induction false} EncodeDecodeBytes(b: seq<byte>)
    requires AsciiBytes(b)
    ensures EncodeChars(DecodeBytes(b)) == b
  {
    if |b| > 0 {
      EncodeDecodeBytes(b[1..]);
      assert DecodeBytes(b)[1..] == DecodeBytes(b[1..]);
    }
  }

  lemma {:induction false} ParseStringAt(data: seq<byte>, pos: nat, s: string)
    requires StringOk(s) && At(data, pos, EncString(s))
    ensures ParseString(data, pos) == Ok((s, pos + |EncString(s)|))
  {
    AtConcat(data, pos, EncU32(Mask32(|s|)), EncodeChars(s));
    ParseU32At(data, pos, |s|);
    DecodeAtEncoded(data, pos + 4, s);
  }

  /** The string-reading failures: a length above the ceiling is refused
      with CorruptLength before any payload is read, whatever follows; a
      payload shorter than declared is OutOfBounds at the payload's start. */
  lemma {:induction false} StringFailures(data: seq<byte>, pos: nat)
    requires ParseU32(data, pos).Ok?
    ensures var length := ParseU32(data, pos).value.0;
            length > MAX_STRING_LEN ==> ParseString(data, pos) == Err(CorruptLength(length, pos + 4))
    ensures var length := ParseU32(data, pos).value.0;
            (0 < length <= MAX_STRING_LEN && pos + 4 + length > |data|) ==>
              ParseString(data, pos) == Err(OutOfBounds(pos + 4, length))
    ensures ParseU32(data, pos).value.0 == 0 ==> ParseString(data, pos) == Ok(("", pos + 4))
  {
  }

  lemma {:induction false} StringsReadBack()
    ensures ReadsBack(ParseString, EncString, StringOk)
  {
    forall data: seq<byte>, s: string, q: nat | StringOk(s) && At(data, q, EncString(s))
      ensures ParseString(data, q) == Ok((s, q + |EncString(s)|))
    {
      ParseStringAt(data, q, s);
    }
  }

  // ---------------------------------------------------------------------
  // Arrays behind an 8-byte presence word

  /** _read_extra_array and _read_extra_string_array: presence word 0 is the
      empty array and no count is read; any other presence word is followed
      by a u32 count and that many items. */
  function ParseArray<T>(data: seq<byte>, pos: nat, item: (seq<byte>, nat) -> Result<(T, nat)>): Result<(seq<T>, nat)>
  {
    match ParseU64(data, pos)
    case Err(e) => Err(e)
    case Ok((check, p1)) =>
      if check == 0 then Ok(([], p1))
      else
        match ParseU32(data, p1)
        case Err(e) => Err(e)
        case Ok((length, p2)) => ParseMany(data, p2, length, item)
  }

  /** _write_extra_array and _write_extra_string_array: the presence word
      (0 for an empty array, 1 otherwise), then for a non-empty array the
      u32 count and the items. */
  function EncArray<T>(xs: seq<T>, enc: T -> seq<byte>): seq<byte>
  {
    EncU64(PresenceOf(|xs|)) + (if |xs| == 0 then [] else EncU32(Mask32(|xs|)) + Concat(xs, enc))
  }

  function PresenceOf(n: nat): (r: u64)
    ensures r == 0 <==> n == 0
  {
    if n == 0 then 0 else 1
  }

  /** An empty array is written as exactly eight zero bytes. */
  lemma {:induction false} EmptyArrayBytes<T>(enc: T -> seq<byte>)
    ensures EncArray([], enc) == [0, 0, 0, 0, 0, 0, 0, 0]
  {
    var none: seq<T> := [];
    assert PresenceOf(|none|) == 0;
    assert EncU32(0) == [0, 0, 0, 0];
  }

  /** The presence law on reading: a zero presence word is the empty array
      and consumes exactly 8 bytes; a nonzero one reads the count and then
      that many items. */
  lemma {:induction false} PresenceWord<T>(data: seq<byte>, pos: nat, item: (seq<byte>, nat) -> Result<(T, nat)>)
    requires ParseU64(data, pos).Ok?
    ensures ParseU64(data, pos).value.0 == 0 ==> ParseArray(data, pos, item) == Ok(([], pos + 8))
    ensures ParseU64(data, pos).value.0 != 0 && ParseU32(data, pos + 8).Ok? ==>
      ParseArray(data, pos, item) == ParseMany(data, pos + 12, ParseU32(data, pos + 8).value.0, item)
  {
  }

  /** Where the items of a non-empty written array start. */
  lemma {:induction false} ArrayItemsAt<T>(data: seq<byte>, pos: nat, xs: seq<T>, enc: T -> seq<byte>)
    requires |xs| > 0 && At(data, pos, EncArray(xs, enc))
    ensures At(data, pos, EncU64(1)) && At(data, pos + 8, EncU32(Mask32(|xs|))) && At(data, pos + 12, Concat(xs, enc))
  {
    AtConcat(data, pos, EncU64(1), EncU32(Mask32(|xs|)) + Concat(xs, enc));
    AtConcat(data, pos + 8, EncU32(Mask32(|xs|)), Concat(xs, enc));
  }

  lemma {:induction false} ArrayHeadAt<T>(data: seq<byte>, pos: nat, n: u32, item: (seq<byte>, nat) -> Result<(T, nat)>)
    requires At(data, pos, EncU64(1)) && At(data, pos + 8, EncU32(n))
    ensures ParseArray(data, pos, item) == ParseMany(data, pos + 12, n, item)
  {
    ParseU64At(data, pos, 1);
    ParseU32At(data, pos + 8, n);
  }

  /** An array reads back as written once its items do. */
  lemma {:induction false} ArrayAt<T(!new)>(data: seq<byte>, pos: nat, xs: seq<T>,
                                     item: (seq<byte>, nat) -> Result<(T, nat)>, enc: T -> seq<byte>, ok: T -> bool)
    requires ReadsBack(item, enc, ok) && (forall i :: 0 <= i < |xs| ==> ok(xs[i]))
    requires |xs| < 0x1_0000_0000 && At(data, pos, EncArray(xs, enc))
    ensures ParseArray(data, pos, item) == Ok((xs, pos + |EncArray(xs, enc)|))
  {
    if |xs| == 0 {
      AtConcat(data, pos, EncU64(0), []);
      ParseU64At(data, pos, 0);
    } else {
      ArrayItemsAt(data, pos, xs, enc);
      ArrayHeadAt(data, pos, |xs|, item);
      ParseManyAt(data, pos + 12, xs, item, enc, ok);
    }
  }

  lemma {:induction false} I32sReadBack()
    ensures ReadsBack(ParseI32, EncI32, Always)
  {
    forall data: seq<byte>, x: i32, q: nat | At(data, q, EncI32(x))
      ensures ParseI32(data, q) == Ok((x, q + 4))
    {
      ParseI32At(data, q, x);
    }
  }

  lemma {:induction false} U32sReadBack()
    ensures ReadsBack(ParseU32, EncU32, Always)
  {
    forall data: seq<byte>, x: u32, q: nat | At(data, q, EncU32(x))
      ensures ParseU32(data, q) == Ok((x, q + 4))
    {
      ParseU32At(data, q, x);
    }
  }

  // ---------------------------------------------------------------------
  // Field values

  /** One field value, decoded by its type tag; a float32 is read as its
      32-bit pattern, and a tag outside 0..7 is refused at the offset where
      its value would start. */
  function ParseValue(tag: u8, data: seq<byte>, pos: nat): Result<(Field, nat)>
  {
    if tag == TYPE_INT32 then
      match ParseI32(data, pos) case Err(e) => Err(e) case Ok((v, p)) => Ok((Int32(v), p))
    else if tag == TYPE_FLOAT32 then
      match ParseU32(data, pos) case Err(e) => Err(e) case Ok((v, p)) => Ok((Float32(v), p))
    else if tag == TYPE_UINT32 then
      match ParseU32(data, pos) case Err(e) => Err(e) case Ok((v, p)) => Ok((UInt32(v), p))
    else if tag == TYPE_STRING then
      match ParseString(data, pos) case Err(e) => Err(e) case Ok((v, p)) => Ok((Str(v), p))
    else if tag == TYPE_ARRAY_INT32 then
      match ParseArray(data, pos, ParseI32) case Err(e) => Err(e) case Ok((v, p)) => Ok((Int32Array(v), p))
    else if tag == TYPE_ARRAY_FLOAT then
      match ParseArray(data, pos, ParseU32) case Err(e) => Err(e) case Ok((v, p)) => Ok((Float32Array(v), p))
    else if tag == TYPE_ARRAY_UINT32 then
      match ParseArray(data, pos, ParseU32) case Err(e) => Err(e) case Ok((v, p)) => Ok((UInt32Array(v), p))
    else if tag == TYPE_ARRAY_STR then
      match ParseArray(data, pos, ParseString) case Err(e) => Err(e) case Ok((v, p)) => Ok((StrArray(v), p))
    else
      Err(UnknownFieldType(tag, pos))
  }

  /** The values of one entry, one per type tag, in order. */
  function ParseValues(tags: seq<u8>, data: seq<byte>, pos: nat): Result<(seq<Field>, nat)>
  {
    ParseEach(tags, data, pos, ParseValue)
  }

  function EncValue(f: Field): seq<byte>
  {
    match f
    case Int32(v) => EncI32(v)
    case Float32(b) => EncU32(b)
    case UInt32(v) => EncU32(v)
    case Str(s) => EncString(s)
    case Int32Array(xs) => EncArray(xs, EncI32)
    case Float32Array(xs) => EncArray(xs, EncU32)
    case UInt32Array(xs) => EncArray(xs, EncU32)
    case StrArray(xs) => EncArray(xs, EncString)
  }

  /** A field the codec carries unchanged. */
  predicate FieldOk(f: Field)
  {
    match f
    case Str(s) => StringOk(s)
    case Int32Array(xs) => |xs| < 0x1_0000_0000
    case Float32Array(xs) => |xs| < 0x1_0000_0000
    case UInt32Array(xs) => |xs| < 0x1_0000_0000
    case StrArray(xs) => |xs| < 0x1_0000_0000 && forall i :: 0 <= i < |xs| ==> StringOk(xs[i])
    case _ => true
  }

  lemma {:induction false} StrValueAt(data: seq<byte>, pos: nat, f: Field)
    requires f.Str? && FieldOk(f) && At(data, pos, EncValue(f))
    ensures ParseValue(FieldTag(f), data, pos) == Ok((f, pos + |EncValue(f)|))
  {
    ParseStringAt(data, pos, f.s);
  }

  lemma {:induction false} I32ArrayValueAt(data: seq<byte>, pos: nat, f: Field)
    requires f.Int32Array? && FieldOk(f) && At(data, pos, EncValue(f))
    ensures ParseValue(FieldTag(f), data, pos) == Ok((f, pos + |EncValue(f)|))
  {
    I32sReadBack();
    ArrayAt(data, pos, f.ia, ParseI32, EncI32, Always);
  }

  lemma {:induction false} F32ArrayValueAt(data: seq<byte>, pos: nat, f: Field)
    requires f.Float32Array? && FieldOk(f) && At(data, pos, EncValue(f))
    ensures ParseValue(FieldTag(f), data, pos) == Ok((f, pos + |EncValue(f)|))
  {
    U32sReadBack();
    ArrayAt(data, pos, f.fa, ParseU32, EncU32, Always);
  }

  lemma {:induction false} U32ArrayValueAt(data: seq<byte>, pos: nat, f: Field)
    requires f.UInt32Array? && FieldOk(f) && At(data, pos, EncValue(f))
    ensures ParseValue(FieldTag(f), data, pos) == Ok((f, pos + |EncValue(f)|))
  {
    U32sReadBack();
    ArrayAt(data, pos, f.ua, ParseU32, EncU32, Always);
  }

  lemma {:induction false} StrArrayValueAt(data: seq<byte>, pos: nat, f: Field)
    requires f.StrArray? && FieldOk(f) && At(data, pos, EncValue(f))
    ensures ParseValue(FieldTag(f), data, pos) == Ok((f, pos + |EncValue(f)|))
  {
    StringsReadBack();
    ArrayAt(data, pos, f.sa, ParseString, EncString, StringOk);
  }

  /** Every field the codec carries reads back as written, under its own
      type tag. */
  lemma {:induction false} ParseValueAt(data: seq<byte>, pos: nat, f: Field)
    requires FieldOk(f) && At(data, pos, EncValue(f))
    ensures ParseValue(FieldTag(f), data, pos) == Ok((f, pos + |EncValue(f)|))
  {
    match f
    case Int32(v) => ParseI32At(data, pos, v);
    case Float32(b) => ParseU32At(data, pos, b);
    case UInt32(v) => ParseU32At(data, pos, v);
    case Str(_) => StrValueAt(data, pos, f);
    case Int32Array(_) => I32ArrayValueAt(data, pos, f);
    case Float32Array(_) => F32ArrayValueAt(data, pos, f);
    case UInt32Array(_) => U32ArrayValueAt(data, pos, f);
    case StrArray(_) => StrArrayValueAt(data, pos, f);
  }

  /** The type vector of an entry's fields. */
  function TagsOf(fs: seq<Field>): (r: seq<u8>)
    ensures |r| == |fs| && forall i :: 0 <= i < |fs| ==> r[i] == fs[i].Tag()
  {
    if |fs| == 0 then [] else [fs[0].Tag()] + TagsOf(fs[1..])
  }

  function FieldTag(f: Field): u8
  {
    f.Tag()
  }

  lemma {:induction false} ValuesAtEverywhere()
    ensures forall data: seq<byte>, f: Field, q: nat {:trigger At(data, q, EncValue(f))} ::
      FieldOk(f) && At(data, q, EncValue(f)) ==> ParseValue(FieldTag(f), data, q) == Ok((f, q + |EncValue(f)|))
  {
    forall data: seq<byte>, f: Field, q: nat | FieldOk(f) && At(data, q, EncValue(f))
      ensures ParseValue(FieldTag(f), data, q) == Ok((f, q + |EncValue(f)|))
    {
      ParseValueAt(data, q, f);
    }
  }

  lemma {:induction false} ValuesReadBack()
    ensures ReadsBackKeyed(ParseValue, FieldTag, EncValue, FieldOk)
  {
    ValuesAtEverywhere();
  }

  /** A type tag outside 0..7 stops the values of an entry: once the values
      before it have been read, reading fails at the offset where the
      unknown value would start. */
  lemma {:induction false} UnknownTagRefused(tags: seq<u8>, data: seq<byte>, pos: nat, k: nat)
    requires k < |tags| && tags[k] > TYPE_ARRAY_STR && ParseValues(tags[..k], data, pos).Ok?
    ensures ParseValues(tags, data, pos) == Err(UnknownFieldType(tags[k], ParseValues(tags[..k], data, pos).value.1))
    decreases k
  {
    assert ParseEach(tags, data, pos, ParseValue) == ParseEachNext(tags, data, pos, ParseValue);
    if k == 0 {
      ParseEachDone(tags[..0], data, pos, ParseValue);
    } else {
      var prefix := tags[..k];
      assert ParseEach(prefix, data, pos, ParseValue) == ParseEachNext(prefix, data, pos, ParseValue);
      assert prefix[0] == tags[0] && prefix[1..] == tags[1..][..k - 1];
      UnknownTagRefused(tags[1..], data, ParseValue(tags[0], data, pos).value.1, k - 1);
    }
  }

  // ---------------------------------------------------------------------
  // Entries, lists, the file

  /** One entry: name, signed byte, field count, two u16 tags, the type
      vector, then the values in the same order. */
  function ParseEntry(data: seq<byte>, pos: nat): Result<(Entry, nat)>
  {
    var name :- ParseString(data, pos);
    var b :- ParseI8(data, name.1);
    var count :- ParseU16(data, b.1);
    var ua :- ParseU16(data, count.1);
    var ub :- ParseU16(data, ua.1);
    var tags :- ParseMany(data, ub.1, count.0, ParseU8);
    var values :- ParseValues(tags.0, data, tags.1);
    Ok((Entry(name.0, b.0, ua.0, ub.0, values.0), values.1))
  }

  function TagByte(t: u8): seq<byte>
  {
    EncU8(t)
  }

  /** The fixed-size part of an entry after its name; the field count is
      written masked to 16 bits. */
  function EncEntryHead(e: Entry): seq<byte>
  {
    EncI8(e.unknownByte) + EncU16(Mask16(|e.fields|)) + EncU16(e.unknownU16a) + EncU16(e.unknownU16b)
  }

  function EncEntry(e: Entry): seq<byte>
  {
    EncString(e.name) + EncEntryHead(e) + Concat(TagsOf(e.fields), TagByte) + Concat(e.fields, EncValue)
  }

  predicate EntryOk(e: Entry)
  {
    StringOk(e.name) && |e.fields| < 0x1_0000 && forall i :: 0 <= i < |e.fields| ==> FieldOk(e.fields[i])
  }

  lemma {:induction false} TagsReadBack()
    ensures ReadsBack(ParseU8, TagByte, Always)
  {
    forall data: seq<byte>, t: u8, q: nat | At(data, q, TagByte(t))
      ensures ParseU8(data, q) == Ok((t, q + 1))
    {
      ParseU8At(data, q, t);
    }
  }

  lemma {:induction false} EntryHeadAt(data: seq<byte>, pos: nat, e: Entry)
    requires |e.fields| < 0x1_0000 && At(data, pos, EncEntryHead(e))
    ensures ParseI8(data, pos) == Ok((e.unknownByte, pos + 1))
    ensures ParseU16(data, pos + 1) == Ok((|e.fields|, pos + 3))
    ensures ParseU16(data, pos + 3) == Ok((e.unknownU16a, pos + 5))
    ensures ParseU16(data, pos + 5) == Ok((e.unknownU16b, pos + 7))
  {
    AtConcat3(data, pos, EncI8(e.unknownByte) + EncU16(|e.fields|), EncU16(e.unknownU16a), EncU16(e.unknownU16b));
    AtConcat(data, pos, EncI8(e.unknownByte), EncU16(|e.fields|));
    ParseI8At(data, pos, e.unknownByte);
    ParseU16At(data, pos + 1, |e.fields|);
    ParseU16At(data, pos + 3, e.unknownU16a);
    ParseU16At(data, pos + 5, e.unknownU16b);
  }

  /** An entry is read from its parts. */
  lemma {:induction false} ParseEntryOf(data: seq<byte>, pos: nat, e: Entry, p1: nat, p2: nat, end: nat)
    requires ParseString(data, pos) == Ok((e.name, p1))
    requires ParseI8(data, p1) == Ok((e.unknownByte, p1 + 1))
    requires ParseU16(data, p1 + 1) == Ok((|e.fields|, p1 + 3))
    requires ParseU16(data, p1 + 3) == Ok((e.unknownU16a, p1 + 5))
    requires ParseU16(data, p1 + 5) == Ok((e.unknownU16b, p1 + 7))
    requires ParseMany(data, p1 + 7, |e.fields|, ParseU8) == Ok((TagsOf(e.fields), p2))
    requires ParseValues(TagsOf(e.fields), data, p2) == Ok((e.fields, end))
    ensures ParseEntry(data, pos) == Ok((e, end))
  {
  }

  /** Where each part of a written entry lies. */
  lemma {:induction false} EntryLayout(data: seq<byte>, pos: nat, e: Entry)
    requires At(data, pos, EncEntry(e))
    ensures var p1 := pos + |EncString(e.name)|;
            var p2 := p1 + 7 + |Concat(TagsOf(e.fields), TagByte)|;
            && At(data, pos, EncString(e.name))
            && At(data, p1, EncEntryHead(e))
            && At(data, p1 + 7, Concat(TagsOf(e.fields), TagByte))
            && At(data, p2, Concat(e.fields, EncValue))
            && pos + |EncEntry(e)| == p2 + |Concat(e.fields, EncValue)|
  {
    var s := EncString(e.name);
    var tags := Concat(TagsOf(e.fields), TagByte);
    AtConcat(data, pos, s + EncEntryHead(e) + tags, Concat(e.fields, EncValue));
    AtConcat3(data, pos, s, EncEntryHead(e), tags);
  }

  lemma {:induction false} EntryTagsAt(data: seq<byte>, p: nat, fs: seq<Field>)
    requires At(data, p, Concat(TagsOf(fs), TagByte))
    ensures ParseMany(data, p, |fs|, ParseU8) == Ok((TagsOf(fs), p + |Concat(TagsOf(fs), TagByte)|))
  {
    TagsReadBack();
    ParseManyAt(data, p, TagsOf(fs), ParseU8, TagByte, Always);
  }

  lemma {:induction false} EntryValuesAt(data: seq<byte>, p: nat, fs: seq<Field>)
    requires (forall i :: 0 <= i < |fs| ==> FieldOk(fs[i])) && At(data, p, Concat(fs, EncValue))
    ensures ParseValues(TagsOf(fs), data, p) == Ok((fs, p + |Concat(fs, EncValue)|))
  {
    ValuesReadBack();
    ParseEachAt(data, p, TagsOf(fs), fs, ParseValue, FieldTag, EncValue, FieldOk);
  }

  lemma {:induction false} ParseEntryAt(data: seq<byte>, pos: nat, e: Entry)
    requires EntryOk(e) && At(data, pos, EncEntry(e))
    ensures ParseEntry(data, pos) == Ok((e, pos + |EncEntry(e)|))
  {
    EntryLayout(data, pos, e);
    var p1 := pos + |EncString(e.name)|;
    var p2 := p1 + 7 + |Concat(TagsOf(e.fields), TagByte)|;
    ParseStringAt(data, pos, e.name);
    EntryHeadAt(data, p1, e);
    EntryTagsAt(data, p1 + 7, e.fields);
    EntryValuesAt(data, p2, e.fields);
    ParseEntryOf(data, pos, e, p1, p2, pos + |EncEntry(e)|);
  }

  lemma {:induction false} EntriesAtEverywhere()
    ensures forall data: seq<byte>, e: Entry, q: nat {:trigger At(data, q, EncEntry(e))} ::
      EntryOk(e) && At(data, q, EncEntry(e)) ==> ParseEntry(data, q) == Ok((e, q + |EncEntry(e)|))
  {
    forall data: seq<byte>, e: Entry, q: nat | EntryOk(e) && At(data, q, EncEntry(e))
      ensures ParseEntry(data, q) == Ok((e, q + |EncEntry(e)|))
    {
      ParseEntryAt(data, q, e);
    }
  }

  lemma {:induction false} EntriesReadBack()
    ensures ReadsBack(ParseEntry, EncEntry, EntryOk)
  {
    EntriesAtEverywhere();
  }

  function ParseList(data: seq<byte>, pos: nat): Result<(ParList, nat)>
  {
    var u1 :- ParseU32(data, pos);
    var u2 :- ParseU32(data, u1.1);
    var count :- ParseU32(data, u2.1);
    var entries :- ParseMany(data, count.1, count.0, ParseEntry);
    Ok((ParList(u1.0, u2.0, entries.0), entries.1))
  }

  function EncListHead(l: ParList): seq<byte>
  {
    EncU32(l.unknown1) + EncU32(l.unknown2) + EncU32(Mask32(|l.entries|))
  }

  function EncList(l: ParList): seq<byte>
  {
    EncListHead(l) + Concat(l.entries, EncEntry)
  }

  predicate ListOk(l: ParList)
  {
    |l.entries| < 0x1_0000_0000 && forall i :: 0 <= i < |l.entries| ==> EntryOk(l.entries[i])
  }

  lemma {:induction false} ListHeadAt(data: seq<byte>, pos: nat, l: ParList)
    requires |l.entries| < 0x1_0000_0000 && At(data, pos, EncListHead(l))
    ensures ParseU32(data, pos) == Ok((l.unknown1, pos + 4))
    ensures ParseU32(data, pos + 4) == Ok((l.unknown2, pos + 8))
    ensures ParseU32(data, pos + 8) == Ok((|l.entries|, pos + 12))
  {
    AtConcat3(data, pos, EncU32(l.unknown1), EncU32(l.unknown2), EncU32(|l.entries|));
    ParseU32At(data, pos, l.unknown1);
    ParseU32At(data, pos + 4, l.unknown2);
    ParseU32At(data, pos + 8, |l.entries|);
  }

  lemma {:induction false} ListEntriesAt(data: seq<byte>, p: nat, es: seq<Entry>)
    requires (forall i :: 0 <= i < |es| ==> EntryOk(es[i])) && At(data, p, Concat(es, EncEntry))
    ensures ParseMany(data, p, |es|, ParseEntry) == Ok((es, p + |Concat(es, EncEntry)|))
  {
    EntriesReadBack();
    ParseManyAt(data, p, es, ParseEntry, EncEntry, EntryOk);
  }

  lemma {:induction false} ParseListAt(data: seq<byte>, pos: nat, l: ParList)
    requires ListOk(l) && At(data, pos, EncList(l))
    ensures ParseList(data, pos) == Ok((l, pos + |EncList(l)|))
  {
    AtConcat(data, pos, EncListHead(l), Concat(l.entries, EncEntry));
    ListHeadAt(data, pos, l);
    ListEntriesAt(data, pos + 12, l.entries);
  }

  lemma {:induction false} ListsAtEverywhere()
    ensures forall data: seq<byte>, l: ParList, q: nat {:trigger At(data, q, EncList(l))} ::
      ListOk(l) && At(data, q, EncList(l)) ==> ParseList(data, q) == Ok((l, q + |EncList(l)|))
  {
    forall data: seq<byte>, l: ParList, q: nat | ListOk(l) && At(data, q, EncList(l))
      ensures ParseList(data, q) == Ok((l, q + |EncList(l)|))
    {
      ParseListAt(data, q, l);
    }
  }

  lemma {:induction false} ListsReadBack()
    ensures ReadsBack(ParseList, EncList, ListOk)
  {
    ListsAtEverywhere();
  }

  /** The bytes after the last list, kept only when there are some. */
  function TrailingOf(data: seq<byte>, pos: nat): Option<seq<byte>>
  {
    if pos < |data| then Some(data[pos..]) else None
  }

  /** read_par. The reserved word after the list count is read and dropped. */
  function ParseFile(data: seq<byte>): (r: Result<ParFile>)
    ensures r.Ok? ==> |data| >= 16 && r.value.wrapperHeader.None? && !r.value.wasCompressed
    ensures r.Ok? && r.value.trailing.Some? ==>
              var t := r.value.trailing.value;
              0 < |t| <= |data| && t == data[|data| - |t|..]
  {
    var magic :- Take(data, 0, 4);
    if magic.0 != PAR_MAGIC then Err(BadMagic(magic.0))
    else
      var version :- ParseU32(data, magic.1);
      var count :- ParseU32(data, version.1);
      var pad :- ParseU32(data, count.1);
      var lists :- ParseMany(data, pad.1, count.0, ParseList);
      Ok(ParFile(version.0, lists.0, None, false, TrailingOf(data, lists.1)))
  }

  /** The 16-byte file header; the reserved word is always written as 0. */
  function EncHeader(f: ParFile): seq<byte>
  {
    PAR_MAGIC + EncU32(f.version) + EncU32(Mask32(|f.lists|)) + EncU32(0)
  }

  /** What write_par emits for the structured part. */
  function EncBody(f: ParFile): seq<byte>
  {
    EncHeader(f) + Concat(f.lists, EncList)
  }

  /** write_par: the trailing bytes, when there are some, follow verbatim. */
  function EncFile(f: ParFile): (r: seq<byte>)
    ensures |r| >= 16 && r[..4] == PAR_MAGIC && r[12..16] == [0, 0, 0, 0]
    ensures f.trailing.Some? ==> |r| >= 16 + |f.trailing.value| && r[|r| - |f.trailing.value|..] == f.trailing.value
  {
    EncBody(f) + (if f.trailing.Some? then f.trailing.value else [])
  }

  /** A file the codec carries unchanged. */
  predicate FileOk(f: ParFile)
  {
    && |f.lists| < 0x1_0000_0000
    && (forall i :: 0 <= i < |f.lists| ==> ListOk(f.lists[i]))
    && (f.trailing.Some? ==> |f.trailing.value| > 0)
  }

  lemma {:induction false} HeaderAt(data: seq<byte>, f: ParFile)
    requires |f.lists| < 0x1_0000_0000 && At(data, 0, EncHeader(f))
    ensures Take(data, 0, 4) == Ok((PAR_MAGIC, 4))
    ensures ParseU32(data, 4) == Ok((f.version, 8))
    ensures ParseU32(data, 8) == Ok((|f.lists|, 12))
    ensures ParseU32(data, 12) == Ok((0, 16))
  {
    AtConcat(data, 0, PAR_MAGIC + EncU32(f.version) + EncU32(|f.lists|), EncU32(0));
    AtConcat3(data, 0, PAR_MAGIC, EncU32(f.version), EncU32(|f.lists|));
    TakeAt(data, 0, PAR_MAGIC);
    ParseU32At(data, 4, f.version);
    ParseU32At(data, 8, |f.lists|);
    ParseU32At(data, 12, 0);
  }

  /** Write-then-read: read_par(write_par(p)) gives p back, except that the
      loader's envelope fields start out cleared. */
  lemma {:induction false} ParseEncFile(f: ParFile)
    requires FileOk(f)
    ensures ParseFile(EncFile(f)) == Ok(f.(wrapperHeader := None, wasCompressed := false))
  {
    var data := EncFile(f);
    var body := Concat(f.lists, EncList);
    var tail := if f.trailing.Some? then f.trailing.value else [];
    AtSlice(data, 0, data);
    AtConcat3(data, 0, EncHeader(f), body, tail);
    HeaderAt(data, f);
    ListsReadBack();
    ParseManyAt(data, 16, f.lists, ParseList, EncList, ListOk);
    assert data[16 + |body|..] == tail;
  }

  /** read_par fails on a buffer that does not start with "PAR\0". */
  lemma {:induction false} BadMagicRefused(data: seq<byte>)
    requires |data| >= 4 && data[..4] != PAR_MAGIC
    ensures ParseFile(data) == Err(BadMagic(data[..4]))
  {
  }
}
