/** Little-endian byte primitives shared by the PAR reader and writer:
    fixed-width integer types, their wire encodings, the bounds-checked
    primitive reads, and the error values the codec reports. */
module Wire {

  type byte = x: int | 0 <= x < 0x100
  type u8 = x: int | 0 <= x < 0x100
  type i8 = x: int | -0x80 <= x < 0x80
  type u16 = x: int | 0 <= x < 0x1_0000
  type u32 = x: int | 0 <= x < 0x1_0000_0000
  type i32 = x: int | -0x8000_0000 <= x < 0x8000_0000
  type u64 = x: int | 0 <= x < 0x1_0000_0000_0000_0000

  /** Everything the codec and the envelope can fail with. */
  datatype Error =
    | OutOfBounds(offset: nat, need: nat)        // a read past the end of the buffer
    | CorruptLength(length: nat, offset: nat)    // a string length above the sanity ceiling
    | BadMagic(found: seq<byte>)                 // the container does not start with "PAR\0"
    | UnknownFieldType(tag: nat, offset: nat)    // a type tag outside 0..7
    | UnknownFormat(header: seq<byte>)           // neither zlib nor a raw container
    | SingleStreamNotPar(header: seq<byte>)      // one zlib stream whose content is not a container
    | Stream2NotPar(header: seq<byte>)           // second zlib stream whose content is not a container
    | InflateFailed                              // the decompressor rejected its input

  datatype Result<+T> = Ok(value: T) | Err(error: Error) {
    predicate IsFailure() { Err? }
    function PropagateFailure<U>(): Result<U> requires Err? { Err(error) }
    function Extract(): T requires Ok? { value }
  }

  datatype Option<+T> = None | Some(value: T)

  /** The value of a positioned parse result, without the position. */
  function Drop<T>(r: Result<(T, nat)>): Result<T>
  {
    match r
    case Ok((v, _)) => Ok(v)
    case Err(e) => Err(e)
  }

  /** Where a cursor stands after a positioned parse: the parse's end on
      success, `failPos` on failure. */
  function After<T>(r: Result<(T, nat)>, failPos: nat): nat
  {
    match r
    case Ok((_, next)) => next
    case Err(_) => failPos
  }

  // What ParWriter.write_u8 / write_u16 / write_u32 / write_u64 emit for a
  // value in range: the bytes least significant first. The writers for u16
  // and u32 mask their argument to the width first; the callers that can
  // pass a larger value (a length) apply the mask themselves.
  function EncU8(v: u8): (r: seq<byte>)
    ensures |r| == 1
  {
    [v]
  }

  function EncU16(v: u16): (r: seq<byte>)
    ensures |r| == 2
  {
    [v % 0x100, v / 0x100]
  }

  function EncU32(v: u32): (r: seq<byte>)
    ensures |r| == 4
  {
    EncU16(v % 0x1_0000) + EncU16(v / 0x1_0000)
  }

  function EncU64(v: u64): (r: seq<byte>)
    ensures |r| == 8
  {
    EncU32(v % 0x1_0000_0000) + EncU32(v / 0x1_0000_0000)
  }

  // What write_i8 / write_i32 emit: the two's-complement pattern of a value
  // the type already keeps in range.
  function EncI8(v: i8): (r: seq<byte>)
    ensures |r| == 1
  {
    EncU8(if v < 0 then v + 0x100 else v)
  }

  function EncI32(v: i32): (r: seq<byte>)
    ensures |r| == 4
  {
    EncU32(if v < 0 then v + 0x1_0000_0000 else v)
  }

  /** The masks write_u16 and write_u32 apply (`v & 0xFFFF`, `v & 0xFFFFFFFF`)
      to a non-negative value, as repeated subtraction of the modulus. */
  function Mask16(v: nat): (r: u16)
    ensures v < 0x1_0000 ==> r == v
  {
    if v < 0x1_0000 then v else Mask16(v - 0x1_0000)
  }

  function Mask32(v: nat): (r: u32)
    ensures v < 0x1_0000_0000 ==> r == v
  {
    if v < 0x1_0000_0000 then v else Mask32(v - 0x1_0000_0000)
  }

  lemma {:induction false} Mask32IsMod(v: nat)
    ensures Mask32(v) == v % 0x1_0000_0000
    decreases v
  {
    if v >= 0x1_0000_0000 {
      Mask32IsMod(v - 0x1_0000_0000);
    }
  }

  lemma {:induction false} Mask16IsMod(v: nat)
    ensures Mask16(v) == v % 0x1_0000
    decreases v
  {
    if v >= 0x1_0000 {
      Mask16IsMod(v - 0x1_0000);
    }
  }

  /** `chunk` occurs in `data` starting at offset `pos`. It is defined
      through `AtStep` and `AtByByte`, so that a proof sees its content only
      when it unfolds them; `AtSlice` states it as a slice equation. */
  predicate At(data: seq<byte>, pos: nat, chunk: seq<byte>)
    decreases |chunk|, 2
  {
    AtStep(data, pos, chunk)
  }

  predicate AtStep(data: seq<byte>, pos: nat, chunk: seq<byte>)
    decreases |chunk|, 1
  {
    AtByByte(data, pos, chunk)
  }

  predicate AtByByte(data: seq<byte>, pos: nat, chunk: seq<byte>)
    decreases |chunk|, 0
  {
    if |chunk| == 0 then pos <= |data|
    else pos < |data| && data[pos] == chunk[0] && At(data, pos + 1, chunk[1..])
  }

  lemma {:induction false} AtSlice(data: seq<byte>, pos: nat, chunk: seq<byte>)
    ensures At(data, pos, chunk) <==> pos + |chunk| <= |data| && data[pos..pos + |chunk|] == chunk
    decreases |chunk|
  {
    assert At(data, pos, chunk) == AtByByte(data, pos, chunk);
    if |chunk| > 0 {
      AtSlice(data, pos + 1, chunk[1..]);
      if pos + |chunk| <= |data| {
        assert data[pos..pos + |chunk|] == [data[pos]] + data[pos + 1..pos + |chunk|];
        assert chunk == [chunk[0]] + chunk[1..];
      }
    }
  }

  lemma {:induction false} AtConcat(data: seq<byte>, pos: nat, a: seq<byte>, b: seq<byte>)
    requires At(data, pos, a + b)
    ensures At(data, pos, a) && At(data, pos + |a|, b)
  {
    AtSlice(data, pos, a + b);
    AtSlice(data, pos, a);
    AtSlice(data, pos + |a|, b);
    assert data[pos..pos + |a|] == (a + b)[..|a|];
    assert data[pos + |a|..pos + |a| + |b|] == (a + b)[|a|..];
  }

  lemma {:induction false} AtConcat3(data: seq<byte>, pos: nat, a: seq<byte>, b: seq<byte>, c: seq<byte>)
    requires At(data, pos, a + b + c)
    ensures At(data, pos, a) && At(data, pos + |a|, b) && At(data, pos + |a| + |b|, c)
  {
    AtConcat(data, pos, a + b, c);
    AtConcat(data, pos, a, b);
  }

  /** ParReader.read_bytes / _advance: the next n bytes, or OutOfBounds if
      fewer than n remain; the cursor moves only on success. */
  function Take(data: seq<byte>, pos: nat, n: nat): Result<(seq<byte>, nat)>
  {
    if pos + n > |data| then Err(OutOfBounds(pos, n)) else Ok((data[pos..pos + n], pos + n))
  }

  lemma {:induction false} TakeAt(data: seq<byte>, pos: nat, chunk: seq<byte>)
    requires At(data, pos, chunk)
    ensures Take(data, pos, |chunk|) == Ok((chunk, pos + |chunk|))
  {
    AtSlice(data, pos, chunk);
  }

  /** The unsigned numbers the bytes of `data` at `pos` denote, least
      significant first (struct.unpack with '<H', '<I', '<Q'). */
  function U16At(data: seq<byte>, pos: nat): u16
    requires pos + 2 <= |data|
  {
    data[pos] as int + 0x100 * data[pos + 1] as int
  }

  function U32At(data: seq<byte>, pos: nat): u32
    requires pos + 4 <= |data|
  {
    U16At(data, pos) + 0x1_0000 * U16At(data, pos + 2)
  }

  function U64At(data: seq<byte>, pos: nat): u64
    requires pos + 8 <= |data|
  {
    U32At(data, pos) + 0x1_0000_0000 * U32At(data, pos + 4)
  }

  // The primitive reads of ParReader, as functions of the buffer and the
  // cursor: the value and the new cursor, or OutOfBounds when fewer bytes
  // remain than the width.

  function ParseU8(data: seq<byte>, pos: nat): Result<(u8, nat)>
  {
    if pos + 1 > |data| then Err(OutOfBounds(pos, 1)) else Ok((data[pos], pos + 1))
  }

  function ParseU16(data: seq<byte>, pos: nat): Result<(u16, nat)>
  {
    if pos + 2 > |data| then Err(OutOfBounds(pos, 2)) else Ok((U16At(data, pos), pos + 2))
  }

  function ParseU32(data: seq<byte>, pos: nat): Result<(u32, nat)>
  {
    if pos + 4 > |data| then Err(OutOfBounds(pos, 4)) else Ok((U32At(data, pos), pos + 4))
  }

  function ParseU64(data: seq<byte>, pos: nat): Result<(u64, nat)>
  {
    if pos + 8 > |data| then Err(OutOfBounds(pos, 8)) else Ok((U64At(data, pos), pos + 8))
  }

  function ParseI8(data: seq<byte>, pos: nat): Result<(i8, nat)>
  {
    if pos + 1 > |data| then Err(OutOfBounds(pos, 1))
    else Ok((if data[pos] >= 0x80 then data[pos] as int - 0x100 else data[pos] as int, pos + 1))
  }

  function ParseI32(data: seq<byte>, pos: nat): Result<(i32, nat)>
  {
    if pos + 4 > |data| then Err(OutOfBounds(pos, 4))
    else
      var x := U32At(data, pos);
      Ok((if x >= 0x8000_0000 then x - 0x1_0000_0000 else x, pos + 4))
  }

  /** Writing back what was read reproduces the bytes. */
  lemma {:induction false} EncU16At(data: seq<byte>, pos: nat)
    requires pos + 2 <= |data|
    ensures EncU16(U16At(data, pos)) == data[pos..pos + 2]
  {
  }

  lemma {:induction false} EncU32At(data: seq<byte>, pos: nat)
    requires pos + 4 <= |data|
    ensures EncU32(U32At(data, pos)) == data[pos..pos + 4]
  {
    var lo: int, hi: int := U16At(data, pos), U16At(data, pos + 2);
    assert U32At(data, pos) == lo + 0x1_0000 * hi;
    assert U32At(data, pos) % 0x1_0000 == lo && U32At(data, pos) / 0x1_0000 == hi;
    EncU16At(data, pos);
    EncU16At(data, pos + 2);
    assert data[pos..pos + 4] == data[pos..pos + 2] + data[pos + 2..pos + 4];
  }

  lemma {:induction false} EncU64At(data: seq<byte>, pos: nat)
    requires pos + 8 <= |data|
    ensures EncU64(U64At(data, pos)) == data[pos..pos + 8]
  {
    var lo: int, hi: int := U32At(data, pos), U32At(data, pos + 4);
    assert U64At(data, pos) == lo + 0x1_0000_0000 * hi;
    assert U64At(data, pos) % 0x1_0000_0000 == lo && U64At(data, pos) / 0x1_0000_0000 == hi;
    EncU32At(data, pos);
    EncU32At(data, pos + 4);
    assert data[pos..pos + 8] == data[pos..pos + 4] + data[pos + 4..pos + 8];
  }

  /** Reading back what was written gives the value. */
  lemma {:induction false} U16AtOf(data: seq<byte>, pos: nat, v: u16)
    requires At(data, pos, EncU16(v))
    ensures pos + 2 <= |data| && U16At(data, pos) == v
  {
    AtSlice(data, pos, EncU16(v));
    assert data[pos] == EncU16(v)[0] && data[pos + 1] == EncU16(v)[1];
  }

  lemma {:induction false} U32AtOf(data: seq<byte>, pos: nat, v: u32)
    requires At(data, pos, EncU32(v))
    ensures pos + 4 <= |data| && U32At(data, pos) == v
  {
    AtConcat(data, pos, EncU16(v % 0x1_0000), EncU16(v / 0x1_0000));
    U16AtOf(data, pos, v % 0x1_0000);
    U16AtOf(data, pos + 2, v / 0x1_0000);
  }

  lemma {:induction false} U64AtOf(data: seq<byte>, pos: nat, v: u64)
    requires At(data, pos, EncU64(v))
    ensures pos + 8 <= |data| && U64At(data, pos) == v
  {
    AtConcat(data, pos, EncU32(v % 0x1_0000_0000), EncU32(v / 0x1_0000_0000));
    U32AtOf(data, pos, v % 0x1_0000_0000);
    U32AtOf(data, pos + 4, v / 0x1_0000_0000);
  }

  lemma {:induction false} ParseU8At(data: seq<byte>, pos: nat, v: u8)
    requires At(data, pos, EncU8(v))
    ensures ParseU8(data, pos) == Ok((v, pos + 1))
  {
    AtSlice(data, pos, EncU8(v));
    assert data[pos] == EncU8(v)[0];
  }

  lemma {:induction false} ParseU16At(data: seq<byte>, pos: nat, v: u16)
    requires At(data, pos, EncU16(v))
    ensures ParseU16(data, pos) == Ok((v, pos + 2))
  {
    U16AtOf(data, pos, v);
  }

  lemma {:induction false} ParseU32At(data: seq<byte>, pos: nat, v: u32)
    requires At(data, pos, EncU32(v))
    ensures ParseU32(data, pos) == Ok((v, pos + 4))
  {
    U32AtOf(data, pos, v);
  }

  lemma {:induction false} ParseU64At(data: seq<byte>, pos: nat, v: u64)
    requires At(data, pos, EncU64(v))
    ensures ParseU64(data, pos) == Ok((v, pos + 8))
  {
    U64AtOf(data, pos, v);
  }

  lemma {:induction false} ParseI8At(data: seq<byte>, pos: nat, v: i8)
    requires At(data, pos, EncI8(v))
    ensures ParseI8(data, pos) == Ok((v, pos + 1))
  {
    ParseU8At(data, pos, if v < 0 then v + 0x100 else v);
  }

  lemma {:induction false} ParseI32At(data: seq<byte>, pos: nat, v: i32)
    requires At(data, pos, EncI32(v))
    ensures ParseI32(data, pos) == Ok((v, pos + 4))
  {
    U32AtOf(data, pos, if v < 0 then v + 0x1_0000_0000 else v);
  }

  /** The reverse of the lemmas above: what a primitive read consumed is
      exactly what the writer emits for the value it returned. */
  lemma {:induction false} AtJoin(data: seq<byte>, pos: nat, a: seq<byte>, b: seq<byte>)
    requires At(data, pos, a) && At(data, pos + |a|, b)
    ensures At(data, pos, a + b)
  {
    AtSlice(data, pos, a);
    AtSlice(data, pos + |a|, b);
    AtSlice(data, pos, a + b);
    assert data[pos..pos + |a| + |b|] == data[pos..pos + |a|] + data[pos + |a|..pos + |a| + |b|];
  }

  lemma {:induction false} ParseU8Back(data: seq<byte>, pos: nat)
    requires ParseU8(data, pos).Ok?
    ensures var (v, end) := ParseU8(data, pos).value;
            At(data, pos, EncU8(v)) && end == pos + 1
  {
    AtSlice(data, pos, EncU8(data[pos]));
  }

  lemma {:induction false} ParseU16Back(data: seq<byte>, pos: nat)
    requires ParseU16(data, pos).Ok?
    ensures var (v, end) := ParseU16(data, pos).value;
            At(data, pos, EncU16(v)) && end == pos + 2
  {
    EncU16At(data, pos);
    AtSlice(data, pos, EncU16(U16At(data, pos)));
  }

  lemma {:induction false} ParseU32Back(data: seq<byte>, pos: nat)
    requires ParseU32(data, pos).Ok?
    ensures var (v, end) := ParseU32(data, pos).value;
            At(data, pos, EncU32(v)) && end == pos + 4
  {
    EncU32At(data, pos);
    AtSlice(data, pos, EncU32(U32At(data, pos)));
  }

  lemma {:induction false} ParseU64Back(data: seq<byte>, pos: nat)
    requires ParseU64(data, pos).Ok?
    ensures var (v, end) := ParseU64(data, pos).value;
            At(data, pos, EncU64(v)) && end == pos + 8
  {
    EncU64At(data, pos);
    AtSlice(data, pos, EncU64(U64At(data, pos)));
  }

  lemma {:induction false} ParseI8Back(data: seq<byte>, pos: nat)
    requires ParseI8(data, pos).Ok?
    ensures var (v, end) := ParseI8(data, pos).value;
            At(data, pos, EncI8(v)) && end == pos + 1
  {
    var v := ParseI8(data, pos).value.0;
    assert EncI8(v) == [data[pos]];
    AtSlice(data, pos, EncI8(v));
  }

  lemma {:induction false} ParseI32Back(data: seq<byte>, pos: nat)
    requires ParseI32(data, pos).Ok?
    ensures var (v, end) := ParseI32(data, pos).value;
            At(data, pos, EncI32(v)) && end == pos + 4
  {
    var v := ParseI32(data, pos).value.0;
    assert EncI32(v) == EncU32(U32At(data, pos));
    EncU32At(data, pos);
    AtSlice(data, pos, EncI32(v));
  }
}
