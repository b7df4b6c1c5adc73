/** The in-memory model of a PAR parameter file: a file holds lists, a list
    holds named entries, an entry holds typed fields. */
module ParModel {
  import opened Wire

  const PAR_MAGIC: seq<byte> := [0x50, 0x41, 0x52, 0x00]   // "PAR\0"
  const PAR_VERSION_TW1: u32 := 0x600

  // The eight wire type tags.
  const TYPE_INT32: u8 := 0
  const TYPE_FLOAT32: u8 := 1
  const TYPE_UINT32: u8 := 2
  const TYPE_STRING: u8 := 3
  const TYPE_ARRAY_INT32: u8 := 4
  const TYPE_ARRAY_FLOAT: u8 := 5
  const TYPE_ARRAY_UINT32: u8 := 6
  const TYPE_ARRAY_STR: u8 := 7

  /** A field value tagged by its wire type; a float32 is carried as its
      32-bit pattern. */
  datatype Field =
    | Int32(i: i32)
    | Float32(bits: u32)
    | UInt32(u: u32)
    | Str(s: string)
    | Int32Array(ia: seq<i32>)
    | Float32Array(fa: seq<u32>)
    | UInt32Array(ua: seq<u32>)
    | StrArray(sa: seq<string>)
  {
    /** The field's `dtype`. */
    function Tag(): u8
    {
      match this
      case Int32(_) => TYPE_INT32
      case Float32(_) => TYPE_FLOAT32
      case UInt32(_) => TYPE_UINT32
      case Str(_) => TYPE_STRING
      case Int32Array(_) => TYPE_ARRAY_INT32
      case Float32Array(_) => TYPE_ARRAY_FLOAT
      case UInt32Array(_) => TYPE_ARRAY_UINT32
      case StrArray(_) => TYPE_ARRAY_STR
    }
  }

  datatype Entry = Entry(name: string, unknownByte: i8, unknownU16a: u16, unknownU16b: u16, fields: seq<Field>)

  datatype ParList = ParList(unknown1: u32, unknown2: u32, entries: seq<Entry>)

  /** `wrapperHeader` and `wasCompressed` are set by the loader from the
      envelope; `trailing` holds the bytes after the last list. */
  datatype ParFile = ParFile(
    version: u32,
    lists: seq<ParList>,
    wrapperHeader: Option<seq<byte>>,
    wasCompressed: bool,
    trailing: Option<seq<byte>>)

  /** `ParField(0, 0)`: the filler the merge pads short entries with. */
  const ZERO_FIELD: Field := Int32(0)

  /** A fresh `ParList()`. */
  const EMPTY_LIST: ParList := ParList(0, 0, [])
}
