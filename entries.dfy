/**
 * The data the Swift binding of libmaxminddb works with: the entry kinds of
 * an entry data list (the MaxMind DB data types), the dynamically typed values
 * the binding builds from them (what `Any` holds at run time), and the errors
 * of `GeoIP2Error`.
 */
module MmdbData {

  newtype u16 = x: int | 0 <= x < 0x1_0000
  newtype u32 = x: int | 0 <= x < 0x1_0000_0000
  newtype i32 = x: int | -0x8000_0000 <= x < 0x8000_0000
  newtype u64 = x: int | 0 <= x < 0x1_0000_0000_0000_0000

  /** One node of libmaxminddb's entry data list, classified by its type tag.
      The scalar kinds carry their payload; MAP and ARRAY headers carry
      `data_size` (pairs, resp. elements) and the node's `offset` in the data
      section. Every tag the binding does not handle (pointer, bytes, uint128,
      float, container, end marker, extended) is `Unsupported`. */
  datatype Entry =
    | Utf8String(text: Option<string>)   // None: the bytes are missing or not valid UTF-8
    | Double(bits: u64)                  // IEEE 754 binary64 bit pattern, never interpreted
    | Uint16(n16: u16)
    | Uint32(n32: u32)
    | Int32(n: i32)
    | Uint64(n64: u64)
    | Boolean(b: bool)
    | MapHeader(size: nat, offset: nat)
    | ArrayHeader(size: nat, offset: nat)
    | Unsupported(typeCode: nat)
  {
    predicate IsHeader() { MapHeader? || ArrayHeader? }
  }

  /** A decoded value: the Swift types stored behind `Any`. */
  datatype Value =
    | Str(s: string)
    | Dbl(bits: u64)
    | U16(u16: u16)
    | U32(u32: u32)
    | I32(i32: i32)
    | U64(u64: u64)
    | Bool(b: bool)
    | Dict(entries: map<string, Value>)
    | Arr(items: seq<Value>)

  datatype GeoIP2Error =
    | OpenFailed(code: i32)
    | LookupFailed(code: i32, gaiError: Option<i32>)
    | DataParsingFailed
    | InvalidDatabaseType

  datatype Option<+T> = None | Some(value: T)

  /** A Swift `throws` function: either its result or the error it throws. */
  datatype Result<+T> = Ok(value: T) | Err(error: GeoIP2Error) {
    predicate IsFailure() { Err? }
    function PropagateFailure<U>(): Result<U>
      requires Err?
    {
      Err(error)
    }
    function Extract(): T
      requires Ok?
    {
      value
    }
  }

  /** What re-fetching the entry data list at a container's offset and
      decoding it yields (MMDB_get_entry_data_list followed by a walk of the
      fresh list); a failed fetch is `Err(DataParsingFailed)`. */
  datatype Nested = Nested(
    mapAt: nat -> Result<map<string, Value>>,
    arrayAt: nat -> Result<seq<Value>>)
}
