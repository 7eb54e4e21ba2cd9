/**
 * `GeoIP2.parseValue`: the dispatch from one entry's type tag to the Swift
 * value it becomes.
 */
module Scalars {
  import opened MmdbData

  /** The entry a scalar value is read from, or None for the two container
      kinds, which are not read from a single entry. */
  function ScalarEntry(v: Value): (e: Option<Entry>)
    ensures e.Some? <==> !v.Dict? && !v.Arr?
    ensures e.Some? ==> !e.value.IsHeader() && !e.value.Unsupported?
  {
    match v
    case Str(s) => Some(Utf8String(Some(s)))
    case Dbl(bits) => Some(Double(bits))
    case U16(n) => Some(Uint16(n))
    case U32(n) => Some(Uint32(n))
    case I32(n) => Some(Int32(n))
    case U64(n) => Some(Uint64(n))
    case Bool(b) => Some(Boolean(b))
    case Dict(_) => None
    case Arr(_) => None
  }

  /** Scalars return their payload unchanged, a missing or undecodable string
      becomes "", containers are re-fetched by offset, and any other tag
      throws `dataParsingFailed`. */
  function ParseValue(e: Entry, nested: Nested): (r: Result<Value>)
    ensures !e.IsHeader() && !e.Unsupported? && e != Utf8String(None) ==>
              r.Ok? && ScalarEntry(r.value) == Some(e)
    ensures e == Utf8String(None) ==> r == Ok(Str(""))
    ensures e.Unsupported? ==> r == Err(DataParsingFailed)
    ensures e.MapHeader? ==>
              r == (match nested.mapAt(e.offset)
                    case Ok(m) => Ok(Dict(m))
                    case Err(err) => Err(err))
    ensures e.ArrayHeader? ==>
              r == (match nested.arrayAt(e.offset)
                    case Ok(items) => Ok(Arr(items))
                    case Err(err) => Err(err))
  {
    match e
    case Utf8String(text) => Ok(Str(if text.Some? then text.value else ""))
    case Double(bits) => Ok(Dbl(bits))
    case Uint16(n) => Ok(U16(n))
    case Uint32(n) => Ok(U32(n))
    case Int32(n) => Ok(I32(n))
    case Uint64(n) => Ok(U64(n))
    case Boolean(b) => Ok(Bool(b))
    case MapHeader(_, offset) =>
      var m :- nested.mapAt(offset);
      Ok(Dict(m))
    case ArrayHeader(_, offset) =>
      var items :- nested.arrayAt(offset);
      Ok(Arr(items))
    case Unsupported(_) => Err(DataParsingFailed)
  }

  /** Reading back the entry of any scalar value gives that value. */
  lemma ScalarRoundTrip(v: Value, nested: Nested)
    requires !v.Dict? && !v.Arr?
    ensures ParseValue(ScalarEntry(v).value, nested) == Ok(v)
  {
  }

  /** `parseValue` throws exactly on an unsupported tag or a failed re-fetch. */
  lemma ParseFailsIff(e: Entry, nested: Nested)
    ensures ParseValue(e, nested).Err? <==>
              || e.Unsupported?
              || (e.MapHeader? && nested.mapAt(e.offset).Err?)
              || (e.ArrayHeader? && nested.arrayAt(e.offset).Err?)
  {
  }

  /** `parseValue(data:) as? String ?? ""`: a map key that is not a String
      is stored under the empty key. */
  function KeyOf(v: Value): (k: string)
    ensures v.Str? ==> k == v.s
    ensures !v.Str? ==> k == ""
  {
    if v.Str? then v.s else ""
  }
}
