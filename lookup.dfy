/**
 * `GeoIP2.lookup` and `parseFullData` without the queue, the C strings and
 * libmaxminddb itself: what libmaxminddb reports (the two error codes, the
 * found flag, the status and the entry data list of the record) arrives as
 * parameters, and the binding decides which error to throw or which result
 * to return.
 */
module Lookup {
  import opened MmdbData
  import opened EntryWalk
  import opened Render

  /** `MMDB_SUCCESS`. */
  const Success: i32 := 0

  /** `parseFullData`: a failed fetch of the record's entry data list, or a
      nil list, throws `dataParsingFailed`; otherwise the list is walked. */
  method ParseFullData(status: i32, entryList: Option<seq<Entry>>, nested: Nested)
    returns (r: Result<map<string, Value>>)
    ensures status != Success || entryList.None? ==> r == Err(DataParsingFailed)
    ensures status == Success && entryList.Some? ==> r == Walk(entryList.value, 0, map[], nested)
  {
    if status != Success || entryList.None? {
      return Err(DataParsingFailed);
    }
    r := ParseEntryDataList(entryList.value, nested);
  }

  /** The body of `lookup` after `MMDB_lookup_string` has answered. */
  method LookupRecord(mmdbError: i32, gaiError: i32, found: bool, status: i32,
                      entryList: Option<seq<Entry>>, nested: Nested)
    returns (r: Result<GeoIP2Result>)
    // the libmaxminddb error is reported first, without a network error
    ensures mmdbError != Success ==> r == Err(LookupFailed(mmdbError, None))
    // a network error is reported only when libmaxminddb succeeded
    ensures mmdbError == Success && gaiError != 0 ==> r == Err(LookupFailed(Success, Some(gaiError)))
    // an address with no record gives an empty result, not an error
    ensures mmdbError == Success && gaiError == 0 && !found ==> r == Ok(GeoIP2Result(map[]))
    // a record found is decoded by the entry walk, whose error propagates
    ensures mmdbError == Success && gaiError == 0 && found ==>
              r == (if status != Success || entryList.None? then Err(DataParsingFailed)
                    else match Walk(entryList.value, 0, map[], nested)
                         case Ok(d) => Ok(GeoIP2Result(d))
                         case Err(e) => Err(e))
  {
    if mmdbError != Success {
      return Err(LookupFailed(mmdbError, None));
    }
    if gaiError != 0 {
      return Err(LookupFailed(mmdbError, Some(gaiError)));
    }
    if !found {
      return Ok(GeoIP2Result(map[]));
    }
    var fullData :- ParseFullData(status, entryList, nested);
    r := Ok(GeoIP2Result(fullData));
  }
}
