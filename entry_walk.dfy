/**
 * `GeoIP2.parseEntryDataList`: the walk over libmaxminddb's entry data list
 * that collects the key/value pairs following every MAP header into one
 * dictionary. The linked list is a sequence and the `current` / `next`
 * pointers are indices into it; a nil pointer is the index |list|.
 */
module EntryWalk {
  import opened MmdbData
  import opened Scalars

  /** Where the pair loop of a map header leaves its cursor. */
  datatype PairsState = PairsState(dict: map<string, Value>, next: nat)

  /** Index after the nodes the pair loop may consume from `next` for `n`
      pairs: two per pair, cut short at the end of the list. */
  function PairsEnd(list: seq<Entry>, next: nat, n: nat): nat
  {
    if next + 2 * n <= |list| then next + 2 * n else |list|
  }

  /** Number of complete key/value pairs among those nodes. */
  function PairCount(list: seq<Entry>, next: nat, n: nat): nat
    requires next <= |list|
  {
    if next + 2 * n <= |list| then n else (|list| - next) / 2
  }

  /** The key stored by the `i`-th pair of the pair loop that starts at
      `next`: its key node read as a map key. */
  function PairKey(list: seq<Entry>, next: nat, i: nat, nested: Nested): string
    requires next + 2 * i < |list|
  {
    match ParseValue(list[next + 2 * i], nested)
    case Ok(v) => KeyOf(v)
    case Err(_) => ""
  }

  /** The inner `for _ in 0..<size` loop, from cursor `next` with `n`
      iterations left: parse a key, step, parse a value, store it, step.
      A nil key or value pointer breaks out of the loop. */
  function ReadPairs(list: seq<Entry>, next: nat, n: nat, acc: map<string, Value>, nested: Nested)
    : (r: Result<PairsState>)
    requires next <= |list|
    // each pair consumes exactly two nodes; truncation stops at the end of the list
    ensures r.Ok? ==> r.value.next == PairsEnd(list, next, n)
    // pairs already stored are never removed
    ensures r.Ok? ==> acc.Keys <= r.value.dict.Keys
    decreases n
  {
    if n == 0 || next == |list| then Ok(PairsState(acc, next))
    else
      var key :- ParseValue(list[next], nested);
      if next + 1 == |list| then Ok(PairsState(acc, |list|))
      else
        var value :- ParseValue(list[next + 1], nested);
        ReadPairs(list, next + 2, n - 1, acc[KeyOf(key) := value], nested)
  }

  /** Truncation is silent: the pair loop throws exactly when a node it
      reads fails to parse, and a list that ends early is no error. */
  lemma {:induction false} ReadPairsOkIff(list: seq<Entry>, next: nat, n: nat, acc: map<string, Value>,
                                          nested: Nested)
    requires next <= |list|
    ensures ReadPairs(list, next, n, acc, nested).Ok? <==>
              forall j | next <= j < PairsEnd(list, next, n) :: ParseValue(list[j], nested).Ok?
    decreases n
  {
    if n == 0 || next == |list| || next + 1 == |list| {
    } else if ParseValue(list[next], nested).Ok? && ParseValue(list[next + 1], nested).Ok? {
      var acc' := acc[KeyOf(ParseValue(list[next], nested).value) := ParseValue(list[next + 1], nested).value];
      ReadPairsOkIff(list, next + 2, n - 1, acc', nested);
      assert PairsEnd(list, next + 2, n - 1) == PairsEnd(list, next, n);
    }
  }

  /** The outer `while let` loop from cursor `cur` with dictionary `acc`: a
      MAP header runs the pair loop and the walk resumes where that loop
      stopped; any other node is stepped over. */
  function Walk(list: seq<Entry>, cur: nat, acc: map<string, Value>, nested: Nested)
    : (r: Result<map<string, Value>>)
    requires cur <= |list|
    ensures r.Ok? ==> acc.Keys <= r.value.Keys
    decreases |list| - cur
  {
    if cur == |list| then Ok(acc)
    else if list[cur].MapHeader? then
      match ReadPairs(list, cur + 1, list[cur].size, acc, nested)
      case Err(e) => Err(e)
      case Ok(st) => Walk(list, st.next, st.dict, nested)
    else Walk(list, cur + 1, acc, nested)
  }

  /** What remains of the walk while the pair loop is at `next` with `n`
      iterations left. */
  function ResumeAfterPairs(list: seq<Entry>, next: nat, n: nat, acc: map<string, Value>, nested: Nested)
    : Result<map<string, Value>>
    requires next <= |list|
  {
    match ReadPairs(list, next, n, acc, nested)
    case Err(e) => Err(e)
    case Ok(st) => Walk(list, st.next, st.dict, nested)
  }

  /** The walk as the binding runs it, over a dictionary it updates in place. */
  method ParseEntryDataList(list: seq<Entry>, nested: Nested) returns (r: Result<map<string, Value>>)
    ensures r == Walk(list, 0, map[], nested)
  {
    var result: map<string, Value> := map[];
    var current := 0;
    while current < |list|
      invariant current <= |list|
      invariant Walk(list, current, result, nested) == Walk(list, 0, map[], nested)
      decreases |list| - current
    {
      var entry := list[current];
      if entry.MapHeader? {
        var size := entry.size;
        var next := current + 1;
        var i := 0;
        while i < size
          invariant i <= size
          invariant current < next <= |list|
          invariant ResumeAfterPairs(list, next, size - i, result, nested) == Walk(list, 0, map[], nested)
        {
          if next == |list| {
            break;
          }
          var keyValue :- ParseValue(list[next], nested);
          var key := KeyOf(keyValue);
          next := next + 1;
          if next == |list| {
            break;
          }
          var value :- ParseValue(list[next], nested);
          result := result[key := value];
          next := next + 1;
          i := i + 1;
        }
        current := next;
      } else {
        current := current + 1;
      }
    }
    r := Ok(result);
  }
}
