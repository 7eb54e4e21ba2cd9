/**
 * What the entry walk promises about the dictionary it builds: which keys it
 * holds, which value each key keeps when a key repeats, and what happens on
 * nodes outside a map and on a list that ends early.
 */
module WalkProperties {
  import opened MmdbData
  import opened Scalars
  import opened EntryWalk

  /** The keys of the complete pairs the pair loop reads. */
  ghost function StoredKeys(list: seq<Entry>, next: nat, n: nat, nested: Nested): set<string>
    requires next <= |list|
  {
    set i | 0 <= i < PairCount(list, next, n) :: PairKey(list, next, i, nested)
  }

  lemma PairKeyShift(list: seq<Entry>, next: nat, j: nat, nested: Nested)
    requires next + 2 + 2 * j < |list|
    ensures PairKey(list, next + 2, j, nested) == PairKey(list, next, j + 1, nested)
  {
    assert next + 2 + 2 * j == next + 2 * (j + 1);
  }

  lemma StoredKeysStep(list: seq<Entry>, next: nat, n: nat, nested: Nested)
    requires 0 < n && next + 2 <= |list|
    ensures PairCount(list, next, n) == PairCount(list, next + 2, n - 1) + 1
    ensures StoredKeys(list, next, n, nested)
         == {PairKey(list, next, 0, nested)} + StoredKeys(list, next + 2, n - 1, nested)
  {
    var m := PairCount(list, next, n);
    var lhs := StoredKeys(list, next, n, nested);
    var rhs := {PairKey(list, next, 0, nested)} + StoredKeys(list, next + 2, n - 1, nested);
    forall k | k in lhs ensures k in rhs {
      var i :| 0 <= i < m && k == PairKey(list, next, i, nested);
      if i > 0 {
        PairKeyShift(list, next, i - 1, nested);
      }
    }
    forall k | k in rhs ensures k in lhs {
      if k != PairKey(list, next, 0, nested) {
        var i :| 0 <= i < m - 1 && k == PairKey(list, next + 2, i, nested);
        PairKeyShift(list, next, i, nested);
      }
    }
  }

  /** The dictionary after the pair loop holds exactly the keys it held before
      and the keys of the complete pairs read (a non-String key being "").
      A repeated key therefore does not grow the dictionary. */
  lemma {:induction false} PairsStoreKeys(list: seq<Entry>, next: nat, n: nat, acc: map<string, Value>, nested: Nested)
    requires next <= |list|
    requires ReadPairs(list, next, n, acc, nested).Ok?
    ensures ReadPairs(list, next, n, acc, nested).value.dict.Keys
         == acc.Keys + StoredKeys(list, next, n, nested)
    decreases n
  {
    if n == 0 || next == |list| {
      assert StoredKeys(list, next, n, nested) == {};
    } else if next + 1 == |list| {
      assert PairCount(list, next, n) == 0;
      assert StoredKeys(list, next, n, nested) == {};
    } else {
      ReadPairsStep(list, next, n, acc, nested);
      var acc' := acc[PairKey(list, next, 0, nested) := ParseValue(list[next + 1], nested).value];
      PairsStoreKeys(list, next + 2, n - 1, acc', nested);
      StoredKeysStep(list, next, n, nested);
    }
  }

  /** A key that no pair read by the loop carries keeps its earlier value. */
  lemma {:induction false} PairsKeepOtherKeys(list: seq<Entry>, next: nat, n: nat, acc: map<string, Value>,
                                              nested: Nested, k: string)
    requires next <= |list|
    requires ReadPairs(list, next, n, acc, nested).Ok?
    requires k in acc
    requires forall i | 0 <= i < PairCount(list, next, n) :: PairKey(list, next, i, nested) != k
    ensures ReadPairs(list, next, n, acc, nested).value.dict[k] == acc[k]
    decreases n
  {
    if n == 0 || next == |list| || next + 1 == |list| {
    } else {
      ReadPairsStep(list, next, n, acc, nested);
      var acc' := acc[PairKey(list, next, 0, nested) := ParseValue(list[next + 1], nested).value];
      assert PairKey(list, next, 0, nested) != k;
      var next2 := next + 2;
      forall i | 0 <= i < PairCount(list, next2, n - 1)
        ensures PairKey(list, next2, i, nested) != k
      {
        PairKeyShift(list, next, i, nested);
      }
      PairsKeepOtherKeys(list, next + 2, n - 1, acc', nested, k);
    }
  }

  /** One iteration of the pair loop that finds both nodes. */
  lemma ReadPairsStep(list: seq<Entry>, next: nat, n: nat, acc: map<string, Value>, nested: Nested)
    requires 0 < n && next + 2 <= |list|
    requires ReadPairs(list, next, n, acc, nested).Ok?
    ensures ParseValue(list[next + 1], nested).Ok?
    ensures ReadPairs(list, next, n, acc, nested)
         == ReadPairs(list, next + 2, n - 1,
                      acc[PairKey(list, next, 0, nested) := ParseValue(list[next + 1], nested).value], nested)
    ensures PairCount(list, next + 2, n - 1) == PairCount(list, next, n) - 1
  {
  }

  /** Last write wins: the i-th pair's key holds the i-th pair's value (the
      node at `v`) when no later pair of the same loop carries that key. */
  lemma {:induction false} LastWriteWins(list: seq<Entry>, next: nat, n: nat, acc: map<string, Value>,
                                         nested: Nested, i: nat, v: nat)
    requires next <= |list|
    requires ReadPairs(list, next, n, acc, nested).Ok?
    requires i < PairCount(list, next, n) && v == next + 2 * i + 1
    requires forall j | i < j < PairCount(list, next, n) ::
               PairKey(list, next, j, nested) != PairKey(list, next, i, nested)
    ensures ParseValue(list[v], nested).Ok?
    ensures PairKey(list, next, i, nested) in ReadPairs(list, next, n, acc, nested).value.dict
    ensures ReadPairs(list, next, n, acc, nested).value.dict[PairKey(list, next, i, nested)]
         == ParseValue(list[v], nested).value
    decreases n
  {
    assert 0 < n && next + 2 <= |list|;
    ReadPairsStep(list, next, n, acc, nested);
    var next2 := next + 2;
    var k := PairKey(list, next, i, nested);
    var acc' := acc[PairKey(list, next, 0, nested) := ParseValue(list[next + 1], nested).value];
    if i == 0 {
      assert k == PairKey(list, next, 0, nested) && v == next + 1;
      forall j | 0 <= j < PairCount(list, next2, n - 1)
        ensures PairKey(list, next2, j, nested) != k
      {
        PairKeyShift(list, next, j, nested);
      }
      PairsKeepOtherKeys(list, next2, n - 1, acc', nested, k);
    } else {
      PairKeyShift(list, next, i - 1, nested);
      forall j | i - 1 < j < PairCount(list, next2, n - 1)
        ensures PairKey(list, next2, j, nested) != k
      {
        PairKeyShift(list, next, j, nested);
      }
      LastWriteWins(list, next2, n - 1, acc', nested, i - 1, v);
    }
  }

  /** A list without MAP headers leaves the dictionary as it is: every other
      node only advances the cursor. */
  lemma {:induction false} NodesOutsideMapsAddNothing(list: seq<Entry>, cur: nat, acc: map<string, Value>,
                                                      nested: Nested)
    requires cur <= |list|
    requires forall j | cur <= j < |list| :: !list[j].MapHeader?
    ensures Walk(list, cur, acc, nested) == Ok(acc)
    decreases |list| - cur
  {
    if cur < |list| {
      NodesOutsideMapsAddNothing(list, cur + 1, acc, nested);
    }
  }

  /** The pair loop stops at the first node it reads whose type tag
      `parseValue` does not handle, key or value, and throws
      `dataParsingFailed`. */
  lemma {:induction false} UnsupportedPairNodeThrows(list: seq<Entry>, next: nat, n: nat, acc: map<string, Value>,
                                                     nested: Nested, k: nat)
    requires next <= k < PairsEnd(list, next, n) && list[k].Unsupported?
    requires forall j | next <= j < k :: ParseValue(list[j], nested).Ok?
    ensures ReadPairs(list, next, n, acc, nested) == Err(DataParsingFailed)
    decreases n
  {
    if k > next + 1 {
      var acc' := acc[KeyOf(ParseValue(list[next], nested).value) := ParseValue(list[next + 1], nested).value];
      assert ParseValue(list[next], nested).Ok? && ParseValue(list[next + 1], nested).Ok?;
      assert ReadPairs(list, next, n, acc, nested) == ReadPairs(list, next + 2, n - 1, acc', nested);
      UnsupportedPairNodeThrows(list, next + 2, n - 1, acc', nested, k);
    }
  }

  /** A map header whose pairs hold a node with a type tag `parseValue` does
      not handle, every node before it parsing, makes the whole walk throw
      `dataParsingFailed`, whichever pair the node belongs to. */
  lemma UnsupportedKeyThrows(list: seq<Entry>, cur: nat, acc: map<string, Value>, nested: Nested, k: nat)
    requires cur < |list| && list[cur].MapHeader?
    requires cur < k < PairsEnd(list, cur + 1, list[cur].size) && list[k].Unsupported?
    requires forall j | cur < j < k :: ParseValue(list[j], nested).Ok?
    ensures Walk(list, cur, acc, nested) == Err(DataParsingFailed)
  {
    UnsupportedPairNodeThrows(list, cur + 1, list[cur].size, acc, nested, k);
  }

  /** A map header whose pairs run past the end of the list stores the
      complete pairs it found and ends the walk without an error, provided
      every node it reads parses. */
  lemma TruncatedMapKeepsPairs(list: seq<Entry>, cur: nat, acc: map<string, Value>, nested: Nested)
    requires cur < |list| && list[cur].MapHeader?
    requires cur + 1 + 2 * list[cur].size > |list|
    requires forall j | cur < j < |list| :: ParseValue(list[j], nested).Ok?
    ensures ReadPairs(list, cur + 1, list[cur].size, acc, nested).Ok?
    ensures Walk(list, cur, acc, nested) == Ok(ReadPairs(list, cur + 1, list[cur].size, acc, nested).value.dict)
  {
    ReadPairsOkIff(list, cur + 1, list[cur].size, acc, nested);
    var r := ReadPairs(list, cur + 1, list[cur].size, acc, nested);
    assert r.value.next == |list|;
  }

  /** A map with a repeated key: `{"a": 1, "a": 2}` decodes to `{"a": 2}`. */
  lemma RepeatedKeyExample(nested: Nested)
    ensures Walk([MapHeader(2, 0), Utf8String(Some("a")), Uint32(1), Utf8String(Some("a")), Uint32(2)],
                 0, map[], nested)
         == Ok(map["a" := U32(2)])
  {
    var list := [MapHeader(2, 0), Utf8String(Some("a")), Uint32(1), Utf8String(Some("a")), Uint32(2)];
    assert ReadPairs(list, 1, 2, map[], nested) == ReadPairs(list, 3, 1, map["a" := U32(1)], nested);
    assert ParseValue(list[3], nested) == Ok(Str("a"));
    assert ParseValue(list[4], nested) == Ok(U32(2));
    assert ReadPairs(list, 3, 1, map["a" := U32(1)], nested)
        == ReadPairs(list, 5, 0, map["a" := U32(1)]["a" := U32(2)], nested);
    assert map["a" := U32(1)]["a" := U32(2)] == map["a" := U32(2)];
  }
}
