/**
 * The entry data list libmaxminddb hands to `parseEntryDataList` is the
 * depth-first flattening of the whole record: a MAP or ARRAY header is
 * followed inline by all the nodes of its children. `parseEntryDataList`
 * advances one node after every value, so when a value is a container its
 * children are then read as further key/value pairs of the outer map.
 *
 * This module gives the flattening (`Tree`, `Flat`), the walk with the cursor
 * moved past whole subtrees (`IntendedWalk`), proves that it decodes every
 * flattened map into its pairs, and exhibits a record on which the walk as
 * written does not.
 */
module IntendedWalk {
  import opened MmdbData
  import opened Scalars
  import opened EntryWalk

  /** A record before flattening. */
  datatype Tree =
    | Leaf(e: Entry)
    | MapNode(offset: nat, pairs: seq<Pair>)
    | ArrayNode(offset: nat, items: seq<Tree>)

  datatype Pair = Pair(key: string, val: Tree)

  /** Depth-first flattening: header, then the children inline. */
  function Flat(t: Tree): (s: seq<Entry>)
    ensures |s| > 0
    decreases t, 1
  {
    match t
    case Leaf(e) => [e]
    case MapNode(o, ps) => [MapHeader(|ps|, o)] + FlatPairs(o, ps, 0)
    case ArrayNode(o, items) => [ArrayHeader(|items|, o)] + FlatItems(o, items, 0)
  }

  function FlatPairs(o: nat, ps: seq<Pair>, i: nat): seq<Entry>
    requires i <= |ps|
    decreases MapNode(o, ps), 0, |ps| - i
  {
    if i == |ps| then []
    else [Utf8String(Some(ps[i].key))] + Flat(ps[i].val) + FlatPairs(o, ps, i + 1)
  }

  function FlatItems(o: nat, items: seq<Tree>, i: nat): seq<Entry>
    requires i <= |items|
    decreases ArrayNode(o, items), 0, |items| - i
  {
    if i == |items| then []
    else Flat(items[i]) + FlatItems(o, items, i + 1)
  }

  /** The first node of a flattened tree. */
  function Root(t: Tree): Entry
  {
    match t
    case Leaf(e) => e
    case MapNode(o, ps) => MapHeader(|ps|, o)
    case ArrayNode(o, items) => ArrayHeader(|items|, o)
  }

  /** Leaves are scalar or unsupported nodes, never headers. */
  ghost predicate WellFormed(t: Tree)
    decreases t
  {
    match t
    case Leaf(e) => !e.IsHeader()
    case MapNode(_, ps) => forall i | 0 <= i < |ps| :: WellFormed(ps[i].val)
    case ArrayNode(_, items) => forall i | 0 <= i < |items| :: WellFormed(items[i])
  }

  /** `s` occurs in `list` at index `p`. */
  ghost predicate At(list: seq<Entry>, p: nat, s: seq<Entry>)
  {
    p + |s| <= |list| && list[p..p + |s|] == s
  }

  lemma AtSplit(list: seq<Entry>, p: nat, a: seq<Entry>, b: seq<Entry>)
    requires At(list, p, a + b)
    ensures At(list, p, a) && At(list, p + |a|, b)
  {
    assert list[p..p + |a|] == (a + b)[..|a|];
    assert list[p + |a|..p + |a| + |b|] == (a + b)[|a|..];
  }

  /** How many subtrees follow a node inline: two per pair of a MAP header,
      one per element of an ARRAY header, none for any other node. */
  function Children(e: Entry): nat
  {
    match e
    case MapHeader(n, _) => 2 * n
    case ArrayHeader(n, _) => n
    case _ => 0
  }

  /** Index after `k` complete subtrees starting at `p`, or |list| when the
      list ends first. */
  function SkipSubtrees(list: seq<Entry>, p: nat, k: nat): (q: nat)
    requires p <= |list|
    ensures p <= q <= |list|
    ensures 0 < k && p < |list| ==> p < q
    decreases |list| - p
  {
    if k == 0 || p == |list| then p
    else SkipSubtrees(list, p + 1, k - 1 + Children(list[p]))
  }

  /** The nodes of a flattened map or array: its header, then the
      flattened pairs or elements. */
  lemma AtHeader(list: seq<Entry>, p: nat, t: Tree)
    requires !t.Leaf? && At(list, p, Flat(t))
    ensures list[p] == Root(t)
    ensures t.MapNode? ==> At(list, p + 1, FlatPairs(t.offset, t.pairs, 0))
                           && |Flat(t)| == 1 + |FlatPairs(t.offset, t.pairs, 0)|
    ensures t.ArrayNode? ==> At(list, p + 1, FlatItems(t.offset, t.items, 0))
                             && |Flat(t)| == 1 + |FlatItems(t.offset, t.items, 0)|
  {
    if t.MapNode? {
      AtSplit(list, p, [Root(t)], FlatPairs(t.offset, t.pairs, 0));
    } else {
      AtSplit(list, p, [Root(t)], FlatItems(t.offset, t.items, 0));
    }
  }

  /** A node with no inline children is a subtree of its own. */
  lemma SkipLeaf(list: seq<Entry>, p: nat, k: nat, k1: nat)
    requires p < |list| && Children(list[p]) == 0 && k1 == k + 1
    ensures SkipSubtrees(list, p, k1) == SkipSubtrees(list, p + 1, k)
  {
  }

  /** A header with `c - k` inline children: skipping it with `k` subtrees
      still to go continues with `c` subtrees from the next node. */
  lemma SkipHeader(list: seq<Entry>, p: nat, k: nat, k1: nat, c: nat)
    requires p < |list| && c == Children(list[p]) + k && k1 == k + 1
    ensures SkipSubtrees(list, p, k1) == SkipSubtrees(list, p + 1, c)
  {
  }

  /** Skipping one subtree over a flattened tree lands right after it: the
      counts in the headers keep the cursor in step with the structure. */
  lemma {:induction false} SkipTree(list: seq<Entry>, p: nat, t: Tree, k: nat, k1: nat, end: nat)
    requires WellFormed(t) && At(list, p, Flat(t))
    requires k1 == k + 1 && end == p + |Flat(t)|
    ensures SkipSubtrees(list, p, k1) == SkipSubtrees(list, end, k)
    decreases t, 1
  {
    match t
    case Leaf(e) =>
      assert list[p] == Flat(t)[0] && |Flat(t)| == 1;
    case MapNode(o, ps) =>
      AtHeader(list, p, t);
      var c := 2 * |ps| + k;
      SkipHeader(list, p, k, k1, c);
      SkipPairs(list, p + 1, o, ps, 0, k, c, end);
    case ArrayNode(o, items) =>
      AtHeader(list, p, t);
      var c := |items| + k;
      SkipHeader(list, p, k, k1, c);
      SkipItems(list, p + 1, o, items, 0, k, c, end);
  }

  /** The nodes of pair `i` of a flattened map: its key node, then the
      value's subtree, then the remaining pairs. */
  lemma AtPair(list: seq<Entry>, p: nat, o: nat, ps: seq<Pair>, i: nat)
    requires i < |ps| && At(list, p, FlatPairs(o, ps, i))
    ensures list[p] == Utf8String(Some(ps[i].key))
    ensures At(list, p + 1, Flat(ps[i].val))
    ensures At(list, p + 1 + |Flat(ps[i].val)|, FlatPairs(o, ps, i + 1))
    ensures |FlatPairs(o, ps, i)| == 1 + |Flat(ps[i].val)| + |FlatPairs(o, ps, i + 1)|
  {
    var key, val, rest := [Utf8String(Some(ps[i].key))], Flat(ps[i].val), FlatPairs(o, ps, i + 1);
    assert FlatPairs(o, ps, i) == key + val + rest;
    AtSplit(list, p, key + val, rest);
    AtSplit(list, p, key, val);
    assert list[p] == key[0];
  }

  /** The nodes of element `i` of a flattened array: its subtree, then the
      remaining elements. */
  lemma AtItem(list: seq<Entry>, p: nat, o: nat, items: seq<Tree>, i: nat)
    requires i < |items| && At(list, p, FlatItems(o, items, i))
    ensures At(list, p, Flat(items[i]))
    ensures At(list, p + |Flat(items[i])|, FlatItems(o, items, i + 1))
    ensures |FlatItems(o, items, i)| == |Flat(items[i])| + |FlatItems(o, items, i + 1)|
  {
    AtSplit(list, p, Flat(items[i]), FlatItems(o, items, i + 1));
  }

  lemma WellFormedPair(o: nat, ps: seq<Pair>, i: nat)
    requires i < |ps| && WellFormed(MapNode(o, ps))
    ensures WellFormed(ps[i].val)
  {
  }

  /** Skipping the `2 * (|ps| - i)` subtrees of pairs `i..` of a flattened
      map lands right after them. */
  lemma {:induction false} SkipPairs(list: seq<Entry>, p: nat, o: nat, ps: seq<Pair>, i: nat, k: nat, c: nat,
                                     end: nat)
    requires i <= |ps| && c == 2 * (|ps| - i) + k && end == p + |FlatPairs(o, ps, i)|
    requires WellFormed(MapNode(o, ps)) && At(list, p, FlatPairs(o, ps, i))
    ensures SkipSubtrees(list, p, c) == SkipSubtrees(list, end, k)
    decreases MapNode(o, ps), 0, |ps| - i
  {
    if i < |ps| {
      AtPair(list, p, o, ps, i);
      WellFormedPair(o, ps, i);
      var q := p + 1 + |Flat(ps[i].val)|;
      SkipLeaf(list, p, c - 1, c);
      SkipTree(list, p + 1, ps[i].val, c - 2, c - 1, q);
      SkipPairs(list, q, o, ps, i + 1, k, c - 2, end);
    }
  }

  /** Skipping the `|items| - i` subtrees of elements `i..` of a flattened
      array lands right after them. */
  lemma {:induction false} SkipItems(list: seq<Entry>, p: nat, o: nat, items: seq<Tree>, i: nat, k: nat, c: nat,
                                     end: nat)
    requires i <= |items| && c == |items| - i + k && end == p + |FlatItems(o, items, i)|
    requires WellFormed(ArrayNode(o, items)) && At(list, p, FlatItems(o, items, i))
    ensures SkipSubtrees(list, p, c) == SkipSubtrees(list, end, k)
    decreases ArrayNode(o, items), 0, |items| - i
  {
    if i < |items| {
      AtItem(list, p, o, items, i);
      assert WellFormed(items[i]);
      var q := p + |Flat(items[i])|;
      SkipTree(list, p, items[i], c - 1, c, q);
      SkipItems(list, q, o, items, i + 1, k, c - 1, end);
    }
  }

  /** The pair loop with the cursor moved past the whole key subtree and the
      whole value subtree. */
  function IntendedReadPairs(list: seq<Entry>, next: nat, n: nat, acc: map<string, Value>, nested: Nested)
    : (r: Result<PairsState>)
    requires next <= |list|
    ensures r.Ok? ==> next <= r.value.next <= |list|
    ensures r.Ok? ==> acc.Keys <= r.value.dict.Keys
    decreases n
  {
    if n == 0 || next == |list| then Ok(PairsState(acc, next))
    else
      var key :- ParseValue(list[next], nested);
      var valuePos := SkipSubtrees(list, next, 1);
      if valuePos == |list| then Ok(PairsState(acc, |list|))
      else
        var value :- ParseValue(list[valuePos], nested);
        IntendedReadPairs(list, SkipSubtrees(list, valuePos, 1), n - 1, acc[KeyOf(key) := value], nested)
  }

  /** The outer walk over the corrected pair loop. */
  function IntendedWalk(list: seq<Entry>, cur: nat, acc: map<string, Value>, nested: Nested)
    : (r: Result<map<string, Value>>)
    requires cur <= |list|
    ensures r.Ok? ==> acc.Keys <= r.value.Keys
    decreases |list| - cur
  {
    if cur == |list| then Ok(acc)
    else if list[cur].MapHeader? then
      match IntendedReadPairs(list, cur + 1, list[cur].size, acc, nested)
      case Err(e) => Err(e)
      case Ok(st) => IntendedWalk(list, st.next, st.dict, nested)
    else IntendedWalk(list, cur + 1, acc, nested)
  }

  /** Whether the value of every pair decodes (a container by its re-fetch). */
  ghost predicate ValuesDecode(ps: seq<Pair>, nested: Nested)
  {
    forall i | 0 <= i < |ps| :: ParseValue(Root(ps[i].val), nested).Ok?
  }

  /** The dictionary a map's pairs denote from pair `i` on: each key
      assigned the decoded value of its subtree, later pairs overwriting
      earlier ones. */
  function PairsToMap(acc: map<string, Value>, ps: seq<Pair>, i: nat, nested: Nested): map<string, Value>
    requires i <= |ps| && ValuesDecode(ps, nested)
    decreases |ps| - i
  {
    if i == |ps| then acc
    else PairsToMap(acc[ps[i].key := ParseValue(Root(ps[i].val), nested).value], ps, i + 1, nested)
  }

  lemma RootIsFirst(t: Tree)
    ensures Flat(t)[0] == Root(t)
  {
  }

  /** One iteration of the corrected pair loop that finds a key and a value. */
  lemma IntendedReadPairsStep(list: seq<Entry>, next: nat, n: nat, acc: map<string, Value>, nested: Nested,
                              valuePos: nat, after: nat)
    requires 0 < n && next < |list| && ParseValue(list[next], nested).Ok?
    requires valuePos == SkipSubtrees(list, next, 1) && valuePos < |list| && ParseValue(list[valuePos], nested).Ok?
    requires after == SkipSubtrees(list, valuePos, 1)
    ensures IntendedReadPairs(list, next, n, acc, nested)
         == IntendedReadPairs(list, after, n - 1,
                              acc[KeyOf(ParseValue(list[next], nested).value) := ParseValue(list[valuePos], nested).value],
                              nested)
  {
  }

  /** Where the corrected pair loop finds the `i`-th pair of a flattened map
      and where it resumes after it. */
  lemma PairPositions(list: seq<Entry>, p: nat, o: nat, ps: seq<Pair>, i: nat)
    requires i < |ps|
    requires WellFormed(MapNode(o, ps)) && At(list, p, FlatPairs(o, ps, i))
    ensures p + 1 < |list| && list[p] == Utf8String(Some(ps[i].key)) && list[p + 1] == Root(ps[i].val)
    ensures SkipSubtrees(list, p, 1) == p + 1
    ensures SkipSubtrees(list, p + 1, 1) == p + 1 + |Flat(ps[i].val)|
    ensures At(list, p + 1 + |Flat(ps[i].val)|, FlatPairs(o, ps, i + 1))
    ensures p + 1 + |Flat(ps[i].val)| + |FlatPairs(o, ps, i + 1)| == p + |FlatPairs(o, ps, i)|
  {
    AtPair(list, p, o, ps, i);
    var val := ps[i].val;
    RootIsFirst(val);
    SkipLeaf(list, p, 0, 1);
    assert WellFormed(val);
    SkipTree(list, p + 1, val, 0, 1, p + 1 + |Flat(val)|);
  }

  /** One iteration of the corrected pair loop over pair `i` of a
      flattened map: the key node and the value's whole subtree are
      consumed and the value's decoding is stored under the key. */
  lemma PairStep(list: seq<Entry>, p: nat, o: nat, ps: seq<Pair>, i: nat, acc: map<string, Value>,
                 nested: Nested, q: nat, n: nat)
    requires i < |ps| && n == |ps| - i && q == p + 1 + |Flat(ps[i].val)|
    requires WellFormed(MapNode(o, ps)) && ValuesDecode(ps, nested)
    requires At(list, p, FlatPairs(o, ps, i))
    ensures IntendedReadPairs(list, p, n, acc, nested)
         == IntendedReadPairs(list, q, n - 1, acc[ps[i].key := ParseValue(Root(ps[i].val), nested).value], nested)
    ensures At(list, q, FlatPairs(o, ps, i + 1))
    ensures q + |FlatPairs(o, ps, i + 1)| == p + |FlatPairs(o, ps, i)|
    ensures PairsToMap(acc, ps, i, nested)
         == PairsToMap(acc[ps[i].key := ParseValue(Root(ps[i].val), nested).value], ps, i + 1, nested)
  {
    PairPositions(list, p, o, ps, i);
    assert ParseValue(list[p], nested) == Ok(Str(ps[i].key));
    assert ParseValue(list[p + 1], nested).Ok?;
    IntendedReadPairsStep(list, p, n, acc, nested, p + 1, q);
  }

  /** The corrected pair loop over the pairs `i..` of a flattened map whose
      values decode stores each of them and stops right after the last. */
  lemma {:induction false} IntendedPairsDecode(list: seq<Entry>, p: nat, o: nat, ps: seq<Pair>, i: nat,
                                               acc: map<string, Value>, nested: Nested, n: nat, end: nat)
    requires i <= |ps| && n == |ps| - i && end == p + |FlatPairs(o, ps, i)|
    requires WellFormed(MapNode(o, ps)) && ValuesDecode(ps, nested)
    requires At(list, p, FlatPairs(o, ps, i))
    ensures IntendedReadPairs(list, p, n, acc, nested) == Ok(PairsState(PairsToMap(acc, ps, i, nested), end))
    decreases n
  {
    if i < |ps| {
      var q := p + 1 + |Flat(ps[i].val)|;
      var acc' := acc[ps[i].key := ParseValue(Root(ps[i].val), nested).value];
      PairStep(list, p, o, ps, i, acc, nested, q, n);
      IntendedPairsDecode(list, q, o, ps, i + 1, acc', nested, n - 1, end);
    } else {
      assert PairsToMap(acc, ps, i, nested) == acc;
      assert |FlatPairs(o, ps, i)| == 0;
    }
  }

  /** The intended behaviour: a flattened map whose values all decode walks
      to exactly the dictionary its pairs denote. */
  lemma IntendedWalkDecodesMap(o: nat, ps: seq<Pair>, nested: Nested)
    requires WellFormed(MapNode(o, ps)) && ValuesDecode(ps, nested)
    ensures IntendedWalk(Flat(MapNode(o, ps)), 0, map[], nested) == Ok(PairsToMap(map[], ps, 0, nested))
  {
    var list := Flat(MapNode(o, ps));
    AtSplit(list, 0, [MapHeader(|ps|, o)], FlatPairs(o, ps, 0));
    assert list[0] == MapHeader(|ps|, o) && |list| == 1 + |FlatPairs(o, ps, 0)|;
    IntendedPairsDecode(list, 1, o, ps, 0, map[], nested, |ps|, |list|);
    var st := PairsState(PairsToMap(map[], ps, 0, nested), |list|);
    assert IntendedWalk(list, 0, map[], nested) == IntendedWalk(list, |list|, st.dict, nested);
  }

  /** Every value of the map is a single node: no value is a container. */
  ghost predicate ScalarValues(ps: seq<Pair>)
  {
    forall i | 0 <= i < |ps| :: ps[i].val.Leaf?
  }

  /** One iteration of the pair loop as written over pair `i` of a flattened
      map whose values are single nodes: it consumes the key and the value
      node and stores the value's decoding under the key. */
  lemma ScalarPairStep(list: seq<Entry>, p: nat, o: nat, ps: seq<Pair>, i: nat, acc: map<string, Value>,
                       nested: Nested, q: nat, n: nat)
    requires i < |ps| && n == |ps| - i && q == p + 2
    requires WellFormed(MapNode(o, ps)) && ValuesDecode(ps, nested) && ScalarValues(ps)
    requires At(list, p, FlatPairs(o, ps, i))
    ensures ReadPairs(list, p, n, acc, nested)
         == ReadPairs(list, q, n - 1, acc[ps[i].key := ParseValue(Root(ps[i].val), nested).value], nested)
    ensures At(list, q, FlatPairs(o, ps, i + 1))
    ensures q + |FlatPairs(o, ps, i + 1)| == p + |FlatPairs(o, ps, i)|
    ensures PairsToMap(acc, ps, i, nested)
         == PairsToMap(acc[ps[i].key := ParseValue(Root(ps[i].val), nested).value], ps, i + 1, nested)
  {
    PairPositions(list, p, o, ps, i);
    assert |Flat(ps[i].val)| == 1;
    assert ParseValue(list[p], nested) == Ok(Str(ps[i].key));
    assert ParseValue(list[p + 1], nested).Ok?;
  }

  /** The pair loop as written over the pairs `i..` of a flattened map whose
      values are single nodes stores each of them and stops right after the
      last. */
  lemma {:induction false} ScalarPairsDecode(list: seq<Entry>, p: nat, o: nat, ps: seq<Pair>, i: nat,
                                             acc: map<string, Value>, nested: Nested, n: nat, end: nat)
    requires i <= |ps| && n == |ps| - i && end == p + |FlatPairs(o, ps, i)|
    requires WellFormed(MapNode(o, ps)) && ValuesDecode(ps, nested) && ScalarValues(ps)
    requires At(list, p, FlatPairs(o, ps, i))
    ensures ReadPairs(list, p, n, acc, nested) == Ok(PairsState(PairsToMap(acc, ps, i, nested), end))
    decreases n
  {
    if i < |ps| {
      var acc' := acc[ps[i].key := ParseValue(Root(ps[i].val), nested).value];
      ScalarPairStep(list, p, o, ps, i, acc, nested, p + 2, n);
      ScalarPairsDecode(list, p + 2, o, ps, i + 1, acc', nested, n - 1, end);
    } else {
      assert PairsToMap(acc, ps, i, nested) == acc;
      assert |FlatPairs(o, ps, i)| == 0;
    }
  }

  /** On a map whose values are all single nodes the walk as written is
      right: it decodes the map into exactly its pairs, as the corrected walk
      does. The two differ only on container values. */
  lemma AsWrittenDecodesScalarMap(o: nat, ps: seq<Pair>, nested: Nested)
    requires WellFormed(MapNode(o, ps)) && ValuesDecode(ps, nested) && ScalarValues(ps)
    ensures Walk(Flat(MapNode(o, ps)), 0, map[], nested) == Ok(PairsToMap(map[], ps, 0, nested))
    ensures Walk(Flat(MapNode(o, ps)), 0, map[], nested) == IntendedWalk(Flat(MapNode(o, ps)), 0, map[], nested)
  {
    var list := Flat(MapNode(o, ps));
    AtSplit(list, 0, [MapHeader(|ps|, o)], FlatPairs(o, ps, 0));
    assert list[0] == MapHeader(|ps|, o) && |list| == 1 + |FlatPairs(o, ps, 0)|;
    ScalarPairsDecode(list, 1, o, ps, 0, map[], nested, |ps|, |list|);
    var st := PairsState(PairsToMap(map[], ps, 0, nested), |list|);
    assert Walk(list, 0, map[], nested) == Walk(list, |list|, st.dict, nested);
    IntendedWalkDecodesMap(o, ps, nested);
  }

  /** A City record cut down to two pairs: "city" holds a nested map,
      "country" a string. */
  function CityRecord(): Tree
  {
    MapNode(0, [Pair("city", MapNode(7, [Pair("geoname_id", Leaf(Uint32(5)))])),
                Pair("country", Leaf(Utf8String(Some("US"))))])
  }

  /** The walk as written reads the nested map's children as pairs of the
      outer map: "geoname_id" appears at the top level and "country" is lost,
      where the corrected walk yields exactly "city" and "country". */
  lemma AsWrittenLeaksNestedKeys(nested: Nested)
    requires nested.mapAt(7).Ok?
    ensures Walk(Flat(CityRecord()), 0, map[], nested)
         == Ok(map["city" := Dict(nested.mapAt(7).value), "geoname_id" := U32(5)])
    ensures IntendedWalk(Flat(CityRecord()), 0, map[], nested)
         == Ok(map["city" := Dict(nested.mapAt(7).value), "country" := Str("US")])
  {
    var city := Dict(nested.mapAt(7).value);
    var list := Flat(CityRecord());
    assert list == [MapHeader(2, 0), Utf8String(Some("city")), MapHeader(1, 7),
                    Utf8String(Some("geoname_id")), Uint32(5),
                    Utf8String(Some("country")), Utf8String(Some("US"))];
    // as written
    assert ReadPairs(list, 1, 2, map[], nested) == ReadPairs(list, 3, 1, map["city" := city], nested);
    assert ReadPairs(list, 3, 1, map["city" := city], nested)
        == Ok(PairsState(map["city" := city, "geoname_id" := U32(5)], 5));
    assert Walk(list, 5, map["city" := city, "geoname_id" := U32(5)], nested)
        == Walk(list, 6, map["city" := city, "geoname_id" := U32(5)], nested);
    // corrected
    IntendedWalkDecodesMap(0, CityRecord().pairs, nested);
  }
}
