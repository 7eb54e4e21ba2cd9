# MaxMindDBSwift decoder, modelled in Dafny

MaxMindDBSwift is a Swift binding of libmaxminddb. A lookup asks libmaxminddb
for the record of an IP address as an *entry data list*: a linked list of
typed nodes (strings, doubles, unsigned and signed integers, booleans, and
MAP/ARRAY headers carrying a count and an offset). The binding walks that
list into a Swift dictionary `[String: Any]` and can render the result as
indented text. This project models that core, `Sources/MaxMindDBSwift/GeoIP2.swift`:

- `parseEntryDataList` as an imperative method over the list (a `seq<Entry>`
  whose index plays the `current`/`next` pointers; nil is `|list|`), proved
  equal to a functional specification `Walk`/`ReadPairs`;
- `parseValue`, the dispatch from a node's type tag to a value;
- `formatValue`/`prettyPrint`, the text rendering, with Swift's unspecified
  dictionary iteration order left open (any enumeration of the keys);
- the decision logic of `lookup` and `parseFullData` once libmaxminddb has
  answered;
- a corrected walk that skips a container value's whole subtree, with the
  record on which the walk as written goes wrong (see Findings).

Modules: `MmdbData` (entries.dfy: entries, values, errors), `Scalars`
(scalars.dfy), `EntryWalk` (entry_walk.dfy), `WalkProperties`
(walk_properties.dfy), `Render` (render.dfy), `Lookup` (lookup.dfy),
`IntendedWalk` (intended_walk.dfy).

Where a general description of such decoders and the Swift code differ, the
model follows the code: a map that runs past the end of the list stops
silently and keeps the pairs it read (no truncation error), a map key that is
not a string is stored under `""` (no type error), and a node that is neither
a MAP header nor inside a map is stepped over.

## Model

| member | source | states |
|---|---|---|
| Scalars.ParseValue | Sources/MaxMindDBSwift/GeoIP2.swift:151-216 | a scalar node yields its own payload unchanged; a string node with no valid UTF-8 text yields ""; a MAP/ARRAY header yields the re-fetched container or its error; any other tag throws dataParsingFailed |
| Scalars.KeyOf | Sources/MaxMindDBSwift/GeoIP2.swift:131 | a key that parses to a String is kept as it is; a key of any other type becomes "" |
| Scalars.ScalarRoundTrip | Sources/MaxMindDBSwift/GeoIP2.swift:153-174 | every scalar value is returned unchanged from the node that carries it |
| Scalars.ParseFailsIff | Sources/MaxMindDBSwift/GeoIP2.swift:176-214 | parseValue throws exactly on an unsupported tag or a failed re-fetch of a container |
| EntryWalk.ReadPairs | Sources/MaxMindDBSwift/GeoIP2.swift:129-139 | the pair loop consumes exactly two nodes per pair, stopping at the end of the list, and never removes a key already stored |
| EntryWalk.ReadPairsOkIff | Sources/MaxMindDBSwift/GeoIP2.swift:129-139 | the pair loop throws exactly when a node it reads fails to parse; running off the end of the list is not an error |
| EntryWalk.Walk | Sources/MaxMindDBSwift/GeoIP2.swift:122-146 | the outer walk only adds keys to the dictionary |
| EntryWalk.ParseEntryDataList | Sources/MaxMindDBSwift/GeoIP2.swift:118-149 | the in-place loop with its inner pair loop and early breaks returns exactly what the walk specification gives |
| WalkProperties.PairsStoreKeys | Sources/MaxMindDBSwift/GeoIP2.swift:129-139 | after the pair loop the dictionary's keys are the old keys plus the keys of the complete pairs read (a non-string key counts as ""), so a repeated key does not grow it |
| WalkProperties.PairsKeepOtherKeys | Sources/MaxMindDBSwift/GeoIP2.swift:136 | a key that no pair of the loop carries keeps its earlier value |
| WalkProperties.ReadPairsStep | Sources/MaxMindDBSwift/GeoIP2.swift:130-138 | one iteration that finds both nodes stores the parsed value under the parsed key and moves the cursor two nodes on |
| WalkProperties.LastWriteWins | Sources/MaxMindDBSwift/GeoIP2.swift:136 | the value stored under a key is the value of the last pair carrying that key |
| WalkProperties.NodesOutsideMapsAddNothing | Sources/MaxMindDBSwift/GeoIP2.swift:145 | a node that is not a MAP header adds nothing and the cursor moves on by one |
| WalkProperties.UnsupportedPairNodeThrows | Sources/MaxMindDBSwift/GeoIP2.swift:129-139 | the pair loop throws dataParsingFailed at the first node it reads, key or value of any pair, whose tag parseValue does not handle |
| WalkProperties.UnsupportedKeyThrows | Sources/MaxMindDBSwift/GeoIP2.swift:131 | a node with a tag parseValue does not handle, as the key (or value) of any pair of a map header, with every node before it parsing, makes the whole walk from that header throw dataParsingFailed |
| WalkProperties.TruncatedMapKeepsPairs | Sources/MaxMindDBSwift/GeoIP2.swift:130-141 | a map whose declared pairs run past the end of the list keeps the complete pairs it found and ends the walk without error |
| WalkProperties.RepeatedKeyExample | Sources/MaxMindDBSwift/GeoIP2.swift:136 | {"a": 1, "a": 2} decodes to {"a": 2} |
| Render.FormatValue | Sources/MaxMindDBSwift/GeoIP2.swift:34-55 | a string renders quoted; a dictionary renders from "{\n" to indent and "}", an array from "[\n" to indent and "]"; any other value renders as its own description |
| Render.DictLayout | Sources/MaxMindDBSwift/GeoIP2.swift:36-42 | a dictionary renders as "{\n", one line "indent  key: value\n" per key (every key exactly once, value rendered two spaces deeper), then indent and "}" |
| Render.EmptyDictLayout | Sources/MaxMindDBSwift/GeoIP2.swift:37-41 | an empty dictionary renders as "{\n" followed by indent and "}" |
| Render.ArrayLayout | Sources/MaxMindDBSwift/GeoIP2.swift:43-49 | an array renders as "[\n", one line per element in array order, then indent and "]" |
| Render.GeoIP2Result.PrettyPrint | Sources/MaxMindDBSwift/GeoIP2.swift:30-32 | prettyPrint is the dictionary layout of the result's data at the given indent (default "") |
| Lookup.ParseFullData | Sources/MaxMindDBSwift/GeoIP2.swift:102-116 | a failed fetch or a nil list throws dataParsingFailed; otherwise the result is the walk of the list |
| Lookup.LookupRecord | Sources/MaxMindDBSwift/GeoIP2.swift:83-97 | a libmaxminddb error is thrown first without a network error, then a network error, then a missing record gives empty data, and a found record gives the decoded dictionary or its error |
| IntendedWalk.SkipTree | Sources/MaxMindDBSwift/GeoIP2.swift:138 | skipping one subtree by the header counts lands exactly after the flattened subtree |
| IntendedWalk.IntendedReadPairs | Sources/MaxMindDBSwift/GeoIP2.swift:129-139 | the corrected pair loop (cursor moved past the key's and the value's whole subtrees) only moves forward within the list and never removes a stored key |
| IntendedWalk.IntendedWalk | Sources/MaxMindDBSwift/GeoIP2.swift:122-146 | the outer walk over the corrected pair loop only adds keys to the dictionary |
| IntendedWalk.IntendedPairsDecode | Sources/MaxMindDBSwift/GeoIP2.swift:129-139 | the corrected pair loop stores every pair of a flattened map, later pairs overwriting earlier ones, and stops right after the last pair |
| IntendedWalk.IntendedWalkDecodesMap | Sources/MaxMindDBSwift/GeoIP2.swift:118-149 | the corrected walk decodes every flattened map whose values decode into exactly the dictionary of its pairs |
| IntendedWalk.ScalarPairsDecode | Sources/MaxMindDBSwift/GeoIP2.swift:129-139 | the pair loop as written stores every pair of a flattened map whose values are single nodes, later pairs overwriting earlier ones, and stops right after the last pair |
| IntendedWalk.AsWrittenDecodesScalarMap | Sources/MaxMindDBSwift/GeoIP2.swift:118-149 | on a map whose values are all single nodes the walk as written returns exactly the map's pairs, the same result as the corrected walk |
| IntendedWalk.AsWrittenLeaksNestedKeys | Sources/MaxMindDBSwift/GeoIP2.swift:138 | on a record whose first value is a nested map, the walk as written stores the nested key at the top level and loses the next sibling, where the corrected walk does not |

## Left out

- Scalars.ParseValue: the MAP and ARRAY branches re-fetch an entry data list from libmaxminddb at the header's offset and decode it; libmaxminddb is foreign code, so what the re-fetch yields is a parameter (`Nested`: one result per offset for maps and for arrays). The element loop of the ARRAY branch is therefore not modelled.
- `init(databasePath:)` and `deinit` (opening, closing and freeing the database) call libmaxminddb only.
- `lookup(ip:)`: the concurrent `DispatchQueue`, the C string bridging and `MMDB_lookup_string` are left out; the two error codes, the found flag and the fetched list are parameters of `Lookup.LookupRecord`.
- The `MMDB_free_entry_data_list` calls in `defer` blocks (memory management).
- String decoding: `String(bytesNoCopy:length:encoding:freeWhenDone:)` is taken as given; a string node carries either its decoded text or nothing (missing pointer or invalid UTF-8).
- WalkProperties.PairsStoreKeys, WalkProperties.LastWriteWins, WalkProperties.PairsKeepOtherKeys: map keys are compared as sequences of code points. Swift's `String` equality and `Dictionary` hashing use Unicode canonical equivalence, so two keys that differ only in normalisation (precomposed "é" and "e" followed by U+0301) are one key in Swift and two keys here; these properties hold with code-point equality in place of Swift's.
- Doubles are carried as their 64-bit pattern and never interpreted.
- The text of numbers and booleans (`"\(value)"`) is a parameter `text` of the renderer.
- Dictionary iteration order: Swift leaves it unspecified, so the rendering lemmas hold for some enumeration of the keys in which each key appears exactly once.
- Integer widths: `data_size` is widened to `Int` by the source and is a `nat` here; the payloads keep their widths as bounded newtypes.
- `GeoIP2Error.errorDescription` (message text), Package.swift and maxminddb_config.h (build configuration).

## Findings

| source | as written | input that shows it | evidently intended | confidence | as-written member | corrected member |
|---|---|---|---|---|---|---|
| Sources/MaxMindDBSwift/GeoIP2.swift:138 | after a map value the cursor moves on by one node, although libmaxminddb's entry data list holds a container value's whole subtree inline | the record {"city": {"geoname_id": 5}, "country": "US"}, flattened as [MAP(2), "city", MAP(1), "geoname_id", 5, "country", "US"], decodes to {"city": …, "geoname_id": 5}: the nested key leaks to the top level and "country" is lost | move the cursor past the value's whole subtree, so that each map decodes to exactly its own pairs | not executed | IntendedWalk.AsWrittenLeaksNestedKeys | IntendedWalk.IntendedWalkDecodesMap |
