/**
 * `GeoIP2Result.formatValue` and `prettyPrint`: the indented text rendering
 * of a decoded value tree.
 *
 * A Swift dictionary is iterated in an order the language leaves
 * unspecified; the rendering takes SOME enumeration of the keys, each key
 * exactly once, and every property below holds whichever one it is. The
 * text of a number or a boolean (`"\(value)"`) is the parameter `text`.
 */
module Render {
  import opened MmdbData

  /** The strings of `ss`, one after the other. */
  function Concat(ss: seq<string>): string
  {
    if ss == [] then "" else ss[0] + Concat(ss[1..])
  }

  /** `ks` lists every key of `keys` exactly once. */
  ghost predicate Enumerates(ks: seq<string>, keys: set<string>)
  {
    && (forall k :: k in ks <==> k in keys)
    && (forall i, j | 0 <= i < j < |ks| :: ks[i] != ks[j])
  }

  lemma {:induction false} EnumerationExists(keys: set<string>)
    ensures exists ks :: Enumerates(ks, keys)
    decreases |keys|
  {
    if keys == {} {
      assert Enumerates([], keys);
    } else {
      var k :| k in keys;
      EnumerationExists(keys - {k});
      var ks :| Enumerates(ks, keys - {k});
      assert Enumerates([k] + ks, keys) by {
        forall i, j | 0 <= i < j < |[k] + ks| ensures ([k] + ks)[i] != ([k] + ks)[j] {
          if i > 0 {
            assert ([k] + ks)[i] == ks[i - 1];
          }
          assert ([k] + ks)[j] == ks[j - 1];
        }
      }
    }
  }

  /** The order in which a `for (key, val) in dict` loop visits the keys. */
  ghost function IterationOrder(m: map<string, Value>): seq<string>
  {
    EnumerationExists(m.Keys);
    var ks :| Enumerates(ks, m.Keys);
    ks
  }

  /** `formatValue(value, indent:)`. */
  ghost function FormatValue(v: Value, indent: string, text: Value -> string): (r: string)
    // a string is quoted; a dictionary or an array is bracketed, its closing
    // bracket after the indent; anything else is its own description
    ensures v.Str? ==> r == "\"" + v.s + "\""
    ensures v.Dict? ==> |r| >= 3 + |indent| && r[..2] == "{\n" && r[|r| - |indent| - 1..] == indent + "}"
    ensures v.Arr? ==> |r| >= 3 + |indent| && r[..2] == "[\n" && r[|r| - |indent| - 1..] == indent + "]"
    ensures !v.Str? && !v.Dict? && !v.Arr? ==> r == text(v)
    decreases v, 1
  {
    match v
    case Dict(m) => "{\n" + DictLines(m, IterationOrder(m), indent, text) + indent + "}"
    case Arr(items) => "[\n" + ArrayLines(items, 0, indent, text) + indent + "]"
    case Str(s) => "\"" + s + "\""
    case _ => text(v)
  }

  /** The lines the dictionary loop appends for keys `ks`, in that order. */
  ghost function DictLines(m: map<string, Value>, ks: seq<string>, indent: string, text: Value -> string): string
    requires forall k | k in ks :: k in m
    decreases Dict(m), 0, |ks|
  {
    if ks == [] then ""
    else indent + "  " + ks[0] + ": " + FormatValue(m[ks[0]], indent + "  ", text) + "\n"
         + DictLines(m, ks[1..], indent, text)
  }

  /** The lines the array loop appends for `items[i..]`. */
  ghost function ArrayLines(items: seq<Value>, i: nat, indent: string, text: Value -> string): string
    requires i <= |items|
    decreases Arr(items), 0, |items| - i
  {
    if i == |items| then ""
    else indent + "  " + FormatValue(items[i], indent + "  ", text) + "\n"
         + ArrayLines(items, i + 1, indent, text)
  }

  /** One dictionary line: the key, a colon and the value rendered two
      spaces deeper. */
  ghost function EntryLine(m: map<string, Value>, k: string, indent: string, text: Value -> string): string
    requires k in m
  {
    indent + "  " + k + ": " + FormatValue(m[k], indent + "  ", text) + "\n"
  }

  /** One array line: the element rendered two spaces deeper. */
  ghost function ElementLine(item: Value, indent: string, text: Value -> string): string
  {
    indent + "  " + FormatValue(item, indent + "  ", text) + "\n"
  }

  ghost function EntryLines(m: map<string, Value>, ks: seq<string>, indent: string, text: Value -> string)
    : (lines: seq<string>)
    requires forall k | k in ks :: k in m
  {
    seq(|ks|, i requires 0 <= i < |ks| => EntryLine(m, ks[i], indent, text))
  }

  ghost function ElementLines(items: seq<Value>, indent: string, text: Value -> string): (lines: seq<string>)
  {
    seq(|items|, i requires 0 <= i < |items| => ElementLine(items[i], indent, text))
  }

  lemma {:induction false} DictLinesAreEntryLines(m: map<string, Value>, ks: seq<string>, indent: string,
                                                  text: Value -> string)
    requires forall k | k in ks :: k in m
    ensures DictLines(m, ks, indent, text) == Concat(EntryLines(m, ks, indent, text))
    decreases |ks|
  {
    if ks != [] {
      DictLinesAreEntryLines(m, ks[1..], indent, text);
      assert EntryLines(m, ks, indent, text)[1..] == EntryLines(m, ks[1..], indent, text);
    }
  }

  lemma {:induction false} ArrayLinesAreElementLines(items: seq<Value>, i: nat, indent: string,
                                                     text: Value -> string)
    requires i <= |items|
    ensures ArrayLines(items, i, indent, text) == Concat(ElementLines(items, indent, text)[i..])
    decreases |items| - i
  {
    if i < |items| {
      ArrayLinesAreElementLines(items, i + 1, indent, text);
      assert ElementLines(items, indent, text)[i..][1..] == ElementLines(items, indent, text)[i + 1..];
    }
  }

  /** A dictionary renders as "{\n", then one line per key (each key exactly
      once, in some order), then the indent and "}". */
  lemma DictLayout(m: map<string, Value>, indent: string, text: Value -> string)
    ensures exists ks | Enumerates(ks, m.Keys) ::
              FormatValue(Dict(m), indent, text)
              == "{\n" + Concat(EntryLines(m, ks, indent, text)) + indent + "}"
  {
    var ks := IterationOrder(m);
    DictLinesAreEntryLines(m, ks, indent, text);
  }

  /** An empty dictionary renders as "{\n" followed by the indent and "}". */
  lemma EmptyDictLayout(indent: string, text: Value -> string)
    ensures FormatValue(Dict(map[]), indent, text) == "{\n" + indent + "}"
  {
    var empty: map<string, Value> := map[];
    var ks := IterationOrder(empty);
  }

  /** An array renders as "[\n", then one line per element in array order,
      then the indent and "]". */
  lemma ArrayLayout(items: seq<Value>, indent: string, text: Value -> string)
    ensures FormatValue(Arr(items), indent, text)
         == "[\n" + Concat(ElementLines(items, indent, text)) + indent + "]"
  {
    ArrayLinesAreElementLines(items, 0, indent, text);
    assert ElementLines(items, indent, text)[0..] == ElementLines(items, indent, text);
  }

  /** The result handed to the application: the dictionary of a lookup. */
  datatype GeoIP2Result = GeoIP2Result(data: map<string, Value>) {

    /** `prettyPrint(indent:)`: the rendering of the whole dictionary. */
    ghost function PrettyPrint(text: Value -> string, indent: string := ""): (r: string)
      ensures exists ks | Enumerates(ks, data.Keys) ::
                r == "{\n" + Concat(EntryLines(data, ks, indent, text)) + indent + "}"
    {
      DictLayout(data, indent, text);
      FormatValue(Dict(data), indent, text)
    }
  }
}
