/**
 * The decoded byml document, as far as the indexer looks at it, and the two
 * Python operations the extractors apply to it: subscripting with a string key
 * and iterating with a `for` loop.
 */
module Byml {
  import opened Wrappers

  /** An unsigned 64-bit integer, the width of byml's UInt64 nodes. */
  type uint64 = x: int | 0 <= x < 0x1_0000_0000_0000_0000

  /**
   * A byml node. `Hash` is a dictionary node, `Array` a list node, `U64` an
   * unsigned 64-bit node (the only kind here whose `.v` attribute exists) and
   * `Str` a string node, which the decoder hands over as a Python string.
   */
  datatype Value =
    | Hash(fields: map<string, Value>)
    | Array(items: seq<Value>)
    | U64(v: uint64)
    | Str(s: string)

  /** What evaluating `node[key]` does in Python. */
  datatype Lookup = Found(value: Value) | KeyError | TypeError

  /**
   * A dictionary node answers a missing key with KeyError; a list, a string or a
   * number subscripted with a string raises TypeError.
   */
  function Get(node: Value, key: string): Lookup
  {
    match node
    case Hash(fields) => if key in fields then Found(fields[key]) else KeyError
    case _ => TypeError
  }

  /**
   * The values a Python `for` loop over `node` visits, or None when the loop
   * raises TypeError because `node` is not iterable. A dictionary node yields its
   * keys and a string yields its one-character substrings, both as strings.
   */
  function Members(node: Value): Option<set<Value>>
  {
    match node
    case Array(items) => Some(set x | x in items)
    case Hash(fields) => Some(set k | k in fields :: Str(k))
    case Str(s) => Some(set c | c in s :: Str([c]))
    case U64(_) => None
  }

  /**
   * Lists the values a `for` loop visits: a list's items and a string's
   * characters in their order, a dictionary's keys in some order (the order of
   * a dictionary's keys is not modelled: any order is a possible one).
   */
  method Elements(node: Value) returns (r: Option<seq<Value>>)
    ensures r.None? <==> Members(node).None?
    ensures r.Some? ==> (set x | x in r.value) == Members(node).value
    ensures node.Array? ==> r == Some(node.items)
    ensures node.Str? ==>
      (r.Some? && |r.value| == |node.s| && forall i | 0 <= i < |node.s| :: r.value[i] == Str([node.s[i]]))
    ensures node.Hash? ==> r.Some? && |r.value| == |node.fields.Keys|
  {
    match node
    case Array(items) =>
      r := Some(items);
    case U64(_) =>
      r := None;
    case Str(s) =>
      var out: seq<Value> := [];
      for i := 0 to |s|
        invariant (set x | x in out) == set c | c in s[..i] :: Str([c])
        invariant |out| == i && forall j | 0 <= j < i :: out[j] == Str([s[j]])
      {
        assert s[..i + 1] == s[..i] + [s[i]];
        assert (set c | c in s[..i + 1] :: Str([c])) == (set c | c in s[..i] :: Str([c])) + {Str([s[i]])};
        assert (set x | x in out + [Str([s[i]])]) == (set x | x in out) + {Str([s[i]])};
        out := out + [Str([s[i]])];
      }
      assert s[..|s|] == s;
      r := Some(out);
    case Hash(fields) =>
      var keys := KeyElements(fields);
      r := Some(keys);
  }

  /** A dictionary node's keys as string nodes, each exactly once, in some order. */
  method KeyElements(fields: map<string, Value>) returns (out: seq<Value>)
    ensures (set x | x in out) == set k | k in fields :: Str(k)
    ensures |out| == |fields.Keys|
  {
    out := [];
    var todo := fields.Keys;
    while todo != {}
      invariant todo <= fields.Keys
      invariant (set x | x in out) == set k | k in fields.Keys - todo :: Str(k)
      invariant |out| == |fields.Keys - todo|
      decreases todo
    {
      var k :| k in todo;
      assert fields.Keys - (todo - {k}) == (fields.Keys - todo) + {k};
      assert (set k' | k' in (fields.Keys - todo) + {k} :: Str(k'))
          == (set k' | k' in fields.Keys - todo :: Str(k')) + {Str(k)};
      assert (set x | x in out + [Str(k)]) == (set x | x in out) + {Str(k)};
      assert k !in fields.Keys - todo;
      out := out + [Str(k)];
      todo := todo - {k};
    }
    assert fields.Keys - todo == fields.Keys;
  }
}
