/**
 * `search_for_refs(type_, item)`: load the stored index (a missing index is
 * fatal), scan the actors table in its order, compare one field of each actor
 * key with `item` (a hash compared as its decimal text), and for each match
 * report its hash, Gyaml, defining path and, when the hash is referenced, the
 * referencing paths.
 */
module Query {
  import opened Wrappers
  import Byml
  import opened Extract
  import opened Scan
  import opened CrossIndex

  /** The `type_` argument: `"Gyaml"` or `"Hash"`, the two fields of an actor key. */
  datatype Field = GyamlField | HashField

  /** One element of the result list: `hash`, `gyaml`, `source`, and `files` when present. */
  datatype Found = Found(hash: Byml.uint64, gyaml: string, source: Path, files: Option<set<Path>>)

  // ---------------------------------------------------------------------------
  // Decimal text of an integer, as `str(int)` writes it

  predicate IsDigit(c: char)
  {
    '0' <= c <= '9'
  }

  function DigitChar(d: nat): char
    requires d < 10
  {
    ('0' as int + d) as char
  }

  function DigitValue(c: char): nat
    requires IsDigit(c)
  {
    c as int - '0' as int
  }

  /** `str(n)` for a non-negative integer. */
  function Decimal(n: nat): string
  {
    if n < 10 then [DigitChar(n)] else Decimal(n / 10) + [DigitChar(n % 10)]
  }

  predicate AllDigits(s: string)
  {
    forall i | 0 <= i < |s| :: IsDigit(s[i])
  }

  /** The number a string of digits denotes. */
  function DigitsValue(s: string): nat
    requires AllDigits(s)
  {
    if s == [] then 0 else DigitsValue(s[..|s| - 1]) * 10 + DigitValue(s[|s| - 1])
  }

  /** The texts `str` produces for non-negative integers: digits only, no leading zero. */
  predicate IsCanonicalDecimal(s: string)
  {
    |s| > 0 && AllDigits(s) && (s[0] == '0' ==> |s| == 1)
  }

  /** `str(n)` is canonical decimal text and denotes `n`. */
  lemma {:induction false} DecimalRoundTrip(n: nat)
    ensures IsCanonicalDecimal(Decimal(n)) && DigitsValue(Decimal(n)) == n
    ensures n > 0 ==> Decimal(n)[0] != '0'
    decreases n
  {
    var s := Decimal(n);
    if n < 10 {
      assert s[..0] == [];
    } else {
      DecimalRoundTrip(n / 10);
      var prefix := Decimal(n / 10);
      assert s[..|s| - 1] == prefix;
      assert s[0] == prefix[0];
    }
  }

  /** Digits without a leading zero denote a positive number. */
  lemma {:induction false} LeadingDigitPositive(s: string)
    requires |s| > 0 && AllDigits(s) && s[0] != '0'
    ensures DigitsValue(s) >= 1
    decreases |s|
  {
    if |s| > 1 {
      LeadingDigitPositive(s[..|s| - 1]);
    } else {
      assert s[..0] == [];
    }
  }

  /** Canonical decimal text is `str` of the number it denotes. */
  lemma {:induction false} CanonicalRoundTrip(s: string)
    requires IsCanonicalDecimal(s)
    ensures Decimal(DigitsValue(s)) == s
    decreases |s|
  {
    if |s| == 1 {
      assert s[..0] == [];
      assert s == [DigitChar(DigitValue(s[0]))];
    } else {
      var prefix := s[..|s| - 1];
      LeadingDigitPositive(prefix);
      CanonicalRoundTrip(prefix);
      var d := DigitValue(s[|s| - 1]);
      assert s == prefix + [DigitChar(d)];
    }
  }

  // ---------------------------------------------------------------------------
  // The query

  /** `actor[type_]` of the decoded actor key, with an integer rendered by `str`. */
  function FieldText(key: ActorKey, field: Field): string
  {
    match field
    case GyamlField => key.gyaml
    case HashField => Decimal(key.hash)
  }

  /**
   * A hash query matches exactly the actor whose hash the item denotes, and only
   * when the item is written as `str` writes it (no sign, no leading zero).
   */
  lemma HashFieldMatchesIff(key: ActorKey, item: string)
    ensures FieldText(key, HashField) == item <==> IsCanonicalDecimal(item) && DigitsValue(item) == key.hash
  {
    DecimalRoundTrip(key.hash);
    if IsCanonicalDecimal(item) && DigitsValue(item) == key.hash {
      CanonicalRoundTrip(item);
    }
  }

  /** `all_references[hash]` on the defaultdict: the referencing paths, empty when there are none. */
  function ReferencingFiles(idx: Index, hash: Byml.uint64): set<Path>
  {
    if Id(hash) in idx.references then idx.references[Id(hash)] else {}
  }

  /** The result entry for one actor: `files` is present only when its reference set is non-empty. */
  function Describe(idx: Index, key: ActorKey): Found
    requires key in idx.actors
  {
    var refs := ReferencingFiles(idx, key.hash);
    Found(key.hash, key.gyaml, idx.actors[key], if refs != {} then Some(refs) else None)
  }

  /** The entries for the keys of `keys` whose field equals `item`, in the order of `keys`. */
  function MatchesIn(idx: Index, keys: seq<ActorKey>, field: Field, item: string): seq<Found>
    requires forall k | k in keys :: k in idx.actors
  {
    if keys == [] then []
    else
      var last := keys[|keys| - 1];
      MatchesIn(idx, keys[..|keys| - 1], field, item)
      + (if FieldText(last, field) == item then [Describe(idx, last)] else [])
  }

  lemma OrderInActors(idx: Index)
    requires WellFormed(idx)
    ensures forall k | k in idx.order :: k in idx.actors
  {
    forall k | k in idx.order ensures k in idx.actors {
      assert k in (set x | x in idx.order);
    }
  }

  /** What the query over a loaded index returns: the matches in the scan order of the actors table. */
  function Search(idx: Index, field: Field, item: string): seq<Found>
    requires WellFormed(idx)
  {
    OrderInActors(idx);
    MatchesIn(idx, idx.order, field, item)
  }

  method SearchForRefs(stored: Option<Index>, field: Field, item: string) returns (r: Outcome<seq<Found>>)
    requires stored.Some? ==> WellFormed(stored.value)
    ensures stored.None? ==> r == Raised
    ensures stored.Some? ==> r == Ok(Search(stored.value, field, item))
  {
    if stored.None? {
      // open(".cached_results") raises, and nothing catches it
      return Raised;
    }
    var idx := stored.value;
    OrderInActors(idx);
    var found: seq<Found> := [];
    for i := 0 to |idx.order|
      invariant found == MatchesIn(idx, idx.order[..i], field, item)
    {
      assert idx.order[..i + 1][..i] == idx.order[..i];
      var actor := idx.order[i];
      if FieldText(actor, field) == item {
        var refs := if Id(actor.hash) in idx.references then idx.references[Id(actor.hash)] else {};
        var files := if refs != {} then Some(refs) else None;
        found := found + [Found(actor.hash, actor.gyaml, idx.actors[actor], files)];
      }
    }
    assert idx.order[..|idx.order|] == idx.order;
    return Ok(found);
  }

  // ---------------------------------------------------------------------------
  // Properties of the query

  lemma {:induction false} MatchesInExactly(idx: Index, keys: seq<ActorKey>, field: Field, item: string, x: Found)
    requires forall k | k in keys :: k in idx.actors
    ensures x in MatchesIn(idx, keys, field, item)
        <==> exists k :: k in keys && FieldText(k, field) == item && x == Describe(idx, k)
    decreases |keys|
  {
    if keys != [] {
      var init := keys[..|keys| - 1];
      var last := keys[|keys| - 1];
      MatchesInExactly(idx, init, field, item, x);
      assert keys == init + [last];
      if exists k :: k in keys && FieldText(k, field) == item && x == Describe(idx, k) {
        var k :| k in keys && FieldText(k, field) == item && x == Describe(idx, k);
        if k != last {
          assert k in init;
        }
      }
    }
  }

  /**
   * The query returns exactly the entries of the actors whose field equals the
   * item: each with its own hash, Gyaml and defining path, and `files` present
   * exactly when that hash's reference set is non-empty, in which case it is that set.
   */
  lemma SearchFindsExactly(idx: Index, field: Field, item: string, x: Found)
    requires WellFormed(idx)
    ensures x in Search(idx, field, item)
        <==> exists k :: k in idx.actors && FieldText(k, field) == item && x == Describe(idx, k)
    ensures x in Search(idx, field, item) ==>
      && FieldText(ActorKey(x.hash, x.gyaml), field) == item
      && ActorKey(x.hash, x.gyaml) in idx.actors
      && x.source == idx.actors[ActorKey(x.hash, x.gyaml)]
      && (x.files.Some? <==> Id(x.hash) in idx.references && idx.references[Id(x.hash)] != {})
      && (x.files.Some? ==> x.files.value == idx.references[Id(x.hash)])
  {
    OrderInActors(idx);
    MatchesInExactly(idx, idx.order, field, item, x);
    forall k | k in idx.actors ensures k in idx.order {
      assert k in (set y | y in idx.order);
    }
  }

  /**
   * On an index whose reference sets are never empty, as every run leaves it,
   * `files` is present exactly when the hash has an entry in the references table.
   */
  lemma FilesPresentIffReferenced(idx: Index, field: Field, item: string, x: Found)
    requires WellFormed(idx) && Consistent(idx)
    requires x in Search(idx, field, item)
    ensures x.files.Some? <==> Id(x.hash) in idx.references
    ensures x.files.Some? ==> x.files.value == idx.references[Id(x.hash)]
  {
    SearchFindsExactly(idx, field, item, x);
  }

  /** Scanning keys one after the other gives the matches of the first followed by those of the second. */
  lemma {:induction false} MatchesInConcat(idx: Index, a: seq<ActorKey>, b: seq<ActorKey>, field: Field, item: string)
    requires forall k | k in a + b :: k in idx.actors
    ensures MatchesIn(idx, a + b, field, item) == MatchesIn(idx, a, field, item) + MatchesIn(idx, b, field, item)
    decreases |b|
  {
    if b == [] {
      assert a + b == a;
    } else {
      var init := b[..|b| - 1];
      assert (a + b)[..|a + b| - 1] == a + init;
      MatchesInConcat(idx, a, init, field, item);
    }
  }

  /**
   * Declarations 7 and 9 of type "Door": a query by type name returns both, in
   * scan order, each with its own (here absent) references.
   */
  lemma QueryByTypeNameExample()
    ensures var idx := Index([ActorKey(7, "Door"), ActorKey(9, "Door")],
                             map[ActorKey(7, "Door") := "a.byml", ActorKey(9, "Door") := "b.byml"],
                             map[], {"a.byml", "b.byml"});
      WellFormed(idx)
      && Search(idx, GyamlField, "Door")
         == [Found(7, "Door", "a.byml", None), Found(9, "Door", "b.byml", None)]
  {
    var idx := Index([ActorKey(7, "Door"), ActorKey(9, "Door")],
                     map[ActorKey(7, "Door") := "a.byml", ActorKey(9, "Door") := "b.byml"],
                     map[], {"a.byml", "b.byml"});
    assert (set k | k in idx.order) == idx.actors.Keys;
    var order := idx.order;
    assert order[..1][..0] == [] && order[..|order| - 1] == order[..1];
    assert MatchesIn(idx, order[..1], GyamlField, "Door") == [Found(7, "Door", "a.byml", None)];
  }

  /**
   * Declaration 42 ("Switch", in f1), referenced from f2 and f3: a query by
   * identity "42" returns one entry whose files are exactly f2 and f3.
   */
  lemma QueryByIdentityExample()
    ensures var idx := Index([ActorKey(42, "Switch")], map[ActorKey(42, "Switch") := "f1"],
                             map[Id(42) := {"f2", "f3"}], {"f1", "f2", "f3"});
      WellFormed(idx)
      && Search(idx, HashField, "42") == [Found(42, "Switch", "f1", Some({"f2", "f3"}))]
  {
    var idx := Index([ActorKey(42, "Switch")], map[ActorKey(42, "Switch") := "f1"],
                     map[Id(42) := {"f2", "f3"}], {"f1", "f2", "f3"});
    assert (set k | k in idx.order) == idx.actors.Keys;
    assert Decimal(42) == Decimal(4) + [DigitChar(2)];
    assert idx.order[..0] == [];
  }
}
