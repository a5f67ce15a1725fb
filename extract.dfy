/**
 * Record extraction: the three `find_*` extractors and `process_match`, which
 * combines them for one file. Each extractor is specified by a function over the
 * decoded document (`ActorsOf`, `AiGroupRefsOf`, `IdListRefsOf`) and implemented
 * by a method that builds its set with loops, as the source does.
 */
module Extract {
  import opened Wrappers
  import opened Byml

  /** An actor declaration: the (Hash, Gyaml) pair that the source encodes as canonical JSON text. */
  datatype ActorKey = ActorKey(hash: uint64, gyaml: string)

  /** What a reference points at: a `Reference` or bare id (a u64), or an `InstanceName`. */
  datatype Target = Id(id: uint64) | Name(name: string)

  /** What one file contributes: its actor records and its reference targets. */
  datatype FileRecords = FileRecords(actors: set<ActorKey>, refs: set<Target>)

  const FarDeleteGroups := "FarDeleteGroups"
  const SimultaneousGroups := "SimultaneousGroups"

  // ---------------------------------------------------------------------------
  // Specification functions

  /**
   * One element of `Actors`: `actor["Hash"].v` paired with `actor["Gyaml"]`.
   * None when evaluating either raises, or when the JSON encoder rejects the
   * Gyaml value (only a string encodes).
   */
  function ActorRecord(actor: Value): Option<ActorKey>
  {
    match Get(actor, "Hash")
    case Found(U64(h)) =>
      (match Get(actor, "Gyaml")
       case Found(Str(g)) => Some(ActorKey(h, g))
       case _ => None)
    case _ => None
  }

  /**
   * `find_actors`: a root that is not a Hash (TypeError) or has no `Actors`
   * key (KeyError) gives no records; otherwise every element visited by the loop
   * gives its record, and any element whose record raises makes the whole call raise.
   */
  function ActorsOf(doc: Value): Outcome<set<ActorKey>>
  {
    match Get(doc, "Actors")
    case Found(section) =>
      (match Members(section)
       case None => Raised
       case Some(es) =>
         if forall e | e in es :: ActorRecord(e).Some?
         then Ok(set e | e in es && ActorRecord(e).Some? :: ActorRecord(e).value)
         else Raised)
    case _ => Ok({})
  }

  /**
   * One element of a group's `References`: its `Reference` id when that key is
   * present, else its `InstanceName`; Ok(None) when it has neither (a warning,
   * and the element is skipped). A `Reference` that is not a u64 has no `.v`,
   * and an `InstanceName` that is not a string is not taken as a set member:
   * both raise, as does an element that is not a Hash.
   */
  function EntryTarget(entry: Value): Outcome<Option<Target>>
  {
    match Get(entry, "Reference")
    case Found(U64(id)) => Ok(Some(Id(id)))
    case Found(_) => Raised
    case TypeError => Raised
    case KeyError =>
      (match Get(entry, "InstanceName")
       case Found(Str(name)) => Ok(Some(Name(name)))
       case Found(_) => Raised
       case KeyError => Ok(None)
       case TypeError => Raised)
  }

  /**
   * One element of `AiGroups`: a group with no `References` key contributes
   * nothing; otherwise the targets of its entries, unless one of them raises.
   */
  function GroupTargets(group: Value): Outcome<set<Target>>
  {
    match Get(group, "References")
    case TypeError => Raised
    case KeyError => Ok({})
    case Found(list) =>
      (match Members(list)
       case None => Raised
       case Some(es) =>
         if forall e | e in es :: EntryTarget(e).Ok?
         then Ok(set e | e in es && EntryTarget(e).Ok? && EntryTarget(e).value.Some? :: EntryTarget(e).value.value)
         else Raised)
  }

  /** `find_ai_group_references`: the union of the targets of every group under `AiGroups`. */
  function AiGroupRefsOf(doc: Value): Outcome<set<Target>>
  {
    match Get(doc, "AiGroups")
    case Found(section) =>
      (match Members(section)
       case None => Raised
       case Some(gs) =>
         if forall g | g in gs :: GroupTargets(g).Ok?
         then Ok(set g, t | g in gs && GroupTargets(g).Ok? && t in GroupTargets(g).value :: t)
         else Raised)
    case _ => Ok({})
  }

  /** One inner list of a generic id-list section: `id_.v` of every element, which must be a u64. */
  function IdListTargets(group: Value): Outcome<set<Target>>
  {
    match Members(group)
    case None => Raised
    case Some(es) =>
      if forall e | e in es :: e.U64?
      then Ok(set e | e in es && e.U64? :: Id(e.v))
      else Raised
  }

  /** `find_generic_array_references(key)`: the union of the ids of every inner list under `key`. */
  function IdListRefsOf(doc: Value, key: string): Outcome<set<Target>>
  {
    match Get(doc, key)
    case Found(section) =>
      (match Members(section)
       case None => Raised
       case Some(gs) =>
         if forall g | g in gs :: IdListTargets(g).Ok?
         then Ok(set g, t | g in gs && IdListTargets(g).Ok? && t in IdListTargets(g).value :: t)
         else Raised)
    case _ => Ok({})
  }

  /**
   * `process_match` on a file whose bytes decode to `content` (None: the decoder
   * raised InvalidDataError, which gives the empty pair). Otherwise the actors of
   * the document and the union of its three kinds of reference; an exception
   * escaping any extractor escapes the call.
   */
  function RecordsOf(content: Option<Value>): Outcome<FileRecords>
  {
    match content
    case None => Ok(FileRecords({}, {}))
    case Some(doc) =>
      match (ActorsOf(doc), AiGroupRefsOf(doc), IdListRefsOf(doc, FarDeleteGroups), IdListRefsOf(doc, SimultaneousGroups))
      case (Ok(actors), Ok(ai), Ok(far), Ok(simultaneous)) => Ok(FileRecords(actors, ai + far + simultaneous))
      case _ => Raised
  }

  // ---------------------------------------------------------------------------
  // The extractors as the source runs them

  method FindActors(doc: Value) returns (r: Outcome<set<ActorKey>>)
    ensures r == ActorsOf(doc)
  {
    var lookup := Get(doc, "Actors");
    if !lookup.Found? {
      return Ok({});
    }
    var elements := Elements(lookup.value);
    if elements.None? {
      return Raised;
    }
    var es := elements.value;
    var actors: set<ActorKey> := {};
    for i := 0 to |es|
      invariant forall j | 0 <= j < i :: ActorRecord(es[j]).Some?
      invariant actors == set e | e in es[..i] && ActorRecord(e).Some? :: ActorRecord(e).value
    {
      var record := ActorRecord(es[i]);
      if record.None? {
        assert es[i] in Members(lookup.value).value;
        return Raised;
      }
      assert es[..i + 1] == es[..i] + [es[i]];
      actors := actors + {record.value};
    }
    assert es[..|es|] == es;
    ghost var visited := Members(lookup.value).value;
    assert forall e :: e in visited <==> e in es;
    assert actors == set e | e in visited && ActorRecord(e).Some? :: ActorRecord(e).value;
    return Ok(actors);
  }

  /** The body of the outer loop of `find_ai_group_references`, for one group. */
  method FindGroupReferences(group: Value) returns (r: Outcome<set<Target>>)
    ensures r == GroupTargets(group)
  {
    var lookup := Get(group, "References");
    if lookup.TypeError? {
      return Raised;
    }
    if lookup.KeyError? {
      return Ok({});
    }
    var elements := Elements(lookup.value);
    if elements.None? {
      return Raised;
    }
    var es := elements.value;
    var references: set<Target> := {};
    for i := 0 to |es|
      invariant forall j | 0 <= j < i :: EntryTarget(es[j]).Ok?
      invariant references
             == set e | e in es[..i] && EntryTarget(e).Ok? && EntryTarget(e).value.Some? :: EntryTarget(e).value.value
    {
      var target := EntryTarget(es[i]);
      if target.Raised? {
        assert es[i] in Members(lookup.value).value;
        return Raised;
      }
      assert es[..i + 1] == es[..i] + [es[i]];
      if target.value.Some? {
        references := references + {target.value.value};
      }
    }
    assert es[..|es|] == es;
    ghost var visited := Members(lookup.value).value;
    assert forall e :: e in visited <==> e in es;
    assert references
        == set e | e in visited && EntryTarget(e).Ok? && EntryTarget(e).value.Some? :: EntryTarget(e).value.value;
    return Ok(references);
  }

  method FindAiGroupReferences(doc: Value) returns (r: Outcome<set<Target>>)
    ensures r == AiGroupRefsOf(doc)
  {
    var lookup := Get(doc, "AiGroups");
    if !lookup.Found? {
      return Ok({});
    }
    var elements := Elements(lookup.value);
    if elements.None? {
      return Raised;
    }
    var gs := elements.value;
    var references: set<Target> := {};
    for i := 0 to |gs|
      invariant forall j | 0 <= j < i :: GroupTargets(gs[j]).Ok?
      invariant references == set g, t | g in gs[..i] && GroupTargets(g).Ok? && t in GroupTargets(g).value :: t
    {
      var found := FindGroupReferences(gs[i]);
      if found.Raised? {
        assert gs[i] in Members(lookup.value).value;
        return Raised;
      }
      assert gs[..i + 1] == gs[..i] + [gs[i]];
      references := references + found.value;
    }
    assert gs[..|gs|] == gs;
    ghost var visited := Members(lookup.value).value;
    assert forall g :: g in visited <==> g in gs;
    assert references == set g, t | g in visited && GroupTargets(g).Ok? && t in GroupTargets(g).value :: t;
    return Ok(references);
  }

  /** The body of the outer loop of `find_generic_array_references`, for one inner list. */
  method FindIdListReferences(group: Value) returns (r: Outcome<set<Target>>)
    ensures r == IdListTargets(group)
  {
    var elements := Elements(group);
    if elements.None? {
      return Raised;
    }
    var es := elements.value;
    var references: set<Target> := {};
    for i := 0 to |es|
      invariant forall j | 0 <= j < i :: es[j].U64?
      invariant references == set e | e in es[..i] && e.U64? :: Id(e.v)
    {
      if !es[i].U64? {
        assert es[i] in Members(group).value;
        return Raised;
      }
      assert es[..i + 1] == es[..i] + [es[i]];
      references := references + {Id(es[i].v)};
    }
    assert es[..|es|] == es;
    ghost var visited := Members(group).value;
    assert forall e :: e in visited <==> e in es;
    assert references == set e | e in visited && e.U64? :: Id(e.v);
    return Ok(references);
  }

  method FindGenericArrayReferences(doc: Value, key: string) returns (r: Outcome<set<Target>>)
    ensures r == IdListRefsOf(doc, key)
  {
    var lookup := Get(doc, key);
    if !lookup.Found? {
      return Ok({});
    }
    var elements := Elements(lookup.value);
    if elements.None? {
      return Raised;
    }
    var gs := elements.value;
    var references: set<Target> := {};
    for i := 0 to |gs|
      invariant forall j | 0 <= j < i :: IdListTargets(gs[j]).Ok?
      invariant references == set g, t | g in gs[..i] && IdListTargets(g).Ok? && t in IdListTargets(g).value :: t
    {
      var found := FindIdListReferences(gs[i]);
      if found.Raised? {
        assert gs[i] in Members(lookup.value).value;
        return Raised;
      }
      assert gs[..i + 1] == gs[..i] + [gs[i]];
      references := references + found.value;
    }
    assert gs[..|gs|] == gs;
    ghost var visited := Members(lookup.value).value;
    assert forall g :: g in visited <==> g in gs;
    assert references == set g, t | g in visited && IdListTargets(g).Ok? && t in IdListTargets(g).value :: t;
    return Ok(references);
  }

  method ProcessMatch(content: Option<Value>) returns (r: Outcome<FileRecords>)
    ensures r == RecordsOf(content)
  {
    if content.None? {
      return Ok(FileRecords({}, {}));
    }
    var doc := content.value;
    var actors := FindActors(doc);
    if actors.Raised? {
      return Raised;
    }
    var discovered: set<Target> := {};
    var aiGroupRefs := FindAiGroupReferences(doc);
    if aiGroupRefs.Raised? {
      return Raised;
    }
    discovered := discovered + aiGroupRefs.value;
    var farDeleteRefs := FindGenericArrayReferences(doc, FarDeleteGroups);
    if farDeleteRefs.Raised? {
      return Raised;
    }
    discovered := discovered + farDeleteRefs.value;
    var simultaneousRefs := FindGenericArrayReferences(doc, SimultaneousGroups);
    if simultaneousRefs.Raised? {
      return Raised;
    }
    discovered := discovered + simultaneousRefs.value;
    assert discovered == aiGroupRefs.value + farDeleteRefs.value + simultaneousRefs.value;
    return Ok(FileRecords(actors.value, discovered));
  }

  // ---------------------------------------------------------------------------
  // Properties of the extractors

  /**
   * A root that is not a dictionary (TypeError on every lookup) has no section:
   * every extractor gives the empty set, and so does the file.
   */
  lemma NonHashRootYieldsNothing(doc: Value)
    requires !doc.Hash?
    ensures ActorsOf(doc) == Ok({}) && AiGroupRefsOf(doc) == Ok({})
    ensures forall key :: IdListRefsOf(doc, key) == Ok({})
    ensures RecordsOf(Some(doc)) == Ok(FileRecords({}, {}))
  {
  }

  /** A dictionary root with none of the four sections (KeyError on each) contributes nothing. */
  lemma MissingSectionsYieldNothing(fields: map<string, Value>)
    requires "Actors" !in fields && "AiGroups" !in fields
    requires FarDeleteGroups !in fields && SimultaneousGroups !in fields
    ensures RecordsOf(Some(Hash(fields))) == Ok(FileRecords({}, {}))
  {
  }

  /** A document whose `Actors` section is the list `items`. */
  function ActorList(items: seq<Value>): Value
  {
    Hash(map["Actors" := Array(items)])
  }

  /**
   * Over a list of well-formed actors, `find_actors` gives exactly one record
   * per distinct (Hash, Gyaml) pair among the elements.
   */
  lemma ActorsOfList(items: seq<Value>, k: ActorKey)
    requires forall i | 0 <= i < |items| :: ActorRecord(items[i]).Some?
    ensures ActorsOf(ActorList(items)).Ok?
    ensures k in ActorsOf(ActorList(items)).value
        <==> exists i :: 0 <= i < |items| && ActorRecord(items[i]) == Some(k)
  {
    var es := Members(Array(items)).value;
    assert forall e | e in es :: ActorRecord(e).Some?;
    if exists i :: 0 <= i < |items| && ActorRecord(items[i]) == Some(k) {
      var i :| 0 <= i < |items| && ActorRecord(items[i]) == Some(k);
      assert items[i] in es;
    }
  }

  /** Listing every actor twice declares the same records as listing each once: duplicates collapse. */
  lemma DuplicateActorsCollapse(items: seq<Value>)
    ensures ActorsOf(ActorList(items + items)) == ActorsOf(ActorList(items))
  {
    assert (set x | x in items + items) == (set x | x in items);
  }

  /** One actor without a u64 `Hash` or a string `Gyaml` makes `find_actors` raise. */
  lemma MalformedActorRaises(items: seq<Value>, i: nat)
    requires i < |items| && ActorRecord(items[i]).None?
    ensures ActorsOf(ActorList(items)) == Raised
  {
    assert items[i] in Members(Array(items)).value;
  }

  /** A group whose `References` list is `entries`. */
  function Group(entries: seq<Value>): Value
  {
    Hash(map["References" := Array(entries)])
  }

  /** An entry carrying a u64 `Reference` is recorded by that id, whatever its `InstanceName`. */
  lemma ReferenceTakesPrecedence(fields: map<string, Value>, id: uint64)
    ensures EntryTarget(Hash(fields["Reference" := U64(id)])) == Ok(Some(Id(id)))
  {
  }

  /**
   * An entry with neither `Reference` nor `InstanceName` is skipped: appending
   * it to a group's list leaves the group's targets as they were.
   */
  lemma SkippedEntryKeepsOthers(entries: seq<Value>, bare: Value)
    requires EntryTarget(bare) == Ok(None)
    ensures GroupTargets(Group(entries + [bare])) == GroupTargets(Group(entries))
  {
    var before := Members(Array(entries)).value;
    var after := Members(Array(entries + [bare])).value;
    assert after == before + {bare};
    if forall e | e in before :: EntryTarget(e).Ok? {
      assert (set e | e in after && EntryTarget(e).Ok? && EntryTarget(e).value.Some? :: EntryTarget(e).value.value)
          == (set e | e in before && EntryTarget(e).Ok? && EntryTarget(e).value.Some? :: EntryTarget(e).value.value);
    } else {
      var e :| e in before && !EntryTarget(e).Ok?;
      assert e in after;
    }
  }

  /** An inner list holding the bare ids `ids`. */
  function IdArray(ids: seq<uint64>): Value
  {
    Array(seq(|ids|, j requires 0 <= j < |ids| => U64(ids[j])))
  }

  lemma IdArrayTargets(ids: seq<uint64>)
    ensures IdListTargets(IdArray(ids)) == Ok(set v | v in ids :: Id(v))
  {
    var items := IdArray(ids).items;
    var es := Members(IdArray(ids)).value;
    assert forall e | e in es :: e.U64?;
    var found := set e | e in es && e.U64? :: Id(e.v);
    var expected := set v | v in ids :: Id(v);
    forall t ensures t in found <==> t in expected {
      if t in expected {
        var v :| v in ids && t == Id(v);
        var j :| 0 <= j < |ids| && ids[j] == v;
        assert items[j] in es;
      }
    }
    assert found == expected;
  }

  /**
   * A section made of inner lists of bare ids: `find_generic_array_references`
   * gives exactly the set of all ids across all the inner lists.
   */
  lemma IdListRefsExactly(key: string, lists: seq<seq<uint64>>)
    ensures IdListRefsOf(Hash(map[key := Array(seq(|lists|, i requires 0 <= i < |lists| => IdArray(lists[i])))]), key)
         == Ok(set l, v | l in lists && v in l :: Id(v))
  {
    var groups := seq(|lists|, i requires 0 <= i < |lists| => IdArray(lists[i]));
    var gs := Members(Array(groups)).value;
    forall g | g in gs ensures IdListTargets(g).Ok? {
      var i :| 0 <= i < |lists| && groups[i] == g;
      IdArrayTargets(lists[i]);
    }
    var found := set g, t | g in gs && IdListTargets(g).Ok? && t in IdListTargets(g).value :: t;
    var expected := set l, v | l in lists && v in l :: Id(v);
    forall t ensures t in found <==> t in expected {
      if t in found {
        var g :| g in gs && IdListTargets(g).Ok? && t in IdListTargets(g).value;
        var i :| 0 <= i < |lists| && groups[i] == g;
        IdArrayTargets(lists[i]);
        var v :| v in lists[i] && t == Id(v);
        assert lists[i] in lists;
        assert t in expected;
      }
      if t in expected {
        var l, v :| l in lists && v in l && t == Id(v);
        var i :| 0 <= i < |lists| && lists[i] == l;
        IdArrayTargets(l);
        assert groups[i] in gs && IdListTargets(groups[i]).Ok?;
        assert t in IdListTargets(groups[i]).value;
        assert t in found;
      }
    }
    assert found == expected;
  }
}
