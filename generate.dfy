/**
 * `generate_cache`: load the stored index (or start empty), scan for the delta,
 * run `process_match` over the delta in submission order, merge each file's
 * result into the containers, and write the whole index back. The process pool
 * is modelled as a sequential map over the delta, which gives the same results
 * in the same order as `zip(matched_filepaths, p.map(...))`.
 */
module Generate {
  import opened Wrappers
  import opened Extract
  import opened Scan
  import opened CrossIndex

  /**
   * How a run ends. `NothingNew`: the delta was empty and the function returned
   * before writing. `Crashed`: an exception escaped `process_match` for some
   * file; it surfaces in the merge loop and leaves the function before the
   * write. `Written(index)`: the index that replaces the stored one.
   */
  datatype RunResult = NothingNew | Crashed | Written(index: Index)

  /** The containers a run starts from: the stored index, or empty on a first run. */
  function Loaded(stored: Option<Index>): Index
  {
    if stored.Some? then stored.value else Empty
  }

  /** The stored index after a run: rewritten in full, or left as it was. */
  function Persisted(stored: Option<Index>, result: RunResult): Option<Index>
  {
    if result.Written? then Some(result.index) else stored
  }

  /** Whether `process_match` lets no exception escape for any file of `delta`. */
  predicate AllExtract(delta: seq<WalkedFile>)
  {
    forall i | 0 <= i < |delta| :: RecordsOf(delta[i].content).Ok?
  }

  /** The pairs the merge loop receives: each file's path with its records, in submission order. */
  function Results(delta: seq<WalkedFile>): seq<FileResult>
    requires AllExtract(delta)
  {
    seq(|delta|, i requires 0 <= i < |delta| => FileResult(delta[i].path, RecordsOf(delta[i].content).value))
  }

  /** `p.map(process_match, matched_filepaths)`: one outcome per file, in submission order. */
  method MapProcessMatch(files: seq<WalkedFile>) returns (outcomes: seq<Outcome<FileRecords>>)
    ensures |outcomes| == |files|
    ensures forall j | 0 <= j < |files| :: outcomes[j] == RecordsOf(files[j].content)
  {
    outcomes := [];
    for i := 0 to |files|
      invariant |outcomes| == i
      invariant forall j | 0 <= j < i :: outcomes[j] == RecordsOf(files[j].content)
    {
      var outcome := ProcessMatch(files[i].content);
      outcomes := outcomes + [outcome];
    }
  }

  /**
   * The merge loop: fold each file's outcome into the cache in submission order.
   * The first outcome that raised ends the loop (and the run).
   */
  method MergeOutcomes(cache: Cache, delta: seq<WalkedFile>, outcomes: seq<Outcome<FileRecords>>) returns (crashed: bool)
    requires cache.Valid()
    requires |outcomes| == |delta|
    requires forall j | 0 <= j < |delta| :: outcomes[j] == RecordsOf(delta[j].content)
    modifies cache
    ensures crashed <==> !AllExtract(delta)
    ensures !crashed ==> BatchMerged(old(cache.Snapshot()), Results(delta), cache.Snapshot())
  {
    ghost var before := cache.Snapshot();
    ghost var merged: seq<FileResult> := [];
    assert BatchMerged(before, merged, before) by {
      assert VisitedBy([]) == {};
    }
    for i := 0 to |delta|
      invariant cache.Valid()
      invariant forall j | 0 <= j < i :: outcomes[j].Ok?
      invariant |merged| == i
      invariant forall j | 0 <= j < i :: merged[j] == FileResult(delta[j].path, outcomes[j].value)
      invariant BatchMerged(before, merged, cache.Snapshot())
    {
      if outcomes[i].Raised? {
        return true;
      }
      ghost var middle := cache.Snapshot();
      cache.MergeFile(delta[i].path, outcomes[i].value);
      MergeExtendsBatch(before, merged, middle, delta[i].path, outcomes[i].value, cache.Snapshot());
      merged := merged + [FileResult(delta[i].path, outcomes[i].value)];
    }
    assert merged == Results(delta);
    return false;
  }

  method GenerateCache(stored: Option<Index>, walked: seq<WalkedFile>) returns (result: RunResult)
    requires stored.Some? ==> WellFormed(stored.value)
    ensures var delta := Delta(walked, Loaded(stored).files);
      && (result.NothingNew? <==> delta == [])
      && (result.Crashed? <==> delta != [] && !AllExtract(delta))
      && (result.Written? ==> AllExtract(delta) && BatchMerged(Loaded(stored), Results(delta), result.index))
  {
    var cache := new Cache.Load(stored);
    var matched := FindNewFiles(walked, cache.files);
    if |matched| == 0 {
      return NothingNew;
    }

    var outcomes := MapProcessMatch(matched);
    var crashed := MergeOutcomes(cache, matched, outcomes);
    if crashed {
      return Crashed;
    }
    return Written(cache.Snapshot());
  }

  // ---------------------------------------------------------------------------
  // Properties of a run

  lemma VisitedByResults(delta: seq<WalkedFile>)
    requires AllExtract(delta)
    ensures VisitedBy(Results(delta)) == PathsOf(delta)
  {
    var results := Results(delta);
    forall p ensures p in VisitedBy(results) <==> p in PathsOf(delta) {
      if p in VisitedBy(results) {
        var r :| r in results && r.path == p;
        var i :| 0 <= i < |results| && results[i] == r;
        assert delta[i] in delta;
      }
      if p in PathsOf(delta) {
        var f :| f in delta && f.path == p;
        var i :| 0 <= i < |delta| && delta[i] == f;
        assert results[i] in results;
      }
    }
  }

  /**
   * After a written run, the index it stores gives the same walk an empty delta:
   * the next run over the same files finds nothing new.
   */
  lemma RerunFindsNothing(stored: Option<Index>, walked: seq<WalkedFile>, result: RunResult)
    requires result.Written?
    requires AllExtract(Delta(walked, Loaded(stored).files))
    requires BatchMerged(Loaded(stored), Results(Delta(walked, Loaded(stored).files)), result.index)
    ensures Delta(walked, Loaded(Persisted(stored, result)).files) == []
  {
    var before := Loaded(stored);
    VisitedByResults(Delta(walked, before.files));
    DeltaEmptyOnceVisited(walked, before.files, result.index.files);
  }

  /**
   * A file whose bytes fail to decode is still marked visited, and contributes
   * no actor and no reference.
   */
  lemma DecodeFailureStillVisited(before: Index, delta: seq<WalkedFile>, after: Index, i: nat)
    requires AllExtract(delta)
    requires BatchMerged(before, Results(delta), after)
    requires i < |delta| && delta[i].content.None?
    ensures delta[i].path in after.files
    ensures Results(delta)[i].records == FileRecords({}, {})
  {
    VisitedByResults(delta);
    assert delta[i] in delta;
  }

  /** A run removes nothing from the index it started from. */
  lemma {:induction false} BatchRemovesNothing(before: Index, batch: seq<FileResult>, after: Index)
    requires BatchMerged(before, batch, after)
    ensures before.actors.Keys <= after.actors.Keys
    ensures forall t | t in before.references :: t in after.references && before.references[t] <= after.references[t]
    ensures before.files <= after.files && before.order <= after.order
  {
    forall t | t in before.references
      ensures t in after.references && before.references[t] <= after.references[t]
    {
      BatchReferences(before.references, batch, t);
    }
    forall k | k in before.actors ensures k in after.actors {
      if j :| 0 <= j < |batch| && k in batch[j].records.actors {
        LastDeclaration(before.actors, batch, k, j);
      } else {
        BatchKeepsUndeclared(before.actors, batch, k);
      }
    }
  }
}
