/**
 * The cross-reference index that `generate_cache` keeps and pickles: actor key
 * to defining path (`all_actors`, a dict that remembers insertion order),
 * reference target to the set of referencing paths (`all_references`), and the
 * set of visited paths (`cached_filepaths`). The merge loop updates the three in
 * place, which `Cache.MergeFile` models; `Merged` and `BatchMerged` state what a
 * merge of one file, or of a batch of files in submission order, leaves behind.
 */
module CrossIndex {
  import opened Wrappers
  import opened Extract
  import opened Scan

  /**
   * A value of the three containers. `order` lists the keys of `actors` in the
   * order the dict first received them; the query scans them in that order.
   */
  datatype Index = Index(
    order: seq<ActorKey>,
    actors: map<ActorKey, Path>,
    references: map<Target, set<Path>>,
    files: set<Path>)

  /** The containers of a first run, when no pickle exists. */
  const Empty := Index([], map[], map[], {})

  /** One file's result as the merge loop receives it from the pool, paired with its path. */
  datatype FileResult = FileResult(path: Path, records: FileRecords)

  predicate Distinct<T(==)>(s: seq<T>)
  {
    forall i, j | 0 <= i < j < |s| :: s[i] != s[j]
  }

  /** What every Python dict satisfies: each key of `actors` stands in `order` exactly once. */
  predicate WellFormed(idx: Index)
  {
    Distinct(idx.order) && (set k | k in idx.order) == idx.actors.Keys
  }

  /** Every reference set is non-empty, and every path the index mentions has been visited. */
  predicate Consistent(idx: Index)
  {
    && (forall t | t in idx.references :: idx.references[t] != {} && idx.references[t] <= idx.files)
    && (forall k | k in idx.actors :: idx.actors[k] in idx.files)
  }

  /** `for actor in actors: all_actors[actor] = path_`, as a map. */
  function PutActors(actors: map<ActorKey, Path>, keys: set<ActorKey>, path: Path): map<ActorKey, Path>
  {
    actors + map k | k in keys :: path
  }

  /** `for ref in refs: all_references[ref].add(path_)` on a defaultdict of sets, as a map. */
  function AddReferences(references: map<Target, set<Path>>, targets: set<Target>, path: Path): map<Target, set<Path>>
  {
    map t | t in references.Keys + targets ::
      (if t in references then references[t] else {}) + (if t in targets then {path} else {})
  }

  /**
   * `after` is what merging one file's records into `before` leaves: every actor
   * of the file now maps to its path, its path joins the set of each of its
   * targets, the path is visited, and new actor keys are appended to the order
   * (in the unspecified order Python iterates the file's set).
   */
  predicate Merged(before: Index, path: Path, records: FileRecords, after: Index)
  {
    && after.actors == PutActors(before.actors, records.actors, path)
    && after.references == AddReferences(before.references, records.refs, path)
    && after.files == before.files + {path}
    && before.order <= after.order
    && WellFormed(after)
  }

  /** The actors table after merging `batch` in submission order. */
  function ActorsAfter(actors: map<ActorKey, Path>, batch: seq<FileResult>): map<ActorKey, Path>
  {
    if batch == [] then actors
    else
      var last := batch[|batch| - 1];
      PutActors(ActorsAfter(actors, batch[..|batch| - 1]), last.records.actors, last.path)
  }

  /** The references table after merging `batch` in submission order. */
  function ReferencesAfter(references: map<Target, set<Path>>, batch: seq<FileResult>): map<Target, set<Path>>
  {
    if batch == [] then references
    else
      var last := batch[|batch| - 1];
      AddReferences(ReferencesAfter(references, batch[..|batch| - 1]), last.records.refs, last.path)
  }

  function VisitedBy(batch: seq<FileResult>): set<Path>
  {
    set r | r in batch :: r.path
  }

  /** The position of the first file of `batch` that declares `k`, or `|batch|` when none does. */
  function FirstDeclaring(batch: seq<FileResult>, k: ActorKey): (first: nat)
    ensures first <= |batch|
    ensures first < |batch| ==> k in batch[first].records.actors
    ensures forall i | 0 <= i < first :: k !in batch[i].records.actors
  {
    if batch == [] then 0
    else if k in batch[0].records.actors then 0
    else
      var rest := FirstDeclaring(batch[1..], k);
      assert forall i | 1 <= i <= rest :: batch[i] == batch[1..][i - 1];
      1 + rest
  }

  /**
   * The keys a batch appended to the dict's key order (from position `start` on)
   * come in blocks: a key first declared by an earlier file stands before a key
   * first declared by a later one. Only the order inside one file's set is free.
   */
  predicate AppendedInBatchOrder(start: nat, batch: seq<FileResult>, order: seq<ActorKey>)
  {
    forall i, j | start <= i < j < |order| :: FirstDeclaring(batch, order[i]) <= FirstDeclaring(batch, order[j])
  }

  /** `after` is what merging every file of `batch` into `before`, in submission order, leaves. */
  predicate BatchMerged(before: Index, batch: seq<FileResult>, after: Index)
  {
    && after.actors == ActorsAfter(before.actors, batch)
    && after.references == ReferencesAfter(before.references, batch)
    && after.files == before.files + VisitedBy(batch)
    && before.order <= after.order
    && AppendedInBatchOrder(|before.order|, batch, after.order)
    && WellFormed(before)
    && WellFormed(after)
  }

  // ---------------------------------------------------------------------------
  // One merge

  /** Last write wins: the file's actors now map to its path; every other actor is untouched. */
  lemma MergeLastWriteWins(before: Index, path: Path, records: FileRecords, after: Index)
    requires Merged(before, path, records, after)
    ensures forall k | k in records.actors :: k in after.actors && after.actors[k] == path
    ensures forall k | k !in records.actors ::
      (k in after.actors <==> k in before.actors) && (k in before.actors ==> after.actors[k] == before.actors[k])
  {
  }

  /** The path joins the set of every target of the file; the sets of other targets are untouched. */
  lemma MergeAddsReferences(before: Index, path: Path, records: FileRecords, after: Index)
    requires Merged(before, path, records, after)
    ensures after.references.Keys == before.references.Keys + records.refs
    ensures forall t | t in records.refs :: path in after.references[t]
    ensures forall t | t in before.references && t !in records.refs :: after.references[t] == before.references[t]
  {
  }

  /** A merge removes nothing: no actor key, no referencing path, no visited path, no position of the order. */
  lemma MergeRemovesNothing(before: Index, path: Path, records: FileRecords, after: Index)
    requires Merged(before, path, records, after)
    ensures before.actors.Keys <= after.actors.Keys
    ensures forall t | t in before.references :: t in after.references && before.references[t] <= after.references[t]
    ensures before.files <= after.files && path in after.files
    ensures before.order <= after.order
  {
  }

  /** A prefix of a sequence without repetitions that has all its elements is the whole sequence. */
  lemma PrefixWithAllElements<T>(a: seq<T>, b: seq<T>)
    requires a <= b && Distinct(b)
    requires forall x | x in b :: x in a
    ensures a == b
  {
    if |a| < |b| {
      NextNotInPrefix(a, b);
      assert false;
    }
  }

  lemma NextNotInPrefix<T>(a: seq<T>, b: seq<T>)
    requires a <= b && |a| < |b| && Distinct(b)
    ensures b[|a|] !in a
  {
  }

  /** Appending a key the order does not hold keeps it free of repetitions and adds just that key. */
  lemma AppendNewKey(order: seq<ActorKey>, k: ActorKey)
    requires Distinct(order) && k !in order
    ensures Distinct(order + [k])
    ensures (set x | x in order + [k]) == (set x | x in order) + {k}
  {
  }

  /** Merging the same file's records twice leaves the same index as merging them once. */
  lemma MergeIdempotent(before: Index, path: Path, records: FileRecords, once: Index, twice: Index)
    requires Merged(before, path, records, once)
    requires Merged(once, path, records, twice)
    ensures twice == once
  {
    assert twice.actors == once.actors;
    assert twice.references == once.references;
    forall x | x in twice.order ensures x in once.order {
      assert x in (set k | k in twice.order);
      assert x in once.actors;
      assert x in (set k | k in once.order);
    }
    PrefixWithAllElements(once.order, twice.order);
  }

  /** Merging keeps every reference set non-empty and every mentioned path visited. */
  lemma MergeKeepsConsistent(before: Index, path: Path, records: FileRecords, after: Index)
    requires Consistent(before)
    requires Merged(before, path, records, after)
    ensures Consistent(after)
  {
  }

  /** What `AddReferences` gives at one target. */
  lemma AddReferencesAt(references: map<Target, set<Path>>, targets: set<Target>, path: Path, t: Target)
    ensures t in AddReferences(references, targets, path) <==> t in references || t in targets
    ensures t in AddReferences(references, targets, path) ==>
      AddReferences(references, targets, path)[t]
      == (if t in references then references[t] else {}) + (if t in targets then {path} else {})
  {
  }

  /** The references table does not depend on the order in which two files are merged. */
  lemma ReferenceMergesCommute(references: map<Target, set<Path>>, p: Path, a: set<Target>, q: Path, b: set<Target>)
    ensures AddReferences(AddReferences(references, a, p), b, q)
         == AddReferences(AddReferences(references, b, q), a, p)
  {
    var pq := AddReferences(AddReferences(references, a, p), b, q);
    var qp := AddReferences(AddReferences(references, b, q), a, p);
    forall t ensures (t in pq <==> t in qp) && (t in pq ==> pq[t] == qp[t]) {
      AddReferencesAt(references, a, p, t);
      AddReferencesAt(references, b, q, t);
      AddReferencesAt(AddReferences(references, a, p), b, q, t);
      AddReferencesAt(AddReferences(references, b, q), a, p, t);
    }
    assert pq.Keys == qp.Keys;
  }

  /**
   * The actors table does not depend on the order in which two files are merged
   * exactly when the files share their path or declare no actor in common: the
   * merge is not commutative, the later file wins.
   */
  lemma ActorMergesCommuteIff(actors: map<ActorKey, Path>, p: Path, a: set<ActorKey>, q: Path, b: set<ActorKey>)
    ensures PutActors(PutActors(actors, a, p), b, q) == PutActors(PutActors(actors, b, q), a, p)
        <==> p == q || a !! b
  {
    var pq := PutActors(PutActors(actors, a, p), b, q);
    var qp := PutActors(PutActors(actors, b, q), a, p);
    if p != q && !(a !! b) {
      var k :| k in a && k in b;
      assert pq[k] == q && qp[k] == p;
    }
  }

  // ---------------------------------------------------------------------------
  // A batch of merges

  /** One more merge extends a batch merge by that file. */
  lemma MergeExtendsBatch(before: Index, batch: seq<FileResult>, middle: Index, path: Path, records: FileRecords, after: Index)
    requires BatchMerged(before, batch, middle)
    requires Merged(middle, path, records, after)
    ensures BatchMerged(before, batch + [FileResult(path, records)], after)
  {
    var last := FileResult(path, records);
    var longer := batch + [last];
    assert longer[..|longer| - 1] == batch;
    assert VisitedBy(longer) == VisitedBy(batch) + {path};
    AppendedBeforeDeclared(before, batch, middle, last, after.order);
    AppendedByLastFile(before, batch, middle, path, records, after);
  }

  /** Appending one more file leaves the first declaring file of every key declared earlier. */
  lemma FirstDeclaringAppend(batch: seq<FileResult>, last: FileResult, k: ActorKey)
    ensures FirstDeclaring(batch, k) < |batch| ==> FirstDeclaring(batch + [last], k) == FirstDeclaring(batch, k)
    ensures FirstDeclaring(batch, k) == |batch| && k in last.records.actors ==> FirstDeclaring(batch + [last], k) == |batch|
    ensures FirstDeclaring(batch, k) == |batch| && k !in last.records.actors ==> FirstDeclaring(batch + [last], k) == |batch| + 1
  {
    var longer := batch + [last];
    assert forall i | 0 <= i < |batch| :: longer[i] == batch[i];
    assert longer[|batch|] == last;
  }

  /** An actor is in the table after a batch exactly when it was before or some file of the batch declares it. */
  lemma {:induction false} PresentIffDeclared(actors: map<ActorKey, Path>, batch: seq<FileResult>, k: ActorKey)
    ensures k in ActorsAfter(actors, batch) <==> k in actors || FirstDeclaring(batch, k) < |batch|
    decreases |batch|
  {
    if batch != [] {
      var init := batch[..|batch| - 1];
      var last := batch[|batch| - 1];
      assert batch == init + [last];
      PresentIffDeclared(actors, init, k);
      FirstDeclaringAppend(init, last, k);
    }
  }

  /**
   * The keys the batch appended before the last file keep their first declaring
   * file once that file joins the batch, and each of them has one.
   */
  lemma AppendedBeforeDeclared(before: Index, batch: seq<FileResult>, middle: Index, last: FileResult, order: seq<ActorKey>)
    requires BatchMerged(before, batch, middle)
    requires middle.order <= order
    ensures forall i | |before.order| <= i < |middle.order| ::
      FirstDeclaring(batch, order[i]) < |batch| && FirstDeclaring(batch + [last], order[i]) == FirstDeclaring(batch, order[i])
  {
    forall i | |before.order| <= i < |middle.order|
      ensures FirstDeclaring(batch, order[i]) < |batch|
      ensures FirstDeclaring(batch + [last], order[i]) == FirstDeclaring(batch, order[i])
    {
      var k := middle.order[i];
      assert order[i] == k;
      assert k in (set x | x in middle.order);
      assert forall m | 0 <= m < |before.order| :: before.order[m] == middle.order[m];
      assert k !in (set x | x in before.order);
      PresentIffDeclared(before.actors, batch, k);
      FirstDeclaringAppend(batch, last, k);
    }
  }

  /** The keys the last file appends are declared by it and by no earlier file, and follow every earlier block. */
  lemma AppendedByLastFile(before: Index, batch: seq<FileResult>, middle: Index, path: Path, records: FileRecords, after: Index)
    requires BatchMerged(before, batch, middle)
    requires Merged(middle, path, records, after)
    requires forall i | |before.order| <= i < |middle.order| ::
      FirstDeclaring(batch, after.order[i]) < |batch|
      && FirstDeclaring(batch + [FileResult(path, records)], after.order[i]) == FirstDeclaring(batch, after.order[i])
    ensures forall j | |middle.order| <= j < |after.order| ::
      FirstDeclaring(batch + [FileResult(path, records)], after.order[j]) == |batch|
    ensures AppendedInBatchOrder(|before.order|, batch + [FileResult(path, records)], after.order)
  {
    var last := FileResult(path, records);
    var longer := batch + [last];
    forall j | |middle.order| <= j < |after.order|
      ensures FirstDeclaring(longer, after.order[j]) == |batch|
    {
      var k := after.order[j];
      assert k in (set x | x in after.order);
      assert forall m | 0 <= m < |middle.order| :: middle.order[m] == after.order[m];
      assert k !in (set x | x in middle.order);
      PresentIffDeclared(before.actors, batch, k);
      FirstDeclaringAppend(batch, last, k);
    }
    forall i, j | |before.order| <= i < j < |after.order|
      ensures FirstDeclaring(longer, after.order[i]) <= FirstDeclaring(longer, after.order[j])
    {
      if j < |middle.order| {
        assert after.order[i] == middle.order[i] && after.order[j] == middle.order[j];
      }
    }
  }

  /**
   * Last write wins across a batch: an actor maps to the path of the last file in
   * submission order that declares it.
   */
  lemma {:induction false} BatchLastWriteWins(actors: map<ActorKey, Path>, batch: seq<FileResult>, i: nat, k: ActorKey)
    requires i < |batch| && k in batch[i].records.actors
    requires forall j | i < j < |batch| :: k !in batch[j].records.actors
    ensures k in ActorsAfter(actors, batch) && ActorsAfter(actors, batch)[k] == batch[i].path
    decreases |batch|
  {
    if i < |batch| - 1 {
      BatchLastWriteWins(actors, batch[..|batch| - 1], i, k);
    }
  }

  /** The actors table after a batch holds every actor some file of the batch declares. */
  lemma LastDeclaration(actors: map<ActorKey, Path>, batch: seq<FileResult>, k: ActorKey, j: nat)
    requires j < |batch| && k in batch[j].records.actors
    ensures k in ActorsAfter(actors, batch)
  {
    var last := LastDeclaring(batch, k, j);
    BatchLastWriteWins(actors, batch, last, k);
  }

  /** The position of the last file of `batch` that declares `k`, given one that does. */
  function LastDeclaring(batch: seq<FileResult>, k: ActorKey, j: nat): (last: nat)
    requires j < |batch| && k in batch[j].records.actors
    ensures j <= last < |batch| && k in batch[last].records.actors
    ensures forall i | last < i < |batch| :: k !in batch[i].records.actors
    decreases |batch| - j
  {
    if exists i :: j < i < |batch| && k in batch[i].records.actors then
      var i :| j < i < |batch| && k in batch[i].records.actors;
      LastDeclaring(batch, k, i)
    else j
  }

  /** An actor that no file of the batch declares keeps the path it had, or stays absent. */
  lemma {:induction false} BatchKeepsUndeclared(actors: map<ActorKey, Path>, batch: seq<FileResult>, k: ActorKey)
    requires forall j | 0 <= j < |batch| :: k !in batch[j].records.actors
    ensures k in ActorsAfter(actors, batch) <==> k in actors
    ensures k in actors ==> ActorsAfter(actors, batch)[k] == actors[k]
    decreases |batch|
  {
    if batch != [] {
      BatchKeepsUndeclared(actors, batch[..|batch| - 1], k);
    }
  }

  /** The paths of the files of `batch` that reference `t`. */
  function ReferencingPaths(batch: seq<FileResult>, t: Target): set<Path>
  {
    set j | 0 <= j < |batch| && t in batch[j].records.refs :: batch[j].path
  }

  /**
   * Reference aggregation: after a batch, the set of a target is its earlier set
   * together with the path of every file of the batch that references it, and
   * the target is present exactly when one of the two is non-empty.
   */
  lemma {:induction false} BatchReferences(references: map<Target, set<Path>>, batch: seq<FileResult>, t: Target)
    ensures t in ReferencesAfter(references, batch) <==> t in references || ReferencingPaths(batch, t) != {}
    ensures t in ReferencesAfter(references, batch) ==>
      ReferencesAfter(references, batch)[t]
      == (if t in references then references[t] else {}) + ReferencingPaths(batch, t)
    decreases |batch|
  {
    if batch != [] {
      var init := batch[..|batch| - 1];
      var last := batch[|batch| - 1];
      BatchReferences(references, init, t);
      assert ReferencingPaths(batch, t)
          == ReferencingPaths(init, t) + (if t in last.records.refs then {last.path} else {}) by {
        forall x ensures x in ReferencingPaths(batch, t) <==>
          x in ReferencingPaths(init, t) || (t in last.records.refs && x == last.path)
        {
          if x in ReferencingPaths(batch, t) {
            var j :| 0 <= j < |batch| && t in batch[j].records.refs && batch[j].path == x;
            if j < |init| {
              assert init[j] == batch[j];
            }
          }
          if x in ReferencingPaths(init, t) {
            var j :| 0 <= j < |init| && t in init[j].records.refs && init[j].path == x;
            assert batch[j] == init[j];
          }
        }
      }
    }
  }

  /**
   * The key order does not commute even where the actors table does: merging a
   * file that adds `a` and then one that adds `b` leaves the order [a, b], and
   * the other merge order leaves [b, a].
   */
  lemma KeyOrderFollowsMerges(p: Path, q: Path, a: ActorKey, b: ActorKey, x: Index, y: Index)
    requires a != b
    requires Merged(Empty, p, FileRecords({a}, {}), x)
    requires Merged(x, q, FileRecords({b}, {}), y)
    ensures x.order == [a] && y.order == [a, b]
  {
    var xs := set k | k in x.order;
    var ys := set k | k in y.order;
    assert xs == {a};
    assert ys == {a, b};
    assert a in xs;
    assert x.order[0] in xs;
    assert x.order[..1] == [a];
    forall k | k in x.order ensures k in [a] {
      assert k in xs;
    }
    PrefixWithAllElements([a], x.order);
    assert b in ys;
    assert y.order[0] == a;
    assert y.order[1] in ys;
    assert y.order[..2] == [a, b];
    forall k | k in y.order ensures k in [a, b] {
      assert k in ys;
    }
    PrefixWithAllElements([a, b], y.order);
  }


  /**
   * Two new actors from two files: the one declared by the earlier file comes
   * first in the key order, so the reverse order is not what the batch leaves.
   */
  lemma NewActorsFollowFileOrder(p: Path, q: Path, a: ActorKey, b: ActorKey)
    requires a != b
    ensures var batch := [FileResult(p, FileRecords({a}, {})), FileResult(q, FileRecords({b}, {}))];
      !BatchMerged(Empty, batch, Index([b, a], map[a := p, b := q], map[], {p, q}))
  {
    var batch := [FileResult(p, FileRecords({a}, {})), FileResult(q, FileRecords({b}, {}))];
    assert FirstDeclaring(batch, a) == 0;
    assert batch[1..] == [FileResult(q, FileRecords({b}, {}))];
    assert FirstDeclaring(batch, b) == 1;
    var order := [b, a];
    assert FirstDeclaring(batch, order[0]) > FirstDeclaring(batch, order[1]);
    assert !AppendedInBatchOrder(|Empty.order|, batch, order);
  }

  /** Two files referencing one target, which had no set before, leave a set of exactly their two paths. */
  lemma TwoFilesReferencingOneTarget(references: map<Target, set<Path>>, t: Target, p: Path, a: FileRecords, q: Path, b: FileRecords)
    requires t !in references && t in a.refs && t in b.refs
    ensures var after := ReferencesAfter(references, [FileResult(p, a), FileResult(q, b)]);
      t in after && after[t] == {p, q}
  {
    var batch := [FileResult(p, a), FileResult(q, b)];
    BatchReferences(references, batch, t);
    assert ReferencingPaths(batch, t) == {p, q} by {
      assert batch[0].path == p && batch[1].path == q;
      forall x | x in ReferencingPaths(batch, t) ensures x in {p, q} {
      }
    }
  }

  /** Every path a batch leaves in the actors table is an earlier one or the path of a file of the batch. */
  lemma {:induction false} BatchActorPaths(actors: map<ActorKey, Path>, batch: seq<FileResult>)
    ensures forall k | k in ActorsAfter(actors, batch) :: ActorsAfter(actors, batch)[k] in actors.Values + VisitedBy(batch)
    decreases |batch|
  {
    if batch != [] {
      var init := batch[..|batch| - 1];
      BatchActorPaths(actors, init);
      assert VisitedBy(init) <= VisitedBy(batch);
    }
  }

  /** A batch merge keeps every reference set non-empty and every mentioned path visited. */
  lemma BatchKeepsConsistent(before: Index, batch: seq<FileResult>, after: Index)
    requires Consistent(before)
    requires BatchMerged(before, batch, after)
    ensures Consistent(after)
  {
    BatchActorPaths(before.actors, batch);
    forall t | t in after.references
      ensures after.references[t] != {} && after.references[t] <= after.files
    {
      BatchReferences(before.references, batch, t);
      forall x | x in ReferencingPaths(batch, t) ensures x in VisitedBy(batch) {
        var j :| 0 <= j < |batch| && t in batch[j].records.refs && batch[j].path == x;
        assert batch[j] in batch;
      }
    }
  }

  /** One pass of the actor loop: writing one more key extends `PutActors` by that key. */
  lemma PutActorsStep(actors: map<ActorKey, Path>, done: set<ActorKey>, k: ActorKey, path: Path)
    ensures PutActors(actors, done, path)[k := path] == PutActors(actors, done + {k}, path)
  {
  }

  /** Adding the path under no target leaves the references table as it was. */
  lemma AddNoReferences(references: map<Target, set<Path>>, path: Path)
    ensures AddReferences(references, {}, path) == references
  {
    forall t ensures (t in AddReferences(references, {}, path) <==> t in references)
                  && (t in references ==> AddReferences(references, {}, path)[t] == references[t]) {
      AddReferencesAt(references, {}, path, t);
    }
  }

  /** One pass of the reference loop: adding the path under one more target extends `AddReferences` by it. */
  lemma AddReferencesStep(references: map<Target, set<Path>>, done: set<Target>, t: Target, path: Path)
    ensures var r := AddReferences(references, done, path);
      r[t := (if t in r then r[t] else {}) + {path}] == AddReferences(references, done + {t}, path)
  {
    var r := AddReferences(references, done, path);
    var lhs := r[t := (if t in r then r[t] else {}) + {path}];
    var rhs := AddReferences(references, done + {t}, path);
    forall u ensures (u in lhs <==> u in rhs) && (u in lhs ==> lhs[u] == rhs[u]) {
      AddReferencesAt(references, done, path, u);
      AddReferencesAt(references, done + {t}, path, u);
    }
    assert lhs.Keys == rhs.Keys;
  }

  // ---------------------------------------------------------------------------
  // The containers as `generate_cache` updates them

  class Cache {
    var order: seq<ActorKey>
    var actors: map<ActorKey, Path>
    var references: map<Target, set<Path>>
    var files: set<Path>

    function Snapshot(): Index
      reads this
    {
      Index(order, actors, references, files)
    }

    ghost predicate Valid()
      reads this
    {
      WellFormed(Snapshot())
    }

    /** The containers after trying to load the pickle: the stored index, or empty on a first run. */
    constructor Load(stored: Option<Index>)
      requires stored.Some? ==> WellFormed(stored.value)
      ensures Valid()
      ensures Snapshot() == if stored.Some? then stored.value else Empty
    {
      if stored.Some? {
        order := stored.value.order;
        actors := stored.value.actors;
        references := stored.value.references;
        files := stored.value.files;
      } else {
        order := [];
        actors := map[];
        references := map[];
        files := {};
      }
    }

    /** One pass of the merge loop: fold one file's records into the containers. */
    method MergeFile(path: Path, records: FileRecords)
      requires Valid()
      modifies this
      ensures Merged(old(Snapshot()), path, records, Snapshot())
    {
      PutDeclarations(path, records.actors);
      AddReferencesFrom(path, records.refs);
      files := files + {path};
    }

    /** `all_actors[actor] = path` for each declared actor: new keys are appended to the order. */
    method PutDeclarations(path: Path, declared: set<ActorKey>)
      requires Valid()
      modifies this
      ensures Valid() && old(order) <= order
      ensures actors == PutActors(old(actors), declared, path)
      ensures references == old(references) && files == old(files)
    {
      var keys, table := order, actors;
      var pending := declared;
      while pending != {}
        invariant pending <= declared
        invariant table == PutActors(actors, declared - pending, path)
        invariant order <= keys && Distinct(keys) && (set x | x in keys) == table.Keys
        invariant unchanged(this)
        decreases pending
      {
        var actor :| actor in pending;
        if actor !in table {
          assert actor !in (set x | x in keys);
          AppendNewKey(keys, actor);
          keys := keys + [actor];
        }
        PutActorsStep(actors, declared - pending, actor, path);
        assert declared - (pending - {actor}) == (declared - pending) + {actor};
        table := table[actor := path];
        pending := pending - {actor};
      }
      assert declared - pending == declared;
      order, actors := keys, table;
    }

    /** `all_references[ref].add(path)` for each referenced target. */
    method AddReferencesFrom(path: Path, targets: set<Target>)
      modifies this
      ensures references == AddReferences(old(references), targets, path)
      ensures order == old(order) && actors == old(actors) && files == old(files)
    {
      var sets := references;
      var pending := targets;
      AddNoReferences(sets, path);
      while pending != {}
        invariant pending <= targets
        invariant sets == AddReferences(references, targets - pending, path)
        invariant unchanged(this)
        decreases pending
      {
        var target :| target in pending;
        AddReferencesStep(references, targets - pending, target, path);
        assert targets - (pending - {target}) == (targets - pending) + {target};
        sets := sets[target := (if target in sets then sets[target] else {}) + {path}];
        pending := pending - {target};
      }
      assert targets - pending == targets;
      references := sets;
    }
  }
}
