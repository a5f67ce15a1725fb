# byml_mapper cross-reference indexer, modelled in Dafny

`byml_mapper.py` indexes a dump of BYML scene files. It finds which file declares each actor (a `(Hash, Gyaml)` pair) and which files refer to each actor, by numeric `Reference` id or by `InstanceName`. A query looks references up only by the actor's hash, so a reference stored under an `InstanceName` never appears in a query result.

A generation run (`generate_cache`) works in five steps:

1. It loads the pickled index, or starts empty.
2. It walks the dump and keeps the `*.byml` files it has not visited yet (the delta).
3. It runs `process_match` on every file of the delta.
4. It merges each file's actor records and reference targets into three containers, in submission order:
   - `all_actors`: actor key → defining path, last write wins;
   - `all_references`: target → set of referencing paths;
   - `cached_filepaths`: the visited paths.
5. It pickles the containers back in full.

A query (`search_for_refs`) scans the actors table in insertion order. It returns each actor whose type name, or whose hash as decimal text, equals the item. Each result carries the actor's defining file and, when the hash is referenced anywhere, the referencing files.

The model has one module per part of the program:

- `Byml` (byml.dfy): the decoded document. A node is a Hash, an Array, a u64 or a string. The module also models the two Python operations the extractors apply to nodes: `node[key]`, which can raise KeyError or TypeError, and `for x in node`, which yields a dictionary's keys or a string's characters and raises TypeError on a number.
- `Extract` (extract.dfy): the three `find_*` extractors and `process_match`. Each is a method with the source's loops, proved equal to a specification function over the document (`ActorsOf`, `AiGroupRefsOf`, `IdListRefsOf`, `RecordsOf`). An exception that escapes is the `Raised` outcome.
- `Scan` (scan.dfy): the delta filter over the walked files.
- `CrossIndex` (cross_index.dfy): the three containers, as a `Cache` class whose merge methods update its fields in place. `Merged` and `BatchMerged` state what merging one file, or a batch in submission order, leaves behind.
- `Generate` (generate.dfy): a whole generation run.
- `Query` (query.dfy): the query over a loaded index, including Python's `str` on a hash.

Two behaviours of the code differ from what a reader of the tool might expect, and the model follows the code:

- **Merge order.** One might expect merging files to commute. In the code, actors are last-write-wins. `CrossIndex.ActorMergesCommuteIff` shows that, as a key → path map (Python's dict `==` ignores order), two files' merges commute exactly when the files share their path or declare no common actor. The key order does not commute. Whenever both files add keys the table lacks, the key order, and so the order of query results and of the pickled dict, follows the merge order (`CrossIndex.KeyOrderFollowsMerges`). The references table does commute (`CrossIndex.ReferenceMergesCommute`).
- **Crashing files.** One might expect a crash in one file not to stop the others. In the code, an exception escaping `process_match` in a worker is re-raised while the merge loop iterates `p.map`'s results. It leaves `generate_cache` before the pickle is written, so the stored index is left as it was (`Generate.Persisted`). The model reports this as `Crashed` (`Generate.GenerateCache`).

## Model

| member | source | states |
|---|---|---|
| Byml.Elements | byml_mapper.py:44-51 | The values a `for` loop visits: an array's items in order, a string's characters in order, a dictionary's keys as strings, each exactly once, in some order. A number is not iterable. |
| Byml.KeyElements | byml_mapper.py:44-51 | A dictionary node's keys as strings, each exactly once: the list has as many entries as the dictionary has keys. |
| Extract.FindActors | byml_mapper.py:33-53 | Equals `ActorsOf`. No `Actors` key, or a root that is not a dictionary, gives the empty set. Otherwise the result is the set of `(Hash, Gyaml)` records of the elements, or raises when an element has no u64 `Hash` or no string `Gyaml`. |
| Extract.FindGroupReferences | byml_mapper.py:69-83 | One AI group, equal to `GroupTargets`. A group without `References` contributes nothing. Each entry gives its `Reference` id, else its `InstanceName`. An entry with neither is skipped. |
| Extract.FindAiGroupReferences | byml_mapper.py:56-85 | Equals `AiGroupRefsOf`: empty for a missing `AiGroups` key or a non-dictionary root, else the union of every group's targets. |
| Extract.FindIdListReferences | byml_mapper.py:101-102 | One inner list, equal to `IdListTargets`: the ids of its bare u64 elements. It raises on any other element. |
| Extract.FindGenericArrayReferences | byml_mapper.py:88-104 | Equals `IdListRefsOf`: empty for a missing key or a non-dictionary root, else the union of the ids of every inner list. |
| Extract.ProcessMatch | byml_mapper.py:107-139 | Equals `RecordsOf`. A decode failure gives the empty pair. Otherwise: the file's actors, and the union of the AiGroups, FarDeleteGroups and SimultaneousGroups references. Any extractor's exception escapes. |
| Extract.NonHashRootYieldsNothing | byml_mapper.py:117-130 | A root that is not a dictionary: every extractor gives the empty set, and so does the file. |
| Extract.MissingSectionsYieldNothing | byml_mapper.py:117-130 | A dictionary root with none of the four sections contributes no actor and no reference. |
| Extract.ActorsOfList | byml_mapper.py:44-51 | Over well-formed actors, the records are exactly one per distinct `(Hash, Gyaml)` pair among the elements, in both directions. |
| Extract.DuplicateActorsCollapse | byml_mapper.py:45-50 | Listing every actor twice yields the same records as listing each once. |
| Extract.MalformedActorRaises | byml_mapper.py:47 | One actor without a u64 `Hash` or a string `Gyaml` makes `find_actors` raise. |
| Extract.ReferenceTakesPrecedence | byml_mapper.py:75-79 | An entry with a u64 `Reference` is recorded by that id, whatever its `InstanceName` holds. |
| Extract.SkippedEntryKeepsOthers | byml_mapper.py:74-83 | Appending an entry with neither key to a group leaves the group's targets (or its raising) unchanged. |
| Extract.IdListRefsExactly | byml_mapper.py:100-102 | A section of inner lists of bare ids gives exactly the set of all ids across all the lists. |
| Scan.FindNewFiles | byml_mapper.py:161-170 | Equals `Delta`, the walk-order filter of the walked files. |
| Scan.DeltaMembership | byml_mapper.py:167-170 | A walked file is in the delta iff its name ends in `.byml` and its path is not cached. |
| Scan.DeltaOfConcat | byml_mapper.py:163-170 | The delta of one walk followed by another is the first delta followed by the second: walk order is kept. |
| Scan.DeltaEmptyOnceVisited | byml_mapper.py:169 | Once the delta's paths are cached, the same walk has an empty delta. |
| Scan.DeltaOfAddedFile | byml_mapper.py:163-170 | With every other walked file indexed, a walk that finds one new matching file C, at any position, has the delta [C]. |
| CrossIndex.Cache.Load | byml_mapper.py:143-156 | The containers start as the stored index, or empty when none exists. |
| CrossIndex.Cache.MergeFile | byml_mapper.py:189-194 | After one pass of the merge loop, the containers satisfy `Merged` for that file's path and records, and the dict's key order is kept. |
| CrossIndex.Cache.PutDeclarations | byml_mapper.py:189-190 | Every declared actor now maps to the path. New keys are appended to the order. References and visited paths are untouched. |
| CrossIndex.Cache.AddReferencesFrom | byml_mapper.py:191-192 | The path joins the set of every target, creating missing sets. Everything else is untouched. |
| CrossIndex.MergeLastWriteWins | byml_mapper.py:189-190 | After a merge, the file's actors map to its path. Every other actor keeps its entry, or stays absent. |
| CrossIndex.MergeAddsReferences | byml_mapper.py:191-192 | The path is in the set of each of the file's targets. The sets of other targets are unchanged. |
| CrossIndex.MergeRemovesNothing | byml_mapper.py:189-194 | A merge removes no actor key, no referencing path, no visited path and no position of the key order. |
| CrossIndex.MergeIdempotent | byml_mapper.py:189-194 | Merging the same file's records twice gives the same index as merging them once. |
| CrossIndex.MergeKeepsConsistent | byml_mapper.py:189-194 | Reference sets stay non-empty, and every path the index mentions stays visited. |
| CrossIndex.ReferenceMergesCommute | byml_mapper.py:191-192 | The references table does not depend on the order in which two files are merged. |
| CrossIndex.ActorMergesCommuteIff | byml_mapper.py:189-190 | As key → path maps (dict `==` ignores order), two files' merges into the actors table commute iff the files share a path or declare no common actor. The key order, and so the order of query results, follows the merge order whenever both files add new keys (see `CrossIndex.KeyOrderFollowsMerges`). |
| CrossIndex.KeyOrderFollowsMerges | byml_mapper.py:189-190 | Merging a file that adds actor a into the empty index, then one that adds actor b, leaves the key order [a, b]. By symmetry the other merge order leaves [b, a]. |
| CrossIndex.MergeExtendsBatch | byml_mapper.py:182-194 | A batch merge followed by one more file's merge is the batch merge of the longer batch, including the order of appended keys: keys first declared by an earlier file stand before keys first declared by a later one. |
| CrossIndex.FirstDeclaringAppend | byml_mapper.py:182-190 | One more file leaves the first declaring file of every key an earlier file declares. It becomes the first declaring file of the keys only it declares. |
| CrossIndex.PresentIffDeclared | byml_mapper.py:182-190 | After a batch, an actor is in the table iff it was before or some batch file declares it. |
| CrossIndex.AppendedBeforeDeclared | byml_mapper.py:182-190 | Every key a batch appended to the order is declared by some batch file, and one more file does not change which file declared it first. |
| CrossIndex.AppendedByLastFile | byml_mapper.py:182-190 | The keys one more file appends to the order are declared first by that file, so they follow every earlier file's block of keys. |
| CrossIndex.NewActorsFollowFileOrder | byml_mapper.py:182-190 | Two new actors from two files: the key order that puts the later file's actor first is not what the batch leaves. |
| CrossIndex.BatchLastWriteWins | byml_mapper.py:182-190 | After a batch, an actor maps to the path of the last file in submission order that declares it. |
| CrossIndex.BatchKeepsUndeclared | byml_mapper.py:182-190 | An actor that no file of the batch declares keeps its path, or stays absent. |
| CrossIndex.BatchReferences | byml_mapper.py:182-192 | After a batch, a target's set is its earlier set plus the path of every batch file that references it. The target is present iff one of the two is non-empty. |
| CrossIndex.TwoFilesReferencingOneTarget | byml_mapper.py:191-192 | Two files referencing a new target leave exactly their two paths in its set. |
| CrossIndex.BatchActorPaths | byml_mapper.py:189-190 | Every path in the actors table after a batch is an earlier one or a batch file's path. |
| CrossIndex.BatchKeepsConsistent | byml_mapper.py:182-194 | A batch keeps reference sets non-empty and every mentioned path visited. |
| Generate.VisitedByResults | byml_mapper.py:182-194 | The paths the merge loop marks visited are exactly the paths of the delta. |
| Generate.MapProcessMatch | byml_mapper.py:184 | One outcome per file, each that file's `process_match` outcome, in submission order. |
| Generate.MergeOutcomes | byml_mapper.py:182-194 | The merge loop stops at a raising outcome iff some file raises. Otherwise the cache ends up as the batch merge of every file's records into its starting state, in submission order. The keys it appends come in per-file blocks, in submission order. |
| Generate.GenerateCache | byml_mapper.py:142-209 | Returns early without writing iff the delta is empty. Crashes iff the delta is non-empty and some file raises. Otherwise writes the stored (or empty) index batch-merged with every delta file's records in submission order. The new actor keys come in per-file blocks, in submission order. |
| Generate.RerunFindsNothing | byml_mapper.py:163-194 | After a written run, the index it stores gives the same walk an empty delta, so the next run returns early. |
| Generate.DecodeFailureStillVisited | byml_mapper.py:113-115 | A file that fails to decode contributes the empty pair and is still marked visited. |
| Generate.BatchRemovesNothing | byml_mapper.py:182-194 | A run removes no actor key, no referencing path, no visited path and no position of the order. |
| CrossIndex.LastDeclaration | byml_mapper.py:189-190 | Every actor some batch file declares is in the actors table after the batch. |
| Query.DecimalRoundTrip | byml_mapper.py:223-224 | `str(n)` is decimal text with no leading zero, and it denotes `n`. |
| Query.CanonicalRoundTrip | byml_mapper.py:223-224 | Decimal text with no leading zero is `str` of the number it denotes. |
| Query.HashFieldMatchesIff | byml_mapper.py:222-226 | A hash query matches an actor iff the item is `str`-form decimal text that denotes the actor's hash. |
| Query.SearchForRefs | byml_mapper.py:212-236 | A missing index raises. Otherwise the result is `Search`: the matching actors' entries, in the order of the actors table. |
| Query.SearchFindsExactly | byml_mapper.py:218-236 | A result is listed iff it is the entry of an actor whose field equals the item, carrying that actor's hash, Gyaml and defining path. `files` is present iff the hash's reference set is non-empty, and is then that set. |
| Query.FilesPresentIffReferenced | byml_mapper.py:232-233 | On an index a run leaves, `files` is present iff the hash has a reference entry. |
| Query.MatchesInConcat | byml_mapper.py:219-234 | Scanning two runs of keys gives the first run's matches followed by the second's: results keep scan order. |
| Query.QueryByTypeNameExample | byml_mapper.py:218-236 | Two "Door" actors: a type-name query returns both, in scan order, without `files`. |
| Query.QueryByIdentityExample | byml_mapper.py:226-234 | Actor 42 referenced from f2 and f3: querying "42" returns its one entry with files {f2, f3}. |

## Left out

- The BYML decoder is a foreign binary-format library. A file's content is given already decoded, with None for InvalidDataError. Only four node kinds are modelled: dictionary, array, u64 and string. Signed and 32-bit integers, floats and booleans are not.
- What the code does with a non-string `Gyaml` or `InstanceName` depends on `json` and on the BYML library's node types, so the model makes a choice: such a value raises, like other malformed entries.
- The directory walk, `open` and `Path` are I/O. The walked files are an input sequence, and each path is its posix text. `fnmatch("*.byml")` is the suffix test of a posix system; the case folding of other systems is not modelled.
- Pickle persistence is serialisation through a foreign library. A stored index is `Option<Index>`. Exceptions from `open` or `pickle.load` other than a missing file are not modelled.
- The process pool and `chunksize` exist for concurrency. Extraction is a sequential map in submission order, which `zip` over `p.map` preserves. A `--threads` given as a string is not modelled.
- Generate.GenerateCache: a zero `chunksize` is not modelled. `chunksize` is the delta's length floor-divided by twice the thread count. With the default of 6 threads, any delta of 1 to 11 files gives 0, and `p.map` then raises ValueError before any merge. So the real program crashes, leaving the stored index unchanged, in a run that adds a single file, where the model writes the merged index.
- The JSON encoding of actor keys is a structured pair here. The round trip through `json` is that library's promise, and printing JSON to standard output is output.
- Logging, `argparse`, `main`, `debug_cache` and the `BrokenPipeError` handling are glue and diagnostics, not part of this model.
- The query's lookup in the `defaultdict` inserts an empty set into its in-memory copy, which is never written back. It is modelled as a lookup with an empty default.
- `files` in a query result is the set of referencing paths, without the list order Python happens to produce.
- Python dict key order of `all_actors` is kept as `Index.order`. Between files it is exact: each file's new keys form a block after the earlier files' blocks. Within one file's block the order is that of Python's set iteration, which is not modelled. A loaded index is assumed to satisfy the dict's own invariant: each key is in the order exactly once.
- CrossIndex.Cache.MergeFile: a file's new actor keys are appended in the unspecified order Python iterates the file's set. The contract states only that the old order is kept as a prefix and that each key appears exactly once.
- CrossIndex.Cache.PutDeclarations: for the same reason, only the old order as a prefix and the one-position-per-key invariant are stated, not the order of the new keys.
- CrossIndex.Cache.AddReferencesFrom: the updated table is built in a local map and assigned back to the field at the end. Python updates each set in place, and aliasing of those sets is not modelled.
