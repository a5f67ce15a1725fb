/**
 * The corpus scan of `generate_cache`: of the files the directory walk yields,
 * keep those whose name matches `*.byml` and whose posix path is not yet in the
 * cached path set, in walk order.
 */
module Scan {
  import opened Wrappers
  import opened Byml

  /** A path, identified with its `as_posix()` text. */
  type Path = string

  /**
   * One file yielded by the walk: its name, the posix form of `Path(root, name)`,
   * and what the byml decoder makes of its bytes (None: InvalidDataError).
   */
  datatype WalkedFile = WalkedFile(name: string, path: Path, content: Option<Value>)

  /** The fixed part of the one recognised pattern, `*.byml`. */
  const Suffix := ".byml"

  /** `fnmatch(name, "*.byml")` on a posix system: `*` matches any text, so the name ends in `.byml`. */
  predicate MatchesPattern(name: string)
  {
    |name| >= |Suffix| && name[|name| - |Suffix|..] == Suffix
  }

  predicate Selected(f: WalkedFile, cached: set<Path>)
  {
    MatchesPattern(f.name) && f.path !in cached
  }

  /** The delta: the walked files the scan appends to `matched_filepaths`, in walk order. */
  function Delta(walked: seq<WalkedFile>, cached: set<Path>): seq<WalkedFile>
  {
    if walked == [] then []
    else
      var last := walked[|walked| - 1];
      Delta(walked[..|walked| - 1], cached) + (if Selected(last, cached) then [last] else [])
  }

  function PathsOf(files: seq<WalkedFile>): set<Path>
  {
    set f | f in files :: f.path
  }

  method FindNewFiles(walked: seq<WalkedFile>, cached: set<Path>) returns (matched: seq<WalkedFile>)
    ensures matched == Delta(walked, cached)
  {
    matched := [];
    for i := 0 to |walked|
      invariant matched == Delta(walked[..i], cached)
    {
      assert walked[..i + 1][..i] == walked[..i];
      if MatchesPattern(walked[i].name) && walked[i].path !in cached {
        matched := matched + [walked[i]];
      }
    }
    assert walked[..|walked|] == walked;
  }

  /** A walked file is in the delta exactly when it matches the pattern and its path is not cached. */
  lemma {:induction false} DeltaMembership(walked: seq<WalkedFile>, cached: set<Path>, f: WalkedFile)
    ensures f in Delta(walked, cached) <==> f in walked && MatchesPattern(f.name) && f.path !in cached
    decreases |walked|
  {
    if walked != [] {
      var init := walked[..|walked| - 1];
      DeltaMembership(init, cached, f);
      assert walked == init + [walked[|walked| - 1]];
    }
  }

  /** The delta of two walks one after the other is the first's delta followed by the second's: walk order is kept. */
  lemma {:induction false} DeltaOfConcat(a: seq<WalkedFile>, b: seq<WalkedFile>, cached: set<Path>)
    ensures Delta(a + b, cached) == Delta(a, cached) + Delta(b, cached)
    decreases |b|
  {
    if b == [] {
      assert a + b == a;
    } else {
      var init := b[..|b| - 1];
      DeltaOfConcat(a, init, cached);
      assert (a + b)[..|a + b| - 1] == a + init;
    }
  }

  /** Once the paths of the delta are cached, the same walk has an empty delta. */
  lemma DeltaEmptyOnceVisited(walked: seq<WalkedFile>, cached: set<Path>, visited: set<Path>)
    requires cached + PathsOf(Delta(walked, cached)) <= visited
    ensures Delta(walked, visited) == []
  {
    var rest := Delta(walked, visited);
    if rest != [] {
      var f := rest[0];
      DeltaMembership(walked, visited, f);
      DeltaMembership(walked, cached, f);
      assert false;
    }
  }

  /**
   * With the files before and after it already indexed, a walk that finds one
   * new matching file C, wherever it stands, has the delta [C]: only the new
   * file is processed.
   */
  lemma DeltaOfAddedFile(before: seq<WalkedFile>, added: WalkedFile, after: seq<WalkedFile>, cached: set<Path>)
    requires PathsOf(before + after) <= cached
    requires MatchesPattern(added.name) && added.path !in cached
    ensures Delta(before + [added] + after, cached) == [added]
  {
    DeltaOfConcat(before + [added], after, cached);
    DeltaOfConcat(before, [added], cached);
    var earlier := Delta(before, cached);
    if earlier != [] {
      DeltaMembership(before, cached, earlier[0]);
      assert false;
    }
    var later := Delta(after, cached);
    if later != [] {
      DeltaMembership(after, cached, later[0]);
      assert false;
    }
    assert [added][..0] == [];
  }
}
