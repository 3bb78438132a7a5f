/** What the tree restorer plans: which files and directories of a working tree an
    allowlist does not cover. Paths are sequences of names; the root is the empty one. */
module RestorePlan {
  import opened Wrappers

  type Path = seq<string>
  type Content = seq<int>

  datatype Tree = Tree(files: map<Path, Content>, dirs: set<Path>)

  predicate Exists(t: Tree, p: Path) {
    p in t.files || p in t.dirs
  }

  /** The root is a directory, nothing is both a file and a directory, and everything
      lies in directories. */
  ghost predicate WellFormed(t: Tree) {
    && [] in t.dirs
    && t.files.Keys !! t.dirs
    && forall p, i :: Exists(t, p) && 0 <= i < |p| ==> p[..i] in t.dirs
  }

  // ----- fixed paths ---------------------------------------------------------------------------

  const KNOWN_DIRS: set<Path> :=
    {[".venv"], ["apps", "chat_ui"], ["apps", "chat_ui", "node_modules"], [".pytest_cache"], [".ruff_cache"]}

  const ALWAYS_KEEP: set<Path> :=
    {["data", "target_tree_allowlist.txt"], ["tools", "restore_tree.py"],
     ["scripts", "restore-target-tree.ps1"], ["docs", "RESTORE_TARGET_TREE.md"]}

  /** The name's suffix, from its last dot on, is `.pyc`. */
  predicate IsBytecode(name: string) {
    |name| > 4 && name[|name| - 4..] == ".pyc"
  }

  predicate IsProtected(p: Path) {
    || p == []
    || p[0] in {".git", "tools", "scripts", "docs"}
    || ["data", "logs", "operations"] <= p
    || ["data", "quarantine"] <= p
    || "__pycache__" in p
    || IsBytecode(p[|p| - 1])
    || exists keep :: keep in ALWAYS_KEEP && p <= keep
  }

  /** An allowlist entry that stands for a directory. */
  predicate IsDirEntry(entry: Path, allowed: set<Path>) {
    entry in KNOWN_DIRS || exists other :: other in allowed && other != entry && entry <= other
  }

  // ----- normalisation ---------------------------------------------------------------------------

  datatype PathError = OutsideRoot | ParentReference

  /** Parts that name something. */
  function Named(parts: seq<string>): (r: Path)
    ensures forall x :: x in r <==> x in parts && x !in {"", "."}
  {
    if parts == [] then [] else (if parts[0] in {"", "."} then [] else [parts[0]]) + Named(parts[1..])
  }

  lemma {:induction false} NamedAppend(parts: seq<string>, more: seq<string>)
    ensures Named(parts + more) == Named(parts) + Named(more)
  {
    if parts == [] {
      assert parts + more == more;
    } else {
      assert (parts + more)[1..] == parts[1..] + more;
      NamedAppend(parts[1..], more);
    }
  }

  /** A path made relative to the root, without empty parts and dots; parent references
      are refused, wherever they lead. */
  function Normalized(absolute: bool, parts: seq<string>, root: seq<string>): Result<Path, PathError> {
    if absolute && !(root <= parts) then Err(OutsideRoot) else
    var rel := if absolute then parts[|root|..] else parts;
    if ".." in rel then Err(ParentReference) else Ok(Named(rel))
  }

  method NormalizeRelative(absolute: bool, parts: seq<string>, root: seq<string>) returns (r: Result<Path, PathError>)
    ensures r == Normalized(absolute, parts, root)
  {
    if absolute && !(root <= parts) {
      return Err(OutsideRoot);
    }
    var rel := if absolute then parts[|root|..] else parts;
    var kept: Path := [];
    for i := 0 to |rel|
      invariant ".." !in rel[..i] && kept == Named(rel[..i])
    {
      assert rel[..i + 1] == rel[..i] + [rel[i]];
      NamedAppend(rel[..i], [rel[i]]);
      if rel[i] == "" || rel[i] == "." {
        continue;
      }
      if rel[i] == ".." {
        assert ".." in rel;
        return Err(ParentReference);
      }
      kept := kept + [rel[i]];
    }
    assert rel[..|rel|] == rel;
    return Ok(kept);
  }

  lemma {:induction false} NamedTwice(parts: seq<string>)
    ensures Named(Named(parts)) == Named(parts)
  {
    if parts != [] {
      NamedTwice(parts[1..]);
      var rest := Named(parts[1..]);
      assert [] + rest == rest && ([parts[0]] + rest)[1..] == rest;
    }
  }

  // ----- the allowlist -----------------------------------------------------------------------------

  function Prefixes(p: Path): (r: set<Path>)
    ensures forall x :: x in r <==> x <= p
  {
    assert forall x: Path :: x <= p ==> x == p[..|x|];
    set i | 0 <= i <= |p| :: p[..i]
  }

  function SetOf(s: seq<Path>): set<Path> {
    set x | x in s
  }

  /** Every entry and every ancestor of one, and the root. */
  ghost predicate IsAllowDirs(dirs: set<Path>, allowed: set<Path>) {
    forall d :: d in dirs <==> d == [] || exists a :: a in allowed && d <= a
  }

  method BuildAllowSets(entries: seq<Path>) returns (allowed: set<Path>, dirs: set<Path>)
    ensures allowed == SetOf(entries)
    ensures IsAllowDirs(dirs, allowed)
  {
    allowed := SetOf(entries);
    dirs := {[]};
    var rest := allowed;
    while rest != {}
      invariant rest <= allowed
      invariant IsAllowDirs(dirs, allowed - rest)
      decreases |rest|
    {
      var entry :| entry in rest;
      ghost var before := dirs;
      dirs := dirs + {entry};
      for i := 1 to |entry| + 1
        invariant forall d :: d in dirs <==> d in before || d == entry || (d <= entry && 1 <= |d| < i)
      {
        assert forall d: Path :: d <= entry && |d| == i ==> d == entry[..i];
        dirs := dirs + {entry[..i]};
      }
      AddEntry(before, dirs, allowed - rest, entry);
      assert allowed - (rest - {entry}) == (allowed - rest) + {entry};
      rest := rest - {entry};
    }
    assert allowed - rest == allowed;
  }

  lemma AddEntry(before: set<Path>, dirs: set<Path>, allowed: set<Path>, entry: Path)
    requires IsAllowDirs(before, allowed)
    requires forall d :: d in dirs <==> d in before || d == entry || (d <= entry && 1 <= |d| < |entry| + 1)
    ensures IsAllowDirs(dirs, allowed + {entry})
  {
  }

  // ----- the tree as it is walked -------------------------------------------------------------------

  /** Directories the walk does not enter. */
  predicate IsPruned(d: Path) {
    d in KNOWN_DIRS || (d != [] && d[|d| - 1] == ".git")
  }

  /** The walk reaches everything directly in `d`. */
  predicate Reached(d: Path) {
    forall i :: 0 <= i <= |d| ==> !IsPruned(d[..i])
  }

  function ActualDirs(t: Tree): set<Path> {
    set d | d in t.dirs && d != [] && Reached(d)
  }

  function ActualFiles(t: Tree): set<Path> {
    set p | p in t.files && p != [] && Reached(p[..|p| - 1])
  }

  lemma ReachedParent(d: Path)
    requires d != []
    ensures Reached(d) <==> Reached(d[..|d| - 1]) && !IsPruned(d)
  {
    var up := d[..|d| - 1];
    assert d[..|d|] == d;
    assert forall i :: 0 <= i <= |up| ==> up[..i] == d[..i];
  }

  predicate IsParent(dir: Path, p: Path) {
    p != [] && p[..|p| - 1] == dir
  }

  /** The walk so far: what it has listed, and what it has still to list. */
  ghost predicate Walked(t: Tree, pending: set<Path>, done: set<Path>) {
    && pending <= t.dirs && done <= t.dirs && pending !! done
    && (forall d :: d in pending || d in done ==> Reached(d) && (d == [] || d[..|d| - 1] in done))
    && (forall d :: d in t.dirs && Reached(d) && (d == [] || d[..|d| - 1] in done) ==> d in pending || d in done)
  }

  lemma WalkOn(t: Tree, pending: set<Path>, done: set<Path>, dir: Path, subdirs: set<Path>)
    requires Walked(t, pending, done) && dir in pending
    requires subdirs == set d | d in t.dirs && IsParent(dir, d) && !IsPruned(d)
    ensures Walked(t, pending - {dir} + subdirs, done + {dir})
  {
    hide Reached, IsPruned;
    forall d | d in t.dirs && IsParent(dir, d)
      ensures Reached(d) <==> d in subdirs
    {
      ReachedParent(d);
    }
  }

  /** The directory walk: each pending directory is listed in turn, and its
      subdirectories are entered unless they are pruned. */
  method CollectActual(t: Tree) returns (files: set<Path>, dirs: set<Path>)
    requires WellFormed(t)
    ensures files == ActualFiles(t) && dirs == ActualDirs(t)
  {
    hide IsPruned, WellFormed, Walked, FilesIn, IsParent;
    files, dirs := {}, {};
    var pending: set<Path> := {[]};
    ghost var done: set<Path> := {};
    WalkBegins(t);
    while pending != {}
      invariant Walked(t, pending, done)
      invariant dirs == done - {[]}
      invariant files == FilesIn(t, done)
      decreases |t.dirs - done|
    {
      var dir :| dir in pending;
      DirOf(t, pending, done, dir);
      if dir != [] {
        dirs := dirs + {dir};
      }
      var subdirs := set d | d in t.dirs && IsParent(dir, d) && !IsPruned(d);
      WalkOn(t, pending, done, dir, subdirs);
      pending := pending - {dir} + subdirs;
      files := files + set p | p in t.files && IsParent(dir, p);
      done := done + {dir};
    }
    WalkEnds(t, done);
  }

  lemma DirOf(t: Tree, pending: set<Path>, done: set<Path>, dir: Path)
    requires Walked(t, pending, done) && dir in pending
    ensures dir in t.dirs && dir !in done && done <= t.dirs
    ensures FilesIn(t, done + {dir}) == FilesIn(t, done) + set p | p in t.files && IsParent(dir, p)
  {
    hide Reached;
  }

  ghost function FilesIn(t: Tree, done: set<Path>): set<Path> {
    set p | p in t.files && p != [] && p[..|p| - 1] in done
  }

  lemma WalkBegins(t: Tree)
    requires WellFormed(t)
    ensures Walked(t, {[]}, {}) && FilesIn(t, {}) == {}
  {
  }

  lemma WalkEnds(t: Tree, done: set<Path>)
    requires WellFormed(t) && Walked(t, {}, done)
    ensures FilesIn(t, done) == ActualFiles(t) && done - {[]} == ActualDirs(t)
  {
    hide Reached;
    forall d | d in t.dirs && Reached(d) ensures d in done {
      AllDone(t, done, d);
    }
    assert forall p :: p in t.files && p != [] ==> p[..|p| - 1] in t.dirs;
  }

  lemma {:induction false} AllDone(t: Tree, done: set<Path>, d: Path)
    requires WellFormed(t) && Walked(t, {}, done) && d in t.dirs && Reached(d)
    ensures d in done
    decreases |d|
  {
    if d != [] {
      ReachedParent(d);
      AllDone(t, done, d[..|d| - 1]);
    }
  }

  // ----- the plan -------------------------------------------------------------------------------------

  function ExtraFiles(t: Tree, allowed: set<Path>): set<Path> {
    set p | p in ActualFiles(t) && p !in allowed && !IsProtected(p)
  }

  /** A directory that nothing in the allowlist asks for. */
  predicate IsCandidate(t: Tree, allowed: set<Path>, d: Path) {
    d in ActualDirs(t) && !IsProtected(d) && !exists a :: a in allowed && d <= a
  }

  /** The topmost candidates. */
  function ExtraDirs(t: Tree, allowed: set<Path>): set<Path> {
    set d | d in ActualDirs(t) && IsCandidate(t, allowed, d)
         && forall i :: 0 <= i < |d| ==> !IsCandidate(t, allowed, d[..i])
  }

  function Missing(t: Tree, entries: seq<Path>): (r: seq<Path>)
    ensures forall e :: e in r <==> e in entries && !Exists(t, e)
  {
    if entries == [] then [] else (if Exists(t, entries[0]) then [] else [entries[0]]) + Missing(t, entries[1..])
  }

  datatype Report = Report(extraFiles: seq<Path>, extraDirs: seq<Path>, missing: seq<Path>)

  /** `order` lists exactly `s`, each once. */
  ghost predicate Lists(order: seq<Path>, s: set<Path>) {
    && (forall p :: p in order <==> p in s)
    && forall i, j :: 0 <= i < j < |order| ==> order[i] != order[j]
  }

  /** What `_analyze_tree` reports, the order of the lists aside. */
  ghost predicate IsReport(t: Tree, entries: seq<Path>, r: Report) {
    var allowed := SetOf(entries);
    && Lists(r.extraFiles, ExtraFiles(t, allowed))
    && Lists(r.extraDirs, ExtraDirs(t, allowed))
    && r.missing == Missing(t, entries)
  }

  predicate ByDepth(order: seq<Path>) {
    forall i, j :: 0 <= i < j < |order| ==> |order[i]| <= |order[j]|
  }

  /** The extra directories among the first `i` in the order. */
  ghost predicate Picked(t: Tree, allowed: set<Path>, order: seq<Path>, i: nat, extra: seq<Path>)
    requires i <= |order|
  {
    && (forall d :: d in extra <==> d in order[..i] && d in ExtraDirs(t, allowed))
    && forall j, k :: 0 <= j < k < |extra| ==> extra[j] != extra[k] && |extra[j]| <= |extra[k]|
  }

  /** The loop over the directories by depth, whatever the order within a depth, picks
      the topmost candidates. */
  method PickExtraDirs(t: Tree, allowed: set<Path>, allowDirs: set<Path>, order: seq<Path>) returns (extra: seq<Path>)
    requires IsAllowDirs(allowDirs, allowed)
    requires Lists(order, ActualDirs(t)) && ByDepth(order)
    ensures Lists(extra, ExtraDirs(t, allowed)) && ByDepth(extra)
  {
    hide IsProtected, Reached, ExtraDirs;
    extra := [];
    var i := 0;
    while i < |order|
      invariant 0 <= i <= |order|
      invariant Picked(t, allowed, order, i, extra)
    {
      var d := order[i];
      ghost var before := extra;
      if d in allowDirs {
      } else if IsProtected(d) {
      } else if exists a :: a in allowed && d <= a {
      } else if exists k :: 0 <= k < |extra| && extra[k] <= d {
      } else {
        extra := extra + [d];
      }
      PickOne(t, allowed, allowDirs, order, i, before, extra);
      i := i + 1;
    }
    PickedAll(t, allowed, order, extra);
  }

  lemma PickedAll(t: Tree, allowed: set<Path>, order: seq<Path>, extra: seq<Path>)
    requires Lists(order, ActualDirs(t)) && Picked(t, allowed, order, |order|, extra)
    ensures Lists(extra, ExtraDirs(t, allowed)) && ByDepth(extra)
  {
    hide IsProtected, Reached;
    assert order[..|order|] == order;
  }

  /** The tests of one turn. */
  predicate IsSkipped(allowed: set<Path>, allowDirs: set<Path>, picked: seq<Path>, d: Path) {
    || d in allowDirs || IsProtected(d)
    || (exists a :: a in allowed && d <= a)
    || (exists k :: 0 <= k < |picked| && picked[k] <= d)
  }

  /** The test for an allowlisted path at or below a directory never decides: the
      allowed directories contain every ancestor of an entry. */
  lemma DescendantTestIdle(allowed: set<Path>, allowDirs: set<Path>, picked: seq<Path>, d: Path)
    requires IsAllowDirs(allowDirs, allowed)
    ensures IsSkipped(allowed, allowDirs, picked, d)
         == (d in allowDirs || IsProtected(d) || exists k :: 0 <= k < |picked| && picked[k] <= d)
  {
    hide IsProtected;
  }

  /** Whichever test skips a directory, it is skipped rightly. */
  lemma SkippedRightly(t: Tree, allowed: set<Path>, allowDirs: set<Path>, order: seq<Path>, i: nat, picked: seq<Path>)
    requires IsAllowDirs(allowDirs, allowed) && Lists(order, ActualDirs(t)) && ByDepth(order)
    requires i < |order| && Picked(t, allowed, order, i, picked)
    ensures IsSkipped(allowed, allowDirs, picked, order[i]) <==> order[i] !in ExtraDirs(t, allowed)
    ensures order[i] !in order[..i]
  {
    hide IsProtected, Reached, ExtraDirs, Picked, ByDepth;
    assert order[i] in order;
    PickedRightly(t, allowed, order, i, picked);
    OnlyCandidates(t, allowed);
  }

  lemma PickOne(t: Tree, allowed: set<Path>, allowDirs: set<Path>, order: seq<Path>, i: nat, before: seq<Path>,
                extra: seq<Path>)
    requires IsAllowDirs(allowDirs, allowed) && Lists(order, ActualDirs(t)) && ByDepth(order)
    requires i < |order| && Picked(t, allowed, order, i, before)
    requires extra == if IsSkipped(allowed, allowDirs, before, order[i]) then before else before + [order[i]]
    ensures Picked(t, allowed, order, i + 1, extra)
  {
    hide IsProtected, Reached, ActualDirs, ExtraDirs, Lists, IsAllowDirs, IsSkipped;
    var d := order[i];
    SkippedRightly(t, allowed, allowDirs, order, i, before);
    assert order[..i + 1] == order[..i] + [d];
    forall k | 0 <= k < |before| ensures before[k] != d && |before[k]| <= |d| {
      assert before[k] in before && before[k] in order[..i];
    }
  }

  lemma OnlyCandidates(t: Tree, allowed: set<Path>)
    ensures forall d :: d in ExtraDirs(t, allowed) ==> IsCandidate(t, allowed, d)
  {
  }

  /** Every candidate lies at or below a topmost one. */
  lemma {:induction false} CoveredByTopmost(t: Tree, allowed: set<Path>, d: Path) returns (top: Path)
    requires IsCandidate(t, allowed, d)
    ensures top in ExtraDirs(t, allowed) && top <= d
    decreases |d|
  {
    top := d;
    if i :| 0 <= i < |d| && IsCandidate(t, allowed, d[..i]) {
      top := CoveredByTopmost(t, allowed, d[..i]);
    }
  }

  /** Exactly one: no extra directory lies below another. */
  lemma ExtraDirsApart(t: Tree, allowed: set<Path>, d: Path, e: Path)
    requires d in ExtraDirs(t, allowed) && e in ExtraDirs(t, allowed) && d <= e
    ensures d == e
  {
    assert e[..|d|] == d;
  }

  lemma PickedRightly(t: Tree, allowed: set<Path>, order: seq<Path>, i: nat, picked: seq<Path>)
    requires Lists(order, ActualDirs(t)) && ByDepth(order) && i < |order|
    requires Picked(t, allowed, order, i, picked)
    ensures order[i] !in order[..i]
    ensures IsCandidate(t, allowed, order[i]) ==>
              (order[i] in ExtraDirs(t, allowed) <==> !exists k :: 0 <= k < |picked| && picked[k] <= order[i])
  {
    hide IsProtected, Reached, ActualDirs, ExtraDirs;
    var d := order[i];
    if IsCandidate(t, allowed, d) {
      var top := CoveredByTopmost(t, allowed, d);
      if top != d {
        OnlyCandidates(t, allowed);
        assert top in order;
        var j :| 0 <= j < |order| && order[j] == top;
        assert |top| < |d|;
        assert top in order[..i];
        assert top in picked;
        if d in ExtraDirs(t, allowed) {
          ExtraDirsApart(t, allowed, top, d);
        }
      } else {
        forall k | 0 <= k < |picked| ensures !(picked[k] <= d) {
          assert picked[k] in picked;
          if picked[k] <= d {
            ExtraDirsApart(t, allowed, picked[k], d);
          }
        }
      }
    }
  }
}
