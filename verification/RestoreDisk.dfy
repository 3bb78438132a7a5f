/** The restorer at work on a disk. */
module RestoreDisk {
  import opened RestorePlan
  import opened RestoreMoves
  import opened RestoreRun

  /** `sorted` on paths, and `sorted` by depth: they list a set in some order. */
  ghost predicate Sorts(order: set<Path> -> seq<Path>) {
    forall s :: Lists(order(s), s)
  }

  ghost predicate SortsByDepth(order: set<Path> -> seq<Path>) {
    Sorts(order) && forall s :: ByDepth(order(s))
  }

  /** The analysis, whatever order the sorts leave open. */
  method AnalyzeTree(t: Tree, entries: seq<Path>, sorted: set<Path> -> seq<Path>, byDepth: set<Path> -> seq<Path>)
    returns (r: Report)
    requires WellFormed(t) && Sorts(sorted) && SortsByDepth(byDepth)
    ensures IsReport(t, entries, r)
  {
    hide WellFormed, IsProtected, Lists, ByDepth, ActualDirs, ActualFiles, ExtraDirs, Missing;
    var allowed, allowDirs := BuildAllowSets(entries);
    var files, dirs := CollectActual(t);
    var extraFiles := sorted(set p | p in files && p !in allowed && !IsProtected(p));
    assert ExtraFiles(t, allowed) == set p | p in files && p !in allowed && !IsProtected(p);
    var extraDirs := PickExtraDirs(t, allowed, allowDirs, byDepth(dirs));
    var missing := FindMissing(t, entries);
    r := Report(extraFiles, extraDirs, missing);
  }

  method FindMissing(t: Tree, entries: seq<Path>) returns (missing: seq<Path>)
    ensures missing == Missing(t, entries)
  {
    hide Exists;
    missing := [];
    for i := 0 to |entries|
      invariant missing + Missing(t, entries[i..]) == Missing(t, entries)
    {
      assert entries[i..][1..] == entries[i + 1..];
      MissingStep(t, entries[i..], missing);
      if !Exists(t, entries[i]) {
        missing := missing + [entries[i]];
      }
    }
    assert missing + [] == missing;
  }

  lemma MissingStep(t: Tree, rest: seq<Path>, before: seq<Path>)
    requires rest != []
    ensures before + Missing(t, rest)
         == (if Exists(t, rest[0]) then before else before + [rest[0]]) + Missing(t, rest[1..])
  {
    hide Exists;
    var later := Missing(t, rest[1..]);
    if Exists(t, rest[0]) {
      assert [] + later == later;
    } else {
      assert before + ([rest[0]] + later) == before + [rest[0]] + later;
    }
  }

  lemma {:induction false} MoveAllAppend(t: Tree, q: Path, one: seq<Path>, two: seq<Path>)
    requires q != []
    ensures var s := MoveAll(t, q, one);
            MoveAll(t, q, one + two) == if s.ok then MoveAll(s.tree, q, two) else s
    decreases |one|
  {
    hide MoveOne;
    if one == [] {
      assert one + two == two;
    } else {
      assert (one + two)[1..] == one[1..] + two;
      var s := MoveOne(t, q, one[0]);
      if s.ok {
        MoveAllAppend(s.tree, q, one[1..], two);
      }
    }
  }

  lemma FreshStep(t: Tree, dest: Path, n: nat)
    requires dest != []
    ensures FreshFrom(t, dest, n) == if Exists(t, DestAt(dest, n)) then FreshFrom(t, dest, n + 1) else n
  {
    hide DestAt, Exists;
  }

  class Disk {
    var tree: Tree

    constructor (tree: Tree)
      ensures this.tree == tree
    {
      this.tree := tree;
    }

    /** The first of `dest`, `dest__dup1`, `dest__dup2`, … that does not exist. */
    method FindUniqueDest(dest: Path) returns (candidate: Path)
      requires dest != []
      ensures candidate == UniqueDest(tree, dest)
    {
      hide FreshFrom, Untried, Exists;
      candidate := dest;
      var suffix := 1;
      while Exists(tree, candidate)
        invariant suffix >= 1 && candidate == DestAt(dest, suffix - 1)
        invariant FreshFrom(tree, dest, 0) == FreshFrom(tree, dest, suffix - 1)
        decreases Untried(tree, dest, suffix - 1)
      {
        FreshStep(tree, dest, suffix - 1);
        TriesRunOut(tree, dest, suffix - 1);
        candidate := dest[..|dest| - 1] + [dest[|dest| - 1] + "__dup" + Decimal(suffix)];
        suffix := suffix + 1;
      }
      FreshStep(tree, dest, suffix - 1);
    }

    method Mkdir(p: Path) returns (ok: bool)
      modifies this
      ensures Step(tree, ok) == MkdirParents(old(tree), p)
    {
      ok := !Blocked(tree, p);
      if ok {
        tree := tree.(dirs := tree.dirs + Prefixes(p));
      }
    }

    /** One turn of the loops that move extra files and extra directories. */
    method Quarantine(q: Path, extra: Path) returns (ok: bool)
      requires q != []
      modifies this
      ensures Step(tree, ok) == MoveOne(old(tree), q, extra)
    {
      hide Move, Blocked;
      if !Exists(tree, extra) {
        return true;
      }
      var dest := q + extra;
      ok := Mkdir(dest[..|dest| - 1]);
      if ok {
        var free := FindUniqueDest(dest);
        tree := Move(tree, extra, free);
      }
    }

    /** One turn of the loop over the missing entries. */
    method Restore(entry: Path, allowed: set<Path>, out: Outside) returns (ok: bool)
      modifies this
      ensures Step(tree, ok) == RestoreOne(old(tree), allowed, out, entry)
    {
      hide Blocked, IsDirEntry;
      ok := true;
      if IsDirEntry(entry, allowed) {
        if entry in tree.files {
          tree := tree.(files := tree.files - {entry});
        }
        assert tree == Unlink(old(tree), entry);
        ok := Mkdir(entry);
        return;
      }
      if !Exists(tree, entry) && entry != [] {
        var restored := GitRestore(tree, out, entry);
        if restored.Some? {
          tree := restored.value;
        } else {
          ok := Mkdir(entry[..|entry| - 1]);
          if !ok {
            return;
          }
          tree := tree.(files := tree.files[entry := []]);
        }
      }
      ok := SetUpEntry(entry, out);
    }

    /** The branches for `.venv` and `node_modules`. */
    method SetUpEntry(entry: Path, out: Outside) returns (ok: bool)
      modifies this
      ensures Step(tree, ok) == SetUp(old(tree), out, entry)
    {
      hide Blocked;
      ok := true;
      if entry == VENV {
        if entry in tree.files {
          tree := tree.(files := tree.files - {entry});
        }
        assert tree == Unlink(old(tree), entry);
        ok := Mkdir(entry);
        if ok {
          var built := out.venv(tree);
          tree, ok := built.tree, built.ok;
        }
      }
      if entry == NODE_MODULES && Exists(tree, PACKAGE_LOCK) {
        var installed := out.npm(tree);
        tree, ok := installed.tree, installed.ok;
      }
    }

    /** The apply step: extra files first, then extra directories, then what is missing;
        the first failure ends it. */
    method ApplyActions(r: Report, allowed: set<Path>, out: Outside, q: Path) returns (ok: bool)
      requires q != []
      modifies this
      ensures Step(tree, ok) == Apply(old(tree), allowed, out, q, r)
    {
      hide MoveOne, RestoreOne;
      MoveAllAppend(tree, q, r.extraFiles, r.extraDirs);
      ok := QuarantineAll(r.extraFiles, q);
      if !ok {
        return;
      }
      ok := QuarantineAll(r.extraDirs, q);
      if !ok {
        return;
      }
      ghost var was := tree;
      for i := 0 to |r.missing|
        invariant RestoreAll(was, allowed, out, r.missing) == RestoreAll(tree, allowed, out, r.missing[i..])
      {
        assert r.missing[i..][1..] == r.missing[i + 1..];
        ok := Restore(r.missing[i], allowed, out);
        if !ok {
          return;
        }
      }
    }

    method QuarantineAll(extras: seq<Path>, q: Path) returns (ok: bool)
      requires q != []
      modifies this
      ensures Step(tree, ok) == MoveAll(old(tree), q, extras)
    {
      hide MoveOne;
      for i := 0 to |extras|
        invariant MoveAll(old(tree), q, extras) == MoveAll(tree, q, extras[i..])
      {
        assert extras[i..][1..] == extras[i + 1..];
        ok := Quarantine(q, extras[i]);
        if !ok {
          return;
        }
      }
      ok := true;
    }
  }

  /** The branches that build the virtual environment and install packages are never
      reached: no run, for whatever tree and report, depends on what they would do. */
  lemma {:induction false} NothingEverSetUp(t: Tree, allowed: set<Path>, out: Outside, venv: Tree -> Step,
                                            npm: Tree -> Step,
                                            missing: seq<Path>)
    ensures RestoreAll(t, allowed, out.(venv := venv, npm := npm), missing) == RestoreAll(t, allowed, out, missing)
    decreases |missing|
  {
    hide RestoreOne, IsDirEntry;
    if missing != [] {
      SetUpIgnored(t, allowed, out, venv, npm, missing[0]);
      NothingEverSetUp(RestoreOne(t, allowed, out, missing[0]).tree, allowed, out, venv, npm, missing[1..]);
    }
  }

  lemma SetUpIgnored(t: Tree, allowed: set<Path>, out: Outside, venv: Tree -> Step, npm: Tree -> Step, entry: Path)
    ensures RestoreOne(t, allowed, out.(venv := venv, npm := npm), entry) == RestoreOne(t, allowed, out, entry)
  {
    hide IsDirEntry, Put, Blocked;
    NothingSetUp(t, allowed, out, entry);
    NothingSetUp(t, allowed, out.(venv := venv, npm := npm), entry);
  }

  /** So whole runs do not depend on it. */
  lemma RunsSetNothingUp(t: Tree, entries: seq<Path>, out: Outside, q: Path, r: Report, venv: Tree -> Step,
                         npm: Tree -> Step)
    ensures Run(t, entries, out.(venv := venv, npm := npm), q, r) == Run(t, entries, out, q, r)
  {
    hide RestoreAll, MoveAll;
    var ready := EnsureQuarantine(t, q);
    if ready.ok {
      var moved := MoveAll(ready.tree, q, r.extraFiles + r.extraDirs);
      NothingEverSetUp(moved.tree, SetOf(entries), out, venv, npm, r.missing);
    }
  }

  // ----- a file that is lost ----------------------------------------------------------------------

  const QUARANTINE: Path := ["data", "quarantine", "r"]
  const STRAY: Path := ["x"]
  const CLAIMED: Path := ["data", "quarantine", "r", "x"]
  const BELOW_CLAIMED: Path := ["data", "quarantine", "r", "x", "y"]

  lemma StrayIsUnprotected()
    ensures !IsProtected(STRAY)
  {
    assert forall keep :: keep in ALWAYS_KEEP ==> keep[0] != STRAY[0];
  }

  lemma StrayIsExtra(content: Content)
    ensures var t := Tree(map[STRAY := content], {[]});
            && WellFormed(t)
            && ExtraFiles(t, {CLAIMED, BELOW_CLAIMED}) == {STRAY} && ExtraDirs(t, {CLAIMED, BELOW_CLAIMED}) == {}
  {
    hide IsProtected;
    var t := Tree(map[STRAY := content], {[]});
    assert STRAY[..|STRAY| - 1] == [] && Reached([]);
    assert STRAY[..0] == [];
    StrayIsUnprotected();
  }

  lemma StrayIsMoved(content: Content)
    ensures var t := Tree(map[STRAY := content], Prefixes(QUARANTINE));
            MoveAll(t, QUARANTINE, [STRAY]) == Step(Tree(map[CLAIMED := content], Prefixes(QUARANTINE)), true)
  {
    hide Prefixes;
    var t := Tree(map[STRAY := content], Prefixes(QUARANTINE));
    assert QUARANTINE + STRAY == CLAIMED && Parent(CLAIMED) == QUARANTINE;
    assert !Blocked(t, QUARANTINE) by { assert forall i :: 0 < i <= |QUARANTINE| ==> QUARANTINE[..i][0] == "data"; }
    assert UniqueDest(t, CLAIMED) == CLAIMED by { assert !(CLAIMED <= QUARANTINE); }
    assert Relocated(STRAY, STRAY, CLAIMED) == CLAIMED && Origin(CLAIMED, STRAY, CLAIMED) == STRAY;
    assert forall d :: d in Prefixes(QUARANTINE) ==> Relocated(d, STRAY, CLAIMED) == d;
    assert Image(t.dirs, STRAY, CLAIMED) == t.dirs;
    assert Image(t.files.Keys, STRAY, CLAIMED) == {CLAIMED};
    assert Move(t, STRAY, CLAIMED).files == map[CLAIMED := content];
    assert MoveOne(t, QUARANTINE, STRAY) == Step(Tree(map[CLAIMED := content], Prefixes(QUARANTINE)), true);
  }

  lemma StrayIsReplaced(out: Outside, content: Content)
    ensures var t := Tree(map[CLAIMED := content], Prefixes(QUARANTINE));
            RestoreAll(t, {CLAIMED, BELOW_CLAIMED}, out,
                       [CLAIMED, BELOW_CLAIMED]) == Step(Tree(map[BELOW_CLAIMED := []], Prefixes(CLAIMED)), true)
  {
    hide Prefixes;
    var t, t' := Tree(map[CLAIMED := content], Prefixes(QUARANTINE)), Tree(map[], Prefixes(CLAIMED));
    assert IsDirEntry(CLAIMED, {CLAIMED, BELOW_CLAIMED}) by {
      assert BELOW_CLAIMED in {CLAIMED, BELOW_CLAIMED} && CLAIMED <= BELOW_CLAIMED;
    }
    assert Prefixes(QUARANTINE) + Prefixes(CLAIMED) == Prefixes(CLAIMED) by { assert CLAIMED[..3] == QUARANTINE; }
    assert RestoreOne(t, {CLAIMED, BELOW_CLAIMED}, out, CLAIMED) == Step(t', true);
    assert !IsDirEntry(BELOW_CLAIMED, {CLAIMED, BELOW_CLAIMED});
    assert Parent(BELOW_CLAIMED) == CLAIMED;
    assert !Exists(t', [".git"]) by { assert CLAIMED[0] != ".git"; }
    assert !Exists(t', BELOW_CLAIMED);
    assert Put(t', BELOW_CLAIMED, []) == Tree(map[BELOW_CLAIMED := []], Prefixes(CLAIMED));
    assert RestoreOne(t', {CLAIMED, BELOW_CLAIMED}, out,
                      BELOW_CLAIMED) == Step(Tree(map[BELOW_CLAIMED := []], Prefixes(CLAIMED)), true);
    assert [CLAIMED, BELOW_CLAIMED][1..] == [BELOW_CLAIMED];
    assert RestoreAll(t', {CLAIMED, BELOW_CLAIMED}, out, [BELOW_CLAIMED])
        == RestoreOne(t', {CLAIMED, BELOW_CLAIMED}, out, BELOW_CLAIMED);
  }

  /** The condition of NothingLost matters: an allowlist that asks for a directory where a
      quarantined file goes. The run goes through, and the file is nowhere. */
  lemma ClaimedFileIsLost(out: Outside, content: Content)
    ensures var entries, r := [CLAIMED, BELOW_CLAIMED], Report([STRAY], [], [CLAIMED, BELOW_CLAIMED]);
            var t := Tree(map[STRAY := content], {[]});
            && Ready(t, entries, QUARANTINE, r) && Run(t, entries, out, QUARANTINE, r).ok
            && Run(t, entries, out, QUARANTINE, r).tree.files == map[BELOW_CLAIMED := []]
  {
    hide WellFormed, ExtraFiles, ExtraDirs, MoveAll, RestoreAll, Prefixes;
    var t := Tree(map[STRAY := content], {[]});
    assert SetOf([CLAIMED, BELOW_CLAIMED]) == {CLAIMED, BELOW_CLAIMED};
    StrayIsExtra(content);
    StrayIsMoved(content);
    StrayIsReplaced(out, content);
    assert [STRAY] + [] == [STRAY];
    assert {[]} + Prefixes(QUARANTINE) == Prefixes(QUARANTINE);
    assert !Blocked(t, QUARANTINE) by { assert forall i :: 0 < i <= |QUARANTINE| ==> QUARANTINE[..i][0] == "data"; }
    assert !Exists(t, CLAIMED) && !Exists(t, BELOW_CLAIMED) && [CLAIMED, BELOW_CLAIMED][1..] == [BELOW_CLAIMED];
    assert Missing(t, [BELOW_CLAIMED]) == [BELOW_CLAIMED];
    assert Missing(t, [CLAIMED, BELOW_CLAIMED]) == [CLAIMED, BELOW_CLAIMED];
  }
}
