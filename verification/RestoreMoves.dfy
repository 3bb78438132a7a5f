/** The steps that change the tree: creating directories, moving, restoring an entry. */
module RestoreMoves {
  import opened Wrappers
  import opened RestorePlan

  /** A tree after a step, and whether the step went through or raised. */
  datatype Step = Step(tree: Tree, ok: bool)

  // ----- creating ---------------------------------------------------------------------------------

  /** A file stands where a directory is wanted. */
  predicate Blocked(t: Tree, p: Path) {
    exists i :: 0 <= i <= |p| && p[..i] in t.files
  }

  /** `mkdir(parents=True, exist_ok=True)`. */
  function MkdirParents(t: Tree, p: Path): Step {
    if Blocked(t, p) then Step(t, false) else Step(t.(dirs := t.dirs + Prefixes(p)), true)
  }

  lemma MkdirWellFormed(t: Tree, p: Path)
    requires WellFormed(t)
    ensures WellFormed(MkdirParents(t, p).tree)
  {
    if !Blocked(t, p) {
      var t' := MkdirParents(t, p).tree;
      forall x | x in Prefixes(p) ensures x !in t.files && forall i :: 0 <= i < |x| ==> x[..i] in Prefixes(p) {
        assert x == p[..|x|];
      }
    }
  }

  function Parent(p: Path): Path
    requires p != []
  {
    p[..|p| - 1]
  }

  /** A new file, with the directories above it. */
  function Put(t: Tree, p: Path, content: Content): Tree
    requires p != []
  {
    Tree(t.files[p := content], t.dirs + Prefixes(Parent(p)))
  }

  /** What something lies below exists. */
  lemma ExistsAbove(t: Tree, p: Path, x: Path)
    requires WellFormed(t) && Exists(t, x) && p <= x
    ensures Exists(t, p)
  {
    assert x[..|p|] == p;
    if |p| == |x| {
      assert x == p;
    }
  }

  /** Nothing lies below what does not exist. */
  lemma NothingBelow(t: Tree, p: Path, x: Path)
    requires WellFormed(t) && !Exists(t, p) && Exists(t, x)
    ensures !(p <= x)
  {
    if p <= x {
      ExistsAbove(t, p, x);
    }
  }

  lemma PutWellFormed(t: Tree, p: Path, content: Content)
    requires WellFormed(t) && p != [] && !Exists(t, p) && !Blocked(t, Parent(p))
    ensures WellFormed(Put(t, p, content))
  {
    var mid, t' := MkdirParents(t, Parent(p)).tree, Put(t, p, content);
    MkdirWellFormed(t, Parent(p));
    forall x, i | Exists(t', x) && 0 <= i < |x| ensures x[..i] in t'.dirs {
      if x == p {
        assert p[..i] <= Parent(p);
      } else {
        assert Exists(mid, x);
      }
    }
  }

  // ----- moving -----------------------------------------------------------------------------------

  /** Where a path is after `src` has become `dst`. */
  function Relocated(p: Path, src: Path, dst: Path): Path {
    if src <= p then dst + p[|src|..] else p
  }

  function Origin(p: Path, src: Path, dst: Path): Path {
    if dst <= p then src + p[|dst|..] else p
  }

  function Image(s: set<Path>, src: Path, dst: Path): set<Path> {
    set p | p in s :: Relocated(p, src, dst)
  }

  /** Everything at or below `src` goes to `dst`. */
  function Move(t: Tree, src: Path, dst: Path): Tree {
    Tree(map p | p in Image(t.files.Keys, src, dst) && Origin(p, src, dst) in t.files :: t.files[Origin(p, src, dst)],
         Image(t.dirs, src, dst))
  }

  predicate CanMove(t: Tree, src: Path, dst: Path) {
    && src != [] && Exists(t, src)
    && dst != [] && !Exists(t, dst) && Parent(dst) in t.dirs && !(src <= dst)
  }

  lemma OriginOfRelocated(p: Path, src: Path, dst: Path)
    requires !(dst <= p)
    ensures Origin(Relocated(p, src, dst), src, dst) == p
  {
    if src <= p {
      assert (dst + p[|src|..])[|dst|..] == p[|src|..];
    }
  }

  /** A move keeps every file and its content, under its new path. */
  lemma MoveFiles(t: Tree, src: Path, dst: Path)
    requires WellFormed(t) && CanMove(t, src, dst)
    ensures Move(t, src, dst).files.Keys == Image(t.files.Keys, src, dst)
    ensures forall p :: p in t.files ==>
              var moved := Move(t, src, dst);
              Relocated(p, src, dst) in moved.files && moved.files[Relocated(p, src, dst)] == t.files[p]
  {
    hide Relocated, Origin, WellFormed;
    forall p | p in t.files
      ensures Origin(Relocated(p, src, dst), src, dst) == p && Relocated(p, src, dst) in Image(t.files.Keys, src, dst)
    {
      NothingBelow(t, dst, p);
      OriginOfRelocated(p, src, dst);
    }
  }

  lemma RelocatedPrefix(t: Tree, src: Path, dst: Path, p: Path, i: nat)
    requires WellFormed(t) && CanMove(t, src, dst) && Exists(t, p) && i < |Relocated(p, src, dst)|
    ensures Relocated(p, src, dst)[..i] in Image(t.dirs, src, dst)
  {
    var moved := Relocated(p, src, dst)[..i];
    if !(src <= p) {
      assert !(src <= p[..i]);
      assert moved == Relocated(p[..i], src, dst);
    } else if i < |dst| {
      assert moved == dst[..i];
      assert moved in t.dirs by {
        if i < |dst| - 1 {
          assert moved == Parent(dst)[..i];
        } else {
          assert moved == Parent(dst);
        }
      }
      assert moved == Relocated(moved, src, dst);
    } else {
      var k := |src| + i - |dst|;
      assert src <= p[..k];
      assert p[..k] in t.dirs;
      assert moved == dst + p[..k][|src|..];
      assert moved == Relocated(p[..k], src, dst);
    }
  }

  lemma RelocatedApart(t: Tree, src: Path, dst: Path, f: Path, d: Path)
    requires WellFormed(t) && CanMove(t, src, dst) && f in t.files && d in t.dirs
    ensures Relocated(f, src, dst) != Relocated(d, src, dst)
  {
    NothingBelow(t, dst, f);
    NothingBelow(t, dst, d);
    OriginOfRelocated(f, src, dst);
    OriginOfRelocated(d, src, dst);
  }

  lemma MovedFrom(t: Tree, src: Path, dst: Path, x: Path) returns (p: Path)
    requires WellFormed(t) && CanMove(t, src, dst) && Exists(Move(t, src, dst), x)
    ensures Exists(t, p) && x == Relocated(p, src, dst)
    ensures x in Move(t, src, dst).files ==> p in t.files
    ensures x !in Move(t, src, dst).files ==> p in t.dirs
  {
    hide Relocated, Origin, WellFormed, CanMove;
    MoveFiles(t, src, dst);
    if x in Move(t, src, dst).files {
      p :| p in t.files && x == Relocated(p, src, dst);
    } else {
      p :| p in t.dirs && x == Relocated(p, src, dst);
    }
  }

  lemma MoveApart(t: Tree, src: Path, dst: Path, x: Path)
    requires WellFormed(t) && CanMove(t, src, dst) && x in Move(t, src, dst).files
    ensures x !in Move(t, src, dst).dirs
  {
    hide Relocated, Origin, WellFormed, CanMove;
    var f := MovedFrom(t, src, dst, x);
    if d :| d in t.dirs && x == Relocated(d, src, dst) {
      RelocatedApart(t, src, dst, f, d);
    }
  }

  lemma MoveWellFormed(t: Tree, src: Path, dst: Path)
    requires WellFormed(t) && CanMove(t, src, dst)
    ensures WellFormed(Move(t, src, dst))
  {
    hide Relocated, Origin, WellFormed, CanMove, Image, Exists;
    var t' := Move(t, src, dst);
    RootStays(t, src, dst);
    forall x, i | Exists(t', x) && 0 <= i < |x| ensures x[..i] in t'.dirs {
      var p := MovedFrom(t, src, dst, x);
      RelocatedPrefix(t, src, dst, p, i);
    }
    forall x | x in t'.files.Keys ensures x !in t'.dirs {
      MoveApart(t, src, dst, x);
    }
    FormedByParts(t');
  }

  lemma RootStays(t: Tree, src: Path, dst: Path)
    requires WellFormed(t) && CanMove(t, src, dst)
    ensures [] in Image(t.dirs, src, dst)
  {
    assert Relocated([], src, dst) == [];
  }

  lemma FormedByParts(t: Tree)
    requires [] in t.dirs && t.files.Keys !! t.dirs
    requires forall p, i :: Exists(t, p) && 0 <= i < |p| ==> p[..i] in t.dirs
    ensures WellFormed(t)
  {
  }

  // ----- a fresh name ----------------------------------------------------------------------------

  function Decimal(n: nat): (s: string)
    ensures s != ""
  {
    (if n < 10 then "" else Decimal(n / 10)) + ["0123456789"[n % 10]]
  }

  lemma {:induction false} DecimalInjective(m: nat, n: nat)
    requires Decimal(m) == Decimal(n)
    ensures m == n
  {
    var a, b := Decimal(m), Decimal(n);
    assert a[|a| - 1] == b[|b| - 1] && a[..|a| - 1] == b[..|b| - 1];
    DigitInjective(m % 10, n % 10);
    if m >= 10 && n >= 10 {
      assert a[..|a| - 1] == Decimal(m / 10) && b[..|b| - 1] == Decimal(n / 10);
      DecimalInjective(m / 10, n / 10);
    } else {
      assert m < 10 ==> |a| == 1;
      assert n < 10 ==> |b| == 1;
      assert m >= 10 ==> |a| > 1;
      assert n >= 10 ==> |b| > 1;
    }
  }

  lemma DigitInjective(a: nat, b: nat)
    requires a < 10 && b < 10 && "0123456789"[a] == "0123456789"[b]
    ensures a == b
  {
  }

  /** The destination itself, then `__dup1`, `__dup2`, … */
  function DestAt(dest: Path, n: nat): (p: Path)
    requires dest != []
    ensures |p| == |dest| && Parent(p) == Parent(dest)
  {
    if n == 0 then dest else Parent(dest) + [dest[|dest| - 1] + "__dup" + Decimal(n)]
  }

  lemma DestAtInjective(dest: Path, m: nat, n: nat)
    requires dest != [] && DestAt(dest, m) == DestAt(dest, n)
    ensures m == n
  {
    var last := dest[|dest| - 1];
    var a := if m == 0 then last else last + "__dup" + Decimal(m);
    var b := if n == 0 then last else last + "__dup" + Decimal(n);
    assert a == DestAt(dest, m)[|dest| - 1] && b == DestAt(dest, n)[|dest| - 1];
    if m > 0 && n > 0 {
      assert Decimal(m) == a[|last| + 5..] && Decimal(n) == b[|last| + 5..];
      DecimalInjective(m, n);
    } else {
      assert m > 0 ==> |a| > |last|;
      assert n > 0 ==> |b| > |last|;
    }
  }

  function AllPaths(t: Tree): set<Path> {
    t.files.Keys + t.dirs
  }

  ghost function Tried(dest: Path, n: nat): set<Path>
    requires dest != []
  {
    set k | 0 <= k < n :: DestAt(dest, k)
  }

  /** How many existing paths are not among the first `n` names. */
  ghost function Untried(t: Tree, dest: Path, n: nat): nat
    requires dest != []
  {
    |AllPaths(t) - Tried(dest, n)|
  }

  /** Every name that exists is used up once, so the search for a free one ends. */
  lemma TriesRunOut(t: Tree, dest: Path, n: nat)
    requires dest != [] && Exists(t, DestAt(dest, n))
    ensures Untried(t, dest, n + 1) < Untried(t, dest, n)
  {
    hide DestAt;
    var before, after := AllPaths(t) - Tried(dest, n), AllPaths(t) - Tried(dest, n + 1);
    if k :| 0 <= k < n && DestAt(dest, k) == DestAt(dest, n) {
      DestAtInjective(dest, k, n);
    }
    assert DestAt(dest, n) in before && DestAt(dest, n) in Tried(dest, n + 1);
    assert after <= before - {DestAt(dest, n)};
    Smaller(after, before, DestAt(dest, n));
  }

  lemma Smaller(small: set<Path>, big: set<Path>, p: Path)
    requires p in big && small <= big - {p}
    ensures |small| < |big|
  {
    assert small + (big - small) == big;
    assert |small| + |big - small| == |big|;
  }

  /** The first suffix from `n` on whose name is free. */
  function FreshFrom(t: Tree, dest: Path, n: nat): (r: nat)
    requires dest != []
    ensures r >= n && !Exists(t, DestAt(dest, r))
    decreases Untried(t, dest, n)
  {
    if Exists(t, DestAt(dest, n)) then
      TriesRunOut(t, dest, n);
      FreshFrom(t, dest, n + 1)
    else n
  }

  /** No earlier suffix will do. */
  lemma {:induction false} FreshIsFirst(t: Tree, dest: Path, n: nat, k: nat)
    requires dest != [] && n <= k < FreshFrom(t, dest, n)
    ensures Exists(t, DestAt(dest, k))
    decreases k - n
  {
    hide DestAt, Exists, Untried;
    if n < k {
      FreshIsFirst(t, dest, n + 1, k);
    }
  }

  function UniqueDest(t: Tree, dest: Path): (p: Path)
    requires dest != []
    ensures |p| == |dest| && Parent(p) == Parent(dest) && !Exists(t, p)
  {
    DestAt(dest, FreshFrom(t, dest, 0))
  }

  // ----- the steps of a run --------------------------------------------------------------------

  predicate UnderQuarantine(q: Path) {
    ["data", "quarantine"] <= q
  }

  /** Moves one extra path below the quarantine directory, if it is still there. */
  function MoveOne(t: Tree, q: Path, extra: Path): Step
    requires q != []
  {
    if !Exists(t, extra) then Step(t, true) else
    var mk := MkdirParents(t, Parent(q + extra));
    if !mk.ok then mk else Step(Move(mk.tree, extra, UniqueDest(mk.tree, q + extra)), true)
  }

  function MoveAll(t: Tree, q: Path, extras: seq<Path>): Step
    requires q != []
    decreases |extras|
  {
    if extras == [] then Step(t, true) else
    var s := MoveOne(t, q, extras[0]);
    if s.ok then MoveAll(s.tree, q, extras[1..]) else s
  }

  /** Where a path is after one extra path has been moved. */
  function PlaceAfter(t: Tree, q: Path, extra: Path, p: Path): Path
    requires q != []
  {
    var mk := MkdirParents(t, Parent(q + extra));
    if !Exists(t, extra) || !mk.ok then p else Relocated(p, extra, UniqueDest(mk.tree, q + extra))
  }

  /** Where a path is after the extra paths have been moved one after the other, each to
      the first free name at that time. */
  function PlaceOf(t: Tree, q: Path, extras: seq<Path>, p: Path): Path
    requires q != []
    decreases |extras|
  {
    if extras == [] || !MoveOne(t, q, extras[0]).ok then p
    else PlaceOf(MoveOne(t, q, extras[0]).tree, q, extras[1..], PlaceAfter(t, q, extras[0], p))
  }

  /** What the restorer asks of other programs: version control, which holds a path as a
      file or not at all, the builder of virtual environments and the package installer,
      which may do anything to the tree and may fail. */
  datatype Outside = Outside(git: Path -> Option<Content>, venv: Tree -> Step, npm: Tree -> Step)

  const VENV: Path := [".venv"]
  const NODE_MODULES: Path := ["apps", "chat_ui", "node_modules"]
  const PACKAGE_LOCK: Path := ["apps", "chat_ui", "package-lock.json"]

  /** Git brings back the file, where no file stands in the way of its directories. */
  function GitRestore(t: Tree, out: Outside, entry: Path): Option<Tree>
    requires entry != []
  {
    if !Exists(t, [".git"]) || out.git(entry).None? || Blocked(t, Parent(entry)) then None
    else Some(Put(t, entry, out.git(entry).value))
  }

  function Unlink(t: Tree, p: Path): Tree {
    t.(files := t.files - {p})
  }

  /** The file as version control has it, or an empty file. */
  function RestoreFile(t: Tree, out: Outside, entry: Path): Step {
    if Exists(t, entry) || entry == [] then Step(t, true)
    else
      match GitRestore(t, out, entry)
      case Some(restored) => Step(restored, true)
      case None => if Blocked(t, Parent(entry)) then Step(t, false) else Step(Put(t, entry, []), true)
  }

  /** The branches that build the virtual environment and install packages. */
  function SetUp(t: Tree, out: Outside, entry: Path): Step {
    if entry == VENV then
      var made := MkdirParents(Unlink(t, entry), entry);
      if made.ok then out.venv(made.tree) else made
    else if entry == NODE_MODULES && Exists(t, PACKAGE_LOCK) then out.npm(t)
    else Step(t, true)
  }

  /** Creates one missing entry: a directory, or a file and what belongs to it. */
  function RestoreOne(t: Tree, allowed: set<Path>, out: Outside, entry: Path): Step {
    if IsDirEntry(entry, allowed) then MkdirParents(Unlink(t, entry), entry)
    else
      var s := RestoreFile(t, out, entry);
      if s.ok then SetUp(s.tree, out, entry) else s
  }

  /** Known directories are directory entries, so nothing is ever set up. */
  lemma NothingSetUp(t: Tree, allowed: set<Path>, out: Outside, entry: Path)
    ensures !IsDirEntry(entry, allowed) ==> RestoreOne(t, allowed, out, entry) == RestoreFile(t, out, entry)
  {
    hide RestoreFile, MkdirParents;
    assert VENV in KNOWN_DIRS && NODE_MODULES in KNOWN_DIRS;
  }

  /** How many of the missing entries are created before the first failure, if any. */
  function RestoredCount(t: Tree, allowed: set<Path>, out: Outside, missing: seq<Path>): (n: nat)
    ensures n <= |missing|
    ensures RestoreAll(t, allowed, out, missing).ok ==> n == |missing|
    decreases |missing|
  {
    if missing == [] || !RestoreOne(t, allowed, out, missing[0]).ok then 0
    else 1 + RestoredCount(RestoreOne(t, allowed, out, missing[0]).tree, allowed, out, missing[1..])
  }

  function RestoreAll(t: Tree, allowed: set<Path>, out: Outside, missing: seq<Path>): Step
    decreases |missing|
  {
    if missing == [] then Step(t, true) else
    var s := RestoreOne(t, allowed, out, missing[0]);
    if s.ok then RestoreAll(s.tree, allowed, out, missing[1..]) else s
  }

  function Apply(t: Tree, allowed: set<Path>, out: Outside, q: Path, r: Report): Step
    requires q != []
  {
    var moved := MoveAll(t, q, r.extraFiles + r.extraDirs);
    if moved.ok then RestoreAll(moved.tree, allowed, out, r.missing) else moved
  }

  /** The quarantine directory is made, and must lie in `data/quarantine`. */
  function EnsureQuarantine(t: Tree, q: Path): Step {
    if UnderQuarantine(q) then MkdirParents(t, q) else Step(t, false)
  }
}
