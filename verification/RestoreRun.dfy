/** What a whole run keeps: every file is somewhere, nothing the allowlist names is
    moved, and a run that goes through leaves nothing more to do. */
module RestoreRun {
  import opened Wrappers
  import opened RestorePlan
  import opened RestoreMoves

  // ----- the account of a run -----------------------------------------------------------------

  predicate Untouched(x: Path, handled: set<Path>) {
    forall e :: e in handled ==> !(e <= x)
  }

  predicate Wanted(x: Path, allowed: set<Path>) {
    exists a :: a in allowed && x <= a
  }

  /** Where everything in the tree comes from: the quarantine, the allowlist, or the tree
      at the start, apart from what has been handled. */
  ghost predicate Accounted(t0: Tree, t: Tree, q: Path, allowed: set<Path>, handled: set<Path>) {
    && (forall x :: x in t.files ==> q <= x || x in allowed || (x in t0.files && Untouched(x, handled)))
    && (forall x :: x in t.dirs ==> q <= x || x <= q || Wanted(x, allowed) || (x in t0.dirs && Untouched(x, handled)))
  }

  /** Every allowlisted path that existed still does. */
  ghost predicate Kept(t0: Tree, t: Tree, allowed: set<Path>) {
    forall a :: a in allowed && Exists(t0, a) ==> Exists(t, a)
  }

  /** `f` tells where each file has gone: to its own place below the quarantine or nowhere.
      Its content is there, unless a directory has taken the place. */
  ghost predicate Conserved(t0: Tree, t: Tree, f: map<Path, Path>, q: Path, handled: set<Path>, gone: set<Path>) {
    && f.Keys == t0.files.Keys
    && (forall p, p' :: p in f && p' in f && f[p] == f[p'] ==> p == p')
    && (forall p :: p in f ==> f[p] == p || (q <= f[p] && !Untouched(p, handled)))
    && (forall p :: p in f ==> f[p] in gone || (f[p] in t.files && t.files[f[p]] == t0.files[p]))
  }

  ghost predicate Good(t0: Tree, t: Tree, q: Path, allowed: set<Path>, handled: set<Path>, f: map<Path, Path>,
                       gone: set<Path>) {
    && WellFormed(t) && Accounted(t0, t, q, allowed, handled) && Kept(t0, t, allowed)
    && Conserved(t0, t, f, q, handled, gone)
  }

  /** An extra path may be moved: it is not protected, and nothing existing at or below
      it is allowlisted. */
  ghost predicate MayMove(t0: Tree, allowed: set<Path>, e: Path) {
    !IsProtected(e) && forall a :: a in allowed && Exists(t0, a) ==> !(e <= a)
  }

  lemma ReportMayMove(t0: Tree, entries: seq<Path>, r: Report, e: Path)
    requires WellFormed(t0) && IsReport(t0, entries, r) && (e in r.extraFiles || e in r.extraDirs)
    ensures MayMove(t0, SetOf(entries), e)
  {
    hide IsProtected, Reached;
    var allowed := SetOf(entries);
    if e in r.extraFiles {
      forall a | a in allowed && Exists(t0, a) ensures !(e <= a) {
        NotBelowFile(t0, e, a);
      }
    } else {
      OnlyCandidates(t0, allowed);
    }
  }

  lemma NotBelowFile(t: Tree, file: Path, x: Path)
    requires WellFormed(t) && file in t.files && Exists(t, x) && x != file
    ensures !(file <= x)
  {
    if file <= x {
      StrictlyBelow(t, file, x);
    }
  }

  lemma StrictlyBelow(t: Tree, p: Path, x: Path)
    requires WellFormed(t) && Exists(t, x) && x != p && p <= x
    ensures p in t.dirs
  {
    var tail := x[|p|..];
    assert x == p + tail && x[..|p|] == p;
    assert tail == [] ==> p + tail == p;
  }

  /** What may be moved has nothing to do with the quarantine. */
  lemma Unrelated(q: Path, e: Path)
    requires UnderQuarantine(q) && !IsProtected(e)
    ensures !(e <= q) && !(q <= e)
  {
    var keep: Path := ["data", "target_tree_allowlist.txt"];
    assert keep in ALWAYS_KEEP;
    assert q[0] == "data" && q[1] == "quarantine";
    assert !(e <= keep);
    assert |e| == 1 && e[0] == "data" ==> e <= keep;
    assert |e| >= 2 && e[0] == "data" && e[1] == "quarantine" ==> ["data", "quarantine"] <= e;
  }

  lemma NotBothBelow(q: Path, e: Path, x: Path)
    requires e <= x && q <= x
    ensures e <= q || q <= e
  {
  }

  // ----- moving -----------------------------------------------------------------------------------

  /** The tree with the directories for the destination, and the destination. */
  lemma MoveOneParts(t: Tree, q: Path, extra: Path) returns (mid: Tree, dst: Path)
    requires WellFormed(t) && UnderQuarantine(q) && !IsProtected(extra)
    requires Exists(t, extra) && MoveOne(t, q, extra).ok
    ensures MoveOne(t, q, extra).tree == Move(mid, extra, dst)
    ensures WellFormed(mid) && CanMove(mid, extra, dst) && q <= dst
    ensures mid.files == t.files && forall x :: x in mid.dirs ==> x in t.dirs || x <= q || q <= x
    ensures t.dirs <= mid.dirs
    ensures forall p :: PlaceAfter(t, q, extra, p) == Relocated(p, extra, dst)
  {
    NotTheRoot(extra);
    hide IsProtected, WellFormed, Move, Blocked, DestAt;
    var up := Parent(q + extra);
    var mk := MkdirParents(t, up);
    mid, dst := mk.tree, UniqueDest(mk.tree, q + extra);
    MkdirWellFormed(t, up);
    Unrelated(q, extra);
    assert q <= up && up == Parent(dst) && up in mid.dirs;
    assert q <= dst by { assert dst[..|dst| - 1] == up; }
    assert !(extra <= dst) by {
      if extra <= dst { NotBothBelow(q, extra, dst); }
    }
    forall x | x in mid.dirs ensures x in t.dirs || x <= q || q <= x {
      if x <= up { Comparable(q, x, up); }
    }
  }

  lemma NotTheRoot(e: Path)
    requires !IsProtected(e)
    ensures e != []
  {
  }

  lemma Comparable(q: Path, x: Path, up: Path)
    requires q <= up && x <= up
    ensures x <= q || q <= x
  {
  }

  lemma MoveAccounted(t0: Tree, t: Tree, q: Path, allowed: set<Path>, handled: set<Path>, mid: Tree, extra: Path,
                      dst: Path)
    requires Accounted(t0, t, q, allowed, handled) && WellFormed(mid) && CanMove(mid, extra, dst) && q <= dst
    requires mid.files == t.files && forall x :: x in mid.dirs ==> x in t.dirs || x <= q || q <= x
    ensures Accounted(t0, Move(mid, extra, dst), q, allowed, handled + {extra})
  {
    hide WellFormed, CanMove, Move, Wanted;
    var t' := Move(mid, extra, dst);
    forall x | Exists(t', x)
      ensures q <= x || (!(extra <= x) && (x in t'.files ==> x in t.files) && (x !in t'.files ==> x in mid.dirs))
    {
      var p := MovedFrom(mid, extra, dst, x);
      if extra <= p {
        assert dst <= x;
      }
    }
    forall x | x in t'.dirs ensures x in t'.files ==> x in t'.dirs {}
    DirsNotFiles(mid, extra, dst);
  }

  lemma DirsNotFiles(t: Tree, src: Path, dst: Path)
    requires WellFormed(t) && CanMove(t, src, dst)
    ensures Move(t, src, dst).files.Keys !! Move(t, src, dst).dirs
  {
    hide Move, CanMove;
    MoveWellFormed(t, src, dst);
  }

  lemma MoveKept(t0: Tree, t: Tree, allowed: set<Path>, mid: Tree, extra: Path, dst: Path)
    requires Kept(t0, t, allowed) && MayMove(t0, allowed, extra) && WellFormed(mid) && CanMove(mid, extra, dst)
    requires mid.files == t.files && t.dirs <= mid.dirs
    ensures Kept(t0, Move(mid, extra, dst), allowed)
  {
    hide WellFormed, CanMove, IsProtected;
    MoveFiles(mid, extra, dst);
    forall a | a in allowed && Exists(t0, a) ensures Exists(Move(mid, extra, dst), a) {
      assert Exists(mid, a);
      assert Relocated(a, extra, dst) == a;
    }
  }

  lemma MovedPath(t: Tree, q: Path, extra: Path, dst: Path, x: Path)
    requires WellFormed(t) && CanMove(t, extra, dst) && q <= dst && UnderQuarantine(q) && !IsProtected(extra)
    requires x in t.files
    ensures Origin(Relocated(x, extra, dst), extra, dst) == x
    ensures if extra <= x then q <= Relocated(x, extra, dst) else Relocated(x, extra, dst) == x
    ensures q <= x ==> Relocated(x, extra, dst) == x
  {
    hide IsProtected, WellFormed, Relocated, Origin;
    NothingBelow(t, dst, x);
    OriginOfRelocated(x, extra, dst);
    Unrelated(q, extra);
    WhereTo(x, q, extra, dst);
  }

  /** Where `f` puts the files, after a further move. */
  ghost function Onwards(f: map<Path, Path>, t: Tree, q: Path, extra: Path): map<Path, Path>
    requires q != []
  {
    map p | p in f :: PlaceAfter(t, q, extra, f[p])
  }

  lemma MoveConserved(t0: Tree, t: Tree, f: map<Path, Path>, q: Path, handled: set<Path>, mid: Tree, extra: Path,
                      dst: Path)
    requires Conserved(t0, t, f, q, handled, {}) && WellFormed(mid) && CanMove(mid, extra, dst) && q <= dst
    requires mid.files == t.files && UnderQuarantine(q) && !IsProtected(extra)
    requires forall p :: PlaceAfter(t, q, extra, p) == Relocated(p, extra, dst)
    ensures Conserved(t0, Move(mid, extra, dst), Onwards(f, t, q, extra), q, handled + {extra}, {})
  {
    hide WellFormed, CanMove, IsProtected, Relocated, Origin, Move, Image, Untouched, PlaceAfter;
    var f' := Onwards(f, t, q, extra);
    MoveFiles(mid, extra, dst);
    forall p | p in f
      ensures Origin(f'[p], extra, dst) == f[p]
      ensures f'[p] == p || (q <= f'[p] && !Untouched(p, handled + {extra}))
    {
      MovedPath(mid, q, extra, dst, f[p]);
      MoreTouched(p, handled, extra);
    }
  }

  lemma MoreTouched(p: Path, handled: set<Path>, extra: Path)
    ensures extra <= p || !Untouched(p, handled) <==> !Untouched(p, handled + {extra})
  {
  }

  lemma WhereTo(p: Path, q: Path, extra: Path, dst: Path)
    requires q <= dst && !(extra <= q) && !(q <= extra)
    ensures if extra <= p then q <= Relocated(p, extra, dst) else Relocated(p, extra, dst) == p
    ensures q <= p ==> Relocated(p, extra, dst) == p
  {
    if extra <= p && q <= p {
      NotBothBelow(q, extra, p);
    }
  }

  lemma MoveOneGood(t0: Tree, t: Tree, q: Path, allowed: set<Path>, handled: set<Path>, f: map<Path, Path>, extra: Path)
    requires Good(t0, t, q, allowed, handled, f, {}) && UnderQuarantine(q) && MayMove(t0, allowed, extra)
    requires MoveOne(t, q, extra).ok
    ensures Good(t0, MoveOne(t, q, extra).tree, q, allowed, handled + {extra}, Onwards(f, t, q, extra), {})
  {
    hide WellFormed, Accounted, Kept, Conserved, IsProtected, CanMove, Move, UniqueDest, MkdirParents;
    if Exists(t, extra) {
      var mid, dst := MoveOneParts(t, q, extra);
      MoveWellFormed(mid, extra, dst);
      MoveAccounted(t0, t, q, allowed, handled, mid, extra, dst);
      MoveKept(t0, t, allowed, mid, extra, dst);
      MoveConserved(t0, t, f, q, handled, mid, extra, dst);
    } else {
      AlreadyGone(t0, t, q, allowed, handled, f, extra);
      assert Onwards(f, t, q, extra) == f;
    }
  }

  lemma AlreadyGone(t0: Tree, t: Tree, q: Path, allowed: set<Path>, handled: set<Path>, f: map<Path, Path>, extra: Path)
    requires Good(t0, t, q, allowed, handled, f, {}) && !Exists(t, extra)
    ensures Good(t0, t, q, allowed, handled + {extra}, f, {})
  {
    hide WellFormed;
    forall x | Exists(t, x) ensures !(extra <= x) && (Untouched(x, handled) ==> Untouched(x, handled + {extra})) {
      NothingBelow(t, extra, x);
    }
    assert forall p :: Untouched(p, handled + {extra}) ==> Untouched(p, handled);
  }

  /** Where `f` puts the files, after all the moves. */
  ghost function Places(f: map<Path, Path>, t: Tree, q: Path, extras: seq<Path>): map<Path, Path>
    requires q != []
  {
    map p | p in f :: PlaceOf(t, q, extras, f[p])
  }

  lemma PlacesOnwards(f: map<Path, Path>, t: Tree, q: Path, extras: seq<Path>)
    requires q != []
    ensures extras == [] || !MoveOne(t, q, extras[0]).ok ==> Places(f, t, q, extras) == f
    ensures extras != [] && MoveOne(t, q, extras[0]).ok ==>
              Places(f, t, q, extras)
              == Places(Onwards(f, t, q, extras[0]), MoveOne(t, q, extras[0]).tree, q, extras[1..])
  {
    hide MoveOne, PlaceAfter;
  }

  /** The moves keep everything, and put each file where `PlaceOf` says. */
  lemma {:induction false} MoveAllGood(t0: Tree, t: Tree, q: Path, allowed: set<Path>, handled: set<Path>,
                                       f: map<Path, Path>,
                                       extras: seq<Path>)
    returns (handled': set<Path>)
    requires Good(t0, t, q, allowed, handled, f, {}) && UnderQuarantine(q)
    requires forall e :: e in extras ==> MayMove(t0, allowed, e)
    ensures Good(t0, MoveAll(t, q, extras).tree, q, allowed, handled', Places(f, t, q, extras), {})
    ensures handled' <= handled + SetOf(extras)
    ensures MoveAll(t, q, extras).ok ==> handled' == handled + SetOf(extras)
    decreases |extras|
  {
    hide Good, MayMove, Places, Onwards;
    handled' := handled;
    assert SetOf([]) == {};
    PlacesOnwards(f, t, q, extras);
    if extras != [] {
      var s := MoveOne(t, q, extras[0]);
      if s.ok {
        MoveOneGood(t0, t, q, allowed, handled, f, extras[0]);
        handled' := MoveAllGood(t0, s.tree, q, allowed, handled + {extras[0]}, Onwards(f, t, q, extras[0]),
                                extras[1..]);
        assert SetOf(extras) == {extras[0]} + SetOf(extras[1..]);
      }
    }
  }

  // ----- restoring --------------------------------------------------------------------------------

  /** Entries that stand for directories. */
  function DirEntries(missing: seq<Path>, allowed: set<Path>): set<Path> {
    set e | e in missing && IsDirEntry(e, allowed)
  }

  /** The tree a step grows into: more directories on the way to the entry, and perhaps
      the entry as a file. */
  ghost predicate Grown(t: Tree, t': Tree, entry: Path) {
    && t.dirs <= t'.dirs
    && (forall x :: x in t'.dirs ==> x in t.dirs || x <= entry)
    && (forall x :: x in t'.files ==> x in t.files || x == entry)
    && (forall x :: x in t.files && x != entry ==> x in t'.files && t'.files[x] == t.files[x])
  }

  lemma UnlinkWellFormed(t: Tree, p: Path)
    requires WellFormed(t)
    ensures WellFormed(Unlink(t, p))
    ensures p in t.files ==> !Blocked(Unlink(t, p), p)
  {
    assert p[..|p|] == p;
    assert p in t.files ==> forall i :: 0 <= i < |p| ==> p[..i] in t.dirs;
  }

  lemma ParentPrefixes(p: Path)
    requires p != []
    ensures Prefixes(Parent(p)) <= Prefixes(p)
  {
    assert p == Parent(p) + [p[|p| - 1]];
  }

  lemma RestoreOneGrows(t: Tree, allowed: set<Path>, out: Outside, entry: Path)
    requires WellFormed(t)
    ensures var s := RestoreOne(t, allowed, out, entry);
            if s.ok then WellFormed(s.tree) && Grown(t, s.tree, entry) && Exists(s.tree, entry) else s.tree == t
    ensures var s := RestoreOne(t, allowed, out, entry);
            IsDirEntry(entry, allowed) && s.ok ==> entry in s.tree.dirs
    ensures !IsDirEntry(entry, allowed) && entry in t.files ==> RestoreOne(t, allowed, out, entry).tree == t
  {
    hide IsDirEntry, WellFormed, Blocked, SetUp;
    NothingSetUp(t, allowed, out, entry);
    if IsDirEntry(entry, allowed) {
      UnlinkWellFormed(t, entry);
      MkdirWellFormed(Unlink(t, entry), entry);
      assert entry !in t.files ==> Unlink(t, entry) == t;
    } else if !Exists(t, entry) && entry != [] && !Blocked(t, Parent(entry)) {
      PutWellFormed(t, entry, []);
      if out.git(entry).Some? { PutWellFormed(t, entry, out.git(entry).value); }
      ParentPrefixes(entry);
    } else if entry == [] {
      RootExists(t);
    }
  }

  lemma RootExists(t: Tree)
    requires WellFormed(t)
    ensures Exists(t, [])
  {
  }

  lemma RestoreOneGood(t0: Tree, t: Tree, q: Path, allowed: set<Path>, handled: set<Path>, f: map<Path, Path>,
                       gone: set<Path>,
                       out: Outside, entry: Path)
    requires Good(t0, t, q, allowed, handled, f,
                  gone) && entry in allowed && (IsDirEntry(entry, allowed) ==> entry in gone)
    ensures Good(t0, RestoreOne(t, allowed, out, entry).tree, q, allowed, handled, f, gone)
  {
    hide IsDirEntry, WellFormed, RestoreOne, Untouched;
    RestoreOneGrows(t, allowed, out, entry);
  }

  /** Once there, an entry stays. */
  lemma {:induction false} RestoreAllGrows(t: Tree, allowed: set<Path>, out: Outside, missing: seq<Path>)
    requires WellFormed(t)
    ensures var s := RestoreAll(t, allowed, out, missing);
            && WellFormed(s.tree) && t.dirs <= s.tree.dirs
            && (forall x :: Exists(t, x) ==> Exists(s.tree, x))
            && (s.ok ==>
                  forall e :: e in missing ==>
                    Exists(s.tree, e) && (IsDirEntry(e, allowed) ==> e in s.tree.dirs))
    decreases |missing|
  {
    hide IsDirEntry, WellFormed, RestoreOne;
    if missing != [] {
      RestoreOneGrows(t, allowed, out, missing[0]);
      var s := RestoreOne(t, allowed, out, missing[0]);
      if s.ok {
        RestoreAllGrows(s.tree, allowed, out, missing[1..]);
      }
    }
  }

  lemma {:induction false} RestoreAllGood(t0: Tree, t: Tree, q: Path, allowed: set<Path>, handled: set<Path>,
                                          f: map<Path, Path>,
                                          gone: set<Path>, out: Outside, missing: seq<Path>)
    requires Good(t0, t, q, allowed, handled, f, gone)
    requires forall e :: e in missing ==> e in allowed && (IsDirEntry(e, allowed) ==> e in gone)
    ensures Good(t0, RestoreAll(t, allowed, out, missing).tree, q, allowed, handled, f, gone)
    decreases |missing|
  {
    hide IsDirEntry, Good, RestoreOne;
    if missing != [] {
      RestoreOneGood(t0, t, q, allowed, handled, f, gone, out, missing[0]);
      var s := RestoreOne(t, allowed, out, missing[0]);
      if s.ok {
        RestoreAllGood(t0, s.tree, q, allowed, handled, f, gone, out, missing[1..]);
      }
    }
  }

  /** A file that a directory entry claims is gone once the entry is created, and for
      good; every other file stays, with its content. */
  lemma {:induction false} RestoreAllExact(t: Tree, allowed: set<Path>, out: Outside, missing: seq<Path>, x: Path)
    requires WellFormed(t) && x in t.files
    ensures var t', n := RestoreAll(t, allowed, out, missing).tree, RestoredCount(t, allowed, out, missing);
            (x in t'.files && t'.files[x] == t.files[x]) <==> x !in DirEntries(missing[..n], allowed)
    decreases |missing|
  {
    hide IsDirEntry, WellFormed, RestoreOne;
    if missing != [] {
      var entry, s, n := missing[0], RestoreOne(t, allowed, out, missing[0]), RestoredCount(t, allowed, out, missing);
      RestoreOneGrows(t, allowed, out, entry);
      if s.ok {
        assert missing[..n] == [entry] + missing[1..][..n - 1];
        if x == entry && IsDirEntry(entry, allowed) {
          RestoreAllGrows(s.tree, allowed, out, missing[1..]);
          Apart(RestoreAll(s.tree, allowed, out, missing[1..]).tree, x);
        } else {
          RestoreAllExact(s.tree, allowed, out, missing[1..], x);
        }
      }
    }
  }

  lemma Apart(t: Tree, p: Path)
    requires WellFormed(t) && p in t.dirs
    ensures p !in t.files
  {
  }

  // ----- whole runs -----------------------------------------------------------------------------------

  /** A run with `--apply`: analyse, make the quarantine, act on the report. */
  function Run(t: Tree, entries: seq<Path>, out: Outside, q: Path, r: Report): Step {
    var ready := EnsureQuarantine(t, q);
    if ready.ok then Apply(ready.tree, SetOf(entries), out, q, r) else ready
  }

  /** The place a run moves a path to. */
  function PlaceInRun(t: Tree, q: Path, r: Report, p: Path): Path {
    var ready := EnsureQuarantine(t, q);
    if ready.ok then PlaceOf(ready.tree, q, r.extraFiles + r.extraDirs, p) else p
  }

  /** The directory entries a run creates, all those missing if it goes through. */
  function Claimed(t: Tree, entries: seq<Path>, out: Outside, q: Path, r: Report): (c: set<Path>)
    ensures c <= DirEntries(r.missing, SetOf(entries))
    ensures Run(t, entries, out, q, r).ok ==> c == DirEntries(r.missing, SetOf(entries))
  {
    var allowed, ready := SetOf(entries), EnsureQuarantine(t, q);
    if !ready.ok then {} else
    var moved := MoveAll(ready.tree, q, r.extraFiles + r.extraDirs);
    if !moved.ok then {} else
    var n := RestoredCount(moved.tree, allowed, out, r.missing);
    assert n == |r.missing| ==> r.missing[..n] == r.missing;
    DirEntries(r.missing[..n], allowed)
  }

  lemma StartsGood(t0: Tree, q: Path, allowed: set<Path>)
    requires WellFormed(t0) && UnderQuarantine(q)
    ensures Good(t0, EnsureQuarantine(t0, q).tree, q, allowed, {}, map p | p in t0.files :: p, {})
  {
    MkdirWellFormed(t0, q);
  }

  lemma GoodWithGone(t0: Tree, t: Tree, q: Path, allowed: set<Path>, handled: set<Path>, f: map<Path, Path>,
                     gone: set<Path>)
    requires Good(t0, t, q, allowed, handled, f, {})
    ensures Good(t0, t, q, allowed, handled, f, gone)
  {
    hide WellFormed, Accounted, Kept, Untouched;
  }

  /** Where a run puts each file of the tree. */
  ghost function RunPlaces(t0: Tree, q: Path, r: Report): (f: map<Path, Path>)
    ensures f.Keys == t0.files.Keys && forall p :: p in f ==> f[p] == PlaceInRun(t0, q, r, p)
  {
    map p | p in t0.files :: PlaceInRun(t0, q, r, p)
  }

  /** A run worth speaking of: an analysed tree and a quarantine in its place. */
  ghost predicate Ready(t0: Tree, entries: seq<Path>, q: Path, r: Report) {
    WellFormed(t0) && IsReport(t0, entries, r) && UnderQuarantine(q)
  }

  /** The moves of a run, whether they all go through or not. */
  lemma MovesGood(t0: Tree, entries: seq<Path>, q: Path, r: Report) returns (handled: set<Path>)
    requires Ready(t0, entries, q, r) && EnsureQuarantine(t0, q).ok
    ensures var moved, extras := MoveAll(EnsureQuarantine(t0, q).tree, q,
                                         r.extraFiles + r.extraDirs), SetOf(r.extraFiles + r.extraDirs);
            && Good(t0, moved.tree, q, SetOf(entries), handled, RunPlaces(t0, q, r), {})
            && handled <= extras && (moved.ok ==> handled == extras)
  {
    hide Good, IsProtected, WellFormed, MayMove, MoveAll, PlaceOf, EnsureQuarantine, ExtraFiles, ExtraDirs;
    var allowed, extras, ready := SetOf(entries), r.extraFiles + r.extraDirs, EnsureQuarantine(t0, q);
    StartsGood(t0, q, allowed);
    forall e | e in extras ensures MayMove(t0, allowed, e) {
      ReportMayMove(t0, entries, r, e);
    }
    var f := map p | p in t0.files :: p;
    handled := MoveAllGood(t0, ready.tree, q, allowed, {}, f, extras);
    assert Places(f, ready.tree, q, extras) == RunPlaces(t0, q, r);
  }

  /** The account of a run, whether it goes through or raises on the way. */
  lemma RunGood(t0: Tree, entries: seq<Path>, out: Outside, q: Path, r: Report) returns (handled: set<Path>)
    requires Ready(t0, entries, q, r)
    ensures var s, extras := Run(t0, entries, out, q, r), SetOf(r.extraFiles + r.extraDirs);
            && Good(t0, s.tree, q, SetOf(entries), handled, RunPlaces(t0, q, r), DirEntries(r.missing, SetOf(entries)))
            && handled <= extras && (s.ok ==> handled == extras)
  {
    hide Good, WellFormed, IsReport, MoveAll, RestoreAll, EnsureQuarantine, PlaceOf, IsDirEntry;
    var allowed, ready := SetOf(entries), EnsureQuarantine(t0, q);
    var gone := DirEntries(r.missing, allowed);
    if ready.ok {
      handled := MovesGood(t0, entries, q, r);
      var moved := MoveAll(ready.tree, q, r.extraFiles + r.extraDirs);
      GoodWithGone(t0, moved.tree, q, allowed, handled, RunPlaces(t0, q, r), gone);
      if moved.ok {
        MissingAllowed(t0, entries, r);
        RestoreAllGood(t0, moved.tree, q, allowed, handled, RunPlaces(t0, q, r), gone, out, r.missing);
      }
    } else {
      handled := {};
      StartsGood(t0, q, allowed);
      assert RunPlaces(t0, q, r) == map p | p in t0.files :: p;
      GoodWithGone(t0, ready.tree, q, allowed, handled, RunPlaces(t0, q, r), gone);
    }
  }

  lemma MissingAllowed(t0: Tree, entries: seq<Path>, r: Report)
    requires IsReport(t0, entries, r)
    ensures forall e :: e in r.missing ==> e in SetOf(entries)
  {
    hide ExtraFiles, ExtraDirs;
  }

  /** Every run gives each file a place of its own. Only files at or below an extra path
      go anywhere, and those go below the quarantine; allowlisted files stay. */
  lemma PlacesApart(t0: Tree, entries: seq<Path>, q: Path, r: Report)
    requires Ready(t0, entries, q, r)
    ensures forall p, p' ::
              p in t0.files && p' in t0.files && PlaceInRun(t0, q, r, p) == PlaceInRun(t0, q, r, p') ==> p == p'
    ensures forall p :: p in t0.files && PlaceInRun(t0, q, r, p) != p ==>
              && q <= PlaceInRun(t0, q, r, p) && p !in entries
              && exists e :: (e in r.extraFiles || e in r.extraDirs) && e <= p
  {
    hide WellFormed, Accounted, Kept, IsProtected, IsReport, IsDirEntry, PlaceInRun, Run;
    var f := RunPlaces(t0, q, r);
    var handled := RunGood(t0, entries, Outside(_ => None, t => Step(t, true), t => Step(t, true)), q, r);
    assert forall p, p' :: p in f && p' in f && f[p] == f[p'] ==> p == p';
    forall p | p in f && f[p] != p
      ensures q <= f[p] && p !in entries && exists e :: (e in r.extraFiles || e in r.extraDirs) && e <= p
    {
      var e :| e in handled && e <= p;
      assert e in r.extraFiles + r.extraDirs;
      assert e in r.extraFiles || e in r.extraDirs;
      ReportMayMove(t0, entries, r, e);
      assert p in entries ==> p in SetOf(entries) && Exists(t0, p);
    }
  }

  /** A run keeps the content of a file, at its place, if and only if it creates no
      directory there: one the allowlist asks for and the analysis found missing. This is
      so for every run, also one that raises; one that goes through creates them all. */
  lemma KeptExactly(t0: Tree, entries: seq<Path>, out: Outside, q: Path, r: Report, p: Path)
    requires Ready(t0, entries, q, r) && p in t0.files
    ensures var t, place := Run(t0, entries, out, q, r).tree, PlaceInRun(t0, q, r, p);
            (place in t.files && t.files[place] == t0.files[p]) <==> place !in Claimed(t0, entries, out, q, r)
  {
    hide WellFormed, Accounted, Kept, IsReport, IsDirEntry, PlaceOf, MoveAll, RestoreAll;
    var ready, place := EnsureQuarantine(t0, q), PlaceInRun(t0, q, r, p);
    assert RunPlaces(t0, q, r)[p] == place;
    if ready.ok {
      var handled := MovesGood(t0, entries, q, r);
      var moved := MoveAll(ready.tree, q, r.extraFiles + r.extraDirs);
      assert place in moved.tree.files && moved.tree.files[place] == t0.files[p];
      RestoreAllExact(moved.tree, SetOf(entries), out, r.missing, place);
    }
  }

  /** So a run that goes through loses nothing if and only if no file's place is a missing
      directory entry. */
  lemma NothingLostExactly(t0: Tree, entries: seq<Path>, out: Outside, q: Path, r: Report)
    requires Ready(t0, entries, q, r) && Run(t0, entries, out, q, r).ok
    ensures (forall p :: p in t0.files ==>
               var t, place := Run(t0, entries, out, q, r).tree, PlaceInRun(t0, q, r, p);
               place in t.files && t.files[place] == t0.files[p])
            <==> forall p :: p in t0.files ==> PlaceInRun(t0, q, r, p) !in DirEntries(r.missing, SetOf(entries))
  {
    hide Ready, Run, PlaceInRun, DirEntries;
    forall p | p in t0.files
      ensures var t, place := Run(t0, entries, out, q, r).tree, PlaceInRun(t0, q, r, p);
              (place in t.files && t.files[place] == t0.files[p]) <==> place !in DirEntries(r.missing, SetOf(entries))
    {
      KeptExactly(t0, entries, out, q, r, p);
    }
  }

  lemma RestoredAll(t0: Tree, entries: seq<Path>, out: Outside, q: Path, r: Report)
    requires Ready(t0, entries, q, r) && Run(t0, entries, out, q, r).ok
    ensures var t := Run(t0, entries, out, q, r).tree;
            forall e :: e in r.missing ==> Exists(t, e) && (IsDirEntry(e, SetOf(entries)) ==> e in t.dirs)
  {
    hide WellFormed, Accounted, Kept, Conserved, IsReport, IsDirEntry, RestoreAll, MoveAll, PlaceOf;
    var handled := MovesGood(t0, entries, q, r);
    var moved := MoveAll(EnsureQuarantine(t0, q).tree, q, r.extraFiles + r.extraDirs);
    RestoreAllGrows(moved.tree, SetOf(entries), out, r.missing);
  }

  /** Nothing at all is lost, whatever happens on the way, unless the allowlist asks for a
      directory below the very quarantine of the run. */
  lemma NothingLost(t0: Tree, entries: seq<Path>, out: Outside, q: Path, r: Report, p: Path)
    requires Ready(t0, entries, q, r) && p in t0.files
    requires forall e :: e in r.missing && q <= e ==> !IsDirEntry(e, SetOf(entries))
    ensures var t, place := Run(t0, entries, out, q, r).tree, PlaceInRun(t0, q, r, p);
            place in t.files && t.files[place] == t0.files[p] && (p in entries ==> place == p)
  {
    hide WellFormed, IsProtected, Run, IsDirEntry, ExtraFiles, ExtraDirs, PlaceInRun;
    PlacesApart(t0, entries, q, r);
    KeptExactly(t0, entries, out, q, r, p);
  }

  // ----- nothing more to do -----------------------------------------------------------------------

  lemma NoExtraFiles(t0: Tree, t: Tree, q: Path, entries: seq<Path>, r: Report)
    requires WellFormed(t0) && IsReport(t0, entries, r) && UnderQuarantine(q)
    requires Accounted(t0, t, q, SetOf(entries), SetOf(r.extraFiles + r.extraDirs))
    ensures ExtraFiles(t, SetOf(entries)) == {}
  {
    hide IsProtected, WellFormed, Reached, ExtraDirs;
    var allowed, extras := SetOf(entries), SetOf(r.extraFiles + r.extraDirs);
    forall x | x in t.files && !IsProtected(x) ensures x !in ExtraFiles(t, allowed) {
      Unrelated(q, x);
      assert x in ExtraFiles(t0, allowed) ==> x in extras && !Untouched(x, extras);
      assert x in t0.files ==> (x in ExtraFiles(t0, allowed) <==> x in ExtraFiles(t, allowed));
    }
  }

  lemma NoExtraDirs(t0: Tree, t: Tree, q: Path, entries: seq<Path>, r: Report)
    requires WellFormed(t0) && IsReport(t0, entries, r) && UnderQuarantine(q)
    requires Accounted(t0, t, q, SetOf(entries), SetOf(r.extraFiles + r.extraDirs))
    ensures ExtraDirs(t, SetOf(entries)) == {}
  {
    hide IsProtected, WellFormed, Reached, ExtraDirs, ExtraFiles;
    var allowed, extras := SetOf(entries), SetOf(r.extraFiles + r.extraDirs);
    OnlyCandidates(t, allowed);
    forall x | x in t.dirs && !IsProtected(x) ensures !IsCandidate(t, allowed, x) {
      Unrelated(q, x);
      if IsCandidate(t0, allowed, x) {
        var top := CoveredByTopmost(t0, allowed, x);
        assert top in extras;
      }
      assert x in t0.dirs ==> (IsCandidate(t0, allowed, x) <==> IsCandidate(t, allowed, x));
    }
  }

  lemma {:induction false} NoneMissing(t: Tree, entries: seq<Path>)
    requires forall e :: e in entries ==> Exists(t, e)
    ensures Missing(t, entries) == []
  {
    if entries != [] {
      NoneMissing(t, entries[1..]);
    }
  }

  /** After a run that goes through, the tree needs nothing: analysed again, it has no
      extra files, no extra directories, and nothing missing. */
  lemma LeavesNothingToDo(t0: Tree, entries: seq<Path>, out: Outside, q: Path, r: Report)
    requires Ready(t0, entries, q, r) && Run(t0, entries, out, q, r).ok
    ensures IsReport(Run(t0, entries, out, q, r).tree, entries, Report([], [], []))
  {
    hide WellFormed, Accounted, Conserved, IsProtected, Run, ExtraFiles, ExtraDirs, IsDirEntry;
    var t := Run(t0, entries, out, q, r).tree;
    var handled := RunGood(t0, entries, out, q, r);
    NoExtraFiles(t0, t, q, entries, r);
    NoExtraDirs(t0, t, q, entries, r);
    RestoredAll(t0, entries, out, q, r);
    forall e | e in entries ensures Exists(t, e) {
      assert e in r.missing || Exists(t0, e);
    }
    NoneMissing(t, entries);
  }
}
