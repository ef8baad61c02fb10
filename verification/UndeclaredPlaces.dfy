/** The directories nothing names: a test of each root that opens only the
    directories above a named one. */
module UndeclaredPlaces {

  /** A place on disk, by its elements: one list for one place, however it is spelled. */
  type Path = seq<string>

  /** A directory as it is read: the directories in it, none when it cannot be read. */
  datatype Dir = Dir(readable: bool, children: seq<Child>)
  datatype Child = Child(name: string, dir: Dir)

  datatype Report = Undeclared(path: Path) | Unread(path: Path)

  /** A directory to test; the data root is tested as one above a named directory. */
  datatype Root = Root(path: Path, above: bool, dir: Dir)

  /** path is root or lies beneath it. */
  predicate Under(root: Path, path: Path) {
    root <= path
  }

  ghost predicate WellFormed(dir: Dir) {
    && (forall i :: 0 <= i < |dir.children| ==> WellFormed(dir.children[i].dir))
    && (forall i, j :: 0 <= i < j < |dir.children| ==> dir.children[i].name != dir.children[j].name)
    && (!dir.readable ==> dir.children == [])
  }

  ghost predicate Covered(named: seq<Path>, path: Path) {
    exists i :: 0 <= i < |named| && Under(named[i], path)
  }

  ghost predicate AboveNamed(named: seq<Path>, path: Path) {
    exists i :: 0 <= i < |named| && Under(path, named[i])
  }

  /** The directory at p is the tested one or one beneath it. */
  ghost predicate HasDir(path: Path, dir: Dir, p: Path)
    decreases dir
  {
    p == path || exists i :: 0 <= i < |dir.children| && HasDir(path + [dir.children[i].name], dir.children[i].dir, p)
  }

  // ----- the test ----------------------------------------------------------------

  ghost function Reports(named: seq<Path>, path: Path, above: bool, dir: Dir): seq<Report>
    decreases dir, |dir.children| + 2
  {
    if Covered(named, path) then []
    else if !(above || AboveNamed(named, path)) then [Undeclared(path)]
    else ChildReports(named, path, dir, 0) + if dir.readable then [] else [Unread(path)]
  }

  ghost function ChildReports(named: seq<Path>, path: Path, dir: Dir, i: nat): seq<Report>
    decreases dir, |dir.children| + 1 - i
  {
    if i >= |dir.children| then []
    else Reports(named, path + [dir.children[i].name], false, dir.children[i].dir)
         + ChildReports(named, path, dir, i + 1)
  }

  ghost function RootReports(named: seq<Path>, roots: seq<Root>): seq<Report> {
    if roots == [] then []
    else Reports(named, roots[0].path, roots[0].above, roots[0].dir) + RootReports(named, roots[1..])
  }

  class Listing {
    const named: seq<Path>
    var found: seq<Report>

    constructor (named: seq<Path>)
      ensures this.named == named && found == []
    {
      this.named, found := named, [];
    }

    /** The closure that tests one directory and, above a named one, each in it. */
    method Test(path: Path, above: bool, dir: Dir)
      requires WellFormed(dir)
      modifies this`found
      ensures found == old(found) + Reports(named, path, above, dir)
      decreases dir
    {
      var opens := above;
      for i := 0 to |named|
        invariant forall k :: 0 <= k < i ==> !Under(named[k], path)
        invariant opens <==> above || exists k :: 0 <= k < i && Under(path, named[k])
      {
        if Under(named[i], path) {
          return;
        }
        opens := opens || Under(path, named[i]);
      }
      if !opens {
        found := found + [Undeclared(path)];
        return;
      }
      for i := 0 to |dir.children|
        invariant found + ChildReports(named, path, dir, i) == old(found) + ChildReports(named, path, dir, 0)
      {
        ghost var before, rest := found, ChildReports(named, path, dir, i + 1);
        ghost var own := Reports(named, path + [dir.children[i].name], false, dir.children[i].dir);
        Test(path + [dir.children[i].name], false, dir.children[i].dir);
        assert before + (own + rest) == before + own + rest;
      }
      ghost var inner := ChildReports(named, path, dir, 0);
      assert found == old(found) + inner;
      if !dir.readable {
        found := found + [Unread(path)];
        assert old(found) + (inner + [Unread(path)]) == old(found) + inner + [Unread(path)];
      } else {
        assert inner + [] == inner;
      }
    }

    /** undeclared: the untracked directories, then the data root, in turn. */
    method TestAll(roots: seq<Root>)
      requires forall i :: 0 <= i < |roots| ==> WellFormed(roots[i].dir)
      modifies this`found
      ensures found == old(found) + RootReports(named, roots)
    {
      for i := 0 to |roots|
        invariant found + RootReports(named, roots[i..]) == old(found) + RootReports(named, roots)
      {
        assert roots[i..][0] == roots[i] && roots[i..][1..] == roots[i + 1..];
        ghost var before, rest := found, RootReports(named, roots[i + 1..]);
        ghost var own := Reports(named, roots[i].path, roots[i].above, roots[i].dir);
        Test(roots[i].path, roots[i].above, roots[i].dir);
        assert before + (own + rest) == before + own + rest;
      }
    }
  }

  // ----- what a report is ----------------------------------------------------------

  lemma {:induction false} ReportsLieBeneath(named: seq<Path>, path: Path, above: bool, dir: Dir, r: Report)
    requires r in Reports(named, path, above, dir)
    ensures path <= r.path && HasDir(path, dir, r.path) && !Covered(named, r.path)
    ensures r.Undeclared? ==> !AboveNamed(named, r.path) && (above ==> r.path != path)
    decreases dir, |dir.children| + 2
  {
    if r.path != path || r in ChildReports(named, path, dir, 0) {
      var i := ChildReportsLieBeneath(named, path, dir, 0, r);
      assert HasDir(path + [dir.children[i].name], dir.children[i].dir, r.path);
    }
  }

  lemma {:induction false} ChildReportsLieBeneath(named: seq<Path>, path: Path, dir: Dir, i: nat, r: Report)
      returns (j: nat)
    requires r in ChildReports(named, path, dir, i)
    ensures i <= j < |dir.children|
    ensures var inner := path + [dir.children[j].name];
            inner <= r.path && HasDir(inner, dir.children[j].dir, r.path)
            && r in Reports(named, inner, false, dir.children[j].dir)
    ensures !Covered(named, r.path) && (r.Undeclared? ==> !AboveNamed(named, r.path))
    decreases dir, |dir.children| + 1 - i
  {
    var inner := path + [dir.children[i].name];
    if r in Reports(named, inner, false, dir.children[i].dir) {
      ReportsLieBeneath(named, inner, false, dir.children[i].dir, r);
      j := i;
    } else {
      j := ChildReportsLieBeneath(named, path, dir, i + 1, r);
    }
  }

  /** A directory of the tree lies beneath the tested one. */
  lemma {:induction false} DirsLieBeneath(path: Path, dir: Dir, p: Path)
    requires HasDir(path, dir, p)
    ensures path <= p
    decreases dir
  {
    if p != path {
      var i :| 0 <= i < |dir.children| && HasDir(path + [dir.children[i].name], dir.children[i].dir, p);
      DirsLieBeneath(path + [dir.children[i].name], dir.children[i].dir, p);
    }
  }

  // ----- the three kinds of directory ------------------------------------------------

  /** At or beneath a directory a line names. */
  ghost predicate IsNamed(named: seq<Path>, p: Path) {
    Covered(named, p)
  }

  /** Strictly above a named directory, or the root tested as if it were. */
  ghost predicate IsAbove(named: seq<Path>, path: Path, above: bool, p: Path) {
    !Covered(named, p) && (AboveNamed(named, p) || (above && p == path))
  }

  /** At or beneath a reported directory. */
  ghost predicate IsReported(reports: seq<Report>, p: Path) {
    exists k :: 0 <= k < |reports| && reports[k].Undeclared? && reports[k].path <= p
  }

  /** A directory neither named nor above a named one is reported, or lies in one that is. */
  lemma {:induction false} RestIsReported(named: seq<Path>, path: Path, above: bool, dir: Dir, p: Path)
      returns (r: Report)
    requires HasDir(path, dir, p) && !IsNamed(named, p) && !IsAbove(named, path, above, p)
    ensures r in Reports(named, path, above, dir) && r.Undeclared? && r.path <= p
    decreases dir
  {
    DirsLieBeneath(path, dir, p);
    if Covered(named, path) {
      var i :| 0 <= i < |named| && Under(named[i], path);
      assert Under(named[i], p);
    }
    if !(above || AboveNamed(named, path)) {
      r := Undeclared(path);
    } else {
      var i :| 0 <= i < |dir.children| && HasDir(path + [dir.children[i].name], dir.children[i].dir, p);
      DirsLieBeneath(path + [dir.children[i].name], dir.children[i].dir, p);
      r := RestIsReported(named, path + [dir.children[i].name], false, dir.children[i].dir, p);
      ChildReportIsReport(named, path, dir, 0, i, r);
    }
  }

  lemma {:induction false} ChildReportIsReport(named: seq<Path>, path: Path, dir: Dir, i: nat, j: nat, r: Report)
    requires i <= j < |dir.children|
    requires r in Reports(named, path + [dir.children[j].name], false, dir.children[j].dir)
    ensures r in ChildReports(named, path, dir, i)
    decreases j - i
  {
    if i < j {
      ChildReportIsReport(named, path, dir, i + 1, j, r);
    }
  }

  /** Every directory beneath a tested root is of exactly one of the three kinds. */
  lemma Trichotomy(named: seq<Path>, root: Root, p: Path)
    requires HasDir(root.path, root.dir, p)
    ensures var reports := Reports(named, root.path, root.above, root.dir);
            var a, b, c := IsNamed(named, p), IsAbove(named, root.path, root.above, p), IsReported(reports, p);
            (a || b || c) && !(a && b) && !(a && c) && !(b && c)
  {
    var reports := Reports(named, root.path, root.above, root.dir);
    if !IsNamed(named, p) && !IsAbove(named, root.path, root.above, p) {
      var r := RestIsReported(named, root.path, root.above, root.dir, p);
      var k :| 0 <= k < |reports| && reports[k] == r;
    }
    if IsReported(reports, p) {
      var k :| 0 <= k < |reports| && reports[k].Undeclared? && reports[k].path <= p;
      ReportsLieBeneath(named, root.path, root.above, root.dir, reports[k]);
    }
  }

  // ----- reported directories never nest ----------------------------------------------

  ghost predicate Unnested(reports: seq<Report>) {
    forall j, k :: 0 <= j < |reports| && 0 <= k < |reports| && j != k ==> !(reports[j].path <= reports[k].path)
  }

  ghost predicate Apart(a: Path, b: Path) {
    !(a <= b) && !(b <= a)
  }

  lemma ConcatUnnested(xs: seq<Report>, ys: seq<Report>)
    requires Unnested(xs) && Unnested(ys)
    requires forall x, y :: x in xs && y in ys ==> Apart(x.path, y.path)
    ensures Unnested(xs + ys)
  {
  }

  lemma {:induction false} ReportsNeverNest(named: seq<Path>, path: Path, above: bool, dir: Dir)
    requires WellFormed(dir)
    ensures Unnested(Reports(named, path, above, dir))
    decreases dir, |dir.children| + 2
  {
    ChildReportsNeverNest(named, path, dir, 0);
  }

  lemma {:induction false} ChildReportsNeverNest(named: seq<Path>, path: Path, dir: Dir, i: nat)
    requires WellFormed(dir)
    ensures Unnested(ChildReports(named, path, dir, i))
    decreases dir, |dir.children| + 1 - i
  {
    if i < |dir.children| {
      var inner := path + [dir.children[i].name];
      var own, rest := Reports(named, inner, false, dir.children[i].dir), ChildReports(named, path, dir, i + 1);
      ReportsNeverNest(named, inner, false, dir.children[i].dir);
      ChildReportsNeverNest(named, path, dir, i + 1);
      forall x, y | x in own && y in rest ensures Apart(x.path, y.path) {
        ReportsLieBeneath(named, inner, false, dir.children[i].dir, x);
        var j := ChildReportsLieBeneath(named, path, dir, i + 1, y);
        var other := path + [dir.children[j].name];
        assert inner[|path|] != other[|path|];
      }
    }
  }

  ghost predicate RootsApart(roots: seq<Root>) {
    forall i, j :: 0 <= i < j < |roots| ==> Apart(roots[i].path, roots[j].path)
  }

  lemma {:induction false} RootReportsLieBeneath(named: seq<Path>, roots: seq<Root>, r: Report) returns (i: nat)
    requires r in RootReports(named, roots)
    ensures i < |roots| && r in Reports(named, roots[i].path, roots[i].above, roots[i].dir) && roots[i].path <= r.path
    decreases |roots|
  {
    if r in Reports(named, roots[0].path, roots[0].above, roots[0].dir) {
      i := 0;
      ReportsLieBeneath(named, roots[0].path, roots[0].above, roots[0].dir, r);
    } else {
      i := RootReportsLieBeneath(named, roots[1..], r);
      i := i + 1;
    }
  }

  /** The reported directories of roots that do not nest never nest, so a directory
      lies beneath one of them at most. */
  lemma {:induction false} ListingNeverNests(named: seq<Path>, roots: seq<Root>)
    requires RootsApart(roots) && forall i :: 0 <= i < |roots| ==> WellFormed(roots[i].dir)
    ensures Unnested(RootReports(named, roots))
    decreases |roots|
  {
    if roots != [] {
      var root := roots[0];
      var own, rest := Reports(named, root.path, root.above, root.dir), RootReports(named, roots[1..]);
      ReportsNeverNest(named, root.path, root.above, root.dir);
      ListingNeverNests(named, roots[1..]);
      forall x, y | x in own && y in rest ensures Apart(x.path, y.path) {
        ReportsLieBeneath(named, root.path, root.above, root.dir, x);
        var j := RootReportsLieBeneath(named, roots[1..], y);
      }
      ConcatUnnested(own, rest);
    }
  }

  // ----- the command's own roots --------------------------------------------------------

  /** The directory at p, in the tree at path, is d. */
  ghost predicate DirAt(path: Path, dir: Dir, p: Path, d: Dir)
    decreases dir
  {
    || (p == path && d == dir)
    || exists i :: 0 <= i < |dir.children| && DirAt(path + [dir.children[i].name], dir.children[i].dir, p, d)
  }

  lemma {:induction false} DirAtLiesBeneath(path: Path, dir: Dir, p: Path, d: Dir)
    requires DirAt(path, dir, p, d)
    ensures path <= p && (p == path ==> d == dir)
    decreases dir
  {
    if !(p == path && d == dir) {
      var i :| 0 <= i < |dir.children| && DirAt(path + [dir.children[i].name], dir.children[i].dir, p, d);
      DirAtLiesBeneath(path + [dir.children[i].name], dir.children[i].dir, p, d);
    }
  }

  /** What is reported exactly: as unread, a directory that is opened and cannot be read; as
      undeclared, one that is neither named nor above a named one, where the one it lies in
      is opened, or the root itself. Opened is a directory of which IsAbove holds. */
  lemma ReportedExactly(named: seq<Path>, path: Path, above: bool, dir: Dir, p: Path)
    requires WellFormed(dir)
    ensures Unread(p) in Reports(named, path, above, dir) <==>
            exists d :: DirAt(path, dir, p, d) && !d.readable && IsAbove(named, path, above, p)
    ensures Undeclared(p) in Reports(named, path, above, dir) <==>
            && HasDir(path, dir, p) && !Covered(named, p) && !AboveNamed(named, p) && !(above && p == path)
            && (p == path || (p != [] && IsAbove(named, path, above, p[..|p| - 1])))
  {
    if Unread(p) in Reports(named, path, above, dir) {
      var d := UnreadIsOpened(named, path, above, dir, p);
    }
    if d :| DirAt(path, dir, p, d) && !d.readable && IsAbove(named, path, above, p) {
      OpenedIsUnread(named, path, above, dir, p, d);
    }
    if Undeclared(p) in Reports(named, path, above, dir) {
      ReportsLieBeneath(named, path, above, dir, Undeclared(p));
      UndeclaredIsHighest(named, path, above, dir, p);
    }
    if HasDir(path, dir, p) && !Covered(named, p) && !AboveNamed(named, p) && !(above && p == path)
       && (p == path || (p != [] && IsAbove(named, path, above, p[..|p| - 1]))) {
      var r := RestIsReported(named, path, above, dir, p);
      ReportsLieBeneath(named, path, above, dir, r);
      HighestIsItself(named, path, above, p, r.path);
    }
  }

  /** A report at or above p, whose directory is opened, is of p itself. */
  lemma HighestIsItself(named: seq<Path>, path: Path, above: bool, p: Path, q: Path)
    requires path <= q <= p
    requires p == path || (p != [] && IsAbove(named, path, above, p[..|p| - 1]))
    ensures q == p || AboveNamed(named, q) || (above && q == path)
  {
    if |q| < |p| {
      AboveUpwards(named, path, above, p[..|p| - 1], q);
    }
  }

  lemma AboveUpwards(named: seq<Path>, path: Path, above: bool, p: Path, q: Path)
    requires path <= q <= p && IsAbove(named, path, above, p)
    ensures AboveNamed(named, q) || (above && q == path)
  {
    if i :| 0 <= i < |named| && Under(p, named[i]) {
      assert Under(q, named[i]);
    }
  }

  lemma {:induction false} UnreadIsOpened(named: seq<Path>, path: Path, above: bool, dir: Dir, p: Path) returns (d: Dir)
    requires Unread(p) in Reports(named, path, above, dir)
    ensures DirAt(path, dir, p, d) && !d.readable && IsAbove(named, path, above, p)
    decreases dir
  {
    if Unread(p) in ChildReports(named, path, dir, 0) {
      var j := ChildReportsLieBeneath(named, path, dir, 0, Unread(p));
      d := UnreadIsOpened(named, path + [dir.children[j].name], false, dir.children[j].dir, p);
    } else {
      d := dir;
    }
  }

  lemma {:induction false} OpenedIsUnread(named: seq<Path>, path: Path, above: bool, dir: Dir, p: Path, d: Dir)
    requires WellFormed(dir) && DirAt(path, dir, p, d) && !d.readable && IsAbove(named, path, above, p)
    ensures Unread(p) in Reports(named, path, above, dir)
    decreases dir
  {
    DirAtLiesBeneath(path, dir, p, d);
    CoveredBeneath(named, path, p);
    if p != path {
      var i :| 0 <= i < |dir.children| && DirAt(path + [dir.children[i].name], dir.children[i].dir, p, d);
      OpenedIsUnread(named, path + [dir.children[i].name], false, dir.children[i].dir, p, d);
      ChildReportIsReport(named, path, dir, 0, i, Unread(p));
      var k :| 0 <= k < |named| && Under(p, named[k]);
      assert Under(path, named[k]);
    }
  }

  lemma {:induction false} UndeclaredIsHighest(named: seq<Path>, path: Path, above: bool, dir: Dir, p: Path)
    requires Undeclared(p) in Reports(named, path, above, dir)
    ensures p == path || (p != [] && IsAbove(named, path, above, p[..|p| - 1]))
    decreases dir
  {
    if Undeclared(p) in ChildReports(named, path, dir, 0) {
      var j := ChildReportsLieBeneath(named, path, dir, 0, Undeclared(p));
      var inner := path + [dir.children[j].name];
      UndeclaredIsHighest(named, inner, false, dir.children[j].dir, p);
      assert inner[..|inner| - 1] == path;
    }
  }

  lemma CoveredBeneath(named: seq<Path>, a: Path, b: Path)
    requires a <= b
    ensures Covered(named, a) ==> Covered(named, b)
  {
    if Covered(named, a) {
      var k :| 0 <= k < |named| && Under(named[k], a);
      assert Under(named[k], b);
    }
  }

  /** What a directory's own test reports lies beneath a report of any test above it. */
  lemma {:induction false} ReportedAbove(named: seq<Path>, path: Path, above: bool, dir: Dir, p: Path, d: Dir,
                                         r: Report)
      returns (q: Report)
    requires DirAt(path, dir, p, d) && path != p && r in Reports(named, p, false, d)
    ensures q in Reports(named, path, above, dir) && q.path <= r.path
    decreases dir
  {
    DirAtLiesBeneath(path, dir, p, d);
    ReportsLieBeneath(named, p, false, d, r);
    CoveredBeneath(named, path, p);
    if !(above || AboveNamed(named, path)) {
      q := Undeclared(path);
    } else {
      var i :| 0 <= i < |dir.children| && DirAt(path + [dir.children[i].name], dir.children[i].dir, p, d);
      var inner := path + [dir.children[i].name];
      DirAtLiesBeneath(inner, dir.children[i].dir, p, d);
      q := r;
      if inner != p {
        q := ReportedAbove(named, inner, false, dir.children[i].dir, p, d, r);
      }
      ChildReportIsReport(named, path, dir, 0, i, q);
    }
  }

  /** The roots the command tests: the checkout's untracked directories, none in another
      since git lists a wholly untracked one once, and, when the checkout does not hold
      it, the data root, with the same directories on disk where the two meet. */
  ghost predicate CommandRoots(checkout: Path, untracked: seq<Root>, data: Root) {
    && RootsApart(untracked)
    && (forall i :: 0 <= i < |untracked| ==>
          WellFormed(untracked[i].dir) && !untracked[i].above && Under(checkout, untracked[i].path))
    && WellFormed(data.dir) && data.above && !Under(checkout, data.path)
    && (forall i :: 0 <= i < |untracked| && Under(data.path, untracked[i].path) ==>
          DirAt(data.path, data.dir, untracked[i].path, untracked[i].dir))
  }

  ghost function ReportsOf(named: seq<Path>, root: Root): seq<Report> {
    Reports(named, root.path, root.above, root.dir)
  }

  /** Every directory of the tree at path is named or lies beneath a named one, or is
      above a named one and can be read. */
  ghost predicate Accounted(named: seq<Path>, path: Path, dir: Dir) {
    forall p, d :: DirAt(path, dir, p, d) ==> Covered(named, p) || (AboveNamed(named, p) && d.readable)
  }

  /** A directory's test reports nothing exactly when its whole tree is accounted for. */
  lemma SilentExactly(named: seq<Path>, path: Path, dir: Dir)
    ensures Reports(named, path, false, dir) == [] <==> Accounted(named, path, dir)
  {
    if Reports(named, path, false, dir) == [] {
      forall p, d | DirAt(path, dir, p, d) ensures Covered(named, p) || (AboveNamed(named, p) && d.readable) {
        SilentIsAccounted(named, path, dir, p, d);
      }
    }
    if Accounted(named, path, dir) {
      AccountedIsSilent(named, path, dir);
    }
  }

  lemma {:induction false} SilentIsAccounted(named: seq<Path>, path: Path, dir: Dir, p: Path, d: Dir)
    requires Reports(named, path, false, dir) == [] && DirAt(path, dir, p, d)
    ensures Covered(named, p) || (AboveNamed(named, p) && d.readable)
    decreases dir
  {
    DirAtLiesBeneath(path, dir, p, d);
    CoveredBeneath(named, path, p);
    if p != path && !Covered(named, path) {
      var i :| 0 <= i < |dir.children| && DirAt(path + [dir.children[i].name], dir.children[i].dir, p, d);
      var inner := path + [dir.children[i].name];
      var own := Reports(named, inner, false, dir.children[i].dir);
      if own != [] {
        ChildReportIsReport(named, path, dir, 0, i, own[0]);
      }
      SilentIsAccounted(named, inner, dir.children[i].dir, p, d);
    }
  }

  lemma {:induction false} AccountedIsSilent(named: seq<Path>, path: Path, dir: Dir)
    requires Accounted(named, path, dir)
    ensures Reports(named, path, false, dir) == []
    decreases dir, |dir.children| + 2
  {
    assert DirAt(path, dir, path, dir);
    ChildrenAreSilent(named, path, dir, 0);
  }

  lemma {:induction false} ChildrenAreSilent(named: seq<Path>, path: Path, dir: Dir, i: nat)
    requires Accounted(named, path, dir)
    ensures ChildReports(named, path, dir, i) == []
    decreases dir, |dir.children| + 1 - i
  {
    if i < |dir.children| {
      var inner, child := path + [dir.children[i].name], dir.children[i].dir;
      forall p, d | DirAt(inner, child, p, d) ensures Covered(named, p) || (AboveNamed(named, p) && d.readable) {
        assert DirAt(path, dir, p, d);
      }
      AccountedIsSilent(named, inner, child);
      ChildrenAreSilent(named, path, dir, i + 1);
    }
  }

  /** Reports of the command's listing nest exactly when the data root holds an untracked
      directory of the checkout whose tree is not all accounted for: the data root's test
      reports it again. */
  lemma CommandListingNests(named: seq<Path>, checkout: Path, untracked: seq<Root>, data: Root)
    requires CommandRoots(checkout, untracked, data)
    ensures Unnested(RootReports(named, untracked + [data])) <==>
              forall i :: 0 <= i < |untracked| && Under(data.path, untracked[i].path) ==>
                            Accounted(named, untracked[i].path, untracked[i].dir)
  {
    forall i | 0 <= i < |untracked|
      ensures ReportsOf(named, untracked[i]) == [] <==> Accounted(named, untracked[i].path, untracked[i].dir) {
      SilentExactly(named, untracked[i].path, untracked[i].dir);
    }
    ListingNestsByReports(named, checkout, untracked, data);
  }

  lemma ListingNestsByReports(named: seq<Path>, checkout: Path, untracked: seq<Root>, data: Root)
    requires CommandRoots(checkout, untracked, data)
    ensures Unnested(RootReports(named, untracked + [data])) <==>
              forall i :: 0 <= i < |untracked| && Under(data.path, untracked[i].path) ==>
                            ReportsOf(named, untracked[i]) == []
  {
    var first, last := RootReports(named, untracked), ReportsOf(named, data);
    RootReportsSplit(named, untracked, data);
    if forall i :: 0 <= i < |untracked| && Under(data.path, untracked[i].path) ==>
                     ReportsOf(named, untracked[i]) == [] {
      ListingNeverNests(named, untracked);
      ReportsNeverNest(named, data.path, data.above, data.dir);
      forall x, y | x in first && y in last ensures Apart(x.path, y.path) {
        var i := RootReportsLieBeneath(named, untracked, x);
        ReportsLieBeneath(named, data.path, data.above, data.dir, y);
        ReportsLieBeneath(named, untracked[i].path, false, untracked[i].dir, x);
        assert Apart(untracked[i].path, data.path);
      }
      ConcatUnnested(first, last);
    } else {
      var i :| 0 <= i < |untracked| && Under(data.path, untracked[i].path) && ReportsOf(named, untracked[i]) != [];
      var r := ReportsOf(named, untracked[i])[0];
      var q := ReportedAbove(named, data.path, true, data.dir, untracked[i].path, untracked[i].dir, r);
      RootReportIsReport(named, untracked, i, r);
      TwoNest(first, last, r, q);
    }
  }

  lemma TwoNest(xs: seq<Report>, ys: seq<Report>, r: Report, q: Report)
    requires r in xs && q in ys && q.path <= r.path
    ensures !Unnested(xs + ys)
  {
    var j :| 0 <= j < |xs| && xs[j] == r;
    var k :| 0 <= k < |ys| && ys[k] == q;
    assert (xs + ys)[j] == r && (xs + ys)[|xs| + k] == q;
  }

  lemma {:induction false} RootReportIsReport(named: seq<Path>, roots: seq<Root>, i: nat, r: Report)
    requires i < |roots| && r in ReportsOf(named, roots[i])
    ensures r in RootReports(named, roots)
  {
    if i > 0 {
      RootReportIsReport(named, roots[1..], i - 1, r);
    }
  }

  lemma {:induction false} RootReportsSplit(named: seq<Path>, roots: seq<Root>, last: Root)
    ensures RootReports(named, roots + [last]) == RootReports(named, roots) + ReportsOf(named, last)
  {
    if roots == [] {
      assert (roots + [last])[1..] == [];
    } else {
      RootReportsSplit(named, roots[1..], last);
      RestOfRoots(roots, last);
      var a, b, c := ReportsOf(named, roots[0]), RootReports(named, roots[1..]), ReportsOf(named, last);
      assert a + (b + c) == a + b + c;
    }
  }

  lemma RestOfRoots(roots: seq<Root>, last: Root)
    requires roots != []
    ensures (roots + [last])[1..] == roots[1..] + [last] && (roots + [last])[0] == roots[0]
  {
  }

  /** A directory lies beneath one reported entry at most. */
  lemma ReportedOnce(reports: seq<Report>, p: Path, j: nat, k: nat)
    requires Unnested(reports) && j < |reports| && k < |reports|
    requires reports[j].path <= p && reports[k].path <= p
    ensures j == k
  {
  }

  /** A checkout beneath the data root: an untracked directory there that no line concerns
      is reported twice. */
  lemma DataRootReportsTwice(named: seq<Path>, checkout: Path, name: string)
    requires checkout != [] && !Covered(named, checkout + [name]) && !AboveNamed(named, checkout + [name])
    ensures var above := checkout[..|checkout| - 1];
            var leaf := Dir(true, []);
            var tree := Dir(true, [Child(checkout[|checkout| - 1], Dir(true, [Child(name, leaf)]))]);
            var untracked, data := [Root(checkout + [name], false, leaf)], Root(above, true, tree);
            && CommandRoots(checkout, untracked, data)
            && !Unnested(RootReports(named, untracked + [data]))
  {
    var above, base := checkout[..|checkout| - 1], checkout[|checkout| - 1];
    var leaf := Dir(true, []);
    var held := Dir(true, [Child(name, leaf)]);
    var tree := Dir(true, [Child(base, held)]);
    var untracked, data := [Root(checkout + [name], false, leaf)], Root(above, true, tree);
    assert above + [base] == checkout;
    assert DirAt(checkout + [name], held.children[0].dir, checkout + [name], leaf);
    assert DirAt(above + [tree.children[0].name], held, checkout + [name], leaf);
    assert DirAt(above, tree, checkout + [name], leaf);
    assert ReportsOf(named, untracked[0]) == [Undeclared(checkout + [name])];
    ListingNestsByReports(named, checkout, untracked, data);
  }
}
