/** The scrub of the build directory: a walk that opens only the directories on
    the way to a retained prefix and reports everything else at its highest
    ancestor that is not retained. */
module BuildScrub {
  import opened Text

  datatype Node = File(size: nat) | Dir(entries: seq<Entry>)
  datatype Entry = Entry(name: string, node: Node)

  const DECLARATION := "RETAINED.json"

  // ----- names -----------------------------------------------------------------

  ghost predicate IsName(name: string) {
    name != "" && '/' !in name
  }

  /** The names in every directory are proper names and differ. */
  ghost predicate WellFormed(node: Node) {
    node.Dir? ==>
      && (forall i :: 0 <= i < |node.entries| ==> IsName(node.entries[i].name) && WellFormed(node.entries[i].node))
      && (forall i, j :: 0 <= i < j < |node.entries| ==> node.entries[i].name != node.entries[j].name)
  }

  /** p is s or lies beneath it. */
  predicate AtOrUnder(p: string, s: string) {
    p == s || HasPrefix(p, s + "/")
  }

  /** The walk's test of a name: it is retained, or on the way to what is. */
  predicate Retained(name: string, prefixes: seq<string>) {
    || name == DECLARATION
    || exists i :: 0 <= i < |prefixes| && (AtOrUnder(name, prefixes[i]) || HasPrefix(prefixes[i], name + "/"))
  }

  /** Everything beneath the name is retained with it. */
  predicate FullyRetained(name: string, prefixes: seq<string>) {
    || name == DECLARATION
    || exists i :: 0 <= i < |prefixes| && AtOrUnder(name, prefixes[i])
  }

  /** The declaration itself, what a prefix names or holds, and what lies on the way to one. */
  lemma RetainedExactly(name: string, prefixes: seq<string>)
    ensures Retained(name, prefixes) <==>
            || name == "RETAINED.json"
            || exists i :: 0 <= i < |prefixes| && (|| name == prefixes[i] || prefixes[i] + "/" <= name
                                                   || name + "/" <= prefixes[i])
  {
  }

  // ----- what a walk finds -------------------------------------------------------

  /** The paths of a directory's entries from the i-th on, and all beneath them. */
  predicate Has(dir: Node, relative: string, i: nat, p: string)
    requires dir.Dir?
    decreases dir, |dir.entries| - i
  {
    i < |dir.entries| &&
    (HasOf(dir.entries[i].node, relative + dir.entries[i].name, p) || Has(dir, relative, i + 1, p))
  }

  /** The paths at or beneath one entry of that name. */
  predicate HasOf(node: Node, name: string, p: string)
    decreases node
  {
    p == name || (node.Dir? && Has(node, name + "/", 0, p))
  }

  /** The total size of the files among those entries. */
  function Bytes(dir: Node, i: nat): nat
    requires dir.Dir?
    decreases dir, |dir.entries| - i
  {
    if i >= |dir.entries| then 0 else TreeBytes(dir.entries[i].node) + Bytes(dir, i + 1)
  }

  /** The size of the files at or beneath one entry. */
  function TreeBytes(node: Node): nat
    decreases node
  {
    if node.File? then node.size else Bytes(node, 0)
  }

  /** A directory of one entry more is of that entry's size more, and an empty one of none. */
  lemma BytesMore(entries: seq<Entry>, last: Entry)
    ensures TreeBytes(Dir(entries + [last])) == TreeBytes(Dir(entries)) + TreeBytes(last.node)
    ensures TreeBytes(Dir([])) == 0 && (last.node.File? ==> TreeBytes(last.node) == last.node.size)
  {
    BytesMoreFrom(entries, last, 0);
  }

  lemma {:induction false} BytesMoreFrom(entries: seq<Entry>, last: Entry, i: nat)
    requires i <= |entries|
    ensures Bytes(Dir(entries + [last]), i) == Bytes(Dir(entries), i) + TreeBytes(last.node)
    decreases |entries| - i
  {
    var more := Dir(entries + [last]);
    if i < |entries| {
      BytesMoreFrom(entries, last, i + 1);
      assert more.entries[i] == entries[i];
    } else {
      assert more.entries[i] == last && Bytes(more, i + 1) == 0;
    }
  }

  /** What the walk reports from the i-th entry on. */
  function Scrap(dir: Node, relative: string, prefixes: seq<string>, i: nat): seq<string>
    requires dir.Dir?
    decreases dir, |dir.entries| - i
  {
    if i >= |dir.entries| then []
    else ScrapOf(dir.entries[i].node, relative + dir.entries[i].name, prefixes) + Scrap(dir, relative, prefixes, i + 1)
  }

  /** What it reports at or beneath one entry of that name. */
  function ScrapOf(node: Node, name: string, prefixes: seq<string>): seq<string>
    decreases node
  {
    if !Retained(name, prefixes) then [name]
    else if FullyRetained(name, prefixes) || node.File? then []
    else Scrap(node, name + "/", prefixes, 0)
  }

  function ScrapBytes(dir: Node, relative: string, prefixes: seq<string>, i: nat): nat
    requires dir.Dir?
    decreases dir, |dir.entries| - i
  {
    if i >= |dir.entries| then 0
    else ScrapBytesOf(dir.entries[i].node, relative + dir.entries[i].name, prefixes)
         + ScrapBytes(dir, relative, prefixes, i + 1)
  }

  function ScrapBytesOf(node: Node, name: string, prefixes: seq<string>): nat
    decreases node
  {
    if !Retained(name, prefixes) then TreeBytes(node)
    else if FullyRetained(name, prefixes) || node.File? then 0
    else ScrapBytes(node, name + "/", prefixes, 0)
  }

  /** The scrub's own walk and removal. */
  class Scrub {
    const prefixes: seq<string>
    var root: Node
    var scrap: seq<string>
    var scrapBytes: nat

    constructor (root: Node, prefixes: seq<string>)
      ensures this.root == root && this.prefixes == prefixes
      ensures scrap == [] && scrapBytes == 0
    {
      this.root, this.prefixes, scrap, scrapBytes := root, prefixes, [], 0;
    }

    method Walk(dir: Node, relative: string)
      requires dir.Dir?
      modifies this`scrap, this`scrapBytes
      ensures scrap == old(scrap) + Scrap(dir, relative, prefixes, 0)
      ensures scrapBytes == old(scrapBytes) + ScrapBytes(dir, relative, prefixes, 0)
      decreases dir
    {
      for i := 0 to |dir.entries|
        invariant scrap + Scrap(dir, relative, prefixes, i) == old(scrap) + Scrap(dir, relative, prefixes, 0)
        invariant scrapBytes + ScrapBytes(dir, relative, prefixes, i)
               == old(scrapBytes) + ScrapBytes(dir, relative, prefixes, 0)
      {
        var name := relative + dir.entries[i].name;
        var node := dir.entries[i].node;
        ghost var before, own, rest := scrap, ScrapOf(node, name, prefixes), Scrap(dir, relative, prefixes, i + 1);
        if !Retained(name, prefixes) {
          scrap := scrap + [name];
          scrapBytes := scrapBytes + TreeBytes(node);
        } else if !FullyRetained(name, prefixes) && node.Dir? {
          Walk(node, name + "/");
        }
        assert scrap == before + own;
        assert (before + own) + rest == before + (own + rest);
      }
    }

    /** The removal loop, over the reported entries in some order: the tree keeps
        exactly its retained paths, and the bytes reported are the bytes freed. */
    method Apply()
      requires Open(root, "") && scrap == Scrap(root, "", prefixes, 0)
      requires scrapBytes == ScrapBytes(root, "", prefixes, 0)
      modifies this`root
      ensures Open(root, "")
      ensures forall p :: Has(root, "", 0, p) <==> Has(old(root), "", 0, p) && Retained(p, prefixes)
      ensures forall p :: Has(root, "", 0, p) <==>
                && Has(old(root), "", 0, p)
                && (|| p == "RETAINED.json"
                    || exists i :: 0 <= i < |prefixes| && (|| p == prefixes[i] || prefixes[i] + "/" <= p
                                                           || p + "/" <= prefixes[i]))
      ensures Bytes(root, 0) + scrapBytes == Bytes(old(root), 0)
      ensures Scrap(root, "", prefixes, 0) == []
    {
      var order :| multiset(order) == multiset(scrap);
      ghost var before := root;
      for i := 0 to |order|
        invariant root.Dir? && WithoutEach(root, order[i..]) == WithoutEach(before, order)
      {
        assert order[i..][1..] == order[i + 1..];
        root := Without(root, "", order[i]);
      }
      assert order[|order|..] == [];
      forall p ensures Has(root, "", 0, p) <==> Has(before, "", 0, p) && Retained(p, prefixes) {
        ScrubLeavesRetained(before, prefixes, order, p);
      }
      RemovalsAreExact(before, order, "");
      ScrubFreesWhatItReports(before, prefixes, order);
      SecondRunFindsNothing(before, prefixes, order);
    }
  }

  // ----- names and prefixes --------------------------------------------------------

  /** Two directories above one path: one is at or above the other. */
  lemma AncestorsNest(p: string, q: string, s: string)
    requires HasPrefix(p, q + "/") && AtOrUnder(p, s)
    ensures AtOrUnder(q, s) || HasPrefix(s, q + "/")
  {
    var n := |s| + 1;
    if p == s {
    } else if n <= |q| {
      assert q[..n] == (q + "/")[..n] == p[..n] == s + "/";
    } else if n == |q| + 1 {
      assert q + "/" == p[..n] == s + "/";
      assert q == (q + "/")[..|q|] == (s + "/")[..|q|] == s;
    } else {
      assert (s + "/")[..|q| + 1] == p[..|q| + 1] == q + "/";
      assert s[..|q| + 1] == (s + "/")[..|q| + 1];
    }
  }

  /** What lies beneath a name that is not retained is not retained. */
  lemma NotRetainedBelow(p: string, name: string, prefixes: seq<string>)
    requires AtOrUnder(p, name) && !Retained(name, prefixes)
    ensures !Retained(p, prefixes)
  {
    if p != name {
      assert p[|name|] == '/';
      assert '/' !in DECLARATION;
      forall i | 0 <= i < |prefixes|
        ensures !AtOrUnder(p, prefixes[i]) && !HasPrefix(prefixes[i], p + "/")
      {
        var prefix := prefixes[i];
        if AtOrUnder(p, prefix) {
          AncestorsNest(p, name, prefix);
        }
      }
    }
  }

  // ----- the partition -----------------------------------------------------------

  /** Where the walk stands: a directory the declaration does not name. */
  ghost predicate Open(dir: Node, relative: string) {
    && dir.Dir? && WellFormed(dir)
    && forall i :: 0 <= i < |dir.entries| && relative + dir.entries[i].name == DECLARATION ==> dir.entries[i].node.File?
  }

  lemma OpenBelow(dir: Node, relative: string, i: nat)
    requires Open(dir, relative) && i < |dir.entries| && dir.entries[i].node.Dir?
    ensures Open(dir.entries[i].node, relative + dir.entries[i].name + "/")
  {
    var deeper := relative + dir.entries[i].name + "/";
    assert '/' in deeper && '/' !in DECLARATION;
    forall s ensures deeper + s != DECLARATION {
      assert (deeper + s)[|deeper| - 1] == '/';
    }
  }

  lemma {:induction false} HasLiesUnder(dir: Node, relative: string, i: nat, p: string)
    requires dir.Dir? && Has(dir, relative, i, p)
    ensures HasPrefix(p, relative)
    ensures exists j :: i <= j < |dir.entries| && HasOf(dir.entries[j].node, relative + dir.entries[j].name, p)
    decreases dir, |dir.entries| - i
  {
    var name := relative + dir.entries[i].name;
    if HasOf(dir.entries[i].node, name, p) {
      HasOfLiesUnder(dir.entries[i].node, name, p);
      assert relative <= name <= p;
    } else {
      HasLiesUnder(dir, relative, i + 1, p);
    }
  }

  lemma {:induction false} HasOfLiesUnder(node: Node, name: string, p: string)
    requires HasOf(node, name, p)
    ensures AtOrUnder(p, name) && name <= p
    decreases node
  {
    if p != name {
      HasLiesUnder(node, name + "/", 0, p);
    }
  }

  /** Each reported entry is there and is not retained. */
  lemma {:induction false} ScrapIsNotRetained(dir: Node, relative: string, prefixes: seq<string>, i: nat, s: string)
    requires dir.Dir? && s in Scrap(dir, relative, prefixes, i)
    ensures Has(dir, relative, i, s) && !Retained(s, prefixes)
    decreases dir, |dir.entries| - i
  {
    var name := relative + dir.entries[i].name;
    if s in ScrapOf(dir.entries[i].node, name, prefixes) {
      if Retained(name, prefixes) {
        ScrapIsNotRetained(dir.entries[i].node, name + "/", prefixes, 0, s);
      }
    } else {
      ScrapIsNotRetained(dir, relative, prefixes, i + 1, s);
    }
  }

  /** Each path that is not retained lies at or under a reported entry. */
  lemma {:induction false} NotRetainedIsScrap(dir: Node, relative: string, prefixes: seq<string>, i: nat, p: string)
      returns (s: string)
    requires Open(dir, relative) && Has(dir, relative, i, p) && !Retained(p, prefixes)
    ensures s in Scrap(dir, relative, prefixes, i) && AtOrUnder(p, s)
    decreases dir, |dir.entries| - i
  {
    var node, name := dir.entries[i].node, relative + dir.entries[i].name;
    if !HasOf(node, name, p) {
      s := NotRetainedIsScrap(dir, relative, prefixes, i + 1, p);
    } else {
      HasOfLiesUnder(node, name, p);
      if !Retained(name, prefixes) {
        s := name;
      } else {
        OpenBelow(dir, relative, i);
        s := NotRetainedIsScrap(node, name + "/", prefixes, 0, p);
      }
    }
  }

  /** The walk's report is exact: a path of the tree lies at or under a reported
      entry exactly when it is not retained. */
  lemma ScrapPartition(root: Node, prefixes: seq<string>, p: string)
    requires Open(root, "") && Has(root, "", 0, p)
    ensures (exists s :: s in Scrap(root, "", prefixes, 0) && AtOrUnder(p, s)) <==> !Retained(p, prefixes)
  {
    if Retained(p, prefixes) {
      forall s | s in Scrap(root, "", prefixes, 0) ensures !AtOrUnder(p, s) {
        ScrapIsNotRetained(root, "", prefixes, 0, s);
        if AtOrUnder(p, s) {
          NotRetainedBelow(p, s, prefixes);
        }
      }
    } else {
      var s := NotRetainedIsScrap(root, "", prefixes, 0, p);
    }
  }

  // ----- reported entries never nest --------------------------------------------------

  /** Two entries of one directory share nothing beneath them. */
  lemma SiblingsShareNothing(relative: string, a: string, b: string, p: string)
    requires IsName(a) && IsName(b) && AtOrUnder(p, relative + a) && AtOrUnder(p, relative + b)
    ensures a == b
  {
    var n, m := |relative + a|, |relative + b|;
    assert p[..n] == relative + a && p[..m] == relative + b;
    assert a == p[|relative|..n] && b == p[|relative|..m];
    assert p != relative + a ==> p[n] == (relative + a + "/")[n] == '/';
    assert p != relative + b ==> p[m] == (relative + b + "/")[m] == '/';
    assert forall k :: |relative| <= k < n ==> p[k] == a[k - |relative|] != '/';
    assert forall k :: |relative| <= k < m ==> p[k] == b[k - |relative|] != '/';
  }

  lemma {:induction false} ScrapNeverNests(dir: Node, relative: string, prefixes: seq<string>, i: nat, j: nat, k: nat)
    requires dir.Dir? && WellFormed(dir)
    requires var scrap := Scrap(dir, relative, prefixes, i); j < |scrap| && k < |scrap| && j != k
    ensures var scrap := Scrap(dir, relative, prefixes, i); !AtOrUnder(scrap[j], scrap[k])
    decreases dir, |dir.entries| - i
  {
    var node, name := dir.entries[i].node, relative + dir.entries[i].name;
    var own, rest := ScrapOf(node, name, prefixes), Scrap(dir, relative, prefixes, i + 1);
    var scrap := Scrap(dir, relative, prefixes, i);
    if j < |own| && k < |own| {
      ScrapNeverNests(node, name + "/", prefixes, 0, j, k);
    } else if j >= |own| && k >= |own| {
      ScrapNeverNests(dir, relative, prefixes, i + 1, j - |own|, k - |own|);
    } else {
      var inner, outer := if j < |own| then scrap[j] else scrap[k], if j < |own| then scrap[k] else scrap[j];
      ScrapOfSiblings(dir, relative, prefixes, i, inner, outer);
    }
  }

  /** What is reported in one entry and in a later one do not nest. */
  lemma ScrapOfSiblings(dir: Node, relative: string, prefixes: seq<string>, i: nat, inner: string, outer: string)
    requires dir.Dir? && WellFormed(dir) && i < |dir.entries|
    requires inner in ScrapOf(dir.entries[i].node, relative + dir.entries[i].name, prefixes)
    requires outer in Scrap(dir, relative, prefixes, i + 1)
    ensures !AtOrUnder(inner, outer) && !AtOrUnder(outer, inner)
  {
    var name := relative + dir.entries[i].name;
    ScrapOfLiesUnder(dir.entries[i].node, name, prefixes, inner);
    ScrapIsNotRetained(dir, relative, prefixes, i + 1, outer);
    HasLiesUnder(dir, relative, i + 1, outer);
    var l :| i + 1 <= l < |dir.entries| && HasOf(dir.entries[l].node, relative + dir.entries[l].name, outer);
    HasOfLiesUnder(dir.entries[l].node, relative + dir.entries[l].name, outer);
    if AtOrUnder(inner, outer) {
      SiblingsShareNothing(relative, dir.entries[i].name, dir.entries[l].name, inner);
    }
    if AtOrUnder(outer, inner) {
      SiblingsShareNothing(relative, dir.entries[i].name, dir.entries[l].name, outer);
    }
  }

  lemma ScrapOfLiesUnder(node: Node, name: string, prefixes: seq<string>, s: string)
    requires s in ScrapOf(node, name, prefixes)
    ensures HasOf(node, name, s) && AtOrUnder(s, name)
  {
    if Retained(name, prefixes) {
      ScrapIsNotRetained(node, name + "/", prefixes, 0, s);
    }
    HasOfLiesUnder(node, name, s);
  }

  // ----- removal ---------------------------------------------------------------------

  /** os.RemoveAll of one path: that entry and all beneath it are gone. */
  function Without(dir: Node, relative: string, path: string): Node
    requires dir.Dir?
  {
    Dir(WithoutFrom(dir, relative, path, 0))
  }

  function WithoutFrom(dir: Node, relative: string, path: string, i: nat): seq<Entry>
    requires dir.Dir?
    decreases dir, |dir.entries| - i
  {
    if i >= |dir.entries| then []
    else WithoutOf(dir.entries[i], relative + dir.entries[i].name, path) + WithoutFrom(dir, relative, path, i + 1)
  }

  function WithoutOf(e: Entry, name: string, path: string): seq<Entry>
    decreases e
  {
    if name == path then []
    else if e.node.Dir? then [Entry(e.name, Dir(WithoutFrom(e.node, name + "/", path, 0)))]
    else [e]
  }

  function WithoutEach(root: Node, paths: seq<string>): (after: Node)
    requires root.Dir?
    ensures after.Dir?
    decreases |paths|
  {
    if paths == [] then root else WithoutEach(Without(root, "", paths[0]), paths[1..])
  }

  lemma {:induction false} HasEntry(dir: Node, relative: string, i: nat, p: string, j: nat)
    requires dir.Dir? && i <= j < |dir.entries| && HasOf(dir.entries[j].node, relative + dir.entries[j].name, p)
    ensures Has(dir, relative, i, p)
    decreases j - i
  {
    if i < j {
      HasEntry(dir, relative, i + 1, p, j);
    }
  }

  lemma HasConcat(xs: seq<Entry>, ys: seq<Entry>, relative: string, p: string)
    ensures Has(Dir(xs + ys), relative, 0, p) <==> Has(Dir(xs), relative, 0, p) || Has(Dir(ys), relative, 0, p)
  {
    var both := Dir(xs + ys);
    if Has(both, relative, 0, p) {
      HasLiesUnder(both, relative, 0, p);
      var j :| 0 <= j < |both.entries| && HasOf(both.entries[j].node, relative + both.entries[j].name, p);
      if j < |xs| {
        HasEntry(Dir(xs), relative, 0, p, j);
      } else {
        HasEntry(Dir(ys), relative, 0, p, j - |xs|);
      }
    }
    if Has(Dir(xs), relative, 0, p) {
      HasLiesUnder(Dir(xs), relative, 0, p);
      var j :| 0 <= j < |xs| && HasOf(xs[j].node, relative + xs[j].name, p);
      HasEntry(both, relative, 0, p, j);
    }
    if Has(Dir(ys), relative, 0, p) {
      HasLiesUnder(Dir(ys), relative, 0, p);
      var j :| 0 <= j < |ys| && HasOf(ys[j].node, relative + ys[j].name, p);
      assert both.entries[|xs| + j] == ys[j];
      HasEntry(both, relative, 0, p, |xs| + j);
    }
  }

  /** After a removal exactly the paths not at or under it remain. */
  lemma {:induction false} RemovalIsExact(dir: Node, relative: string, path: string, i: nat, p: string)
    requires dir.Dir? && WellFormed(dir) && !HasPrefix(relative, path + "/")
    ensures Has(Dir(WithoutFrom(dir, relative, path, i)), relative, 0, p)
            <==> Has(dir, relative, i, p) && !AtOrUnder(p, path)
    decreases dir, |dir.entries| - i
  {
    if i < |dir.entries| {
      var e := dir.entries[i];
      var name := relative + e.name;
      var own, rest := WithoutOf(e, name, path), WithoutFrom(dir, relative, path, i + 1);
      HasConcat(own, rest, relative, p);
      RemovalIsExact(dir, relative, path, i + 1, p);
      if name == path {
        if HasOf(e.node, name, p) {
          HasOfLiesUnder(e.node, name, p);
        }
      } else {
        NameIsNotAbove(relative, e.name, path);
        if e.node.Dir? {
          RemovalIsExact(e.node, name + "/", path, 0, p);
        }
      }
    }
  }

  /** Below a directory that path does not lie above, path lies above an entry only by being it. */
  lemma NameIsNotAbove(relative: string, name: string, path: string)
    requires IsName(name) && !HasPrefix(relative, path + "/") && relative + name != path
    ensures !AtOrUnder(relative + name, path)
    ensures !HasPrefix(relative + name + "/", path + "/")
  {
    var whole, n := relative + name, |path|;
    if n < |relative| {
      assert (whole + "/")[..n + 1] == whole[..n + 1] == relative[..n + 1];
    } else if n < |whole| {
      assert (whole + "/")[n] == whole[n] == name[n - |relative|];
      assert (path + "/")[n] == '/';
    } else if n == |whole| {
      assert (whole + "/")[..n] == whole && (path + "/")[..n] == path;
    }
  }

  /** An entry of the directory from the i-th on that a removal left, or left part of. */
  ghost predicate LeftOf(dir: Node, i: nat, left: Entry)
    requires dir.Dir?
  {
    exists j :: i <= j < |dir.entries| && dir.entries[j].name == left.name
                && (dir.entries[j].node.File? ==> left.node.File?)
  }

  lemma {:induction false} WithoutKeepsNames(dir: Node, relative: string, path: string, i: nat)
    requires dir.Dir? && WellFormed(dir)
    ensures WellFormed(Dir(WithoutFrom(dir, relative, path, i)))
    ensures forall left :: left in WithoutFrom(dir, relative, path, i) ==> LeftOf(dir, i, left)
    decreases dir, |dir.entries| - i
  {
    if i < |dir.entries| {
      var e := dir.entries[i];
      var own, rest := WithoutOf(e, relative + e.name, path), WithoutFrom(dir, relative, path, i + 1);
      WithoutKeepsNames(dir, relative, path, i + 1);
      if e.node.Dir? {
        WithoutKeepsNames(e.node, relative + e.name + "/", path, 0);
      }
      assert |own| == 1 ==> LeftOf(dir, i, own[0]) && own[0].name == e.name && WellFormed(own[0].node);
      forall left | left in rest ensures LeftOf(dir, i, left) && left.name != e.name {
        var j :| i + 1 <= j < |dir.entries| && dir.entries[j].name == left.name
                 && (dir.entries[j].node.File? ==> left.node.File?);
        assert dir.entries[j].name != e.name;
      }
    }
  }

  lemma WithoutStaysOpen(dir: Node, path: string)
    requires Open(dir, "")
    ensures Open(Without(dir, "", path), "")
  {
    WithoutKeepsNames(dir, "", path, 0);
    var after := WithoutFrom(dir, "", path, 0);
    forall k | 0 <= k < |after| && after[k].name == DECLARATION ensures after[k].node.File? {
      assert after[k] in after;
      var j :| 0 <= j < |dir.entries| && dir.entries[j].name == after[k].name
               && (dir.entries[j].node.File? ==> after[k].node.File?);
      assert "" + dir.entries[j].name == DECLARATION;
    }
    assert forall s: string :: "" + s == s;
  }

  /** Removing the given paths, in the order given, leaves exactly what is at or under none of them. */
  lemma {:induction false} RemovalsAreExact(root: Node, paths: seq<string>, p: string)
    requires Open(root, "")
    ensures Open(WithoutEach(root, paths), "")
    ensures Has(WithoutEach(root, paths), "", 0, p)
            <==> Has(root, "", 0, p) && forall i :: 0 <= i < |paths| ==> !AtOrUnder(p, paths[i])
    decreases |paths|
  {
    if paths != [] {
      RemovalIsExact(root, "", paths[0], 0, p);
      WithoutStaysOpen(root, paths[0]);
      RemovalsAreExact(Without(root, "", paths[0]), paths[1..], p);
    }
  }

  /** Removing the reported entries in any order leaves exactly the retained paths. */
  lemma ScrubLeavesRetained(root: Node, prefixes: seq<string>, order: seq<string>, p: string)
    requires Open(root, "") && multiset(order) == multiset(Scrap(root, "", prefixes, 0))
    ensures Has(WithoutEach(root, order), "", 0, p) <==> Has(root, "", 0, p) && Retained(p, prefixes)
  {
    var scrap := Scrap(root, "", prefixes, 0);
    assert forall s :: s in order <==> s in multiset(order);
    assert forall s :: s in scrap <==> s in multiset(scrap);
    RemovalsAreExact(root, order, p);
    if Has(root, "", 0, p) {
      ScrapPartition(root, prefixes, p);
    }
  }

  /** A second run reports nothing. */
  lemma SecondRunFindsNothing(root: Node, prefixes: seq<string>, order: seq<string>)
    requires Open(root, "") && multiset(order) == multiset(Scrap(root, "", prefixes, 0))
    ensures Scrap(WithoutEach(root, order), "", prefixes, 0) == []
  {
    var after := WithoutEach(root, order);
    var again := Scrap(after, "", prefixes, 0);
    if again != [] {
      ScrapIsNotRetained(after, "", prefixes, 0, again[0]);
      ScrubLeavesRetained(root, prefixes, order, again[0]);
    }
  }

  // ----- bytes ------------------------------------------------------------------------

  /** The total size of the files whose own path is retained. */
  function RetainedBytes(dir: Node, relative: string, prefixes: seq<string>, i: nat): nat
    requires dir.Dir?
    decreases dir, |dir.entries| - i
  {
    if i >= |dir.entries| then 0
    else RetainedBytesOf(dir.entries[i].node, relative + dir.entries[i].name, prefixes)
         + RetainedBytes(dir, relative, prefixes, i + 1)
  }

  function RetainedBytesOf(node: Node, name: string, prefixes: seq<string>): nat
    decreases node
  {
    if node.Dir? then RetainedBytes(node, name + "/", prefixes, 0)
    else if Retained(name, prefixes) then node.size
    else 0
  }

  /** Where every path, or no path, is retained, all the bytes or none are. */
  lemma {:induction false} AllOrNoneRetained(dir: Node, relative: string, prefixes: seq<string>, i: nat, all: bool)
    requires dir.Dir? && forall p :: Has(dir, relative, i, p) ==> Retained(p, prefixes) == all
    ensures RetainedBytes(dir, relative, prefixes, i) == if all then Bytes(dir, i) else 0
    decreases dir, |dir.entries| - i
  {
    if i < |dir.entries| {
      var node, name := dir.entries[i].node, relative + dir.entries[i].name;
      assert forall p :: HasOf(node, name, p) ==> Has(dir, relative, i, p);
      assert forall p :: Has(dir, relative, i + 1, p) ==> Has(dir, relative, i, p);
      AllOrNoneRetained(dir, relative, prefixes, i + 1, all);
      if node.Dir? {
        assert forall p :: Has(node, name + "/", 0, p) ==> HasOf(node, name, p);
        AllOrNoneRetained(node, name + "/", prefixes, 0, all);
      } else {
        assert HasOf(node, name, name);
      }
    }
  }

  /** Every byte is either reported as scrap or is a retained file's. */
  lemma {:induction false} BytesAreConserved(dir: Node, relative: string, prefixes: seq<string>, i: nat)
    requires Open(dir, relative)
    ensures Bytes(dir, i) == ScrapBytes(dir, relative, prefixes, i) + RetainedBytes(dir, relative, prefixes, i)
    decreases dir, |dir.entries| - i
  {
    if i < |dir.entries| {
      var node, name := dir.entries[i].node, relative + dir.entries[i].name;
      BytesAreConserved(dir, relative, prefixes, i + 1);
      if node.Dir? {
        OpenBelow(dir, relative, i);
        if Retained(name, prefixes) && !FullyRetained(name, prefixes) {
          BytesAreConserved(node, name + "/", prefixes, 0);
        } else {
          forall p | Has(node, name + "/", 0, p) ensures Retained(p, prefixes) == Retained(name, prefixes) {
            HasOfLiesUnder(node, name, p);
            if Retained(name, prefixes) {
            } else {
              NotRetainedBelow(p, name, prefixes);
            }
          }
          AllOrNoneRetained(node, name + "/", prefixes, 0, Retained(name, prefixes));
        }
      }
    }
  }

  lemma {:induction false} RetainedBytesConcat(xs: seq<Entry>, ys: seq<Entry>, relative: string, prefixes: seq<string>,
                                               i: nat)
    requires i <= |xs|
    ensures RetainedBytes(Dir(xs + ys), relative, prefixes, i)
         == RetainedBytes(Dir(xs), relative, prefixes, i) + RetainedBytes(Dir(ys), relative, prefixes, 0)
    decreases |xs| - i
  {
    if i < |xs| {
      RetainedBytesConcat(xs, ys, relative, prefixes, i + 1);
    } else {
      RetainedBytesSuffix(xs, ys, relative, prefixes, 0);
    }
  }

  lemma {:induction false} RetainedBytesSuffix(xs: seq<Entry>, ys: seq<Entry>, relative: string, prefixes: seq<string>,
                                               k: nat)
    requires k <= |ys|
    ensures RetainedBytes(Dir(xs + ys), relative, prefixes, |xs| + k) == RetainedBytes(Dir(ys), relative, prefixes, k)
    decreases |ys| - k
  {
    if k < |ys| {
      assert (xs + ys)[|xs| + k] == ys[k];
      RetainedBytesSuffix(xs, ys, relative, prefixes, k + 1);
    }
  }

  /** Removing what is not retained takes no retained byte. */
  lemma {:induction false} RemovalTakesNoRetainedByte(dir: Node, relative: string, prefixes: seq<string>, path: string,
                                                      i: nat)
    requires dir.Dir? && !Retained(path, prefixes)
    ensures RetainedBytes(Dir(WithoutFrom(dir, relative, path, i)), relative, prefixes, 0)
         == RetainedBytes(dir, relative, prefixes, i)
    decreases dir, |dir.entries| - i
  {
    if i < |dir.entries| {
      var e := dir.entries[i];
      var name := relative + e.name;
      var own, rest := WithoutOf(e, name, path), WithoutFrom(dir, relative, path, i + 1);
      RetainedBytesConcat(own, rest, relative, prefixes, 0);
      RemovalTakesNoRetainedByte(dir, relative, prefixes, path, i + 1);
      if name == path {
        if e.node.Dir? {
          forall p | Has(e.node, name + "/", 0, p) ensures !Retained(p, prefixes) {
            HasOfLiesUnder(e.node, name, p);
            NotRetainedBelow(p, name, prefixes);
          }
          AllOrNoneRetained(e.node, name + "/", prefixes, 0, false);
        }
      } else {
        if e.node.Dir? {
          RemovalTakesNoRetainedByte(e.node, name + "/", prefixes, path, 0);
        }
        assert RetainedBytes(Dir(own), relative, prefixes, 1) == 0;
      }
    }
  }

  lemma {:induction false} RemovalsTakeNoRetainedByte(root: Node, prefixes: seq<string>, paths: seq<string>)
    requires root.Dir? && forall i :: 0 <= i < |paths| ==> !Retained(paths[i], prefixes)
    ensures RetainedBytes(WithoutEach(root, paths), "", prefixes, 0) == RetainedBytes(root, "", prefixes, 0)
    decreases |paths|
  {
    if paths != [] {
      RemovalTakesNoRetainedByte(root, "", prefixes, paths[0], 0);
      RemovalsTakeNoRetainedByte(Without(root, "", paths[0]), prefixes, paths[1..]);
    }
  }

  /** The bytes reported are exactly the bytes the removal frees. */
  lemma ScrubFreesWhatItReports(root: Node, prefixes: seq<string>, order: seq<string>)
    requires Open(root, "") && multiset(order) == multiset(Scrap(root, "", prefixes, 0))
    ensures Bytes(WithoutEach(root, order), 0) + ScrapBytes(root, "", prefixes, 0) == Bytes(root, 0)
  {
    var after := WithoutEach(root, order);
    forall i | 0 <= i < |order| ensures !Retained(order[i], prefixes) {
      assert order[i] in multiset(order);
      ScrapIsNotRetained(root, "", prefixes, 0, order[i]);
    }
    RemovalsTakeNoRetainedByte(root, prefixes, order);
    forall p | Has(after, "", 0, p) ensures Retained(p, prefixes) {
      ScrubLeavesRetained(root, prefixes, order, p);
    }
    AllOrNoneRetained(after, "", prefixes, 0, true);
    BytesAreConserved(root, "", prefixes, 0);
  }
}
