/** The walk that measures an entry and decides whether a finished one may be deleted. */
module Weighing {
  import opened Leftovers

  datatype Kind =
    | Regular(size: nat, sized: bool)   // sized is false when its size cannot be read
    | Directory(readable: bool, store: bool)  // store: by a store's name or by the seal of a backup
    | Link                              // a symbolic link, or what Go reports as irregular
    | Other

  /** A file or directory as the walk meets it. The children of what is no
      readable directory are never met. */
  datatype Node = Node(path: string, kind: Kind, takenLock: bool, children: seq<Node>)

  datatype Visit = Seen(node: Node) | Unreadable(node: Node)

  // ----- the walk --------------------------------------------------------------

  /** filepath.WalkDir: a node, then its children in turn; a directory that
      cannot be read is visited a second time with the failure. */
  function Visits(node: Node): seq<Visit>
    decreases node, |node.children| + 2
  {
    [Seen(node)] +
    if !node.kind.Directory? then []
    else if !node.kind.readable then [Unreadable(node)]
    else ChildVisits(node, 0)
  }

  function ChildVisits(node: Node, i: nat): seq<Visit>
    decreases node, |node.children| + 1 - i
  {
    if i >= |node.children| then [] else Visits(node.children[i]) + ChildVisits(node, i + 1)
  }

  /** The node is met by a walk of the tree. */
  ghost predicate Met(tree: Node, node: Node)
    decreases tree
  {
    || node == tree
    || (tree.kind.Directory? && tree.kind.readable
        && exists i :: 0 <= i < |tree.children| && Met(tree.children[i], node))
  }

  /** The total size of the regular files a walk meets. */
  function Total(tree: Node): nat
    decreases tree, |tree.children| + 2
  {
    (if tree.kind.Regular? && tree.kind.sized then tree.kind.size else 0)
    + if tree.kind.Directory? && tree.kind.readable then ChildTotal(tree, 0) else 0
  }

  function ChildTotal(tree: Node, i: nat): nat
    decreases tree, |tree.children| + 1 - i
  {
    if i >= |tree.children| then 0 else Total(tree.children[i]) + ChildTotal(tree, i + 1)
  }

  // ----- what stops it -----------------------------------------------------------

  /** What stops the walk of an entry that would be deleted, and the state it then has. */
  function Obstacle(visit: Visit): (state: State)
  {
    match visit
    case Unreadable(_) => Unknown
    case Seen(node) =>
      if node.kind.Link? then Unknown
      else if node.kind.Directory? && node.kind.store then Held
      else if node.takenLock then Held
      else if node.kind.Regular? && !node.kind.sized then Unknown
      else Finished
  }

  /** Held exactly for a store, a backup or a taken lock, but a link before any of them, and
      unknown for a link and for what cannot be read; what is counted is a file's size. */
  lemma ObstacleExactly(visit: Visit)
    ensures var kind, lock := visit.node.kind, visit.node.takenLock;
            var store, unsized := kind.Directory? && kind.store, kind.Regular? && !kind.sized;
            && (Obstacle(visit) == Held <==> visit.Seen? && kind != Link && (store || lock))
            && (Obstacle(visit) == Unknown <==> visit.Unreadable? || kind == Link || (unsized && !lock))
            && (Obstacle(visit) == Finished <==> visit.Seen? && kind != Link && !store && !lock && !unsized)
            && (Fails(visit) <==> visit.Unreadable? || unsized)
            && Counted(visit) == if visit.Seen? && kind.Regular? && kind.sized then kind.size else 0
  {
  }

  /** The walk of a directory of one child more goes on with it, and its size is that much more. */
  lemma WalkMore(dir: Node, last: Node)
    requires dir.kind.Directory? && dir.kind.readable
    ensures var more := dir.(children := dir.children + [last]);
            && Visits(more)[0] == Seen(more) && Visits(more)[1..] == Visits(dir)[1..] + Visits(last)
            && Total(more) == Total(dir) + Total(last)
    ensures Visits(dir.(children := [])) == [Seen(dir.(children := []))] && Total(dir.(children := [])) == 0
  {
    ChildrenMore(dir, last, 0);
  }

  lemma {:induction false} ChildrenMore(dir: Node, last: Node, i: nat)
    requires i <= |dir.children|
    ensures var more := dir.(children := dir.children + [last]);
            && ChildVisits(more, i) == ChildVisits(dir, i) + Visits(last)
            && ChildTotal(more, i) == ChildTotal(dir, i) + Total(last)
    decreases |dir.children| - i
  {
    var more := dir.(children := dir.children + [last]);
    if i < |dir.children| {
      ChildrenMore(dir, last, i + 1);
      assert more.children[i] == dir.children[i];
    } else {
      assert more.children[i] == last;
      assert ChildVisits(more, i + 1) == [] && ChildTotal(more, i + 1) == 0;
    }
  }

  /** The walk of anything else is of it alone, and of its size if it is a file of one. */
  lemma WalkOne(node: Node)
    requires !(node.kind.Directory? && node.kind.readable)
    ensures Visits(node) == if node.kind.Directory? then [Seen(node), Unreadable(node)] else [Seen(node)]
    ensures Total(node) == if node.kind.Regular? && node.kind.sized then node.kind.size else 0
  {
  }

  /** What stops the walk of any other entry. */
  predicate Fails(visit: Visit) {
    visit.Unreadable? || (visit.node.kind.Regular? && !visit.node.kind.sized)
  }

  predicate Stops(deletable: bool, visit: Visit) {
    if deletable then !Obstacle(visit).Finished? else Fails(visit)
  }

  ghost predicate Unstopped(deletable: bool, visits: seq<Visit>) {
    forall k :: 0 <= k < |visits| ==> !Stops(deletable, visits[k])
  }

  function Counted(visit: Visit): nat {
    if visit.Seen? && visit.node.kind.Regular? && visit.node.kind.sized then visit.node.kind.size else 0
  }

  function Sum(visits: seq<Visit>): nat {
    if visits == [] then 0 else Counted(visits[0]) + Sum(visits[1..])
  }

  predicate Deletable(entry: Entry) {
    entry.action.Delete? && entry.state.Finished?
  }

  /** weighed: whether the entry is walked, the walk, and what it decides. */
  method Weighed(entry: Entry, absolute: bool, measure: bool, tree: Node) returns (weighed: Entry)
    ensures !absolute || entry.action.Never? || (!measure && !Deletable(entry)) ==> weighed == entry
    ensures weighed.action == entry.action && weighed.path == entry.path
    ensures !Deletable(entry) ==> weighed.state == entry.state && weighed.rule == entry.rule
    ensures absolute && Deletable(entry) ==>
              (weighed.state.Finished? <==> forall k :: 0 <= k < |Visits(tree)| ==> Obstacle(Visits(tree)[k]).Finished?)
    ensures absolute && Deletable(entry) && !weighed.state.Finished? ==>
              exists k :: FirstObstacle(tree, k)
                && weighed == entry.(state := Obstacle(Visits(tree)[k]), rule := Visits(tree)[k].node.path,
                                     bytes := entry.bytes + Sum(Visits(tree)[..k]), measured := false)
    ensures absolute && !entry.action.Never? && measure && !Deletable(entry) && !weighed.measured ==>
              exists k :: FirstFailure(tree, k) && weighed == entry.(bytes := entry.bytes + Sum(Visits(tree)[..k]),
                                                                     measured := false)
    ensures absolute && Deletable(entry) && weighed.state.Finished? ==>
              weighed == entry.(bytes := entry.bytes + Sum(Visits(tree)), measured := measure)
    ensures absolute && !entry.action.Never? && measure ==>
              (weighed.measured <==> Unstopped(Deletable(entry), Visits(tree)))
    ensures absolute && !entry.action.Never? && measure && weighed.measured ==>
              weighed.bytes == entry.bytes + Sum(Visits(tree))
  {
    var deletable := Deletable(entry);
    weighed := entry;
    if !absolute || entry.action.Never? || (!measure && !deletable) {
      return;
    }
    var visits := Visits(tree);
    var bytes: nat, at, stopped := 0, 0, false;
    while at < |visits| && !stopped
      invariant at <= |visits|
      invariant bytes + Sum(visits[at..]) == Sum(visits)
      invariant bytes == Sum(visits[..at])
      invariant forall k :: 0 <= k < at ==> !Stops(deletable, visits[k])
      invariant stopped ==> at < |visits| && Stops(deletable, visits[at])
      decreases |visits| - at, !stopped
    {
      if Stops(deletable, visits[at]) {
        stopped := true;
      } else {
        assert visits[at..][1..] == visits[at + 1..];
        SumOneMore(visits, at);
        bytes := bytes + Counted(visits[at]);
        at := at + 1;
      }
    }
    assert !stopped <==> Unstopped(deletable, visits);
    assert deletable ==> (Unstopped(deletable, visits) <==> Clear(visits));
    weighed := weighed.(bytes := entry.bytes + bytes, measured := measure && !stopped);
    if deletable && stopped {
      weighed := weighed.(state := Obstacle(visits[at]), rule := visits[at].node.path);
      assert FirstObstacle(tree, at) && weighed == Obstructed(entry, tree, at);
    } else if stopped {
      assert FirstFailure(tree, at);
    }
  }

  lemma SumOneMore(visits: seq<Visit>, at: nat)
    requires at < |visits|
    ensures Sum(visits[..at + 1]) == Sum(visits[..at]) + Counted(visits[at])
  {
    assert visits[..at + 1] == visits[..at] + [visits[at]] && [visits[at]][1..] == [];
    SumConcat(visits[..at], [visits[at]]);
  }

  /** The entry that the k-th visit stops: in that visit's state, for its path, of what was
      counted before it, and not measured. */
  function Obstructed(entry: Entry, tree: Node, k: nat): Entry
    requires k < |Visits(tree)|
  {
    var visit := Visits(tree)[k];
    entry.(state := Obstacle(visit), rule := visit.node.path,
           bytes := entry.bytes + Sum(Visits(tree)[..k]), measured := false)
  }

  /** The k-th visit is the first that stops the walk of an entry that is only measured. */
  ghost predicate FirstFailure(tree: Node, k: int) {
    0 <= k < |Visits(tree)| && Fails(Visits(tree)[k]) && forall j :: 0 <= j < k ==> !Fails(Visits(tree)[j])
  }

  /** The k-th visit is the first that stops the walk of an entry to be deleted. */
  ghost predicate FirstObstacle(tree: Node, k: int) {
    && 0 <= k < |Visits(tree)|
    && !Obstacle(Visits(tree)[k]).Finished?
    && forall j :: 0 <= j < k ==> Obstacle(Visits(tree)[j]).Finished?
  }

  // ----- what a finished entry does not hold --------------------------------------------

  /** Nothing a recursive delete could follow, no store or backup, no lock of a
      run that still goes, and nothing that cannot be read. */
  predicate Safe(node: Node) {
    && !node.kind.Link?
    && !(node.kind.Directory? && (node.kind.store || !node.kind.readable))
    && !node.takenLock
    && !(node.kind.Regular? && !node.kind.sized)
  }

  ghost predicate Clear(visits: seq<Visit>) {
    forall k :: 0 <= k < |visits| ==> Obstacle(visits[k]).Finished?
  }

  lemma ClearConcat(xs: seq<Visit>, ys: seq<Visit>)
    ensures Clear(xs + ys) <==> Clear(xs) && Clear(ys)
  {
    assert forall k :: 0 <= k < |xs| ==> (xs + ys)[k] == xs[k];
    assert forall k :: 0 <= k < |ys| ==> (xs + ys)[|xs| + k] == ys[k];
  }

  ghost predicate AllSafe(tree: Node) {
    forall node :: Met(tree, node) ==> Safe(node)
  }

  /** The walk meets no obstacle exactly when every file and directory at any
      depth is safe to delete. */
  lemma {:induction false} ClearIsAllSafe(tree: Node)
    ensures Clear(Visits(tree)) <==> AllSafe(tree)
    decreases tree, |tree.children| + 2
  {
    var own := [Seen(tree)];
    var rest := Visits(tree)[1..];
    assert Visits(tree) == own + rest;
    ClearConcat(own, rest);
    assert Met(tree, tree);
    assert Clear(own) <==> Obstacle(own[0]).Finished?;
    if tree.kind.Directory? && tree.kind.readable {
      assert rest == ChildVisits(tree, 0);
      ClearChildren(tree, 0);
      if AllSafe(tree) {
        forall i | 0 <= i < |tree.children| ensures AllSafe(tree.children[i]) {
          forall node | Met(tree.children[i], node) ensures Safe(node) {
            assert Met(tree, node);
          }
        }
      }
    } else if tree.kind.Directory? {
      assert rest[0] == Unreadable(tree);
    }
  }

  lemma {:induction false} ClearChildren(tree: Node, i: nat)
    ensures Clear(ChildVisits(tree, i)) <==> forall j :: i <= j < |tree.children| ==> AllSafe(tree.children[j])
    decreases tree, |tree.children| + 1 - i
  {
    if i < |tree.children| {
      ClearConcat(Visits(tree.children[i]), ChildVisits(tree, i + 1));
      ClearIsAllSafe(tree.children[i]);
      ClearChildren(tree, i + 1);
    }
  }

  lemma {:induction false} SumConcat(xs: seq<Visit>, ys: seq<Visit>)
    ensures Sum(xs + ys) == Sum(xs) + Sum(ys)
  {
    if xs == [] {
      assert xs + ys == ys;
    } else {
      assert (xs + ys)[1..] == xs[1..] + ys;
      SumConcat(xs[1..], ys);
    }
  }

  /** What a whole walk counts is the size of every regular file it meets, once. */
  lemma {:induction false} SumIsTotal(tree: Node)
    ensures Sum(Visits(tree)) == Total(tree)
    decreases tree, |tree.children| + 2
  {
    var own := [Seen(tree)];
    var rest := Visits(tree)[1..];
    assert Visits(tree) == own + rest;
    SumConcat(own, rest);
    assert own[1..] == [];
    if tree.kind.Directory? && tree.kind.readable {
      assert rest == ChildVisits(tree, 0);
      SumChildren(tree, 0);
    } else if tree.kind.Directory? {
      assert rest[1..] == [];
    }
  }

  lemma {:induction false} SumChildren(tree: Node, i: nat)
    ensures Sum(ChildVisits(tree, i)) == ChildTotal(tree, i)
    decreases tree, |tree.children| + 1 - i
  {
    if i < |tree.children| {
      SumConcat(Visits(tree.children[i]), ChildVisits(tree, i + 1));
      SumIsTotal(tree.children[i]);
      SumChildren(tree, i + 1);
    }
  }

  /** weighed, for an entry that would be deleted: it stays finished exactly when
      nothing in it, at any depth, is a link, a store or a backup, a taken lock
      or unreadable, and its bytes are then those of every file in it. */
  method WeighedForDeletion(entry: Entry, measure: bool, tree: Node) returns (weighed: Entry)
    requires Deletable(entry) && entry.bytes == 0
    ensures weighed.state.Finished? <==> AllSafe(tree)
    ensures weighed.state.Finished? ==> weighed == entry.(bytes := Total(tree), measured := measure)
    ensures !weighed.state.Finished? ==> exists k :: FirstObstacle(tree, k) && weighed == Obstructed(entry, tree, k)
    ensures weighed.path == entry.path && weighed.action == entry.action
  {
    weighed := Weighed(entry, true, measure, tree);
    if !weighed.state.Finished? {
      ghost var k :| FirstObstacle(tree, k)
        && weighed == entry.(state := Obstacle(Visits(tree)[k]), rule := Visits(tree)[k].node.path,
                             bytes := entry.bytes + Sum(Visits(tree)[..k]), measured := false);
      assert weighed == Obstructed(entry, tree, k);
    }
    ClearIsAllSafe(tree);
    SumIsTotal(tree);
  }
}
