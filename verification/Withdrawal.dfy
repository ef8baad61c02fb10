/** The withdrawal of the locations of a run's checkpoints from the store, at
    one head and never so that a model still used is left without its parts. */
module Withdrawal {
  import opened Leftovers
  import opened Lists
  import opened Removal

  datatype Kind = ModelKind | OtherKind

  datatype ID = ID(digest: string, kind: Kind)

  datatype LocationKind = FileLocation | DirectoryLocation | RemoteLocation

  datatype Location = Location(artifact: ID, kind: LocationKind, value: string)

  datatype Relation = Contains | ProducedBy | OtherRelation

  /** A child contains its parent, or is produced by it. */
  datatype Edge = Edge(parent: ID, child: ID, relation: Relation)

  /** What an open store reads: its head, its locations, its edges, its manifests'
      components, and the model each alias activates, if it is an activation. */
  datatype Store = Store(head: nat, locations: seq<Location>, edges: seq<Edge>,
                         manifests: map<ID, seq<ID>>, activated: seq<ID>)
  {
    /** Made of what this store made, with those locations gone and no other. */
    function Without(withdrawn: seq<Location>): Store {
      this.(head := head + 1, locations := Remaining(locations, withdrawn))
    }
  }

  function Remaining(locations: seq<Location>, withdrawn: seq<Location>): (left: seq<Location>)
    ensures forall l :: l in left <==> l in locations && l !in withdrawn
  {
    if locations == [] then []
    else (if locations[0] in withdrawn then [] else [locations[0]]) + Remaining(locations[1..], withdrawn)
  }

  /** A checkpoint document found in the run's directory, with its folder. */
  datatype Checkpoint = Checkpoint(folder: string, id: ID, weights: ID, resume: ID)

  /** The machine's answers: what lies under a folder, the directory of a file's
      path, and which directories are there. */
  datatype Machine = Machine(under: (string, string) -> bool, parent: string -> string, isDirectory: string -> bool)

  // ----- what a checkpoint accounts for ----------------------------------------------

  /** The edge ties the artifact to the checkpoint: the resume document contains it, or
      it is a model the checkpoint produced. */
  ghost predicate Ties(c: Checkpoint, e: Edge, a: ID) {
    || (e.relation.Contains? && e.child == c.resume && e.parent == a)
    || (e.relation.ProducedBy? && e.parent == c.id && e.child == a && a.kind.ModelKind?)
  }

  ghost predicate IsRoot(store: Store, c: Checkpoint, a: ID) {
    a == c.id || a == c.weights || exists e :: e in store.edges && Ties(c, e, a)
  }

  /** The checkpoint accounts for its roots, and for the components of their manifests. */
  ghost predicate AccountsFor(store: Store, c: Checkpoint, a: ID) {
    || IsRoot(store, c, a)
    || exists root :: root in store.manifests && IsRoot(store, c, root) && a in store.manifests[root]
  }

  /** The artifacts the resume document holds. */
  function Held(edges: seq<Edge>, resume: ID): seq<ID> {
    if edges == [] then [] else HeldBy(edges[0], resume) + Held(edges[1..], resume)
  }

  function HeldBy(edge: Edge, resume: ID): seq<ID> {
    if edge.child == resume && edge.relation.Contains? then [edge.parent] else []
  }

  /** The models the checkpoint produced. */
  function Produced(edges: seq<Edge>, checkpoint: ID): seq<ID> {
    if edges == [] then [] else ModelMadeBy(edges[0], checkpoint) + Produced(edges[1..], checkpoint)
  }

  function ModelMadeBy(edge: Edge, checkpoint: ID): seq<ID> {
    if edge.parent == checkpoint && edge.relation.ProducedBy? && edge.child.kind.ModelKind? then [edge.child] else []
  }

  function Components(manifests: map<ID, seq<ID>>, members: seq<ID>): seq<ID> {
    if members == [] then []
    else (if members[0] in manifests then manifests[members[0]] else []) + Components(manifests, members[1..])
  }

  function Roots(store: Store, c: Checkpoint): seq<ID> {
    [c.id, c.weights] + Held(store.edges, c.resume) + Produced(store.edges, c.id)
  }

  /** The checkpoint, its weights, what its resume document holds, each model it
      produced, and the components of any of these; a component is not read for
      components of its own. */
  function Members(store: Store, c: Checkpoint): seq<ID> {
    Roots(store, c) + Components(store.manifests, Roots(store, c))
  }

  lemma {:induction false} HeldExactly(edges: seq<Edge>, resume: ID, a: ID)
    ensures a in Held(edges, resume) <==>
            exists e :: e in edges && e.relation.Contains? && e.child == resume && e.parent == a
  {
    if edges != [] {
      HeldExactly(edges[1..], resume, a);
      assert forall e :: e in edges <==> e == edges[0] || e in edges[1..];
    }
  }

  lemma {:induction false} ProducedExactly(edges: seq<Edge>, checkpoint: ID, a: ID)
    ensures a in Produced(edges, checkpoint) <==>
            && a.kind.ModelKind?
            && exists e :: e in edges && e.relation.ProducedBy? && e.parent == checkpoint && e.child == a
  {
    if edges != [] {
      ProducedExactly(edges[1..], checkpoint, a);
      assert forall e :: e in edges <==> e == edges[0] || e in edges[1..];
    }
  }

  lemma {:induction false} ComponentsExactly(manifests: map<ID, seq<ID>>, members: seq<ID>, a: ID)
    ensures a in Components(manifests, members) <==>
            exists root :: root in manifests && root in members && a in manifests[root]
  {
    if members != [] {
      ComponentsExactly(manifests, members[1..], a);
      assert forall root :: root in members <==> root == members[0] || root in members[1..];
    }
  }

  lemma RootsExactly(store: Store, c: Checkpoint, a: ID)
    ensures a in Roots(store, c) <==> IsRoot(store, c, a)
  {
    HeldExactly(store.edges, c.resume, a);
    ProducedExactly(store.edges, c.id, a);
    if e :| e in store.edges && Ties(c, e, a) {
      assert a in Held(store.edges, c.resume) + Produced(store.edges, c.id);
    }
    if a in Held(store.edges, c.resume) {
      var e :| e in store.edges && e.relation.Contains? && e.child == c.resume && e.parent == a;
      assert Ties(c, e, a);
    }
    if a in Produced(store.edges, c.id) {
      var e :| e in store.edges && e.relation.ProducedBy? && e.parent == c.id && e.child == a;
      assert Ties(c, e, a);
    }
  }

  /** The members are exactly what the checkpoint accounts for, by the store's own edges
      and manifests. */
  lemma MembersExactly(store: Store, c: Checkpoint, a: ID)
    ensures a in Members(store, c) <==> AccountsFor(store, c, a)
  {
    RootsExactly(store, c, a);
    ComponentsExactly(store.manifests, Roots(store, c), a);
    forall root ensures root in Roots(store, c) <==> IsRoot(store, c, root) {
      RootsExactly(store, c, root);
    }
  }

  method CollectHeld(edges: seq<Edge>, resume: ID) returns (held: seq<ID>)
    ensures held == Held(edges, resume)
  {
    held := [];
    for e := 0 to |edges|
      invariant held + Held(edges[e..], resume) == Held(edges, resume)
    {
      ghost var before, own, rest := held, HeldBy(edges[e], resume), Held(edges[e + 1..], resume);
      HeldFrom(edges, e, resume);
      Associates(before, own, rest);
      if edges[e].child == resume && edges[e].relation.Contains? {
        held := held + [edges[e].parent];
      }
      assert held == before + own;
    }
  }

  lemma HeldFrom(edges: seq<Edge>, e: nat, resume: ID)
    requires e < |edges|
    ensures Held(edges[e..], resume) == HeldBy(edges[e], resume) + Held(edges[e + 1..], resume)
  {
    assert edges[e..][1..] == edges[e + 1..];
  }

  method CollectProduced(edges: seq<Edge>, checkpoint: ID) returns (produced: seq<ID>)
    ensures produced == Produced(edges, checkpoint)
  {
    produced := [];
    for e := 0 to |edges|
      invariant produced + Produced(edges[e..], checkpoint) == Produced(edges, checkpoint)
    {
      ghost var before, own, rest := produced, ModelMadeBy(edges[e], checkpoint), Produced(edges[e + 1..], checkpoint);
      ProducedFrom(edges, e, checkpoint);
      Associates(before, own, rest);
      if edges[e].parent == checkpoint && edges[e].relation.ProducedBy? && edges[e].child.kind.ModelKind? {
        produced := produced + [edges[e].child];
      }
      assert produced == before + own;
    }
  }

  lemma ProducedFrom(edges: seq<Edge>, e: nat, checkpoint: ID)
    requires e < |edges|
    ensures Produced(edges[e..], checkpoint) == ModelMadeBy(edges[e], checkpoint) + Produced(edges[e + 1..], checkpoint)
  {
    assert edges[e..][1..] == edges[e + 1..];
  }

  /** The loop that appends to the members while it ranges over them as they stood. */
  method AppendComponents(manifests: map<ID, seq<ID>>, roots: seq<ID>) returns (members: seq<ID>)
    ensures members == roots + Components(manifests, roots)
  {
    members := roots;
    for m := 0 to |roots|
      invariant members + Components(manifests, roots[m..]) == roots + Components(manifests, roots)
    {
      assert roots[m..][1..] == roots[m + 1..];
      if roots[m] in manifests {
        members := members + manifests[roots[m]];
      }
    }
  }

  method Collect(store: Store, c: Checkpoint) returns (members: seq<ID>)
    ensures members == Members(store, c)
    ensures forall a :: a in members <==> AccountsFor(store, c, a)
  {
    forall a ensures a in Members(store, c) <==> AccountsFor(store, c, a) {
      MembersExactly(store, c, a);
    }
    var held := CollectHeld(store.edges, c.resume);
    var produced := CollectProduced(store.edges, c.id);
    members := AppendComponents(store.manifests, [c.id, c.weights] + held + produced);
  }

  /** A checkpoint of the run accounts for the artifact. */
  ghost predicate Accounted(store: Store, cs: seq<Checkpoint>, a: ID) {
    exists i :: 0 <= i < |cs| && AccountsFor(store, cs[i], a)
  }

  /** The folders of the checkpoints that account for the artifact. */
  ghost function Folders(store: Store, cs: seq<Checkpoint>, a: ID): set<string> {
    set i | 0 <= i < |cs| && AccountsFor(store, cs[i], a) :: cs[i].folder
  }

  ghost function FolderSet(owned: map<ID, seq<string>>, a: ID): set<string> {
    if a in owned then set f | f in owned[a] else {}
  }

  ghost predicate Owned(store: Store, cs: seq<Checkpoint>, owned: map<ID, seq<string>>) {
    forall a :: FolderSet(owned, a) == Folders(store, cs, a) && (a in owned ==> owned[a] != [])
  }

  /** Each member owned by one folder more. */
  method AddFolder(before: map<ID, seq<string>>, members: seq<ID>, folder: string) returns (owned: map<ID, seq<string>>)
    requires forall a :: a in before ==> before[a] != []
    ensures forall a :: a in owned ==> owned[a] != []
    ensures forall a :: FolderSet(owned, a) == FolderSet(before, a) + if a in members then {folder} else {}
  {
    owned := before;
    for m := 0 to |members|
      invariant forall a :: a in owned ==> owned[a] != []
      invariant forall a :: FolderSet(owned, a) == FolderSet(before, a) + if a in members[..m] then {folder} else {}
    {
      var member := members[m];
      var folders := if member in owned then owned[member] else [];
      ghost var earlier := owned;
      assert members[..m + 1] == members[..m] + [member];
      owned := owned[member := folders + [folder]];
      assert FolderSet(owned, member) == FolderSet(earlier, member) + {folder};
      assert forall a :: a != member ==> FolderSet(owned, a) == FolderSet(earlier, a);
    }
    assert members[..|members|] == members;
  }

  /** owned: for each artifact a checkpoint of the run accounts for, the folders of
      those checkpoints. */
  method Own(store: Store, cs: seq<Checkpoint>) returns (owned: map<ID, seq<string>>)
    ensures Owned(store, cs, owned)
  {
    owned := map[];
    for i := 0 to |cs|
      invariant Owned(store, cs[..i], owned)
    {
      var members := Collect(store, cs[i]);
      owned := AddFolder(owned, members, cs[i].folder);
      OneMore(store, cs, i);
    }
    assert cs[..|cs|] == cs;
  }

  lemma OneMore(store: Store, cs: seq<Checkpoint>, i: nat)
    requires i < |cs|
    ensures forall a :: Folders(store, cs[..i + 1], a)
                     == Folders(store, cs[..i], a) + if AccountsFor(store, cs[i], a) then {cs[i].folder} else {}
  {
    var short, long := cs[..i], cs[..i + 1];
    assert long[i] == cs[i] && forall k :: 0 <= k < i ==> long[k] == short[k];
    forall a ensures Folders(store, long, a)
                  == Folders(store, short, a) + if AccountsFor(store, cs[i], a) then {cs[i].folder} else {} {
      if AccountsFor(store, long[i], a) {
        assert long[i].folder in Folders(store, long, a);
      }
    }
  }

  /** An artifact is owned exactly when a checkpoint of the run accounts for it. */
  lemma OwnedIsAccounted(store: Store, cs: seq<Checkpoint>, owned: map<ID, seq<string>>, a: ID)
    requires Owned(store, cs, owned)
    ensures a in owned <==> Accounted(store, cs, a)
  {
    assert FolderSet(owned, a) == Folders(store, cs, a);
    if a in owned {
      assert owned[a][0] in FolderSet(owned, a);
    }
    if Accounted(store, cs, a) {
      var i :| 0 <= i < |cs| && AccountsFor(store, cs[i], a);
      assert cs[i].folder in Folders(store, cs, a);
    }
  }

  // ----- what goes and what stays --------------------------------------------------------

  predicate Local(l: Location) {
    !l.kind.RemoteLocation?
  }

  /** A location on this machine under a checkpoint folder that accounts for its artifact. */
  ghost predicate Goes(m: Machine, store: Store, cs: seq<Checkpoint>, l: Location) {
    Local(l) && exists i :: 0 <= i < |cs| && AccountsFor(store, cs[i], l.artifact) && m.under(cs[i].folder, l.value)
  }

  /** A location that is left and that keeps its artifact on this machine: a
      model's keeps it only when it gives a directory that is there. */
  ghost predicate Keeps(m: Machine, store: Store, cs: seq<Checkpoint>, l: Location) {
    Local(l) && !Goes(m, store, cs, l) && Usable(m, l)
  }

  predicate Usable(m: Machine, l: Location) {
    l.artifact.kind.ModelKind? ==> m.isDirectory(if l.kind.FileLocation? then m.parent(l.value) else l.value)
  }

  ghost predicate KeptHere(m: Machine, store: Store, cs: seq<Checkpoint>, a: ID) {
    KeptIn(m, store, cs, a, store.locations)
  }

  ghost predicate Served(store: Store, a: ID) {
    a in store.activated
  }

  /** A model whose parts the withdrawal must leave on this machine. */
  ghost predicate Needed(store: Store, cs: seq<Checkpoint>, model: ID) {
    model.kind.ModelKind? && (Served(store, model) || !Accounted(store, cs, model))
  }

  /** A needed model contains the artifact. */
  ghost predicate HeldByNeeded(store: Store, cs: seq<Checkpoint>, a: ID) {
    exists e :: e in store.edges && HoldsNeeded(store, cs, a, e)
  }

  ghost predicate HoldsNeeded(store: Store, cs: seq<Checkpoint>, a: ID, e: Edge) {
    e.parent == a && e.relation.Contains? && Needed(store, cs, e.child)
  }

  /** The withdrawal of the location would strand what still uses its artifact. */
  ghost predicate Strands(m: Machine, store: Store, cs: seq<Checkpoint>, l: Location) {
    && Goes(m, store, cs, l)
    && !KeptHere(m, store, cs, l.artifact)
    && Used(store, cs, l.artifact)
  }

  /** The artifact is served, or a needed model contains it. */
  ghost predicate Used(store: Store, cs: seq<Checkpoint>, a: ID) {
    Served(store, a) || HeldByNeeded(store, cs, a)
  }

  /** The store gives the artifact a location on this machine, a directory that is
      there when it is a model. */
  ghost predicate StaysHere(m: Machine, store: Store, a: ID) {
    exists l :: l in store.locations && l.artifact == a && Local(l) && Usable(m, l)
  }

  /** The location is under a folder its artifact is owned for. */
  predicate OwnedUnder(m: Machine, owned: map<ID, seq<string>>, l: Location) {
    l.artifact in owned && exists f :: f in owned[l.artifact] && m.under(f, l.value)
  }

  /** How many of the locations read so far keep the artifact here. */
  ghost function CountKept(m: Machine, store: Store, cs: seq<Checkpoint>, a: ID, read: seq<Location>): nat {
    if read == [] then 0
    else
      var last := read[|read| - 1];
      CountKept(m, store, cs, a, read[..|read| - 1]) + if last.artifact == a && Keeps(m, store, cs, last) then 1 else 0
  }

  function CountOf(staying: map<ID, nat>, a: ID): nat {
    if a in staying then staying[a] else 0
  }

  ghost predicate CountsKept(m: Machine, store: Store, cs: seq<Checkpoint>, staying: map<ID, nat>,
                             read: seq<Location>) {
    forall a :: CountOf(staying, a) == CountKept(m, store, cs, a, read)
  }

  ghost predicate KeptIn(m: Machine, store: Store, cs: seq<Checkpoint>, a: ID, read: seq<Location>) {
    exists l :: l in read && l.artifact == a && Keeps(m, store, cs, l)
  }

  /** Some location keeps the artifact exactly when the count is positive. */
  lemma {:induction false} CountTellsKept(m: Machine, store: Store, cs: seq<Checkpoint>, a: ID, read: seq<Location>)
    ensures CountKept(m, store, cs, a, read) > 0 <==> KeptIn(m, store, cs, a, read)
  {
    if read != [] {
      var before, last := read[..|read| - 1], read[|read| - 1];
      CountTellsKept(m, store, cs, a, before);
      assert forall l :: l in read <==> l in before || l == last;
    }
  }

  lemma CountOneMore(m: Machine, store: Store, cs: seq<Checkpoint>, staying: map<ID, nat>, read: seq<Location>,
                     l: Location)
    requires CountsKept(m, store, cs, staying, read)
    ensures !Keeps(m, store, cs, l) ==> CountsKept(m, store, cs, staying, read + [l])
    ensures Keeps(m, store, cs, l) ==>
              CountsKept(m, store, cs, staying[l.artifact := CountOf(staying, l.artifact) + 1], read + [l])
  {
    forall a ensures CountKept(m, store, cs, a, read + [l])
                  == CountKept(m, store, cs, a, read) + if l.artifact == a && Keeps(m, store, cs, l) then 1 else 0 {
      assert (read + [l])[..|read|] == read;
    }
  }

  /** A location that stays, under the run's directory. */
  ghost predicate ListedKept(m: Machine, store: Store, cs: seq<Checkpoint>, directory: string, l: Location) {
    !l.kind.RemoteLocation? && !Goes(m, store, cs, l) && m.under(directory, l.value)
  }

  function KeptEntry(l: Location): Entry {
    Entry(Delete, l.value, State.Kept, l.artifact.digest, 0, false)
  }

  /** The classification of the store's locations, in the order they are read. */
  method Classify(m: Machine, store: Store, cs: seq<Checkpoint>, directory: string, owned: map<ID, seq<string>>)
      returns (found: seq<Entry>, withdrawn: seq<Location>, staying: map<ID, nat>)
    requires Owned(store, cs, owned)
    ensures forall l :: l in withdrawn <==> l in store.locations && Goes(m, store, cs, l)
    ensures CountsKept(m, store, cs, staying, store.locations)
    ensures Facts(found) == LocationFacts(withdrawn) && Taken(found) == Values(withdrawn)
    ensures forall x :: x in found && !x.state.Finished? <==>
              exists l :: l in store.locations && ListedKept(m, store, cs, directory, l) && x == KeptEntry(l)
  {
    found, withdrawn, staying := [], [], map[];
    for i := 0 to |store.locations|
      invariant forall l :: l in withdrawn <==> l in store.locations[..i] && Goes(m, store, cs, l)
      invariant CountsKept(m, store, cs, staying, store.locations[..i])
      invariant Facts(found) == LocationFacts(withdrawn)
      invariant forall x :: x in found && !x.state.Finished? <==>
                  exists l :: l in store.locations[..i] && ListedKept(m, store, cs, directory, l) && x == KeptEntry(l)
    {
      var l := store.locations[i];
      ghost var read := store.locations[..i];
      assert store.locations[..i + 1] == read + [l];
      CountOneMore(m, store, cs, staying, read, l);
      if Local(l) {
        OwnedGoes(m, store, cs, owned, l);
        var entry := KeptEntry(l);
        if OwnedUnder(m, owned, l) {
          entry := entry.(state := Finished);
          withdrawn := AppendLocation(found, withdrawn, entry, l);
          found := found + [entry];
        } else {
          if Usable(m, l) {
            staying := staying[l.artifact := CountOf(staying, l.artifact) + 1];
          }
          if m.under(directory, l.value) {
            FactsMore(found, entry);
            found := found + [entry];
          }
        }
      }
    }
    assert store.locations[..|store.locations|] == store.locations;
    TakenIsFacts(found);
  }

  method AppendLocation(ghost found: seq<Entry>, before: seq<Location>, entry: Entry, l: Location)
      returns (withdrawn: seq<Location>)
    requires Facts(found) == LocationFacts(before) && entry.state.Finished? && FactOf(entry) == FactOfLocation(l)
    ensures withdrawn == before + [l] && Facts(found + [entry]) == LocationFacts(withdrawn)
  {
    FactsMore(found, entry);
    withdrawn := before + [l];
  }

  function Values(ls: seq<Location>): (values: seq<string>)
    ensures |values| == |ls| && forall i :: 0 <= i < |ls| ==> values[i] == ls[i].value
  {
    seq(|ls|, i requires 0 <= i < |ls| => ls[i].value)
  }

  /** What the listing's token is over, of a location to be withdrawn. */
  function FactOfLocation(l: Location): Fact {
    Fact(l.value, 0, l.artifact.digest)
  }

  function LocationFacts(ls: seq<Location>): (facts: seq<Fact>)
    ensures |facts| == |ls| && forall i :: 0 <= i < |ls| ==> facts[i] == FactOfLocation(ls[i])
  {
    seq(|ls|, i requires 0 <= i < |ls| => FactOfLocation(ls[i]))
  }

  /** The folders owned for an artifact are those of the checkpoints that account for it. */
  lemma OwnedGoes(m: Machine, store: Store, cs: seq<Checkpoint>, owned: map<ID, seq<string>>, l: Location)
    requires Owned(store, cs, owned) && Local(l)
    ensures Goes(m, store, cs, l) <==> OwnedUnder(m, owned, l)
  {
    var a := l.artifact;
    assert FolderSet(owned, a) == Folders(store, cs, a);
    if Goes(m, store, cs, l) {
      var i :| 0 <= i < |cs| && AccountsFor(store, cs[i], a) && m.under(cs[i].folder, l.value);
      assert cs[i].folder in FolderSet(owned, a);
    }
    if OwnedUnder(m, owned, l) {
      var f :| f in owned[a] && m.under(f, l.value);
      assert f in Folders(store, cs, a);
    }
  }

  // ----- the refusal ------------------------------------------------------------------------

  /** The locations' artifacts, in turn: one that is served and would have no
      directory left, or that a needed model contains and would have no location
      left, refuses the whole. */
  method Refused(m: Machine, store: Store, cs: seq<Checkpoint>, owned: map<ID, seq<string>>,
                 withdrawn: seq<Location>, staying: map<ID, nat>) returns (refused: bool)
    requires Owned(store, cs, owned)
    requires forall l :: l in withdrawn <==> l in store.locations && Goes(m, store, cs, l)
    requires CountsKept(m, store, cs, staying, store.locations)
    ensures refused <==> exists l :: l in store.locations && Strands(m, store, cs, l)
  {
    refused := false;
    for w := 0 to |withdrawn|
      invariant refused <==> exists k :: 0 <= k < w && Strands(m, store, cs, withdrawn[k])
    {
      var a := withdrawn[w].artifact;
      CountTellsKept(m, store, cs, a, store.locations);
      assert withdrawn[w] in withdrawn;
      if CountOf(staying, a) == 0 {
        var needed := ContainedByNeeded(store, cs, owned, a);
        refused := refused || a in store.activated || needed;
      }
    }
    StrandedIsWithdrawn(m, store, cs, withdrawn);
  }

  /** What strands an artifact is among the locations withdrawn. */
  lemma StrandedIsWithdrawn(m: Machine, store: Store, cs: seq<Checkpoint>, withdrawn: seq<Location>)
    requires forall l :: l in withdrawn <==> l in store.locations && Goes(m, store, cs, l)
    ensures (exists k :: 0 <= k < |withdrawn| && Strands(m, store, cs, withdrawn[k])) <==>
            exists l :: l in store.locations && Strands(m, store, cs, l)
  {
    if k :| 0 <= k < |withdrawn| && Strands(m, store, cs, withdrawn[k]) {
      assert withdrawn[k] in withdrawn;
    }
    if l :| l in store.locations && Strands(m, store, cs, l) {
      assert l in withdrawn;
    }
  }

  /** What strands an artifact, by the store alone: the location goes, every other of the
      artifact is elsewhere, goes too, or gives a model no directory, and the artifact is
      activated or contained in a model that is activated or no checkpoint accounts for. */
  lemma StrandsExactly(m: Machine, store: Store, cs: seq<Checkpoint>, l: Location)
    ensures Strands(m, store, cs, l) <==>
            && Goes(m, store, cs, l)
            && (forall k :: k in store.locations && k.artifact == l.artifact ==>
                  || k.kind.RemoteLocation? || Goes(m, store, cs, k)
                  || (k.artifact.kind.ModelKind? && k.kind.DirectoryLocation? && !m.isDirectory(k.value))
                  || (k.artifact.kind.ModelKind? && k.kind.FileLocation? && !m.isDirectory(m.parent(k.value))))
            && (|| l.artifact in store.activated
                || exists e :: e in store.edges && e.relation.Contains? && e.parent == l.artifact
                     && e.child.kind.ModelKind?
                     && (|| e.child in store.activated
                         || forall i :: 0 <= i < |cs| ==> !AccountsFor(store, cs[i], e.child)))
  {
    if Used(store, cs, l.artifact) && !Served(store, l.artifact) {
      var e :| e in store.edges && HoldsNeeded(store, cs, l.artifact, e);
    }
    forall e | e in store.edges && e.relation.Contains? && e.parent == l.artifact && e.child.kind.ModelKind?
      ensures HoldsNeeded(store, cs, l.artifact, e) <==>
              e.child in store.activated || forall i :: 0 <= i < |cs| ==> !AccountsFor(store, cs[i], e.child) {
    }
    assert KeptHere(m, store, cs, l.artifact) <==>
           exists k :: k in store.locations && k.artifact == l.artifact && Keeps(m, store, cs, k);
  }

  method ContainedByNeeded(store: Store, cs: seq<Checkpoint>, owned: map<ID, seq<string>>, a: ID) returns (needed: bool)
    requires Owned(store, cs, owned)
    ensures needed <==> HeldByNeeded(store, cs, a)
  {
    needed := false;
    for e := 0 to |store.edges|
      invariant needed <==> exists k :: 0 <= k < e && HoldsNeeded(store, cs, a, store.edges[k])
    {
      var edge := store.edges[e];
      OwnedIsAccounted(store, cs, owned, edge.child);
      if edge.parent == a && edge.relation.Contains? && edge.child.kind.ModelKind?
         && (edge.child in store.activated || edge.child !in owned) {
        assert HoldsNeeded(store, cs, a, store.edges[e]);
        needed := true;
      }
    }
    if HeldByNeeded(store, cs, a) {
      var e :| e in store.edges && HoldsNeeded(store, cs, a, e);
      var k :| 0 <= k < |store.edges| && store.edges[k] == e;
    }
  }

  // ----- the command -------------------------------------------------------------------------

  /** What the command did. */
  datatype Verdict = Stranding | Shown | NotConfirmed | NothingToDo | NotCommitted | Committed

  /** withdrawRegistrations, past its lock: read is the store as it was opened, now
      the store as it stands when the one commit reaches it. */
  method Withdraw(m: Machine, read: Store, now: Store, cs: seq<Checkpoint>, directory: string, token: string,
                  shown: string -> string, opens: bool, remover: Remover)
      returns (verdict: Verdict, after: Store, ghost withdrawn: seq<Location>)
    // A head names one history.
    requires now.head == read.head ==> now == read
    modifies remover
    ensures forall l :: l in withdrawn <==> l in read.locations && Goes(m, read, cs, l)
    ensures verdict == if exists l :: l in read.locations && Strands(m, read, cs, l) then Stranding
                       else if token == "" then Shown
                       else if token != shown(Framing(LocationFacts(withdrawn))) then NotConfirmed
                       else if withdrawn == [] then NothingToDo
                       else if opens && now.head == read.head then Committed
                       else NotCommitted
    ensures verdict.Committed? ==> now == read && after == read.Without(withdrawn)
    ensures verdict.Committed? ==> forall l :: l in after.locations <==> l in read.locations && !Goes(m, read, cs, l)
    ensures verdict.Committed? ==> forall gone :: gone in withdrawn && Used(read, cs, gone.artifact) ==>
                                     StaysHere(m, after, gone.artifact)
    ensures !verdict.Committed? ==> after == now
    ensures !verdict.Committed? ==>
              remover.attempted == old(remover.attempted) && remover.receipt == old(remover.receipt)
    ensures verdict.Committed? ==> remover.attempted == old(remover.attempted) + Values(withdrawn)
    ensures verdict.Committed? ==>
              remover.receipt == old(remover.receipt) + seq(|withdrawn|, i requires 0 <= i < |withdrawn| =>
                                                              Said(Done, withdrawn[i].value))
  {
    after := now;
    var owned := Own(read, cs);
    var found, gone, staying := Classify(m, read, cs, directory, owned);
    withdrawn := gone;
    var refused := Refused(m, read, cs, owned, gone, staying);
    if refused {
      return Stranding, after, withdrawn;
    }
    var agreed, printed, current := Confirmed(found, token, shown);
    if !agreed {
      return if token == "" then Shown else NotConfirmed, after, withdrawn;
    }
    if gone == [] {
      return NothingToDo, after, withdrawn;
    }
    // ExpectedHead: the commit is refused at any head but the one that was read.
    var commits := now.head == read.head;
    var ok := remover.RemoveFinished(found, opens, if commits then Commits else Commit.Refused,
                                     seq(|found|, _ => Removed));
    ReceiptOfWithdrawn(found, gone);
    if opens && commits {
      after := read.Without(gone);
      forall l | l in gone && Used(read, cs, l.artifact) ensures StaysHere(m, after, l.artifact) {
        NothingUsedIsStranded(m, read, cs, gone, l);
      }
      return Committed, after, withdrawn;
    }
    return NotCommitted, after, withdrawn;
  }

  /** The receipt says of each location withdrawn, in order, that it was. */
  lemma ReceiptOfWithdrawn(found: seq<Entry>, withdrawn: seq<Location>)
    requires Taken(found) == Values(withdrawn)
    ensures Receipt(found, seq(|found|, _ => Removed))
         == seq(|withdrawn|, i requires 0 <= i < |withdrawn| => Said(Done, withdrawn[i].value))
  {
    SaidIsTaken(found, seq(|found|, _ => Removed));
  }

  // ----- what the withdrawal leaves -------------------------------------------------------------

  /** Only locations under a checkpoint folder that accounts for their artifact are
      gone; every other is as it was, and nothing is added. */
  lemma OnlyAccountedGo(m: Machine, store: Store, cs: seq<Checkpoint>, withdrawn: seq<Location>, l: Location)
    requires forall x :: x in withdrawn <==> x in store.locations && Goes(m, store, cs, x)
    ensures l in store.Without(withdrawn).locations <==> l in store.locations && !Goes(m, store, cs, l)
    ensures l in store.locations ==>
              (l !in store.Without(withdrawn).locations <==>
                 && !l.kind.RemoteLocation?
                 && exists i :: 0 <= i < |cs| && AccountsFor(store, cs[i], l.artifact)
                                && m.under(cs[i].folder, l.value))
  {
  }

  /** Every withdrawn artifact that a served model contains, or a model no checkpoint
      of the run accounts for, still has a location on this machine, and a served
      model whose own location is withdrawn still has a directory there. */
  lemma NothingUsedIsStranded(m: Machine, store: Store, cs: seq<Checkpoint>, withdrawn: seq<Location>, gone: Location)
    requires forall x :: x in withdrawn <==> x in store.locations && Goes(m, store, cs, x)
    requires forall x :: x in store.locations ==> !Strands(m, store, cs, x)
    requires gone in withdrawn
    requires Used(store, cs, gone.artifact)
    ensures StaysHere(m, store.Without(withdrawn), gone.artifact)
  {
    assert !Strands(m, store, cs, gone);
    var l :| l in store.locations && l.artifact == gone.artifact && Keeps(m, store, cs, l);
    OnlyAccountedGo(m, store, cs, withdrawn, l);
  }

  /** A withdrawn artifact is left no usable location exactly when none but those withdrawn
      kept it here, and then nothing uses it: it is not served, and no model that is served
      or unaccounted for contains it itself. */
  lemma LastLocationGoesExactly(m: Machine, store: Store, cs: seq<Checkpoint>, withdrawn: seq<Location>, gone: Location)
    requires forall x :: x in withdrawn <==> x in store.locations && Goes(m, store, cs, x)
    requires forall x :: x in store.locations ==> !Strands(m, store, cs, x)
    requires gone in withdrawn
    ensures !StaysHere(m, store.Without(withdrawn), gone.artifact) <==> !KeptHere(m, store, cs, gone.artifact)
    ensures !StaysHere(m, store.Without(withdrawn), gone.artifact) ==> !Used(store, cs, gone.artifact)
  {
    var after := store.Without(withdrawn);
    if StaysHere(m, after, gone.artifact) {
      var l :| l in after.locations && l.artifact == gone.artifact && Local(l) && Usable(m, l);
      assert Keeps(m, store, cs, l);
    }
    if KeptHere(m, store, cs, gone.artifact) {
      var l :| l in store.locations && l.artifact == gone.artifact && Keeps(m, store, cs, l);
      assert l in after.locations;
    }
  }

  /** Only what a model contains itself is protected: the part of a part of a served model
      may lose its last location. */
  lemma PartOfAPartMayGo(m: Machine, served: ID, part: ID, inner: ID, id: ID, folder: string, value: string)
    requires served.kind.ModelKind? && part.kind.OtherKind? && inner.kind.OtherKind?
    requires |{served, part, inner, id}| == 4 && m.under(folder, value)
    ensures var l := Location(inner, FileLocation, value);
            var store := Store(0, [l], [Edge(part, served, Contains), Edge(inner, part, Contains)], map[], [served]);
            var cs := [Checkpoint(folder, id, inner, id)];
            && Used(store, cs, part)
            && Goes(m, store, cs, l) && !Strands(m, store, cs, l)
            && !StaysHere(m, store.Without([l]), inner)
  {
    var l := Location(inner, FileLocation, value);
    var edges := [Edge(part, served, Contains), Edge(inner, part, Contains)];
    var store := Store(0, [l], edges, map[], [served]);
    var cs := [Checkpoint(folder, id, inner, id)];
    assert IsRoot(store, cs[0], inner);
    assert AccountsFor(store, cs[0], inner) && cs[0].folder == folder;
    assert edges[0] in store.edges && HoldsNeeded(store, cs, part, edges[0]);
    assert forall e :: e in store.edges ==> e == edges[0] || e == edges[1];
    assert inner != served && inner != part && part != served;
  }

  /** A second withdrawal of the same run finds nothing to withdraw. */
  lemma NothingLeftToWithdraw(m: Machine, store: Store, cs: seq<Checkpoint>, withdrawn: seq<Location>, l: Location)
    requires forall x :: x in withdrawn <==> x in store.locations && Goes(m, store, cs, x)
    requires l in store.Without(withdrawn).locations
    ensures !Goes(m, store.Without(withdrawn), cs, l)
  {
    var after := store.Without(withdrawn);
    forall c, a ensures AccountsFor(after, c, a) <==> AccountsFor(store, c, a) {
      assert forall x :: IsRoot(after, c, x) <==> IsRoot(store, c, x);
    }
  }
}
