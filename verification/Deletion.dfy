/** A place's deletion, from its listing to its removals. */
module Deletion {
  import opened Leftovers
  import opened Removal
  import opened Weighing

  /** An entry as its place's rule decided it, not yet measured, with the tree at its
      path, if that is a path of the machine's and not a branch's name. */
  datatype Candidate = Candidate(path: string, state: State, rule: string, absolute: bool, tree: Node)

  function EntryOf(c: Candidate): Entry {
    Entry(Delete, c.path, c.state, c.rule, 0, false)
  }

  /** The listing's entry of a candidate: finished only when its rule and its whole
      tree agree, and then of exactly its files' bytes. */
  ghost predicate ListedAs(c: Candidate, e: Entry) {
    && e.path == c.path
    && (e.state.Finished? <==> c.state.Finished? && (c.absolute ==> AllSafe(c.tree)))
    && (e.state.Finished? ==> e.rule == c.rule && e.bytes == if c.absolute then Total(c.tree) else 0)
    && (!c.state.Finished? ==> e == Entry(Delete, c.path, c.state, c.rule, 0, false))
    && e.action == Delete && (e.state.Finished? ==> e.measured == c.absolute)
    && (c.state.Finished? && !e.state.Finished? ==>
          exists k :: FirstObstacle(c.tree, k) && e == Obstructed(EntryOf(c), c.tree, k))
  }

  ghost predicate AreListed(candidates: seq<Candidate>, found: seq<Entry>) {
    |found| == |candidates| && forall i :: 0 <= i < |found| ==> ListedAs(candidates[i], found[i])
  }

  /** listLeftovers of the one place, for a removal: only what its rule finished is weighed. */
  method ListPlace(candidates: seq<Candidate>) returns (found: seq<Entry>)
    ensures AreListed(candidates, found)
  {
    found := [];
    for i := 0 to |candidates|
      invariant AreListed(candidates[..i], found)
    {
      var c := candidates[i];
      var entry := EntryOf(c);
      if entry.state.Finished? && c.absolute {
        entry := WeighedForDeletion(entry, true, c.tree);
      } else if entry.state.Finished? {
        entry := Weighed(entry, false, true, c.tree);
      }
      assert ListedAs(c, entry);
      found := found + [entry];
    }
    assert candidates[..|candidates|] == candidates;
  }

  lemma {:induction false} TakenIsFinished(found: seq<Entry>, path: string)
    ensures path in Taken(found) <==> exists i :: 0 <= i < |found| && found[i].state.Finished? && found[i].path == path
  {
    if found != [] {
      TakenIsFinished(found[1..], path);
      assert forall i :: 0 <= i < |found[1..]| ==> found[1..][i] == found[i + 1];
      assert path in Taken(found) <==> (found[0].state.Finished? && found[0].path == path) || path in Taken(found[1..]);
      if exists i :: 0 <= i < |found| && found[i].state.Finished? && found[i].path == path {
        var i :| 0 <= i < |found| && found[i].state.Finished? && found[i].path == path;
        assert i > 0 ==> found[1..][i - 1] == found[i];
      }
    }
  }

  /** Some candidate of the path was finished by its rule and safe throughout. */
  ghost predicate WasSafe(candidates: seq<Candidate>, path: string) {
    exists i :: 0 <= i < |candidates| && candidates[i].path == path && candidates[i].state.Finished?
                && (candidates[i].absolute ==> AllSafe(candidates[i].tree))
  }

  lemma TakenWasSafe(candidates: seq<Candidate>, found: seq<Entry>, path: string)
    requires AreListed(candidates, found) && path in Taken(found)
    ensures WasSafe(candidates, path)
  {
    TakenIsFinished(found, path);
    var i :| 0 <= i < |found| && found[i].state.Finished? && found[i].path == path;
    assert ListedAs(candidates[i], found[i]);
  }

  /** deleteLeftovers, under its lock: the place is listed afresh, and what is attempted,
      on the token of that listing alone, is what the listing found finished, in which
      nothing was a link, a store or a backup, a lock that is taken, or unreadable. */
  method DeletePlace(remover: Remover, candidates: seq<Candidate>, token: string, shown: string -> string,
                     opens: bool, outcomes: seq<Outcome>)
      returns (agreed: bool, found: seq<Entry>)
    requires |outcomes| == |candidates|
    modifies remover
    ensures AreListed(candidates, found)
    ensures agreed <==> token != "" && token == shown(Framing(Facts(found)))
    ensures remover.attempted == old(remover.attempted) + if agreed && opens then Taken(found) else []
    ensures forall path :: path in Taken(found) ==> WasSafe(candidates, path)
  {
    found := ListPlace(candidates);
    var printed;
    agreed, printed := remover.Delete(found, token, shown, opens, outcomes);
    forall path | path in Taken(found) ensures WasSafe(candidates, path) {
      TakenWasSafe(candidates, found, path);
    }
  }

  /** A removal confirmed by the token of an earlier listing takes only what was
      finished and safe both when it was shown and when it was taken. */
  lemma ConfirmedWasSafe(shown: string -> string, before: seq<Candidate>, listed: seq<Entry>,
                         now: seq<Candidate>, found: seq<Entry>, path: string)
    requires forall x, y :: shown(x) == shown(y) ==> x == y
    requires AreListed(before, listed) && AreListed(now, found)
    requires NulFreeFacts(Facts(listed)) && NulFreeFacts(Facts(found))
    requires shown(Framing(Facts(listed))) == shown(Framing(Facts(found)))
    requires path in Taken(found)
    ensures WasSafe(before, path) && WasSafe(now, path)
  {
    ConfirmedRemovalIsExact(shown, listed, found, shown(Framing(Facts(listed))));
    TakenWasSafe(before, listed, path);
    TakenWasSafe(now, found, path);
  }
}
