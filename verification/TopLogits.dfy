/** The ids of the n greatest logits, kept in order in one array as the logits go by. */
module TopLogits {
  type Logits = seq<real>

  /** Where a is listed before b: the greater logit first, and of equals the lower id. */
  predicate Before(logits: Logits, a: nat, b: nat)
    requires a < |logits| && b < |logits|
  {
    logits[a] > logits[b] || (logits[a] == logits[b] && a < b)
  }

  ghost predicate Ids(logits: Logits, ids: seq<nat>) {
    forall k :: 0 <= k < |ids| ==> ids[k] < |logits|
  }

  ghost predicate InOrder(logits: Logits, ids: seq<nat>)
    requires Ids(logits, ids)
  {
    forall j, k :: 0 <= j < k < |ids| ==> Before(logits, ids[j], ids[k])
  }

  ghost predicate Complete(i: nat, ids: seq<nat>) {
    forall id: nat :: id < i ==> id in ids
  }

  /** All ids in order: the stable descending sort. */
  ghost predicate Ranking(logits: Logits, ids: seq<nat>) {
    Ids(logits, ids) && InOrder(logits, ids) && Complete(|logits|, ids)
  }

  /** Of the first i ids, the ones listed are in order, and those left out come after
      every one listed. */
  ghost predicate Top(logits: Logits, i: nat, ids: seq<nat>) {
    && i <= |logits| && Ids(logits, ids) && InOrder(logits, ids)
    && (forall k :: 0 <= k < |ids| ==> ids[k] < i)
    && (forall id: nat :: id < i && id !in ids ==> AfterAll(logits, id, ids))
  }

  ghost predicate AfterAll(logits: Logits, id: nat, ids: seq<nat>)
    requires Ids(logits, ids) && id < |logits|
  {
    forall k :: 0 <= k < |ids| ==> Before(logits, ids[k], id)
  }

  function Inserted(ids: seq<nat>, p: nat, id: nat): seq<nat>
    requires p <= |ids|
  {
    ids[..p] + [id] + ids[p..]
  }

  // ----- one logit more -------------------------------------------------------------------

  /** The next id may be listed at p. */
  ghost predicate Fits(logits: Logits, ids: seq<nat>, p: nat, id: nat)
    requires Ids(logits, ids) && id < |logits|
  {
    && p <= |ids|
    && (forall k :: 0 <= k < p ==> Before(logits, ids[k], id))
    && (forall k :: p <= k < |ids| ==> Before(logits, id, ids[k]))
  }

  lemma InsertedHolds(ids: seq<nat>, p: nat, id: nat, x: nat)
    requires p <= |ids|
    ensures x in Inserted(ids, p, id) <==> x in ids || x == id
  {
    var more := Inserted(ids, p, id);
    if x in ids {
      var k :| 0 <= k < |ids| && ids[k] == x;
      assert more[if k < p then k else k + 1] == x;
    }
    assert more[p] == id;
  }

  /** There is room: the next id is listed in its place. */
  lemma TopWithRoom(logits: Logits, i: nat, ids: seq<nat>, p: nat)
    requires Top(logits, i, ids) && i < |logits| && Complete(i, ids) && Fits(logits, ids, p, i)
    ensures Top(logits, i + 1, Inserted(ids, p, i)) && Complete(i + 1, Inserted(ids, p, i))
  {
    forall id: nat | id < i + 1 ensures id in Inserted(ids, p, i) {
      InsertedHolds(ids, p, i, id);
    }
    forall k | 0 <= k < |Inserted(ids, p, i)| ensures Inserted(ids, p, i)[k] < i + 1 {
      InsertedHolds(ids, p, i, Inserted(ids, p, i)[k]);
    }
  }

  /** There is no room, and the next id is listed: the last one listed is left out. */
  lemma TopWithoutRoom(logits: Logits, i: nat, ids: seq<nat>, p: nat)
    requires Top(logits, i, ids) && i < |logits| && Fits(logits, ids, p, i) && p < |ids|
    ensures Top(logits, i + 1, Inserted(ids, p, i)[..|ids|])
  {
    var more := Inserted(ids, p, i);
    var kept := more[..|ids|];
    forall k | 0 <= k < |kept| ensures kept[k] < i + 1 {
      InsertedHolds(ids, p, i, kept[k]);
    }
    forall id: nat | id < i + 1 && id !in kept ensures AfterAll(logits, id, kept) {
      InsertedHolds(ids, p, i, id);
      if id in more {
        assert id == more[|ids|];
      } else {
        LaterThanInserted(logits, ids, p, i, id);
      }
    }
  }

  lemma LaterThanInserted(logits: Logits, ids: seq<nat>, p: nat, i: nat, id: nat)
    requires Ids(logits, ids) && i < |logits| && Fits(logits, ids, p, i) && p < |ids|
    requires id < |logits| && AfterAll(logits, id, ids)
    ensures Ids(logits, Inserted(ids, p, i)) && AfterAll(logits, id, Inserted(ids, p, i))
  {
    var more := Inserted(ids, p, i);
    assert Before(logits, i, ids[p]) && Before(logits, ids[p], id);
    forall k | 0 <= k < |more| ensures more[k] < |logits| && Before(logits, more[k], id) {
      assert more[k] == if k < p then ids[k] else if k == p then i else ids[k - 1];
    }
  }

  // ----- topLogitIndices -------------------------------------------------------------------

  /** copy(a[p + 1:], a[p:]), of the first count elements: the last is written over. */
  method CopyUp(a: array<nat>, p: nat, count: nat)
    requires p < count <= a.Length
    modifies a
    ensures a[..p] == old(a[..p]) && a[p + 1..count] == old(a[p..count - 1]) && a[count..] == old(a[count..])
  {
    var k := count - 1;
    while k > p
      invariant p <= k < count
      invariant a[..k + 1] == old(a[..k + 1]) && a[k + 1..count] == old(a[k..count - 1])
      invariant a[count..] == old(a[count..])
    {
      a[k] := a[k - 1];
      k := k - 1;
    }
  }

  /** Room is made at p, by one element more or by the last, and the id is put there. */
  method InsertAt(top: array<nat>, count: nat, p: nat, id: nat) returns (after: nat)
    requires p <= count <= top.Length && p < top.Length
    modifies top
    ensures after == if count < top.Length then count + 1 else count
    ensures top[..after] == if count < top.Length then Inserted(old(top[..count]), p, id)
                            else Inserted(old(top[..count]), p, id)[..count]
  {
    after := if count < top.Length then count + 1 else count;
    CopyUp(top, p, after);
    top[p] := id;
    assert top[..after] == old(top[..p]) + [id] + old(top[p..after - 1]);
    InsertedInRoom(old(top[..count]), p, id, after);
  }

  lemma InsertedInRoom(ids: seq<nat>, p: nat, id: nat, n: nat)
    requires p <= |ids| && p < n && |ids| <= n <= |ids| + 1
    ensures ids[..p] + [id] + ids[p..n - 1] == Inserted(ids, p, id)[..n]
    ensures n == |ids| + 1 ==> Inserted(ids, p, id)[..n] == Inserted(ids, p, id)
  {
  }

  /** The scan from the back, past every id of a lesser logit. */
  method Position(logits: Logits, top: array<nat>, count: nat, id: nat) returns (position: nat)
    requires count <= top.Length && id < |logits| && Top(logits, id, top[..count])
    ensures Fits(logits, top[..count], position, id)
  {
    position := count;
    while position > 0 && logits[id] > logits[top[position - 1]]
      invariant position <= count
      invariant forall k :: position <= k < count ==> Before(logits, id, top[..count][k])
    {
      position := position - 1;
    }
  }

  /** topLogitIndices: the first n of the stable descending sort, or all there are. */
  method TopLogitIndices(logits: Logits, n: nat) returns (top: array<nat>)
    ensures fresh(top) && top.Length == if n > |logits| then |logits| else n
    ensures Top(logits, |logits|, top[..])
    ensures n >= |logits| ==> Complete(|logits|, top[..])
    ensures forall k :: 0 <= k < top.Length ==> top[k] < |logits|
    ensures forall j, k :: 0 <= j < k < top.Length ==>
              logits[top[j]] > logits[top[k]] || (logits[top[j]] == logits[top[k]] && top[j] < top[k])
    ensures forall id: nat, k :: id < |logits| && id !in top[..] && 0 <= k < top.Length ==>
              logits[top[k]] > logits[id] || (logits[top[k]] == logits[id] && top[k] < id)
  {
    top := new nat[if n > |logits| then |logits| else n];
    var count := 0;
    for id := 0 to |logits|
      invariant count <= top.Length
      invariant Listing(logits, id, top[..count], top.Length)
    {
      var position := Position(logits, top, count, id);
      if position < top.Length {
        TopInserted(logits, id, top[..count], position, top.Length);
        count := InsertAt(top, count, position, id);
      } else {
        NextIsLeftOut(logits, id, top[..count], position, top.Length);
      }
    }
    assert top[..top.Length] == top[..];
    RankedExactly(logits, top[..]);
  }

  /** By the logits themselves: each listed is greater than the next, or as great and of the
      lower id, and so is each listed against any left out. */
  lemma RankedExactly(logits: Logits, ids: seq<nat>)
    requires Top(logits, |logits|, ids)
    ensures forall k :: 0 <= k < |ids| ==> ids[k] < |logits|
    ensures forall j, k :: 0 <= j < k < |ids| ==>
              logits[ids[j]] > logits[ids[k]] || (logits[ids[j]] == logits[ids[k]] && ids[j] < ids[k])
    ensures forall id: nat, k :: id < |logits| && id !in ids && 0 <= k < |ids| ==>
              logits[ids[k]] > logits[id] || (logits[ids[k]] == logits[id] && ids[k] < id)
  {
    forall j, k | 0 <= j < k < |ids|
      ensures logits[ids[j]] > logits[ids[k]] || (logits[ids[j]] == logits[ids[k]] && ids[j] < ids[k]) {
      assert Before(logits, ids[j], ids[k]);
    }
    forall id: nat, k | id < |logits| && id !in ids && 0 <= k < |ids|
      ensures logits[ids[k]] > logits[id] || (logits[ids[k]] == logits[id] && ids[k] < id) {
      assert AfterAll(logits, id, ids) && Before(logits, ids[k], id);
    }
  }

  /** The list of at most n, once i ids have gone by. */
  ghost predicate Listing(logits: Logits, i: nat, ids: seq<nat>, n: nat) {
    Top(logits, i, ids) && |ids| == (if i < n then i else n) && (i <= n ==> Complete(i, ids))
  }

  lemma NextIsLeftOut(logits: Logits, i: nat, ids: seq<nat>, p: nat, n: nat)
    requires Listing(logits, i, ids, n) && i < |logits| && Fits(logits, ids, p, i) && p >= n
    ensures Listing(logits, i + 1, ids, n)
  {
  }

  /** The next id listed in its place, in a list of at most n. */
  lemma TopInserted(logits: Logits, i: nat, ids: seq<nat>, p: nat, n: nat)
    requires Listing(logits, i, ids, n) && i < |logits| && Fits(logits, ids, p, i) && p < n
    ensures var more := Inserted(ids, p, i);
            Listing(logits, i + 1, if i < n then more else more[..n], n)
  {
    if i < n {
      TopWithRoom(logits, i, ids, p);
    } else {
      TopWithoutRoom(logits, i, ids, p);
    }
  }

  // ----- the stable descending sort ------------------------------------------------------------

  /** What is listed is where the ranking begins. */
  lemma {:induction false} TopIsPrefix(logits: Logits, ids: seq<nat>, ranking: seq<nat>, k: nat)
    requires Top(logits, |logits|, ids) && Ranking(logits, ranking) && k <= |ids|
    ensures k <= |ranking| && ids[..k] == ranking[..k]
  {
    if k > 0 {
      TopIsPrefix(logits, ids, ranking, k - 1);
      NextIsSame(logits, ids, ranking, k - 1);
      assert ids[..k] == ids[..k - 1] + [ids[k - 1]] && ranking[..k] == ranking[..k - 1] + [ranking[k - 1]];
    }
  }

  lemma NextIsSame(logits: Logits, ids: seq<nat>, ranking: seq<nat>, k: nat)
    requires Top(logits, |logits|, ids) && Ranking(logits, ranking)
    requires k < |ids| && k <= |ranking| && ids[..k] == ranking[..k]
    ensures k < |ranking| && ranking[k] == ids[k]
  {
    assert ids[k] in ranking;
    var q :| 0 <= q < |ranking| && ranking[q] == ids[k];
    NoneEarlier(logits, ids, ranking, k);
  }

  /** What the ranking has next is what is listed next or comes after it. */
  lemma NoneEarlier(logits: Logits, ids: seq<nat>, ranking: seq<nat>, k: nat)
    requires Top(logits, |logits|, ids) && Ranking(logits, ranking)
    requires k < |ids| && k < |ranking| && ids[..k] == ranking[..k]
    ensures ranking[k] == ids[k] || Before(logits, ids[k], ranking[k])
  {
    if ranking[k] in ids {
      var r :| 0 <= r < |ids| && ids[r] == ranking[k];
    }
  }

  /** There is a ranking of the first i ids. */
  lemma {:induction false} RankingExists(logits: Logits, i: nat) returns (ids: seq<nat>)
    requires i <= |logits|
    ensures Top(logits, i, ids) && Complete(i, ids)
  {
    ids := [];
    if i > 0 {
      ids := RankingExists(logits, i - 1);
      var p := |ids|;
      while p > 0 && logits[i - 1] > logits[ids[p - 1]]
        invariant 0 <= p <= |ids| && forall k :: p <= k < |ids| ==> Before(logits, i - 1, ids[k])
      {
        p := p - 1;
      }
      TopWithRoom(logits, i - 1, ids, p);
      ids := Inserted(ids, p, i - 1);
    }
  }

  /** There is one ranking, and what is listed is where it begins. */
  lemma TopBeginsTheRanking(logits: Logits, ids: seq<nat>) returns (ranking: seq<nat>)
    requires Top(logits, |logits|, ids)
    ensures Ranking(logits, ranking) && ids <= ranking
    ensures forall other: seq<nat> :: Ranking(logits, other) ==> ranking <= other && ids <= other
  {
    ranking := RankingExists(logits, |logits|);
    TopIsPrefix(logits, ids, ranking, |ids|);
    assert ids == ids[..|ids|];
    forall other: seq<nat> | Ranking(logits, other) ensures ranking <= other && ids <= other {
      TopIsPrefix(logits, ids, other, |ids|);
      TopIsPrefix(logits, ranking, other, |ranking|);
      assert ranking == ranking[..|ranking|];
    }
  }
}
