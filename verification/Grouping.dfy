/** A list grouped by key: the keys in the order they first occur, each with the
    members of all its items in the order those were given. */
module Grouping {
  datatype Group<K, V> = Group(key: K, members: seq<V>)

  predicate Distinct<T(==)>(s: seq<T>) {
    forall i, j :: 0 <= i < j < |s| ==> s[i] != s[j]
  }

  /** The keys that occur, each once. */
  function Keys<K(==), V>(items: seq<Group<K, V>>): (keys: seq<K>) {
    if items == [] then []
    else
      var before, key := Keys(items[..|items| - 1]), items[|items| - 1].key;
      if key in before then before else before + [key]
  }

  /** The members of the items under a key, end to end. */
  function Gathered<K(==), V>(key: K, items: seq<Group<K, V>>): seq<V> {
    if items == [] then []
    else
      var last := items[|items| - 1];
      Gathered(key, items[..|items| - 1]) + (if last.key == key then last.members else [])
  }

  function Grouped<K(==), V>(items: seq<Group<K, V>>): (groups: seq<Group<K, V>>)
    ensures |groups| == |Keys(items)|
    ensures forall i :: 0 <= i < |groups| ==> groups[i] == Group(Keys(items)[i], Gathered(Keys(items)[i], items))
  {
    seq(|Keys(items)|, i requires 0 <= i < |Keys(items)| => Group(Keys(items)[i], Gathered(Keys(items)[i], items)))
  }

  /** All members, of every group in turn. */
  function Flat<K, V>(items: seq<Group<K, V>>): seq<V> {
    if items == [] then [] else Flat(items[..|items| - 1]) + items[|items| - 1].members
  }

  // ----- the keys ------------------------------------------------------------------

  lemma {:induction false} KeysAreThose<K, V>(items: seq<Group<K, V>>, key: K)
    ensures key in Keys(items) <==> exists i :: 0 <= i < |items| && items[i].key == key
  {
    if items != [] {
      var before := items[..|items| - 1];
      KeysAreThose(before, key);
      assert items[|items| - 1].key == key ==> key in Keys(items);
      assert forall i :: 0 <= i < |before| ==> items[i] == before[i];
    }
  }

  lemma {:induction false} KeysAreDistinct<K, V>(items: seq<Group<K, V>>)
    ensures Distinct(Keys(items))
  {
    if items != [] {
      KeysAreDistinct(items[..|items| - 1]);
    }
  }

  /** The first item under the key. */
  ghost predicate FirstAt<K, V>(items: seq<Group<K, V>>, key: K, i: int) {
    0 <= i < |items| && items[i].key == key && forall j :: 0 <= j < i ==> items[j].key != key
  }

  /** Every key in the list of keys has a first item, and the keys stand in the order of those. */
  lemma {:induction false} KeysInFirstOrder<K, V>(items: seq<Group<K, V>>, a: int, b: int) returns (i: int, j: int)
    requires 0 <= a < b < |Keys(items)|
    ensures i < j && FirstAt(items, Keys(items)[a], i) && FirstAt(items, Keys(items)[b], j)
  {
    var n := |items| - 1;
    var before := items[..n];
    if b < |Keys(before)| {
      i, j := KeysInFirstOrder(before, a, b);
    } else {
      i := FirstOf(before, Keys(before)[a]);
      j := n;
      var key := items[n].key;
      KeysAreThose(before, key);
      forall k | 0 <= k < n ensures items[k].key != key {
        assert before[k].key != key;
      }
    }
    assert forall k :: 0 <= k < n ==> before[k] == items[k];
  }

  lemma {:induction false} FirstOf<K, V>(items: seq<Group<K, V>>, key: K) returns (i: int)
    requires key in Keys(items)
    ensures FirstAt(items, key, i)
  {
    var n := |items| - 1;
    if key in Keys(items[..n]) {
      i := FirstOf(items[..n], key);
      assert forall k :: 0 <= k < n ==> items[..n][k] == items[k];
    } else {
      i := n;
      KeysAreThose(items[..n], key);
      forall k | 0 <= k < n ensures items[k].key != key {
        assert items[..n][k].key != key;
      }
    }
  }

  // ----- one item more ---------------------------------------------------------------

  lemma {:induction false} NothingGathered<K, V>(key: K, items: seq<Group<K, V>>)
    requires key !in Keys(items)
    ensures Gathered(key, items) == []
  {
    if items != [] {
      NothingGathered(key, items[..|items| - 1]);
    }
  }

  lemma GatheredMore<K, V>(key: K, items: seq<Group<K, V>>, item: Group<K, V>)
    ensures Gathered(key, items + [item]) == Gathered(key, items) + (if item.key == key then item.members else [])
  {
    assert (items + [item])[..|items|] == items;
  }

  /** The groups with one item more under a key that a group has. */
  lemma GroupedAgain<K, V>(items: seq<Group<K, V>>, item: Group<K, V>, j: int)
    requires 0 <= j < |Keys(items)| && Keys(items)[j] == item.key
    ensures Grouped(items + [item]) == Grouped(items)[j := Group(item.key, Grouped(items)[j].members + item.members)]
  {
    var more := items + [item];
    assert more[..|more| - 1] == items;
    KeysAreDistinct(items);
    assert Keys(more) == Keys(items);
    var updated := Grouped(items)[j := Group(item.key, Grouped(items)[j].members + item.members)];
    forall i | 0 <= i < |updated| ensures Grouped(more)[i] == updated[i] {
      assert Gathered(Keys(items)[i], more)
          == Gathered(Keys(items)[i], items) + (if item.key == Keys(items)[i] then item.members else []);
    }
  }

  /** The groups with one item more under a key of its own. */
  lemma GroupedAnew<K, V>(items: seq<Group<K, V>>, item: Group<K, V>)
    requires item.key !in Keys(items)
    ensures Grouped(items + [item]) == Grouped(items) + [item]
  {
    var more := items + [item];
    assert more[..|more| - 1] == items;
    NothingGathered(item.key, items);
    assert Keys(more) == Keys(items) + [item.key];
    forall i | 0 <= i < |Keys(more)| ensures Grouped(more)[i] == (Grouped(items) + [item])[i] {
      assert Gathered(Keys(more)[i], more)
          == Gathered(Keys(more)[i], items) + (if item.key == Keys(more)[i] then item.members else []);
    }
  }

  // ----- what grouping keeps -----------------------------------------------------------

  /** The members, counted. */
  ghost function Bag<K, V>(items: seq<Group<K, V>>): multiset<V> {
    if items == [] then multiset{} else Bag(items[..|items| - 1]) + multiset(items[|items| - 1].members)
  }

  lemma {:induction false} BagOfFlat<K, V>(items: seq<Group<K, V>>)
    ensures multiset(Flat(items)) == Bag(items)
  {
    if items != [] {
      BagOfFlat(items[..|items| - 1]);
    }
  }

  lemma {:induction false} BagOfUpdate<K, V>(groups: seq<Group<K, V>>, j: int, extra: seq<V>)
    requires 0 <= j < |groups|
    ensures Bag(groups[j := Group(groups[j].key, groups[j].members + extra)]) == Bag(groups) + multiset(extra)
  {
    var n := |groups| - 1;
    var updated := groups[j := Group(groups[j].key, groups[j].members + extra)];
    if j == n {
      assert updated[..n] == groups[..n];
    } else {
      BagOfUpdate(groups[..n], j, extra);
      assert updated[..n] == groups[..n][j := updated[j]];
    }
  }

  lemma OneItemIsKept<K, V>(items: seq<Group<K, V>>, item: Group<K, V>)
    ensures Bag(Grouped(items + [item])) == Bag(Grouped(items)) + multiset(item.members)
  {
    if item.key in Keys(items) {
      var j :| 0 <= j < |Keys(items)| && Keys(items)[j] == item.key;
      GroupedAgain(items, item, j);
      BagOfUpdate(Grouped(items), j, item.members);
    } else {
      GroupedAnew(items, item);
    }
  }

  /** Nothing is lost, gained or doubled. */
  lemma {:induction false} MembersAreKept<K, V>(items: seq<Group<K, V>>)
    ensures multiset(Flat(Grouped(items))) == multiset(Flat(items))
  {
    BagIsKept(items, |items|);
    assert items[..|items|] == items;
    BagOfFlat(items);
    BagOfFlat(Grouped(items));
  }

  lemma FirstOneMore<T>(s: seq<T>, n: nat)
    requires n < |s|
    ensures s[..n] + [s[n]] == s[..n + 1]
  {
  }

  lemma {:induction false} BagIsKept<K, V>(items: seq<Group<K, V>>, n: nat)
    requires n <= |items|
    ensures Bag(Grouped(items[..n])) == Bag(items[..n])
  {
    if n > 0 {
      BagIsKept(items, n - 1);
      OneItemIsKept(items[..n - 1], items[n - 1]);
      FirstOneMore(items, n - 1);
    }
  }

  lemma SameCount<V>(a: seq<V>, b: seq<V>)
    requires multiset(a) == multiset(b)
    ensures |a| == |b|
  {
    assert |multiset(a)| == |multiset(b)|;
  }

  /** A list whose keys are distinct is grouped already. */
  lemma {:induction false} GroupedIsItself<K, V>(items: seq<Group<K, V>>)
    requires forall i, j :: 0 <= i < j < |items| ==> items[i].key != items[j].key
    ensures Grouped(items) == items
  {
    if items != [] {
      var before, last := items[..|items| - 1], items[|items| - 1];
      GroupedIsItself(before);
      KeysAreThose(before, last.key);
      assert items == before + [last];
      GroupedAnew(before, last);
    }
  }

  /** As many keys as items: no key occurs twice. */
  lemma {:induction false} AsManyKeys<K, V>(items: seq<Group<K, V>>)
    ensures |Keys(items)| <= |items|
    ensures |Keys(items)| == |items| ==> forall i, j :: 0 <= i < j < |items| ==> items[i].key != items[j].key
  {
    if items != [] {
      var before := items[..|items| - 1];
      AsManyKeys(before);
      KeysAreThose(before, items[|items| - 1].key);
      assert forall i :: 0 <= i < |before| ==> before[i] == items[i];
    }
  }

  /** What a key gathers is a member of the group, and nothing else is. */
  lemma {:induction false} GatheredIsOfKey<K, V>(key: K, items: seq<Group<K, V>>, v: V)
    ensures v in Gathered(key, items) <==>
              exists i :: 0 <= i < |items| && items[i].key == key && v in items[i].members
  {
    if items != [] {
      var n := |items| - 1;
      GatheredIsOfKey(key, items[..n], v);
      assert forall i :: 0 <= i < n ==> items[..n][i] == items[i];
    }
  }

  // ----- an index of the keys ------------------------------------------------------------

  /** The map gives each key its place among the keys. */
  ghost predicate IndexOf<K>(index: map<K, nat>, keys: seq<K>) {
    && (forall i :: 0 <= i < |keys| ==> keys[i] in index)
    && (forall key :: key in index ==> index[key] < |keys| && keys[index[key]] == key)
  }

  lemma IndexMore<K>(index: map<K, nat>, keys: seq<K>, key: K)
    requires IndexOf(index, keys) && key !in keys
    ensures IndexOf(index[key := |keys|], keys + [key])
  {
  }
}
