/** The compilation of an evaluation manifest: paths made normal, and the requests
    for one model merged. */
module ManifestMerge {
  import opened Text
  import opened Grouping

  /** What a request asks besides its suites. */
  datatype Terms = Terms(recipe: string, judge: string, task: string, projector: string, mediaRoot: string)

  datatype Request = Request(path: string, suites: seq<string>, terms: Terms)

  datatype Manifest = Manifest(repository: string, catalog: string, codeCommit: string, device: int,
                               models: seq<Request>, protocol: string)

  datatype Refusal = Incomplete | ModelAbsent | SuiteAbsent

  datatype Outcome<T> = Done(value: T) | Refused(why: Refusal)

  /** A path as filepath.Clean writes it; the rules of that are the parameter. */
  type Cleaner = string -> string

  function Normal(clean: Cleaner, path: string): string {
    clean(TrimSpace(path))
  }

  function Normals(clean: Cleaner, paths: seq<string>): (normals: seq<string>)
    ensures |normals| == |paths|
    ensures forall i :: 0 <= i < |paths| ==> normals[i] == Normal(clean, paths[i])
  {
    seq(|paths|, i requires 0 <= i < |paths| => Normal(clean, paths[i]))
  }

  // ----- what is refused -----------------------------------------------------------------

  /** The manifest itself lacks something. */
  predicate Lacking(clean: Cleaner, value: Manifest) {
    || TrimSpace(value.repository) == ""
    || Normal(clean, value.catalog) == "."
    || TrimSpace(value.codeCommit) == ""
    || value.device < 0
    || value.models == []
  }

  predicate NoModel(clean: Cleaner, request: Request) {
    Normal(clean, request.path) == "." || request.suites == []
  }

  predicate NoSuite(clean: Cleaner, request: Request) {
    "." in Normals(clean, request.suites)
  }

  predicate Sound(clean: Cleaner, request: Request) {
    !NoModel(clean, request) && !NoSuite(clean, request)
  }

  predicate AllSound(clean: Cleaner, models: seq<Request>) {
    forall i :: 0 <= i < |models| ==> Sound(clean, models[i])
  }

  /** The first request that is not sound is refused for its model or path, or else its suites. */
  ghost predicate RefusedAt(clean: Cleaner, models: seq<Request>, i: nat, why: Refusal) {
    && i < |models| && AllSound(clean, models[..i])
    && (why == ModelAbsent <==> NoModel(clean, models[i]))
    && (why == SuiteAbsent <==> !NoModel(clean, models[i]) && NoSuite(clean, models[i]))
    && why != Incomplete
  }

  // ----- what is merged ----------------------------------------------------------------------

  function Items(clean: Cleaner, models: seq<Request>): (items: seq<Group<string, string>>)
    ensures |items| == |models|
    ensures forall i :: 0 <= i < |items| ==> items[i] == ItemOf(clean, models[i])
  {
    seq(|models|, i requires 0 <= i < |models| => ItemOf(clean, models[i]))
  }

  function ItemOf(clean: Cleaner, request: Request): Group<string, string> {
    Group(Normal(clean, request.path), Normals(clean, request.suites))
  }

  /** The request merges all requests for its path: its suites are theirs in order,
      and its terms those of the first. */
  ghost predicate Merges(clean: Cleaner, models: seq<Request>, group: Group<string, string>, request: Request) {
    && request.path == group.key && request.suites == group.members
    && exists i :: FirstAt(Items(clean, models), group.key, i) && request.terms == models[i].terms
  }

  ghost predicate AreMerged(clean: Cleaner, models: seq<Request>, groups: seq<Group<string, string>>,
                            merged: seq<Request>) {
    |merged| == |groups| && forall j :: 0 <= j < |groups| ==> Merges(clean, models, groups[j], merged[j])
  }

  ghost predicate IsMerged(clean: Cleaner, models: seq<Request>, merged: seq<Request>) {
    AreMerged(clean, models, Grouped(Items(clean, models)), merged)
  }

  lemma ItemsMore(clean: Cleaner, models: seq<Request>, i: nat)
    requires i < |models|
    ensures Items(clean, models[..i + 1]) == Items(clean, models[..i]) + [ItemOf(clean, models[i])]
  {
  }

  lemma MergedStay(clean: Cleaner, models: seq<Request>, n: nat, group: Group<string, string>, request: Request)
    requires n < |models| && Merges(clean, models[..n], group, request)
    ensures Merges(clean, models[..n + 1], group, request)
  {
    var i :| FirstAt(Items(clean, models[..n]), group.key, i) && request.terms == models[..n][i].terms;
    ItemsMore(clean, models, n);
    assert models[..n + 1][i] == models[..n][i];
  }

  /** A request for a path not asked for yet stands on its own. */
  lemma MergedAnew(clean: Cleaner, models: seq<Request>, n: nat, merged: seq<Request>)
    requires n < |models| && IsMerged(clean, models[..n], merged)
    requires var item := ItemOf(clean, models[n]); item.key !in Keys(Items(clean, models[..n]))
    ensures var item, items := ItemOf(clean, models[n]), Items(clean, models[..n]);
            && Keys(Items(clean, models[..n + 1])) == Keys(items) + [item.key]
            && IsMerged(clean, models[..n + 1], merged + [Request(item.key, item.members, models[n].terms)])
  {
    var item, items := ItemOf(clean, models[n]), Items(clean, models[..n]);
    var added := Request(item.key, item.members, models[n].terms);
    ItemsMore(clean, models, n);
    GroupedAnew(items, item);
    assert (items + [item])[..n] == items;
    AnewMerges(clean, models, n);
    forall j | 0 <= j < |merged| ensures Merges(clean, models[..n + 1], Grouped(items)[j], merged[j]) {
      MergedStay(clean, models, n, Grouped(items)[j], merged[j]);
    }
    assert AreMerged(clean, models[..n + 1], Grouped(items) + [item], merged + [added]);
  }

  lemma AnewMerges(clean: Cleaner, models: seq<Request>, n: nat)
    requires n < |models|
    requires var item := ItemOf(clean, models[n]); item.key !in Keys(Items(clean, models[..n]))
    ensures var item := ItemOf(clean, models[n]);
            Merges(clean, models[..n + 1], item, Request(item.key, item.members, models[n].terms))
  {
    var item, items := ItemOf(clean, models[n]), Items(clean, models[..n]);
    ItemsMore(clean, models, n);
    KeysAreThose(items, item.key);
    assert forall k :: 0 <= k < n ==> (items + [item])[k] == items[k];
    assert FirstAt(items + [item], item.key, n);
    assert models[..n + 1][n] == models[n];
  }

  /** A request for a path asked for before adds its suites to that one's. */
  lemma MergedAgain(clean: Cleaner, models: seq<Request>, n: nat, merged: seq<Request>, j: nat)
    requires n < |models| && IsMerged(clean, models[..n], merged)
    requires var keys := Keys(Items(clean, models[..n])); j < |keys| && keys[j] == ItemOf(clean, models[n]).key
    ensures var item, items := ItemOf(clean, models[n]), Items(clean, models[..n]);
            && Keys(Items(clean, models[..n + 1])) == Keys(items)
            && IsMerged(clean, models[..n + 1], merged[j := merged[j].(suites := merged[j].suites + item.members)])
  {
    var item, items := ItemOf(clean, models[n]), Items(clean, models[..n]);
    var groups := Grouped(items);
    ItemsMore(clean, models, n);
    GroupedAgain(items, item, j);
    assert (items + [item])[..n] == items;
    forall k | 0 <= k < |merged| ensures Merges(clean, models[..n + 1], groups[k], merged[k]) {
      MergedStay(clean, models, n, groups[k], merged[k]);
    }
    assert AreMerged(clean, models[..n + 1], groups[j := Group(item.key, groups[j].members + item.members)],
                     merged[j := merged[j].(suites := merged[j].suites + item.members)]);
  }

  // ----- compileManifest ---------------------------------------------------------------------

  /** The loop over one request's suites: each made normal in its place, up to the
      first that is absent. */
  method NormalSuites(clean: Cleaner, given: seq<string>) returns (ok: bool, suites: seq<string>)
    ensures ok <==> "." !in Normals(clean, given)
    ensures ok ==> suites == Normals(clean, given)
    ensures ok <==> forall i :: 0 <= i < |given| ==> clean(TrimSpace(given[i])) != "."
    ensures ok ==> |suites| == |given| && forall i :: 0 <= i < |given| ==> suites[i] == clean(TrimSpace(given[i]))
  {
    suites := given;
    for i := 0 to |given|
      invariant |suites| == |given| && suites[i..] == given[i..]
      invariant forall k :: 0 <= k < i ==> suites[k] == Normal(clean, given[k]) != "."
    {
      assert suites[i..][0] == given[i..][0];
      suites := suites[i := Normal(clean, suites[i])];
      if suites[i] == "." {
        assert Normals(clean, given)[i] == ".";
        return false, [];
      }
    }
    ok := true;
  }

  /** The first n requests, merged and indexed. */
  ghost predicate Merging(clean: Cleaner, requests: seq<Request>, n: nat, models: seq<Request>,
                          index: map<string, nat>) {
    && n <= |requests| && AllSound(clean, requests[..n])
    && IsMerged(clean, requests[..n], models)
    && IndexOf(index, Keys(Items(clean, requests[..n])))
  }

  lemma SoundMore(clean: Cleaner, requests: seq<Request>, n: nat)
    requires n < |requests| && AllSound(clean, requests[..n]) && Sound(clean, requests[n])
    ensures AllSound(clean, requests[..n + 1])
  {
    assert forall i :: 0 <= i < n ==> requests[..n + 1][i] == requests[..n][i];
  }

  lemma MergingAnew(clean: Cleaner, requests: seq<Request>, n: nat, models: seq<Request>, index: map<string, nat>)
    requires Merging(clean, requests, n, models, index) && n < |requests| && Sound(clean, requests[n])
    requires Normal(clean, requests[n].path) !in index
    ensures var item := ItemOf(clean, requests[n]);
            Merging(clean, requests, n + 1, models + [Request(item.key, item.members, requests[n].terms)],
                    index[item.key := |models|])
  {
    var keys := Keys(Items(clean, requests[..n]));
    SoundMore(clean, requests, n);
    MergedAnew(clean, requests, n, models);
    IndexMore(index, keys, ItemOf(clean, requests[n]).key);
  }

  lemma MergingAgain(clean: Cleaner, requests: seq<Request>, n: nat, models: seq<Request>, index: map<string, nat>)
    requires Merging(clean, requests, n, models, index) && n < |requests| && Sound(clean, requests[n])
    requires Normal(clean, requests[n].path) in index
    ensures var item := ItemOf(clean, requests[n]);
            var j := index[item.key];
            && j < |models|
            && Merging(clean, requests, n + 1,
                       models[j := models[j].(suites := models[j].suites + item.members)], index)
  {
    SoundMore(clean, requests, n);
    MergedAgain(clean, requests, n, models, index[Normal(clean, requests[n].path)]);
  }

  /** The loop over the requests. */
  method MergeModels(clean: Cleaner, requests: seq<Request>) returns (outcome: Outcome<seq<Request>>)
    ensures outcome.Done? ==> AllSound(clean, requests) && IsMerged(clean, requests, outcome.value)
    ensures outcome.Refused? ==> exists i: nat :: RefusedAt(clean, requests, i, outcome.why)
  {
    var models: seq<Request> := [];
    var indexByPath: map<string, nat> := map[];
    for i := 0 to |requests|
      invariant Merging(clean, requests, i, models, indexByPath)
    {
      var request := requests[i];
      var path := Normal(clean, request.path);
      if path == "." || request.suites == [] {
        assert RefusedAt(clean, requests, i, ModelAbsent);
        return Refused(ModelAbsent);
      }
      var ok, suites := NormalSuites(clean, request.suites);
      if !ok {
        assert RefusedAt(clean, requests, i, SuiteAbsent);
        return Refused(SuiteAbsent);
      }
      if path in indexByPath {
        var index := indexByPath[path];
        MergingAgain(clean, requests, i, models, indexByPath);
        models := models[index := models[index].(suites := models[index].suites + suites)];
      } else {
        MergingAnew(clean, requests, i, models, indexByPath);
        indexByPath, models := indexByPath[path := |models|], models + [Request(path, suites, request.terms)];
      }
    }
    assert requests[..|requests|] == requests;
    outcome := Done(models);
  }

  predicate ModelGiven(clean: Cleaner, request: Request) {
    clean(TrimSpace(request.path)) != "." && |request.suites| > 0
  }

  predicate SuitesGiven(clean: Cleaner, request: Request) {
    forall x :: x in request.suites ==> clean(TrimSpace(x)) != "."
  }

  lemma SoundExactly(clean: Cleaner, request: Request)
    ensures Sound(clean, request) <==> ModelGiven(clean, request) && SuitesGiven(clean, request)
    ensures NoModel(clean, request) <==> !ModelGiven(clean, request)
  {
    var normals := Normals(clean, request.suites);
    if k :| 0 <= k < |normals| && normals[k] == "." {
      assert request.suites[k] in request.suites;
    }
    if x :| x in request.suites && clean(TrimSpace(x)) == "." {
      var k :| 0 <= k < |request.suites| && request.suites[k] == x;
      assert normals[k] == ".";
    }
  }

  lemma AllSoundExactly(clean: Cleaner, models: seq<Request>)
    ensures AllSound(clean, models) <==>
            forall i :: 0 <= i < |models| ==> ModelGiven(clean, models[i]) && SuitesGiven(clean, models[i])
  {
    forall i | 0 <= i < |models|
      ensures Sound(clean, models[i]) <==> ModelGiven(clean, models[i]) && SuitesGiven(clean, models[i]) {
      SoundExactly(clean, models[i]);
    }
  }

  /** The first request that is not sound gave no model, or else an absent suite. */
  lemma RefusedExactly(clean: Cleaner, models: seq<Request>, why: Refusal)
    requires exists i: nat :: RefusedAt(clean, models, i, why)
    ensures why != Incomplete
    ensures exists i :: 0 <= i < |models|
                        && (forall j :: 0 <= j < i ==> ModelGiven(clean, models[j]) && SuitesGiven(clean, models[j]))
                        && (why == ModelAbsent <==> !ModelGiven(clean, models[i]))
                        && (why == SuiteAbsent <==> ModelGiven(clean, models[i]) && !SuitesGiven(clean, models[i]))
  {
    var i: nat :| RefusedAt(clean, models, i, why);
    SoundExactly(clean, models[i]);
    AllSoundExactly(clean, models[..i]);
    assert forall j :: 0 <= j < i ==> models[j] == models[..i][j];
  }

  /** compileManifest: refused as a whole, or at the first request that is not sound, or
      else the requests merged and every other field as it was but made normal. */
  method CompileManifest(clean: Cleaner, value: Manifest) returns (outcome: Outcome<Manifest>)
    ensures outcome == Refused(Incomplete) <==> Lacking(clean, value)
    ensures outcome.Done? <==> !Lacking(clean, value) && AllSound(clean, value.models)
    ensures outcome.Done? ==> IsCompiled(clean, value, outcome.value)
    ensures outcome.Refused? && !Lacking(clean, value) ==>
              exists i: nat :: RefusedAt(clean, value.models, i, outcome.why)
    ensures outcome == Refused(Incomplete) <==>
            || TrimSpace(value.repository) == "" || clean(TrimSpace(value.catalog)) == "."
            || TrimSpace(value.codeCommit) == "" || value.device < 0 || |value.models| == 0
    ensures outcome == Refused(ModelAbsent) || outcome == Refused(SuiteAbsent) ==>
              exists i :: 0 <= i < |value.models|
                          && (forall j :: 0 <= j < i ==>
                                ModelGiven(clean, value.models[j]) && SuitesGiven(clean, value.models[j]))
                          && (outcome == Refused(ModelAbsent) <==> !ModelGiven(clean, value.models[i]))
                          && (outcome == Refused(SuiteAbsent) <==>
                                ModelGiven(clean, value.models[i]) && !SuitesGiven(clean, value.models[i]))
    ensures outcome.Done? ==>
              && (forall i :: 0 <= i < |value.models| ==>
                    ModelGiven(clean, value.models[i]) && SuitesGiven(clean, value.models[i]))
              && outcome.value.repository == TrimSpace(value.repository)
              && outcome.value.catalog == clean(TrimSpace(value.catalog))
              && outcome.value.codeCommit == TrimSpace(value.codeCommit)
              && outcome.value.device == value.device && outcome.value.protocol == value.protocol
  {
    AllSoundExactly(clean, value.models);
    var repository, catalog := TrimSpace(value.repository), Normal(clean, value.catalog);
    var codeCommit := TrimSpace(value.codeCommit);
    if repository == "" || catalog == "." || codeCommit == "" || value.device < 0 || value.models == [] {
      return Refused(Incomplete);
    }
    var merged := MergeModels(clean, value.models);
    if merged.Refused? {
      RefusedExactly(clean, value.models, merged.why);
      return Refused(merged.why);
    }
    outcome := Done(Manifest(repository, catalog, codeCommit, value.device, merged.value, value.protocol));
  }

  ghost predicate IsCompiled(clean: Cleaner, value: Manifest, compiled: Manifest) {
    && compiled == Manifest(TrimSpace(value.repository), Normal(clean, value.catalog), TrimSpace(value.codeCommit),
                            value.device, compiled.models, value.protocol)
    && IsMerged(clean, value.models, compiled.models)
  }

  // ----- what a compiled manifest says ----------------------------------------------------------

  /** The models' paths are distinct and in the order they are first asked for. */
  lemma PathsInFirstOrder(clean: Cleaner, requests: seq<Request>, merged: seq<Request>, a: nat, b: nat)
      returns (i: int, j: int)
    requires IsMerged(clean, requests, merged) && a < b < |merged|
    ensures merged[a].path != merged[b].path
    ensures i < j
    ensures FirstAt(Items(clean, requests), merged[a].path, i) && FirstAt(Items(clean, requests), merged[b].path, j)
    ensures clean(TrimSpace(requests[i].path)) == merged[a].path && merged[a].terms == requests[i].terms
  {
    var items := Items(clean, requests);
    KeysAreDistinct(items);
    i, j := KeysInFirstOrder(items, a, b);
    assert Merges(clean, requests, Grouped(items)[a], merged[a]);
    assert Merges(clean, requests, Grouped(items)[b], merged[b]);
  }

  function Suites(models: seq<Request>): seq<string> {
    if models == [] then [] else Suites(models[..|models| - 1]) + models[|models| - 1].suites
  }

  lemma {:induction false} SuitesOfMerged(clean: Cleaner, requests: seq<Request>, groups: seq<Group<string, string>>,
                                          merged: seq<Request>)
    requires AreMerged(clean, requests, groups, merged)
    ensures Suites(merged) == Flat(groups)
  {
    if groups != [] {
      var n := |groups| - 1;
      assert Merges(clean, requests, groups[n], merged[n]);
      SuitesOfMerged(clean, requests, groups[..n], merged[..n]);
    }
  }

  lemma {:induction false} SuitesOfItems(clean: Cleaner, requests: seq<Request>)
    ensures Flat(Items(clean, requests)) == Normals(clean, Suites(requests))
  {
    if requests != [] {
      var n := |requests| - 1;
      SuitesOfItems(clean, requests[..n]);
      assert Items(clean, requests)[..n] == Items(clean, requests[..n]);
      assert Normals(clean, Suites(requests[..n]) + requests[n].suites)
          == Normals(clean, Suites(requests[..n])) + Normals(clean, requests[n].suites);
    }
  }

  /** Every suite asked for is asked for as often after, and no other is. */
  lemma SuitesAreKept(clean: Cleaner, requests: seq<Request>, merged: seq<Request>)
    requires IsMerged(clean, requests, merged)
    ensures multiset(Suites(merged)) == multiset(Normals(clean, Suites(requests)))
    ensures |Suites(merged)| == |Suites(requests)|
  {
    SuitesOfMerged(clean, requests, Grouped(Items(clean, requests)), merged);
    SuitesOfItems(clean, requests);
    MembersAreKept(Items(clean, requests));
    SameCount(Suites(merged), Normals(clean, Suites(requests)));
  }

  // ----- compiled again ------------------------------------------------------------------------

  /** The request's paths are normal already. */
  ghost predicate Settled(clean: Cleaner, request: Request) {
    ItemOf(clean, request) == Group(request.path, request.suites)
  }

  ghost predicate AllSettled(clean: Cleaner, models: seq<Request>) {
    forall j :: 0 <= j < |models| ==> Settled(clean, models[j])
  }

  lemma MergedPathsDiffer(clean: Cleaner, requests: seq<Request>, merged: seq<Request>)
    requires IsMerged(clean, requests, merged)
    ensures forall i, j :: 0 <= i < j < |merged| ==> merged[i].path != merged[j].path
  {
    KeysAreDistinct(Items(clean, requests));
    forall j | 0 <= j < |merged| ensures merged[j].path == Keys(Items(clean, requests))[j] {
    }
  }

  /** Requests for distinct paths merge into themselves, their paths made normal. */
  lemma DistinctAreMerged(clean: Cleaner, requests: seq<Request>, merged: seq<Request>)
    requires IsMerged(clean, requests, merged)
    requires forall i, j :: 0 <= i < j < |requests| ==>
               Normal(clean, requests[i].path) != Normal(clean, requests[j].path)
    ensures |merged| == |requests|
    ensures forall j :: 0 <= j < |merged| ==>
              var item := ItemOf(clean, requests[j]);
              merged[j] == Request(item.key, item.members, requests[j].terms)
  {
    var items := Items(clean, requests);
    assert forall i, j :: 0 <= i < j < |items| ==> items[i].key != items[j].key;
    GroupedIsItself(items);
    forall j | 0 <= j < |merged|
      ensures merged[j] == Request(items[j].key, items[j].members, requests[j].terms) {
      OneAlone(clean, requests, j, merged[j]);
    }
  }

  lemma OneAlone(clean: Cleaner, requests: seq<Request>, j: nat, request: Request)
    requires j < |requests| && Merges(clean, requests, Items(clean, requests)[j], request)
    requires var items := Items(clean, requests);
             forall i, k :: 0 <= i < k < |items| ==> items[i].key != items[k].key
    ensures var item := ItemOf(clean, requests[j]);
            request == Request(item.key, item.members, requests[j].terms)
  {
    var items := Items(clean, requests);
    var i :| FirstAt(items, items[j].key, i) && request.terms == requests[i].terms;
    assert i == j;
  }

  /** Trimming and cleaning the path a second time changes nothing. */
  predicate Steady(clean: Cleaner, path: string) {
    Normal(clean, Normal(clean, path)) == Normal(clean, path)
  }

  ghost predicate AllSteady(clean: Cleaner, requests: seq<Request>) {
    forall i :: 0 <= i < |requests| ==>
                  Steady(clean, requests[i].path) && forall x :: x in requests[i].suites ==> Steady(clean, x)
  }

  lemma MergedSuites(clean: Cleaner, requests: seq<Request>, merged: seq<Request>, j: nat)
    requires IsMerged(clean, requests, merged) && j < |merged|
    ensures merged[j].path in Keys(Items(clean, requests))
    ensures merged[j].suites == Gathered(merged[j].path, Items(clean, requests))
  {
    assert Merges(clean, requests, Grouped(Items(clean, requests))[j], merged[j]);
  }

  lemma SteadyIsSettled(clean: Cleaner, requests: seq<Request>, merged: seq<Request>, j: nat)
    requires IsMerged(clean, requests, merged) && AllSteady(clean, requests) && j < |merged|
    ensures Settled(clean, merged[j])
  {
    var items, key, suites := Items(clean, requests), merged[j].path, merged[j].suites;
    MergedSuites(clean, requests, merged, j);
    KeysAreThose(items, key);
    var i :| 0 <= i < |items| && items[i].key == key;
    assert Steady(clean, requests[i].path);
    forall m | 0 <= m < |suites| ensures Normal(clean, suites[m]) == suites[m] {
      GatheredIsOfKey(key, items, suites[m]);
      var n :| 0 <= n < |items| && items[n].key == key && suites[m] in items[n].members;
      var k :| 0 <= k < |requests[n].suites| && items[n].members[k] == suites[m];
      assert requests[n].suites[k] in requests[n].suites;
    }
    assert Normals(clean, suites) == suites;
  }

  lemma SettledIsSteady(clean: Cleaner, requests: seq<Request>, merged: seq<Request>, i: nat, x: string)
    requires IsMerged(clean, requests, merged) && AllSettled(clean, merged) && i < |requests|
    ensures Steady(clean, requests[i].path) && (x in requests[i].suites ==> Steady(clean, x))
  {
    var items := Items(clean, requests);
    KeysAreThose(items, items[i].key);
    var j :| 0 <= j < |merged| && Keys(items)[j] == items[i].key;
    assert Settled(clean, merged[j]) && Merges(clean, requests, Grouped(items)[j], merged[j]);
    MergedSuites(clean, requests, merged, j);
    if x in requests[i].suites {
      var k :| 0 <= k < |requests[i].suites| && requests[i].suites[k] == x;
      assert items[i].members[k] == Normal(clean, x);
      GatheredIsOfKey(items[i].key, items, Normal(clean, x));
      var m :| 0 <= m < |merged[j].suites| && merged[j].suites[m] == Normal(clean, x);
      assert Normals(clean, merged[j].suites)[m] == merged[j].suites[m];
    }
  }

  /** What was merged is normal exactly when every path and suite given is normal once it
      was made so. */
  lemma SettledExactly(clean: Cleaner, requests: seq<Request>, merged: seq<Request>)
    requires IsMerged(clean, requests, merged)
    ensures AllSettled(clean, merged) <==> AllSteady(clean, requests)
  {
    if AllSteady(clean, requests) {
      forall j | 0 <= j < |merged| ensures Settled(clean, merged[j]) {
        SteadyIsSettled(clean, requests, merged, j);
      }
    }
    if AllSettled(clean, merged) {
      forall i, x | 0 <= i < |requests| && x in [requests[i].path] + requests[i].suites ensures Steady(clean, x) {
        SettledIsSteady(clean, requests, merged, i, x);
      }
    }
  }

  /** Merging what was merged changes nothing exactly when every path and suite the requests
      gave is normal once it was made so. */
  lemma MergedTwice(clean: Cleaner, requests: seq<Request>, merged: seq<Request>, again: seq<Request>)
    requires IsMerged(clean, requests, merged) && IsMerged(clean, merged, again)
    ensures again == merged <==> AllSteady(clean, requests)
  {
    SettledExactly(clean, requests, merged);
    MergedPathsDiffer(clean, requests, merged);
    if AllSettled(clean, merged) {
      forall j | 0 <= j < |merged| ensures Normal(clean, merged[j].path) == merged[j].path {
        assert Settled(clean, merged[j]);
      }
      DistinctAreMerged(clean, merged, again);
      forall j | 0 <= j < |merged| ensures again[j] == merged[j] {
        assert Settled(clean, merged[j]);
      }
    }
    if again == merged {
      UnchangedIsSettled(clean, merged);
    }
  }

  /** One request whose path is not normal once it was made so merges to another each time,
      as "a /b/.." does, which is cleaned to "a " and then trimmed to "a". */
  lemma MergedTwiceDiffers(clean: Cleaner, path: string, suites: seq<string>, terms: Terms)
    requires Normal(clean, Normal(clean, path)) != Normal(clean, path)
    ensures var once := [Request(Normal(clean, path), Normals(clean, suites), terms)];
            var twice := [Request(Normal(clean, once[0].path), Normals(clean, once[0].suites), terms)];
            && IsMerged(clean, [Request(path, suites, terms)], once)
            && IsMerged(clean, once, twice) && twice != once
  {
    var request := Request(path, suites, terms);
    var once := Request(Normal(clean, path), Normals(clean, suites), terms);
    OneIsMerged(clean, request);
    OneIsMerged(clean, once);
  }

  lemma OneIsMerged(clean: Cleaner, request: Request)
    ensures IsMerged(clean, [request],
                     [Request(Normal(clean, request.path), Normals(clean, request.suites), request.terms)])
  {
    var items := Items(clean, [request]);
    GroupedIsItself(items);
    assert FirstAt(items, items[0].key, 0) && [request][0].terms == request.terms;
  }

  lemma UnchangedIsSettled(clean: Cleaner, merged: seq<Request>)
    requires IsMerged(clean, merged, merged)
    ensures AllSettled(clean, merged)
  {
    var items := Items(clean, merged);
    AsManyKeys(items);
    assert forall i, j :: 0 <= i < j < |merged| ==> items[i].key != items[j].key;
    DistinctAreMerged(clean, merged, merged);
    forall j | 0 <= j < |merged| ensures Settled(clean, merged[j]) {
      assert merged[j].path == items[j].key;
    }
  }

  lemma {:induction false} TrimmedTwice(s: string)
    ensures TrimSpace(TrimSpace(s)) == TrimSpace(s)
    decreases |s|
  {
    if s != "" && IsSpace(s[0]) {
      TrimmedTwice(s[1..]);
    } else if s != "" && IsSpace(s[|s| - 1]) {
      TrimmedTwice(s[..|s| - 1]);
    }
  }

  lemma MergedIsSound(clean: Cleaner, requests: seq<Request>, merged: seq<Request>, j: nat)
    requires IsMerged(clean, requests, merged) && AllSound(clean, requests)
    requires j < |merged| && Settled(clean, merged[j])
    ensures Sound(clean, merged[j])
  {
    var items, key := Items(clean, requests), merged[j].path;
    assert Merges(clean, requests, Grouped(items)[j], merged[j]);
    var i :| FirstAt(items, key, i) && merged[j].terms == requests[i].terms;
    assert Sound(clean, requests[i]);
    assert Normals(clean, requests[i].suites)[0] in items[i].members;
    GatheredIsOfKey(key, items, items[i].members[0]);
    GatheredIsOfKey(key, items, ".");
    forall k | 0 <= k < |requests| ensures "." !in items[k].members {
      assert Sound(clean, requests[k]);
    }
    assert Normals(clean, merged[j].suites) == merged[j].suites;
  }

  /** A compiled manifest compiles to itself exactly when the catalog and every path and
      suite given is normal once it was made so. */
  lemma CompiledTwice(clean: Cleaner, value: Manifest, compiled: Manifest, again: Manifest)
    requires !Lacking(clean, value) && AllSound(clean, value.models) && IsCompiled(clean, value, compiled)
    ensures var steady := Steady(clean, value.catalog) && AllSteady(clean, value.models);
            && (steady ==> !Lacking(clean, compiled) && AllSound(clean, compiled.models))
            && (IsCompiled(clean, compiled, again) ==> (again == compiled <==> steady))
  {
    TrimmedTwice(value.repository);
    TrimmedTwice(value.codeCommit);
    SettledExactly(clean, value.models, compiled.models);
    if AllSettled(clean, compiled.models) {
      forall j | 0 <= j < |compiled.models| ensures Sound(clean, compiled.models[j]) {
        assert Settled(clean, compiled.models[j]);
        MergedIsSound(clean, value.models, compiled.models, j);
      }
    }
    KeysAreThose(Items(clean, value.models), Items(clean, value.models)[0].key);
    if IsCompiled(clean, compiled, again) {
      MergedTwice(clean, value.models, compiled.models, again.models);
    }
  }
}
