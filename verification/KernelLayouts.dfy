/** The argument layouts of a kernel bundle: its functions grouped by their
    parameter lists, and the check of such groups against what was parsed. */
module KernelLayouts {
  import opened Text
  import opened Grouping

  /** argumentLayout: a parameter list and the functions that have it. */
  type Layout = Group<seq<string>, string>

  type Entries = map<string, seq<string>>

  /** entries[name], of which a name that was not parsed has none. */
  function ParametersOf(entries: Entries, name: string): seq<string> {
    if name in entries then entries[name] else []
  }

  function Signature(entries: Entries, name: string): string {
    Join(ParametersOf(entries, name), [NUL])
  }

  // ----- grouping ---------------------------------------------------------------------

  function Signed(functions: seq<string>, entries: Entries): (items: seq<Group<string, string>>)
    ensures |items| == |functions|
    ensures forall i :: 0 <= i < |items| ==> items[i] == Group(Signature(entries, functions[i]), [functions[i]])
  {
    seq(|functions|, i requires 0 <= i < |functions| => Group(Signature(entries, functions[i]), [functions[i]]))
  }

  lemma FlatOfSigned(functions: seq<string>, entries: Entries)
    ensures Flat(Signed(functions, entries)) == functions
  {
    if functions != [] {
      var n := |functions| - 1;
      FlatOfSigned(functions[..n], entries);
      assert Signed(functions, entries)[..n] == Signed(functions[..n], entries);
    }
  }

  /** The group's layout: its first function's parameters, and all its functions. */
  ghost predicate IsLayoutOf(layout: Layout, group: Group<string, string>, entries: Entries) {
    && group.members != []
    && layout == Group(ParametersOf(entries, group.members[0]), group.members)
  }

  ghost predicate AreLayoutsOf(layouts: seq<Layout>, groups: seq<Group<string, string>>, entries: Entries) {
    |layouts| == |groups| && forall i :: 0 <= i < |groups| ==> IsLayoutOf(layouts[i], groups[i], entries)
  }

  function SignedOf(entries: Entries, name: string): Group<string, string> {
    Group(Signature(entries, name), [name])
  }

  lemma SignedMore(functions: seq<string>, entries: Entries, i: nat)
    requires i < |functions|
    ensures Signed(functions[..i + 1], entries) == Signed(functions[..i], entries) + [SignedOf(entries, functions[i])]
  {
  }

  lemma LayoutsAnew(layouts: seq<Layout>, items: seq<Group<string, string>>, name: string, entries: Entries)
    requires AreLayoutsOf(layouts, Grouped(items), entries) && Signature(entries, name) !in Keys(items)
    ensures Keys(items + [SignedOf(entries, name)]) == Keys(items) + [Signature(entries, name)]
    ensures AreLayoutsOf(layouts + [Group(ParametersOf(entries, name), [name])],
                         Grouped(items + [SignedOf(entries, name)]), entries)
  {
    assert (items + [SignedOf(entries, name)])[..|items|] == items;
    GroupedAnew(items, SignedOf(entries, name));
  }

  lemma LayoutsAgain(layouts: seq<Layout>, items: seq<Group<string, string>>, name: string, j: nat, entries: Entries)
    requires AreLayoutsOf(layouts, Grouped(items), entries)
    requires j < |Keys(items)| && Keys(items)[j] == Signature(entries, name)
    ensures Keys(items + [SignedOf(entries, name)]) == Keys(items)
    ensures AreLayoutsOf(layouts[j := Group(layouts[j].key, layouts[j].members + [name])],
                         Grouped(items + [SignedOf(entries, name)]), entries)
  {
    assert (items + [SignedOf(entries, name)])[..|items|] == items;
    assert IsLayoutOf(layouts[j], Grouped(items)[j], entries);
    GroupedAgain(items, SignedOf(entries, name), j);
  }

  /** groupArgumentLayouts: the groups of the functions by signature, in the order
      the signatures first occur. */
  method GroupArgumentLayouts(functions: seq<string>, entries: Entries) returns (result: seq<Layout>)
    ensures AreLayoutsOf(result, Grouped(Signed(functions, entries)), entries)
    ensures forall i :: 0 <= i < |result| ==>
              && result[i].members != []
              && result[i].key == if result[i].members[0] in entries then entries[result[i].members[0]] else []
  {
    result := [];
    var indexBySignature: map<string, nat> := map[];
    ghost var items: seq<Group<string, string>> := [];
    for i := 0 to |functions|
      invariant items == Signed(functions[..i], entries)
      invariant AreLayoutsOf(result, Grouped(items), entries)
      invariant IndexOf(indexBySignature, Keys(items))
    {
      var name := functions[i];
      var parameters, signature := ParametersOf(entries, name), Signature(entries, name);
      SignedMore(functions, entries, i);
      if signature !in indexBySignature {
        LayoutsAnew(result, items, name, entries);
        IndexMore(indexBySignature, Keys(items), signature);
        indexBySignature, result := indexBySignature[signature := |result|], result + [Group(parameters, [name])];
      } else {
        var index := indexBySignature[signature];
        LayoutsAgain(result, items, name, index, entries);
        result := result[index := Group(result[index].key, result[index].members + [name])];
      }
      items := items + [SignedOf(entries, name)];
    }
    assert functions[..|functions|] == functions;
  }

  // ----- the check ------------------------------------------------------------------------

  datatype Verdict = Accepted | Duplicate(name: string) | Cover(got: nat, want: nat)
                   | Missing(name: string) | Unparsed(name: string) | Differs(name: string)

  /** A layout gives the function these parameters. */
  ghost predicate Declares(layouts: seq<Layout>, name: string, parameters: seq<string>) {
    exists i :: 0 <= i < |layouts| && layouts[i].key == parameters && name in layouts[i].members
  }

  /** What the check says of one function. */
  ghost function VerdictOn(layouts: seq<Layout>, entries: Entries, name: string): Verdict {
    if name !in Flat(layouts) then Missing(name)
    else if name !in entries then Unparsed(name)
    else if !Declares(layouts, name, entries[name]) then Differs(name)
    else Accepted
  }

  /** The first name that a name before it repeats. */
  ghost predicate FirstRepeated(names: seq<string>, name: string) {
    exists k :: 0 <= k < |names| && names[k] == name && name in names[..k] && Distinct(names[..k])
  }

  /** The first function the check faults. */
  ghost predicate FirstFault(layouts: seq<Layout>, functions: seq<string>, entries: Entries, verdict: Verdict) {
    exists i :: 0 <= i < |functions| && VerdictOn(layouts, entries, functions[i]) == verdict != Accepted
                && forall j :: 0 <= j < i ==> VerdictOn(layouts, entries, functions[j]) == Accepted
  }

  /** The map the check builds of the names so far. */
  ghost predicate Wanted(want: map<string, seq<string>>, layouts: seq<Layout>, names: seq<string>) {
    && |want| == |names| && Distinct(names)
    && (forall name :: name in want <==> name in names)
    && (forall name :: name in want ==> Declares(layouts, name, want[name]))
  }

  lemma WantedMore(want: map<string, seq<string>>, layouts: seq<Layout>, names: seq<string>, a: nat, name: string)
    requires Wanted(want, layouts, names) && name !in want
    requires a < |layouts| && name in layouts[a].members
    ensures Wanted(want[name := layouts[a].key], layouts, names + [name])
  {
    var more := want[name := layouts[a].key];
    assert Declares(layouts, name, more[name]);
  }

  lemma {:induction false} FlatBegins(layouts: seq<Layout>, a: nat)
    requires a <= |layouts|
    ensures Flat(layouts[..a]) <= Flat(layouts)
    decreases |layouts|
  {
    if a == |layouts| {
      assert layouts[..a] == layouts;
    } else {
      FlatBegins(layouts[..|layouts| - 1], a);
      assert layouts[..|layouts| - 1][..a] == layouts[..a];
    }
  }

  lemma FlatOneMore(layouts: seq<Layout>, a: nat)
    requires a < |layouts|
    ensures Flat(layouts[..a + 1]) == Flat(layouts[..a]) + layouts[a].members
  {
    assert layouts[..a + 1][..a] == layouts[..a];
  }

  lemma RepeatedInPrefix(part: seq<string>, names: seq<string>, name: string)
    requires part <= names && FirstRepeated(part, name)
    ensures FirstRepeated(names, name) && !Distinct(names)
  {
    var k :| 0 <= k < |part| && part[k] == name && name in part[..k] && Distinct(part[..k]);
    assert names[..k] == part[..k] && names[k] == name;
    var j :| 0 <= j < k && part[..k][j] == name;
    assert names[j] == names[k];
  }

  /** A name met again is the first to be repeated. */
  lemma MetAgain(layouts: seq<Layout>, a: nat, b: nat)
    requires a < |layouts| && b < |layouts[a].members|
    requires Distinct(Flat(layouts[..a]) + layouts[a].members[..b])
    requires layouts[a].members[b] in Flat(layouts[..a]) + layouts[a].members[..b]
    ensures FirstRepeated(Flat(layouts), layouts[a].members[b]) && !Distinct(Flat(layouts))
  {
    var before, members := Flat(layouts[..a]), layouts[a].members;
    assert (before + members)[..|before| + b] == before + members[..b];
    FlatOneMore(layouts, a);
    FlatBegins(layouts, a + 1);
    RepeatedInPrefix(before + members, Flat(layouts), members[b]);
  }

  /** The first loop of verifyArgumentLayouts. */
  method Collect(layouts: seq<Layout>) returns (repeated: Verdict, want: map<string, seq<string>>)
    ensures repeated.Accepted? || repeated.Duplicate?
    ensures repeated.Accepted? ==> Wanted(want, layouts, Flat(layouts))
    ensures repeated.Duplicate? ==> FirstRepeated(Flat(layouts), repeated.name) && !Distinct(Flat(layouts))
  {
    want := map[];
    ghost var names: seq<string> := [];
    for a := 0 to |layouts|
      invariant Wanted(want, layouts, names) && names == Flat(layouts[..a])
    {
      var members := layouts[a].members;
      FlatOneMore(layouts, a);
      for b := 0 to |members|
        invariant Wanted(want, layouts, names) && names == Flat(layouts[..a]) + members[..b]
      {
        var name := members[b];
        if name in want {
          MetAgain(layouts, a, b);
          return Duplicate(name), want;
        }
        WantedMore(want, layouts, names, a, name);
        OneNameMore(Flat(layouts[..a]), members, b);
        want, names := want[name := layouts[a].key], names + [name];
      }
      assert members[..|members|] == members;
    }
    assert layouts[..|layouts|] == layouts;
    repeated := Accepted;
  }

  lemma OneNameMore(before: seq<string>, members: seq<string>, b: nat)
    requires b < |members|
    ensures before + members[..b + 1] == before + members[..b] + [members[b]]
  {
    assert members[..b + 1] == members[..b] + [members[b]];
  }

  /** Where in the flat list a layout's function stands. */
  lemma PlaceOf(layouts: seq<Layout>, i: nat, name: string) returns (k: nat)
    requires i < |layouts| && name in layouts[i].members
    ensures |Flat(layouts[..i])| <= k < |Flat(layouts[..i + 1])| <= |Flat(layouts)| && Flat(layouts)[k] == name
  {
    FlatOneMore(layouts, i);
    FlatBegins(layouts, i + 1);
    var b :| 0 <= b < |layouts[i].members| && layouts[i].members[b] == name;
    k := |Flat(layouts[..i])| + b;
    assert Flat(layouts[..i + 1])[k] == name;
  }

  lemma PlacesRise(layouts: seq<Layout>, i: nat, j: nat, name: string)
    requires i < j < |layouts| && name in layouts[i].members && name in layouts[j].members
    ensures !Distinct(Flat(layouts))
  {
    var k := PlaceOf(layouts, i, name);
    var l := PlaceOf(layouts, j, name);
    FlatBegins(layouts[..j], i + 1);
    assert layouts[..j][..i + 1] == layouts[..i + 1];
  }

  /** No function has two layouts. */
  lemma DeclaredOnce(layouts: seq<Layout>, name: string, p: seq<string>, q: seq<string>)
    requires Distinct(Flat(layouts)) && Declares(layouts, name, p) && Declares(layouts, name, q)
    ensures p == q
  {
    var i :| 0 <= i < |layouts| && layouts[i].key == p && name in layouts[i].members;
    var j :| 0 <= j < |layouts| && layouts[j].key == q && name in layouts[j].members;
    if i < j {
      PlacesRise(layouts, i, j, name);
    } else if j < i {
      PlacesRise(layouts, j, i, name);
    }
  }

  lemma WantedVerdict(want: map<string, seq<string>>, layouts: seq<Layout>, entries: Entries, name: string)
    requires Wanted(want, layouts, Flat(layouts))
    ensures VerdictOn(layouts, entries, name)
         == if name !in want then Missing(name) else if name !in entries then Unparsed(name)
            else if entries[name] != want[name] then Differs(name) else Accepted
  {
    if name in want && name in entries && Declares(layouts, name, entries[name]) {
      DeclaredOnce(layouts, name, entries[name], want[name]);
    }
  }

  /** Some layout gives the function the parameters that were parsed of it. */
  ghost predicate Fits(layouts: seq<Layout>, entries: Entries, name: string) {
    name in entries && exists i :: 0 <= i < |layouts| && name in layouts[i].members && layouts[i].key == entries[name]
  }

  lemma FitsExactly(layouts: seq<Layout>, entries: Entries, name: string)
    ensures Fits(layouts, entries, name) <==> VerdictOn(layouts, entries, name) == Accepted
  {
    if Fits(layouts, entries, name) {
      var i :| 0 <= i < |layouts| && name in layouts[i].members && layouts[i].key == entries[name];
      var k := PlaceOf(layouts, i, name);
    }
  }

  /** verifyArgumentLayouts: the first name repeated; or else how many names there are,
      when not as many as functions; or else the first function faulted. */
  method VerifyArgumentLayouts(layouts: seq<Layout>, functions: seq<string>, entries: Entries)
      returns (verdict: Verdict)
    ensures verdict.Duplicate? <==> !Distinct(Flat(layouts))
    ensures verdict.Duplicate? ==> FirstRepeated(Flat(layouts), verdict.name)
    ensures verdict.Cover? <==> Distinct(Flat(layouts)) && |Flat(layouts)| != |functions|
    ensures verdict.Cover? ==> verdict == Cover(|Flat(layouts)|, |functions|)
    ensures verdict.Accepted? <==> Accepts(layouts, functions, entries)
    ensures !verdict.Accepted? && !verdict.Duplicate? && !verdict.Cover? ==>
              FirstFault(layouts, functions, entries, verdict)
    ensures verdict.Accepted? <==>
            && Distinct(Flat(layouts)) && |Flat(layouts)| == |functions|
            && forall name :: name in functions ==> Fits(layouts, entries, name)
    ensures verdict.Missing? || verdict.Unparsed? || verdict.Differs? ==>
              exists i :: 0 <= i < |functions| && functions[i] == verdict.name
                          && (forall j :: 0 <= j < i ==> Fits(layouts, entries, functions[j]))
                          && (verdict.Missing? <==> verdict.name !in Flat(layouts))
                          && (verdict.Unparsed? <==> verdict.name in Flat(layouts) && verdict.name !in entries)
                          && (verdict.Differs? <==> verdict.name in Flat(layouts) && verdict.name in entries)
                          && !Fits(layouts, entries, verdict.name)
  {
    forall name ensures Fits(layouts, entries, name) <==> VerdictOn(layouts, entries, name) == Accepted {
      FitsExactly(layouts, entries, name);
    }
    var repeated, want := Collect(layouts);
    if repeated.Duplicate? {
      return repeated;
    }
    if |want| != |functions| {
      return Cover(|want|, |functions|);
    }
    for i := 0 to |functions|
      invariant forall j :: 0 <= j < i ==> VerdictOn(layouts, entries, functions[j]) == Accepted
    {
      var name := functions[i];
      WantedVerdict(want, layouts, entries, name);
      if name !in want {
        return Missing(name);
      }
      if name !in entries {
        return Unparsed(name);
      }
      if entries[name] != want[name] {
        return Differs(name);
      }
    }
    verdict := Accepted;
  }

  ghost predicate Accepts(layouts: seq<Layout>, functions: seq<string>, entries: Entries) {
    && Distinct(Flat(layouts)) && |Flat(layouts)| == |functions|
    && forall i :: 0 <= i < |functions| ==> VerdictOn(layouts, entries, functions[i]) == Accepted
  }

  // ----- grouped, then checked ----------------------------------------------------------------

  /** No two of the functions share a signature without sharing their parameters. */
  ghost predicate SignaturesTell(functions: seq<string>, entries: Entries) {
    forall f, g :: f in functions && g in functions && Signature(entries, f) == Signature(entries, g) ==>
                     ParametersOf(entries, f) == ParametersOf(entries, g)
  }

  lemma {:induction false} CountsOfDistinct(s: seq<string>)
    ensures Distinct(s) <==> forall x :: multiset(s)[x] <= 1
  {
    if s != [] {
      var n := |s| - 1;
      CountsOfDistinct(s[..n]);
      assert s == s[..n] + [s[n]];
      assert forall x :: multiset(s)[x] == multiset(s[..n])[x] + (if x == s[n] then 1 else 0);
      assert s[n] in s[..n] <==> multiset(s[..n])[s[n]] >= 1;
      DistinctOneMore(s[..n], s[n]);
    }
  }

  lemma DistinctOneMore(s: seq<string>, x: string)
    ensures Distinct(s + [x]) <==> Distinct(s) && x !in s
  {
    var more := s + [x];
    assert more[|s|] == x && forall i :: 0 <= i < |s| ==> more[i] == s[i];
    if x in s {
      var k :| 0 <= k < |s| && s[k] == x;
      assert more[k] == more[|s|];
    }
  }

  lemma {:induction false} FlatOfLayouts(layouts: seq<Layout>, groups: seq<Group<string, string>>, entries: Entries)
    requires AreLayoutsOf(layouts, groups, entries)
    ensures Flat(layouts) == Flat(groups)
  {
    if groups != [] {
      var n := |groups| - 1;
      assert IsLayoutOf(layouts[n], groups[n], entries);
      FlatOfLayouts(layouts[..n], groups[..n], entries);
    }
  }

  /** The layouts name the functions, each as often as it is listed. */
  lemma LayoutsNameAll(functions: seq<string>, entries: Entries, layouts: seq<Layout>)
    requires AreLayoutsOf(layouts, Grouped(Signed(functions, entries)), entries)
    ensures multiset(Flat(layouts)) == multiset(functions) && |Flat(layouts)| == |functions|
    ensures Distinct(Flat(layouts)) <==> Distinct(functions)
  {
    MembersAreKept(Signed(functions, entries));
    FlatOfSigned(functions, entries);
    FlatOfLayouts(layouts, Grouped(Signed(functions, entries)), entries);
    SameCount(Flat(layouts), functions);
    CountsOfDistinct(functions);
    CountsOfDistinct(Flat(layouts));
  }

  /** A function stands in its signature's layout, of the parameters of the first there. */
  lemma LayoutOfFunction(functions: seq<string>, entries: Entries, layouts: seq<Layout>, f: string)
      returns (first: string)
    requires AreLayoutsOf(layouts, Grouped(Signed(functions, entries)), entries) && f in functions
    ensures first in functions && Signature(entries, first) == Signature(entries, f)
    ensures Declares(layouts, f, ParametersOf(entries, first))
    ensures forall g :: g in functions && Signature(entries, g) == Signature(entries, f) ==>
                          Declares(layouts, g, ParametersOf(entries, first))
  {
    var items := Signed(functions, entries);
    var key := Signature(entries, f);
    var k :| 0 <= k < |functions| && functions[k] == f;
    assert items[k].key == key;
    KeysAreThose(items, key);
    var j :| 0 <= j < |Keys(items)| && Keys(items)[j] == key;
    assert IsLayoutOf(layouts[j], Grouped(items)[j], entries);
    first := layouts[j].members[0];
    GatheredIsSigned(functions, entries, key, first);
    forall g | g in functions && Signature(entries, g) == key ensures Declares(layouts, g, layouts[j].key) {
      GatheredIsSigned(functions, entries, key, g);
    }
  }

  lemma GatheredIsSigned(functions: seq<string>, entries: Entries, key: string, f: string)
    ensures f in Gathered(key, Signed(functions, entries)) <==> f in functions && Signature(entries, f) == key
  {
    var items := Signed(functions, entries);
    GatheredIsOfKey(key, items, f);
    if f in functions && Signature(entries, f) == key {
      var i :| 0 <= i < |functions| && functions[i] == f;
      assert items[i].key == key && f in items[i].members;
    }
  }

  /** What was grouped is accepted exactly when no function is listed twice, all were
      parsed, and a signature tells its parameters. */
  lemma GroupedIsAccepted(functions: seq<string>, entries: Entries, layouts: seq<Layout>)
    requires AreLayoutsOf(layouts, Grouped(Signed(functions, entries)), entries)
    ensures Accepts(layouts, functions, entries) <==>
              Distinct(functions) && AllEntered(functions, entries) && SignaturesTell(functions, entries)
  {
    LayoutsNameAll(functions, entries, layouts);
    if Accepts(layouts, functions, entries) {
      AcceptedTells(functions, entries, layouts);
    }
    if AllEntered(functions, entries) && SignaturesTell(functions, entries) {
      TellingIsJudgedByEntry(functions, entries, layouts);
    }
  }

  ghost predicate AllEntered(functions: seq<string>, entries: Entries) {
    forall i :: 0 <= i < |functions| ==> functions[i] in entries
  }

  ghost function EntryVerdict(entries: Entries, name: string): Verdict {
    if name in entries then Accepted else Unparsed(name)
  }

  /** Where signatures tell, a function is at fault only for want of an entry. */
  lemma TellingIsJudgedByEntry(functions: seq<string>, entries: Entries, layouts: seq<Layout>)
    requires AreLayoutsOf(layouts, Grouped(Signed(functions, entries)), entries)
    requires multiset(Flat(layouts)) == multiset(functions)
    requires SignaturesTell(functions, entries)
    ensures forall i :: 0 <= i < |functions| ==>
              VerdictOn(layouts, entries, functions[i]) == EntryVerdict(entries, functions[i])
  {
    forall i | 0 <= i < |functions|
      ensures VerdictOn(layouts, entries, functions[i]) == EntryVerdict(entries, functions[i]) {
      assert functions[i] in multiset(functions);
      assert functions[i] in Flat(layouts);
      var first := LayoutOfFunction(functions, entries, layouts, functions[i]);
    }
  }

  lemma AcceptedTells(functions: seq<string>, entries: Entries, layouts: seq<Layout>)
    requires AreLayoutsOf(layouts, Grouped(Signed(functions, entries)), entries)
    requires Accepts(layouts, functions, entries)
    ensures SignaturesTell(functions, entries)
  {
    forall f, g | f in functions && g in functions && Signature(entries, f) == Signature(entries, g)
      ensures ParametersOf(entries, f) == ParametersOf(entries, g) {
      var first := LayoutOfFunction(functions, entries, layouts, f);
      AcceptedDeclares(functions, entries, layouts, f, ParametersOf(entries, first));
      AcceptedDeclares(functions, entries, layouts, g, ParametersOf(entries, first));
    }
  }

  lemma AcceptedDeclares(functions: seq<string>, entries: Entries, layouts: seq<Layout>, f: string, p: seq<string>)
    requires Accepts(layouts, functions, entries) && f in functions && Declares(layouts, f, p)
    ensures ParametersOf(entries, f) == p
  {
    var i :| 0 <= i < |functions| && functions[i] == f;
    assert VerdictOn(layouts, entries, functions[i]) == Accepted;
    DeclaredOnce(layouts, f, p, entries[f]);
  }

  // ----- when a signature tells its parameters ---------------------------------------------------

  /** Parameters as they are parsed: none empty, none with a NUL. */
  ghost predicate Parsed(parameters: seq<string>) {
    forall i :: 0 <= i < |parameters| ==> parameters[i] != "" && NulFree(parameters[i])
  }

  lemma {:induction false} JoinInjective(a: seq<string>, b: seq<string>)
    requires Parsed(a) && Parsed(b) && Join(a, [NUL]) == Join(b, [NUL])
    ensures a == b
  {
    if a == [] || b == [] {
      JoinIsEmpty(a);
      JoinIsEmpty(b);
    } else if |a| == 1 || |b| == 1 {
      JoinOfOne(a);
      JoinOfOne(b);
    } else {
      CutAtNul(a[0], Join(a[1..], [NUL]), b[0], Join(b[1..], [NUL]));
      JoinInjective(a[1..], b[1..]);
      assert a == [a[0]] + a[1..] && b == [b[0]] + b[1..];
    }
  }

  lemma JoinIsEmpty(a: seq<string>)
    requires Parsed(a)
    ensures Join(a, [NUL]) == "" <==> a == []
  {
  }

  lemma JoinOfOne(a: seq<string>)
    requires Parsed(a) && a != []
    ensures NulFree(Join(a, [NUL])) <==> |a| == 1
  {
    if |a| > 1 {
      assert Join(a, [NUL])[|a[0]|] == NUL;
    }
  }

  /** No parameters and one empty parameter would share a signature. */
  lemma EmptyParameterHides(f: string, g: string)
    requires f != g
    ensures var entries: Entries := map[f := [], g := [""]];
            Distinct([f, g]) && f in entries && g in entries && !SignaturesTell([f, g], entries)
  {
    var entries: Entries := map[f := [], g := [""]];
    assert [f, g][0] == f && [f, g][1] == g;
    assert Signature(entries, f) == Signature(entries, g);
    assert ParametersOf(entries, f) != ParametersOf(entries, g);
  }

  ghost predicate AllParsed(functions: seq<string>, entries: Entries) {
    forall f :: f in functions ==> Parsed(ParametersOf(entries, f))
  }

  /** Of parsed parameters, what was grouped is accepted exactly when no function is
      listed twice and every one has an entry. */
  lemma GroupedOfParsed(functions: seq<string>, entries: Entries, layouts: seq<Layout>)
    requires AreLayoutsOf(layouts, Grouped(Signed(functions, entries)), entries) && AllParsed(functions, entries)
    ensures Accepts(layouts, functions, entries) <==>
              Distinct(functions) && AllEntered(functions, entries)
  {
    GroupedIsAccepted(functions, entries, layouts);
    ParsedTells(functions, entries);
  }

  lemma ParsedTells(functions: seq<string>, entries: Entries)
    requires AllParsed(functions, entries)
    ensures SignaturesTell(functions, entries)
  {
    forall f, g | f in functions && g in functions && Signature(entries, f) == Signature(entries, g)
      ensures ParametersOf(entries, f) == ParametersOf(entries, g) {
      JoinInjective(ParametersOf(entries, f), ParametersOf(entries, g));
    }
  }

  lemma FaultIsUnparsed(functions: seq<string>, entries: Entries, layouts: seq<Layout>, verdict: Verdict)
    requires AreLayoutsOf(layouts, Grouped(Signed(functions, entries)), entries) && AllParsed(functions, entries)
    requires FirstFault(layouts, functions, entries, verdict)
    ensures verdict.Unparsed? && verdict.name !in entries
  {
    LayoutsNameAll(functions, entries, layouts);
    ParsedTells(functions, entries);
    TellingIsJudgedByEntry(functions, entries, layouts);
  }

  /** The functions by their parameters themselves. */
  function Listed(functions: seq<string>, entries: Entries): (items: seq<Layout>)
    ensures |items| == |functions|
    ensures forall i :: 0 <= i < |items| ==> items[i] == Group(ParametersOf(entries, functions[i]), [functions[i]])
  {
    seq(|functions|, i requires 0 <= i < |functions| => Group(ParametersOf(entries, functions[i]), [functions[i]]))
  }

  /** The one list is of the signatures of the other. */
  ghost predicate SignaturesOf(signatures: seq<string>, parameters: seq<seq<string>>) {
    && |signatures| == |parameters|
    && forall i :: 0 <= i < |parameters| ==> Parsed(parameters[i]) && signatures[i] == Join(parameters[i], [NUL])
  }

  lemma SignatureIsAmong(signatures: seq<string>, parameters: seq<seq<string>>, p: seq<string>)
    requires SignaturesOf(signatures, parameters) && Parsed(p)
    ensures Join(p, [NUL]) in signatures <==> p in parameters
  {
    if Join(p, [NUL]) in signatures {
      var j :| 0 <= j < |signatures| && signatures[j] == Join(p, [NUL]);
      JoinInjective(p, parameters[j]);
    }
    if p in parameters {
      var j :| 0 <= j < |parameters| && parameters[j] == p;
      assert signatures[j] == Join(p, [NUL]);
    }
  }

  lemma {:induction false} KeysAreSignatures(functions: seq<string>, entries: Entries)
    requires AllParsed(functions, entries)
    ensures SignaturesOf(Keys(Signed(functions, entries)), Keys(Listed(functions, entries)))
  {
    if functions != [] {
      var n := |functions| - 1;
      var before, f := functions[..n], functions[n];
      KeysAreSignatures(before, entries);
      assert Signed(functions, entries)[..n] == Signed(before, entries);
      assert Listed(functions, entries)[..n] == Listed(before, entries);
      SignatureIsAmong(Keys(Signed(before, entries)), Keys(Listed(before, entries)), ParametersOf(entries, f));
    }
  }

  lemma {:induction false} GatheredAlike(functions: seq<string>, entries: Entries, p: seq<string>)
    requires AllParsed(functions, entries) && Parsed(p)
    ensures Gathered(Join(p, [NUL]), Signed(functions, entries)) == Gathered(p, Listed(functions, entries))
  {
    if functions != [] {
      var before, f := functions[..|functions| - 1], functions[|functions| - 1];
      GatheredAlike(before, entries, p);
      assert functions == before + [f];
      assert Signed(functions, entries) == Signed(before, entries) + [SignedOf(entries, f)];
      assert Listed(functions, entries) == Listed(before, entries) + [Group(ParametersOf(entries, f), [f])];
      GatheredMore(Join(p, [NUL]), Signed(before, entries), SignedOf(entries, f));
      GatheredMore(p, Listed(before, entries), Group(ParametersOf(entries, f), [f]));
      if Signature(entries, f) == Join(p, [NUL]) {
        JoinInjective(ParametersOf(entries, f), p);
      }
    }
  }

  /** Of parsed parameters, the layouts are the functions grouped by the parameters
      themselves: one for each list, in the order the lists first occur. */
  lemma LayoutsAreByParameters(functions: seq<string>, entries: Entries, layouts: seq<Layout>)
    requires AreLayoutsOf(layouts, Grouped(Signed(functions, entries)), entries) && AllParsed(functions, entries)
    ensures layouts == Grouped(Listed(functions, entries))
  {
    var groups, listed := Grouped(Signed(functions, entries)), Grouped(Listed(functions, entries));
    KeysAreSignatures(functions, entries);
    forall i | 0 <= i < |layouts| ensures layouts[i] == listed[i] {
      assert IsLayoutOf(layouts[i], groups[i], entries);
      GatheredAlike(functions, entries, listed[i].key);
      var first := groups[i].members[0];
      GatheredIsSigned(functions, entries, groups[i].key, first);
      JoinInjective(ParametersOf(entries, first), listed[i].key);
    }
  }

  /** What an update writes: the functions regrouped, and then held to the check. */
  method Update(functions: seq<string>, entries: Entries) returns (layouts: seq<Layout>, verdict: Verdict)
    requires AllParsed(functions, entries)
    ensures layouts == Grouped(Listed(functions, entries))
    ensures verdict.Accepted? <==> Distinct(functions) && AllEntered(functions, entries)
    ensures verdict.Duplicate? <==> !Distinct(functions)
    ensures verdict.Accepted? || verdict.Duplicate? || (verdict.Unparsed? && verdict.name !in entries)
  {
    layouts := GroupArgumentLayouts(functions, entries);
    verdict := VerifyArgumentLayouts(layouts, functions, entries);
    GroupedOfParsed(functions, entries, layouts);
    LayoutsNameAll(functions, entries, layouts);
    if FirstFault(layouts, functions, entries, verdict) {
      FaultIsUnparsed(functions, entries, layouts, verdict);
    }
    LayoutsAreByParameters(functions, entries, layouts);
  }

  // ----- what acceptance says ----------------------------------------------------------------------

  /** Layouts accepted for distinct functions name those and no other, each once, with
      the parameters parsed. */
  lemma AcceptedIsExact(layouts: seq<Layout>, functions: seq<string>, entries: Entries, name: string)
    requires Accepts(layouts, functions, entries) && Distinct(functions)
    ensures name in Flat(layouts) <==> name in functions
    ensures name in functions ==> name in entries && Declares(layouts, name, entries[name])
  {
    var names := Flat(layouts);
    forall f | f in functions ensures f in names && f in entries && Declares(layouts, f, entries[f]) {
      var i :| 0 <= i < |functions| && functions[i] == f;
      assert VerdictOn(layouts, entries, functions[i]) == Accepted;
    }
    SameDistinct(functions, names, name);
  }

  lemma {:induction false} SameDistinct(a: seq<string>, b: seq<string>, x: string)
    requires Distinct(a) && Distinct(b) && |a| == |b| && forall y :: y in a ==> y in b
    ensures x in b ==> x in a
  {
    var sa, sb := set y | y in a, set y | y in b;
    SizeOfDistinct(a);
    SizeOfDistinct(b);
    assert sa <= sb;
    if x in b && x !in a {
      assert sa <= sb - {x};
      SubsetIsSmaller(sa, sb - {x});
    }
  }

  lemma SubsetIsSmaller(a: set<string>, b: set<string>)
    requires a <= b
    ensures |a| <= |b|
  {
    assert b == a + (b - a);
  }

  lemma {:induction false} SizeOfDistinct(s: seq<string>)
    requires Distinct(s)
    ensures |set y | y in s| == |s|
  {
    if s != [] {
      var n := |s| - 1;
      SizeOfDistinct(s[..n]);
      assert s == s[..n] + [s[n]];
      assert (set y | y in s) == (set y | y in s[..n]) + {s[n]};
      assert s[n] !in s[..n];
    }
  }

  /** The functions, each once. */
  function Once(functions: seq<string>): (once: seq<string>) {
    if functions == [] then []
    else
      var before, last := Once(functions[..|functions| - 1]), functions[|functions| - 1];
      if last in before then before else before + [last]
  }

  lemma {:induction false} OnceIsDistinct(functions: seq<string>)
    ensures Distinct(Once(functions)) && forall f :: f in Once(functions) <==> f in functions
    ensures |Once(functions)| <= |functions| && (|Once(functions)| == |functions| ==> Distinct(functions))
  {
    if functions != [] {
      var before, last := functions[..|functions| - 1], functions[|functions| - 1];
      OnceIsDistinct(before);
      assert functions == before + [last];
      DistinctOneMore(before, last);
    }
  }

  function Longest(names: seq<string>): (n: nat)
    ensures forall name :: name in names ==> |name| <= n
  {
    if names == [] then 0
    else
      var rest := Longest(names[1..]);
      if |names[0]| > rest then |names[0]| else rest
  }

  function NameOfLength(n: nat): (name: string)
    ensures |name| == n
  {
    seq(n, _ => 'x')
  }

  /** Names of rising lengths, all longer than n. */
  function LongNames(n: nat, count: nat): (names: seq<string>)
    ensures |names| == count && forall k :: 0 <= k < count ==> |names[k]| == n + 1 + k
  {
    if count == 0 then [] else LongNames(n, count - 1) + [NameOfLength(n + count)]
  }

  /** The functions, each once, and as many other names as they repeat. */
  function WithStrangers(functions: seq<string>): seq<string>
    requires |Once(functions)| <= |functions|
  {
    Once(functions) + LongNames(Longest(functions), |functions| - |Once(functions)|)
  }

  lemma StrangersAreDistinct(functions: seq<string>)
    ensures |Once(functions)| <= |functions| && Distinct(WithStrangers(functions))
    ensures |WithStrangers(functions)| == |functions| && forall f :: f in functions ==> f in WithStrangers(functions)
    ensures !Distinct(functions) ==> |Once(functions)| < |functions|
                                     && WithStrangers(functions)[|Once(functions)|] !in functions
  {
    OnceIsDistinct(functions);
    var once, long := Once(functions), LongNames(Longest(functions), |functions| - |Once(functions)|);
    forall x | x in long ensures x !in functions {
    }
    ApartAreDistinct(once, long);
    assert forall f :: f in once ==> f in once + long;
    assert |long| > 0 ==> (once + long)[|once|] == long[0];
  }

  lemma ApartAreDistinct(a: seq<string>, b: seq<string>)
    requires Distinct(a) && Distinct(b) && forall x :: x in b ==> x !in a
    ensures Distinct(a + b)
  {
    forall i, j | 0 <= i < j < |a + b| ensures (a + b)[i] != (a + b)[j] {
      assert j >= |a| ==> (a + b)[j] in b;
      assert i < |a| ==> (a + b)[i] in a;
    }
  }

  /** A layout for each name, of the parameters parsed for it. */
  function Solo(names: seq<string>, entries: Entries): (layouts: seq<Layout>)
    ensures |layouts| == |names|
    ensures forall i :: 0 <= i < |names| ==> layouts[i] == Group(ParametersOf(entries, names[i]), [names[i]])
  {
    seq(|names|, i requires 0 <= i < |names| => Group(ParametersOf(entries, names[i]), [names[i]]))
  }

  lemma {:induction false} FlatOfSolo(names: seq<string>, entries: Entries)
    ensures Flat(Solo(names, entries)) == names
  {
    if names != [] {
      var n := |names| - 1;
      FlatOfSolo(names[..n], entries);
      assert Solo(names, entries)[..n] == Solo(names[..n], entries);
    }
  }

  /** Layouts of one name each are accepted of as many functions when they name those. */
  lemma SoloIsAccepted(names: seq<string>, functions: seq<string>, entries: Entries)
    requires Distinct(names) && |names| == |functions| && AllEntered(functions, entries)
    requires forall f :: f in functions ==> f in names
    ensures Accepts(Solo(names, entries), functions, entries)
  {
    var layouts := Solo(names, entries);
    FlatOfSolo(names, entries);
    forall i | 0 <= i < |functions| ensures VerdictOn(layouts, entries, functions[i]) == Accepted {
      assert functions[i] in functions;
      var k :| 0 <= k < |names| && names[k] == functions[i];
      assert layouts[k].key == entries[functions[i]] && functions[i] in layouts[k].members;
    }
  }

  /** Any list of functions with a repeat, all of them parsed, lets in layouts that name one
      that is not listed. */
  lemma RepeatLetsAStrangerIn(functions: seq<string>, entries: Entries) returns (layouts: seq<Layout>, stranger: string)
    requires !Distinct(functions) && AllEntered(functions, entries)
    ensures Accepts(layouts, functions, entries) && stranger in Flat(layouts) && stranger !in functions
  {
    StrangersAreDistinct(functions);
    var names := WithStrangers(functions);
    SoloIsAccepted(names, functions, entries);
    FlatOfSolo(names, entries);
    layouts, stranger := Solo(names, entries), names[|Once(functions)|];
  }

  /** Of functions all parsed, acceptance names exactly those for every layouts if and only
      if no function is listed twice. */
  lemma AcceptanceIsExactForDistinct(functions: seq<string>, entries: Entries)
    requires AllEntered(functions, entries)
    ensures Distinct(functions) <==>
              forall layouts: seq<Layout>, name: string :: Accepts(layouts, functions, entries) ==>
                (name in Flat(layouts) <==> name in functions)
  {
    if Distinct(functions) {
      forall layouts: seq<Layout>, name: string | Accepts(layouts, functions, entries)
        ensures name in Flat(layouts) <==> name in functions {
        AcceptedIsExact(layouts, functions, entries, name);
      }
    } else {
      var layouts, stranger := RepeatLetsAStrangerIn(functions, entries);
    }
  }
}
