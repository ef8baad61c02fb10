/** The removal of what a confirmed listing showed: the token a listing prints,
    its confirmation, and the loop that removes the finished entries. */
module Removal {
  import opened Leftovers
  import opened Lists
  import opened Text

  // ----- the bytes given to the digest -------------------------------------------------

  /** A number as fmt prints it. */
  function Decimal(n: nat): (s: string)
    ensures s != "" && NulFree(s)
    ensures forall i :: 0 <= i < |s| ==> '0' <= s[i] <= '9'
  {
    var digit := ['0' + (n % 10) as char];
    if n < 10 then digit else Decimal(n / 10) + digit
  }

  lemma {:induction false} DecimalInjective(m: nat, n: nat)
    requires Decimal(m) == Decimal(n)
    ensures m == n
  {
    var a, b := Decimal(m), Decimal(n);
    assert a[|a| - 1] == '0' + (m % 10) as char && b[|b| - 1] == '0' + (n % 10) as char;
    assert m % 10 == n % 10;
    if m >= 10 && n >= 10 {
      assert a[..|a| - 1] == Decimal(m / 10) && b[..|b| - 1] == Decimal(n / 10);
      DecimalInjective(m / 10, n / 10);
    }
  }

  /** Its digits, from the last to the first, are those of the tens. */
  lemma DecimalDigits(n: nat, d: nat)
    requires d < 10
    ensures Decimal(d) == ["0123456789"[d]]
    ensures n > 0 ==> Decimal(10 * n + d) == Decimal(n) + ["0123456789"[d]]
  {
    assert "0123456789"[d] == '0' + d as char;
    if n > 0 {
      assert (10 * n + d) / 10 == n && (10 * n + d) % 10 == d;
    }
  }

  /** What the digest is over, of one finished entry. */
  datatype Fact = Fact(path: string, bytes: nat, rule: string)

  function FactOf(entry: Entry): Fact {
    Fact(entry.path, entry.bytes, entry.rule)
  }

  function Facts(found: seq<Entry>): seq<Fact> {
    if found == [] then []
    else (if found[0].state.Finished? then [FactOf(found[0])] else []) + Facts(found[1..])
  }

  function Frame(fact: Fact): string {
    fact.path + [NUL] + (Decimal(fact.bytes) + [NUL] + (fact.rule + [NUL]))
  }

  function Framing(facts: seq<Fact>): string {
    if facts == [] then "" else Frame(facts[0]) + Framing(facts[1..])
  }

  ghost predicate NulFreeFacts(facts: seq<Fact>) {
    forall i :: 0 <= i < |facts| ==> NulFree(facts[i].path) && NulFree(facts[i].rule)
  }

  /** One frame and what follows it are read back as they were written. */
  lemma FrameInjective(f: Fact, afterF: string, g: Fact, afterG: string)
    requires NulFree(f.path) && NulFree(f.rule) && NulFree(g.path) && NulFree(g.rule)
    requires Frame(f) + afterF == Frame(g) + afterG
    ensures f == g && afterF == afterG
  {
    FrameOpens(f, afterF);
    FrameOpens(g, afterG);
    CutAtNul(f.path, Decimal(f.bytes) + [NUL] + (f.rule + [NUL] + afterF),
             g.path, Decimal(g.bytes) + [NUL] + (g.rule + [NUL] + afterG));
    CutAtNul(Decimal(f.bytes), f.rule + [NUL] + afterF, Decimal(g.bytes), g.rule + [NUL] + afterG);
    CutAtNul(f.rule, afterF, g.rule, afterG);
    DecimalInjective(f.bytes, g.bytes);
  }

  lemma FrameOpens(f: Fact, after: string)
    ensures Frame(f) + after == f.path + [NUL] + (Decimal(f.bytes) + [NUL] + (f.rule + [NUL] + after))
  {
    var d := Decimal(f.bytes);
    Regroup(f.path + [NUL], d + [NUL], f.rule + [NUL], after);
  }

  lemma Regroup(a: string, b: string, c: string, d: string)
    ensures a + (b + c) + d == a + (b + (c + d))
  {
  }

  /** The bytes given to the digest say which facts, how many and in what order. */
  lemma {:induction false} FramingInjective(fs: seq<Fact>, gs: seq<Fact>)
    requires NulFreeFacts(fs) && NulFreeFacts(gs) && Framing(fs) == Framing(gs)
    ensures fs == gs
    decreases |fs|
  {
    if fs != [] && gs != [] {
      FrameInjective(fs[0], Framing(fs[1..]), gs[0], Framing(gs[1..]));
      FramingInjective(fs[1..], gs[1..]);
      assert fs == [fs[0]] + fs[1..] && gs == [gs[0]] + gs[1..];
    }
  }

  lemma FramingCons(f: Fact, rest: seq<Fact>)
    ensures Framing([f] + rest) == Frame(f) + Framing(rest)
  {
    assert ([f] + rest)[1..] == rest;
  }

  /** The bytes of one fact more: its path, its bytes and its rule, each closed by a NUL. */
  lemma {:induction false} FramingMore(facts: seq<Fact>, path: string, bytes: nat, rule: string)
    ensures Framing(facts + [Fact(path, bytes, rule)])
         == Framing(facts) + (path + "\0" + Decimal(bytes) + "\0" + rule + "\0")
  {
    var fact := Fact(path, bytes, rule);
    assert [NUL] == "\0";
    FrameOpens(fact, "");
    if facts == [] {
      FramingCons(fact, []);
      assert [fact] + [] == facts + [fact];
    } else {
      FramingMore(facts[1..], path, bytes, rule);
      assert facts + [fact] == [facts[0]] + (facts[1..] + [fact]);
      FramingCons(facts[0], facts[1..] + [fact]);
    }
  }

  /** One entry more is one fact more if it is finished, and no other. */
  lemma {:induction false} FactsMore(found: seq<Entry>, entry: Entry)
    ensures Facts(found + [entry])
         == Facts(found) + if entry.state.Finished? then [Fact(entry.path, entry.bytes, entry.rule)] else []
  {
    if found == [] {
      assert found + [entry] == [entry] && [entry][1..] == [];
    } else {
      var rest := found[1..];
      assert (found + [entry])[1..] == rest + [entry];
      FactsMore(rest, entry);
      Associates(if found[0].state.Finished? then [FactOf(found[0])] else [], Facts(rest),
                 if entry.state.Finished? then [FactOf(entry)] else []);
    }
  }

  /** A NUL in a field would let two listings share their bytes. */
  lemma NulBreaksFraming(p: string, m: nat, r: string, q: string, n: nat, s: string)
    ensures Framing([Fact(p, m, r), Fact(q, n, s)])
         == Framing([Fact(p + [NUL] + (Decimal(m) + [NUL] + (r + [NUL] + q)), n, s)])
  {
    var two := [Fact(p, m, r), Fact(q, n, s)];
    var one := [Fact(p + [NUL] + (Decimal(m) + [NUL] + (r + [NUL] + q)), n, s)];
    FramingCons(two[0], [two[1]]);
    FramingCons(two[1], []);
    FramingCons(one[0], []);
    assert two == [two[0]] + [two[1]] && [two[1]] == [two[1]] + [] && one == [one[0]] + [];
    FrameOpens(two[0], q + ([NUL] + (Decimal(n) + [NUL] + (s + [NUL]))));
    var tail := [NUL] + (Decimal(n) + [NUL] + (s + [NUL]));
    assert Frame(two[1]) == q + tail;
    assert Framing(two) == Frame(two[0]) + (q + tail);
    assert Framing(one) == one[0].path + tail;
    Regroup(p + [NUL], Decimal(m) + [NUL], r + [NUL] + q, tail);
    assert r + [NUL] + (q + tail) == r + [NUL] + q + tail;
  }

  /** With a digest that tells its inputs apart, one token means one list of
      finished entries: those a listing showed are those a removal would take. */
  lemma TokenMeansOneList(shown: string -> string, listed: seq<Entry>, found: seq<Entry>)
    requires forall x, y :: shown(x) == shown(y) ==> x == y
    requires NulFreeFacts(Facts(listed)) && NulFreeFacts(Facts(found))
    ensures shown(Framing(Facts(listed))) == shown(Framing(Facts(found))) <==> Facts(listed) == Facts(found)
  {
    if shown(Framing(Facts(listed))) == shown(Framing(Facts(found))) {
      FramingInjective(Facts(listed), Facts(found));
    }
  }

  // ----- confirmation -------------------------------------------------------------------

  datatype Verb = WouldTake | KeptBack | Done | Left | PartRemoved

  datatype Said = Said(verb: Verb, path: string)

  /** The lines a confirmation prints: of each entry, in the listing's order,
      that it is kept, or, when none was asked for yet, that it would be taken. */
  function Listing(found: seq<Entry>, asking: bool): seq<Said> {
    if found == [] then [] else LineOf(found[0], asking) + Listing(found[1..], asking)
  }

  function LineOf(entry: Entry, asking: bool): seq<Said> {
    if !entry.state.Finished? then [Said(KeptBack, entry.path)]
    else if asking then [Said(WouldTake, entry.path)]
    else []
  }

  /** One entry more is one line more, unless it is taken and was asked for already. */
  lemma {:induction false} ListingMore(found: seq<Entry>, entry: Entry, asking: bool)
    ensures Listing(found + [entry], asking)
         == Listing(found, asking)
            + if !entry.state.Finished? then [Said(KeptBack, entry.path)]
              else if asking then [Said(WouldTake, entry.path)]
              else []
  {
    if found == [] {
      assert found + [entry] == [entry] && [entry][1..] == [];
    } else {
      assert (found + [entry])[1..] == found[1..] + [entry];
      ListingMore(found[1..], entry, asking);
    }
  }

  /** Asked for nothing yet, every entry has its line. */
  lemma {:induction false} AskedListing(found: seq<Entry>)
    ensures |Listing(found, true)| == |found|
    ensures forall i :: 0 <= i < |found| ==>
              Listing(found, true)[i] == Said(if found[i].state.Finished? then WouldTake else KeptBack, found[i].path)
  {
    if found != [] {
      AskedListing(found[1..]);
    }
  }

  /** Asked for already, the lines are those of the entries kept. */
  lemma {:induction false} KeptListing(found: seq<Entry>, line: Said)
    ensures line in Listing(found, false) <==>
              exists i :: 0 <= i < |found| && !found[i].state.Finished? && line == Said(KeptBack, found[i].path)
  {
    if found != [] {
      var rest := found[1..];
      KeptListing(rest, line);
      assert forall i :: 0 <= i < |rest| ==> rest[i] == found[i + 1];
      assert line in Listing(found, false) <==> line in LineOf(found[0], false) || line in Listing(rest, false);
      if i :| 0 <= i < |found| && !found[i].state.Finished? && line == Said(KeptBack, found[i].path) {
        assert i > 0 ==> rest[i - 1] == found[i];
      }
    }
  }

  lemma FramingStep(framed: string, found: seq<Entry>, i: nat)
    requires i < |found|
    ensures framed + Framing(Facts(found[i..])) ==
            if found[i].state.Finished? then framed + Frame(FactOf(found[i])) + Framing(Facts(found[i + 1..]))
            else framed + Framing(Facts(found[i + 1..]))
  {
    assert found[i..][1..] == found[i + 1..];
    if found[i].state.Finished? {
      FramingCons(FactOf(found[i]), Facts(found[i + 1..]));
    } else {
      assert Facts(found[i..]) == Facts(found[i + 1..]);
    }
  }

  lemma ListingStep(printed: seq<Said>, found: seq<Entry>, i: nat, asking: bool)
    requires i < |found|
    ensures printed + Listing(found[i..], asking)
         == printed + LineOf(found[i], asking) + Listing(found[i + 1..], asking)
  {
    assert found[i..][1..] == found[i + 1..];
  }

  /** confirmed: agreed only to the token of what is found now. */
  method Confirmed(found: seq<Entry>, token: string, shown: string -> string)
      returns (agreed: bool, printed: seq<Said>, current: string)
    ensures current == shown(Framing(Facts(found)))
    ensures agreed <==> token != "" && token == current
    ensures printed == if token == "" || agreed then Listing(found, token == "") else []
    ensures token == "" ==> |printed| == |found|
                            && forall i :: 0 <= i < |found| ==>
                                 printed[i]
                                 == Said(if found[i].state.Finished? then WouldTake else KeptBack, found[i].path)
  {
    AskedListing(found);
    var framed := "";
    printed := [];
    for i := 0 to |found|
      invariant framed + Framing(Facts(found[i..])) == Framing(Facts(found))
      invariant printed + Listing(found[i..], token == "") == Listing(found, token == "")
    {
      FramingStep(framed, found, i);
      ListingStep(printed, found, i, token == "");
      if found[i].state.Finished? {
        framed := framed + Frame(FactOf(found[i]));
      }
      printed := printed + LineOf(found[i], token == "");
    }
    assert found[|found|..] == [] && framed + "" == framed;
    current := shown(framed);
    agreed := token != "" && token == current;
    if token != "" && !agreed {
      printed := [];
    }
  }

  // ----- removal --------------------------------------------------------------------------

  /** What came of one removal: gone says an absolute path is no longer there. */
  datatype Outcome = Removed | Failed(gone: bool)

  function VerbOf(outcome: Outcome): Verb {
    match outcome
    case Removed => Done
    case Failed(gone) => if gone then PartRemoved else Left
  }

  /** One entry more is a line more if it is finished, of what came of its removal: done, or
      left, or, of an absolute path that is gone all the same, removed in part. */
  lemma {:induction false} ReceiptMore(found: seq<Entry>, outcomes: seq<Outcome>, entry: Entry, outcome: Outcome)
    requires |outcomes| == |found|
    ensures Receipt(found + [entry], outcomes + [outcome])
         == Receipt(found, outcomes)
            + if !entry.state.Finished? then []
              else if outcome == Removed then [Said(Done, entry.path)]
              else if outcome == Failed(true) then [Said(PartRemoved, entry.path)]
              else [Said(Left, entry.path)]
  {
    if found == [] {
      assert found + [entry] == [entry] && [entry][1..] == [];
      assert outcomes + [outcome] == [outcome] && [outcome][1..] == [];
    } else {
      assert (found + [entry])[1..] == found[1..] + [entry];
      assert (outcomes + [outcome])[1..] == outcomes[1..] + [outcome];
      ReceiptMore(found[1..], outcomes[1..], entry, outcome);
    }
  }

  /** One entry more is taken if it is finished, and no other. */
  lemma {:induction false} TakenMore(found: seq<Entry>, entry: Entry)
    ensures Taken(found + [entry]) == Taken(found) + if entry.state.Finished? then [entry.path] else []
  {
    if found == [] {
      assert found + [entry] == [entry] && [entry][1..] == [];
    } else {
      var rest := found[1..];
      assert (found + [entry])[1..] == rest + [entry];
      TakenMore(rest, entry);
      Associates(if found[0].state.Finished? then [found[0].path] else [], Taken(rest),
                 if entry.state.Finished? then [entry.path] else []);
    }
  }

  /** The lines that say what would be taken, and, where all went well, that it was, name
      what is taken, in order. */
  lemma {:induction false} SaidIsTaken(found: seq<Entry>, outcomes: seq<Outcome>)
    requires |outcomes| == |found|
    ensures PathsSaid(Listing(found, true), WouldTake) == Taken(found)
    ensures |Receipt(found, outcomes)| == |Taken(found)|
    ensures forall i :: 0 <= i < |Taken(found)| ==> Receipt(found, outcomes)[i].path == Taken(found)[i]
    ensures (forall i :: 0 <= i < |found| ==> outcomes[i].Removed?) ==>
              forall i :: 0 <= i < |Taken(found)| ==> Receipt(found, outcomes)[i] == Said(Done, Taken(found)[i])
  {
    if found != [] {
      var rest := found[1..];
      SaidIsTaken(rest, outcomes[1..]);
      assert Listing(found, true)[1..] == Listing(rest, true);
      if found[0].state.Finished? {
        assert Taken(found) == [found[0].path] + Taken(rest);
        assert Receipt(found, outcomes) == [Said(VerbOf(outcomes[0]), found[0].path)] + Receipt(rest, outcomes[1..]);
      } else {
        assert Taken(found) == Taken(rest) && Receipt(found, outcomes) == Receipt(rest, outcomes[1..]);
      }
    }
  }

  /** The paths of the lines with that verb, in order. */
  function PathsSaid(lines: seq<Said>, verb: Verb): seq<string> {
    if lines == [] then []
    else (if lines[0].verb == verb then [lines[0].path] else []) + PathsSaid(lines[1..], verb)
  }

  /** The paths of the finished entries, in the listing's order. */
  function Taken(found: seq<Entry>): seq<string> {
    if found == [] then []
    else (if found[0].state.Finished? then [found[0].path] else []) + Taken(found[1..])
  }

  /** A line for each finished entry, of what came of it. */
  function Receipt(found: seq<Entry>, outcomes: seq<Outcome>): seq<Said>
    requires |outcomes| == |found|
  {
    if found == [] then []
    else (if found[0].state.Finished? then [Said(VerbOf(outcomes[0]), found[0].path)] else [])
         + Receipt(found[1..], outcomes[1..])
  }

  datatype Commit = NoCommit | Commits | Refused

  /** The removals attempted on the machine, and the receipt of removals. */
  class Remover {
    var attempted: seq<string>
    var receipt: seq<Said>

    constructor ()
      ensures attempted == [] && receipt == []
    {
      attempted, receipt := [], [];
    }

    /** removeFinished: once its receipt is open and its commit, if it has one, is
        made, each finished entry is attempted once, in order, whatever came of
        the ones before it, and no other entry is. */
    method RemoveFinished(found: seq<Entry>, opens: bool, commit: Commit, outcomes: seq<Outcome>) returns (ok: bool)
      requires |outcomes| == |found|
      modifies this
      ensures !opens || commit.Refused? ==> !ok && attempted == old(attempted) && receipt == old(receipt)
      ensures opens && !commit.Refused? ==>
                && attempted == old(attempted) + Taken(found)
                && receipt == old(receipt) + Receipt(found, outcomes)
                && (ok <==> forall i :: 0 <= i < |found| && found[i].state.Finished? ==> outcomes[i].Removed?)
    {
      if !opens || commit.Refused? {
        return false;
      }
      ok := true;
      for i := 0 to |found|
        invariant attempted + Taken(found[i..]) == old(attempted) + Taken(found)
        invariant receipt + Receipt(found[i..], outcomes[i..]) == old(receipt) + Receipt(found, outcomes)
        invariant ok <==> forall k :: 0 <= k < i && found[k].state.Finished? ==> outcomes[k].Removed?
      {
        assert found[i..][1..] == found[i + 1..] && outcomes[i..][1..] == outcomes[i + 1..];
        if found[i].state.Finished? {
          attempted := attempted + [found[i].path];
          receipt := receipt + [Said(VerbOf(outcomes[i]), found[i].path)];
          ok := ok && outcomes[i].Removed?;
        }
      }
    }

    /** deleteLeftovers, past its lock and its listing: nothing is attempted but on
        the token of what is listed now, and then the finished entries are. */
    method Delete(found: seq<Entry>, token: string, shown: string -> string, opens: bool, outcomes: seq<Outcome>)
        returns (agreed: bool, printed: seq<Said>)
      requires |outcomes| == |found|
      modifies this
      ensures agreed <==> token != "" && token == shown(Framing(Facts(found)))
      ensures attempted == old(attempted) + if agreed && opens then Taken(found) else []
      ensures receipt == old(receipt) + if agreed && opens then Receipt(found, outcomes) else []
    {
      var current;
      agreed, printed, current := Confirmed(found, token, shown);
      if agreed {
        var ok := RemoveFinished(found, opens, NoCommit, outcomes);
      }
    }
  }

  /** What is taken is what the facts name. */
  lemma {:induction false} TakenIsFacts(found: seq<Entry>)
    ensures |Taken(found)| == |Facts(found)|
    ensures forall i :: 0 <= i < |Taken(found)| ==> Taken(found)[i] == Facts(found)[i].path
  {
    if found != [] {
      TakenIsFacts(found[1..]);
      if found[0].state.Finished? {
        assert Taken(found) == [found[0].path] + Taken(found[1..]);
        assert Facts(found) == [FactOf(found[0])] + Facts(found[1..]);
      } else {
        assert Taken(found) == Taken(found[1..]) && Facts(found) == Facts(found[1..]);
      }
    }
  }

  /** A removal confirmed by the token of an earlier listing takes exactly the
      paths that listing showed it would, in that order, and each of them is as
      it was measured and decided then. */
  lemma ConfirmedRemovalIsExact(shown: string -> string, listed: seq<Entry>, found: seq<Entry>, token: string)
    requires forall x, y :: shown(x) == shown(y) ==> x == y
    requires NulFreeFacts(Facts(listed)) && NulFreeFacts(Facts(found))
    requires token == shown(Framing(Facts(listed)))
    ensures token == shown(Framing(Facts(found))) ==>
              Taken(found) == Taken(listed) && Facts(found) == Facts(listed)
    ensures token != shown(Framing(Facts(found))) ==> Facts(found) != Facts(listed)
  {
    TokenMeansOneList(shown, listed, found);
    TakenIsFacts(listed);
    TakenIsFacts(found);
  }
}
