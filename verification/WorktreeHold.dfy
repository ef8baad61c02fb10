/** The hold a session takes on a worktree: one file, created exclusively, that
    names the session. Each file operation of a hook is a step of its own, and
    the steps of any number of sessions interleave in any order. */
module WorktreeHold {
  import opened Text

  /** What a session is told that reads the file before its creator has written it. */
  const UNWRITTEN_HOLDER := "that began as this one did"

  datatype File = Absent | Present(text: string) {
    /** What a reader takes the file to say; a file that cannot be read says nothing. */
    function Read(): string {
      if Present? then text else ""
    }
  }

  /** Where a session's hook stands between two of its file operations. */
  datatype Step =
    | Idle
    /** holdWorktree has read the list of implementers. */
    | Asking(implementing: bool)
    /** The exclusive create succeeded; the name is not written yet. */
    | Created
    /** The file was there; it is read next. */
    | Reading(implementing: bool)
    /** A takeover has opened and truncated the file; the name is not written yet. */
    | Truncated
    /** releaseWorktree has read its own name; it removes the file next. */
    | Removing

  datatype State = State(
    file: File,
    /** The text of the list of sessions that have landed here. */
    listed: string,
    steps: map<string, Step>,
    /** Sessions whose last holdWorktree took or kept the hold and returned "". */
    holding: set<string>,
    /** Sessions whose last holdWorktree found no file, took none and returned "". */
    beside: set<string>)
  {
    /** The session has the file open to write its name. */
    predicate Writing(s: string) {
      At(s).Created? || At(s).Truncated?
    }

    function At(s: string): Step {
      if s in steps then steps[s] else Idle
    }

    /** implementer: the session's name is a field of the list. */
    predicate Implementer(s: string) {
      s != "" && s in Fields(listed)
    }

    function Go(s: string, step: Step): State {
      this.(steps := steps[s := step])
    }

    /** The holder a read of the file names. */
    function Named(): string {
      var held := TrimSpace(file.Read());
      if held == "" then UNWRITTEN_HOLDER else held
    }

    /** The file holds this session's name. */
    predicate Names(s: string) {
      s != "" && file.Present? && TrimSpace(file.text) == s
    }
  }

  datatype Action =
    | Record(s: string)        // recordImplementer, a landing's append to the list
    | Ask(s: string)           // holdWorktree begins and reads the list
    | Create(s: string)        // the exclusive create, taken or refused
    | Look(s: string)          // the existence test of a session that never landed
    | Write(s: string)         // the name written into the created or truncated file
    | ReadHolder(s: string)    // the read that decides a refused hold
    | ReadOwn(s: string)       // releaseWorktree's read
    | Remove(s: string)        // releaseWorktree's removal
    | TakeOver(s: string)      // a declared takeover opens the file, truncating it

  /** A name recordImplementer appends. */
  predicate Recordable(s: string) {
    s != "" && forall i :: 0 <= i < |s| ==> s[i] !in {' ', '\t', '\r', '\n'}
  }

  predicate Enabled(st: State, a: Action) {
    match a
    case Record(s) => st.At(s).Idle?
    case Ask(s) => s != "" && st.At(s).Idle?
    case Create(s) => st.At(s).Asking? && st.At(s).implementing
    case Look(s) => st.At(s).Asking? && !st.At(s).implementing
    case Write(s) => st.Writing(s)
    case ReadHolder(s) => st.At(s).Reading?
    case ReadOwn(s) => st.At(s).Idle?
    case Remove(s) => st.At(s).Removing?
    case TakeOver(s) => s != "" && st.At(s).Idle?
  }

  /** A write at the start of what the file holds: what the name does not cover stays. */
  function Overwritten(held: string, name: string): string {
    name + if |name| < |held| then held[|name|..] else ""
  }

  lemma OverwrittenAt(held: string, name: string, i: nat)
    requires i < |Overwritten(held, name)|
    ensures |Overwritten(held, name)| == if |name| < |held| then |held| else |name|
    ensures Overwritten(held, name)[i] == if i < |name| then name[i] else held[i]
  {
  }

  function Next(st: State, a: Action): State
    requires Enabled(st, a)
  {
    match a
    case Record(s) =>
      if Recordable(s) && !st.Implementer(s) then st.(listed := st.listed + s + "\n") else st
    case Ask(s) => st.Go(s, Asking(st.Implementer(s)))
    case Create(s) =>
      if st.file.Absent? then st.Go(s, Created).(file := Present("")) else st.Go(s, Reading(true))
    case Look(s) =>
      if st.file.Absent? then st.Go(s, Idle).(holding := st.holding - {s}, beside := st.beside + {s})
      else st.Go(s, Reading(false))
    case Write(s) =>
      st.Go(s, Idle).(file := Present(Overwritten(st.file.Read(), s)),
                      holding := st.holding + {s}, beside := st.beside - {s})
    case ReadHolder(s) =>
      if st.Names(s) then st.Go(s, Idle).(holding := st.holding + {s}, beside := st.beside - {s})
      else if st.Named() == s then st.Go(s, Idle).(holding := st.holding - {s}, beside := st.beside + {s})
      else st.Go(s, Idle).(holding := st.holding - {s}, beside := st.beside - {s})
    case ReadOwn(s) =>
      if st.Names(s) then st.Go(s, Removing)
      else st.Go(s, Idle).(holding := st.holding - {s}, beside := st.beside - {s})
    case Remove(s) =>
      st.Go(s, Idle).(file := Absent, holding := st.holding - {s}, beside := st.beside - {s})
    case TakeOver(s) =>
      // Whoever held the worktree has been taken over from.
      st.Go(s, Truncated).(file := Present(""), holding := {}, beside := st.beside - {s})
  }

  // ----- runs ------------------------------------------------------------------

  /** Any file may be left from before; no hook is under way. */
  predicate Initial(st: State) {
    st.steps == map[] && st.holding == {} && st.beside == {}
  }

  /** A takeover no write and no removal is under way beside, of a name that
      reads back as it was written. Every other action is orderly. */
  predicate Orderly(st: State, a: Action) {
    a.TakeOver? ==>
      && TrimSpace(a.s) == a.s
      && forall s :: s in st.steps ==> !st.Writing(s) && !st.At(s).Removing?
  }

  ghost predicate Runs(st: State, run: seq<Action>)
    decreases |run|
  {
    run == [] || (Enabled(st, run[0]) && Runs(Next(st, run[0]), run[1..]))
  }

  ghost predicate OrderlyRun(st: State, run: seq<Action>)
    requires Runs(st, run)
    decreases |run|
  {
    run == [] || (Orderly(st, run[0]) && OrderlyRun(Next(st, run[0]), run[1..]))
  }

  ghost function After(st: State, run: seq<Action>): State
    requires Runs(st, run)
    decreases |run|
  {
    if run == [] then st else After(Next(st, run[0]), run[1..])
  }

  // ----- safety ----------------------------------------------------------------

  predicate Clean(s: string) {
    s != "" && TrimSpace(s) == s
  }

  ghost predicate Inv(st: State) {
    && (forall s :: s in st.holding ==> st.Names(s))
    && (forall s :: st.At(s).Removing? ==> st.Names(s))
    && (forall s :: st.Writing(s) ==> st.file == Present("") && Clean(s))
    && (forall s, t :: st.Writing(s) && st.Writing(t) ==> s == t)
    && (forall s :: st.At(s).Asking? && st.At(s).implementing ==> Clean(s))
  }

  lemma TrimOfSpaceFree(s: string)
    requires SpaceFree(s)
    ensures TrimSpace(s) == s
  {
  }

  /** A step moves only its own session. */
  lemma OthersStay(st: State, a: Action)
    requires Enabled(st, a)
    ensures forall s :: s != a.s ==> Next(st, a).At(s) == st.At(s)
    ensures forall s :: s != a.s ==> Next(st, a).Writing(s) == st.Writing(s)
  {
  }

  lemma WriteKeepsInv(st: State, s: string)
    requires Inv(st) && Enabled(st, Write(s))
    ensures Inv(Next(st, Write(s)))
  {
    OthersStay(st, Write(s));
    assert Overwritten("", s) == s;
  }

  lemma CreateKeepsInv(st: State, s: string)
    requires Inv(st) && Enabled(st, Create(s))
    ensures Inv(Next(st, Create(s)))
  {
    OthersStay(st, Create(s));
  }

  lemma ReadKeepsInv(st: State, s: string)
    requires Inv(st) && Enabled(st, ReadHolder(s))
    ensures Inv(Next(st, ReadHolder(s)))
  {
    OthersStay(st, ReadHolder(s));
  }

  lemma RemoveKeepsInv(st: State, s: string)
    requires Inv(st) && Enabled(st, Remove(s))
    ensures Inv(Next(st, Remove(s)))
  {
    OthersStay(st, Remove(s));
  }

  lemma TakeOverKeepsInv(st: State, s: string)
    requires Inv(st) && Enabled(st, TakeOver(s)) && Orderly(st, TakeOver(s))
    ensures Inv(Next(st, TakeOver(s)))
  {
    OthersStay(st, TakeOver(s));
    assert forall t :: !st.Writing(t) && !st.At(t).Removing?;
  }

  /** Every orderly step keeps the invariant. */
  lemma StepKeepsInv(st: State, a: Action)
    requires Inv(st) && Enabled(st, a) && Orderly(st, a)
    ensures Inv(Next(st, a))
  {
    OthersStay(st, a);
    match a
    case Record(_) =>
    case Ask(s) =>
      if st.Implementer(s) {
        FieldIsSpaceFree(st.listed, s);
        TrimOfSpaceFree(s);
      }
    case Create(s) => CreateKeepsInv(st, s);
    case Look(_) =>
    case Write(s) => WriteKeepsInv(st, s);
    case ReadHolder(s) => ReadKeepsInv(st, s);
    case ReadOwn(_) =>
    case Remove(s) => RemoveKeepsInv(st, s);
    case TakeOver(s) => TakeOverKeepsInv(st, s);
  }

  /** At most one session holds the worktree, in every interleaving of the file
      steps of any number of sessions in which takeovers are orderly. */
  lemma {:induction false} AtMostOneHolds(st: State, run: seq<Action>)
    requires Inv(st) && Runs(st, run) && OrderlyRun(st, run)
    ensures Inv(After(st, run))
    ensures forall s, t :: s in After(st, run).holding && t in After(st, run).holding ==> s == t
    decreases |run|
  {
    if run != [] {
      StepKeepsInv(st, run[0]);
      AtMostOneHolds(Next(st, run[0]), run[1..]);
    }
  }

  /** A session that holds keeps the hold, whatever it and the others do and however often it
      asks again, until it removes the file itself or a takeover comes. */
  lemma {:induction false} HolderKeepsHold(st: State, run: seq<Action>, s: string)
    requires Inv(st) && Runs(st, run) && s in st.holding
    requires forall i :: 0 <= i < |run| ==> run[i] != Remove(s) && !run[i].TakeOver?
    ensures s in After(st, run).holding && After(st, run).Names(s)
    decreases |run|
  {
    if run != [] {
      StepKeepsInv(st, run[0]);
      HolderStepsOn(st, run[0], s);
      HolderKeepsHold(Next(st, run[0]), run[1..], s);
    }
  }

  lemma HolderStepsOn(st: State, a: Action, s: string)
    requires Inv(st) && Enabled(st, a) && s in st.holding && a != Remove(s) && !a.TakeOver?
    ensures s in Next(st, a).holding
  {
    assert st.Names(s) && st.file != Present("");
  }

  ghost predicate NoTakeover(run: seq<Action>) {
    forall i :: 0 <= i < |run| ==> !run[i].TakeOver?
  }

  /** Without takeovers, whatever file was left from before. */
  lemma MutualExclusion(st: State, run: seq<Action>)
    requires Initial(st) && Runs(st, run) && NoTakeover(run)
    ensures forall s, t :: s in After(st, run).holding && t in After(st, run).holding ==> s == t
    ensures forall s :: s in After(st, run).holding ==> After(st, run).Names(s)
  {
    NoTakeoverIsOrderly(st, run);
    AtMostOneHolds(st, run);
  }

  lemma {:induction false} NoTakeoverIsOrderly(st: State, run: seq<Action>)
    requires Runs(st, run)
    requires NoTakeover(run)
    ensures OrderlyRun(st, run)
    decreases |run|
  {
    if run != [] {
      NoTakeoverIsOrderly(Next(st, run[0]), run[1..]);
    }
  }

  // ----- sessions that have landed --------------------------------------------------

  /** The list ends where a record of it ends. */
  predicate ListEnds(listed: string) {
    listed == "" || IsSpace(listed[|listed| - 1])
  }

  /** A recorded name is a field of the list from then on, beside all before it. */
  lemma FieldsOfListed(listed: string, s: string)
    requires ListEnds(listed)
    requires s != "" && SpaceFree(s)
    ensures Fields(listed + s + "\n") == Fields(listed) + [s]
  {
    assert listed + s + "\n" == listed + (s + "\n");
    WordsAppend(listed, s + "\n", WHITE_SPACE);
    WordsOfWord(s, "\n", WHITE_SPACE);
    assert Words("\n", WHITE_SPACE) == [];
  }

  /** A session that has landed and whose last holdWorktree answered nothing. */
  predicate Landed(st: State, s: string) {
    st.Implementer(s) && s in st.holding + st.beside
  }

  ghost predicate OneLanded(st: State) {
    forall s, t :: Landed(st, s) && Landed(st, t) ==> s == t
  }

  /** A record of a name that is one field, as the names of sessions are. */
  predicate Plain(a: Action) {
    a.Record? && Recordable(a.s) ==> SpaceFree(a.s)
  }

  /** No landing is recorded of a session that stands beside no holder. */
  predicate Proper(st: State, a: Action) {
    a.Record? && Recordable(a.s) ==> a.s !in st.beside
  }

  ghost predicate ProperRun(st: State, run: seq<Action>)
    requires Runs(st, run)
    decreases |run|
  {
    run == [] || (Plain(run[0]) && Proper(st, run[0]) && ProperRun(Next(st, run[0]), run[1..]))
  }

  lemma {:induction false} RecordFreeIsProper(st: State, run: seq<Action>)
    requires Runs(st, run) && forall i :: 0 <= i < |run| ==> !run[i].Record?
    ensures ProperRun(st, run)
    decreases |run|
  {
    if run != [] {
      RecordFreeIsProper(Next(st, run[0]), run[1..]);
    }
  }

  /** The sessions recorded while they stood beside and not answered since: the record
      adds one, and the end of its next hook that asks, releases or takes over clears it. */
  function Owing(st: State, a: Action, owing: set<string>): set<string>
    requires Enabled(st, a)
  {
    if a.Record? then if Recordable(a.s) && a.s in st.beside then owing + {a.s} else owing
    else if Next(st, a).At(a.s).Idle? then owing - {a.s}
    else owing
  }

  ghost function OwingAfter(st: State, run: seq<Action>, owing: set<string>): set<string>
    requires Runs(st, run)
    decreases |run|
  {
    if run == [] then owing else OwingAfter(Next(st, run[0]), run[1..], Owing(st, run[0], owing))
  }

  ghost predicate PlainRun(run: seq<Action>) {
    forall i :: 0 <= i < |run| ==> Plain(run[i])
  }

  /** A session beside that has landed owes its answer, and none that asks as one that has
      not landed has. */
  ghost predicate BesideInv(st: State, owing: set<string>) {
    && ListEnds(st.listed)
    && (forall s :: s in st.beside && st.Implementer(s) ==> s in owing)
    && (forall s :: (st.At(s).Asking? || st.At(s).Reading?) && !st.At(s).implementing ==> !st.Implementer(s))
  }

  lemma SpacedIsNoImplementer(st: State, s: string)
    requires !SpaceFree(s)
    ensures !st.Implementer(s)
  {
    if st.Implementer(s) {
      FieldIsSpaceFree(st.listed, s);
    }
  }

  lemma UnwrittenIsSpaced()
    ensures !SpaceFree(UNWRITTEN_HOLDER)
  {
    assert IsSpace(UNWRITTEN_HOLDER[4]);
  }

  /** A record adds the session it names to those that have landed, and no other. */
  lemma RecordAdds(st: State, s: string)
    requires ListEnds(st.listed) && Enabled(st, Record(s)) && Plain(Record(s))
    ensures ListEnds(Next(st, Record(s)).listed)
    ensures forall t :: Next(st, Record(s)).Implementer(t) <==> (Recordable(s) && t == s) || st.Implementer(t)
  {
    if Recordable(s) && !st.Implementer(s) {
      FieldsOfListed(st.listed, s);
      assert (st.listed + s + "\n")[|st.listed + s|] == '\n';
    }
  }

  /** Every step keeps it. */
  lemma StepKeepsBeside(st: State, a: Action, owing: set<string>)
    requires BesideInv(st, owing) && Enabled(st, a) && Plain(a)
    ensures BesideInv(Next(st, a), Owing(st, a, owing))
  {
    if a.Record? {
      RecordAdds(st, a.s);
    } else {
      OthersStay(st, a);
      StepAddsBeside(st, a, owing);
    }
  }

  /** A session that a hook leaves beside has not landed. */
  lemma StepAddsBeside(st: State, a: Action, owing: set<string>)
    requires BesideInv(st, owing) && Enabled(st, a) && !a.Record?
    ensures Next(st, a).beside <= st.beside + {a.s}
    ensures a.s in Next(st, a).beside && (a.s in st.beside ==> Next(st, a).At(a.s).Idle?) ==> !st.Implementer(a.s)
  {
    if a.ReadHolder? {
      UnwrittenIsSpaced();
      SpacedIsNoImplementer(st, UNWRITTEN_HOLDER);
    }
  }

  /** At most one landed session that owes no answer stands. */
  ghost predicate OneStands(st: State, owing: set<string>) {
    forall s, t :: Landed(st, s) && Landed(st, t) && s !in owing && t !in owing ==> s == t
  }

  /** At most one session that has landed here is between an answer of nothing and its
      release, over every interleaving in which takeovers are orderly: a landing that found
      its session beside no holder counts from the end of the hook that asks after it. */
  lemma {:induction false} OneLandedStands(st: State, run: seq<Action>, owing: set<string>)
    requires Inv(st) && BesideInv(st, owing) && Runs(st, run) && OrderlyRun(st, run) && PlainRun(run)
    ensures Inv(After(st, run)) && BesideInv(After(st, run), OwingAfter(st, run, owing))
    ensures OneStands(After(st, run), OwingAfter(st, run, owing))
    decreases |run|
  {
    if run != [] {
      StepKeepsInv(st, run[0]);
      StepKeepsBeside(st, run[0], owing);
      OneLandedStands(Next(st, run[0]), run[1..], Owing(st, run[0], owing));
    }
  }

  lemma {:induction false} ProperOwesNothing(st: State, run: seq<Action>)
    requires Runs(st, run) && ProperRun(st, run)
    ensures PlainRun(run) && OwingAfter(st, run, {}) == {}
    decreases |run|
  {
    if run != [] {
      assert Owing(st, run[0], {}) == {};
      ProperOwesNothing(Next(st, run[0]), run[1..]);
    }
  }

  /** Without takeovers, from any list of records and whatever hold was left from before. */
  lemma LandedMutualExclusion(st: State, run: seq<Action>)
    requires Initial(st) && ListEnds(st.listed) && Runs(st, run) && NoTakeover(run) && PlainRun(run)
    ensures OneStands(After(st, run), OwingAfter(st, run, {}))
    ensures ProperRun(st, run) ==> OneLanded(After(st, run))
  {
    NoTakeoverIsOrderly(st, run);
    OneLandedStands(st, run, {});
    if ProperRun(st, run) {
      ProperOwesNothing(st, run);
    }
  }

  // ----- composing runs -----------------------------------------------------------

  lemma {:induction false} RunAppend(st: State, first: seq<Action>, second: seq<Action>)
    requires Runs(st, first) && Runs(After(st, first), second)
    ensures Runs(st, first + second)
    ensures After(st, first + second) == After(After(st, first), second)
    decreases |first|
  {
    if first == [] {
      assert first + second == second;
    } else {
      assert (first + second)[1..] == first[1..] + second;
      RunAppend(Next(st, first[0]), first[1..], second);
    }
  }

  lemma RunOf(st: State, a: Action)
    requires Enabled(st, a)
    ensures Runs(st, [a]) && After(st, [a]) == Next(st, a)
  {
    assert Runs(Next(st, a), []);
  }

  lemma RunOf2(st: State, a: Action, b: Action)
    requires Enabled(st, a) && Enabled(Next(st, a), b)
    ensures Runs(st, [a, b]) && After(st, [a, b]) == Next(Next(st, a), b)
  {
    RunOf(Next(st, a), b);
    assert [a, b][1..] == [b];
  }

  lemma RunOf3(st: State, a: Action, b: Action, c: Action)
    requires Enabled(st, a) && Enabled(Next(st, a), b) && Enabled(Next(Next(st, a), b), c)
    ensures Runs(st, [a, b, c]) && After(st, [a, b, c]) == Next(Next(Next(st, a), b), c)
  {
    RunOf2(Next(st, a), b, c);
    assert [a, b, c][1..] == [b, c];
  }

  /** A session that has landed and finds the worktree free takes it. */
  lemma TakesFreeHold(st: State, u: string)
    requires st.file.Absent? && st.At(u).Idle? && st.Implementer(u)
    ensures var run := [Ask(u), Create(u), Write(u)];
            && Runs(st, run)
            && After(st, run) == st.(file := Present(u), steps := st.steps[u := Idle],
                                     holding := st.holding + {u}, beside := st.beside - {u})
  {
    RunOf3(st, Ask(u), Create(u), Write(u));
    assert Overwritten("", u) == u;
  }

  // ----- where it ends -----------------------------------------------------------

  /** A takeover while any holder's removal is under way lets two sessions hold:
      the removal takes away the file that names the new holder. */
  lemma TakeoverRacesRelease(st: State, r: string, t: string, u: string)
    requires Inv(st) && st.At(r).Removing?
    requires st.At(t).Idle? && st.At(u).Idle? && r != t && t != u
    requires Clean(t) && st.Implementer(u)
    ensures var run := [TakeOver(t), Write(t), Remove(r)] + [Ask(u), Create(u), Write(u)];
            Runs(st, run) && {t, u} <= After(st, run).holding
  {
    var first := [TakeOver(t), Write(t), Remove(r)];
    RunOf3(st, TakeOver(t), Write(t), Remove(r));
    TakesFreeHold(After(st, first), u);
    RunAppend(st, first, [Ask(u), Create(u), Write(u)]);
  }

  /** A takeover while a creator has not yet written lets both hold. */
  lemma TakeoverRacesCreate(st: State, c: string, t: string)
    requires Inv(st) && st.At(c).Created? && st.At(t).Idle? && Clean(t)
    ensures var run := [TakeOver(t), Write(t), Write(c)];
            Runs(st, run) && {t, c} <= After(st, run).holding && t != c
  {
    RunOf3(st, TakeOver(t), Write(t), Write(c));
  }

  /** A takeover while another takeover has not yet written lets both hold. */
  lemma TakeoverRacesTakeover(st: State, a: string, b: string)
    requires Inv(st) && st.At(a).Truncated? && st.At(b).Idle? && Clean(b)
    ensures var run := [TakeOver(b), Write(a), Write(b)];
            Runs(st, run) && {a, b} <= After(st, run).holding && a != b
  {
    RunOf3(st, TakeOver(b), Write(a), Write(b));
  }

  /** Who keeps a file that is there from those beside: a session that has landed and
      is writing its name, or holds. */
  ghost predicate Holder(st: State, c: string) {
    st.Implementer(c) && (st.At(c).Created? || c in st.holding)
  }

  /** What takeover-free steps from a fresh start keep besides. */
  ghost predicate FreshInv(st: State) {
    && Inv(st) && BesideInv(st, {}) && st.holding !! st.beside
    && (forall s :: !st.At(s).Truncated?)
    && (forall s :: st.At(s).Created? || (st.At(s).Asking? && st.At(s).implementing) ==> st.Implementer(s))
    && (forall s :: s in st.beside && SpaceFree(s) ==> st.file.Absent? || exists c :: Holder(st, c))
  }

  lemma StepKeepsHolder(st: State, a: Action, c: string)
    requires FreshInv(st) && Enabled(st, a) && Plain(a) && !a.TakeOver? && Holder(st, c)
    ensures Next(st, a).file.Absent? || Holder(Next(st, a), c)
  {
    OthersStay(st, a);
    if a.Record? {
      RecordAdds(st, a.s);
    }
  }

  lemma StepKeepsFresh(st: State, a: Action)
    requires FreshInv(st) && Enabled(st, a) && Plain(a) && Proper(st, a) && !a.TakeOver?
    ensures FreshInv(Next(st, a))
  {
    StepKeepsInv(st, a);
    StepKeepsBeside(st, a, {});
    StepKeepsPlaces(st, a);
    var next := Next(st, a);
    forall s | s in next.beside && SpaceFree(s) ensures next.file.Absent? || exists c :: Holder(next, c) {
      HolderStands(st, a, s);
    }
  }

  lemma StepKeepsPlaces(st: State, a: Action)
    requires FreshInv(st) && Enabled(st, a) && Plain(a) && !a.TakeOver?
    ensures var next := Next(st, a);
            && next.holding !! next.beside && (forall s :: !next.At(s).Truncated?)
            && (forall s :: next.At(s).Created? || (next.At(s).Asking? && next.At(s).implementing) ==>
                              next.Implementer(s))
  {
    OthersStay(st, a);
    if a.Record? {
      RecordAdds(st, a.s);
    }
  }

  lemma HolderStands(st: State, a: Action, s: string)
    requires FreshInv(st) && Enabled(st, a) && Plain(a) && !a.TakeOver?
    requires s in Next(st, a).beside && SpaceFree(s)
    ensures Next(st, a).file.Absent? || exists c :: Holder(Next(st, a), c)
  {
    UnwrittenIsSpaced();
    if s in st.beside && !st.file.Absent? {
      var c :| Holder(st, c);
      StepKeepsHolder(st, a, c);
    } else if a.Create? {
      assert Next(st, a).file.Absent? || Holder(Next(st, a), a.s);
    }
  }

  lemma {:induction false} RunKeepsFresh(st: State, run: seq<Action>)
    requires FreshInv(st) && Runs(st, run) && NoTakeover(run) && ProperRun(st, run)
    ensures FreshInv(After(st, run))
    decreases |run|
  {
    if run != [] {
      StepKeepsFresh(st, run[0]);
      RunKeepsFresh(Next(st, run[0]), run[1..]);
    }
  }

  /** A session recorded while it stands beside can always come to stand beside another
      that has landed and holds: at once, after a write under way, or after any other
      session u lands and takes the free worktree. */
  lemma LandedBesideHolder(st: State, b: string, u: string) returns (more: seq<Action>, c: string)
    requires FreshInv(st) && b in st.beside && Recordable(b) && SpaceFree(b) && st.At(b).Idle?
    requires u != b && Recordable(u) && SpaceFree(u) && st.At(u).Idle? && u !in st.beside
    ensures Enabled(st, Record(b))
    ensures var after := Next(st, Record(b));
            && Runs(after, more) && NoTakeover(more) && ProperRun(after, more)
            && c != b && Landed(After(after, more), b) && Landed(After(after, more), c)
  {
    var after := Next(st, Record(b));
    RecordAdds(st, b);
    if st.file.Absent? {
      more := LandsAndHolds(after, u);
      c := u;
    } else {
      c :| Holder(st, c);
      more := if c in st.holding then [] else [Write(c)];
      if c !in st.holding {
        RunOf(after, Write(c));
        assert ProperRun(Next(after, Write(c)), []);
      }
    }
  }

  /** Any session not beside may land and take a free worktree. */
  lemma LandsAndHolds(st: State, u: string) returns (run: seq<Action>)
    requires ListEnds(st.listed) && st.file.Absent?
    requires Recordable(u) && SpaceFree(u) && st.At(u).Idle? && u !in st.beside
    ensures Runs(st, run) && NoTakeover(run) && ProperRun(st, run)
    ensures After(st, run).beside == st.beside && u in After(st, run).holding
    ensures forall t :: After(st, run).Implementer(t) <==> t == u || st.Implementer(t)
  {
    RecordAdds(st, u);
    var landed := Next(st, Record(u));
    var take := [Ask(u), Create(u), Write(u)];
    TakesFreeHold(landed, u);
    RunOf(st, Record(u));
    RunAppend(st, [Record(u)], take);
    run := [Record(u)] + take;
    assert run[1..] == take;
    RecordFreeIsProper(landed, take);
  }

  /** Exactly when the rule fails: from where a fresh start has come without takeovers and
      by records that are proper, one action more leaves at most one landed session
      standing, whatever proper steps follow, if and only if that action is proper too. */
  lemma ProperIsExact(st: State, run: seq<Action>, a: Action, u: string)
    requires Initial(st) && ListEnds(st.listed) && Runs(st, run) && NoTakeover(run) && ProperRun(st, run)
    requires Enabled(After(st, run), a) && Plain(a) && !a.TakeOver?
    requires var now := After(st, run);
             u != a.s && Recordable(u) && SpaceFree(u) && now.At(u).Idle? && u !in now.beside
    ensures var now := After(st, run);
            Proper(now, a) <==>
              forall more :: Runs(Next(now, a), more) && NoTakeover(more) && ProperRun(Next(now, a), more) ==>
                               OneLanded(After(Next(now, a), more))
  {
    var now := After(st, run);
    RunKeepsFresh(st, run);
    if Proper(now, a) {
      StepKeepsFresh(now, a);
      forall more | Runs(Next(now, a), more) && NoTakeover(more) && ProperRun(Next(now, a), more)
        ensures OneLanded(After(Next(now, a), more)) {
        RunKeepsFresh(Next(now, a), more);
      }
    } else {
      var more, c := LandedBesideHolder(now, a.s, u);
      assert !OneLanded(After(Next(now, a), more));
    }
  }

  /** The rule does fail: a session answered beside no holder, another that then takes the
      hold, and the first's landing. */
  lemma LandingBesideIsReached(h: string, b: string)
    requires Recordable(h) && Recordable(b) && SpaceFree(h) && SpaceFree(b) && h != b
    ensures var st := State(Absent, h + "\n", map[], {}, {});
            var run := [Ask(b), Look(b)] + [Ask(h), Create(h), Write(h)] + [Record(b)];
            && Initial(st) && ListEnds(st.listed) && Runs(st, run) && NoTakeover(run)
            && Landed(After(st, run), h) && Landed(After(st, run), b)
  {
    var st := State(Absent, h + "\n", map[], {}, {});
    ListedAlone(h);
    LandsBeside(st, h, b);
  }

  /** A session's first landing in a fresh worktree, after a prompt that found no holder:
      it owes its answer from the record on, takes the hold, and owes nothing. */
  lemma FirstLandingTakesHold(b: string)
    requires Recordable(b) && SpaceFree(b)
    ensures var st := State(Absent, "", map[], {}, {});
            var prompt, land, take := [Ask(b), Look(b)], [Record(b)], [Ask(b), Create(b), Write(b)];
            && Initial(st) && Runs(st, prompt + land) && b in OwingAfter(st, prompt + land, {})
            && Runs(st, prompt + land + take) && OwingAfter(st, prompt + land + take, {}) == {}
            && After(st, prompt + land + take).holding == {b} && Landed(After(st, prompt + land + take), b)
  {
    var st := State(Absent, "", map[], {}, {});
    var prompt, land, take := [Ask(b), Look(b)], [Record(b)], [Ask(b), Create(b), Write(b)];
    RunOf2(st, Ask(b), Look(b));
    var asked := After(st, prompt);
    RecordAdds(asked, b);
    RunOf(asked, Record(b));
    RunAppend(st, prompt, land);
    TakesFreeHold(After(st, prompt + land), b);
    RunAppend(st, prompt + land, take);
    OwingOf2(st, Ask(b), Look(b), {});
    OwingOf(asked, Record(b), {});
    OwingAppend(st, prompt, land, {});
    assert OwingAfter(st, prompt + land, {}) == {b};
    OwingAppend(st, prompt + land, take, {});
    OwingTaken(After(st, prompt + land), b);
  }

  lemma OwingOf(st: State, a: Action, owing: set<string>)
    requires Enabled(st, a)
    ensures Runs(st, [a]) && OwingAfter(st, [a], owing) == Owing(st, a, owing)
  {
    RunOf(st, a);
    assert [a][1..] == [];
  }

  lemma OwingOf2(st: State, a: Action, b: Action, owing: set<string>)
    requires Enabled(st, a) && Enabled(Next(st, a), b)
    ensures Runs(st, [a, b]) && OwingAfter(st, [a, b], owing) == Owing(Next(st, a), b, Owing(st, a, owing))
  {
    RunOf2(st, a, b);
    OwingOf(Next(st, a), b, Owing(st, a, owing));
    assert [a, b][1..] == [b];
  }

  lemma OwingTaken(st: State, b: string)
    requires st.file.Absent? && st.At(b).Idle? && st.Implementer(b)
    ensures Runs(st, [Ask(b), Create(b), Write(b)]) && OwingAfter(st, [Ask(b), Create(b), Write(b)], {b}) == {}
  {
    TakesFreeHold(st, b);
    assert [Ask(b), Create(b), Write(b)][1..] == [Create(b), Write(b)];
    OwingOf2(Next(st, Ask(b)), Create(b), Write(b), {b});
  }

  lemma {:induction false} OwingAppend(st: State, first: seq<Action>, second: seq<Action>, owing: set<string>)
    requires Runs(st, first) && Runs(After(st, first), second) && Runs(st, first + second)
    ensures OwingAfter(st, first + second, owing) == OwingAfter(After(st, first), second, OwingAfter(st, first, owing))
    decreases |first|
  {
    if first == [] {
      assert first + second == second;
    } else {
      assert (first + second)[1..] == first[1..] + second;
      OwingAppend(Next(st, first[0]), first[1..], second, Owing(st, first[0], owing));
    }
  }

  lemma ListedAlone(h: string)
    requires h != "" && SpaceFree(h)
    ensures ListEnds(h + "\n") && Fields(h + "\n") == [h]
  {
    assert "" + h + "\n" == h + "\n" && (h + "\n")[|h|] == '\n';
    FieldsOfListed("", h);
  }

  lemma LandsBeside(st: State, h: string, b: string)
    requires Initial(st) && ListEnds(st.listed) && st.file.Absent? && h != b
    requires st.Implementer(h) && !st.Implementer(b) && Recordable(b) && SpaceFree(b)
    ensures var run := [Ask(b), Look(b)] + [Ask(h), Create(h), Write(h)] + [Record(b)];
            && Runs(st, run) && Landed(After(st, run), h) && Landed(After(st, run), b)
  {
    var asked, taken := [Ask(b), Look(b)], [Ask(h), Create(h), Write(h)];
    RunOf2(st, Ask(b), Look(b));
    var s1 := After(st, asked);
    TakesFreeHold(s1, h);
    RunAppend(st, asked, taken);
    var s2 := After(st, asked + taken);
    RecordAdds(s2, b);
    RunOf(s2, Record(b));
    RunAppend(st, asked + taken, [Record(b)]);
  }

  /** A session that has landed and asks while another holds is sent away. */
  lemma AskedAgainIsSentAway(st: State, h: string, b: string)
    requires Inv(st) && h in st.holding && b != h && st.At(b).Idle? && st.Implementer(b)
    ensures var run := [Ask(b), Create(b), ReadHolder(b)];
            && Runs(st, run)
            && After(st, run).holding == st.holding && After(st, run).file == st.file
            && b !in After(st, run).holding && b !in After(st, run).beside
  {
    FieldIsSpaceFree(st.listed, b);
    assert b != UNWRITTEN_HOLDER by {
      assert UNWRITTEN_HOLDER[4] == ' ';
    }
    RunOf3(st, Ask(b), Create(b), ReadHolder(b));
  }

  /** A creator that ends before it writes leaves a hold no session can take or
      keep: whatever the others do, short of a takeover, none holds. */
  lemma {:induction false} UnwrittenHoldWedges(st: State, c: string, run: seq<Action>)
    requires Inv(st) && st.At(c).Created? && Runs(st, run)
    requires forall i :: 0 <= i < |run| ==> !run[i].TakeOver? && run[i].s != c
    ensures After(st, run).holding == {} && After(st, run).file == Present("")
    decreases |run|
  {
    assert st.Writing(c);
    if run != [] {
      StepKeepsInv(st, run[0]);
      OthersStay(st, run[0]);
      UnwrittenHoldWedges(Next(st, run[0]), c, run[1..]);
    }
  }

  /** A holder's release gives the worktree to the next session that has landed. */
  lemma ReleaseHandsOver(st: State, s: string, u: string)
    requires Inv(st) && s in st.holding && st.At(s).Idle? && st.At(u).Idle?
    requires u != s && st.Implementer(u)
    ensures var run := [ReadOwn(s), Remove(s)] + [Ask(u), Create(u), Write(u)];
            Runs(st, run) && After(st, run).holding == {u} && After(st, run).file == Present(u)
  {
    var released := [ReadOwn(s), Remove(s)];
    RunOf2(st, ReadOwn(s), Remove(s));
    TakesFreeHold(After(st, released), u);
    RunAppend(st, released, [Ask(u), Create(u), Write(u)]);
  }

  // ----- the hooks' own code --------------------------------------------------------

  /** The two state files of a worktree the hold reads and writes. */
  class Worktree {
    var file: File
    var listed: string

    constructor ()
      ensures file == Absent && listed == ""
    {
      file, listed := Absent, "";
    }

    /** The worktree with no hook under way. */
    ghost function Alone(): State
      reads this
    {
      State(file, listed, map[], {}, {})
    }

    /** A landing's record: from then on, and only by a landing, the session implements. */
    method RecordImplementer(session: string)
      requires ListEnds(listed)
      modifies this`listed
      ensures listed == if session != "" && session !in Fields(old(listed))
                           && forall i :: 0 <= i < |session| ==>
                                session[i] != ' ' && session[i] != '\t' && session[i] != '\r' && session[i] != '\n'
                        then old(listed) + session + "\n" else old(listed)
      ensures Enabled(old(Alone()), Record(session)) && Alone() == Next(old(Alone()), Record(session))
      ensures ListEnds(listed)
      ensures Recordable(session) && SpaceFree(session) ==>
                forall s :: Alone().Implementer(s) <==> s == session || old(Alone()).Implementer(s)
    {
      if !Recordable(session) || (session != "" && session in Fields(listed)) {
        return;
      }
      if SpaceFree(session) {
        FieldsOfListed(listed, session);
      }
      listed := listed + session + "\n";
    }

    /** holdWorktree, no other hook's step between its own: it ends where the run of
        those steps ends, and answers nothing exactly when the session then holds the
        worktree or stands beside no holder. */
    method HoldWorktree(session: string, takeover: bool) returns (holder: string, ghost run: seq<Action>)
      modifies this`file
      ensures Runs(old(Alone()), run) && After(old(Alone()), run).file == file
      ensures forall i :: 0 <= i < |run| ==> run[i].s == session
      ensures After(old(Alone()), run).At(session) == Idle
      ensures holder == "" <==>
              session == "" || session in After(old(Alone()), run).holding + After(old(Alone()), run).beside
      ensures holder != "" ==> file == old(file) && file.Present? && holder == old(Alone()).Named()
      ensures session == "" ==> holder == "" && file == old(file)
      ensures session != "" && takeover ==> holder == "" && file == Present(session)
      ensures session != "" && !takeover && old(file).Absent? ==>
                holder == "" && file == if session in Fields(listed) then Present(session) else Absent
      ensures session != "" && !takeover && old(file).Present? ==>
                && file == old(file)
                && var trimmed := TrimSpace(file.text);
                   var held := if trimmed == "" then "that began as this one did" else trimmed;
                   holder == if held == session then "" else held
    {
      ghost var st := Alone();
      if session == "" {
        return "", [];
      }
      if takeover {
        file := Present(session);
        assert Overwritten("", session) == session;
        RunOf2(st, TakeOver(session), Write(session));
        return "", [TakeOver(session), Write(session)];
      }
      var first := if session in Fields(listed) then Create(session) else Look(session);
      if session !in Fields(listed) {
        if file.Absent? {
          RunOf2(st, Ask(session), Look(session));
          return "", [Ask(session), Look(session)];
        }
      } else if file.Absent? {
        file := Present(session);
        TakesFreeHold(st, session);
        return "", [Ask(session), Create(session), Write(session)];
      }
      run := [Ask(session), first, ReadHolder(session)];
      RunOf3(st, Ask(session), first, ReadHolder(session));
      holder := TrimSpace(file.text);
      if holder == "" {
        holder := UNWRITTEN_HOLDER;
      }
      if holder == session {
        holder := "";
      }
    }

    /** releaseWorktree, no other hook's step between its own. */
    method ReleaseWorktree(session: string) returns (ghost run: seq<Action>)
      modifies this`file
      ensures Runs(old(Alone()), run) && After(old(Alone()), run).file == file
      ensures After(old(Alone()), run).At(session) == Idle
      ensures file == if old(file).Present? && session != "" && TrimSpace(old(file).text) == session then Absent
                      else old(file)
    {
      ghost var st := Alone();
      if file.Present? && session != "" && TrimSpace(file.text) == session {
        file := Absent;
        run := [ReadOwn(session), Remove(session)];
        RunOf2(st, ReadOwn(session), Remove(session));
      } else {
        run := [ReadOwn(session)];
        RunOf(st, ReadOwn(session));
      }
    }
  }
}
