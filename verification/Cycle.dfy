/** The improvement cycle's phases over a state file that outlives its runs: a
    run may end between any two of its steps, and the next goes on from what
    the file holds. */
module Cycle {
  import opened Options

  type Key = string

  /** cycleState: what the file keeps of the cycle for one key. */
  datatype CycleState = CycleState(key: Key, cells: bool, published: bool)

  /** readCycleState: the state kept for key, none for another key. */
  function ReadState(stored: Option<CycleState>, key: Key): CycleState {
    if stored.Some? && stored.value.key == key then stored.value else CycleState(key, false, false)
  }

  /** What happened, in the order it happened. */
  datatype Event =
    | CellsRan(key: Key, passed: bool)
    | PublicationRan(key: Key, passed: bool)
    | CellsCredited(key: Key)
    | PublicationCredited(key: Key)
    | Remembered(state: CycleState)
    | Crashed
    | Filled

  /** Where a run of measurePhases stands, with the state it holds. */
  datatype Run =
    | Idle
    | Preflight(state: CycleState)
    | Lanes(state: CycleState)
    | Cells(state: CycleState)
    | RememberCells(state: CycleState)
    | Publication(state: CycleState, remeasured: bool)
    | RememberPublication(state: CycleState)

  datatype World = World(stored: Option<CycleState>, run: Run, log: seq<Event>)

  datatype Action =
    | Start(key: Key)           // a run begins for key
    | Phase(passed: bool)       // the phase the run stands at ends
    | Remember                  // the state is written
    | Crash                     // the run ends where it stands
    | Fill                      // a cycle that reached its decision removes the file

  predicate Enabled(w: World, a: Action) {
    match a
    case Start(_) => w.run.Idle?
    case Phase(_) => w.run.Preflight? || w.run.Lanes? || w.run.Cells? || w.run.Publication?
    case Remember => w.run.RememberCells? || w.run.RememberPublication?
    case Crash => !w.run.Idle?
    case Fill => w.run.Idle?
  }

  function Log(w: World, e: Event): World {
    w.(log := w.log + [e])
  }

  function Next(w: World, a: Action): World
    requires Enabled(w, a)
  {
    match a
    case Start(key) => w.(run := Preflight(ReadState(w.stored, key)))
    case Phase(passed) =>
      (match w.run
       case Preflight(state) => w.(run := Lanes(state))
       case Lanes(state) => if passed then w.(run := Cells(state)) else w.(run := Idle)
       case Cells(state) =>
         if state.cells
         then Log(w.(run := Publication(state, false)), CellsCredited(state.key))
         else Log(w.(run := RememberCells(state.(cells := passed))), CellsRan(state.key, passed))
       case Publication(state, remeasured) =>
         if remeasured || !state.published
         then Log(w.(run := RememberPublication(state.(published := passed))), PublicationRan(state.key, passed))
         else Log(w.(run := Idle), PublicationCredited(state.key))
       case _ => w)
    case Remember =>
      (match w.run
       case RememberCells(state) => Log(w.(stored := Some(state), run := Publication(state, true)), Remembered(state))
       case RememberPublication(state) => Log(w.(stored := Some(state), run := Idle), Remembered(state))
       case _ => w)
    case Crash => Log(w.(run := Idle), Crashed)
    case Fill => Log(w.(stored := None), Filled)
  }

  // ----- runs, with crashes ------------------------------------------------------------

  ghost predicate Runs(w: World, actions: seq<Action>)
    decreases |actions|
  {
    actions == [] || (Enabled(w, actions[0]) && Runs(Next(w, actions[0]), actions[1..]))
  }

  ghost function After(w: World, actions: seq<Action>): World
    requires Runs(w, actions)
    decreases |actions|
  {
    if actions == [] then w else After(Next(w, actions[0]), actions[1..])
  }

  const EMPTY := World(None, Idle, [])

  // ----- what a log says ------------------------------------------------------------------

  /** Where the cells of key last ran, or -1. */
  ghost function LastCells(log: seq<Event>, key: Key): (i: int)
    ensures -1 <= i < |log|
    ensures i >= 0 ==> log[i].CellsRan? && log[i].key == key
    ensures forall k :: i < k < |log| ==> !(log[k].CellsRan? && log[k].key == key)
  {
    if log == [] then -1
    else
      var last := log[|log| - 1];
      if last.CellsRan? && last.key == key then |log| - 1 else LastCells(log[..|log| - 1], key)
  }

  /** Where a publication of key last passed, or -1. */
  ghost function LastPublished(log: seq<Event>, key: Key): (i: int)
    ensures -1 <= i < |log|
    ensures i >= 0 ==> log[i] == PublicationRan(key, true)
    ensures forall k :: i < k < |log| ==> log[k] != PublicationRan(key, true)
  {
    if log == [] then -1
    else if log[|log| - 1] == PublicationRan(key, true) then |log| - 1
    else LastPublished(log[..|log| - 1], key)
  }

  /** Where the state file was last removed at a cycle's end, or -1. */
  ghost function LastFilled(log: seq<Event>): (i: int)
    ensures -1 <= i < |log|
    ensures i >= 0 ==> log[i].Filled?
    ensures forall k :: i < k < |log| ==> !log[k].Filled?
  {
    if log == [] then -1
    else if log[|log| - 1].Filled? then |log| - 1
    else LastFilled(log[..|log| - 1])
  }

  /** What the state file holds by the log. */
  ghost function Kept(log: seq<Event>): Option<CycleState> {
    if log == [] then None
    else
      match log[|log| - 1]
      case Filled => None
      case Remembered(state) => Some(state)
      case _ => Kept(log[..|log| - 1])
  }

  lemma Appended(log: seq<Event>, e: Event)
    ensures (log + [e])[..|log|] == log
    ensures forall key ::
              LastCells(log + [e], key) == if e.CellsRan? && e.key == key then |log| else LastCells(log, key)
    ensures forall key ::
              LastPublished(log + [e], key) == if e == PublicationRan(key, true) then |log| else LastPublished(log, key)
    ensures LastFilled(log + [e]) == if e.Filled? then |log| else LastFilled(log)
    ensures Kept(log + [e]) == if e.Filled? then None else if e.Remembered? then Some(e.state) else Kept(log)
  {
    assert (log + [e])[..|log|] == log;
  }

  /** The last run of the cells of key passed, in this cycle. */
  ghost predicate CellsEarned(log: seq<Event>, key: Key) {
    var i := LastCells(log, key);
    i > LastFilled(log) && log[i] == CellsRan(key, true)
  }

  /** A publication of key passed in this cycle. */
  ghost predicate PublicationEarned(log: seq<Event>, key: Key) {
    LastPublished(log, key) > LastFilled(log)
  }

  /** The last publication of key that passed is newer than the last run of its cells. */
  ghost predicate Fresh(log: seq<Event>, key: Key) {
    LastPublished(log, key) > LastCells(log, key)
  }

  // ----- what holds between any two steps ---------------------------------------------------

  ghost predicate StateEarned(log: seq<Event>, state: CycleState) {
    && (state.cells ==> CellsEarned(log, state.key))
    && (state.published ==> PublicationEarned(log, state.key))
  }

  /** How a run's state stands to the file's. */
  ghost predicate RunAgrees(w: World) {
    match w.run
    case Idle => true
    case Preflight(state) => state == ReadState(w.stored, state.key)
    case Lanes(state) => state == ReadState(w.stored, state.key)
    case Cells(state) => state == ReadState(w.stored, state.key)
    case RememberCells(state) =>
      var read := ReadState(w.stored, state.key);
      !read.cells && state.published == read.published
      && w.log != [] && w.log[|w.log| - 1] == CellsRan(state.key, state.cells)
    case Publication(state, remeasured) =>
      w.stored == Some(state) && if remeasured then !Fresh(w.log, state.key) else state.cells
    case RememberPublication(state) =>
      && w.stored.Some? && w.stored.value.key == state.key && w.stored.value.cells == state.cells
      && (state.published ==> Fresh(w.log, state.key))
      && (!state.published && w.stored.value.published ==> !Fresh(w.log, state.key))
  }

  ghost predicate RunEarned(w: World) {
    match w.run
    case Idle => true
    case Preflight(state) => StateEarned(w.log, state)
    case Lanes(state) => StateEarned(w.log, state)
    case Cells(state) => StateEarned(w.log, state)
    case RememberCells(state) => StateEarned(w.log, state)
    case Publication(state, _) => StateEarned(w.log, state)
    case RememberPublication(state) => StateEarned(w.log, state)
  }

  /** An event of the log and all before it: credit is earned under the same key in
      the same cycle, and cells that are kept as passed are not run. */
  ghost predicate EventSound(before: seq<Event>, e: Event) {
    && (e.CellsCredited? ==> CellsEarned(before, e.key))
    && (e.PublicationCredited? ==> PublicationEarned(before, e.key) && CellsEarned(before, e.key))
    && (e.CellsRan? ==> !KeepsCells(before, e.key))
    && (e.Remembered? && KeepsCells(before, e.state.key) ==> e.state.cells)
    && (e.Remembered? && e.state.cells ==> KeepsCells(before, e.state.key) || JustPassed(before, e.state.key))
    && (EndsInCells(before) ==>
          e.Crashed? || (e.Remembered? && e.state.key == before[|before| - 1].key
                         && e.state.cells == before[|before| - 1].passed))
  }

  /** The state file keeps the cells of key as passed. */
  ghost predicate KeepsCells(log: seq<Event>, key: Key) {
    Kept(log).Some? && Kept(log).value.key == key && Kept(log).value.cells
  }

  /** The cells of key passed a moment ago. */
  ghost predicate JustPassed(log: seq<Event>, key: Key) {
    log != [] && log[|log| - 1] == CellsRan(key, true)
  }

  ghost predicate EndsInCells(log: seq<Event>) {
    log != [] && log[|log| - 1].CellsRan?
  }

  ghost predicate LogSound(log: seq<Event>) {
    forall i :: 0 <= i < |log| ==> EventSound(log[..i], log[i])
  }

  ghost predicate Inv(w: World) {
    StateInv(w) && LogSound(w.log)
  }

  /** What the file and the run hold is what the log has earned. */
  ghost predicate StateInv(w: World) {
    && w.stored == Kept(w.log)
    && (w.stored.Some? ==> StateEarned(w.log, w.stored.value))
    && RunAgrees(w)
    && RunEarned(w)
    && (EndsInCells(w.log) ==> w.run.RememberCells?)
  }

  /** The step logs one event, and that is sound. */
  ghost predicate LogsSoundly(w: World, next: World) {
    next.log != [] && next.log == w.log + [next.log[|next.log| - 1]] && EventSound(w.log, next.log[|next.log| - 1])
  }

  lemma LogSoundAppend(log: seq<Event>, e: Event)
    requires LogSound(log) && EventSound(log, e)
    ensures LogSound(log + [e])
  {
    var all := log + [e];
    forall i | 0 <= i < |all| ensures EventSound(all[..i], all[i]) {
      if i < |log| {
        assert all[..i] == log[..i];
      } else {
        assert all[..i] == log;
      }
    }
  }

  /** What one event more does to what the log has earned. */
  lemma EarnedAppend(log: seq<Event>, e: Event, key: Key)
    ensures CellsEarned(log + [e], key) <==>
            if e.CellsRan? && e.key == key then e.passed else !e.Filled? && CellsEarned(log, key)
    ensures PublicationEarned(log + [e], key) <==>
            e == PublicationRan(key, true) || (!e.Filled? && PublicationEarned(log, key))
    ensures Fresh(log + [e], key) <==>
            e == PublicationRan(key, true) || (!(e.CellsRan? && e.key == key) && Fresh(log, key))
  {
    Appended(log, e);
    var i := LastCells(log, key);
    assert i >= 0 ==> (log + [e])[i] == log[i];
  }

  lemma CellsKeepInv(w: World, passed: bool)
    requires StateInv(w) && w.run.Cells?
    ensures StateInv(Next(w, Phase(passed))) && LogsSoundly(w, Next(w, Phase(passed)))
  {
    if w.run.state.cells {
      CreditedCells(w, passed);
    } else {
      MeasuredCells(w, passed);
    }
  }

  lemma CreditedCells(w: World, passed: bool)
    requires StateInv(w) && w.run.Cells? && w.run.state.cells
    ensures StateInv(Next(w, Phase(passed))) && LogsSoundly(w, Next(w, Phase(passed)))
  {
    var e := CellsCredited(w.run.state.key);
    Appended(w.log, e);
  }

  lemma MeasuredCells(w: World, passed: bool)
    requires StateInv(w) && w.run.Cells? && !w.run.state.cells
    ensures StateInv(Next(w, Phase(passed))) && LogsSoundly(w, Next(w, Phase(passed)))
  {
    var e := CellsRan(w.run.state.key, passed);
    var next := Next(w, Phase(passed));
    assert next == Log(w.(run := RememberCells(w.run.state.(cells := passed))), e);
    Appended(w.log, e);
    EarnedAppend(w.log, e, w.run.state.key);
    assert LogsSoundly(w, next);
  }

  lemma CreditKeepsInv(w: World)
    requires StateInv(w) && w.run.Publication? && !w.run.remeasured && w.run.state.published
    ensures StateInv(Next(w, Phase(true))) && LogsSoundly(w, Next(w, Phase(true)))
    ensures Next(w, Phase(false)) == Next(w, Phase(true))
  {
    var state := w.run.state;
    var e := PublicationCredited(state.key);
    Appended(w.log, e);
  }

  lemma PublicationKeepsInv(w: World, passed: bool)
    requires StateInv(w) && w.run.Publication? && (w.run.remeasured || !w.run.state.published)
    ensures StateInv(Next(w, Phase(passed))) && LogsSoundly(w, Next(w, Phase(passed)))
  {
    var state := w.run.state;
    var e := PublicationRan(state.key, passed);
    var after := Next(w, Phase(passed));
    Appended(w.log, e);
    EarnedAppend(w.log, e, state.key);
    assert after.run == RememberPublication(state.(published := passed));
    assert StateEarned(after.log, after.run.state);
    assert RunAgrees(after);
  }

  lemma RememberKeepsInv(w: World)
    requires StateInv(w) && Enabled(w, Remember)
    ensures StateInv(Next(w, Remember)) && LogsSoundly(w, Next(w, Remember))
  {
    if w.run.RememberCells? {
      RememberedCells(w);
    } else {
      RememberedPublication(w);
    }
  }

  lemma RememberedCells(w: World)
    requires StateInv(w) && w.run.RememberCells?
    ensures StateInv(Next(w, Remember)) && LogsSoundly(w, Next(w, Remember))
  {
    var state := w.run.state;
    var e := Remembered(state);
    CellsRecordIsSound(w);
    Appended(w.log, e);
    EarnedAppend(w.log, e, state.key);
    CellsNewest(w.log, state.key);
  }

  /** The record of cells that just ran is sound. */
  lemma CellsRecordIsSound(w: World)
    requires StateInv(w) && w.run.RememberCells?
    ensures EventSound(w.log, Remembered(w.run.state))
  {
  }

  /** Right after the cells ran no publication is newer. */
  lemma CellsNewest(log: seq<Event>, key: Key)
    requires EndsInCells(log) && log[|log| - 1].key == key
    ensures !Fresh(log, key)
  {
  }

  lemma RememberedPublication(w: World)
    requires StateInv(w) && w.run.RememberPublication?
    ensures StateInv(Next(w, Remember)) && LogsSoundly(w, Next(w, Remember))
  {
    var e := Remembered(w.run.state);
    Appended(w.log, e);
  }

  lemma CrashKeepsInv(w: World)
    requires StateInv(w) && Enabled(w, Crash)
    ensures StateInv(Next(w, Crash)) && LogsSoundly(w, Next(w, Crash))
  {
    Appended(w.log, Crashed);
  }

  /** Every step keeps the invariant, a crash at any point among them. */
  lemma StepKeepsInv(w: World, a: Action)
    requires Inv(w) && Enabled(w, a)
    ensures Inv(Next(w, a))
  {
    StepKeepsState(w, a);
    if LogsSoundly(w, Next(w, a)) {
      LogSoundAppend(w.log, Next(w, a).log[|w.log|]);
    }
  }

  lemma StartKeepsInv(w: World, key: Key)
    requires StateInv(w) && Enabled(w, Start(key))
    ensures StateInv(Next(w, Start(key))) && Next(w, Start(key)).log == w.log
  {
  }

  lemma PhaseKeepsInv(w: World, passed: bool)
    requires StateInv(w) && Enabled(w, Phase(passed))
    ensures var next := Next(w, Phase(passed)); StateInv(next) && (next.log == w.log || LogsSoundly(w, next))
  {
    if w.run.Cells? {
      CellsKeepInv(w, passed);
    } else if w.run.Publication? && !w.run.remeasured && w.run.state.published {
      CreditKeepsInv(w);
    } else if w.run.Publication? {
      PublicationKeepsInv(w, passed);
    } else {
      LanesKeepInv(w, passed);
    }
  }

  lemma LanesKeepInv(w: World, passed: bool)
    requires StateInv(w) && Enabled(w, Phase(passed)) && !w.run.Cells? && !w.run.Publication?
    ensures StateInv(Next(w, Phase(passed))) && Next(w, Phase(passed)).log == w.log
  {
  }

  lemma FillKeepsInv(w: World)
    requires StateInv(w) && Enabled(w, Fill)
    ensures StateInv(Next(w, Fill)) && LogsSoundly(w, Next(w, Fill))
  {
    Appended(w.log, Filled);
  }

  lemma StepKeepsState(w: World, a: Action)
    requires StateInv(w) && Enabled(w, a)
    ensures StateInv(Next(w, a)) && (Next(w, a).log == w.log || LogsSoundly(w, Next(w, a)))
  {
    match a
    case Start(key) => StartKeepsInv(w, key);
    case Phase(passed) => PhaseKeepsInv(w, passed);
    case Remember => RememberKeepsInv(w);
    case Crash => CrashKeepsInv(w);
    case Fill => FillKeepsInv(w);
  }

  lemma {:induction false} RunsKeepInv(w: World, actions: seq<Action>)
    requires Inv(w) && Runs(w, actions)
    ensures Inv(After(w, actions))
    decreases |actions|
  {
    if actions != [] {
      StepKeepsInv(w, actions[0]);
      RunsKeepInv(Next(w, actions[0]), actions[1..]);
    }
  }

  // ----- credit ------------------------------------------------------------------------------

  /** Over any sequence of runs and crashes, a phase is credited only when it passed
      under the same key, in the same cycle, and its cells have not run since. */
  lemma CreditIsEarned(actions: seq<Action>, i: nat)
    requires Runs(EMPTY, actions) && i < |After(EMPTY, actions).log|
    ensures var log := After(EMPTY, actions).log;
            log[i].CellsCredited? ==>
              exists j :: 0 <= j < i && log[j] == CellsRan(log[i].key, true)
                && forall k :: j < k < i ==> !log[k].Filled? && !(log[k].CellsRan? && log[k].key == log[i].key)
    ensures var log := After(EMPTY, actions).log;
            log[i].PublicationCredited? ==>
              exists j :: 0 <= j < i && log[j] == PublicationRan(log[i].key, true)
                && forall k :: j < k < i ==> !log[k].Filled?
  {
    RunsKeepInv(EMPTY, actions);
    var log := After(EMPTY, actions).log;
    var before := log[..i];
    assert EventSound(before, log[i]);
    if log[i].CellsCredited? {
      var j := LastCells(before, log[i].key);
      assert log[j] == before[j] && forall k :: j < k < i ==> log[k] == before[k];
    }
    if log[i].PublicationCredited? {
      var j := LastPublished(before, log[i].key);
      assert log[j] == before[j] && forall k :: j < k < i ==> log[k] == before[k];
    }
  }

  /** Cells kept as passed are kept until the cycle ends or another key is remembered. */
  lemma {:induction false} CellsStayKept(log: seq<Event>, key: Key, j: nat, i: nat)
    requires LogSound(log) && j <= i <= |log| && KeepsCells(log[..j], key)
    requires forall m :: j <= m < i ==> !log[m].Filled? && !(log[m].Remembered? && log[m].state.key != key)
    ensures KeepsCells(log[..i], key)
    decreases i - j
  {
    if j < i {
      CellsStayKept(log, key, j, i - 1);
      assert EventSound(log[..i - 1], log[i - 1]);
      assert log[..i] == log[..i - 1] + [log[i - 1]];
      Appended(log[..i - 1], log[i - 1]);
    }
  }

  /** A cells phase that passed runs again for its key, before the cycle's end, only
      when its credit was lost: the run was cut short before it was remembered, or
      another key's state was written over it since. */
  lemma PassedCellsAreNotRepeated(actions: seq<Action>, j: nat, i: nat)
    requires Runs(EMPTY, actions)
    requires var log := After(EMPTY, actions).log;
             && j < i < |log| && log[j].CellsRan? && log[j].passed
             && log[i].CellsRan? && log[i].key == log[j].key
             && forall m :: j < m < i ==> !log[m].Filled?
    ensures var log := After(EMPTY, actions).log;
            || log[j + 1].Crashed?
            || exists m :: j < m < i && log[m].Remembered? && log[m].state.key != log[j].key
  {
    RunsKeepInv(EMPTY, actions);
    var log := After(EMPTY, actions).log;
    PassedIsKept(log, j);
    assert EventSound(log[..i], log[i]);
    if !log[j + 1].Crashed? && forall m :: j < m < i ==> !(log[m].Remembered? && log[m].state.key != log[j].key) {
      CellsStayKept(log, log[j].key, j + 2, i);
    }
  }

  /** Cells that passed are kept, unless the run was cut short there. */
  lemma PassedIsKept(log: seq<Event>, j: nat)
    requires LogSound(log) && j + 1 < |log| && log[j].CellsRan? && log[j].passed
    ensures log[j + 1].Crashed? || KeepsCells(log[..j + 2], log[j].key)
    ensures !log[j + 1].CellsRan?
  {
    var before, e := log[..j + 1], log[j + 1];
    assert before[j] == log[j];
    assert EventSound(before, e);
    assert log[..j + 2] == before + [e];
    Appended(before, e);
  }

  /** Cells kept as passed were kept before the last event, or it remembered their run. */
  lemma KeptOrRemembered(log: seq<Event>, key: Key, i: nat)
    requires LogSound(log) && i < |log| && KeepsCells(log[..i + 1], key)
    ensures KeepsCells(log[..i], key) || (log[i].Remembered? && JustPassed(log[..i], key))
  {
    assert log[..i + 1] == log[..i] + [log[i]];
    Appended(log[..i], log[i]);
    assert EventSound(log[..i], log[i]);
  }

  /** Cells kept now, that last ran at j, were kept right after and ever since. */
  lemma {:induction false} KeptSince(log: seq<Event>, key: Key, j: nat, i: nat)
    requires LogSound(log) && j + 2 <= i <= |log| && KeepsCells(log, key)
    requires forall m :: j < m < |log| ==> !(log[m].CellsRan? && log[m].key == key)
    ensures KeepsCells(log[..i], key)
    decreases |log| - i
  {
    if i == |log| {
      assert log[..i] == log;
    } else {
      KeptSince(log, key, j, i + 1);
      KeptOrRemembered(log, key, i);
      assert log[..i][i - 1] == log[i - 1];
    }
  }

  /** The record of a run of the cells stands: it was written right after them, and no
      other key's was written since. */
  ghost predicate RecordStands(log: seq<Event>, j: nat, key: Key) {
    && j + 1 < |log| && log[j + 1].Remembered?
    && forall m :: j < m < |log| && log[m].Remembered? ==> log[m].state.key == key
  }

  /** Of a log, cells that last ran and passed at j, in a cycle that has not ended since,
      are kept exactly when their record stands. */
  lemma KeptExactly(log: seq<Event>, j: nat)
    requires LogSound(log) && j < |log| && log[j].CellsRan? && log[j].passed
    requires forall m :: j < m < |log| ==> !log[m].Filled? && !(log[m].CellsRan? && log[m].key == log[j].key)
    ensures KeepsCells(log, log[j].key) <==> RecordStands(log, j, log[j].key)
  {
    var key := log[j].key;
    if KeepsCells(log, key) {
      KeptIsRecorded(log, j);
    }
    if RecordStands(log, j, key) {
      PassedIsKept(log, j);
      CellsStayKept(log, key, j + 2, |log|);
      assert log[..|log|] == log;
    }
  }

  lemma KeptIsRecorded(log: seq<Event>, j: nat)
    requires LogSound(log) && j < |log| && log[j].CellsRan? && log[j].passed
    requires forall m :: j < m < |log| ==> !log[m].Filled? && !(log[m].CellsRan? && log[m].key == log[j].key)
    requires KeepsCells(log, log[j].key)
    ensures RecordStands(log, j, log[j].key)
  {
    var key := log[j].key;
    assert EventSound(log[..j], log[j]);
    NotKeptByRunning(log, j);
    forall m | j < m < |log| && log[m].Remembered? ensures log[m].state.key == key {
      RememberedKeyIsKept(log, key, j, m);
    }
  }

  /** Right after cells ran they are not kept: their run is not remembered yet. */
  lemma NotKeptByRunning(log: seq<Event>, j: nat)
    requires LogSound(log) && j < |log| && log[j].CellsRan?
    requires KeepsCells(log, log[j].key)
    requires forall m :: j < m < |log| ==> !(log[m].CellsRan? && log[m].key == log[j].key)
    ensures j + 1 < |log| && log[j + 1].Remembered?
  {
    var key := log[j].key;
    assert EventSound(log[..j], log[j]);
    assert log[..j + 1] == log[..j] + [log[j]];
    Appended(log[..j], log[j]);
    assert log[..|log|] == log;
    if j + 1 < |log| {
      KeptSince(log, key, j, j + 2);
      KeptOrRemembered(log, key, j + 1);
    }
  }

  lemma RememberedKeyIsKept(log: seq<Event>, key: Key, j: nat, m: nat)
    requires LogSound(log) && j < m < |log| && log[m].Remembered? && KeepsCells(log, key)
    requires forall k :: j < k < |log| ==> !(log[k].CellsRan? && log[k].key == key)
    ensures log[m].state.key == key
  {
    KeptSince(log, key, j, m + 1);
    assert log[..m + 1] == log[..m] + [log[m]];
    Appended(log[..m], log[m]);
  }

  // ----- freshness ------------------------------------------------------------------------------

  /** A crash between the two writes of a run that measured the cells again, passed
      them and found the key already published, before a new publication passes. */
  predicate Hazard(w: World, a: Action) {
    a.Crash? &&
    match w.run
    case Publication(state, remeasured) => remeasured && state.cells && state.published
    case RememberPublication(state) =>
      !state.published && w.stored.Some? && w.stored.value.cells && w.stored.value.published
    case _ => false
  }

  /** The run is about to publish, or to remember, numbers newer than the file's. */
  predicate Republishes(w: World) {
    (w.run.Publication? && w.run.remeasured) || w.run.RememberPublication?
  }

  /** A publication the file would credit is newer than the last run of its cells. */
  ghost predicate StandsFresh(w: World) {
    (w.stored.Some? && w.stored.value.cells && w.stored.value.published && !Republishes(w)) ==>
      Fresh(w.log, w.stored.value.key)
  }

  ghost predicate CreditsFresh(log: seq<Event>) {
    forall i :: 0 <= i < |log| && log[i].PublicationCredited? ==> Fresh(log[..i], log[i].key)
  }

  lemma CreditsFreshAppend(log: seq<Event>, e: Event)
    requires CreditsFresh(log) && (e.PublicationCredited? ==> Fresh(log, e.key))
    ensures CreditsFresh(log + [e])
  {
    var all := log + [e];
    forall i | 0 <= i < |all| && all[i].PublicationCredited? ensures Fresh(all[..i], all[i].key) {
      if i < |log| {
        assert all[..i] == log[..i];
      } else {
        assert all[..i] == log;
      }
    }
  }

  lemma PhaseStaysFresh(w: World, passed: bool)
    requires Inv(w) && Enabled(w, Phase(passed)) && StandsFresh(w) && CreditsFresh(w.log)
    ensures StandsFresh(Next(w, Phase(passed))) && CreditsFresh(Next(w, Phase(passed)).log)
  {
    var after := Next(w, Phase(passed));
    if w.run.Cells? {
      var state := w.run.state;
      var e := if state.cells then CellsCredited(state.key) else CellsRan(state.key, passed);
      CreditsFreshAppend(w.log, e);
      if w.stored.Some? {
        EarnedAppend(w.log, e, w.stored.value.key);
      }
    } else if w.run.Publication? {
      var state := w.run.state;
      var runs := w.run.remeasured || !state.published;
      var e := if runs then PublicationRan(state.key, passed) else PublicationCredited(state.key);
      CreditsFreshAppend(w.log, e);
      EarnedAppend(w.log, e, state.key);
    }
  }

  lemma StepStaysFresh(w: World, a: Action)
    requires Inv(w) && Enabled(w, a) && StandsFresh(w) && CreditsFresh(w.log) && !Hazard(w, a)
    ensures StandsFresh(Next(w, a)) && CreditsFresh(Next(w, a).log)
  {
    match a
    case Start(_) =>
    case Phase(passed) => PhaseStaysFresh(w, passed);
    case Remember =>
      CreditsFreshAppend(w.log, Remembered(w.run.state));
      EarnedAppend(w.log, Remembered(w.run.state), w.run.state.key);
    case Crash =>
      CreditsFreshAppend(w.log, Crashed);
      HazardIsExact(w);
    case Fill =>
      CreditsFreshAppend(w.log, Filled);
  }

  /** In every run of runs in which no crash falls in that window, each publication
      credited is newer than the last run of its cells. */
  lemma {:induction false} CreditedPublicationIsFresh(w: World, actions: seq<Action>)
    requires Inv(w) && StandsFresh(w) && CreditsFresh(w.log) && Runs(w, actions)
    requires forall i :: 0 <= i < |actions| ==> HazardFree(w, actions, i)
    ensures CreditsFresh(After(w, actions).log)
    decreases |actions|
  {
    if actions != [] {
      assert HazardFree(w, actions, 0);
      StepKeepsInv(w, actions[0]);
      StepStaysFresh(w, actions[0]);
      forall i | 0 <= i < |actions[1..]| ensures HazardFree(Next(w, actions[0]), actions[1..], i) {
        assert HazardFree(w, actions, i + 1);
        HazardFreeLater(w, actions, i);
      }
      CreditedPublicationIsFresh(Next(w, actions[0]), actions[1..]);
    }
  }

  lemma HazardFreeLater(w: World, actions: seq<Action>, i: nat)
    requires Runs(w, actions) && i + 1 < |actions| && HazardFree(w, actions, i + 1)
    ensures HazardFree(Next(w, actions[0]), actions[1..], i)
  {
    var rest := actions[1..];
    assert actions[..i + 1][1..] == rest[..i] && actions[..i + 1][0] == actions[0];
    RunsPrefix(Next(w, actions[0]), rest, i);
  }

  /** The i-th action of a run is no hazard where it is taken. */
  ghost predicate HazardFree(w: World, actions: seq<Action>, i: nat)
    requires i < |actions| && Runs(w, actions)
  {
    RunsPrefix(w, actions, i);
    !Hazard(After(w, actions[..i]), actions[i])
  }

  lemma {:induction false} RunsPrefix(w: World, actions: seq<Action>, i: nat)
    requires Runs(w, actions) && i <= |actions|
    ensures Runs(w, actions[..i])
    decreases i
  {
    if i > 0 {
      RunsPrefix(Next(w, actions[0]), actions[1..], i - 1);
      assert actions[..i][1..] == actions[1..][..i - 1];
    }
  }

  /** A crash leaves a stale publication to be credited exactly when it falls in the window. */
  lemma HazardIsExact(w: World)
    requires Inv(w) && StandsFresh(w) && Enabled(w, Crash)
    ensures StandsFresh(Next(w, Crash)) <==> !Hazard(w, Crash)
  {
    Appended(w.log, Crashed);
    if w.stored.Some? {
      EarnedAppend(w.log, Crashed, w.stored.value.key);
    }
  }

  // ----- composing runs ---------------------------------------------------------------------------

  lemma {:induction false} RunAppend(w: World, first: seq<Action>, second: seq<Action>)
    requires Runs(w, first) && Runs(After(w, first), second)
    ensures Runs(w, first + second) && After(w, first + second) == After(After(w, first), second)
    decreases |first|
  {
    if first == [] {
      assert first + second == second;
    } else {
      assert (first + second)[1..] == first[1..] + second;
      RunAppend(Next(w, first[0]), first[1..], second);
    }
  }

  lemma RunOf(w: World, a: Action)
    requires Enabled(w, a)
    ensures Runs(w, [a]) && After(w, [a]) == Next(w, a)
  {
    assert Runs(Next(w, a), []);
  }

  lemma RunOf2(w: World, a: Action, b: Action)
    requires Enabled(w, a) && Enabled(Next(w, a), b)
    ensures Runs(w, [a, b]) && After(w, [a, b]) == Next(Next(w, a), b)
  {
    RunOf(Next(w, a), b);
    assert [a, b][1..] == [b];
  }

  lemma RunOf3(w: World, a: Action, b: Action, c: Action)
    requires Enabled(w, a) && Enabled(Next(w, a), b) && Enabled(Next(Next(w, a), b), c)
    ensures Runs(w, [a, b, c]) && After(w, [a, b, c]) == Next(Next(Next(w, a), b), c)
  {
    RunOf2(Next(w, a), b, c);
    assert [a, b, c][1..] == [b, c];
  }

  /** A run's way past its checks. */
  lemma PastChecks(w: World, key: Key, preflight: bool)
    requires w.run.Idle?
    ensures var checks := [Start(key), Phase(preflight), Phase(true)];
            Runs(w, checks) && After(w, checks) == w.(run := Cells(ReadState(w.stored, key)))
  {
    RunOf3(w, Start(key), Phase(preflight), Phase(true));
  }

  /** The next run of the key after such a crash. */
  lemma RunAfterHazard(w: World, preflight: bool)
    requires Inv(w) && Hazard(w, Crash)
    ensures var key := w.stored.value.key;
            var run := [Crash] + [Start(key), Phase(preflight), Phase(true)] + [Phase(true), Phase(true)];
            Runs(w, run) && After(w, run).log == w.log + [Crashed] + [CellsCredited(key)] + [PublicationCredited(key)]
  {
    var key := w.stored.value.key;
    var checks := [Start(key), Phase(preflight), Phase(true)];
    RunOf(w, Crash);
    var crashed := After(w, [Crash]);
    PastChecks(crashed, key, preflight);
    RunAppend(w, [Crash], checks);
    RunOf2(After(crashed, checks), Phase(true), Phase(true));
    RunAppend(w, [Crash] + checks, [Phase(true), Phase(true)]);
  }

  /** After every crash in the window the next run of the key credits a publication
      older than the cells it stands beside. */
  lemma HazardCreditsAStalePublication(w: World, preflight: bool)
    requires Inv(w) && Hazard(w, Crash)
    ensures var key := w.stored.value.key;
            var run := [Crash] + [Start(key), Phase(preflight), Phase(true)] + [Phase(true), Phase(true)];
            && Runs(w, run)
            && var log := After(w, run).log;
               log != [] && log[|log| - 1] == PublicationCredited(key)
               && !Fresh(log[..|log| - 1], key)
  {
    var key := w.stored.value.key;
    RunAfterHazard(w, preflight);
    EarnedAppend(w.log, Crashed, key);
    EarnedAppend(w.log + [Crashed], CellsCredited(key), key);
    Appended(w.log + [Crashed] + [CellsCredited(key)], PublicationCredited(key));
  }

  /** The window is reached: cells that fail and a publication that passes, then
      cells that pass and a crash before the next publication. */
  lemma HazardIsReached(key: Key)
    ensures var first := [Start(key), Phase(true), Phase(true)] + [Phase(false), Remember] + [Phase(true), Remember];
            var second := [Start(key), Phase(true), Phase(true)] + [Phase(true), Remember];
            Runs(EMPTY, first + second) && Hazard(After(EMPTY, first + second), Crash)
  {
    var checks := [Start(key), Phase(true), Phase(true)];
    PastChecks(EMPTY, key, true);
    var w1 := After(EMPTY, checks);
    RunOf2(w1, Phase(false), Remember);
    RunAppend(EMPTY, checks, [Phase(false), Remember]);
    var w2 := After(EMPTY, checks + [Phase(false), Remember]);
    assert w2.run == Publication(CycleState(key, false, false), true);
    RunOf2(w2, Phase(true), Remember);
    RunAppend(EMPTY, checks + [Phase(false), Remember], [Phase(true), Remember]);
    var first := checks + [Phase(false), Remember] + [Phase(true), Remember];
    var w3 := After(EMPTY, first);
    assert w3.stored == Some(CycleState(key, false, true)) && w3.run.Idle?;
    PastChecks(w3, key, true);
    var w4 := After(w3, checks);
    RunOf2(w4, Phase(true), Remember);
    RunAppend(w3, checks, [Phase(true), Remember]);
    var second := checks + [Phase(true), Remember];
    RunAppend(EMPTY, first, second);
    assert After(w3, second).run == Publication(CycleState(key, true, true), true);
  }

  // ----- one whole run -----------------------------------------------------------------------------

  /** What each validate command answers when it is run. */
  datatype Answers = Answers(preflight: bool, lanes: bool, cells: bool, publication: bool)

  /** The actions of a run past its checks. */
  function RestOfRun(read: CycleState, x: Answers): seq<Action> {
    if !read.cells then [Phase(x.cells), Remember] + [Phase(x.publication), Remember]
    else if !read.published then [Phase(true), Phase(x.publication), Remember]
    else [Phase(true), Phase(true)]
  }

  /** The actions of a run no crash ends. */
  function WholeRun(stored: Option<CycleState>, key: Key, x: Answers): seq<Action> {
    [Start(key), Phase(x.preflight), Phase(x.lanes)] + if x.lanes then RestOfRun(ReadState(stored, key), x) else []
  }

  /** What such a run adds to the log. */
  function Events(stored: Option<CycleState>, key: Key, x: Answers): seq<Event> {
    var read := ReadState(stored, key);
    var measured := read.(cells := x.cells);
    if !x.lanes then []
    else if !read.cells then
      [CellsRan(key, x.cells), Remembered(measured)]
      + [PublicationRan(key, x.publication), Remembered(measured.(published := x.publication))]
    else if !read.published then
      [CellsCredited(key)] + [PublicationRan(key, x.publication), Remembered(read.(published := x.publication))]
    else [CellsCredited(key)] + [PublicationCredited(key)]
  }

  /** What it leaves in the state file. */
  function Ended(stored: Option<CycleState>, key: Key, x: Answers): Option<CycleState> {
    var read := ReadState(stored, key);
    if !x.lanes || (read.cells && read.published) then stored
    else Some(CycleState(key, read.cells || x.cells, x.publication))
  }

  lemma WholeRunEnds(w: World, key: Key, x: Answers)
    requires w.run.Idle?
    ensures Runs(w, WholeRun(w.stored, key, x))
    ensures After(w, WholeRun(w.stored, key, x))
         == World(Ended(w.stored, key, x), Idle, w.log + Events(w.stored, key, x))
  {
    var checks := [Start(key), Phase(x.preflight), Phase(x.lanes)];
    RunOf3(w, Start(key), Phase(x.preflight), Phase(x.lanes));
    var at := After(w, checks);
    if !x.lanes {
      assert checks + [] == checks && w.log + [] == w.log;
    } else {
      if at.run.state.cells {
        CreditedRunEnds(at, key, x);
      } else {
        MeasuredRunEnds(at, key, x);
      }
      RunAppend(w, checks, RestOfRun(at.run.state, x));
    }
  }

  lemma MeasuredRunEnds(w: World, key: Key, x: Answers)
    requires w.run == Cells(ReadState(w.stored, key)) && x.lanes && !w.run.state.cells
    ensures var rest := RestOfRun(w.run.state, x);
            Runs(w, rest)
            && After(w, rest) == World(Ended(w.stored, key, x), Idle, w.log + Events(w.stored, key, x))
  {
    var state := w.run.state.(cells := x.cells);
    RunOf2(w, Phase(x.cells), Remember);
    var remembered := After(w, [Phase(x.cells), Remember]);
    assert remembered
        == World(Some(state), Publication(state, true), w.log + [CellsRan(key, x.cells)] + [Remembered(state)]);
    PublishedRunEnds(remembered, x);
    RunAppend(w, [Phase(x.cells), Remember], [Phase(x.publication), Remember]);
  }

  lemma PublishedRunEnds(w: World, x: Answers)
    requires w.run.Publication? && w.run.remeasured
    ensures var state := w.run.state.(published := x.publication);
            var rest := [Phase(x.publication), Remember];
            Runs(w, rest)
            && After(w, rest)
            == World(Some(state), Idle, w.log + [PublicationRan(state.key, x.publication)] + [Remembered(state)])
  {
    RunOf2(w, Phase(x.publication), Remember);
  }

  lemma CreditedRunEnds(w: World, key: Key, x: Answers)
    requires w.run == Cells(ReadState(w.stored, key)) && x.lanes && w.run.state.cells
    ensures var rest := RestOfRun(w.run.state, x);
            Runs(w, rest)
            && After(w, rest) == World(Ended(w.stored, key, x), Idle, w.log + Events(w.stored, key, x))
  {
    if !w.run.state.published {
      RunOf3(w, Phase(true), Phase(x.publication), Remember);
    } else {
      RunOf2(w, Phase(true), Phase(true));
    }
  }

  /** A cells phase that passed and has not run since is credited by the next run of its
      key past the lanes, in the same cycle, exactly when its record stands: the run was not
      cut short before it, and no other key's was written since. Otherwise it runs again. */
  lemma PassedCellsAreCreditedExactly(actions: seq<Action>, j: nat, x: Answers)
    requires Runs(EMPTY, actions) && After(EMPTY, actions).run.Idle? && x.lanes
    requires var log := After(EMPTY, actions).log;
             && j < |log| && log[j].CellsRan? && log[j].passed
             && forall m :: j < m < |log| ==> !log[m].Filled? && !(log[m].CellsRan? && log[m].key == log[j].key)
    ensures var w := After(EMPTY, actions);
            var key := w.log[j].key;
            var run := actions + WholeRun(w.stored, key, x);
            && Runs(EMPTY, run) && |After(EMPTY, run).log| > |w.log|
            && After(EMPTY, run).log[|w.log|]
            == if RecordStands(w.log, j, key) then CellsCredited(key) else CellsRan(key, x.cells)
  {
    var w := After(EMPTY, actions);
    var key := w.log[j].key;
    RunsKeepInv(EMPTY, actions);
    KeptExactly(w.log, j);
    WholeRunEnds(w, key, x);
    RunAppend(EMPTY, actions, WholeRun(w.stored, key, x));
    NextIsCreditedOrRun(w, key, x);
  }

  lemma NextIsCreditedOrRun(w: World, key: Key, x: Answers)
    requires Inv(w) && x.lanes
    ensures var events := Events(w.stored, key, x);
            |events| > 0 && events[0] == if KeepsCells(w.log, key) then CellsCredited(key) else CellsRan(key, x.cells)
  {
  }

  const ALL_PASS := Answers(true, true, true, true)

  /** Runs of a, of b and of a again, every phase passed, run the cells of a twice in one cycle. */
  lemma OtherKeyRepeatsCells(a: Key, b: Key)
    requires a != b
    ensures var full := (key: Key) => Some(CycleState(key, true, true));
            var run := WholeRun(None, a, ALL_PASS) + WholeRun(full(a), b, ALL_PASS) + WholeRun(full(b), a, ALL_PASS);
            && Runs(EMPTY, run) && |After(EMPTY, run).log| > 8
            && After(EMPTY, run).log[0] == CellsRan(a, true) == After(EMPTY, run).log[8]
            && forall m :: 0 <= m <= 8 ==> !After(EMPTY, run).log[m].Filled?
  {
    var first, second := WholeRun(None, a, ALL_PASS), WholeRun(Some(CycleState(a, true, true)), b, ALL_PASS);
    var third := WholeRun(Some(CycleState(b, true, true)), a, ALL_PASS);
    WholeRunEnds(EMPTY, a, ALL_PASS);
    var w1 := After(EMPTY, first);
    WholeRunEnds(w1, b, ALL_PASS);
    RunAppend(EMPTY, first, second);
    var w2 := After(EMPTY, first + second);
    WholeRunEnds(w2, a, ALL_PASS);
    RunAppend(EMPTY, first + second, third);
  }

  /** So does a crash between the cells and their record. */
  lemma CrashRepeatsCells(a: Key)
    ensures var cut := [Start(a), Phase(true), Phase(true)] + [Phase(true), Crash];
            var run := cut + WholeRun(None, a, ALL_PASS);
            && Runs(EMPTY, run) && |After(EMPTY, run).log| > 2
            && After(EMPTY, run).log[..3] == [CellsRan(a, true), Crashed, CellsRan(a, true)]
  {
    var checks := [Start(a), Phase(true), Phase(true)];
    PastChecks(EMPTY, a, true);
    RunOf2(After(EMPTY, checks), Phase(true), Crash);
    RunAppend(EMPTY, checks, [Phase(true), Crash]);
    var cut := checks + [Phase(true), Crash];
    var w := After(EMPTY, cut);
    assert w == World(None, Idle, [CellsRan(a, true), Crashed]);
    WholeRunEnds(w, a, ALL_PASS);
    RunAppend(EMPTY, cut, WholeRun(None, a, ALL_PASS));
  }

  /** Every phase that is not credited passed. */
  predicate AllPassed(read: CycleState, x: Answers) {
    x.preflight && x.lanes && (read.cells || x.cells) && ((read.cells && read.published) || x.publication)
  }

  /** The state file of a checkout, and what its runs did. */
  class CycleFile {
    var stored: Option<CycleState>
    var log: seq<Event>

    constructor ()
      ensures stored == None && log == []
    {
      stored, log := None, [];
    }

    ghost function Rest(): World
      reads this
    {
      World(stored, Idle, log)
    }

    /** measurePhases, on a run nothing cuts short: it ends where its steps end, and a
        lane that fails changes nothing. ok says every phase it ran passed; filed,
        that the publication is in hand, so what it found is filed. */
    method MeasurePhases(key: Key, x: Answers) returns (ok: bool, filed: bool)
      modifies this
      ensures Runs(old(Rest()), WholeRun(old(stored), key, x))
      ensures Rest() == After(old(Rest()), WholeRun(old(stored), key, x))
      ensures !x.lanes ==> stored == old(stored) && log == old(log) && !ok && !filed
      ensures x.lanes ==> (ok <==> AllPassed(ReadState(old(stored), key), x))
      ensures x.lanes ==> (filed <==> stored.Some? && stored.value.key == key && stored.value.published)
      ensures x.lanes ==>
                var kept := old(stored).Some? && old(stored).value.key == key;
                var cells := kept && old(stored).value.cells;
                var published := kept && old(stored).value.published;
                && (ok <==> x.preflight && (cells || x.cells) && ((cells && published) || x.publication))
                && (filed <==> (cells && published) || x.publication)
                && stored == (if cells && published then old(stored)
                              else Some(CycleState(key, cells || x.cells, x.publication)))
                && log == old(log)
                          + (if cells then [CellsCredited(key)]
                             else [CellsRan(key, x.cells), Remembered(CycleState(key, x.cells, published))])
                          + (if cells && published then [PublicationCredited(key)]
                             else [PublicationRan(key, x.publication),
                                   Remembered(CycleState(key, cells || x.cells, x.publication))])
    {
      WholeRunEnds(Rest(), key, x);
      var state := ReadState(stored, key);
      ok, filed := x.preflight && x.lanes, false;
      if !x.lanes {
        return;
      }
      var remeasured := !state.cells;
      if remeasured {
        state := state.(cells := x.cells);
        ok := ok && x.cells;
        stored := Some(state);
        log := log + [CellsRan(key, x.cells), Remembered(state)];
      } else {
        log := log + [CellsCredited(key)];
      }
      if remeasured || !state.published {
        state := state.(published := x.publication);
        ok := ok && x.publication;
        stored := Some(state);
        log := log + [PublicationRan(key, x.publication), Remembered(state)];
      } else {
        log := log + [PublicationCredited(key)];
      }
      filed := state.published;
    }
  }
}
