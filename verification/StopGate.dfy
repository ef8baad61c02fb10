/** The gate a session's turn-end passes: what a stop hook decides from the
    turn's snapshot, the record of the last block and what the plan dispatches. */
module StopGate {
  import opened Options

  /** A path's dirt: its states and the identity of its bytes. */
  datatype Fact = Fact(path: string, originalPath: string, indexStatus: string, worktreeStatus: string,
                       indexIdentity: string, workIdentity: string)

  /** A session's turn-start snapshot. */
  datatype Base = Base(head: string, facts: seq<Fact>, review: bool, holder: string)

  /** What a block found. */
  datatype Block = Block(head: string, facts: seq<Fact>)

  /** What a session's hooks read: HEAD and the dirty facts, when git gives them,
      whether the state directory can be made, and the session's two records. */
  datatype World = World(head: string, facts: Option<seq<Fact>>, keeps: bool, base: Option<Base>, block: Option<Block>)
  {
    /** readTurnBase: a snapshot without a HEAD is not read as one. */
    function ReadBase(): Option<Base> {
      if keeps && base.Some? && base.value.head != "" then base else None
    }

    predicate Readable() {
      keeps && facts.Some?
    }

    /** The session reviews, or was sent away by the worktree's holder. */
    predicate Exempt() {
      ReadBase().Some? && (base.value.review || base.value.holder != "")
    }
  }

  datatype Dispatch = Dispatch(stopped: bool, complete: bool, waiting: bool)

  datatype Event =
    /** Anything that edits or commits, in this session or another. */
    | Change(head: string, facts: Option<seq<Fact>>)
    /** A prompt, whether it opens with the review declaration, and what holdWorktree answers. */
    | Prompt(declares: bool, holder: string)
    /** A Bash call that ended: whether it lands a change, whether it names the gate. */
    | PostCommit(landing: bool, gate: bool, holder: string)
    /** A session's start or resumption. */
    | Doctrine
    | Stop(retry: bool, dispatch: Dispatch, committing: bool)

  // ----- what the hooks compute --------------------------------------------------------

  datatype Verdict = Allow | Orphan | Continue

  function StopDecision(stopHookActive: bool, operatorStopped: bool, gateRunning: bool, planComplete: bool,
                        dirtyWork: bool): Verdict {
    if stopHookActive || operatorStopped || gateRunning || planComplete then Allow
    else if dirtyWork then Orphan
    else Continue
  }

  /** turnCreatedDirt: the facts of now that the snapshot did not hold as they are. */
  function Created(base: seq<Fact>, current: seq<Fact>): seq<Fact> {
    if current == [] then []
    else
      var last := current[|current| - 1];
      Created(base, current[..|current| - 1]) + (if last in base then [] else [last])
  }

  lemma CreatedMore(base: seq<Fact>, current: seq<Fact>, i: nat)
    requires i < |current|
    ensures Created(base, current[..i + 1])
         == Created(base, current[..i]) + (if current[i] in base then [] else [current[i]])
  {
    assert current[..i + 1][..i] == current[..i];
  }

  function CreatedDirt(w: World): bool {
    if w.facts.None? then true
    else if w.ReadBase().None? then w.facts.value != []
    else Created(w.base.value.facts, w.facts.value) != []
  }

  function Stuck(w: World): bool {
    || !w.keeps
    || w.facts.None?
    || (w.block.Some? && w.block.value.head == w.head && w.block.value.facts == w.facts.value)
  }

  function Snapshot(w: World, review: bool, holder: string): World {
    if !w.Readable() then w else w.(base := Some(Base(w.head, w.facts.value, review, holder)))
  }

  datatype Outcome = Ends(released: bool) | Blocked

  function Judged(w: World, dispatch: Dispatch, committing: bool): Outcome {
    var dirty := CreatedDirt(w);
    var verdict := StopDecision(false, dispatch.stopped, committing, dispatch.complete, dirty);
    var rested := (dispatch.stopped || dispatch.complete || dispatch.waiting) && !dirty;
    if (dispatch.waiting && !verdict.Orphan?) || verdict.Allow? then Ends(rested) else Blocked
  }

  function StopOutcome(w: World, retry: bool, dispatch: Dispatch, committing: bool): Outcome {
    if retry && Stuck(w) then Ends(false)
    else if w.Exempt() then Ends(false)
    else Judged(w, dispatch, committing)
  }

  /** The hook's exit code: 2 keeps the turn from ending. */
  function CodeOf(o: Outcome): nat {
    if o.Blocked? then 2 else 0
  }

  function Recorded(w: World): World {
    if w.Readable() then w.(block := Some(Block(w.head, w.facts.value))) else w
  }

  function Next(w: World, e: Event): World {
    match e
    case Change(head, facts) => w.(head := head, facts := facts)
    case Prompt(declares, holder) =>
      var known := w.ReadBase().Some?;
      var review := (known && w.base.value.review) || (!known && declares);
      Snapshot(w, review, if review then "" else holder)
    case PostCommit(landing, gate, holder) =>
      var landed := if landing && w.ReadBase().Some? && !w.base.value.review then Snapshot(w, false, holder) else w;
      if gate then
        var base := landed.ReadBase();
        Snapshot(landed, base.Some? && base.value.review, if base.Some? then base.value.holder else "")
      else landed
    case Doctrine =>
      if w.Exempt() || !w.keeps then w else w.(base := None)
    case Stop(retry, dispatch, committing) =>
      if StopOutcome(w, retry, dispatch, committing).Blocked? then Recorded(w) else w
  }

  /** The stop asks nothing of the session: a retry that finds things as the last block left
      them, or whose state cannot be read or kept, and any stop of a session that reviews
      or was sent away. */
  predicate OwesNothing(w: World, retry: bool) {
    || (retry && (!w.keeps || w.facts.None? || w.block == Some(Block(w.head, w.facts.value))))
    || (w.keeps && w.base.Some? && w.base.value.head != "" && (w.base.value.review || w.base.value.holder != ""))
  }

  /** Some dirty fact is not as it was parked, or what is dirty cannot be read. */
  predicate Dirtied(w: World) {
    w.facts.Some? ==>
      exists f :: f in w.facts.value && !(w.keeps && w.base.Some? && w.base.value.head != "" && f in w.base.value.facts)
  }

  lemma DirtiedExactly(w: World)
    ensures CreatedDirt(w) <==> Dirtied(w)
  {
    if w.facts.Some? {
      if w.ReadBase().Some? {
        CreatedIsNew(w.base.value.facts, w.facts.value);
      } else if w.facts.value != [] {
        assert w.facts.value[0] in w.facts.value;
      }
    }
  }

  // ----- the hooks' own code ---------------------------------------------------------------

  class Session {
    var head: string
    var facts: Option<seq<Fact>>
    var keeps: bool
    var base: Option<Base>
    var block: Option<Block>

    constructor (head: string, facts: Option<seq<Fact>>, keeps: bool)
      ensures Seen() == World(head, facts, keeps, None, None)
    {
      this.head, this.facts, this.keeps, base, block := head, facts, keeps, None, None;
    }

    function Seen(): World
      reads this
    {
      World(head, facts, keeps, base, block)
    }

    method HasTurnCreatedDirt() returns (dirty: bool)
      ensures dirty == CreatedDirt(Seen())
    {
      if facts.None? {
        return true;
      }
      if !keeps || base.None? || base.value.head == "" {
        return |facts.value| > 0;
      }
      var created := TurnCreatedDirt(base.value.facts, facts.value);
      dirty := |created| > 0;
    }

    /** The loop of turnCreatedDirt, over a set of the parked facts. */
    static method TurnCreatedDirt(base: seq<Fact>, current: seq<Fact>) returns (created: seq<Fact>)
      ensures created == Created(base, current)
    {
      var parked := set f | f in base;
      created := [];
      for i := 0 to |current|
        invariant created == Created(base, current[..i])
      {
        CreatedMore(base, current, i);
        if current[i] !in parked {
          created := created + [current[i]];
        }
      }
      assert current[..|current|] == current;
    }

    /** stuckSinceBlock: whether a retry finds things as the last block did. */
    method StuckSinceBlock() returns (stuck: bool)
      ensures stuck == Stuck(Seen())
    {
      if !keeps || facts.None? {
        return true;
      }
      if block.None? {
        return false;
      }
      stuck := block.value.head == head && block.value.facts == facts.value;
    }

    /** recordStopBlock. */
    method RecordStopBlock()
      modifies this`block
      ensures Seen() == Recorded(old(Seen()))
    {
      if keeps && facts.Some? {
        block := Some(Block(head, facts.value));
      }
    }

    /** The part of runStop past the valves. */
    method Judge(dispatch: Dispatch, committing: bool) returns (code: nat, released: bool)
      ensures code == CodeOf(Judged(Seen(), dispatch, committing))
      ensures released <==> Judged(Seen(), dispatch, committing) == Ends(true)
    {
      var dirty := HasTurnCreatedDirt();
      var verdict := StopDecision(false, dispatch.stopped, committing, dispatch.complete, dirty);
      var rested := (dispatch.stopped || dispatch.complete || dispatch.waiting) && !dirty;
      if dispatch.waiting {
        if !verdict.Orphan? {
          return 0, rested;
        }
      }
      if verdict.Allow? {
        return 0, rested;
      }
      return 2, false;
    }

    method RunStop(retry: bool, dispatch: Dispatch, committing: bool) returns (code: nat, released: bool)
      modifies this`block
      ensures Seen() == Next(old(Seen()), Stop(retry, dispatch, committing))
      ensures code == CodeOf(StopOutcome(old(Seen()), retry, dispatch, committing))
      ensures released <==> StopOutcome(old(Seen()), retry, dispatch, committing) == Ends(true)
      ensures code == if OwesNothing(old(Seen()), retry) || dispatch.stopped || dispatch.complete || committing
                         || (dispatch.waiting && !Dirtied(old(Seen()))) then 0 else 2
      ensures released <==> !OwesNothing(old(Seen()), retry) && !Dirtied(old(Seen()))
                            && (dispatch.stopped || dispatch.complete || dispatch.waiting)
      ensures block == if code == 2 && keeps && facts.Some? then Some(Block(head, facts.value)) else old(block)
    {
      DirtiedExactly(Seen());
      if retry {
        var stuck := StuckSinceBlock();
        if stuck {
          return 0, false;
        }
      }
      if keeps && base.Some? && base.value.head != "" && (base.value.review || base.value.holder != "") {
        return 0, false;
      }
      code, released := Judge(dispatch, committing);
      if code == 2 {
        RecordStopBlock();
      }
    }

    method WriteTurnBase(review: bool, holder: string)
      modifies this`base
      ensures Seen() == Snapshot(old(Seen()), review, holder)
    {
      if keeps && facts.Some? {
        base := Some(Base(head, facts.value, review, holder));
      }
    }

    method BeginTurn(declares: bool, holder: string)
      modifies this`base
      ensures Seen() == Next(old(Seen()), Prompt(declares, holder))
      ensures !keeps || facts.None? ==> base == old(base)
      ensures keeps && facts.Some? ==>
                && var known := old(base).Some? && old(base).value.head != "";
                   var review := if known then old(base).value.review else declares;
                   base == Some(Base(head, facts.value, review, if review then "" else holder))
    {
      var known := keeps && base.Some? && base.value.head != "";
      var review := if known then base.value.review else declares;
      WriteTurnBase(review, if review then "" else holder);
    }

    /** The part of runDoctrine that touches the snapshot. */
    method RunDoctrine()
      modifies this`base
      ensures Seen() == Next(old(Seen()), Doctrine)
      ensures base == if !keeps || (old(base).Some? && old(base).value.head != ""
                                    && (old(base).value.review || old(base).value.holder != ""))
                      then old(base) else None
    {
      if keeps && base.Some? && base.value.head != "" && (base.value.review || base.value.holder != "") {
        return;
      }
      if keeps {
        base := None;
      }
    }

    method RunPostCommit(landing: bool, gate: bool, holder: string)
      modifies this`base
      ensures Seen() == Next(old(Seen()), PostCommit(landing, gate, holder))
      ensures var known := old(base).Some? && old(base).value.head != "";
              var lands := landing && known && !old(base).value.review;
              base == if !keeps || facts.None? || !(lands || gate) then old(base)
                      else Some(Base(head, facts.value, known && old(base).value.review,
                                     if !lands then if known then old(base).value.holder else ""
                                     else if gate && head == "" then "" else holder))
    {
      if landing && keeps && base.Some? && base.value.head != "" && !base.value.review {
        WriteTurnBase(false, holder);
      }
      if gate {
        if keeps && base.Some? && base.value.head != "" {
          WriteTurnBase(base.value.review, base.value.holder);
        } else {
          WriteTurnBase(false, "");
        }
      }
    }
  }

  // ----- runs ------------------------------------------------------------------------------------

  ghost function After(w: World, run: seq<Event>): World
    decreases |run|
  {
    if run == [] then w else Next(After(w, run[..|run| - 1]), run[|run| - 1])
  }

  /** The world the i-th event of a run finds. */
  ghost function At(w: World, run: seq<Event>, i: nat): World
    requires i <= |run|
  {
    After(w, run[..i])
  }

  lemma AtNext(w: World, run: seq<Event>, i: nat)
    requires i < |run|
    ensures At(w, run, i + 1) == Next(At(w, run, i), run[i])
  {
    assert run[..i + 1][..i] == run[..i];
  }

  ghost predicate StopAt(w: World, run: seq<Event>, i: nat, o: Outcome)
    requires i < |run|
  {
    run[i].Stop? && StopOutcome(At(w, run, i), run[i].retry, run[i].dispatch, run[i].committing) == o
  }

  /** A stop that blocked and recorded what it found. */
  ghost predicate BlocksAt(w: World, run: seq<Event>, j: nat)
    requires j < |run|
  {
    StopAt(w, run, j, Blocked) && At(w, run, j).Readable()
  }

  /** The last recorded block before i. */
  ghost predicate LastBlock(w: World, run: seq<Event>, i: nat, j: nat)
    requires i <= |run|
  {
    && j < i && BlocksAt(w, run, j)
    && forall k :: j < k < i ==> !BlocksAt(w, run, k)
  }

  /** The stop whose block stands before i. */
  ghost function Standing(w: World, run: seq<Event>, i: nat): Option<nat>
    requires i <= |run|
  {
    if i == 0 then None else if BlocksAt(w, run, i - 1) then Some(i - 1) else Standing(w, run, i - 1)
  }

  ghost function BlockAt(w: World, run: seq<Event>, j: nat): Block
    requires j < |run| && BlocksAt(w, run, j)
  {
    Block(At(w, run, j).head, At(w, run, j).facts.value)
  }

  lemma {:induction false} StandingIsLast(w: World, run: seq<Event>, i: nat)
    requires i <= |run|
    ensures Standing(w, run, i).Some? ==> LastBlock(w, run, i, Standing(w, run, i).value)
    ensures Standing(w, run, i).None? ==> forall k :: 0 <= k < i ==> !BlocksAt(w, run, k)
  {
    if i > 0 {
      StandingIsLast(w, run, i - 1);
    }
  }

  lemma {:induction false} RecordIsStanding(w: World, run: seq<Event>, i: nat)
    requires w.block.None? && i <= |run|
    ensures Standing(w, run, i).Some? ==> LastBlock(w, run, i, Standing(w, run, i).value)
    ensures At(w, run, i).block
         == if Standing(w, run, i).None? then None else Some(BlockAt(w, run, Standing(w, run, i).value))
  {
    if i > 0 {
      RecordIsStanding(w, run, i - 1);
      AtNext(w, run, i - 1);
      StandingIsLast(w, run, i);
    }
  }

  /** The record of a block is what the last block found. */
  lemma BlockIsLast(w: World, run: seq<Event>, i: nat)
    requires w.block.None? && i <= |run|
    ensures At(w, run, i).block.None? <==> forall k :: 0 <= k < i ==> !BlocksAt(w, run, k)
    ensures At(w, run, i).block.Some? ==>
              exists j: nat :: LastBlock(w, run, i, j) && At(w, run, i).block.value == BlockAt(w, run, j)
    ensures forall j :: LastBlock(w, run, i, j) ==> At(w, run, i).block == Some(BlockAt(w, run, j))
  {
    RecordIsStanding(w, run, i);
    StandingIsLast(w, run, i);
    forall j: nat | LastBlock(w, run, i, j) ensures Standing(w, run, i) == Some(j) {
      assert BlocksAt(w, run, j);
    }
  }

  /** An event that wrote the session's snapshot. */
  ghost predicate SnapsAt(w: World, run: seq<Event>, k: nat)
    requires k < |run|
  {
    At(w, run, k + 1).base.Some? && At(w, run, k).Readable()
    && At(w, run, k + 1).base.value.facts == At(w, run, k).facts.value
    && At(w, run, k + 1).base.value.head == At(w, run, k).head
    && (run[k].Prompt? || run[k].PostCommit?)
  }

  /** The k-th event wrote the snapshot that stands at i: none after it changed it. */
  ghost predicate Stands(w: World, run: seq<Event>, i: nat, k: nat)
    requires i <= |run|
  {
    && k < i && SnapsAt(w, run, k)
    && At(w, run, i).base == At(w, run, k + 1).base
    && forall m :: k < m < i ==> At(w, run, m + 1).base == At(w, run, m).base
  }

  /** A session's snapshot is the dirt and the HEAD of the prompt or commit boundary
      that wrote it last. */
  lemma {:induction false} BaseIsSnapshot(w: World, run: seq<Event>, i: nat) returns (k: nat)
    requires w.base.None? && i <= |run| && At(w, run, i).base.Some?
    ensures Stands(w, run, i, k)
    ensures At(w, run, i).base.value.facts == At(w, run, k).facts.value
    ensures At(w, run, i).base.value.head == At(w, run, k).head
  {
    AtNext(w, run, i - 1);
    if At(w, run, i).base == At(w, run, i - 1).base {
      k := BaseIsSnapshot(w, run, i - 1);
    } else {
      k := i - 1;
    }
  }

  lemma {:induction false} CreatedIsNew(base: seq<Fact>, current: seq<Fact>)
    ensures Created(base, current) == [] <==> forall f :: f in current ==> f in base
  {
    if current != [] {
      CreatedIsNew(base, current[..|current| - 1]);
      assert forall f :: f in current <==> f == current[|current| - 1] || f in current[..|current| - 1];
    }
  }

  // ----- soundness ---------------------------------------------------------------------------------

  /** The turn left nothing uncommitted: every dirty fact of now was as it is at
      the prompt or commit boundary the session's snapshot was taken at, or, of a
      session with no snapshot to read, nothing is dirty. */
  ghost predicate LeavesNothing(w: World, run: seq<Event>, i: nat)
    requires i <= |run| && At(w, run, i).Readable()
  {
    var current := At(w, run, i).facts.value;
    if At(w, run, i).ReadBase().None? then current == []
    else exists k :: Stands(w, run, i, k) && forall f :: f in current ==> f in At(w, run, k).facts.value
  }

  /** What the hook computes of a turn's dirt is what the run says: none was created
      exactly when every dirty fact was there at the boundary the snapshot stands for. */
  lemma NoDirtIsLeavesNothing(w: World, run: seq<Event>, i: nat)
    requires w.base.None? && i <= |run| && At(w, run, i).Readable()
    ensures LeavesNothing(w, run, i) <==> !CreatedDirt(At(w, run, i))
  {
    var at := At(w, run, i);
    if at.ReadBase().Some? {
      CreatedIsNew(at.base.value.facts, at.facts.value);
      var k := BaseIsSnapshot(w, run, i);
      forall m | Stands(w, run, i, m) ensures At(w, run, m).facts.value == at.base.value.facts {
      }
    }
  }

  /** A retry of a stop that nothing has changed since. */
  ghost predicate Unchanged(w: World, run: seq<Event>, i: nat)
    requires i <= |run|
  {
    exists j :: LastBlock(w, run, i, j)
      && At(w, run, j).head == At(w, run, i).head && At(w, run, j).facts == At(w, run, i).facts
  }

  /** Over every run of prompts, edits, commits, resumptions and stops: a turn-end
      of an implementing session whose state is readable is allowed only by a
      recorded stop, a committing gate, a complete plan, a waiting dispatch when
      the turn leaves nothing, or a retry that finds HEAD and the dirty facts
      exactly as its last block did. */
  lemma AllowedIsJustified(w: World, run: seq<Event>, i: nat)
    requires w.base.None? && w.block.None? && i < |run| && run[i].Stop?
    requires At(w, run, i).Readable() && !At(w, run, i).Exempt() && !StopAt(w, run, i, Blocked)
    ensures || run[i].dispatch.stopped
            || run[i].committing
            || run[i].dispatch.complete
            || (run[i].dispatch.waiting && !CreatedDirt(At(w, run, i)) && LeavesNothing(w, run, i))
            || (run[i].retry && Unchanged(w, run, i))
  {
    var at := At(w, run, i);
    if run[i].retry && Stuck(at) {
      BlockIsLast(w, run, i);
    } else {
      NoDirtIsLeavesNothing(w, run, i);
    }
  }

  /** The session reviews, or was sent away, by a snapshot that can be read. */
  ghost predicate Excused(w: World, run: seq<Event>, i: nat)
    requires i <= |run|
  {
    var at := At(w, run, i);
    at.keeps && at.base.Some? && at.base.value.head != "" && (at.base.value.review || at.base.value.holder != "")
  }

  /** Over every run, exactly when a stop blocks: it is no retry that finds things as its last
      block did or cannot be read, of no session that is excused, the plan is neither stopped
      nor complete, no gate commits, and it does not wait with nothing left by the turn. */
  lemma BlockedExactly(w: World, run: seq<Event>, i: nat)
    requires w.base.None? && w.block.None? && i < |run| && run[i].Stop?
    ensures var unread := !At(w, run, i).keeps || At(w, run, i).facts.None?;
            StopAt(w, run, i, Blocked) <==>
              && !(run[i].retry && (unread || Unchanged(w, run, i))) && !Excused(w, run, i)
              && !run[i].dispatch.stopped && !run[i].committing && !run[i].dispatch.complete
              && !(run[i].dispatch.waiting && !Dirtied(At(w, run, i)))
  {
    BlockIsLast(w, run, i);
    DirtiedExactly(At(w, run, i));
  }

  /** And what was created is what the run says. */
  lemma DirtiedIsLeft(w: World, run: seq<Event>, i: nat)
    requires w.base.None? && i <= |run| && At(w, run, i).Readable()
    ensures Dirtied(At(w, run, i)) <==> !LeavesNothing(w, run, i)
  {
    DirtiedExactly(At(w, run, i));
    NoDirtIsLeavesNothing(w, run, i);
  }

  /** A session that reviews goes on reviewing whatever happens, as long as there is a HEAD. */
  lemma {:induction false} ReviewIsKept(w: World, run: seq<Event>, i: nat, j: nat)
    requires i <= j <= |run| && w.head != ""
    requires forall k :: 0 <= k < |run| && run[k].Change? ==> run[k].head != ""
    requires At(w, run, i).ReadBase().Some? && At(w, run, i).base.value.review
    ensures At(w, run, j).ReadBase().Some? && At(w, run, j).base.value.review
    decreases j - i
  {
    if i < j {
      ReviewIsKept(w, run, i, j - 1);
      AtNext(w, run, j - 1);
      HeadStays(w, run, j - 1);
    }
  }

  lemma {:induction false} HeadStays(w: World, run: seq<Event>, i: nat)
    requires i <= |run| && w.head != ""
    requires forall k :: 0 <= k < |run| && run[k].Change? ==> run[k].head != ""
    ensures At(w, run, i).head != ""
  {
    if i > 0 {
      HeadStays(w, run, i - 1);
      AtNext(w, run, i - 1);
    }
  }

  /** A session sent away stays so until its next prompt or landing. */
  lemma {:induction false} SentAwayStays(w: World, run: seq<Event>, i: nat, j: nat)
    requires i <= j <= |run| && w.head != ""
    requires forall k :: 0 <= k < |run| && run[k].Change? ==> run[k].head != ""
    requires forall k :: i <= k < j ==> !run[k].Prompt? && !(run[k].PostCommit? && run[k].landing)
    requires At(w, run, i).ReadBase().Some? && At(w, run, i).base.value.holder != ""
    ensures At(w, run, j).ReadBase().Some?
    ensures At(w, run, j).base.value.holder == At(w, run, i).base.value.holder
    decreases j - i
  {
    if i < j {
      SentAwayStays(w, run, i, j - 1);
      AtNext(w, run, j - 1);
      HeadStays(w, run, j - 1);
    }
  }

  /** The gate never wedges: a retry that finds things as the last block did passes,
      and so does one whose state cannot be read. */
  lemma UnchangedRetryPasses(w: World, run: seq<Event>, i: nat)
    requires w.block.None? && i < |run| && run[i].Stop? && run[i].retry
    requires Unchanged(w, run, i) || !At(w, run, i).Readable()
    ensures StopAt(w, run, i, Ends(false))
  {
    if Unchanged(w, run, i) {
      var j :| LastBlock(w, run, i, j)
        && At(w, run, j).head == At(w, run, i).head && At(w, run, j).facts == At(w, run, i).facts;
      BlockIsLast(w, run, i);
    }
  }

  /** A retry after anything changed since the last block is judged as a first stop is. */
  lemma ChangedRetryIsJudgedAfresh(w: World, run: seq<Event>, i: nat)
    requires w.block.None? && i < |run| && run[i].Stop? && run[i].retry
    requires At(w, run, i).Readable() && !Unchanged(w, run, i)
    ensures StopOutcome(At(w, run, i), true, run[i].dispatch, run[i].committing)
         == StopOutcome(At(w, run, i), false, run[i].dispatch, run[i].committing)
  {
    BlockIsLast(w, run, i);
  }

  /** A block is answered by the very next stop, whatever the plan says. */
  lemma NextStopAfterBlockPasses(w: World, run: seq<Event>, j: nat)
    requires w.block.None? && j + 1 < |run| && StopAt(w, run, j, Blocked)
    requires run[j + 1].Stop? && run[j + 1].retry
    ensures StopAt(w, run, j + 1, Ends(false))
  {
    AtNext(w, run, j);
    if At(w, run, j).Readable() {
      assert LastBlock(w, run, j + 1, j);
    }
    UnchangedRetryPasses(w, run, j + 1);
  }

  /** The worktree is given back exactly when a stop that is judged finds nothing uncommitted
      of the turn's own and a plan that leaves the session nothing to do. */
  lemma ReleasedExactly(w: World, run: seq<Event>, i: nat)
    requires w.base.None? && w.block.None? && i < |run| && run[i].Stop?
    ensures var unread := !At(w, run, i).keeps || At(w, run, i).facts.None?;
            StopAt(w, run, i, Ends(true)) <==>
              && !(run[i].retry && (unread || Unchanged(w, run, i))) && !Excused(w, run, i)
              && (run[i].dispatch.stopped || run[i].dispatch.complete || run[i].dispatch.waiting)
              && !Dirtied(At(w, run, i))
    ensures StopAt(w, run, i, Ends(true)) && At(w, run, i).keeps ==> LeavesNothing(w, run, i)
  {
    BlockIsLast(w, run, i);
    DirtiedExactly(At(w, run, i));
    if At(w, run, i).Readable() {
      NoDirtIsLeavesNothing(w, run, i);
    }
  }

  /** The worktree is given back only when a turn ends with nothing uncommitted of
      its own and the plan leaves the session nothing to do. */
  lemma ReleaseIsRested(w: World, run: seq<Event>, i: nat)
    requires w.base.None? && i < |run| && StopAt(w, run, i, Ends(true))
    ensures run[i].dispatch.stopped || run[i].dispatch.complete || run[i].dispatch.waiting
    ensures At(w, run, i).facts.Some? && !At(w, run, i).Exempt() && !CreatedDirt(At(w, run, i))
    ensures At(w, run, i).keeps ==> LeavesNothing(w, run, i)
  {
    if At(w, run, i).Readable() {
      NoDirtIsLeavesNothing(w, run, i);
    }
  }
}
