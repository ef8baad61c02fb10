/** One evaluation budget shared out in slices over the models of a pass. */
module BudgetSlices {
  import Arithmetic

  /** What the worker of one model does: how long it would run if let, and how it
      would end; and how long the pass spends before it comes to that model. */
  datatype Round = Round(pause: nat, want: nat, ending: Ending)

  datatype Ending = Clean | Crashed | Exited(code: int)

  datatype Report = Unevaluated | BudgetExceeded(slice: int) | Errored | BadExit(code: int) | Evaluated

  type Rounds = seq<Round>

  // ----- what the loop computes -------------------------------------------------------------

  /** The time left when the i-th model's turn comes. */
  function Left(budget: int, rounds: Rounds, i: nat): int
    requires i < |rounds|
    decreases i, 0
  {
    (if i == 0 then budget else Left(budget, rounds, i - 1) - Used(budget, rounds, i - 1)) - rounds[i].pause
  }

  /** The share of it for that model and each after it. */
  function Slice(budget: int, rounds: Rounds, i: nat): int
    requires i < |rounds|
    decreases i, 1
  {
    SliceOf(Left(budget, rounds, i), |rounds| - i)
  }

  /** The time its worker takes. */
  function Used(budget: int, rounds: Rounds, i: nat): (used: int)
    requires i < |rounds|
    decreases i, 2
  {
    UsedOf(Slice(budget, rounds, i), rounds[i])
  }

  function ReportOn(budget: int, rounds: Rounds, i: nat): Report
    requires i < |rounds|
  {
    ReportOf(Left(budget, rounds, i), Slice(budget, rounds, i), rounds[i])
  }

  function SliceOf(left: int, share: int): int
    requires share > 0
  {
    if left <= 0 then 0 else left / share
  }

  function UsedOf(slice: int, round: Round): int {
    if round.want > slice then slice else round.want
  }

  function ReportOf(left: int, slice: int, round: Round): Report {
    if left <= 0 then Unevaluated
    else if round.want > slice then BudgetExceeded(slice)
    else match round.ending
      case Clean => Evaluated
      case Crashed => Errored
      case Exited(code) => if code != 0 then BadExit(code) else Evaluated
  }

  /** What a failed pass names. */
  predicate Fails(report: Report) {
    report.Unevaluated? || report.Errored? || report.BadExit?
  }

  ghost predicate AnyFails(reports: seq<Report>) {
    exists i :: 0 <= i < |reports| && Fails(reports[i])
  }

  lemma AnyFailsMore(reports: seq<Report>, report: Report)
    ensures AnyFails(reports + [report]) <==> AnyFails(reports) || Fails(report)
  {
    var more := reports + [report];
    assert more[|reports|] == report && forall i :: 0 <= i < |reports| ==> more[i] == reports[i];
  }

  /** A pass fails by what went unevaluated, ended in an error or exited badly, and not by
      what was stopped at its slice. */
  lemma FailsExactly(reports: seq<Report>)
    ensures AnyFails(reports) <==>
            Unevaluated in reports || Errored in reports || exists code: int :: BadExit(code) in reports
  {
    if AnyFails(reports) {
      var i :| 0 <= i < |reports| && Fails(reports[i]);
      assert reports[i] in reports && (reports[i].BadExit? ==> BadExit(reports[i].code) in reports);
    }
  }

  function TotalUsed(budget: int, rounds: Rounds, i: nat): int
    requires i <= |rounds|
  {
    if i == 0 then 0 else TotalUsed(budget, rounds, i - 1) + Used(budget, rounds, i - 1)
  }

  function TotalPaused(rounds: Rounds, i: nat): int
    requires i <= |rounds|
  {
    if i == 0 then 0 else TotalPaused(rounds, i - 1) + rounds[i - 1].pause
  }

  /** One model's turn, of the time remaining. */
  method Turn(remaining: int, share: int, round: Round) returns (used: int, report: Report)
    requires share > 0
    ensures used == UsedOf(SliceOf(remaining, share), round)
    ensures report == ReportOf(remaining, SliceOf(remaining, share), round)
  {
    if remaining <= 0 {
      return 0, Unevaluated;
    }
    var slice := remaining / share;
    var elapsed := round.want > slice;
    used := if elapsed then slice else round.want;
    if elapsed {
      report := BudgetExceeded(slice);
    } else if round.ending.Crashed? {
      report := Errored;
    } else if round.ending.Exited? && round.ending.code != 0 {
      report := BadExit(round.ending.code);
    } else {
      report := Evaluated;
    }
  }

  /** The deadline and slice loop of runAllParent, the clock and the workers given. */
  method RunAllParent(budget: int, rounds: Rounds) returns (started: bool, reports: seq<Report>, failed: bool)
    ensures started <==> budget > 0
    ensures started ==> |reports| == |rounds|
                        && forall i :: 0 <= i < |rounds| ==> reports[i] == ReportOn(budget, rounds, i)
    ensures failed <==> !started || AnyFails(reports)
    ensures failed <==> budget <= 0 || Unevaluated in reports || Errored in reports
                        || exists code: int :: BadExit(code) in reports
  {
    if budget <= 0 {
      return false, [], true;
    }
    var now, deadline := 0, budget;
    started, reports, failed := true, [], false;
    for index := 0 to |rounds|
      invariant |reports| == index
      invariant deadline - now == if index == 0 then budget
                                  else Left(budget, rounds, index - 1) - Used(budget, rounds, index - 1)
      invariant forall i :: 0 <= i < index ==> reports[i] == ReportOn(budget, rounds, i)
      invariant failed <==> AnyFails(reports)
    {
      now := now + rounds[index].pause;
      var used, report := Turn(deadline - now, |rounds| - index, rounds[index]);
      assert Left(budget, rounds, index) == deadline - now;
      AnyFailsMore(reports, report);
      now, reports, failed := now + used, reports + [report], failed || Fails(report);
    }
    FailsExactly(reports);
  }

  // ----- over any pass --------------------------------------------------------------------------

  /** A worker takes no more than its slice, and a slice no more than is left. */
  lemma UsedWithinLeft(budget: int, rounds: Rounds, i: nat)
    requires i < |rounds|
    ensures 0 <= Used(budget, rounds, i) <= Slice(budget, rounds, i)
    ensures Left(budget, rounds, i) > 0 ==> Slice(budget, rounds, i) <= Left(budget, rounds, i)
  {
    SliceWithin(Left(budget, rounds, i), |rounds| - i);
  }

  lemma SliceWithin(left: int, share: int)
    requires share >= 1
    ensures 0 <= SliceOf(left, share)
    ensures left > 0 ==> SliceOf(left, share) <= left && (share > 1 ==> SliceOf(left, share) < left)
  {
    if left > 0 {
      Arithmetic.QuotientAtLeast(left, share, 0);
      Arithmetic.QuotientAtLeast(left, share, left + 1);
      Arithmetic.Multiplied(1, share, left + 1);
      if share > 1 {
        Arithmetic.QuotientAtLeast(left, share, left);
        Arithmetic.Multiplied(2, share, left);
      }
    }
  }

  /** What is left is the budget, less what was spent before. */
  lemma {:induction false} LeftIsTheRest(budget: int, rounds: Rounds, i: nat)
    requires i < |rounds|
    ensures Left(budget, rounds, i) == budget - TotalUsed(budget, rounds, i) - TotalPaused(rounds, i + 1)
  {
    if i > 0 {
      LeftIsTheRest(budget, rounds, i - 1);
    }
  }

  lemma {:induction false} PausesAdd(rounds: Rounds, i: nat)
    requires i <= |rounds|
    ensures TotalPaused(rounds, i) >= 0
  {
    if i > 0 {
      PausesAdd(rounds, i - 1);
    }
  }

  /** However long the pass pauses, the workers together never run past the budget. */
  lemma {:induction false} NeverOverBudget(budget: int, rounds: Rounds, i: nat)
    requires budget > 0 && i <= |rounds|
    ensures TotalUsed(budget, rounds, i) <= budget
  {
    if i > 0 {
      NeverOverBudget(budget, rounds, i - 1);
      UsedWithinLeft(budget, rounds, i - 1);
      LeftIsTheRest(budget, rounds, i - 1);
      PausesAdd(rounds, i);
    }
  }

  /** One turn, of what is left: the worker is given an equal share for each model still to
      come, runs no longer than it wants, and is reported as it was stopped or ended. */
  lemma TurnExactly(budget: int, rounds: Rounds, i: nat)
    requires i < |rounds|
    ensures var left := budget - TotalUsed(budget, rounds, i) - TotalPaused(rounds, i + 1);
            var slice := if left <= 0 then 0 else left / (|rounds| - i);
            var round := rounds[i];
            && TotalUsed(budget, rounds, i + 1) - TotalUsed(budget, rounds, i)
               == (if round.want <= slice then round.want else slice)
            && TotalPaused(rounds, i + 1) - TotalPaused(rounds, i) == round.pause
            && ReportOn(budget, rounds, i)
               == (if left <= 0 then Unevaluated
                   else if round.want > slice then BudgetExceeded(slice)
                   else if round.ending == Crashed then Errored
                   else if round.ending == Clean || round.ending == Exited(0) then Evaluated
                   else BadExit(round.ending.code))
    ensures TotalUsed(budget, rounds, 0) == 0 && TotalPaused(rounds, 0) == 0
  {
    LeftIsTheRest(budget, rounds, i);
    assert TotalUsed(budget, rounds, i + 1) == TotalUsed(budget, rounds, i) + Used(budget, rounds, i);
    assert Used(budget, rounds, i) == UsedOf(Slice(budget, rounds, i), rounds[i]);
  }

  /** A model goes unevaluated exactly when the time before its turn took the budget. */
  lemma UnevaluatedIsElapsed(budget: int, rounds: Rounds, i: nat)
    requires i < |rounds|
    ensures ReportOn(budget, rounds, i).Unevaluated? <==>
              TotalUsed(budget, rounds, i) + TotalPaused(rounds, i + 1) >= budget
  {
    LeftIsTheRest(budget, rounds, i);
  }

  // ----- over a pass that does not pause ----------------------------------------------------------

  ghost predicate NoPauses(rounds: Rounds) {
    forall i :: 0 <= i < |rounds| ==> rounds[i].pause == 0
  }

  /** Taking at most an equal share leaves an equal share, or more, for each of the rest. */
  lemma ShareOfRest(left: int, share: int, used: int)
    requires share > 1 && used <= left / share
    ensures (left - used) / (share - 1) >= left / share
  {
    var slice := left / share;
    Arithmetic.QuotientAtLeast(left, share, slice);
    assert slice * (share - 1) == slice * share - slice;
    Arithmetic.QuotientAtLeast(left - used, share - 1, slice);
  }

  /** There is time left for every model, however many there are for the budget. */
  lemma {:induction false} TimeIsLeft(budget: int, rounds: Rounds, i: nat)
    requires budget > 0 && NoPauses(rounds) && i < |rounds|
    ensures Left(budget, rounds, i) > 0
  {
    if i > 0 {
      TimeIsLeft(budget, rounds, i - 1);
      UsedWithinLeft(budget, rounds, i - 1);
      SliceWithin(Left(budget, rounds, i - 1), |rounds| - (i - 1));
    }
  }

  /** Slices never get smaller. */
  lemma {:induction false} SlicesNeverShrink(budget: int, rounds: Rounds, i: nat, j: nat)
    requires budget > 0 && NoPauses(rounds) && i <= j < |rounds|
    ensures Slice(budget, rounds, i) <= Slice(budget, rounds, j)
    decreases j
  {
    if i < j {
      SlicesNeverShrink(budget, rounds, i, j - 1);
      TimeIsLeft(budget, rounds, j - 1);
      TimeIsLeft(budget, rounds, j);
      UsedWithinLeft(budget, rounds, j - 1);
      ShareOfRest(Left(budget, rounds, j - 1), |rounds| - (j - 1), Used(budget, rounds, j - 1));
    }
  }

  /** No model starves: each has an equal share of the budget at the least, and is reached. */
  lemma NoModelStarves(budget: int, rounds: Rounds, i: nat)
    requires budget > 0 && NoPauses(rounds) && i < |rounds|
    ensures Slice(budget, rounds, i) >= budget / |rounds|
    ensures !ReportOn(budget, rounds, i).Unevaluated?
  {
    SlicesNeverShrink(budget, rounds, 0, i);
    TimeIsLeft(budget, rounds, i);
  }

  /** When the last model would run past its slice, the budget is used to the full. */
  lemma NothingIsWasted(budget: int, rounds: Rounds)
    requires budget > 0 && NoPauses(rounds) && rounds != []
    requires ReportOn(budget, rounds, |rounds| - 1).BudgetExceeded?
    ensures TotalUsed(budget, rounds, |rounds|) == budget
  {
    var last := |rounds| - 1;
    TimeIsLeft(budget, rounds, last);
    LeftIsTheRest(budget, rounds, last);
    NothingPaused(rounds, |rounds|);
    assert Left(budget, rounds, last) / 1 == Left(budget, rounds, last);
  }

  lemma {:induction false} NothingPaused(rounds: Rounds, i: nat)
    requires NoPauses(rounds) && i <= |rounds|
    ensures TotalPaused(rounds, i) == 0
  {
    if i > 0 {
      NothingPaused(rounds, i - 1);
    }
  }

  /** A pause as long as the budget leaves every model unevaluated. */
  lemma {:induction false} PauseStarves(budget: int, rounds: Rounds, i: nat)
    requires i < |rounds| && rounds[0].pause >= budget
    ensures Left(budget, rounds, i) <= 0 && ReportOn(budget, rounds, i).Unevaluated?
  {
    if i > 0 {
      PauseStarves(budget, rounds, i - 1);
      UsedWithinLeft(budget, rounds, i - 1);
    }
  }
}
