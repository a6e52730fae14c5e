/** The step indicator: for each step, how it is classified against the
    current step, whether the connector before it is highlighted, whether
    it shows a check mark or its number, and what a click does. */
module Stepper {
  import opened Basics
  import opened Text

  /** The three visual states of a step. */
  datatype Status = Completed | Current | Upcoming

  /** What a step's badge shows. */
  datatype Badge = Check | Number(n: int)

  /** One rendered step. */
  datatype StepView = StepView(
    completedStyle: bool,     // filled badge
    currentStyle: bool,       // outlined, highlighted badge
    upcomingStyle: bool,      // muted badge
    titleHighlighted: bool,
    connector: Option<bool>,  // None for the first step, else whether highlighted
    badge: Badge,
    enabled: bool,
    click: Option<int>)       // the index a click reports to the handler

  predicate IsCompleted(i: int, current: int) { i < current }
  predicate IsCurrent(i: int, current: int) { i == current }

  /** Step i of a stepper at `current`, with or without a click handler. */
  function ViewStep(i: nat, current: int, hasHandler: bool): (v: StepView)
    ensures v.completedStyle <==> i < current
    ensures v.currentStyle <==> i == current
    ensures v.connector.None? <==> i == 0
    ensures v.enabled == hasHandler
    ensures v.click.Some? <==> hasHandler
    ensures v.click.Some? ==> v.click.value == i
  {
    var completed := IsCompleted(i, current);
    var cur := IsCurrent(i, current);
    StepView(
      completed,
      cur,
      !completed && !cur,
      cur || completed,
      if i > 0 then Some(i <= current) else None,
      if completed then Check else Number(i + 1),
      hasHandler,
      if hasHandler then Some(i) else None)
  }

  /** The status the three style flags encode. */
  function StatusOf(v: StepView): Status {
    if v.completedStyle then Completed else if v.currentStyle then Current else Upcoming
  }

  /** The whole indicator: one view per step, in order. */
  function ViewSteps(steps: seq<string>, current: int, hasHandler: bool): (vs: seq<StepView>)
    ensures |vs| == |steps|
    ensures forall i | 0 <= i < |steps| :: vs[i] == ViewStep(i, current, hasHandler)
  {
    seq(|steps|, i requires 0 <= i < |steps| => ViewStep(i, current, hasHandler))
  }

  function Bit(b: bool): nat { if b then 1 else 0 }

  /** Every step gets exactly one of the three styles, and it is the one
      its position against the current step calls for. */
  lemma ExactlyOneStyle(i: nat, current: int, hasHandler: bool)
    ensures var v := ViewStep(i, current, hasHandler);
      && Bit(v.completedStyle) + Bit(v.currentStyle) + Bit(v.upcomingStyle) == 1
      && (StatusOf(v) == Completed <==> i < current)
      && (StatusOf(v) == Current <==> i == current)
      && (StatusOf(v) == Upcoming <==> i > current)
  {
  }

  /** A step shows a check mark exactly when it is completed, and its
      one-based number otherwise; its title is highlighted unless upcoming. */
  lemma BadgeAndTitle(i: nat, current: int, hasHandler: bool)
    ensures var v := ViewStep(i, current, hasHandler);
      && (v.badge == Check <==> StatusOf(v) == Completed)
      && (v.badge != Check ==> v.badge == Number(i + 1))
      && (v.titleHighlighted <==> StatusOf(v) != Upcoming)
  {
  }

  /** The connector into step i is highlighted exactly when the step before
      it is completed. */
  lemma ConnectorFollowsPreviousStep(i: nat, current: int, hasHandler: bool)
    requires i > 0
    ensures ViewStep(i, current, hasHandler).connector == Some(StatusOf(ViewStep(i - 1, current, hasHandler)) == Completed)
  {
  }

  /** How many views carry a given status. */
  function CountStatus(vs: seq<StepView>, s: Status): nat {
    if |vs| == 0 then 0
    else (if StatusOf(vs[0]) == s then 1 else 0) + CountStatus(vs[1..], s)
  }

  lemma {:induction false} CountStatusAppend(vs: seq<StepView>, v: StepView, s: Status)
    ensures CountStatus(vs + [v], s) == CountStatus(vs, s) + (if StatusOf(v) == s then 1 else 0)
  {
    if |vs| > 0 {
      assert (vs + [v])[1..] == vs[1..] + [v];
      CountStatusAppend(vs[1..], v, s);
    } else {
      assert (vs + [v])[1..] == [];
    }
  }

  /** The first n views of a stepper at `current`. */
  lemma {:induction false} StatusCountsPrefix(steps: seq<string>, n: nat, current: int, hasHandler: bool)
    requires n <= |steps| && 0 <= current
    ensures var vs := ViewSteps(steps, current, hasHandler)[..n];
      && CountStatus(vs, Completed) == (if current < n then current else n)
      && CountStatus(vs, Current) == (if current < n then 1 else 0)
      && CountStatus(vs, Upcoming) == (if current < n then n - current - 1 else 0)
  {
    if n > 0 {
      var all := ViewSteps(steps, current, hasHandler);
      StatusCountsPrefix(steps, n - 1, current, hasHandler);
      assert all[..n] == all[..n - 1] + [all[n - 1]];
      CountStatusAppend(all[..n - 1], all[n - 1], Completed);
      CountStatusAppend(all[..n - 1], all[n - 1], Current);
      CountStatusAppend(all[..n - 1], all[n - 1], Upcoming);
    }
  }

  /** With the current step in range, exactly `current` steps are
      completed, one is current and the rest are upcoming. */
  lemma StatusCounts(steps: seq<string>, current: int, hasHandler: bool)
    requires 0 <= current < |steps|
    ensures var vs := ViewSteps(steps, current, hasHandler);
      && CountStatus(vs, Completed) == current
      && CountStatus(vs, Current) == 1
      && CountStatus(vs, Upcoming) == |steps| - current - 1
  {
    var vs := ViewSteps(steps, current, hasHandler);
    StatusCountsPrefix(steps, |steps|, current, hasHandler);
    assert vs[..|steps|] == vs;
  }
}
