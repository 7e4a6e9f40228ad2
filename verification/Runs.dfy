/** Runs of a deterministic transition function. */
module Runs {
  import opened Common

  function Run<S>(step: S -> Option<S>, s: S, n: nat): Option<S>
    decreases n
  {
    if n == 0 then Some(s)
    else
      match step(s)
      case None => None
      case Some(t) => Run(step, t, n - 1)
  }

  predicate RunsTo<S(==)>(step: S -> Option<S>, s: S, n: nat, t: S) {
    Run(step, s, n) == Some(t)
  }

  ghost predicate Reaches<S>(step: S -> Option<S>, s: S, t: S) {
    exists n: nat :: RunsTo(step, s, n, t)
  }

  /** At least n steps can be made. */
  predicate Outruns<S>(step: S -> Option<S>, s: S, n: nat) {
    Run(step, s, n).Some?
  }

  lemma {:induction false} RunSplit<S>(step: S -> Option<S>, s: S, m: nat, n: nat)
    requires Run(step, s, m).Some?
    ensures Run(step, s, m + n) == Run(step, Run(step, s, m).value, n)
    decreases m
  {
    if m == 0 {
    } else {
      RunSplit(step, step(s).value, m - 1, n);
    }
  }

  lemma ReachesSelf<S>(step: S -> Option<S>, s: S)
    ensures Reaches(step, s, s)
  {
    assert RunsTo(step, s, 0, s);
  }

  lemma ReachesStep<S>(step: S -> Option<S>, s: S, t: S)
    requires step(s) == Some(t)
    ensures Reaches(step, s, t)
  {
    assert Run(step, t, 0) == Some(t);
    assert RunsTo(step, s, 1, t);
  }

  lemma ReachesTrans<S>(step: S -> Option<S>, s: S, t: S, u: S)
    requires Reaches(step, s, t) && Reaches(step, t, u)
    ensures Reaches(step, s, u)
  {
    var m: nat :| RunsTo(step, s, m, t);
    var n: nat :| RunsTo(step, t, n, u);
    RunSplit(step, s, m, n);
    assert RunsTo(step, s, m + n, u);
  }

  lemma {:induction false} OutrunsFewer<S>(step: S -> Option<S>, s: S, m: nat, n: nat)
    requires Outruns(step, s, n) && m <= n
    ensures Outruns(step, s, m)
    decreases m
  {
    if m > 0 {
      OutrunsFewer(step, step(s).value, m - 1, n - 1);
    }
  }

  lemma OutrunsAfter<S>(step: S -> Option<S>, s: S, t: S, n: nat)
    requires Reaches(step, s, t) && Outruns(step, t, n)
    ensures Outruns(step, s, n)
  {
    var m: nat :| RunsTo(step, s, m, t);
    RunSplit(step, s, m, n);
    OutrunsFewer(step, s, n, m + n);
  }

  /** Reached after at least one step. */
  ghost predicate Advances<S>(step: S -> Option<S>, s: S, t: S) {
    exists n: nat :: RunsTo(step, s, n, t) && n > 0
  }

  lemma AdvancesReaches<S>(step: S -> Option<S>, s: S, t: S)
    requires Advances(step, s, t)
    ensures Reaches(step, s, t)
  {
  }

  lemma AdvancesStep<S>(step: S -> Option<S>, s: S, t: S)
    requires step(s) == Some(t)
    ensures Advances(step, s, t)
  {
    assert Run(step, t, 0) == Some(t);
    assert RunsTo(step, s, 1, t);
  }

  lemma AdvancesElsewhere<S>(step: S -> Option<S>, s: S, t: S)
    requires Reaches(step, s, t) && s != t
    ensures Advances(step, s, t)
  {
  }

  lemma AdvancesTrans<S>(step: S -> Option<S>, s: S, t: S, u: S)
    requires Reaches(step, s, t) && Reaches(step, t, u)
    requires Advances(step, s, t) || Advances(step, t, u)
    ensures Advances(step, s, u)
  {
    var m: nat :| RunsTo(step, s, m, t) && (Advances(step, s, t) ==> m > 0);
    var n: nat :| RunsTo(step, t, n, u) && (Advances(step, t, u) ==> n > 0);
    RunSplit(step, s, m, n);
    assert RunsTo(step, s, m + n, u);
  }

  lemma OutrunsAdvanced<S>(step: S -> Option<S>, s: S, t: S, n: nat)
    requires Advances(step, s, t) && Outruns(step, t, n)
    ensures Outruns(step, s, n + 1)
  {
    var m: nat :| RunsTo(step, s, m, t) && m > 0;
    RunSplit(step, s, m, n);
    OutrunsFewer(step, s, n + 1, m + n);
  }
}
