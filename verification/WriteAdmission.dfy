/** When the PUT of a session may be taken, told by what became of the object while the session was open. */
module WriteAdmission {
  import opened Basics
  import opened WriteSession
  import opened WritableAsset
  import opened WriteHistory

  /** Session `k` has the condition it had, and the history goes on from where it was. */
  ghost predicate GoesOn(w: World, w': World, k: nat) {
    && k < |w.sessions| && k < |w'.sessions| && w'.sessions[k].session.precondition == w.sessions[k].session.precondition
    && |w.history| <= |w'.history| && w'.history[..|w.history|] == w.history
  }

  lemma StepGoesOn(ifMatch: bool, w: World, step: Step, k: nat)
    requires Enabled(ifMatch, w, step) && k < |w.sessions|
    ensures GoesOn(w, Next(w, step), k)
  {
  }

  lemma GoesOnAndOn(a: World, b: World, c: World, k: nat)
    requires GoesOn(a, b, k) && GoesOn(b, c, k)
    ensures GoesOn(a, c, k)
  {
    assert c.history[..|a.history|] == c.history[..|b.history|][..|a.history|];
  }

  lemma {:induction false} RunGoesOn(ifMatch: bool, run: seq<World>, steps: seq<Step>, n: nat, m: nat, k: nat)
    requires Leads(ifMatch, run, steps) && n <= m < |run| && k < |run[n].sessions|
    ensures GoesOn(run[n], run[m], k)
    decreases m
  {
    if n < m {
      RunGoesOn(ifMatch, run, steps, n, m - 1, k);
      StepGoesOn(ifMatch, run[m - 1], steps[m - 1], k);
      GoesOnAndOn(run[n], run[m - 1], run[m], k);
    }
  }

  /** What the store must find for the PUT of a session opened on `then` to be taken. */
  ghost predicate StillHolds(mode: Mode, c: Conditions, then': World, now: World)
    requires then'.history != [] && now.history != []
  {
    || mode == Replace
    || (c.materialized.Found? && (!c.ifMatch || |now.history| == |then'.history|))
    || (c.materialized == Missing && Current(now) == Absent)
  }

  lemma OpenedHolds(ifMatch: bool, w: World, mode: Mode, c: Conditions, directory: nat, now: World)
    requires Enabled(ifMatch, w, OpenStep(mode, c, directory))
    requires var w' := Next(w, OpenStep(mode, c, directory)); |w'.sessions| > |w.sessions| && GoesOn(w', now, |w.sessions|)
    ensures now.history != []
    ensures Admits(now, now.sessions[|w.sessions|].session.precondition) <==> StillHolds(mode, c, w, now)
  {
    assert |now.history| == |w.history| ==> now.history == now.history[..|w.history|] == w.history;
  }

  /** The PUT of a session may be taken exactly when it replaces; or it updates what it found and, on a route that takes
      conditional writes, there has been no version since; or it updates what was missing and there is nothing now. */
  lemma AdmittedExactly(ifMatch: bool, run: seq<World>, steps: seq<Step>, n: nat, m: nat)
    requires IsRun(ifMatch, run, steps) && n < m < |run| && steps[n].OpenStep? && |run[n + 1].sessions| > |run[n].sessions|
    ensures run[n].history != [] && run[m].history != [] && |run[n].sessions| < |run[m].sessions|
    ensures Admits(run[m], run[m].sessions[|run[n].sessions|].session.precondition) <==>
            StillHolds(steps[n].mode, steps[n].conditions, run[n], run[m])
  {
    RunGoesOn(ifMatch, run, steps, n + 1, m, |run[n].sessions|);
    OpenedHolds(ifMatch, run[n], steps[n].mode, steps[n].conditions, steps[n].directory, run[m]);
  }
}
