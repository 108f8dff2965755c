/** What an await does, in every run: when it suspends, and what wakes it. */
module CoroutineAwait {
  import opened Basics
  import opened Coroutine
  import opened CoroutineInvariant
  import opened CoroutineSafety

  /** What a body waits for is still to come: the callback has not delivered, or the awaited body has not ended. */
  ghost predicate ToCome(s: State, t: Target)
    requires t.Leaf? ==> t.op < |s.ops|
    requires t.Task? ==> t.frame < |s.frames|
  {
    match t
    case Leaf(o) => s.ops[o].control.Pending? || s.ops[o].control.Populated?
    case Task(p) => !BodyDone(s.frames[p].control)
  }

  /** An await of a task whose body has ended goes on at once; any other prepares to suspend. */
  lemma ReadyExactly(states: seq<State>, steps: seq<Step>, i: nat, f: FrameId, p: FrameId)
    requires IsRun(states, steps) && i < |steps| && steps[i] == CheckReady(f, p)
    ensures f < |states[i].frames| && p < |states[i].frames| && f < |states[i + 1].frames|
    ensures var s, c := states[i], states[i + 1].frames[f].control;
            && (c.Reading? <==> !ToCome(s, Task(p))) && (c.Preparing? <==> ToCome(s, Task(p)))
            && HasTarget(c) && c.target == Task(p)
  {
    RunKeepsInv(states, steps, i);
    assert IsStep(states[i], steps[i], states[i + 1]);
    assert FrameInv(states[i], p);
  }

  /** Publishing a suspension suspends the body exactly while what it waits for is still to come; otherwise the body
      goes on, on its stack, and has not been suspended. */
  lemma SuspendsExactly(states: seq<State>, steps: seq<Step>, i: nat, f: FrameId)
    requires IsRun(states, steps) && i < |steps| && steps[i] == Publish(f)
    ensures f < |states[i].frames| && states[i].frames[f].control.Publishing? && CanPublish(states[i], f)
    ensures f < |states[i + 1].frames|
    ensures var t, t' := states[i].frames[f], states[i + 1].frames[f];
            && HasTarget(t'.control) && t'.control.target == t.control.target
            && (t'.control.Suspended? <==> ToCome(states[i], t.control.target))
            && (!t'.control.Suspended? ==>
                  OnStack(t'.control) && t'.control.site == t.control.site && t'.suspensions == t.suspensions)
  {
    var s := states[i];
    RunKeepsInv(states, steps, i);
    assert IsStep(s, steps[i], states[i + 1]);
    StepIsSafe(s, steps[i]);
    assert FrameInv(s, f);
    match s.frames[f].control.target
    case Leaf(o) => assert OpInv(s, o);
    case Task(p) => assert FrameInv(s, p);
  }

  /** The body goes on, with what it waited for. */
  ghost predicate Woken(c: Control, step: Step, c': Control)
    requires c.Suspended?
  {
    && c'.Reading? && c'.target == c.target && c'.site.On?
    && match c.target
       case Leaf(o) => step == Activate(o) && c'.site.worker == o
       case Task(p) => step == Transfer(p)
  }

  lemma WorkerStepWakes(s: State, step: Step, f: FrameId)
    requires WorkerStep(step) && Enabled(s, step) && SafeStep(s, step) && f < |s.frames| && s.frames[f].control.Suspended?
    ensures f < |Apply(s, step).frames|
    ensures var c, c' := s.frames[f].control, Apply(s, step).frames[f].control; c' == c || Woken(c, step, c')
  {
  }

  lemma DropStepWakesNone(s: State, step: Step, f: FrameId)
    requires DropStep(step) && Enabled(s, step) && InRange(s, step) && f < |s.frames| && s.frames[f].control.Suspended?
    ensures f < |Apply(s, step).frames| && Apply(s, step).frames[f].control == s.frames[f].control
  {
  }

  lemma AwaitStepWakesNone(s: State, step: Step, f: FrameId)
    requires AwaitStep(step) && Enabled(s, step) && InRange(s, step) && f < |s.frames| && s.frames[f].control.Suspended?
    ensures f < |Apply(s, step).frames| && Apply(s, step).frames[f].control == s.frames[f].control
  {
  }

  lemma BodyStepWakes(s: State, step: Step, f: FrameId)
    requires !WorkerStep(step) && !DropStep(step) && !AwaitStep(step)
    requires Enabled(s, step) && SafeStep(s, step) && f < |s.frames| && s.frames[f].control.Suspended?
    ensures f < |Apply(s, step).frames|
    ensures var c, c' := s.frames[f].control, Apply(s, step).frames[f].control; c' == c || Woken(c, step, c')
  {
  }

  /** Only what a body waits for wakes it: the worker of its operation, or the end of the awaited body. */
  lemma WokenByItsTarget(states: seq<State>, steps: seq<Step>, i: nat, f: FrameId)
    requires IsRun(states, steps) && i < |steps| && f < |states[i].frames| && states[i].frames[f].control.Suspended?
    ensures f < |states[i + 1].frames|
    ensures var c, c' := states[i].frames[f].control, states[i + 1].frames[f].control; c' == c || Woken(c, steps[i], c')
  {
    var s, step := states[i], steps[i];
    NoUseAfterDestroy(states, steps, i, step);
    assert IsStep(s, step, states[i + 1]);
    if WorkerStep(step) {
      WorkerStepWakes(s, step, f);
    } else if DropStep(step) {
      DropStepWakesNone(s, step, f);
    } else if AwaitStep(step) {
      AwaitStepWakesNone(s, step, f);
    } else {
      BodyStepWakes(s, step, f);
    }
  }
}
