/**
  * What every run of the coroutine protocol guarantees: frames are destroyed exactly once, no step touches a
  * destroyed frame, the code's ownership assertions hold, and every suspension is resumed at most once, by the
  * event it waits for.
  */
module CoroutineSafety {
  import opened Basics
  import opened Coroutine
  import opened CoroutineInvariant

  // ---------------------------------------------------------------------------
  // Holding a task points down in rank, so frames never wait for each other in a circle.
  // ---------------------------------------------------------------------------

  ghost predicate RankLink(s: State, f: FrameId) {
    && f < |s.frames|
    && match s.frames[f].handle
       case Held(Body(g)) => g < |s.frames| && s.frames[f].rank < s.frames[g].rank
       case Unborn(Body(g)) =>
         && g < |s.frames| && s.frames[f].rank < s.frames[g].rank
         && forall x | 0 <= x < |s.frames| && s.frames[x].handle == Held(Body(g)) :: s.frames[x].rank < s.frames[f].rank
       case Unborn(External) => forall x | 0 <= x < f :: s.frames[x].rank < s.frames[f].rank
       case _ => true
  }

  ghost predicate RankInv(s: State) {
    forall f | 0 <= f < |s.frames| :: RankLink(s, f)
  }

  /** A step that moves no task object into a frame keeps the order. */
  lemma KeepRanks(s: State, s': State)
    requires RankInv(s) && RanksFixed(s, s')
    ensures RankInv(s')
  {
    forall f | 0 <= f < |s'.frames| ensures RankLink(s', f) {
      assert RankLink(s, f);
    }
  }

  lemma SpawnTaskKeepsRank(s: State, creator: Party, rank: real, f: FrameId)
    requires Inv(s) && RankInv(s) && Enabled(s, SpawnTask(creator, rank)) && Ordered(s, SpawnTask(creator, rank)) && f <= |s.frames|
    ensures RankLink(DoSpawnTask(s, creator, rank), f)
  {
    var s' := DoSpawnTask(s, creator, rank);
    assert forall x | 0 <= x < |s.frames| :: s'.frames[x].handle == s.frames[x].handle && s'.frames[x].rank == s.frames[x].rank;
    if creator.Body? {
      assert FrameInv(s, creator.frame);
    }
    if f < |s.frames| {
      assert RankLink(s, f);
    }
  }

  lemma SpawnTaskKeepsRanks(s: State, creator: Party, rank: real)
    requires Inv(s) && RankInv(s) && Enabled(s, SpawnTask(creator, rank)) && Ordered(s, SpawnTask(creator, rank))
    ensures RankInv(DoSpawnTask(s, creator, rank))
  {
    var s' := DoSpawnTask(s, creator, rank);
    forall f | 0 <= f < |s'.frames| ensures RankLink(s', f) {
      SpawnTaskKeepsRank(s, creator, rank, f);
    }
  }

  lemma SpawnRunnerKeepsRanks(s: State, work: FrameId, rank: real)
    requires Inv(s) && RankInv(s) && Enabled(s, SpawnRunner(work, rank)) && Ordered(s, SpawnRunner(work, rank))
    ensures RankInv(DoSpawnRunner(s, work, rank))
  {
    var s' := DoSpawnRunner(s, work, rank);
    forall f | 0 <= f < |s'.frames| ensures RankLink(s', f) {
      if f < |s.frames| {
        assert RankLink(s, f) && FrameInv(s, f);
      }
    }
  }

  lemma GiveKeepsRanks(s: State, x: FrameId, d: FrameId)
    requires Inv(s) && RankInv(s) && Enabled(s, Give(x, d))
    ensures RankInv(SetFrame(s, x, s.frames[x].(handle := Held(Body(d)))))
  {
    var s' := SetFrame(s, x, s.frames[x].(handle := Held(Body(d))));
    assert FrameInv(s, d) && RankLink(s, d);
    forall f | 0 <= f < |s'.frames| ensures RankLink(s', f) {
      assert RankLink(s, f) && FrameInv(s, f);
    }
  }

  lemma AdoptKeepsRanks(s: State, x: FrameId, g: FrameId)
    requires Inv(s) && RankInv(s) && Enabled(s, Adopt(x, g)) && Ordered(s, Adopt(x, g))
    ensures RankInv(SetFrame(s, x, s.frames[x].(handle := Held(Body(g)))))
  {
    var s' := SetFrame(s, x, s.frames[x].(handle := Held(Body(g))));
    forall f | 0 <= f < |s'.frames| ensures RankLink(s', f) {
      assert RankLink(s, f) && FrameInv(s, f);
    }
  }

  /** A task object returned to the caller: the caller was calling nobody else. */
  lemma ReturnedKeepsRank(s: State, s': State, d: FrameId, f: FrameId)
    requires d < |s.frames| && f < |s.frames| && |s'.frames| == |s.frames| && s.frames[d].handle.Unborn?
    requires RankLink(s, d) && RankLink(s, f) && HandleLink(s, d) && HandleLink(s, f)
    requires s'.frames[d].handle == Held(s.frames[d].handle.creator)
    requires forall x | 0 <= x < |s.frames| :: s'.frames[x].rank == s.frames[x].rank && (x != d ==> s'.frames[x].handle == s.frames[x].handle)
    ensures RankLink(s', f)
  {
  }

  lemma ReturnCallKeepsRank(s: State, d: FrameId, f: FrameId)
    requires Inv(s) && RankInv(s) && Enabled(s, ReturnCall(d)) && CanReturn(s, d) && f < |s.frames|
    ensures RankLink(DoReturnCall(s, d), f)
  {
    assert RankLink(s, d) && RankLink(s, f) && FrameInv(s, d) && FrameInv(s, f);
    ReturnedKeepsRank(s, DoReturnCall(s, d), d, f);
  }

  lemma ReturnCallKeepsRanks(s: State, d: FrameId)
    requires Inv(s) && RankInv(s) && Enabled(s, ReturnCall(d)) && CanReturn(s, d)
    ensures RankInv(DoReturnCall(s, d))
  {
    forall f | 0 <= f < |s.frames| ensures RankLink(DoReturnCall(s, d), f) {
      ReturnCallKeepsRank(s, d, f);
    }
  }

  lemma RankAbove(s: State, g: FrameId, n: nat) returns (rank: real)
    requires RankInv(s) && g < |s.frames| && n <= |s.frames|
    ensures rank < s.frames[g].rank
    ensures forall x | 0 <= x < n && s.frames[x].handle == Held(Body(g)) :: s.frames[x].rank < rank
  {
    rank := s.frames[g].rank - 1.0;
    for i := 0 to n
      invariant rank < s.frames[g].rank
      invariant forall x | 0 <= x < i && s.frames[x].handle == Held(Body(g)) :: s.frames[x].rank < rank
    {
      assert RankLink(s, i);
      if s.frames[i].handle == Held(Body(g)) && rank <= s.frames[i].rank {
        rank := (s.frames[i].rank + s.frames[g].rank) / 2.0;
      }
    }
  }

  ghost predicate IsOrdered(s: State, step: Step) {
    Enabled(s, step) && Ordered(s, step)
  }

  /** A running body can always call another coroutine in order: only taking in tasks from outside may break it. */
  lemma SpawnCanBeOrdered(s: State, g: FrameId)
    requires RankInv(s) && g < |s.frames| && s.frames[g].tracked && s.frames[g].control.Running?
    ensures exists rank: real :: IsOrdered(s, SpawnTask(Body(g), rank))
  {
    var rank := RankAbove(s, g, |s.frames|);
    assert IsOrdered(s, SpawnTask(Body(g), rank));
  }

  lemma RankAboveAll(s: State, n: nat) returns (rank: real)
    requires n <= |s.frames|
    ensures forall x | 0 <= x < n :: s.frames[x].rank < rank
  {
    rank := 0.0;
    for i := 0 to n
      invariant forall x | 0 <= x < i :: s.frames[x].rank < rank
    {
      if rank <= s.frames[i].rank {
        rank := s.frames[i].rank + 1.0;
      }
    }
  }

  /** So can code outside all bodies, and `sync_wait` can always make its runner. */
  lemma SpawnOutsideCanBeOrdered(s: State, work: FrameId)
    ensures exists rank: real :: IsOrdered(s, SpawnTask(External, rank))
    ensures work < |s.frames| && s.frames[work].handle == Held(External) ==>
              exists rank: real :: IsOrdered(s, SpawnRunner(work, rank))
  {
    var rank := RankAboveAll(s, |s.frames|);
    assert IsOrdered(s, SpawnTask(External, rank));
    if work < |s.frames| && s.frames[work].handle == Held(External) {
      assert IsOrdered(s, SpawnRunner(work, rank));
    }
  }

  // ---------------------------------------------------------------------------
  // Single steps.
  // ---------------------------------------------------------------------------

  /** Every step keeps the invariant. */
  lemma StepKeepsInv(s: State, step: Step)
    requires Inv(s) && Enabled(s, step) && InRange(s, step)
    ensures Inv(Apply(s, step))
  {
    match step
    case SpawnTask(creator, rank) => KeepsSpawnTask(s, creator, rank);
    case SpawnRunner(work, rank) => KeepsSpawnRunner(s, work, rank);
    case Give(x, d) => KeepsGive(s, x, d);
    case ReturnCall(d) => KeepsReturnCall(s, d);
    case HandOut(x) => KeepsHandOut(s, x);
    case Adopt(x, g) => KeepsAdopt(s, x, g);
    case Submit(f) => KeepsSubmit(s, f);
    case CheckReady(f, p) => KeepsCheckReady(s, f, p);
    case Detach(f) => KeepsDetach(s, f);
    case Publish(f) => KeepsPublish(s, f);
    case Reacquire(f) => KeepsReacquire(s, f);
    case Take(f) => KeepsTake(s, f);
    case Return(f) => KeepsReturn(s, f);
    case FinalExchange(f) => KeepsFinalExchange(s, f);
    case Transfer(f) => KeepsTransfer(s, f);
    case Park(f) => KeepsPark(s, f);
    case EndRunner(f) => KeepsEndRunner(s, f);
    case Populate(o) => KeepsPopulate(s, o);
    case Deliver(o) => KeepsDeliver(s, o);
    case Activate(o) => KeepsActivate(s, o);
    case ReleaseNext(o) => KeepsReleaseNext(s, o);
    case Reclaim(o) => KeepsReclaim(s, o);
    case DropExchange(x) => KeepsDropExchange(s, x);
    case DropRequest(x) => KeepsDropRequest(s, x);
    case DropDestroy(x) => KeepsDropDestroy(s, x);
  }

  lemma KeepsPublish(s: State, f: FrameId)
    requires Inv(s) && f < |s.frames| && s.frames[f].control.Publishing? && CanPublish(s, f)
    ensures Inv(DoPublish(s, f))
  {
    if s.frames[f].control.target.Task? {
      KeepsPublishTask(s, f);
    } else if !Suspends(s, s.frames[f].control.target) {
      KeepsPublishLeafInline(s, f);
    } else if s.frames[f].control.site.On? {
      KeepsPublishLeafOn(s, f);
    } else {
      KeepsPublishLeafEager(s, f);
    }
  }

  /** Steps that neither create frames nor move task objects into frames. */
  predicate MovesNoTask(step: Step) {
    !step.SpawnTask? && !step.SpawnRunner? && !step.Give? && !step.Adopt? && !step.ReturnCall?
  }

  predicate WorkerStep(step: Step) {
    step.Populate? || step.Deliver? || step.Activate? || step.ReleaseNext? || step.Reclaim?
  }

  predicate DropStep(step: Step) {
    step.DropExchange? || step.DropRequest? || step.DropDestroy? || step.HandOut?
  }

  predicate AwaitStep(step: Step) {
    step.CheckReady? || step.Detach? || step.Publish? || step.Take?
  }

  ghost predicate RanksFixed(s: State, s': State) {
    && |s'.frames| == |s.frames|
    && forall x | 0 <= x < |s.frames| ::
         && s'.frames[x].rank == s.frames[x].rank
         && (s'.frames[x].handle == s.frames[x].handle
             || !(s'.frames[x].handle.Unborn? || (s'.frames[x].handle.Held? && s'.frames[x].handle.holder.Body?)))
  }

  lemma WorkerStepFixesRanks(s: State, step: Step)
    requires Enabled(s, step) && InRange(s, step) && WorkerStep(step)
    ensures RanksFixed(s, Apply(s, step))
  {
  }

  lemma DropStepFixesRanks(s: State, step: Step)
    requires Enabled(s, step) && InRange(s, step) && DropStep(step)
    ensures RanksFixed(s, Apply(s, step))
  {
  }

  lemma PublishFixesRanks(s: State, f: FrameId)
    requires f < |s.frames| && s.frames[f].control.Publishing? && CanPublish(s, f)
    ensures RanksFixed(s, DoPublish(s, f))
  {
  }

  lemma AwaitStepFixesRanks(s: State, step: Step)
    requires Enabled(s, step) && InRange(s, step) && AwaitStep(step)
    ensures RanksFixed(s, Apply(s, step))
  {
    if step.Publish? {
      PublishFixesRanks(s, step.frame);
    }
  }

  lemma BodyStepFixesRanks(s: State, step: Step)
    requires Enabled(s, step) && InRange(s, step) && MovesNoTask(step)
    requires !WorkerStep(step) && !DropStep(step) && !AwaitStep(step)
    ensures RanksFixed(s, Apply(s, step))
  {
    if step.FinalExchange? || step.Park? || step.EndRunner? {
      EndStepFixesRanks(s, step);
    }
  }

  lemma EndStepFixesRanks(s: State, step: Step)
    requires Enabled(s, step) && InRange(s, step) && (step.FinalExchange? || step.Park? || step.EndRunner?)
    ensures RanksFixed(s, Apply(s, step))
  {
  }

  lemma StepKeepsRanks(s: State, step: Step)
    requires Inv(s) && RankInv(s) && Enabled(s, step) && InRange(s, step) && Ordered(s, step)
    ensures RankInv(Apply(s, step))
  {
    if MovesNoTask(step) {
      if WorkerStep(step) {
        WorkerStepFixesRanks(s, step);
      } else if DropStep(step) {
        DropStepFixesRanks(s, step);
      } else if AwaitStep(step) {
        AwaitStepFixesRanks(s, step);
      } else {
        BodyStepFixesRanks(s, step);
      }
      KeepRanks(s, Apply(s, step));
    } else {
      match step
      case SpawnTask(creator, rank) => SpawnTaskKeepsRanks(s, creator, rank);
      case SpawnRunner(work, rank) => SpawnRunnerKeepsRanks(s, work, rank);
      case Give(x, d) => GiveKeepsRanks(s, x, d);
      case Adopt(x, g) => AdoptKeepsRanks(s, x, g);
      case ReturnCall(d) => ReturnCallKeepsRanks(s, d);
    }
  }

  /** The frames whose memory a step reads or writes. */
  ghost function Touches(s: State, step: Step): set<FrameId>
    requires Enabled(s, step)
  {
    match step
    case SpawnTask(creator, _) => if creator.Body? then {creator.frame} else {}
    case SpawnRunner(_, _) => {}
    case Give(_, d) => {d}
    case ReturnCall(d) => if s.frames[d].handle.creator.Body? then {s.frames[d].handle.creator.frame} else {}
    case HandOut(x) => {s.frames[x].handle.holder.frame}
    case Adopt(_, g) => {g}
    case CheckReady(f, p) => {f, p}
    case Publish(f) => {f} + (if s.frames[f].control.target.Task? then {s.frames[f].control.target.frame} else {})
    case Take(f) => {f} + (if s.frames[f].control.target.Task? then {s.frames[f].control.target.frame} else {})
    case Transfer(f) => {f} + (if s.frames[f].continuation.Some? then {s.frames[f].continuation.value} else {})
    case Submit(f) => {f}
    case Detach(f) => {f}
    case Reacquire(f) => {f}
    case Return(f) => {f}
    case FinalExchange(f) => {f}
    case Park(f) => {f}
    case EndRunner(f) => {f}
    case Populate(_) => {}
    case Deliver(_) => {}
    case Activate(o) => {s.ops[o].continuation}
    case ReleaseNext(o) => if s.ops[o].head.Some? then {s.ops[o].head.value} else {}
    case Reclaim(o) => {s.ops[o].control.frame}
    case DropExchange(x) => {x}
    case DropRequest(x) => {x}
    case DropDestroy(x) => {x}
  }

  /** The assertions in `activate_resume` and `release_resume_before_suspend`. */
  ghost predicate AssertionsHold(s: State, step: Step)
    requires Enabled(s, step) && InRange(s, step)
  {
    match step
    case Detach(f) =>
      s.frames[f].active.Some? ==> s.ops[s.frames[f].active.value].head == Some(f) && s.frames[f].owner == Resuming
    case Reacquire(f) => s.frames[f].owner == Inactive
    case Transfer(f) => s.frames[f].activator ==> s.frames[s.frames[f].continuation.value].owner == Inactive
    case Activate(o) => s.frames[s.ops[o].continuation].owner == Inactive
    case _ => true
  }

  /** A resumption resumes the frame that is suspended on exactly this event, and what a body takes after an
      await has been stored. */
  ghost predicate WakesAndReadsRight(s: State, step: Step)
    requires Enabled(s, step) && InRange(s, step)
  {
    match step
    case Transfer(f) => s.frames[s.frames[f].continuation.value].control == Suspended(Task(f)) && s.frames[f].value
    case Activate(o) => s.frames[s.ops[o].continuation].control == Suspended(Leaf(o)) && s.ops[o].outcome
    case Take(f) =>
      (match s.frames[f].control.target
       case Leaf(o) => o < |s.ops| && s.ops[o].outcome
       case Task(p) => p < |s.frames| && s.frames[p].value)
    case _ => true
  }

  /** The contexts on workers' stacks that a step reads or writes: its own worker's, or the one it runs on. */
  ghost function Contexts(s: State, step: Step): set<OpId>
    requires Enabled(s, step)
  {
    match step
    case Detach(f) => if s.frames[f].active.Some? then {s.frames[f].active.value} else {}
    case Reacquire(f) => if s.frames[f].control.site.On? then {s.frames[f].control.site.worker} else {}
    case Transfer(f) => if s.frames[f].active.Some? then {s.frames[f].active.value} else {}
    case Activate(o) => {o}
    case ReleaseNext(o) => {o}
    case _ => {}
  }

  /** A worker's context exists from when `deliver` has seen that the body suspended until it has released it. */
  ghost predicate ContextExists(s: State, o: OpId) {
    o < |s.ops| && (s.ops[o].control.Activating? || s.ops[o].control.Driving? || s.ops[o].control.Releasing? || s.ops[o].control.Reclaiming?)
  }

  ghost predicate Alive(s: State, f: FrameId) {
    f < |s.frames| && s.frames[f].destroyed == 0
  }

  ghost predicate SafeStep(s: State, step: Step) {
    Enabled(s, step) ==>
      && InRange(s, step)
      && (forall f | f in Touches(s, step) :: Alive(s, f))
      && (forall o | o in Contexts(s, step) :: ContextExists(s, o))
      && AssertionsHold(s, step)
      && WakesAndReadsRight(s, step)
  }

  lemma DropStepIsSafe(s: State, step: Step)
    requires Inv(s) && DropStep(step)
    ensures SafeStep(s, step)
  {
    if Enabled(s, step) {
      assert FrameInv(s, step.task);
      if step.HandOut? {
        assert FrameInv(s, s.frames[step.task].handle.holder.frame);
      }
    }
  }

  lemma WorkerStepIsSafe(s: State, step: Step)
    requires Inv(s) && WorkerStep(step)
    ensures SafeStep(s, step)
  {
    if Enabled(s, step) {
      match step
      case Populate(o) =>
      case Deliver(o) =>
      case Activate(o) => assert OpInv(s, o) && FrameInv(s, s.ops[o].continuation);
      case ReleaseNext(o) =>
        assert OpInv(s, o);
        if s.ops[o].head.Some? {
          assert ChainCell(s, o, 0);
          assert FrameInv(s, s.ops[o].head.value);
        }
      case Reclaim(o) => assert OpInv(s, o) && FrameInv(s, s.ops[o].control.frame);
    }
  }

  lemma AwaitStepIsSafe(s: State, step: Step)
    requires Inv(s) && AwaitStep(step)
    ensures SafeStep(s, step)
  {
    if Enabled(s, step) {
      match step
      case CheckReady(f, p) => assert FrameInv(s, f) && FrameInv(s, p);
      case Detach(f) =>
        assert FrameInv(s, f);
        if s.frames[f].active.Some? {
          assert OpInv(s, s.frames[f].active.value);
          HeadIsCurrent(s, f);
        }
      case Publish(f) =>
        assert FrameInv(s, f);
        if s.frames[f].control.target.Task? {
          assert FrameInv(s, s.frames[f].control.target.frame);
        }
      case Take(f) =>
        assert FrameInv(s, f);
        if s.frames[f].control.target.Task? {
          assert FrameInv(s, s.frames[f].control.target.frame);
        }
    }
  }

  lemma CallStepIsSafe(s: State, step: Step)
    requires Inv(s) && (step.SpawnTask? || step.SpawnRunner? || step.Give? || step.Adopt? || step.ReturnCall?)
    ensures SafeStep(s, step)
  {
    if Enabled(s, step) {
      match step
      case SpawnTask(creator, rank) => if creator.Body? { assert FrameInv(s, creator.frame); }
      case SpawnRunner(work, rank) =>
      case Give(x, d) => assert FrameInv(s, d);
      case Adopt(x, g) => assert FrameInv(s, g);
      case ReturnCall(d) =>
        assert FrameInv(s, d);
        if s.frames[d].handle.creator.Body? {
          assert FrameInv(s, s.frames[d].handle.creator.frame);
        }
    }
  }

  lemma BodyStepIsSafe(s: State, step: Step)
    requires Inv(s)
    requires step.Submit? || step.Reacquire? || step.Return? || step.FinalExchange? || step.Transfer? || step.Park? || step.EndRunner?
    ensures SafeStep(s, step)
  {
    if Enabled(s, step) {
      assert FrameInv(s, step.frame);
      if step.Transfer? {
        assert FrameInv(s, s.frames[step.frame].continuation.value);
      }
    }
  }

  /** No step is undefined, none touches a destroyed frame or a context that is gone, and every assertion holds. */
  lemma StepIsSafe(s: State, step: Step)
    requires Inv(s)
    ensures SafeStep(s, step)
  {
    if WorkerStep(step) {
      WorkerStepIsSafe(s, step);
    } else if DropStep(step) {
      DropStepIsSafe(s, step);
    } else if AwaitStep(step) {
      AwaitStepIsSafe(s, step);
    } else if step.SpawnTask? || step.SpawnRunner? || step.Give? || step.Adopt? || step.ReturnCall? {
      CallStepIsSafe(s, step);
    } else {
      BodyStepIsSafe(s, step);
    }
  }

  /** Steps change the memory of the frames they touch and of no others (a task object, which names a frame,
      lives outside it). */
  lemma UntouchedIsUnchanged(s: State, step: Step, x: FrameId)
    requires Enabled(s, step) && InRange(s, step) && x < |s.frames| && x !in Touches(s, step)
    ensures x < |Apply(s, step).frames|
    ensures Apply(s, step).frames[x].(handle := s.frames[x].handle) == s.frames[x]
  {
    if ByBody(step) {
      UntouchedByBody(s, step, x);
    }
  }

  predicate ByBody(step: Step) {
    step.CheckReady? || step.Detach? || step.Publish? || step.Reacquire? || step.Take?
    || step.Return? || step.FinalExchange? || step.Transfer? || step.Park? || step.EndRunner?
  }

  lemma UntouchedByBody(s: State, step: Step, x: FrameId)
    requires ByBody(step)
    requires Enabled(s, step) && InRange(s, step) && x < |s.frames| && x !in Touches(s, step)
    ensures x < |Apply(s, step).frames|
    ensures Apply(s, step).frames[x].(handle := s.frames[x].handle) == s.frames[x]
  {
  }

  // ---------------------------------------------------------------------------
  // Whole runs.
  // ---------------------------------------------------------------------------

  /** A run: every step was enabled. A step that is not `InRange` would be undefined behaviour, and leave
      anything behind. */
  ghost predicate IsRun(states: seq<State>, steps: seq<Step>) {
    && |states| == |steps| + 1
    && states[0] == InitialState
    && forall i | 0 <= i < |steps| :: IsStep(states[i], steps[i], states[i + 1])
  }

  ghost predicate IsStep(s: State, step: Step, s': State) {
    Enabled(s, step) && (InRange(s, step) ==> s' == Apply(s, step))
  }

  lemma {:induction false} RunKeepsInv(states: seq<State>, steps: seq<Step>, i: nat)
    requires IsRun(states, steps) && i < |states|
    ensures Inv(states[i])
  {
    if i > 0 {
      RunKeepsInv(states, steps, i - 1);
      assert IsStep(states[i - 1], steps[i - 1], states[i]);
      StepIsSafe(states[i - 1], steps[i - 1]);
      StepKeepsInv(states[i - 1], steps[i - 1]);
    }
  }

  /** A run in which bodies take in tasks from outside only in order of rank, if at all. */
  ghost predicate IsOrderedRun(states: seq<State>, steps: seq<Step>) {
    IsRun(states, steps) && forall i | 0 <= i < |steps| :: IsOrdered(states[i], steps[i])
  }

  lemma {:induction false} RunKeepsRanks(states: seq<State>, steps: seq<Step>, i: nat)
    requires IsOrderedRun(states, steps) && i < |states|
    ensures RankInv(states[i])
  {
    if i > 0 {
      RunKeepsRanks(states, steps, i - 1);
      RunKeepsInv(states, steps, i - 1);
      assert IsStep(states[i - 1], steps[i - 1], states[i]);
      assert IsOrdered(states[i - 1], steps[i - 1]);
      StepIsSafe(states[i - 1], steps[i - 1]);
      StepKeepsRanks(states[i - 1], steps[i - 1]);
    }
  }

  /** In every run, every step that can happen next is safe: it is defined, touches only living frames, meets
      the ownership assertions, and wakes and reads what it should. */
  lemma NoUseAfterDestroy(states: seq<State>, steps: seq<Step>, i: nat, step: Step)
    requires IsRun(states, steps) && i < |states|
    ensures SafeStep(states[i], step)
  {
    RunKeepsInv(states, steps, i);
    StepIsSafe(states[i], step);
  }

  /** No worker has the frame in its unwind chain, or is about to destroy it. */
  ghost predicate LetGo(s: State, f: FrameId) {
    forall o | 0 <= o < |s.ops| :: f !in s.ops[o].chain && s.ops[o].control != Reclaiming(f)
  }

  /** A task frame is destroyed at most once, and it has been destroyed exactly when its body has finished, its
      task object is gone and every worker has let go of it. */
  lemma DestroyedExactlyOnce(states: seq<State>, steps: seq<Step>, i: nat, f: FrameId)
    requires IsRun(states, steps) && i < |states| && f < |states[i].frames|
    ensures states[i].frames[f].destroyed <= 1
    ensures states[i].frames[f].tracked ==>
              (states[i].frames[f].destroyed == 1 <==>
               states[i].frames[f].control.Finished? && states[i].frames[f].handle.Gone? && LetGo(states[i], f))
  {
    RunKeepsInv(states, steps, i);
    var s := states[i];
    assert FrameInv(s, f);
    if s.frames[f].tracked && s.frames[f].destroyed == 1 {
      forall o | 0 <= o < |s.ops| ensures f !in s.ops[o].chain && s.ops[o].control != Reclaiming(f) {
        assert OpInv(s, o);
        NotInChain(s, f, o);
      }
    }
  }

  /** Once destroyed, always destroyed: the count never moves again. */
  lemma DestroyedForGood(states: seq<State>, steps: seq<Step>, i: nat, f: FrameId)
    requires IsRun(states, steps) && i < |steps| && f < |states[i].frames|
    requires states[i].frames[f].destroyed == 1
    ensures f < |states[i + 1].frames| && states[i + 1].frames[f].(handle := states[i].frames[f].handle) == states[i].frames[f]
  {
    NoUseAfterDestroy(states, steps, i, steps[i]);
    assert IsStep(states[i], steps[i], states[i + 1]);
    UntouchedIsUnchanged(states[i], steps[i], f);
  }

  /** Suspensions and resumptions alternate: every suspension is resumed at most once, and a frame is suspended
      exactly while one of its suspensions has not been resumed. */
  lemma ResumedExactlyOnce(states: seq<State>, steps: seq<Step>, i: nat, f: FrameId)
    requires IsRun(states, steps) && i < |states| && f < |states[i].frames|
    ensures var t := states[i].frames[f];
            t.suspensions == t.resumptions + (if t.control.Suspended? then 1 else 0)
  {
    RunKeepsInv(states, steps, i);
    assert FrameInv(states[i], f);
  }
}
