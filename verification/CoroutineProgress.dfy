/**
  * Liveness of the coroutine protocol. Steps the machine takes on its own cannot go on for ever, and when none is left
  * nothing has leaked and every body has finished, unless bodies wait for each other in a circle.
  */
module CoroutineProgress {
  import opened Basics
  import opened Coroutine
  import opened CoroutineInvariant
  import opened CoroutineSafety

  // ---------------------------------------------------------------------------
  // What the machine can always do.
  // ---------------------------------------------------------------------------

  ghost predicate Unfinished(s: State, f: FrameId) {
    f < |s.frames| && !s.frames[f].control.Finished?
  }

  /** The task object is a member of a frame that has been destroyed, so that its destructor is due. */
  predicate HeldByDestroyed(s: State, h: Handle) {
    h.Held? && h.holder.Body? && h.holder.frame < |s.frames| && s.frames[h.holder.frame].destroyed > 0
  }

  /** Steps that the machine takes on its own, whatever user code chooses to do next. A running body can always
      choose to return, and destroying a frame destroys the task objects in it. */
  predicate Internal(s: State, step: Step) {
    match step
    case SpawnTask(_, _) => false
    case SpawnRunner(_, _) => false
    case Give(_, _) => false
    case HandOut(_) => false
    case Adopt(_, _) => false
    case Submit(_) => false
    case CheckReady(_, _) => false
    case DropExchange(x) => x < |s.frames| && HeldByDestroyed(s, s.frames[x].handle)
    case _ => true
  }

  ghost predicate CanProceed(s: State) {
    exists step: Step :: Internal(s, step) && Enabled(s, step)
  }

  lemma Proceeds(s: State, step: Step)
    requires Internal(s, step) && Enabled(s, step)
    ensures CanProceed(s)
  {
  }

  /** A body on a stack can take its next step, unless it is blocked in an eager call. */
  lemma OnStackProceeds(s: State, f: FrameId)
    requires f < |s.frames| && OnStack(s.frames[f].control) && !s.frames[f].control.Spawning?
    ensures CanProceed(s)
  {
    match s.frames[f].control
    case Running(_) => Proceeds(s, if s.frames[f].tracked then Return(f) else EndRunner(f));
    case Preparing(_, _) => Proceeds(s, Detach(f));
    case Publishing(_, _) => Proceeds(s, Publish(f));
    case Reacquiring(_, _) => Proceeds(s, Reacquire(f));
    case Reading(_, _) => Proceeds(s, Take(f));
    case Returned(_) => Proceeds(s, FinalExchange(f));
    case Transferring(_) => Proceeds(s, Transfer(f));
    case Parking(_) => Proceeds(s, Park(f));
  }

  /** Whoever is blocked in an eager call, the innermost callee can proceed, or its call can return. */
  lemma {:induction false} StackProceeds(s: State, f: FrameId)
    requires Inv(s) && f < |s.frames| && OnStack(s.frames[f].control)
    ensures CanProceed(s)
    decreases |s.frames| - f
  {
    if s.frames[f].control.Spawning? {
      var d := s.frames[f].control.child;
      assert FrameInv(s, f);
      if OnStack(s.frames[d].control) && s.frames[d].control.site.Eager? {
        StackProceeds(s, d);
      } else {
        Proceeds(s, ReturnCall(d));
      }
    } else {
      OnStackProceeds(s, f);
    }
  }

  /** A body that waits for a callback: the callback can proceed. */
  lemma LeafProceeds(s: State, f: FrameId)
    requires FrameInv(s, f) && s.frames[f].control.Suspended? && s.frames[f].control.target.Leaf?
    ensures CanProceed(s)
  {
    var o := s.frames[f].control.target.op;
    if s.ops[o].control.Pending? {
      Proceeds(s, Populate(o));
    } else if s.ops[o].control.Populated? {
      Proceeds(s, Deliver(o));
    } else {
      Proceeds(s, Activate(o));
    }
  }

  lemma WorkerProceeds(s: State, w: OpId)
    requires Inv(s) && w < |s.ops| && !s.ops[w].control.Retired?
    ensures CanProceed(s)
  {
    match s.ops[w].control
    case Pending => Proceeds(s, Populate(w));
    case Populated => Proceeds(s, Deliver(w));
    case Activating => Proceeds(s, Activate(w));
    case Driving(g) =>
      assert OpInv(s, w);
      StackProceeds(s, g);
    case Releasing => Proceeds(s, ReleaseNext(w));
    case Reclaiming(_) => Proceeds(s, Reclaim(w));
  }

  lemma DropProceeds(s: State, f: FrameId)
    requires f < |s.frames|
    requires s.frames[f].handle.Requesting? || s.frames[f].handle.Destroying? || HeldByDestroyed(s, s.frames[f].handle)
    ensures CanProceed(s)
  {
    match s.frames[f].handle
    case Requesting => Proceeds(s, DropRequest(f));
    case Destroying => Proceeds(s, DropDestroy(f));
    case Held(_) => Proceeds(s, DropExchange(f));
  }

  // ---------------------------------------------------------------------------
  // Knots: bodies that wait for each other in a circle.
  // ---------------------------------------------------------------------------

  ghost predicate WaitsIn(s: State, f: FrameId, W: set<FrameId>) {
    && f < |s.frames| && s.frames[f].control.Suspended? && s.frames[f].control.target.Task?
    && s.frames[f].control.target.frame in W
  }

  /** Each of these bodies waits for another of them. */
  ghost predicate Knot(s: State, W: set<FrameId>) {
    W != {} && forall f {:trigger WaitsIn(s, f, W)} | f in W :: WaitsIn(s, f, W)
  }

  ghost function AllUnfinished(s: State): set<FrameId> {
    set f: FrameId | f < |s.frames| && !s.frames[f].control.Finished?
  }

  /** When nothing can proceed an unfinished body waits for an unfinished body. */
  lemma StuckWaits(s: State, f: FrameId)
    requires Inv(s) && !CanProceed(s) && Unfinished(s, f)
    ensures WaitsIn(s, f, AllUnfinished(s))
  {
    assert FrameInv(s, f);
    if OnStack(s.frames[f].control) {
      StackProceeds(s, f);
    } else if s.frames[f].control.target.Leaf? {
      LeafProceeds(s, f);
    } else {
      assert FrameInv(s, s.frames[f].control.target.frame);
    }
  }

  /** In every run, when no step is left that the machine could take on its own, a body is unfinished if and only if it
      is in a knot: no wakeup is lost. */
  lemma UnfinishedExactly(states: seq<State>, steps: seq<Step>, i: nat, f: FrameId)
    requires IsRun(states, steps) && i < |states| && !CanProceed(states[i])
    ensures Unfinished(states[i], f) <==> exists W :: f in W && Knot(states[i], W)
  {
    var s := states[i];
    RunKeepsInv(states, steps, i);
    if Unfinished(s, f) {
      var W := AllUnfinished(s);
      forall g | g in W ensures WaitsIn(s, g, W) {
        StuckWaits(s, g);
      }
      assert f in W && Knot(s, W);
    }
    forall W | f in W && Knot(s, W) ensures Unfinished(s, f) {
      KnottedIsUnfinished(s, f, W);
    }
  }

  lemma KnottedIsUnfinished(s: State, f: FrameId, W: set<FrameId>)
    requires f in W && Knot(s, W)
    ensures Unfinished(s, f)
  {
    assert WaitsIn(s, f, W);
  }

  lemma LowestOf(s: State, W: set<FrameId>) returns (m: FrameId)
    requires W != {} && forall f | f in W :: f < |s.frames|
    ensures m in W && forall f | f in W :: s.frames[m].rank <= s.frames[f].rank
  {
    var left := W;
    m :| m in W;
    while left != {}
      invariant left <= W && m in W
      invariant forall f | f in W && f !in left :: s.frames[m].rank <= s.frames[f].rank
      decreases left
    {
      var f :| f in left;
      left := left - {f};
      if s.frames[f].rank < s.frames[m].rank {
        m := f;
      }
    }
  }

  /** Where waiting follows the order of ranks there is no knot. */
  lemma OrderHasNoKnot(s: State, W: set<FrameId>)
    requires Inv(s) && RankInv(s)
    ensures !Knot(s, W)
  {
    if Knot(s, W) {
      forall f | f in W ensures f < |s.frames| {
        KnottedIsUnfinished(s, f, W);
      }
      var m := LowestOf(s, W);
      WaitsBelow(s, m, W);
    }
  }

  lemma WaitsBelow(s: State, f: FrameId, W: set<FrameId>)
    requires Inv(s) && RankInv(s) && WaitsIn(s, f, W)
    ensures var p := s.frames[f].control.target.frame; p < |s.frames| && s.frames[p].rank < s.frames[f].rank
  {
    assert FrameInv(s, f);
    assert RankLink(s, s.frames[f].control.target.frame);
  }

  /** No lost wakeup and no deadlock: while any frame is unfinished, some step can happen, in every run in which bodies
      take in tasks from outside in order of rank, if at all. */
  lemma NoLostWakeup(states: seq<State>, steps: seq<Step>, i: nat, f: FrameId)
    requires IsOrderedRun(states, steps) && i < |states| && Unfinished(states[i], f)
    ensures CanProceed(states[i])
  {
    if !CanProceed(states[i]) {
      UnfinishedExactly(states, steps, i, f);
      var W :| f in W && Knot(states[i], W);
      RunKeepsInv(states, steps, i);
      RunKeepsRanks(states, steps, i);
      OrderHasNoKnot(states[i], W);
    }
  }

  /** When nothing is left to do, in any run: the finished frames that have been destroyed are exactly those whose task
      objects are gone, each destroyed once; and no task object is left in a destroyed frame, so nothing leaks. */
  lemma QuietMeansClean(states: seq<State>, steps: seq<Step>, i: nat, f: FrameId)
    requires IsRun(states, steps) && i < |states| && f < |states[i].frames| && !CanProceed(states[i])
    ensures var t := states[i].frames[f];
            && !HeldByDestroyed(states[i], t.handle) && !t.handle.Requesting? && !t.handle.Destroying?
            && (t.control.Finished? ==> t.destroyed == (if t.handle.Gone? then 1 else 0) && t.suspensions == t.resumptions)
  {
    var s := states[i];
    RunKeepsInv(states, steps, i);
    assert FrameInv(s, f);
    if s.frames[f].handle.Requesting? || s.frames[f].handle.Destroying? || HeldByDestroyed(s, s.frames[f].handle) {
      DropProceeds(s, f);
    } else if s.frames[f].control.Finished? {
      if s.frames[f].active.Some? {
        assert OpInv(s, s.frames[f].active.value);
        if !s.ops[s.frames[f].active.value].control.Retired? {
          WorkerProceeds(s, s.frames[f].active.value);
        }
      } else if s.frames[f].reclaimer.Some? {
        WorkerProceeds(s, s.frames[f].reclaimer.value);
      }
    }
  }

  /** In an ordered run every body has finished by then. */
  lemma QuietMeansFinished(states: seq<State>, steps: seq<Step>, i: nat, f: FrameId)
    requires IsOrderedRun(states, steps) && i < |states| && f < |states[i].frames| && !CanProceed(states[i])
    ensures states[i].frames[f].control.Finished?
  {
    if Unfinished(states[i], f) {
      NoLostWakeup(states, steps, i, f);
    }
  }

  // ---------------------------------------------------------------------------
  // A knot is never undone.
  // ---------------------------------------------------------------------------

  /** Only its own wakeup moves a suspended body. */
  predicate Wakes(s: State, step: Step, f: FrameId) {
    || (step.Transfer? && step.frame < |s.frames| && s.frames[step.frame].continuation == Some(f))
    || (step.Activate? && step.op < |s.ops| && s.ops[step.op].continuation == f)
  }

  lemma SuspendedStays(s: State, step: Step, f: FrameId)
    requires Inv(s) && Enabled(s, step) && InRange(s, step)
    requires f < |s.frames| && s.frames[f].control.Suspended? && !Wakes(s, step, f)
    ensures f < |Apply(s, step).frames| && Apply(s, step).frames[f].control == s.frames[f].control
  {
    if f !in Touches(s, step) {
      UntouchedIsUnchanged(s, step, f);
    } else if ByBody(step) {
      BodyLeavesSuspended(s, step, f);
    }
  }

  lemma BodyLeavesSuspended(s: State, step: Step, f: FrameId)
    requires Inv(s) && Enabled(s, step) && InRange(s, step) && ByBody(step)
    requires f < |s.frames| && s.frames[f].control.Suspended? && !Wakes(s, step, f)
    ensures f < |Apply(s, step).frames| && Apply(s, step).frames[f].control == s.frames[f].control
  {
  }

  lemma KnotStays(s: State, step: Step, W: set<FrameId>)
    requires Inv(s) && Enabled(s, step) && InRange(s, step) && Knot(s, W)
    ensures Knot(Apply(s, step), W)
  {
    forall f | f in W ensures WaitsIn(Apply(s, step), f, W) {
      assert WaitsIn(s, f, W);
      KnotIsNotWoken(s, step, f, W);
      SuspendedStays(s, step, f);
    }
  }

  lemma KnotIsNotWoken(s: State, step: Step, f: FrameId, W: set<FrameId>)
    requires Inv(s) && Enabled(s, step) && InRange(s, step) && Knot(s, W) && WaitsIn(s, f, W)
    ensures !Wakes(s, step, f)
  {
    StepIsSafe(s, step);
    if step.Transfer? {
      assert step.frame in W ==> WaitsIn(s, step.frame, W);
    }
  }

  /** Bodies that wait for each other in a circle do so for the rest of the run. */
  lemma {:induction false} KnotIsForever(states: seq<State>, steps: seq<Step>, i: nat, j: nat, W: set<FrameId>)
    requires IsRun(states, steps) && i <= j < |states| && Knot(states[i], W)
    ensures Knot(states[j], W)
    decreases j
  {
    if i < j {
      var s, step := states[j - 1], steps[j - 1];
      KnotIsForever(states, steps, i, j - 1, W);
      RunKeepsInv(states, steps, j - 1);
      assert IsStep(s, step, states[j]);
      StepIsSafe(s, step);
      assert states[j] == Apply(s, step);
      KnotStays(s, step, W);
    }
  }

  // ---------------------------------------------------------------------------
  // Internal steps run out.
  // ---------------------------------------------------------------------------

  function ControlWork(c: Control): nat {
    match c
    case Finished => 0
    case Parking(_) => 1
    case Transferring(_) => 1
    case Returned(_) => 2
    case Running(_) => 3
    case Reading(_, _) => 4
    case Spawning(_, _) => 4
    case Reacquiring(_, _) => 7
    case Suspended(_) => 8
    case Publishing(_, _) => 9
    case Preparing(_, _) => 10
  }

  function HandleWork(h: Handle): nat {
    match h
    case Unborn(_) => 4
    case Held(_) => 3
    case Requesting => 2
    case Destroying => 1
    case Gone => 0
  }

  function FrameWork(t: Frame): nat {
    ControlWork(t.control) + HandleWork(t.handle)
  }

  function OpWork(op: Op): nat {
    2 * |op.chain| +
    match op.control
    case Retired => 0
    case Releasing => 1
    case Reclaiming(_) => 2
    case Driving(_) => 2
    case Activating => 4
    case Populated => 5
    case Pending => 6
  }

  function FramesWork(frames: seq<Frame>): nat {
    if |frames| == 0 then 0 else FramesWork(frames[..|frames| - 1]) + FrameWork(frames[|frames| - 1])
  }

  function OpsWork(ops: seq<Op>): nat {
    if |ops| == 0 then 0 else OpsWork(ops[..|ops| - 1]) + OpWork(ops[|ops| - 1])
  }

  /** A bound on the number of internal steps still to come. */
  function Work(s: State): nat {
    FramesWork(s.frames) + OpsWork(s.ops)
  }

  lemma {:induction false} FramesWorkUpdate(frames: seq<Frame>, f: FrameId, t: Frame)
    requires f < |frames|
    ensures FramesWork(frames[f := t]) == FramesWork(frames) - FrameWork(frames[f]) + FrameWork(t)
  {
    var n := |frames| - 1;
    if f == n {
      assert frames[f := t][..n] == frames[..n];
    } else {
      FramesWorkUpdate(frames[..n], f, t);
      assert frames[f := t][..n] == frames[..n][f := t];
    }
  }

  lemma {:induction false} OpsWorkUpdate(ops: seq<Op>, o: OpId, op: Op)
    requires o < |ops|
    ensures OpsWork(ops[o := op]) == OpsWork(ops) - OpWork(ops[o]) + OpWork(op)
  {
    var n := |ops| - 1;
    if o == n {
      assert ops[o := op][..n] == ops[..n];
    } else {
      OpsWorkUpdate(ops[..n], o, op);
      assert ops[o := op][..n] == ops[..n][o := op];
    }
  }

  lemma ReleaseStepWorks(s: State, step: Step)
    requires Inv(s) && Enabled(s, step) && InRange(s, step) && (step.ReleaseNext? || step.Reclaim?)
    ensures Work(Apply(s, step)) < Work(s)
  {
    var s', o := Apply(s, step), step.op;
    assert OpInv(s, o);
    OpsWorkUpdate(s.ops, o, s'.ops[o]);
    if step.Reclaim? {
      var f := s.ops[o].control.frame;
      FramesWorkUpdate(s.frames, f, s'.frames[f]);
    } else if s.ops[o].head.Some? {
      var f := s.ops[o].head.value;
      FramesWorkUpdate(s.frames, f, s'.frames[f]);
    }
  }

  lemma WorkerStepWorks(s: State, step: Step)
    requires Inv(s) && Enabled(s, step) && InRange(s, step) && WorkerStep(step)
    ensures Work(Apply(s, step)) < Work(s)
  {
    if step.ReleaseNext? || step.Reclaim? {
      ReleaseStepWorks(s, step);
    } else {
      var s', o := Apply(s, step), step.op;
      OpsWorkUpdate(s.ops, o, s'.ops[o]);
      if step.Activate? {
        var b := s.ops[o].continuation;
        FramesWorkUpdate(s.frames, b, s'.frames[b]);
      }
    }
  }

  lemma DropExchangeWorks(s: State, x: FrameId)
    requires x < |s.frames| && s.frames[x].handle.Held?
    ensures Work(DoDropExchange(s, x)) < Work(s)
  {
    FramesWorkUpdate(s.frames, x, DoDropExchange(s, x).frames[x]);
  }

  lemma DropStepWorks(s: State, step: Step)
    requires Inv(s) && Enabled(s, step) && InRange(s, step) && (step.DropRequest? || step.DropDestroy?)
    ensures Work(Apply(s, step)) < Work(s)
  {
    FramesWorkUpdate(s.frames, step.task, Apply(s, step).frames[step.task]);
  }

  lemma ReturnCallWorks(s: State, d: FrameId)
    requires Enabled(s, ReturnCall(d)) && CanReturn(s, d)
    ensures Work(DoReturnCall(s, d)) < Work(s)
  {
    var s' := DoReturnCall(s, d);
    var child := s.frames[d].(handle := Held(s.frames[d].handle.creator));
    FramesWorkUpdate(s.frames, d, child);
    if s.frames[d].handle.creator.Body? {
      var g := s.frames[d].handle.creator.frame;
      FramesWorkUpdate(s.frames[d := child], g, s'.frames[g]);
    }
  }

  lemma DetachWorks(s: State, f: FrameId)
    requires f < |s.frames| && s.frames[f].control.Preparing?
    requires s.frames[f].active.Some? ==> s.frames[f].active.value < |s.ops|
    ensures Work(DoDetach(s, f)) < Work(s)
  {
    var s' := DoDetach(s, f);
    FramesWorkUpdate(s.frames, f, s'.frames[f]);
    if s.frames[f].active.Some? {
      OpsWorkUpdate(s.ops, s.frames[f].active.value, s'.ops[s.frames[f].active.value]);
    }
  }

  /** Leaving the stack for a cheaper control point. */
  lemma LeaveWorks(s: State, f: FrameId, t: Frame, site: Site)
    requires f < |s.frames| && FrameWork(t) < FrameWork(s.frames[f])
    requires site.On? ==> site.worker < |s.ops| && s.ops[site.worker].control.Driving?
    ensures Work(LeaveStack(s, f, t, site)) < Work(s)
  {
    FramesWorkUpdate(s.frames, f, t);
    if site.On? {
      OpsWorkUpdate(s.ops, site.worker, s.ops[site.worker].(control := Releasing));
    }
  }

  lemma PublishToWorks(s: State, f: FrameId, t: Target)
    requires f < |s.frames| && (t.Leaf? ==> t.op < |s.ops|) && (t.Task? ==> t.frame < |s.frames|)
    ensures Work(PublishTo(s, f, t)) == Work(s)
  {
    var s1 := PublishTo(s, f, t);
    match t
    case Leaf(o) => OpsWorkUpdate(s.ops, o, s1.ops[o]);
    case Task(p) => FramesWorkUpdate(s.frames, p, s1.frames[p]);
  }

  /** Going on without suspending, whether or not the context has to be taken back. */
  lemma GoOnWorks(s: State, f: FrameId, c: Control)
    requires f < |s.frames| && ControlWork(c) < ControlWork(s.frames[f].control)
    ensures Work(SetFrame(s, f, s.frames[f].(control := c))) < Work(s)
  {
    FramesWorkUpdate(s.frames, f, s.frames[f].(control := c));
  }

  lemma PublishWorks(s: State, f: FrameId)
    requires FrameInv(s, f) && s.frames[f].control.Publishing? && CanPublish(s, f)
    ensures Work(DoPublish(s, f)) < Work(s)
  {
    var frame := s.frames[f];
    var site, t := frame.control.site, frame.control.target;
    var s1 := PublishTo(s, f, t);
    PublishToWorks(s, f, t);
    if Suspends(s, t) {
      LeaveWorks(s1, f, frame.(control := Suspended(t), suspensions := frame.suspensions + 1), site);
    } else {
      GoOnWorks(s1, f, DoPublish(s, f).frames[f].control);
    }
  }

  lemma TransferWorks(s: State, f: FrameId)
    requires FrameInv(s, f) && s.frames[f].control.Transferring? && CanTransfer(s, f)
    ensures Work(DoTransfer(s, f)) < Work(s)
  {
    var s' := DoTransfer(s, f);
    var w, c := s.frames[f].active.value, s.frames[f].continuation.value;
    var frames := s.frames[f := s.frames[f].(control := Finished)];
    FramesWorkUpdate(s.frames, f, frames[f]);
    FramesWorkUpdate(frames, c, s'.frames[c]);
    OpsWorkUpdate(s.ops, w, s'.ops[w]);
  }

  lemma ReacquireWorks(s: State, f: FrameId)
    requires f < |s.frames| && s.frames[f].control.Reacquiring?
    requires s.frames[f].control.site.On? && s.frames[f].control.site.worker < |s.ops|
    ensures Work(DoReacquire(s, f)) < Work(s)
  {
    var s' := DoReacquire(s, f);
    var w := s.frames[f].control.site.worker;
    FramesWorkUpdate(s.frames, f, s'.frames[f]);
    OpsWorkUpdate(s.ops, w, s'.ops[w]);
  }

  lemma FinalExchangeWorks(s: State, f: FrameId)
    requires FrameInv(s, f) && s.frames[f].control.Returned? && CanLeave(s, f)
    ensures Work(DoFinalExchange(s, f)) < Work(s)
  {
    var t := s.frames[f];
    if t.state == Awaited || t.state == Abandoned {
      FramesWorkUpdate(s.frames, f, DoFinalExchange(s, f).frames[f]);
    } else {
      LeaveWorks(s, f, t.(state := Completed, control := Finished), t.control.site);
    }
  }

  lemma BodyStepWorks(s: State, step: Step)
    requires Inv(s) && Enabled(s, step) && InRange(s, step) && (step.Take? || step.Return?)
    ensures Work(Apply(s, step)) < Work(s)
  {
    var t := s.frames[step.frame];
    FramesWorkUpdate(s.frames, step.frame, if step.Take? then t.(control := Running(t.control.site)) else t.(value := true, control := Returned(t.control.site)));
  }

  lemma LeaveStepWorks(s: State, step: Step)
    requires Inv(s) && Enabled(s, step) && InRange(s, step) && (step.Park? || step.EndRunner?)
    ensures Work(Apply(s, step)) < Work(s)
  {
    var f := step.frame;
    var t := s.frames[f];
    assert FrameInv(s, f);
    if step.Park? {
      LeaveWorks(s, f, t.(owner := RequestDeferredDestroy(t.owner), control := Finished), t.control.site);
    } else {
      LeaveWorks(s, f, t.(control := Finished, destroyed := t.destroyed + 1), t.control.site);
    }
  }

  /** Every internal step uses up work. */
  lemma InternalStepWorks(s: State, step: Step)
    requires Inv(s) && Enabled(s, step) && InRange(s, step) && Internal(s, step)
    ensures Work(Apply(s, step)) < Work(s)
  {
    if WorkerStep(step) {
      WorkerStepWorks(s, step);
    } else if step.DropExchange? {
      DropExchangeWorks(s, step.task);
    } else if step.DropRequest? || step.DropDestroy? {
      DropStepWorks(s, step);
    } else {
      match step
      case ReturnCall(d) => ReturnCallWorks(s, d);
      case Detach(f) => DetachWorks(s, f);
      case Publish(f) =>
        assert FrameInv(s, f);
        PublishWorks(s, f);
      case Transfer(f) =>
        assert FrameInv(s, f);
        TransferWorks(s, f);
      case Reacquire(f) => ReacquireWorks(s, f);
      case FinalExchange(f) =>
        assert FrameInv(s, f);
        FinalExchangeWorks(s, f);
      case Park(_) => LeaveStepWorks(s, step);
      case EndRunner(_) => LeaveStepWorks(s, step);
      case _ => BodyStepWorks(s, step);
    }
  }

  /** From any point of a run, internal steps alone come to an end, after at most `Work` of them; by
      `QuietMeansClean`, with every suspension resumed. */
  lemma {:induction false} InternalStepsRunOut(states: seq<State>, steps: seq<Step>, i: nat, j: nat)
    requires IsRun(states, steps) && i <= j < |states|
    requires forall k | i <= k < j :: Internal(states[k], steps[k])
    ensures j - i + Work(states[j]) <= Work(states[i])
  {
    if i < j {
      InternalStepsRunOut(states, steps, i, j - 1);
      RunKeepsInv(states, steps, j - 1);
      assert IsStep(states[j - 1], steps[j - 1], states[j]);
      StepIsSafe(states[j - 1], steps[j - 1]);
      InternalStepWorks(states[j - 1], steps[j - 1]);
    }
  }
}
