/**
  * The coroutine ownership protocol of the C++20 wrapper, as a transition system.
  *
  * A `Frame` is one coroutine frame: a `task<T>` body with its promise, or (when not `tracked`) the
  * fire-and-forget runner of `sync_wait`, whose promise takes no part in resume ownership.
  * An `Op` is one leaf await: the shared `awaiter_state`, the C callback that fires for it exactly once,
  * and the `resume_context` that the callback's `deliver` keeps on its stack. A worker, its context and
  * its operation therefore share one id, and there may be any number of them.
  *
  * Every step holds at most one atomic operation, together with the plain accesses next to it.
  */
module Coroutine {
  import opened Basics

  type FrameId = nat
  type OpId = nat

  /** `promise_type::state`: 0, 1, 2, 3. */
  datatype TaskState = Initial | Awaited | Completed | Abandoned

  /** `resume_ownership`. */
  datatype Ownership = Inactive | Resuming | DestroyRequested

  /** `awaiter_state::state`: 0, 1, 2. */
  datatype OpState = Fresh | Fired | Waiting

  /** What a `co_await` waits for. */
  datatype Target = Leaf(op: OpId) | Task(frame: FrameId)

  /** The native stack a body runs on: its creator's, or that of a callback worker. */
  datatype Site = Eager | On(worker: OpId)

  /** The control point of a coroutine body. */
  datatype Control =
    | Running(site: Site)                        // user code
    | Spawning(site: Site, child: FrameId)       // calling a coroutine that runs eagerly
    | Preparing(site: Site, target: Target)      // not ready: about to leave the active context
    | Publishing(site: Site, target: Target)     // about to publish the suspension
    | Reacquiring(site: Site, target: Target)    // completed inline: about to re-enter the old context
    | Suspended(target: Target)
    | Reading(site: Site, target: Target)        // about to take the outcome
    | Returned(site: Site)                       // value stored, about to reach final_suspend
    | Transferring(site: Site)                   // final_suspend saw 1
    | Parking(site: Site)                        // final_suspend saw 3
    | Finished

  datatype Party = External | Body(frame: FrameId)

  /** The life of the one `task` object that names a frame. */
  datatype Handle =
    | Unborn(creator: Party)   // the eager call has not returned it yet
    | Held(holder: Party)
    | Requesting               // ~task saw 2: about to request deferred destruction
    | Destroying               // the request was refused: about to destroy the frame
    | Gone

  datatype Frame = Frame(
    tracked: bool,
    state: TaskState,
    owner: Ownership,
    active: Option<OpId>,            // active_resume_context
    previous: Option<FrameId>,       // resume_record.previous
    linked: bool,                    // resume_record.active_context != nullptr
    continuation: Option<FrameId>,
    activator: bool,                 // continuation_activator != nullptr
    value: bool,
    control: Control,
    handle: Handle,
    destroyed: nat,                  // how often destroy() was called
    reclaimer: Option<OpId>,         // the worker that took over a deferred destruction
    suspensions: nat,
    resumptions: nat,
    rank: real)                      // orders frames along "holds a task of"

  datatype WorkerControl =
    | Pending                        // the callback has not fired
    | Populated                      // outcome stored, about to deliver
    | Activating                     // deliver saw 2
    | Driving(current: FrameId)      // inside body.resume(), with this frame on top
    | Releasing                      // inside resume_context::release
    | Reclaiming(frame: FrameId)     // release saw destroy_requested
    | Retired

  datatype Op = Op(
    state: OpState,
    continuation: FrameId,
    outcome: bool,
    control: WorkerControl,
    head: Option<FrameId>,           // resume_context::head
    chain: seq<FrameId>)             // the frames reachable from head, newest first

  datatype State = State(frames: seq<Frame>, ops: seq<Op>)

  datatype Step =
    | SpawnTask(creator: Party, rank: real)
    | SpawnRunner(work: FrameId, rank: real)
    | Give(task: FrameId, child: FrameId)
    | ReturnCall(child: FrameId)
    | HandOut(task: FrameId)
    | Adopt(task: FrameId, frame: FrameId)
    | Submit(frame: FrameId)
    | CheckReady(frame: FrameId, task: FrameId)
    | Detach(frame: FrameId)
    | Publish(frame: FrameId)
    | Reacquire(frame: FrameId)
    | Take(frame: FrameId)
    | Return(frame: FrameId)
    | FinalExchange(frame: FrameId)
    | Transfer(frame: FrameId)
    | Park(frame: FrameId)
    | EndRunner(frame: FrameId)
    | Populate(op: OpId)
    | Deliver(op: OpId)
    | Activate(op: OpId)
    | ReleaseNext(op: OpId)
    | Reclaim(op: OpId)
    | DropExchange(task: FrameId)
    | DropRequest(task: FrameId)
    | DropDestroy(task: FrameId)

  const InitialState := State([], [])

  predicate OnStack(c: Control) {
    !c.Suspended? && !c.Finished?
  }

  /** On a stack and, on a worker's, linked into that worker's context. */
  predicate Attached(c: Control) {
    OnStack(c) && !c.Publishing? && !c.Reacquiring?
  }

  /** Past the exchange in final_suspend. */
  predicate BodyDone(c: Control) {
    c.Transferring? || c.Parking? || c.Finished?
  }

  predicate HasTarget(c: Control) {
    c.Preparing? || c.Publishing? || c.Reacquiring? || c.Suspended? || c.Reading?
  }

  function NewTask(creator: Party, rank: real): Frame {
    Frame(true, Initial, Inactive, None, None, false, None, false, false, Running(Eager),
          Unborn(creator), 0, None, 0, 0, rank)
  }

  function NewRunner(rank: real): Frame {
    Frame(false, Initial, Inactive, None, None, false, None, false, false, Running(Eager),
          Gone, 0, None, 0, 0, rank)
  }

  // ---------------------------------------------------------------------------
  // Parts of steps.
  // ---------------------------------------------------------------------------

  function SetFrame(s: State, f: FrameId, v: Frame): State
    requires f < |s.frames|
  {
    s.(frames := s.frames[f := v])
  }

  function SetControl(s: State, f: FrameId, c: Control): State
    requires f < |s.frames|
  {
    SetFrame(s, f, s.frames[f].(control := c))
  }

  function SetOp(s: State, o: OpId, v: Op): State
    requires o < |s.ops|
  {
    s.(ops := s.ops[o := v])
  }

  /** `activate_resume`, the promise's side: link the record, publish the context, take resume ownership. */
  function Link(t: Frame, head: Option<FrameId>, w: OpId): Frame {
    t.(previous := head, linked := true, active := Some(w), owner := Resuming)
  }

  /** `activate_resume`, the context's side. */
  function Push(op: Op, f: FrameId): Op {
    op.(head := Some(f), chain := [f] + op.chain)
  }

  /** Leaving a context, the promise's side. */
  function Unlink(t: Frame): Frame {
    t.(previous := None, linked := false, active := None, owner := Inactive)
  }

  /** Leaving a context, the context's side. */
  function Pop(op: Op, previous: Option<FrameId>): Op {
    op.(head := previous, chain := if |op.chain| > 0 then op.chain[1..] else [])
  }

  /** The body of `f`, now `t`, leaves its stack with nothing to resume, so that on a worker `resume()` returns. */
  function LeaveStack(s: State, f: FrameId, t: Frame, site: Site): State
    requires f < |s.frames|
    requires site.On? ==> site.worker < |s.ops|
  {
    match site
    case On(w) => State(s.frames[f := t], s.ops[w := s.ops[w].(control := Releasing)])
    case Eager => SetFrame(s, f, t)
  }

  /** `request_deferred_destroy`. */
  function RequestDeferredDestroy(owner: Ownership): Ownership {
    if owner == Resuming then DestroyRequested else owner
  }

  /** A task object may be dropped by its holder: by consumer code, by a body that still runs (or has just
      left its scopes), or by the teardown of the frame whose parameters hold it. */
  predicate MayDrop(s: State, h: Handle) {
    h.Held? &&
    match h.holder
    case External => true
    case Body(g) => g < |s.frames| && (s.frames[g].control.Running? || s.frames[g].control.Returned? || s.frames[g].destroyed > 0)
  }

  // ---------------------------------------------------------------------------
  // Steps.
  // ---------------------------------------------------------------------------

  /** When a step may happen: what the code's control flow and the documented contracts allow. */
  ghost predicate Enabled(s: State, step: Step) {
    match step
    case SpawnTask(creator, _) =>
      (match creator
       case External => true
       case Body(g) => g < |s.frames| && s.frames[g].tracked && s.frames[g].control.Running?)
    case SpawnRunner(work, _) => work < |s.frames| && s.frames[work].handle == Held(External)
    case Give(x, d) =>
      x < d < |s.frames| && s.frames[d].handle.Unborn? && s.frames[d].control == Running(Eager) &&
      s.frames[x].handle == Held(s.frames[d].handle.creator)
    case ReturnCall(d) =>
      d < |s.frames| && s.frames[d].handle.Unborn? && !(OnStack(s.frames[d].control) && s.frames[d].control.site.Eager?)
    case HandOut(x) =>
      x < |s.frames| && s.frames[x].handle.Held? && s.frames[x].handle.holder.Body? &&
      var g := s.frames[x].handle.holder.frame; g < |s.frames| && s.frames[g].control.Running?
    case Adopt(x, g) =>
      && x < |s.frames| && g < |s.frames| && x != g && s.frames[x].handle == Held(External)
      && s.frames[g].tracked && s.frames[g].control.Running?
    case Submit(f) => f < |s.frames| && s.frames[f].tracked && s.frames[f].control.Running?
    case CheckReady(f, p) =>
      f < |s.frames| && p < |s.frames| && s.frames[f].control.Running? && s.frames[p].handle == Held(Body(f))
    case Detach(f) => f < |s.frames| && s.frames[f].control.Preparing?
    case Publish(f) => f < |s.frames| && s.frames[f].control.Publishing?
    case Reacquire(f) => f < |s.frames| && s.frames[f].control.Reacquiring?
    case Take(f) => f < |s.frames| && s.frames[f].control.Reading?
    case Return(f) => f < |s.frames| && s.frames[f].tracked && s.frames[f].control.Running?
    case FinalExchange(f) => f < |s.frames| && s.frames[f].control.Returned?
    case Transfer(f) => f < |s.frames| && s.frames[f].control.Transferring?
    case Park(f) => f < |s.frames| && s.frames[f].control.Parking?
    case EndRunner(f) => f < |s.frames| && !s.frames[f].tracked && s.frames[f].control.Running?
    case Populate(o) => o < |s.ops| && s.ops[o].control.Pending?
    case Deliver(o) => o < |s.ops| && s.ops[o].control.Populated?
    case Activate(o) => o < |s.ops| && s.ops[o].control.Activating?
    case ReleaseNext(o) => o < |s.ops| && s.ops[o].control.Releasing?
    case Reclaim(o) => o < |s.ops| && s.ops[o].control.Reclaiming?
    case DropExchange(x) => x < |s.frames| && MayDrop(s, s.frames[x].handle)
    case DropRequest(x) => x < |s.frames| && s.frames[x].handle.Requesting?
    case DropDestroy(x) => x < |s.frames| && s.frames[x].handle.Destroying?
  }

  /** A new frame gets a rank below its caller's and above those of the tasks the caller holds, or above all when it
      is called from outside; a body takes in only tasks of lower rank than its own. */
  ghost predicate Ordered(s: State, step: Step)
    requires Enabled(s, step)
  {
    match step
    case SpawnTask(External, rank) => forall x | 0 <= x < |s.frames| :: s.frames[x].rank < rank
    case SpawnTask(Body(g), rank) =>
      && rank < s.frames[g].rank
      && forall x | 0 <= x < |s.frames| && s.frames[x].handle == Held(Body(g)) :: s.frames[x].rank < rank
    case SpawnRunner(_, rank) => forall x | 0 <= x < |s.frames| :: s.frames[x].rank < rank
    case Adopt(x, g) => s.frames[x].rank < s.frames[g].rank
    case _ => true
  }

  /** No dangling id: what the steps below need to be defined at all. */
  ghost predicate InRange(s: State, step: Step)
    requires Enabled(s, step)
  {
    match step
    case ReturnCall(d) => CanReturn(s, d)
    case Detach(f) => s.frames[f].active.Some? ==> s.frames[f].active.value < |s.ops|
    case Publish(f) => CanPublish(s, f)
    case Reacquire(f) => s.frames[f].control.site.On? && s.frames[f].control.site.worker < |s.ops|
    case FinalExchange(f) => CanLeave(s, f)
    case Transfer(f) => CanTransfer(s, f)
    case Park(f) => CanLeave(s, f)
    case EndRunner(f) => CanLeave(s, f)
    case Activate(o) =>
      s.ops[o].continuation < |s.frames| && s.frames[s.ops[o].continuation].control.Suspended?
    case ReleaseNext(o) => s.ops[o].head.Some? ==> s.ops[o].head.value < |s.frames|
    case Reclaim(o) => s.ops[o].control.frame < |s.frames|
    case _ => true
  }

  /** The creator of an eager call is still blocked in it. */
  predicate CanReturn(s: State, d: FrameId)
    requires d < |s.frames| && s.frames[d].handle.Unborn?
  {
    match s.frames[d].handle.creator
    case External => true
    case Body(g) => g < |s.frames| && g != d && s.frames[g].control.Spawning?
  }

  predicate CanLeave(s: State, f: FrameId)
    requires f < |s.frames| && OnStack(s.frames[f].control)
  {
    s.frames[f].control.site.On? ==> s.frames[f].control.site.worker < |s.ops|
  }

  predicate CanPublish(s: State, f: FrameId)
    requires f < |s.frames| && s.frames[f].control.Publishing?
  {
    && CanLeave(s, f)
    && match s.frames[f].control.target
       case Leaf(o) => o < |s.ops|
       case Task(p) => p < |s.frames| && p != f
  }

  predicate CanTransfer(s: State, f: FrameId)
    requires f < |s.frames| && s.frames[f].control.Transferring?
  {
    var t := s.frames[f];
    && t.active.Some? && t.active.value < |s.ops| && t.control.site == On(t.active.value)
    && t.continuation.Some? && t.continuation.value < |s.frames| && t.continuation.value != f
    && s.frames[t.continuation.value].control.Suspended?
  }

  function DoSpawnTask(s: State, creator: Party, rank: real): State
    requires creator.Body? ==> creator.frame < |s.frames| && s.frames[creator.frame].control.Running?
  {
    var s1 := if creator.External? then s
              else SetControl(s, creator.frame, Spawning(s.frames[creator.frame].control.site, |s.frames|));
    s1.(frames := s1.frames + [NewTask(creator, rank)])
  }

  /** The eager call returns its task object to the creator. */
  function DoReturnCall(s: State, d: FrameId): State
    requires d < |s.frames| && s.frames[d].handle.Unborn? && CanReturn(s, d)
  {
    var creator := s.frames[d].handle.creator;
    var child := s.frames[d].(handle := Held(creator));
    match creator
    case External => SetFrame(s, d, child)
    case Body(g) => s.(frames := s.frames[d := child][g := s.frames[g].(control := Running(s.frames[g].control.site))])
  }

  function DoSpawnRunner(s: State, work: FrameId, rank: real): State
    requires work < |s.frames|
  {
    var s1 := SetFrame(s, work, s.frames[work].(handle := Held(Body(|s.frames|))));
    s1.(frames := s1.frames + [NewRunner(rank)])
  }

  function DoSubmit(s: State, f: FrameId): State
    requires f < |s.frames| && s.frames[f].control.Running?
  {
    var s1 := SetControl(s, f, Preparing(s.frames[f].control.site, Leaf(|s.ops|)));
    s1.(ops := s1.ops + [Op(Fresh, f, false, Pending, None, [])])
  }

  /** `task::await_ready`. */
  function DoCheckReady(s: State, f: FrameId, p: FrameId): State
    requires f < |s.frames| && p < |s.frames| && s.frames[f].control.Running?
  {
    var site := s.frames[f].control.site;
    SetControl(s, f, if s.frames[p].state == Completed then Reading(site, Task(p)) else Preparing(site, Task(p)))
  }

  function DoDetach(s: State, f: FrameId): State
    requires f < |s.frames| && s.frames[f].control.Preparing?
    requires s.frames[f].active.Some? ==> s.frames[f].active.value < |s.ops|
  {
    var t := s.frames[f];
    var c := Publishing(t.control.site, t.control.target);
    match t.active
    case None => SetFrame(s, f, t.(control := c))
    case Some(w) => State(s.frames[f := Unlink(t).(control := c)], s.ops[w := Pop(s.ops[w], t.previous)])
  }

  /** Whether publishing the suspension succeeds: the leaf's callback has not fired, or the awaited body has
      not completed. */
  predicate Suspends(s: State, t: Target)
    requires t.Leaf? ==> t.op < |s.ops|
    requires t.Task? ==> t.frame < |s.frames|
  {
    match t
    case Leaf(o) => s.ops[o].state != Fired
    case Task(p) => s.frames[p].state == Initial
  }

  /** The exchange of `commit_suspend`, or the compare-exchange of `task::await_suspend` with the writes that
      register the continuation. */
  function PublishTo(s: State, f: FrameId, t: Target): State
    requires f < |s.frames|
    requires t.Leaf? ==> t.op < |s.ops|
    requires t.Task? ==> t.frame < |s.frames|
  {
    match t
    case Leaf(o) => SetOp(s, o, s.ops[o].(state := Waiting))
    case Task(p) =>
      SetFrame(s, p, s.frames[p].(continuation := Some(f), activator := s.frames[f].tracked,
                                  state := if s.frames[p].state == Initial then Awaited else s.frames[p].state))
  }

  function DoPublish(s: State, f: FrameId): State
    requires f < |s.frames| && s.frames[f].control.Publishing? && CanPublish(s, f)
  {
    var frame := s.frames[f];
    var site, t := frame.control.site, frame.control.target;
    var s1 := PublishTo(s, f, t);
    if Suspends(s, t) then
      LeaveStack(s1, f, frame.(control := Suspended(t), suspensions := frame.suspensions + 1), site)
    else if site.On? && frame.tracked then SetControl(s1, f, Reacquiring(site, t))
    else SetControl(s1, f, Reading(site, t))
  }

  function DoReacquire(s: State, f: FrameId): State
    requires f < |s.frames| && s.frames[f].control.Reacquiring?
    requires s.frames[f].control.site.On? && s.frames[f].control.site.worker < |s.ops|
  {
    var t := s.frames[f];
    var w := t.control.site.worker;
    State(s.frames[f := Link(t, s.ops[w].head, w).(control := Reading(t.control.site, t.control.target))],
          s.ops[w := Push(s.ops[w], f)])
  }

  /** `route_final_suspend` up to its exchange. */
  function DoFinalExchange(s: State, f: FrameId): State
    requires f < |s.frames| && s.frames[f].control.Returned? && CanLeave(s, f)
  {
    var frame := s.frames[f];
    var site := frame.control.site;
    match frame.state
    case Awaited => SetFrame(s, f, frame.(state := Completed, control := Transferring(site)))
    case Abandoned => SetFrame(s, f, frame.(state := Completed, control := Parking(site)))
    case _ => LeaveStack(s, f, frame.(state := Completed, control := Finished), site)
  }

  /** A suspended body resumes on a stack, first of all taking the outcome it waited for. */
  function Resumed(t: Frame, site: Site): Frame
    requires t.control.Suspended?
  {
    t.(control := Reading(site, t.control.target), resumptions := t.resumptions + 1)
  }

  /** The rest of `route_final_suspend` after it saw 1: activate the continuation in the active context and
      transfer to it on the same stack. */
  function DoTransfer(s: State, f: FrameId): State
    requires f < |s.frames| && s.frames[f].control.Transferring? && CanTransfer(s, f)
  {
    var t := s.frames[f];
    var w, c := t.active.value, t.continuation.value;
    var cont := if t.activator then Link(s.frames[c], s.ops[w].head, w) else s.frames[c];
    var op := if t.activator then Push(s.ops[w], c) else s.ops[w];
    State(s.frames[f := t.(control := Finished)][c := Resumed(cont, On(w))], s.ops[w := op.(control := Driving(c))])
  }

  function DoPark(s: State, f: FrameId): State
    requires f < |s.frames| && s.frames[f].control.Parking? && CanLeave(s, f)
  {
    var frame := s.frames[f];
    LeaveStack(s, f, frame.(owner := RequestDeferredDestroy(frame.owner), control := Finished), frame.control.site)
  }

  /** The runner's frame destroys itself when its body ends. */
  function DoEndRunner(s: State, f: FrameId): State
    requires f < |s.frames| && s.frames[f].control.Running? && CanLeave(s, f)
  {
    var frame := s.frames[f];
    LeaveStack(s, f, frame.(control := Finished, destroyed := frame.destroyed + 1), frame.control.site)
  }

  /** `deliver` up to its exchange. */
  function DoDeliver(s: State, o: OpId): State
    requires o < |s.ops|
  {
    SetOp(s, o, s.ops[o].(state := Fired, control := if s.ops[o].state == Waiting then Activating else Retired))
  }

  function DoActivate(s: State, o: OpId): State
    requires o < |s.ops| && s.ops[o].continuation < |s.frames|
    requires s.frames[s.ops[o].continuation].control.Suspended?
  {
    var b := s.ops[o].continuation;
    State(s.frames[b := Resumed(Link(s.frames[b], s.ops[o].head, o), On(o))],
          s.ops[o := Push(s.ops[o], b).(control := Driving(b))])
  }

  /** One iteration of `resume_context::release`. */
  function DoReleaseNext(s: State, o: OpId): State
    requires o < |s.ops|
    requires s.ops[o].head.Some? ==> s.ops[o].head.value < |s.frames|
  {
    var op := s.ops[o];
    match op.head
    case None => SetOp(s, o, op.(control := Retired))
    case Some(f) =>
      var t := s.frames[f];
      var active := if t.linked && t.active == Some(o) then None else t.active;
      if t.owner == DestroyRequested then
        State(s.frames[f := Unlink(t).(active := active, reclaimer := Some(o))],
              s.ops[o := Pop(op, t.previous).(control := Reclaiming(f))])
      else
        State(s.frames[f := Unlink(t).(active := active)], s.ops[o := Pop(op, t.previous)])
  }

  function DoReclaim(s: State, o: OpId): State
    requires o < |s.ops| && s.ops[o].control.Reclaiming?
    requires s.ops[o].control.frame < |s.frames|
  {
    var f := s.ops[o].control.frame;
    State(s.frames[f := s.frames[f].(destroyed := s.frames[f].destroyed + 1, reclaimer := None)],
          s.ops[o := s.ops[o].(control := Releasing)])
  }

  /** `~task` up to its exchange. */
  function DoDropExchange(s: State, x: FrameId): State
    requires x < |s.frames|
  {
    SetFrame(s, x, s.frames[x].(state := Abandoned,
                                handle := if s.frames[x].state == Completed then Requesting else Gone))
  }

  function DoDropRequest(s: State, x: FrameId): State
    requires x < |s.frames|
  {
    var frame := s.frames[x];
    SetFrame(s, x, frame.(owner := RequestDeferredDestroy(frame.owner),
                          handle := if frame.owner == Resuming then Gone else Destroying))
  }

  function DoDropDestroy(s: State, x: FrameId): State
    requires x < |s.frames|
  {
    SetFrame(s, x, s.frames[x].(destroyed := s.frames[x].destroyed + 1, handle := Gone))
  }

  ghost function Apply(s: State, step: Step): State
    requires Enabled(s, step) && InRange(s, step)
  {
    match step
    case SpawnTask(creator, rank) => DoSpawnTask(s, creator, rank)
    case SpawnRunner(work, rank) => DoSpawnRunner(s, work, rank)
    case Give(x, d) => SetFrame(s, x, s.frames[x].(handle := Held(Body(d))))
    case ReturnCall(d) => DoReturnCall(s, d)
    case HandOut(x) => SetFrame(s, x, s.frames[x].(handle := Held(External)))
    case Adopt(x, g) => SetFrame(s, x, s.frames[x].(handle := Held(Body(g))))
    case Submit(f) => DoSubmit(s, f)
    case CheckReady(f, p) => DoCheckReady(s, f, p)
    case Detach(f) => DoDetach(s, f)
    case Publish(f) => DoPublish(s, f)
    case Reacquire(f) => DoReacquire(s, f)
    case Take(f) => SetControl(s, f, Running(s.frames[f].control.site))
    case Return(f) => SetFrame(s, f, s.frames[f].(value := true, control := Returned(s.frames[f].control.site)))
    case FinalExchange(f) => DoFinalExchange(s, f)
    case Transfer(f) => DoTransfer(s, f)
    case Park(f) => DoPark(s, f)
    case EndRunner(f) => DoEndRunner(s, f)
    case Populate(o) => SetOp(s, o, s.ops[o].(outcome := true, control := Populated))
    case Deliver(o) => DoDeliver(s, o)
    case Activate(o) => DoActivate(s, o)
    case ReleaseNext(o) => DoReleaseNext(s, o)
    case Reclaim(o) => DoReclaim(s, o)
    case DropExchange(x) => DoDropExchange(s, x)
    case DropRequest(x) => DoDropRequest(s, x)
    case DropDestroy(x) => DoDropDestroy(s, x)
  }
}
