/** The invariant of the coroutine protocol and the proof that every step keeps it. */
module CoroutineInvariant {
  import opened Basics
  import opened Coroutine

  // ---------------------------------------------------------------------------
  // The invariant.
  // ---------------------------------------------------------------------------

  /** What the fields of one runner frame say about each other. */
  ghost predicate RunnerLocal(r: Frame) {
    && r.state == Initial && r.owner == Inactive && r.active.None? && r.previous.None? && !r.linked
    && r.handle == Gone && r.reclaimer.None?
    && (r.control.Running? || r.control.Preparing? || r.control.Publishing? || r.control.Suspended?
        || r.control.Reading? || r.control.Finished?)
    && r.destroyed == (if r.control.Finished? then 1 else 0)
    && (HasTarget(r.control) ==> r.control.target.Task?)
  }

  /** Who owes the destruction of a finished frame, by the fate of its task object. */
  ghost predicate FinishedLocal(t: Frame) {
    match t.handle
    case Unborn(_) => t.state == Completed && t.destroyed == 0 && t.reclaimer.None? && t.owner != DestroyRequested
    case Held(_) => t.state == Completed && t.destroyed == 0 && t.reclaimer.None? && t.owner != DestroyRequested
    case Requesting => t.state == Abandoned && t.destroyed == 0 && t.reclaimer.None? && t.owner != DestroyRequested
    case Destroying => t.state == Abandoned && t.destroyed == 0 && t.reclaimer.None? && t.owner == Inactive
    case Gone =>
      || (t.owner == DestroyRequested && t.destroyed == 0 && t.reclaimer.None?)
      || (t.owner == Inactive && t.destroyed == 0 && t.reclaimer.Some?)
      || (t.owner == Inactive && t.destroyed == 1 && t.reclaimer.None?)
  }

  /** What the fields of one task frame say about each other. */
  ghost predicate TaskLocal(t: Frame) {
    && (OnStack(t.control) && t.control.site.Eager? ==> t.handle.Unborn?)
    && (if Attached(t.control) && t.control.site.On? then t.active == Some(t.control.site.worker) && t.owner == Resuming
        else if t.control.Finished? then t.active.None? <==> t.owner == Inactive
        else t.active.None? && t.owner == Inactive)
    && (t.linked <==> t.active.Some?) && (t.active.None? ==> t.previous.None?)
    && (t.value <==> t.control.Returned? || BodyDone(t.control))
    && (t.control.Reacquiring? ==> t.control.site.On?)
    && (!t.control.Finished? ==> t.destroyed == 0 && t.reclaimer.None?)
    && (t.control.Finished? ==> FinishedLocal(t))
    && (t.control.Transferring? ==> t.state == Completed && t.handle.Held?)
    && (t.control.Parking? ==> t.state == Completed && t.handle.Gone?)
    && (!BodyDone(t.control) ==>
          match t.state
          case Initial => t.handle.Unborn? || t.handle.Held?
          case Awaited => t.handle.Held?
          case Abandoned => t.handle.Gone?
          case Completed => false)
  }

  ghost predicate Local(t: Frame) {
    && t.suspensions == t.resumptions + (if t.control.Suspended? then 1 else 0)
    && (if t.tracked then TaskLocal(t) else RunnerLocal(t))
  }

  /** The frame that is suspended on `f`, as registered in f's promise. */
  ghost predicate AwaitedBy(s: State, f: FrameId)
    requires f < |s.frames|
  {
    var t := s.frames[f];
    && t.handle.Held? && t.handle.holder.Body? && t.handle.holder.frame < |s.frames|
    && t.continuation == Some(t.handle.holder.frame)
    && s.frames[t.handle.holder.frame].control == Suspended(Task(f))
    && t.activator == s.frames[t.handle.holder.frame].tracked
  }

  /** A leaf await and its operation agree on how far the handshake has come. */
  ghost predicate LeafLink(s: State, f: FrameId, o: OpId)
    requires f < |s.frames| && HasTarget(s.frames[f].control)
  {
    var c := s.frames[f].control;
    && o < |s.ops|
    && s.ops[o].continuation == f
    && (c.Preparing? || c.Publishing? ==>
          s.ops[o].state == Fresh || (s.ops[o].state == Fired && s.ops[o].control.Retired?))
    && (c.Suspended? ==>
          || (s.ops[o].state == Waiting && (s.ops[o].control.Pending? || s.ops[o].control.Populated?))
          || s.ops[o].control.Activating?)
    && (c.Reading? || c.Reacquiring? ==> s.ops[o].outcome)
  }

  /** The awaiting frame holds the awaited task throughout. */
  ghost predicate TaskLink(s: State, f: FrameId, p: FrameId)
    requires f < |s.frames| && HasTarget(s.frames[f].control)
  {
    var c := s.frames[f].control;
    && p < |s.frames|
    && s.frames[p].tracked
    && s.frames[p].handle == Held(Body(f))
    && (c.Suspended? ==> s.frames[p].state == Awaited || s.frames[p].control.Transferring?)
    && (c.Reading? || c.Reacquiring? ==> s.frames[p].control.Finished?)
  }

  /** A body that is calling an eager coroutine is blocked until that call returns. */
  ghost predicate SpawnLink(s: State, g: FrameId)
    requires g < |s.frames| && s.frames[g].control.Spawning?
  {
    var d := s.frames[g].control.child;
    && g < d < |s.frames|
    && s.frames[d].handle == Unborn(Body(g))
  }

  ghost predicate HandleLink(s: State, f: FrameId)
    requires f < |s.frames|
  {
    match s.frames[f].handle
    case Held(Body(g)) => g < |s.frames| && g != f
    case Unborn(Body(g)) =>
      g < |s.frames| && g != f && s.frames[g].tracked && s.frames[g].control.Spawning? && s.frames[g].control.child == f
    case _ => true
  }

  /** How one frame relates to its neighbours. */
  ghost predicate Links(s: State, f: FrameId)
    requires f < |s.frames|
  {
    var t := s.frames[f];
    && (OnStack(t.control) && t.control.site.On? ==>
          t.control.site.worker < |s.ops| && s.ops[t.control.site.worker].control == Driving(f))
    && (t.active.Some? ==> t.active.value < |s.ops| && f in s.ops[t.active.value].chain)
    && (t.reclaimer.Some? ==> t.reclaimer.value < |s.ops| && s.ops[t.reclaimer.value].control == Reclaiming(f))
    && (t.state == Awaited || t.control.Transferring? ==> AwaitedBy(s, f))
    && (HasTarget(t.control) ==>
          match t.control.target
          case Leaf(o) => LeafLink(s, f, o)
          case Task(p) => TaskLink(s, f, p))
    && (t.control.Spawning? ==> SpawnLink(s, f))
    && HandleLink(s, f)
  }

  ghost predicate FrameInv(s: State, f: FrameId) {
    f < |s.frames| && Local(s.frames[f]) && Links(s, f)
  }

  ghost predicate ChainCell(s: State, o: OpId, i: nat)
    requires o < |s.ops| && i < |s.ops[o].chain|
  {
    var op := s.ops[o];
    && op.chain[i] < |s.frames|
    && s.frames[op.chain[i]].active == Some(o)
    && s.frames[op.chain[i]].previous == (if i + 1 < |op.chain| then Some(op.chain[i + 1]) else None)
  }

  /** The records linked from a context's head are the frames of its chain, newest first. */
  ghost predicate ChainInv(s: State, o: OpId)
    requires o < |s.ops|
  {
    var op := s.ops[o];
    && op.head == (if |op.chain| == 0 then None else Some(op.chain[0]))
    && (forall i | 0 <= i < |op.chain| :: ChainCell(s, o, i))
    && (forall i, j | 0 <= i < j < |op.chain| :: op.chain[i] != op.chain[j])
  }

  ghost predicate WorkerInv(s: State, o: OpId)
    requires o < |s.ops| && s.ops[o].continuation < |s.frames|
  {
    var op := s.ops[o];
    match op.control
    case Pending => op.chain == []
    case Populated => op.chain == []
    case Activating => op.chain == [] && s.frames[op.continuation].control == Suspended(Leaf(o))
    case Driving(f) =>
      && f < |s.frames| && OnStack(s.frames[f].control) && s.frames[f].control.site == On(o)
      && (f in op.chain ==> op.chain[0] == f)
    case Releasing => true
    case Reclaiming(f) => f < |s.frames| && s.frames[f].reclaimer == Some(o)
    case Retired => op.chain == []
  }

  ghost predicate OpInv(s: State, o: OpId) {
    && o < |s.ops|
    && s.ops[o].continuation < |s.frames|
    && s.frames[s.ops[o].continuation].tracked
    && (s.ops[o].outcome <==> !s.ops[o].control.Pending?)
    && (match s.ops[o].state
        case Fresh =>
          && (s.ops[o].control.Pending? || s.ops[o].control.Populated?)
          && var c := s.frames[s.ops[o].continuation].control;
             (c.Preparing? || c.Publishing?) && c.target == Leaf(o)
        case Waiting =>
          || s.ops[o].control.Retired?
          || ((s.ops[o].control.Pending? || s.ops[o].control.Populated?)
              && s.frames[s.ops[o].continuation].control == Suspended(Leaf(o)))
        case Fired => !s.ops[o].control.Pending? && !s.ops[o].control.Populated?)
    && WorkerInv(s, o)
    && ChainInv(s, o)
  }

  ghost predicate Inv(s: State) {
    && (forall f | 0 <= f < |s.frames| :: FrameInv(s, f))
    && (forall o | 0 <= o < |s.ops| :: OpInv(s, o))
  }

  // ---------------------------------------------------------------------------
  // Steps.
  // ---------------------------------------------------------------------------

  /** A chain whose records did not change is still a chain. */
  lemma KeepChain(s: State, s': State, o: OpId)
    requires o < |s.ops| && ChainInv(s, o)
    requires o < |s'.ops| && s'.ops[o].chain == s.ops[o].chain && s'.ops[o].head == s.ops[o].head
    requires |s.frames| <= |s'.frames|
    requires forall x | 0 <= x < |s.frames| && s.frames[x].active == Some(o) ::
               s'.frames[x].active == Some(o) && s'.frames[x].previous == s.frames[x].previous
    ensures ChainInv(s', o)
  {
    forall i | 0 <= i < |s'.ops[o].chain| ensures ChainCell(s', o, i) {
      assert ChainCell(s, o, i);
    }
  }


  /** `activate_resume` puts a record that is in no context in front of the chain. */
  lemma PushChain(s: State, s': State, f: FrameId, w: OpId)
    requires w < |s.ops| && ChainInv(s, w) && f < |s.frames| && s.frames[f].active.None?
    requires w < |s'.ops| && s'.ops[w].chain == [f] + s.ops[w].chain && s'.ops[w].head == Some(f)
    requires |s.frames| == |s'.frames| && s'.frames[f].active == Some(w) && s'.frames[f].previous == s.ops[w].head
    requires forall x | 0 <= x < |s.frames| && x != f && s.frames[x].active == Some(w) ::
               s'.frames[x].active == Some(w) && s'.frames[x].previous == s.frames[x].previous
    ensures ChainInv(s', w)
  {
    forall i | 0 <= i < |s'.ops[w].chain| ensures ChainCell(s', w, i) && (i > 0 ==> s'.ops[w].chain[i] != f) {
      if i > 0 {
        assert ChainCell(s, w, i - 1);
      }
    }
  }

  /** Unlinking the head leaves the rest of the chain. */
  lemma PopChain(s: State, s': State, w: OpId)
    requires w < |s.ops| && ChainInv(s, w) && s.ops[w].head.Some?
    requires w < |s'.ops| && s'.ops[w].chain == s.ops[w].chain[1..]
    requires s.ops[w].head.value < |s.frames| && s'.ops[w].head == s.frames[s.ops[w].head.value].previous
    requires |s.frames| == |s'.frames|
    requires forall x | 0 <= x < |s.frames| && x != s.ops[w].head.value && s.frames[x].active == Some(w) ::
               s'.frames[x].active == Some(w) && s'.frames[x].previous == s.frames[x].previous
    ensures ChainInv(s', w)
  {
    assert ChainCell(s, w, 0);
    forall i | 0 <= i < |s'.ops[w].chain| ensures ChainCell(s', w, i) {
      assert ChainCell(s, w, i + 1);
    }
  }

  lemma NotInChain(s: State, f: FrameId, w: OpId)
    requires w < |s.ops| && ChainInv(s, w) && f < |s.frames| && s.frames[f].active != Some(w)
    ensures f !in s.ops[w].chain
  {
    forall i | 0 <= i < |s.ops[w].chain| ensures s.ops[w].chain[i] != f {
      assert ChainCell(s, w, i);
    }
  }

  /** The frame a worker runs is the head of its context whenever it is linked at all. */
  lemma HeadIsCurrent(s: State, f: FrameId)
    requires FrameInv(s, f) && s.frames[f].active.Some? && !s.frames[f].control.Finished?
    requires OpInv(s, s.frames[f].active.value)
    ensures s.ops[s.frames[f].active.value].head == Some(f)
  {
  }

  /** Changing frame `x` disturbs no observer outside the frames `E` and operations `U`. */
  ghost predicate FrameHarmless(s: State, s': State, E: set<FrameId>, U: set<OpId>, x: FrameId)
    requires x < |s.frames| && x < |s'.frames|
  {
    var a, b := s.frames[x], s'.frames[x];
    && b.tracked == a.tracked
    // an awaiting holder
    && (a.handle.Held? && a.handle.holder.Body? && a.handle.holder.frame < |s.frames| && a.handle.holder.frame !in E
        && HasTarget(s.frames[a.handle.holder.frame].control) ==>
          && b.handle == a.handle
          && (a.control.Finished? ==> b.control.Finished?)
          && (a.state == Awaited || a.control.Transferring? ==> b.state == Awaited || b.control.Transferring?))
    // a calling creator, an awaited frame, an eager child
    && (a.handle.Unborn? && a.handle.creator.Body? && a.handle.creator.frame !in E ==> b.handle == a.handle)
    && (a.control.Suspended? && a.control.target.Task? && a.control.target.frame !in E ==> b.control == a.control)
    && (a.control.Spawning? && a.control.child !in E ==> b.control == a.control)
    // operations
    && ((a.control.Preparing? || a.control.Publishing?) && a.control.target.Leaf? && a.control.target.op !in U ==>
          (b.control.Preparing? || b.control.Publishing?) && b.control.target == a.control.target)
    && (a.control.Suspended? && a.control.target.Leaf? && a.control.target.op !in U ==> b.control == a.control)
    && (OnStack(a.control) && a.control.site.On? && a.control.site.worker !in U ==>
          OnStack(b.control) && b.control.site == a.control.site)
    && (a.reclaimer.Some? && a.reclaimer.value !in U ==> b.reclaimer == a.reclaimer)
    && (a.active.Some? && a.active.value !in U ==> b.active == a.active && b.previous == a.previous)
  }

  /** Changing operation `w` disturbs no observer outside the frames `E`. */
  ghost predicate OpHarmless(s: State, s': State, E: set<FrameId>, w: OpId)
    requires w < |s.ops| && w < |s'.ops|
  {
    var a, b := s.ops[w], s'.ops[w];
    && (a.control.Driving? && a.control.current !in E ==> b.control == a.control)
    && (a.control.Reclaiming? && a.control.frame !in E ==> b.control == a.control)
    && (forall g | g in a.chain :: g in b.chain || g in E)
    && (a.continuation !in E ==>
          && b.continuation == a.continuation && b.state == a.state && b.outcome == a.outcome
          && (a.control.Pending? || a.control.Populated? || a.control.Activating? || a.control.Retired? ==>
                b.control == a.control))
  }

  /** Only the frames of `E` and the operations of `U` change, and nobody else notices. */
  ghost predicate Confined(s: State, s': State, E: set<FrameId>, U: set<OpId>) {
    && |s.frames| <= |s'.frames| && |s.ops| <= |s'.ops|
    && (forall x | 0 <= x < |s.frames| :: if x in E then FrameHarmless(s, s', E, U, x) else s'.frames[x] == s.frames[x])
    && (forall w | 0 <= w < |s.ops| :: if w in U then OpHarmless(s, s', E, w) else s'.ops[w] == s.ops[w])
  }

  lemma KeepFrame(s: State, s': State, E: set<FrameId>, U: set<OpId>, f: FrameId)
    requires FrameInv(s, f) && f !in E && Confined(s, s', E, U)
    ensures FrameInv(s', f)
  {
  }

  lemma KeepOp(s: State, s': State, E: set<FrameId>, U: set<OpId>, o: OpId)
    requires OpInv(s, o) && o !in U && Confined(s, s', E, U)
    ensures OpInv(s', o)
  {
    KeepChain(s, s', o);
  }

  /** A confined change keeps the invariant when the changed parts satisfy it. */
  lemma KeepInv(s: State, s': State, E: set<FrameId>, U: set<OpId>)
    requires Inv(s) && Confined(s, s', E, U)
    requires forall x | |s.frames| <= x < |s'.frames| :: x in E
    requires forall w | |s.ops| <= w < |s'.ops| :: w in U
    requires forall x | x in E :: FrameInv(s', x)
    requires forall w | w in U :: OpInv(s', w)
    ensures Inv(s')
  {
    forall f | 0 <= f < |s'.frames| ensures FrameInv(s', f) {
      if f !in E {
        KeepFrame(s, s', E, U, f);
      }
    }
    forall o | 0 <= o < |s'.ops| ensures OpInv(s', o) {
      if o !in U {
        KeepOp(s, s', E, U, o);
      }
    }
  }

  /** Outside the frames of `E` and the operations of `U` nothing changes. */
  ghost predicate SameBut(s: State, s': State, E: set<FrameId>, U: set<OpId>) {
    && |s'.frames| == |s.frames| && |s'.ops| == |s.ops|
    && (forall x | 0 <= x < |s.frames| && x !in E :: s'.frames[x] == s.frames[x])
    && (forall o | 0 <= o < |s.ops| && o !in U :: s'.ops[o] == s.ops[o])
  }

  /** The change of two frames (or of one, when `f == g`). */
  lemma KeepFrames(s: State, s': State, f: FrameId, g: FrameId)
    requires Inv(s) && SameBut(s, s', {f, g}, {}) && f < |s.frames| && g < |s.frames|
    requires FrameHarmless(s, s', {f, g}, {}, f) && FrameInv(s', f)
    requires FrameHarmless(s, s', {f, g}, {}, g) && FrameInv(s', g)
    ensures Inv(s')
  {
    KeepInv(s, s', {f, g}, {});
  }

  /** The change of two frames (or of one, when `f == g`) and of one operation. */
  lemma KeepFramesOp(s: State, s': State, f: FrameId, g: FrameId, w: OpId)
    requires Inv(s) && SameBut(s, s', {f, g}, {w}) && f < |s.frames| && g < |s.frames| && w < |s.ops|
    requires FrameHarmless(s, s', {f, g}, {w}, f) && FrameInv(s', f)
    requires FrameHarmless(s, s', {f, g}, {w}, g) && FrameInv(s', g)
    requires OpHarmless(s, s', {f, g}, w) && OpInv(s', w)
    ensures Inv(s')
  {
    KeepInv(s, s', {f, g}, {w});
  }

  // ---------------------------------------------------------------------------
  // Steps.
  // ---------------------------------------------------------------------------

  lemma SpawnedCreator(s: State, g: FrameId, rank: real)
    requires Inv(s) && g < |s.frames| && s.frames[g].tracked && s.frames[g].control.Running?
    ensures FrameInv(DoSpawnTask(s, Body(g), rank), g)
  {
    assert FrameInv(s, g);
  }

  lemma KeepsSpawnTask(s: State, creator: Party, rank: real)
    requires Inv(s)
    requires creator.Body? ==> creator.frame < |s.frames| && s.frames[creator.frame].tracked && s.frames[creator.frame].control.Running?
    ensures Inv(DoSpawnTask(s, creator, rank))
  {
    var s' := DoSpawnTask(s, creator, rank);
    if creator.Body? {
      assert FrameInv(s, creator.frame);
      SpawnedCreator(s, creator.frame, rank);
      KeepInv(s, s', {creator.frame, |s.frames|}, {});
    } else {
      KeepInv(s, s', {|s.frames|}, {});
    }
  }

  lemma KeepsSpawnRunner(s: State, work: FrameId, rank: real)
    requires Inv(s) && work < |s.frames| && s.frames[work].handle == Held(External)
    ensures Inv(DoSpawnRunner(s, work, rank))
  {
    assert FrameInv(s, work);
    KeepInv(s, DoSpawnRunner(s, work, rank), {work, |s.frames|}, {});
  }

  lemma GivenFrame(s: State, x: FrameId, d: FrameId)
    requires Inv(s) && Enabled(s, Give(x, d))
    ensures FrameInv(SetFrame(s, x, s.frames[x].(handle := Held(Body(d)))), x)
  {
    assert FrameInv(s, x) && FrameInv(s, d);
    var creator := s.frames[d].handle.creator;
    if creator.Body? {
      assert FrameInv(s, creator.frame);
    }
  }

  lemma KeepsGive(s: State, x: FrameId, d: FrameId)
    requires Inv(s) && Enabled(s, Give(x, d))
    ensures Inv(SetFrame(s, x, s.frames[x].(handle := Held(Body(d)))))
  {
    assert FrameInv(s, x) && FrameInv(s, d);
    GivenFrame(s, x, d);
    var creator := s.frames[d].handle.creator;
    if creator.Body? {
      assert FrameInv(s, creator.frame);
    }
    KeepFrames(s, SetFrame(s, x, s.frames[x].(handle := Held(Body(d)))), x, x);
  }

  lemma ReturnedChild(s: State, s': State, d: FrameId, g: FrameId)
    requires FrameInv(s, d) && FrameInv(s, g) && s.frames[d].handle == Unborn(Body(g))
    requires OnStack(s.frames[d].control) ==> s.frames[d].control.site.On?
    requires d != g && s.frames[g].control.Spawning?
    requires SameBut(s, s', {d, g}, {})
    requires s'.frames[d] == s.frames[d].(handle := Held(Body(g)))
    requires s'.frames[g] == s.frames[g].(control := Running(s.frames[g].control.site))
    ensures FrameInv(s', d)
  {
  }

  lemma ReturnedCreator(s: State, s': State, d: FrameId, g: FrameId)
    requires FrameInv(s, d) && FrameInv(s, g) && s.frames[d].handle == Unborn(Body(g))
    requires d != g && s.frames[g].control.Spawning?
    requires SameBut(s, s', {d, g}, {})
    requires s'.frames[d] == s.frames[d].(handle := Held(Body(g)))
    requires s'.frames[g] == s.frames[g].(control := Running(s.frames[g].control.site))
    ensures FrameInv(s', g)
  {
  }

  lemma ReturnToBody(s: State, s': State, d: FrameId, g: FrameId)
    requires Inv(s) && d < |s.frames| && g < |s.frames| && s.frames[d].handle == Unborn(Body(g))
    requires OnStack(s.frames[d].control) ==> s.frames[d].control.site.On?
    requires d != g && s.frames[g].control.Spawning?
    requires SameBut(s, s', {d, g}, {})
    requires s'.frames[d] == s.frames[d].(handle := Held(Body(g)))
    requires s'.frames[g] == s.frames[g].(control := Running(s.frames[g].control.site))
    ensures Inv(s')
  {
    assert FrameInv(s, d) && FrameInv(s, g);
    ReturnedChild(s, s', d, g);
    ReturnedCreator(s, s', d, g);
    KeepFrames(s, s', d, g);
  }

  lemma KeepsReturnCall(s: State, d: FrameId)
    requires Inv(s) && Enabled(s, ReturnCall(d)) && CanReturn(s, d)
    ensures Inv(DoReturnCall(s, d))
  {
    assert FrameInv(s, d);
    match s.frames[d].handle.creator
    case External => KeepFrames(s, DoReturnCall(s, d), d, d);
    case Body(g) =>
      assert FrameInv(s, g);
      ReturnToBody(s, DoReturnCall(s, d), d, g);
  }

  lemma KeepsHandOut(s: State, x: FrameId)
    requires Inv(s) && Enabled(s, HandOut(x))
    ensures Inv(SetFrame(s, x, s.frames[x].(handle := Held(External))))
  {
    assert FrameInv(s, x);
    KeepFrames(s, SetFrame(s, x, s.frames[x].(handle := Held(External))), x, x);
  }

  /** Moving in a task held outside keeps the invariant, whatever its frame waits for. */
  lemma KeepsAdopt(s: State, x: FrameId, g: FrameId)
    requires Inv(s) && Enabled(s, Adopt(x, g))
    ensures Inv(SetFrame(s, x, s.frames[x].(handle := Held(Body(g)))))
  {
    assert FrameInv(s, x) && FrameInv(s, g);
    KeepFrames(s, SetFrame(s, x, s.frames[x].(handle := Held(Body(g)))), x, x);
  }

  lemma KeepsSubmit(s: State, f: FrameId)
    requires Inv(s) && f < |s.frames| && s.frames[f].tracked && s.frames[f].control.Running?
    ensures Inv(DoSubmit(s, f))
  {
    assert FrameInv(s, f);
    KeepInv(s, DoSubmit(s, f), {f}, {|s.ops|});
  }

  lemma CheckedFrame(s: State, f: FrameId, p: FrameId)
    requires Inv(s) && f < |s.frames| && p < |s.frames| && s.frames[f].control.Running? && s.frames[p].handle == Held(Body(f))
    ensures FrameInv(DoCheckReady(s, f, p), f)
  {
    assert FrameInv(s, f) && FrameInv(s, p);
  }

  lemma KeepsCheckReady(s: State, f: FrameId, p: FrameId)
    requires Inv(s) && f < |s.frames| && p < |s.frames| && s.frames[f].control.Running? && s.frames[p].handle == Held(Body(f))
    ensures Inv(DoCheckReady(s, f, p))
  {
    assert FrameInv(s, f) && FrameInv(s, p);
    CheckedFrame(s, f, p);
    KeepFrames(s, DoCheckReady(s, f, p), f, f);
  }

  lemma DetachedFrame(s: State, f: FrameId)
    requires Inv(s) && f < |s.frames| && s.frames[f].control.Preparing?
    requires s.frames[f].active.Some? ==> s.frames[f].active.value < |s.ops|
    ensures FrameInv(DoDetach(s, f), f)
  {
    assert FrameInv(s, f);
    if s.frames[f].active.Some? {
      assert OpInv(s, s.frames[f].active.value);
      HeadIsCurrent(s, f);
    }
  }

  lemma KeepsDetach(s: State, f: FrameId)
    requires Inv(s) && f < |s.frames| && s.frames[f].control.Preparing?
    requires s.frames[f].active.Some? ==> s.frames[f].active.value < |s.ops|
    ensures Inv(DoDetach(s, f))
  {
    var s' := DoDetach(s, f);
    assert FrameInv(s, f);
    DetachedFrame(s, f);
    match s.frames[f].active
    case None => KeepFrames(s, s', f, f);
    case Some(w) =>
      assert OpInv(s, w);
      HeadIsCurrent(s, f);
      PopChain(s, s', w);
      NotInChain(s', f, w);
      KeepFramesOp(s, s', f, f, w);
  }

  lemma KeepsReacquire(s: State, f: FrameId)
    requires Inv(s) && f < |s.frames| && s.frames[f].control.Reacquiring?
    requires s.frames[f].control.site.On? && s.frames[f].control.site.worker < |s.ops|
    ensures Inv(DoReacquire(s, f))
  {
    var s' := DoReacquire(s, f);
    var w := s.frames[f].control.site.worker;
    assert FrameInv(s, f) && OpInv(s, w);
    PushChain(s, s', f, w);
    KeepFramesOp(s, s', f, f, w);
  }

  lemma KeepsTake(s: State, f: FrameId)
    requires Inv(s) && f < |s.frames| && s.frames[f].control.Reading?
    ensures Inv(SetControl(s, f, Running(s.frames[f].control.site)))
  {
    assert FrameInv(s, f);
    KeepFrames(s, SetControl(s, f, Running(s.frames[f].control.site)), f, f);
  }

  lemma KeepsReturn(s: State, f: FrameId)
    requires Inv(s) && f < |s.frames| && s.frames[f].tracked && s.frames[f].control.Running?
    ensures Inv(SetFrame(s, f, s.frames[f].(value := true, control := Returned(s.frames[f].control.site))))
  {
    assert FrameInv(s, f);
    KeepFrames(s, SetFrame(s, f, s.frames[f].(value := true, control := Returned(s.frames[f].control.site))), f, f);
  }

  lemma KeepsPopulate(s: State, o: OpId)
    requires Inv(s) && o < |s.ops| && s.ops[o].control.Pending?
    ensures Inv(SetOp(s, o, s.ops[o].(outcome := true, control := Populated)))
  {
    var s' := SetOp(s, o, s.ops[o].(outcome := true, control := Populated));
    assert OpInv(s, o) && FrameInv(s, s.ops[o].continuation);
    KeepFramesOp(s, s', s.ops[o].continuation, s.ops[o].continuation, o);
  }

  lemma KeepsDeliver(s: State, o: OpId)
    requires Inv(s) && o < |s.ops| && s.ops[o].control.Populated?
    ensures Inv(DoDeliver(s, o))
  {
    assert OpInv(s, o) && FrameInv(s, s.ops[o].continuation);
    KeepFramesOp(s, DoDeliver(s, o), s.ops[o].continuation, s.ops[o].continuation, o);
  }

  lemma KeepsActivate(s: State, o: OpId)
    requires Inv(s) && o < |s.ops| && s.ops[o].control.Activating? && s.ops[o].continuation < |s.frames|
    requires s.frames[s.ops[o].continuation].control.Suspended?
    ensures Inv(DoActivate(s, o))
  {
    var s' := DoActivate(s, o);
    var b := s.ops[o].continuation;
    assert OpInv(s, o) && FrameInv(s, b);
    PushChain(s, s', b, o);
    KeepFramesOp(s, s', b, b, o);
  }

  lemma KeepsReleaseNext(s: State, o: OpId)
    requires Inv(s) && o < |s.ops| && s.ops[o].control.Releasing?
    requires s.ops[o].head.Some? ==> s.ops[o].head.value < |s.frames|
    ensures Inv(DoReleaseNext(s, o))
  {
    var s' := DoReleaseNext(s, o);
    assert OpInv(s, o);
    match s.ops[o].head
    case None => KeepInv(s, s', {}, {o});
    case Some(f) =>
      assert ChainCell(s, o, 0);
      assert FrameInv(s, f);
      PopChain(s, s', o);
      KeepFramesOp(s, s', f, f, o);
  }

  lemma KeepsReclaim(s: State, o: OpId)
    requires Inv(s) && o < |s.ops| && s.ops[o].control.Reclaiming? && s.ops[o].control.frame < |s.frames|
    ensures Inv(DoReclaim(s, o))
  {
    var s' := DoReclaim(s, o);
    var f := s.ops[o].control.frame;
    assert OpInv(s, o) && FrameInv(s, f);
    KeepChain(s, s', o);
    KeepFramesOp(s, s', f, f, o);
  }

  lemma DroppedFrame(s: State, x: FrameId)
    requires Inv(s) && x < |s.frames| && MayDrop(s, s.frames[x].handle)
    ensures FrameInv(DoDropExchange(s, x), x)
  {
    assert FrameInv(s, x);
    if s.frames[x].handle.holder.Body? {
      assert FrameInv(s, s.frames[x].handle.holder.frame);
    }
  }

  lemma KeepsDropExchange(s: State, x: FrameId)
    requires Inv(s) && x < |s.frames| && MayDrop(s, s.frames[x].handle)
    ensures Inv(DoDropExchange(s, x))
  {
    assert FrameInv(s, x);
    DroppedFrame(s, x);
    if s.frames[x].handle.holder.Body? {
      assert FrameInv(s, s.frames[x].handle.holder.frame);
    }
    KeepFrames(s, DoDropExchange(s, x), x, x);
  }

  lemma KeepsDropRequest(s: State, x: FrameId)
    requires Inv(s) && x < |s.frames| && s.frames[x].handle.Requesting?
    ensures Inv(DoDropRequest(s, x))
  {
    assert FrameInv(s, x);
    KeepFrames(s, DoDropRequest(s, x), x, x);
  }

  lemma KeepsDropDestroy(s: State, x: FrameId)
    requires Inv(s) && x < |s.frames| && s.frames[x].handle.Destroying?
    ensures Inv(DoDropDestroy(s, x))
  {
    assert FrameInv(s, x);
    KeepFrames(s, DoDropDestroy(s, x), x, x);
  }

  lemma TransferKeepsBoth(s: State, f: FrameId)
    requires Inv(s) && f < |s.frames| && s.frames[f].control.Transferring? && CanTransfer(s, f)
    ensures FrameInv(DoTransfer(s, f), f)
    ensures FrameInv(DoTransfer(s, f), s.frames[f].continuation.value)
  {
    var s' := DoTransfer(s, f);
    var w, c := s.frames[f].control.site.worker, s.frames[f].continuation.value;
    assert FrameInv(s, f) && FrameInv(s, c) && OpInv(s, w);
  }

  lemma TransferKeepsOp(s: State, f: FrameId)
    requires Inv(s) && f < |s.frames| && s.frames[f].control.Transferring? && CanTransfer(s, f)
    ensures OpInv(DoTransfer(s, f), s.frames[f].control.site.worker)
  {
    var s' := DoTransfer(s, f);
    var w, c := s.frames[f].control.site.worker, s.frames[f].continuation.value;
    assert FrameInv(s, f) && FrameInv(s, c) && OpInv(s, w);
    if s.frames[f].activator {
      PushChain(s, s', c, w);
    } else {
      NotInChain(s, c, w);
      KeepChain(s, s', w);
    }
  }

  lemma KeepsTransfer(s: State, f: FrameId)
    requires Inv(s) && f < |s.frames| && s.frames[f].control.Transferring? && CanTransfer(s, f)
    ensures Inv(DoTransfer(s, f))
  {
    var s' := DoTransfer(s, f);
    var w, c := s.frames[f].control.site.worker, s.frames[f].continuation.value;
    assert FrameInv(s, f) && FrameInv(s, c) && OpInv(s, w);
    TransferKeepsBoth(s, f);
    TransferKeepsOp(s, f);
    KeepFramesOp(s, s', f, c, w);
  }

  lemma InlineFrame(s: State, f: FrameId)
    requires Inv(s) && f < |s.frames| && s.frames[f].control.Publishing? && CanPublish(s, f)
    requires s.frames[f].control.target.Leaf? && !Suspends(s, s.frames[f].control.target)
    ensures FrameInv(DoPublish(s, f), f)
  {
    assert FrameInv(s, f) && OpInv(s, s.frames[f].control.target.op);
  }

  lemma SuspendedFrame(s: State, f: FrameId)
    requires Inv(s) && f < |s.frames| && s.frames[f].control.Publishing? && CanPublish(s, f)
    requires s.frames[f].control.target.Leaf? && Suspends(s, s.frames[f].control.target)
    ensures FrameInv(DoPublish(s, f), f)
  {
    assert FrameInv(s, f) && OpInv(s, s.frames[f].control.target.op);
    if s.frames[f].control.site.On? {
      assert OpInv(s, s.frames[f].control.site.worker);
    }
  }

  /** Publishing fails: the callback has fired. */
  lemma KeepsPublishLeafInline(s: State, f: FrameId)
    requires Inv(s) && f < |s.frames| && s.frames[f].control.Publishing? && CanPublish(s, f)
    requires s.frames[f].control.target.Leaf? && !Suspends(s, s.frames[f].control.target)
    ensures Inv(DoPublish(s, f))
  {
    var o := s.frames[f].control.target.op;
    assert FrameInv(s, f) && OpInv(s, o);
    InlineFrame(s, f);
    KeepFramesOp(s, DoPublish(s, f), f, f, o);
  }

  /** Publishing fails: the awaited body has completed. */
  lemma PublishTaskInline(s: State, s': State, f: FrameId, p: FrameId)
    requires Inv(s) && f < |s.frames| && p < |s.frames| && p != f
    requires s.frames[f].control.Publishing? && s.frames[f].control.target == Task(p) && s.frames[p].state != Initial
    requires SameBut(s, s', {f, p}, {})
    requires var c := s.frames[f].control;
             s'.frames[f] == s.frames[f].(control := if c.site.On? && s.frames[f].tracked then Reacquiring(c.site, c.target)
                                                     else Reading(c.site, c.target))
    requires s'.frames[p] == s.frames[p].(continuation := Some(f), activator := s.frames[f].tracked)
    ensures Inv(s')
  {
    assert FrameInv(s, f) && FrameInv(s, p);
    KeepFrames(s, s', f, p);
  }

  lemma KeepsPublishLeafEager(s: State, f: FrameId)
    requires Inv(s) && f < |s.frames| && s.frames[f].control.Publishing? && CanPublish(s, f)
    requires s.frames[f].control.site.Eager? && s.frames[f].control.target.Leaf? && Suspends(s, s.frames[f].control.target)
    ensures Inv(DoPublish(s, f))
  {
    var o := s.frames[f].control.target.op;
    assert FrameInv(s, f) && OpInv(s, o);
    SuspendedFrame(s, f);
    KeepFramesOp(s, DoPublish(s, f), f, f, o);
  }

  lemma KeepsPublishLeafOn(s: State, f: FrameId)
    requires Inv(s) && f < |s.frames| && s.frames[f].control.Publishing? && CanPublish(s, f)
    requires s.frames[f].control.site.On? && s.frames[f].control.target.Leaf? && Suspends(s, s.frames[f].control.target)
    ensures Inv(DoPublish(s, f))
  {
    var s' := DoPublish(s, f);
    var o, w := s.frames[f].control.target.op, s.frames[f].control.site.worker;
    assert FrameInv(s, f) && OpInv(s, o) && OpInv(s, w);
    SuspendedFrame(s, f);
    KeepChain(s, s', w);
    KeepInv(s, s', {f}, {o, w});
  }

  lemma PublishedAwaited(s: State, s': State, U: set<OpId>, f: FrameId, p: FrameId)
    requires FrameInv(s, f) && FrameInv(s, p) && p != f && SameBut(s, s', {f, p}, U)
    requires s.frames[f].control.Publishing? && s.frames[f].control.target == Task(p) && s.frames[p].state == Initial
    requires s'.frames[f] == s.frames[f].(control := Suspended(Task(p)), suspensions := s.frames[f].suspensions + 1)
    requires s'.frames[p] == s.frames[p].(continuation := Some(f), activator := s.frames[f].tracked, state := Awaited)
    requires forall w | w in U && w < |s.ops| :: s.ops[w].control == Driving(f) && s'.ops[w] == s.ops[w].(control := Releasing)
    ensures FrameInv(s', p)
  {
  }

  lemma PublishedWaiter(s: State, s': State, U: set<OpId>, f: FrameId, p: FrameId)
    requires FrameInv(s, f) && FrameInv(s, p) && p != f && SameBut(s, s', {f, p}, U)
    requires s.frames[f].control.Publishing? && s.frames[f].control.target == Task(p) && s.frames[p].state == Initial
    requires s'.frames[f] == s.frames[f].(control := Suspended(Task(p)), suspensions := s.frames[f].suspensions + 1)
    requires s'.frames[p] == s.frames[p].(continuation := Some(f), activator := s.frames[f].tracked, state := Awaited)
    requires forall w | w in U && w < |s.ops| :: s.ops[w].control == Driving(f) && s'.ops[w] == s.ops[w].(control := Releasing)
    ensures FrameInv(s', f)
  {
  }

  lemma PublishTaskEager(s: State, s': State, f: FrameId, p: FrameId)
    requires Inv(s) && f < |s.frames| && p < |s.frames| && p != f
    requires s.frames[f].control == Publishing(Eager, Task(p)) && s.frames[p].state == Initial
    requires SameBut(s, s', {f, p}, {})
    requires s'.frames[f] == s.frames[f].(control := Suspended(Task(p)), suspensions := s.frames[f].suspensions + 1)
    requires s'.frames[p] == s.frames[p].(continuation := Some(f), activator := s.frames[f].tracked, state := Awaited)
    ensures Inv(s')
  {
    assert FrameInv(s, f) && FrameInv(s, p);
    PublishedAwaited(s, s', {}, f, p);
    KeepFrames(s, s', f, p);
  }

  lemma PublishTaskOn(s: State, s': State, f: FrameId, p: FrameId, w: OpId)
    requires Inv(s) && f < |s.frames| && p < |s.frames| && p != f && w < |s.ops|
    requires s.frames[f].control == Publishing(On(w), Task(p)) && s.frames[p].state == Initial
    requires SameBut(s, s', {f, p}, {w})
    requires s'.frames[f] == s.frames[f].(control := Suspended(Task(p)), suspensions := s.frames[f].suspensions + 1)
    requires s'.frames[p] == s.frames[p].(continuation := Some(f), activator := s.frames[f].tracked, state := Awaited)
    requires s'.ops[w] == s.ops[w].(control := Releasing)
    ensures Inv(s')
  {
    assert FrameInv(s, f) && FrameInv(s, p) && OpInv(s, w);
    PublishedAwaited(s, s', {w}, f, p);
    PublishedWaiter(s, s', {w}, f, p);
    PublishedOn(s, s', f, p, w);
    KeepFramesOp(s, s', f, p, w);
  }

  lemma PublishedOn(s: State, s': State, f: FrameId, p: FrameId, w: OpId)
    requires Inv(s) && f < |s.frames| && p < |s.frames| && p != f && w < |s.ops|
    requires s.frames[f].control == Publishing(On(w), Task(p)) && s.frames[p].state == Initial
    requires SameBut(s, s', {f, p}, {w})
    requires s'.frames[f] == s.frames[f].(control := Suspended(Task(p)), suspensions := s.frames[f].suspensions + 1)
    requires s'.frames[p] == s.frames[p].(continuation := Some(f), activator := s.frames[f].tracked, state := Awaited)
    requires s'.ops[w] == s.ops[w].(control := Releasing)
    ensures OpInv(s', w) && OpHarmless(s, s', {f, p}, w)
  {
    assert FrameInv(s, f) && FrameInv(s, p) && OpInv(s, w);
    KeepChain(s, s', w);
  }

  lemma KeepsPublishTask(s: State, f: FrameId)
    requires Inv(s) && f < |s.frames| && s.frames[f].control.Publishing? && CanPublish(s, f)
    requires s.frames[f].control.target.Task?
    ensures Inv(DoPublish(s, f))
  {
    var s' := DoPublish(s, f);
    var p := s.frames[f].control.target.frame;
    if s.frames[p].state != Initial {
      PublishTaskInline(s, s', f, p);
    } else {
      match s.frames[f].control.site
      case Eager => PublishTaskEager(s, s', f, p);
      case On(w) => PublishTaskOn(s, s', f, p, w);
    }
  }

  /** The value a frame takes when its body leaves the stack for good. */
  ghost predicate Leaves(a: Frame, t: Frame) {
    && t.control.Finished?
    && match a.control
       case Returned(_) => a.state == Initial && t == a.(state := Completed, control := Finished)
       case Parking(_) => t == a.(control := Finished, owner := DestroyRequested)
       case Running(_) => !a.tracked && t == a.(control := Finished, destroyed := 1)
       case _ => false
  }

  lemma LeftFrame(s: State, f: FrameId, t: Frame)
    requires Inv(s) && f < |s.frames| && Leaves(s.frames[f], t) && CanLeave(s, f)
    ensures FrameInv(LeaveStack(s, f, t, s.frames[f].control.site), f)
  {
    assert FrameInv(s, f);
    if s.frames[f].control.site.On? {
      assert OpInv(s, s.frames[f].control.site.worker);
    }
  }

  lemma KeepsLeave(s: State, f: FrameId, t: Frame)
    requires Inv(s) && f < |s.frames| && Leaves(s.frames[f], t) && CanLeave(s, f)
    ensures Inv(LeaveStack(s, f, t, s.frames[f].control.site))
  {
    var s' := LeaveStack(s, f, t, s.frames[f].control.site);
    assert FrameInv(s, f);
    LeftFrame(s, f, t);
    match s.frames[f].control.site
    case Eager => KeepFrames(s, s', f, f);
    case On(w) =>
      assert OpInv(s, w);
      KeepChain(s, s', w);
      KeepFramesOp(s, s', f, f, w);
  }

  lemma KeepsFinalExchange(s: State, f: FrameId)
    requires Inv(s) && f < |s.frames| && s.frames[f].control.Returned? && CanLeave(s, f)
    ensures Inv(DoFinalExchange(s, f))
  {
    assert FrameInv(s, f);
    if s.frames[f].state == Awaited || s.frames[f].state == Abandoned {
      KeepFrames(s, DoFinalExchange(s, f), f, f);
    } else {
      KeepsLeave(s, f, s.frames[f].(state := Completed, control := Finished));
    }
  }

  lemma KeepsPark(s: State, f: FrameId)
    requires Inv(s) && f < |s.frames| && s.frames[f].control.Parking? && CanLeave(s, f)
    ensures Inv(DoPark(s, f))
  {
    assert FrameInv(s, f);
    KeepsLeave(s, f, s.frames[f].(owner := DestroyRequested, control := Finished));
  }

  lemma KeepsEndRunner(s: State, f: FrameId)
    requires Inv(s) && f < |s.frames| && !s.frames[f].tracked && s.frames[f].control.Running? && CanLeave(s, f)
    ensures Inv(DoEndRunner(s, f))
  {
    assert FrameInv(s, f);
    KeepsLeave(s, f, s.frames[f].(control := Finished, destroyed := 1));
  }
}
