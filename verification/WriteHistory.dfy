/** Many write sessions on one object: what its history is made of. Each version of the object has an entity tag of
    its own, which is its place in the history. */
module WriteHistory {
  import opened Basics
  import opened WriteSession
  import opened WriteOverlay
  import opened WritableAsset

  datatype Content = Absent | Present(bytes: seq<Byte>)

  /** A session with what it started from and what was written while it was open. */
  datatype Tracked = Tracked(session: Session, seed: seq<Byte>, patches: seq<Patch>)

  datatype Cause = Outside | Put(session: nat)

  /** `causes[n]` made version `n + 1` from version `n`. */
  datatype World = World(history: seq<Content>, causes: seq<Cause>, sessions: seq<Tracked>)

  /** What the store makes of a PUT. It may take it and the answer be lost. */
  datatype Reply = Refused | Took(reported: bool)

  datatype Step =
    | OpenStep(mode: Mode, conditions: Conditions, directory: nat)
    | WriteStep(index: nat, patch: Patch, outcome: Outcome)
    | CloseStep(index: nat, clean: bool, readBack: bool, reply: Reply)
    | DestroyStep(index: nat)
    | OutsideStep(content: Content)

  function Current(w: World): Content
    requires w.history != []
  {
    w.history[|w.history| - 1]
  }

  /** A PUT is taken only when its precondition holds. */
  predicate Admits(w: World, precondition: Precondition)
    requires w.history != []
  {
    match precondition
    case Overwrite => true
    case FailIfPresent => Current(w) == Absent
    case MatchEtag(etag) => Current(w).Present? && etag == |w.history| - 1
  }

  /** What is materialized is the current version, with the tag of that version if it comes with one. */
  predicate Honest(w: World, m: Materialized)
    requires w.history != []
  {
    match m
    case Found(bytes, etag) => Current(w) == Present(bytes) && (etag.Some? ==> etag.value == |w.history| - 1)
    case Missing => Current(w) == Absent
    case Unavailable => true
  }

  /** `ifMatch` says whether the route takes conditional writes; it does not change. */
  predicate Enabled(ifMatch: bool, w: World, step: Step) {
    w.history != [] &&
    match step
    case OpenStep(_, c, _) => c.ifMatch == ifMatch && Honest(w, c.materialized)
    case WriteStep(i, patch, outcome) => i < |w.sessions| && (outcome.Wrote? ==> outcome.count <= |patch.data|)
    case CloseStep(i, clean, readBack, reply) =>
      i < |w.sessions| &&
      (reply.Took? ==>
         var put := AfterClose(w.sessions[i].session, clean, readBack).1; put.Some? ==> Admits(w, put.value.precondition))
    case DestroyStep(i) => i < |w.sessions|
    case OutsideStep(_) => true
  }

  function Next(w: World, step: Step): World
    requires Enabled(true, w, step) || Enabled(false, w, step)
  {
    match step
    case OpenStep(mode, c, directory) =>
      var start := StartOf(mode, c);
      if start == None then w
      else
        var s := Session(mode, false, false, true, start.value.seed, start.value.precondition, Some(directory));
        w.(sessions := w.sessions + [Tracked(s, start.value.seed, [])])
    case WriteStep(i, patch, outcome) =>
      var t := w.sessions[i];
      var s := AfterWrite(t.session, patch, outcome).0;
      w.(sessions := w.sessions[i := t.(session := s, patches := if t.session.closed then t.patches else t.patches + [patch])])
    case CloseStep(i, clean, readBack, reply) =>
      var (s, put) := AfterClose(w.sessions[i].session, clean, readBack);
      var closed := w.(sessions := w.sessions[i := w.sessions[i].(session := s)]);
      if put.Some? && reply.Took? then
        closed.(history := w.history + [Present(put.value.bytes)], causes := w.causes + [Put(i)])
      else closed
    case DestroyStep(i) => w.(sessions := w.sessions[i := w.sessions[i].(session := AfterDestroy(w.sessions[i].session))])
    case OutsideStep(content) => w.(history := w.history + [content], causes := w.causes + [Outside])
  }

  // ---------------------------------------------------------------------------
  // The invariant, on a route that takes conditional writes.
  // ---------------------------------------------------------------------------

  /** The bytes a session's writes are laid over: none to replace, the object's, if there is one, to update. */
  function Base(mode: Mode, content: Content): seq<Byte> {
    if mode == Update && content.Present? then content.bytes else []
  }

  ghost predicate SessionInv(w: World, i: nat) {
    i < |w.sessions| ==>
      var t := w.sessions[i];
      && (!t.session.closed && !t.session.writeFailed ==> t.session.data == Overlaid(t.seed, t.patches))
      && match t.session.precondition
         case Overwrite => t.session.mode == Replace && t.seed == []
         case FailIfPresent => t.session.mode == Update && t.seed == []
         case MatchEtag(etag) => t.session.mode == Update && etag < |w.history| && w.history[etag] == Present(t.seed)
  }

  /** The version a session put is its writes laid over the version before. */
  ghost predicate VersionInv(w: World, n: nat) {
    n < |w.causes| && w.causes[n].Put? && n + 1 < |w.history| ==>
      var i := w.causes[n].session;
      && i < |w.sessions| && w.sessions[i].session.closed
      && w.history[n + 1] == Present(Overlaid(Base(w.sessions[i].session.mode, w.history[n]), w.sessions[i].patches))
  }

  ghost predicate Inv(w: World) {
    && |w.history| == |w.causes| + 1
    && (forall i :: SessionInv(w, i))
    && (forall n :: VersionInv(w, n))
    && (forall m, n | 0 <= m < n < |w.causes| && w.causes[m].Put? && w.causes[n].Put? :: w.causes[m] != w.causes[n])
  }

  lemma KeepsOpen(w: World, step: Step)
    requires Inv(w) && Enabled(true, w, step) && step.OpenStep?
    ensures Inv(Next(w, step))
  {
    var w' := Next(w, step);
    forall i ensures SessionInv(w', i) {
      assert SessionInv(w, i);
    }
    forall n ensures VersionInv(w', n) {
      assert VersionInv(w, n);
    }
  }

  /** A write that was complete is laid over what was written before. */
  lemma WriteIsLaidOver(t: Tracked, patch: Patch, outcome: Outcome)
    requires outcome.Wrote? ==> outcome.count <= |patch.data|
    requires !t.session.writeFailed ==> t.session.data == Overlaid(t.seed, t.patches)
    ensures var s := AfterWrite(t.session, patch, outcome).0; !s.writeFailed ==> s.data == Overlaid(t.seed, t.patches + [patch])
  {
    OverlaidMore(t.seed, t.patches, patch);
    assert patch.data[..|patch.data|] == patch.data;
  }

  lemma KeepsWrite(w: World, k: nat, patch: Patch, outcome: Outcome)
    requires Inv(w) && Enabled(true, w, WriteStep(k, patch, outcome))
    ensures Inv(Next(w, WriteStep(k, patch, outcome)))
  {
    var w', t := Next(w, WriteStep(k, patch, outcome)), w.sessions[k];
    assert SessionInv(w, k);
    if !t.session.closed {
      WriteIsLaidOver(t, patch, outcome);
    }
    forall i ensures SessionInv(w', i) {
      assert SessionInv(w, i);
    }
    forall n ensures VersionInv(w', n) {
      assert VersionInv(w, n);
    }
  }

  lemma KeepsDestroy(w: World, k: nat)
    requires Inv(w) && Enabled(true, w, DestroyStep(k))
    ensures Inv(Next(w, DestroyStep(k)))
  {
    var w' := Next(w, DestroyStep(k));
    forall i ensures SessionInv(w', i) {
      assert SessionInv(w, i);
    }
    forall n ensures VersionInv(w', n) {
      assert VersionInv(w, n);
    }
  }

  lemma KeepsOutside(w: World, content: Content)
    requires Inv(w)
    ensures Inv(Next(w, OutsideStep(content)))
  {
    var w' := Next(w, OutsideStep(content));
    forall i ensures SessionInv(w', i) {
      assert SessionInv(w, i);
    }
    forall n ensures VersionInv(w', n) {
      assert VersionInv(w, n);
    }
  }

  /** Whatever precondition the PUT was taken on, the seed was what the current version gives. */
  lemma SeedIsCurrent(w: World, k: nat)
    requires Inv(w) && k < |w.sessions| && Admits(w, w.sessions[k].session.precondition)
    ensures w.sessions[k].seed == Base(w.sessions[k].session.mode, Current(w))
  {
    assert SessionInv(w, k);
  }

  lemma KeepsClose(w: World, step: Step)
    requires Inv(w) && Enabled(true, w, step) && step.CloseStep?
    ensures Inv(Next(w, step))
  {
    var w', k := Next(w, step), step.index;
    assert SessionInv(w, k);
    forall i ensures SessionInv(w', i) {
      assert SessionInv(w, i);
    }
    if |w'.causes| > |w.causes| {
      SeedIsCurrent(w, k);
    }
    forall n ensures VersionInv(w', n) {
      assert VersionInv(w, n);
    }
    forall m, n | 0 <= m < n < |w'.causes| && w'.causes[m].Put? && w'.causes[n].Put? ensures w'.causes[m] != w'.causes[n] {
      assert VersionInv(w, m);
    }
  }

  lemma StepKeepsInv(w: World, step: Step)
    requires Inv(w) && Enabled(true, w, step)
    ensures Inv(Next(w, step))
  {
    match step
    case OpenStep(_, _, _) => KeepsOpen(w, step);
    case WriteStep(i, patch, outcome) => KeepsWrite(w, i, patch, outcome);
    case CloseStep(_, _, _, _) => KeepsClose(w, step);
    case DestroyStep(i) => KeepsDestroy(w, i);
    case OutsideStep(content) => KeepsOutside(w, content);
  }

  // ---------------------------------------------------------------------------
  // The history of the object.
  // ---------------------------------------------------------------------------

  /** Steps of a run, from wherever it has come to. */
  ghost predicate Leads(ifMatch: bool, run: seq<World>, steps: seq<Step>) {
    && |run| == |steps| + 1
    && forall n | 0 <= n < |steps| :: Enabled(ifMatch, run[n], steps[n]) && run[n + 1] == Next(run[n], steps[n])
  }

  /** A run from an object nobody has opened, and its steps. */
  ghost predicate IsRun(ifMatch: bool, run: seq<World>, steps: seq<Step>) {
    Leads(ifMatch, run, steps) && |run[0].history| == 1 && run[0].causes == [] && run[0].sessions == []
  }

  lemma {:induction false} RunKeepsInv(run: seq<World>, steps: seq<Step>, n: nat)
    requires IsRun(true, run, steps) && n < |run|
    ensures Inv(run[n])
    decreases n
  {
    if n > 0 {
      RunKeepsInv(run, steps, n - 1);
      StepKeepsInv(run[n - 1], steps[n - 1]);
    }
  }

  /** What became of an object: changed from outside, or patched by a session. */
  datatype Event = Changed(content: Content) | Patched(mode: Mode, patches: seq<Patch>)

  function Apply(content: Content, event: Event): Content {
    match event
    case Changed(to) => to
    case Patched(mode, patches) => Present(Overlaid(Base(mode, content), patches))
  }

  function Fold(content: Content, events: seq<Event>): Content {
    if events == [] then content else Apply(Fold(content, events[..|events| - 1]), events[|events| - 1])
  }

  /** The events of a history, in the order of the PUTs. */
  function Events(w: World): seq<Event>
    requires |w.history| == |w.causes| + 1 && forall n | 0 <= n < |w.causes| && w.causes[n].Put? :: w.causes[n].session < |w.sessions|
  {
    seq(|w.causes|, n requires 0 <= n < |w.causes| =>
      if w.causes[n].Put? then Patched(w.sessions[w.causes[n].session].session.mode, w.sessions[w.causes[n].session].patches)
      else Changed(w.history[n + 1]))
  }

  lemma {:induction false} FoldIs(w: World, n: nat)
    requires Inv(w) && n < |w.history|
    requires forall m | 0 <= m < |w.causes| && w.causes[m].Put? :: w.causes[m].session < |w.sessions|
    ensures Fold(w.history[0], Events(w)[..n]) == w.history[n]
    decreases n
  {
    if n > 0 {
      FoldIs(w, n - 1);
      assert Events(w)[..n][..n - 1] == Events(w)[..n - 1];
      assert VersionInv(w, n - 1);
    }
  }

  /** On a route that takes conditional writes, every version of the object is the first one with the sessions' writes
      folded over it, in the order of their PUTs: an update is laid over exactly the version it replaces, or over
      nothing when there is no object, and a replacement over nothing. No session puts twice. */
  lemma HistoryIsFold(run: seq<World>, steps: seq<Step>, k: nat, n: nat)
    requires IsRun(true, run, steps) && k < |run| && n < |run[k].history|
    ensures var w := run[k];
            && |w.history| == |w.causes| + 1
            && (forall m | 0 <= m < |w.causes| && w.causes[m].Put? :: w.causes[m].session < |w.sessions|)
            && Fold(w.history[0], Events(w)[..n]) == w.history[n]
            && (forall l, m | 0 <= l < m < |w.causes| && w.causes[l].Put? && w.causes[m].Put? :: w.causes[l] != w.causes[m])
  {
    var w := run[k];
    RunKeepsInv(run, steps, k);
    forall m | 0 <= m < |w.causes| && w.causes[m].Put? ensures w.causes[m].session < |w.sessions| {
      assert VersionInv(w, m);
    }
    FoldIs(w, n);
  }

  // ---------------------------------------------------------------------------
  // Any route.
  // ---------------------------------------------------------------------------

  /** Whatever the route, an open session's file is its writes laid over its seed, as long as none has failed. */
  ghost predicate DataInv(w: World, i: nat) {
    i < |w.sessions| ==>
      var t := w.sessions[i];
      !t.session.closed && !t.session.writeFailed ==> t.session.data == Overlaid(t.seed, t.patches)
  }

  ghost predicate AllData(w: World) {
    forall i :: DataInv(w, i)
  }

  lemma StepKeepsData(ifMatch: bool, w: World, step: Step)
    requires AllData(w) && Enabled(ifMatch, w, step)
    ensures AllData(Next(w, step))
  {
    var w' := Next(w, step);
    if step.WriteStep? {
      assert DataInv(w, step.index);
      if !w.sessions[step.index].session.closed {
        WriteIsLaidOver(w.sessions[step.index], step.patch, step.outcome);
      }
    }
    forall i ensures DataInv(w', i) {
      assert DataInv(w, i);
    }
  }

  lemma {:induction false} RunKeepsData(ifMatch: bool, run: seq<World>, steps: seq<Step>, n: nat)
    requires IsRun(ifMatch, run, steps) && n < |run|
    ensures AllData(run[n])
    decreases n
  {
    if n > 0 {
      RunKeepsData(ifMatch, run, steps, n - 1);
      StepKeepsData(ifMatch, run[n - 1], steps[n - 1]);
    }
  }

  /** On any route, the version a session puts is its writes laid over the version it replaces if and only if the version
      it was opened on and the one it replaces agree outside the ranges it wrote. */
  lemma LaidOverExactly(ifMatch: bool, run: seq<World>, steps: seq<Step>, n: nat, i: nat)
    requires IsRun(ifMatch, run, steps) && n < |steps| && steps[n].CloseStep? && steps[n].index == i && steps[n].reply.Took?
    requires AfterClose(run[n].sessions[i].session, steps[n].clean, steps[n].readBack).1.Some?
    ensures run[n].history != [] && |run[n + 1].history| == |run[n].history| + 1
    ensures var t := run[n].sessions[i];
            var base := Base(t.session.mode, Current(run[n]));
            Current(run[n + 1]) == Present(Overlaid(base, t.patches)) <==> AgreeOutside(t.seed, base, t.patches)
  {
    var t := run[n].sessions[i];
    RunKeepsData(ifMatch, run, steps, n);
    assert DataInv(run[n], i);
    SameOverlaidExactly(t.seed, Base(t.session.mode, Current(run[n])), t.patches);
  }

  // ---------------------------------------------------------------------------
  // A route without conditional writes.
  // ---------------------------------------------------------------------------

  lemma LeadsOn(ifMatch: bool, run: seq<World>, steps: seq<Step>, run': seq<World>, steps': seq<Step>)
    requires Leads(ifMatch, run, steps) && Leads(ifMatch, run', steps') && run'[0] == run[|run| - 1]
    ensures Leads(ifMatch, run + run'[1..], steps + steps')
  {
    var all, both := run + run'[1..], steps + steps';
    forall n | 0 <= n < |both| ensures Enabled(ifMatch, all[n], both[n]) && all[n + 1] == Next(all[n], both[n]) {
      if n >= |steps| {
        assert all[n] == run'[n - |steps|] && all[n + 1] == run'[n + 1 - |steps|];
      }
    }
  }

  const Zero: seq<Byte> := [0, 0]
  const One: Patch := Patch(0, [1])
  const Two: Patch := Patch(1, [2])

  lemma Overlays()
    ensures Overlay([0, 0], One) == [1, 0] && Overlay([0, 0], Two) == [0, 2] && Overlay([1, 0], Two) == [1, 2]
  {
  }

  /** A session of the example below. */
  ghost predicate IsWriting(t: Tracked, data: seq<Byte>, patches: seq<Patch>) {
    t.session == Session(Update, false, false, true, data, Overwrite, Some(0)) && t.patches == patches
  }

  lemma TwoOpen() returns (run: seq<World>, steps: seq<Step>)
    ensures |run| == 3 && Leads(false, run, steps) && run[0] == World([Present(Zero)], [], [])
    ensures var w := run[2];
            w.history == [Present(Zero)] && w.causes == [] && |w.sessions| == 2 && IsWriting(w.sessions[0], Zero, []) && IsWriting(w.sessions[1], Zero, [])
  {
    var open := OpenStep(Update, Conditions(true, Found(Zero, None), false, true, true), 0);
    var w0 := World([Present(Zero)], [], []);
    var w1 := Next(w0, open);
    var w2 := Next(w1, open);
    run, steps := [w0, w1, w2], [open, open];
  }

  lemma TwoWrite(w2: World) returns (run: seq<World>, steps: seq<Step>)
    requires w2.history == [Present(Zero)] && w2.causes == [] && |w2.sessions| == 2
    requires IsWriting(w2.sessions[0], Zero, []) && IsWriting(w2.sessions[1], Zero, [])
    ensures |run| == 3 && Leads(false, run, steps) && run[0] == w2
    ensures var w := run[2];
            && w.history == [Present(Zero)] && w.causes == [] && |w.sessions| == 2
            && IsWriting(w.sessions[0], [1, 0], [One]) && IsWriting(w.sessions[1], [0, 2], [Two])
  {
    Overlays();
    assert One.data[..1] == One.data && Two.data[..1] == Two.data;
    steps := [WriteStep(0, One, Wrote(1)), WriteStep(1, Two, Wrote(1))];
    var w3 := Next(w2, steps[0]);
    var w4 := Next(w3, steps[1]);
    run := [w2, w3, w4];
  }

  lemma TwoClose(w4: World) returns (run: seq<World>, steps: seq<Step>)
    requires w4.history == [Present(Zero)] && w4.causes == [] && |w4.sessions| == 2
    requires IsWriting(w4.sessions[0], [1, 0], [One]) && IsWriting(w4.sessions[1], [0, 2], [Two])
    ensures |run| == 3 && Leads(false, run, steps) && run[0] == w4
    ensures var w := run[2];
            && w.history == [Present(Zero), Present([1, 0]), Present([0, 2])] && w.causes == [Put(0), Put(1)]
            && |w.sessions| == 2 && w.sessions[1].session.mode == Update && w.sessions[1].patches == [Two]
  {
    steps := [CloseStep(0, true, true, Took(true)), CloseStep(1, true, true, Took(true))];
    var w5 := Next(w4, steps[0]);
    var w6 := Next(w5, steps[1]);
    run := [w4, w5, w6];
  }

  /** There two sessions may update the same version, and the second undoes what the first did. */
  lemma UpdateMayBeLost() returns (run: seq<World>, steps: seq<Step>)
    ensures IsRun(false, run, steps) && |run| == 7
    ensures var w := run[6];
            && w.causes == [Put(0), Put(1)] && |w.history| == 3 && |w.sessions| == 2 && w.sessions[1].session.mode == Update
            && w.history[2] != Present(Overlaid(Base(Update, w.history[1]), w.sessions[1].patches))
  {
    var run', steps';
    run, steps := TwoOpen();
    run', steps' := TwoWrite(run[2]);
    LeadsOn(false, run, steps, run', steps');
    run, steps := run + run'[1..], steps + steps';
    run', steps' := TwoClose(run[4]);
    LeadsOn(false, run, steps, run', steps');
    run, steps := run + run'[1..], steps + steps';
    SecondUndoesFirst();
  }

  lemma SecondUndoesFirst()
    ensures Overlaid([1, 0], [Two]) != [0, 2]
  {
    Overlays();
    OverlaidMore([1, 0], [], Two);
    assert [] + [Two] == [Two];
  }
}
