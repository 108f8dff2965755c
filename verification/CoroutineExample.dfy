/** `sync_wait` of a task that awaits one operation, from the call to the last destruction. */
module CoroutineExample {
  import opened Basics
  import opened Coroutine
  import opened CoroutineSafety

  /** Steps of a run, from wherever it has come to. */
  ghost predicate Leads(states: seq<State>, steps: seq<Step>) {
    |states| == |steps| + 1 && forall i | 0 <= i < |steps| :: IsStep(states[i], steps[i], states[i + 1])
  }

  lemma LeadsOn(a: seq<State>, p: seq<Step>, b: seq<State>, q: seq<Step>)
    requires Leads(a, p) && Leads(b, q) && b[0] == a[|a| - 1]
    ensures Leads(a + b[1..], p + q)
  {
    var all, both := a + b[1..], p + q;
    forall i | 0 <= i < |both| ensures IsStep(all[i], both[i], all[i + 1]) {
      if i >= |p| {
        assert all[i] == b[i - |p|] && all[i + 1] == b[i + 1 - |p|] && both[i] == q[i - |p|];
      }
    }
  }

  /** The task, suspended on the operation. */
  const Asleep: Frame :=
    NewTask(External, 0.0).(control := Suspended(Leaf(0)), handle := Held(External), suspensions := 1)

  const Sent: Op := Op(Waiting, 0, false, Pending, None, [])

  /** The runner, suspended on the task. */
  const Runner: Frame := NewRunner(1.0).(control := Suspended(Task(0)), suspensions := 1)

  const AwaitedTask: Frame := Asleep.(handle := Held(Body(1)), continuation := Some(1), state := Awaited)

  /** The task on the stack of the worker. */
  const AwakeTask: Frame :=
    AwaitedTask.(control := Reading(On(0), Leaf(0)), resumptions := 1, linked := true, active := Some(0), owner := Resuming)

  const Worker: Op := Op(Fired, 0, true, Driving(0), Some(0), [0])

  const DoneTask: Frame := AwakeTask.(control := Finished, value := true, state := Completed)

  const AwakeRunner: Frame := Runner.(control := Reading(On(0), Task(0)), resumptions := 1)

  const LeavingTask: Frame := NewTask(External, 0.0).(control := Publishing(Eager, Leaf(0)))

  /** The task is called and submits the operation. */
  lemma CallTask() returns (states: seq<State>, steps: seq<Step>)
    ensures Leads(states, steps) && |states| == 4 && states[0] == InitialState
    ensures states[3] == State([LeavingTask], [Sent.(state := Fresh)])
  {
    var s1 := Apply(InitialState, SpawnTask(External, 0.0));
    assert s1.frames == [NewTask(External, 0.0)];
    var s2 := Apply(s1, Submit(0));
    assert s2.ops == [Sent.(state := Fresh)];
    var s3 := Apply(s2, Detach(0));
    assert s3.frames == [LeavingTask];
    states, steps := [InitialState, s1, s2, s3], [SpawnTask(External, 0.0), Submit(0), Detach(0)];
  }

  /** It suspends, and the call returns. */
  lemma SuspendTask() returns (states: seq<State>, steps: seq<Step>)
    ensures Leads(states, steps) && |states| == 3 && states[0] == State([LeavingTask], [Sent.(state := Fresh)])
    ensures states[2] == State([Asleep], [Sent])
  {
    var s0 := State([LeavingTask], [Sent.(state := Fresh)]);
    var s1 := Apply(s0, Publish(0));
    assert s1.ops == [Sent];
    var s2 := Apply(s1, ReturnCall(0));
    assert s2.frames == [Asleep];
    states, steps := [s0, s1, s2], [Publish(0), ReturnCall(0)];
  }

  /** The runner takes it and awaits it. */
  lemma CallRunner() returns (states: seq<State>, steps: seq<Step>)
    ensures Leads(states, steps) && |states| == 5 && states[0] == State([Asleep], [Sent])
    ensures states[4] == State([AwaitedTask, Runner], [Sent])
  {
    var s0 := State([Asleep], [Sent]);
    var s1 := Apply(s0, SpawnRunner(0, 1.0));
    assert s1.frames == [Asleep.(handle := Held(Body(1))), NewRunner(1.0)];
    var s2 := Apply(s1, CheckReady(1, 0));
    var s3 := Apply(s2, Detach(1));
    assert s3.frames == [Asleep.(handle := Held(Body(1))), NewRunner(1.0).(control := Publishing(Eager, Task(0)))];
    var s4 := Apply(s3, Publish(1));
    assert s4.frames == [AwaitedTask, Runner];
    states := [s0, s1, s2, s3, s4];
    steps := [SpawnRunner(0, 1.0), CheckReady(1, 0), Detach(1), Publish(1)];
  }

  const Waking: Op := Op(Fired, 0, true, Activating, None, [])

  /** The callback fires and finds the task suspended. */
  lemma Fire() returns (states: seq<State>, steps: seq<Step>)
    ensures Leads(states, steps) && |states| == 3 && states[0] == State([AwaitedTask, Runner], [Sent])
    ensures states[2] == State([AwaitedTask, Runner], [Waking])
  {
    var s0 := State([AwaitedTask, Runner], [Sent]);
    var s1 := Apply(s0, Populate(0));
    var s2 := Apply(s1, Deliver(0));
    assert s2.ops == [Waking];
    states, steps := [s0, s1, s2], [Populate(0), Deliver(0)];
  }

  /** It wakes the task on its stack. */
  lemma Wake() returns (states: seq<State>, steps: seq<Step>)
    ensures Leads(states, steps) && |states| == 2 && states[0] == State([AwaitedTask, Runner], [Waking])
    ensures states[1] == State([AwakeTask, Runner], [Worker])
  {
    var s0 := State([AwaitedTask, Runner], [Waking]);
    var s1 := Apply(s0, Activate(0));
    assert s1.ops[0].chain == [0];
    assert s1.frames == [AwakeTask, Runner] && s1.ops == [Worker];
    states, steps := [s0, s1], [Activate(0)];
  }

  const ReturnedTask: Frame := AwakeTask.(control := Returned(On(0)), value := true)

  /** The task takes the outcome and returns. */
  lemma ReturnTask() returns (states: seq<State>, steps: seq<Step>)
    ensures Leads(states, steps) && |states| == 3 && states[0] == State([AwakeTask, Runner], [Worker])
    ensures states[2] == State([ReturnedTask, Runner], [Worker])
  {
    var s0 := State([AwakeTask, Runner], [Worker]);
    var s1 := Apply(s0, Take(0));
    var s2 := Apply(s1, Return(0));
    assert s2.frames == [ReturnedTask, Runner];
    states, steps := [s0, s1, s2], [Take(0), Return(0)];
  }

  /** It ends and transfers to the runner. */
  lemma EndTask() returns (states: seq<State>, steps: seq<Step>)
    ensures Leads(states, steps) && |states| == 3 && states[0] == State([ReturnedTask, Runner], [Worker])
    ensures states[2] == State([DoneTask, AwakeRunner], [Worker.(control := Driving(1))])
  {
    var s0 := State([ReturnedTask, Runner], [Worker]);
    var s1 := Apply(s0, FinalExchange(0));
    assert s1 == State([DoneTask.(control := Transferring(On(0))), Runner], [Worker]);
    var s2 := Apply(s1, Transfer(0));
    assert s2.frames == [DoneTask, AwakeRunner] && s2.ops == [Worker.(control := Driving(1))];
    states, steps := [s0, s1, s2], [FinalExchange(0), Transfer(0)];
  }

  /** The task object is dropped, which leaves the frame to the worker. */
  const LeftTask: Frame := DoneTask.(state := Abandoned, owner := DestroyRequested, handle := Gone)

  const EndedRunner: Frame := AwakeRunner.(control := Finished, destroyed := 1)

  const RunningRunner: Frame := AwakeRunner.(control := Running(On(0)))

  const DroppedTask: Frame := DoneTask.(state := Abandoned, handle := Requesting)

  /** The runner takes the value and starts to drop the task. */
  lemma TakeValue() returns (states: seq<State>, steps: seq<Step>)
    ensures Leads(states, steps) && |states| == 3
    ensures states[0] == State([DoneTask, AwakeRunner], [Worker.(control := Driving(1))])
    ensures states[2] == State([DroppedTask, RunningRunner], [Worker.(control := Driving(1))])
  {
    var s0 := State([DoneTask, AwakeRunner], [Worker.(control := Driving(1))]);
    var s1 := Apply(s0, Take(1));
    assert s1.frames == [DoneTask, RunningRunner];
    var s2 := Apply(s1, DropExchange(0));
    assert s2.frames == [DroppedTask, RunningRunner];
    states, steps := [s0, s1, s2], [Take(1), DropExchange(0)];
  }

  /** It leaves the frame to the worker and ends. */
  lemma EndRun() returns (states: seq<State>, steps: seq<Step>)
    ensures Leads(states, steps) && |states| == 3
    ensures states[0] == State([DroppedTask, RunningRunner], [Worker.(control := Driving(1))])
    ensures states[2] == State([LeftTask, EndedRunner], [Worker.(control := Releasing)])
  {
    var s0 := State([DroppedTask, RunningRunner], [Worker.(control := Driving(1))]);
    var s1 := Apply(s0, DropRequest(0));
    assert s1.frames == [LeftTask, RunningRunner];
    var s2 := Apply(s1, EndRunner(1));
    assert s2.frames == [LeftTask, EndedRunner] && s2.ops == [Worker.(control := Releasing)];
    states, steps := [s0, s1, s2], [DropRequest(0), EndRunner(1)];
  }

  /** The worker lets go of the task's frame and destroys it. */
  lemma LetGoOfTask() returns (states: seq<State>, steps: seq<Step>)
    ensures Leads(states, steps) && |states| == 4 && states[0] == State([LeftTask, EndedRunner], [Worker.(control := Releasing)])
    ensures var s := states[3];
            && |s.frames| == 2 && s.frames[1] == EndedRunner && s.frames[0].control == Finished && s.frames[0].destroyed == 1
            && s.frames[0].suspensions == 1 && s.frames[0].resumptions == 1 && s.frames[0].value
            && |s.ops| == 1 && s.ops[0].control == Retired
  {
    var s0 := State([LeftTask, EndedRunner], [Worker.(control := Releasing)]);
    var s1 := Apply(s0, ReleaseNext(0));
    assert s1.ops == [Worker.(control := Reclaiming(0), head := None, chain := [])];
    var s2 := Apply(s1, Reclaim(0));
    var s3 := Apply(s2, ReleaseNext(0));
    states, steps := [s0, s1, s2, s3], [ReleaseNext(0), Reclaim(0), ReleaseNext(0)];
  }

  lemma UntilAwake() returns (states: seq<State>, steps: seq<Step>)
    ensures Leads(states, steps) && |states| == 13 && states[0] == InitialState && states[12] == State([AwakeTask, Runner], [Worker])
  {
    var b, q;
    states, steps := CallTask();
    b, q := SuspendTask();
    LeadsOn(states, steps, b, q);
    states, steps := states + b[1..], steps + q;
    b, q := CallRunner();
    LeadsOn(states, steps, b, q);
    states, steps := states + b[1..], steps + q;
    b, q := Fire();
    LeadsOn(states, steps, b, q);
    states, steps := states + b[1..], steps + q;
    b, q := Wake();
    LeadsOn(states, steps, b, q);
    states, steps := states + b[1..], steps + q;
  }

  lemma UntilEnded() returns (states: seq<State>, steps: seq<Step>)
    ensures Leads(states, steps) && |states| == 9 && states[0] == State([AwakeTask, Runner], [Worker])
    ensures states[8] == State([LeftTask, EndedRunner], [Worker.(control := Releasing)])
  {
    var b, q;
    states, steps := ReturnTask();
    b, q := EndTask();
    LeadsOn(states, steps, b, q);
    states, steps := states + b[1..], steps + q;
    b, q := TakeValue();
    LeadsOn(states, steps, b, q);
    states, steps := states + b[1..], steps + q;
    b, q := EndRun();
    LeadsOn(states, steps, b, q);
    states, steps := states + b[1..], steps + q;
  }

  /** There is a run in which a task awaits an operation and a runner awaits the task, the callback wakes both on its
      stack, one after the other, and at the end both frames have been suspended, resumed and destroyed once. */
  lemma SyncWaitEnds() returns (states: seq<State>, steps: seq<Step>)
    ensures IsRun(states, steps)
    ensures var s := states[|states| - 1];
            && |s.frames| == 2 && s.frames[0].value
            && (forall f | 0 <= f < 2 ::
                  s.frames[f].control == Finished && s.frames[f].destroyed == 1
                  && s.frames[f].suspensions == 1 && s.frames[f].resumptions == 1)
            && |s.ops| == 1 && s.ops[0].control == Retired
  {
    var b, q;
    states, steps := UntilAwake();
    b, q := UntilEnded();
    LeadsOn(states, steps, b, q);
    states, steps := states + b[1..], steps + q;
    b, q := LetGoOfTask();
    LeadsOn(states, steps, b, q);
    states, steps := states + b[1..], steps + q;
  }
}
