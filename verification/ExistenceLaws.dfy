/** What callers of the existence cache may rely on, in every run. */
module ExistenceLaws {
  import opened ExistenceCache
  import opened ExistenceProtocol
  import opened ExistenceSteps

  /** Steps of a run, from wherever it has come to. */
  ghost predicate Leads(options: Options, run: seq<World>, steps: seq<Step>) {
    && |run| == |steps| + 1
    && forall n {:trigger steps[n]} | 0 <= n < |steps| :: Enabled(run[n], steps[n]) && run[n + 1] == Next(options, run[n], steps[n])
  }

  /** A run: the worlds it goes through and the steps between them. */
  ghost predicate IsRun(options: Options, run: seq<World>, steps: seq<Step>) {
    Leads(options, run, steps) && Initial(run[0])
  }

  /** A validated capacity is at least one. */
  lemma {:induction false} RunKeepsInv(options: Options, run: seq<World>, steps: seq<Step>, n: nat)
    requires IsRun(options, run, steps) && options.maxEntries >= 1 && n < |run|
    ensures Inv(options, run[n])
    decreases n
  {
    if n == 0 {
      InitialInv(options, run[0]);
    } else {
      RunKeepsInv(options, run, steps, n - 1);
      StepKeepsInv(options, run[n - 1], steps[n - 1]);
    }
  }

  predicate Runs(c: Call) {
    c.Probing? || c.Probed?
  }

  /** The cache stays within its capacity, no two entries have the same use stamp, no key is both cached and in
      flight, at most one probe runs for a key, and a probe that runs is the one in flight. */
  lemma SingleFlight(options: Options, run: seq<World>, steps: seq<Step>, n: nat)
    requires IsRun(options, run, steps) && options.maxEntries >= 1 && n < |run|
    ensures var w := run[n];
            && |w.s.cache| <= options.maxEntries && DistinctStamps(w.s.cache)
            && w.s.cache.Keys !! w.s.inFlight.Keys
            && (forall i, j | 0 <= i < j < |w.calls| && Runs(w.calls[i]) && Runs(w.calls[j]) :: w.calls[i].key != w.calls[j].key)
            && (forall i | 0 <= i < |w.calls| && Runs(w.calls[i]) ::
                  w.calls[i].key in w.s.inFlight && w.s.inFlight[w.calls[i].key] == w.calls[i].probe)
  {
    var w := run[n];
    RunKeepsInv(options, run, steps, n);
    forall key | key in w.s.inFlight ensures key !in w.s.cache {
      assert FlightInv(w, key);
    }
    forall i, j | 0 <= i < j < |w.calls| && Runs(w.calls[i]) && Runs(w.calls[j]) ensures w.calls[i].key != w.calls[j].key {
      assert CallInv(w, i) && CallInv(w, j);
    }
    forall i | 0 <= i < |w.calls| && Runs(w.calls[i])
      ensures w.calls[i].key in w.s.inFlight && w.s.inFlight[w.calls[i].key] == w.calls[i].probe
    {
      assert CallInv(w, i);
    }
  }

  /** A hit is what a `stat` of the key said less than its time to live ago: that the object is there or that it is
      not. It was so in a store no older than any write to the key whose section is over, and its probe was
      registered after that section. */
  lemma HitIsFresh(options: Options, run: seq<World>, steps: seq<Step>, n: nat, i: nat) returns (stat: Stat, source: Source)
    requires IsRun(options, run, steps) && options.maxEntries >= 1
    requires n < |steps| && steps[n] == EnterSection(i) && Lookup(run[n].s, run[n].calls[i].key, run[n].now).1.Hit?
    ensures var w := run[n];
            && run[n + 1].calls[i] == Returned(stat.key, stat.answer, ByHit)
            && source.probe in w.stats && w.stats[source.probe] == stat && stat.key == w.calls[i].key
            && (stat.answer.code == Success || stat.answer.code == NotFound)
            && stat.version < |w.history| && Truth(w.history[stat.version], stat.key, stat.answer)
            && source.at <= w.now < source.at + Ttl(options, stat.answer)
    ensures forall j | 0 <= j < |run[n].writes| && run[n].writes[j].Invalidated? && run[n].writes[j].key == stat.key ::
              stat.version >= run[n].writes[j].version
    ensures forall k | 0 <= k < n && steps[k].WriteSection? && run[k].writes[steps[k].write].key == stat.key ::
              source.probe >= |run[k].s.probes|
  {
    var w, key := run[n], run[n].calls[i].key;
    RunKeepsInv(options, run, steps, n);
    assert EntryInv(options, w, key);
    source := w.sources[key];
    stat := w.stats[source.probe];
    assert ProbeInv(w, source.probe);
    forall j | 0 <= j < |w.writes| && w.writes[j].Invalidated? && w.writes[j].key == stat.key
      ensures stat.version >= w.writes[j].version
    {
      assert WriteInv(w, j);
    }
    forall k | 0 <= k < n && steps[k].WriteSection? && run[k].writes[steps[k].write].key == stat.key
      ensures source.probe >= |run[k].s.probes|
    {
      EntryIsLater(options, run, steps, k, n);
    }
  }

  /** Whatever is cached under a key, or may still come to be, is from a probe registered as number `base` or later. */
  ghost predicate OnlyLater(w: World, key: Key, base: nat) {
    && base <= |w.s.probes|
    && (key in w.s.cache ==> key in w.sources && w.sources[key].probe >= base)
    && (key in w.s.inFlight ==>
          var p := w.s.inFlight[key]; p < |w.s.probes| && (w.s.probes[p].invalidated || p >= base))
  }

  lemma FinishKeepsLater(options: Options, w: World, i: nat, key: Key, base: nat)
    requires Inv(options, w) && Enabled(w, FinishSection(i)) && OnlyLater(w, key, base)
    ensures OnlyLater(Finish(options, w, i), key, base)
  {
    assert CallInv(w, i) && FlightInv(w, w.calls[i].key) && ProbeInv(w, w.calls[i].probe);
    var room := Evicted(Swept(w.s.cache, w.now), options.maxEntries);
    assert room.Keys <= w.s.cache.Keys;
  }

  lemma StepKeepsLater(options: Options, w: World, step: Step, key: Key, base: nat)
    requires Inv(options, w) && Enabled(w, step) && OnlyLater(w, key, base)
    ensures OnlyLater(Next(options, w, step), key, base)
  {
    if step.FinishSection? {
      FinishKeepsLater(options, w, step.call, key, base);
    }
  }

  /** After the section of a write, any cached entry for its key comes from a probe registered after that section. */
  lemma {:induction false} EntryIsLater(options: Options, run: seq<World>, steps: seq<Step>, n: nat, m: nat)
    requires IsRun(options, run, steps) && options.maxEntries >= 1 && n < m < |run| && steps[n].WriteSection?
    ensures OnlyLater(run[m], run[n].writes[steps[n].write].key, |run[n].s.probes|)
    decreases m
  {
    RunKeepsInv(options, run, steps, m - 1);
    if n == m - 1 {
      assert FlightInv(run[n], run[n].writes[steps[n].write].key);
    } else {
      EntryIsLater(options, run, steps, n, m - 1);
      StepKeepsLater(options, run[m - 1], steps[m - 1], run[n].writes[steps[n].write].key, |run[n].s.probes|);
    }
  }

  ghost predicate ReturnedAnswer(w: World, i: nat, key: Key, p: nat) {
    i < |w.calls| && p in w.stats && w.stats[p].key == key && w.calls[i] == Returned(key, w.stats[p].answer, ByWaiting(p))
  }

  lemma StepMovesWaiter(options: Options, w: World, step: Step, i: nat)
    requires Inv(options, w) && Enabled(w, step) && i < |w.calls| && w.calls[i].Waiting?
    ensures var Waiting(key, p) := w.calls[i];
            var w' := Next(options, w, step);
            i < |w'.calls| && (w'.calls[i] == Waiting(key, p) || ReturnedAnswer(w', i, key, p))
  {
    assert CallInv(w, i) && ProbeInv(w, w.calls[i].probe);
  }

  lemma StepKeepsReturned(options: Options, w: World, step: Step, i: nat, key: Key, p: nat)
    requires Inv(options, w) && Enabled(w, step) && ReturnedAnswer(w, i, key, p)
    ensures ReturnedAnswer(Next(options, w, step), i, key, p)
  {
    if step.StatReturns? {
      assert CallInv(w, step.call);
    }
  }

  /** A caller that waits for a probe waits for that probe until it returns what the probe's `stat` said. */
  lemma {:induction false} WaiterGetsAnswer(options: Options, run: seq<World>, steps: seq<Step>, n: nat, m: nat, i: nat)
    requires IsRun(options, run, steps) && options.maxEntries >= 1 && n <= m < |run|
    requires i < |run[n].calls| && run[n].calls[i].Waiting?
    ensures var Waiting(key, p) := run[n].calls[i];
            i < |run[m].calls| && (run[m].calls[i] == Waiting(key, p) || ReturnedAnswer(run[m], i, key, p))
    decreases m
  {
    if n < m {
      var w := run[m - 1];
      var Waiting(key, p) := run[n].calls[i];
      WaiterGetsAnswer(options, run, steps, n, m - 1, i);
      RunKeepsInv(options, run, steps, m - 1);
      if w.calls[i].Waiting? {
        StepMovesWaiter(options, w, steps[m - 1], i);
      } else {
        StepKeepsReturned(options, w, steps[m - 1], i, key, p);
      }
    }
  }

  /** Once every `stat` of a probe sees a version, every later one does. */
  lemma {:induction false} SeenStaysSeen(options: Options, run: seq<World>, steps: seq<Step>, n: nat, m: nat, p: nat, version: nat)
    requires IsRun(options, run, steps) && n <= m < |run|
    requires version < |run[n].history| && (p in run[n].stats ==> run[n].stats[p].version >= version)
    ensures version < |run[m].history| && (p in run[m].stats ==> run[m].stats[p].version >= version)
    decreases m
  {
    if n < m {
      SeenStaysSeen(options, run, steps, n, m - 1, p, version);
      assert run[m] == Next(options, run[m - 1], steps[m - 1]);
    }
  }

  lemma StepKeepsStat(options: Options, w: World, step: Step, p: nat)
    requires Inv(options, w) && Enabled(w, step) && p in w.stats
    ensures var w' := Next(options, w, step); p in w'.stats && w'.stats[p] == w.stats[p]
  {
    if step.StatReturns? {
      assert CallInv(w, step.call);
    }
  }

  /** A `stat` that returned is never replaced. */
  lemma {:induction false} StatStays(options: Options, run: seq<World>, steps: seq<Step>, n: nat, m: nat, p: nat)
    requires IsRun(options, run, steps) && options.maxEntries >= 1 && n <= m < |run| && p in run[n].stats
    ensures p in run[m].stats && run[m].stats[p] == run[n].stats[p]
    decreases m
  {
    if n < m {
      StatStays(options, run, steps, n, m - 1, p);
      RunKeepsInv(options, run, steps, m - 1);
      StepKeepsStat(options, run[m - 1], steps[m - 1], p);
    }
  }

  /** What a waiter is told is no older than a write whose section is over when it waits if and only if the probe's
      `stat` had not already returned, by then, from before that write. */
  lemma JoinIsFreshExactly(options: Options, run: seq<World>, steps: seq<Step>, n: nat, m: nat, i: nat, j: nat)
    requires IsRun(options, run, steps) && options.maxEntries >= 1 && n <= m < |run|
    requires i < |run[n].calls| && run[n].calls[i].Waiting? && run[n].calls[i].probe in run[m].stats
    requires j < |run[n].writes| && run[n].writes[j].Invalidated?
    ensures var p, version := run[n].calls[i].probe, run[n].writes[j].version;
            run[m].stats[p].version >= version <==> !(p in run[n].stats && run[n].stats[p].version < version)
  {
    var p, version := run[n].calls[i].probe, run[n].writes[j].version;
    RunKeepsInv(options, run, steps, n);
    assert WriteInv(run[n], j);
    if p in run[n].stats {
      StatStays(options, run, steps, n, m, p);
    } else {
      SeenStaysSeen(options, run, steps, n, m, p, version);
    }
  }

  /** In particular while no write has marked the probe. */
  lemma JoinIsFresh(options: Options, run: seq<World>, steps: seq<Step>, n: nat, m: nat, i: nat, j: nat)
    requires IsRun(options, run, steps) && options.maxEntries >= 1 && n <= m < |run|
    requires i < |run[n].calls| && run[n].calls[i].Waiting? && run[n].calls[i].probe < |run[n].s.probes|
    requires !run[n].s.probes[run[n].calls[i].probe].completed && !run[n].s.probes[run[n].calls[i].probe].invalidated
    requires j < |run[n].writes| && run[n].writes[j].Invalidated? && run[n].writes[j].key == run[n].calls[i].key
    ensures var p := run[n].calls[i].probe; p in run[m].stats ==> run[m].stats[p].version >= run[n].writes[j].version
  {
    if run[n].calls[i].probe in run[m].stats {
      RunKeepsInv(options, run, steps, n);
      assert CallInv(run[n], i) && WriteInv(run[n], j);
      JoinIsFreshExactly(options, run, steps, n, m, i, j);
    }
  }

  /** Someone always works for a waiter: the probe is complete, or its call can take a step towards it. */
  lemma WaiterIsServed(options: Options, run: seq<World>, steps: seq<Step>, n: nat, i: nat) returns (step: Step)
    requires IsRun(options, run, steps) && options.maxEntries >= 1 && n < |run|
    requires i < |run[n].calls| && run[n].calls[i].Waiting?
    ensures Enabled(run[n], step)
    ensures var p := run[n].calls[i].probe;
            || step == Wake(i)
            || (step.StatReturns? && run[n].calls[step.call] == Probing(run[n].calls[i].key, p))
            || (step.FinishSection? && run[n].calls[step.call].Probed? && run[n].calls[step.call].probe == p)
  {
    var w, p, key := run[n], run[n].calls[i].probe, run[n].calls[i].key;
    RunKeepsInv(options, run, steps, n);
    assert CallInv(w, i);
    if w.s.probes[p].completed {
      step := Wake(i);
    } else {
      assert FlightInv(w, key);
      var owner := w.owner[p];
      step := if w.calls[owner].Probing? then StatReturns(owner, NoAnswer) else FinishSection(owner);
    }
  }

  /** Keeping an answer costs at most one live entry, the least recently used of all that live. */
  lemma InsertEvictsOne(options: Options, run: seq<World>, steps: seq<Step>, n: nat, gone: Key)
    requires IsRun(options, run, steps) && options.maxEntries >= 1
    requires n < |steps| && steps[n].FinishSection?
    requires gone in Swept(run[n].s.cache, run[n].now) && gone !in run[n + 1].s.cache
    ensures IsLeastUsed(Swept(run[n].s.cache, run[n].now), gone)
    ensures forall other | other in Swept(run[n].s.cache, run[n].now) && other !in run[n + 1].s.cache :: other == gone
  {
    var w := run[n];
    var live := Swept(w.s.cache, w.now);
    RunKeepsInv(options, run, steps, n);
    assert live.Keys <= w.s.cache.Keys;
    Subset(live.Keys, w.s.cache.Keys);
    forall other | other in live && other !in run[n + 1].s.cache ensures other == gone && IsLeastUsed(live, other) {
      EvictedAtMostOne(live, options.maxEntries, other, gone);
    }
  }

  // ---------------------------------------------------------------------------
  // Hits only: a caller that joins a probe may get an older answer.
  // ---------------------------------------------------------------------------

  lemma LeadsOn(options: Options, run: seq<World>, steps: seq<Step>, run': seq<World>, steps': seq<Step>)
    requires Leads(options, run, steps) && Leads(options, run', steps') && run'[0] == run[|run| - 1]
    ensures Leads(options, run + run'[1..], steps + steps')
  {
    var all, both := run + run'[1..], steps + steps';
    forall n | 0 <= n < |both| ensures Enabled(all[n], both[n]) && all[n + 1] == Next(options, all[n], both[n]) {
      if n >= |steps| {
        assert all[n] == run'[n - |steps|] && all[n + 1] == run'[n + 1 - |steps|];
      }
    }
  }

  const Gone: Answer := Answer(NotFound, "")

  /** A probe sees that there is no object, a write makes one, and its section passes. */
  lemma WriteDuringProbe(options: Options, key: Key) returns (run: seq<World>, steps: seq<Step>)
    ensures Leads(options, run, steps) && |run| == 6 && Initial(run[0])
    ensures var w := run[5];
            && w.calls == [Probed(key, 0, Gone)] && w.writes == [Invalidated(key, 1)] && w.history == [map[], map[key := "new"]]
            && w.s.cache == map[] && w.s.inFlight == map[key := 0] && |w.s.probes| == 1 && w.s.probes[0].key == key
            && w.s.probes[0].invalidated && w.stats == map[0 := Stat(key, Gone, 0)]
  {
    var w0 := World(State(map[], map[], [], 0), 0, [], [], [map[]], map[], map[], map[]);
    var w1 := Next(options, w0, Begin(key));
    var w2 := Next(options, w1, EnterSection(0));
    assert w2.calls == [Probing(key, 0)] && w2.s.inFlight == map[key := 0] && w2.s.cache == map[];
    var w3 := Next(options, w2, StatReturns(0, Gone));
    var w4 := Next(options, w3, BridgeWrite(key, "new"));
    assert w4.writes == [Applied(key, 1)] && w4.history == [map[], map[key := "new"]];
    var w5 := Next(options, w4, WriteSection(0));
    run := [w0, w1, w2, w3, w4, w5];
    steps := [Begin(key), EnterSection(0), StatReturns(0, Gone), BridgeWrite(key, "new"), WriteSection(0)];
  }

  /** A caller that calls then joins the probe. */
  lemma JoinProbe(options: Options, key: Key, w5: World) returns (run: seq<World>, steps: seq<Step>)
    requires w5.calls == [Probed(key, 0, Gone)] && w5.history != []
    requires w5.s.cache == map[] && w5.s.inFlight == map[key := 0] && |w5.s.probes| == 1
    ensures Leads(options, run, steps) && |run| == 3 && run[0] == w5
    ensures run[2] == w5.(calls := [Probed(key, 0, Gone), Waiting(key, 0)])
  {
    var w6 := Next(options, w5, Begin(key));
    assert w6.calls == [Probed(key, 0, Gone), Called(key)];
    var w7 := Next(options, w6, EnterSection(1));
    assert w7.calls == [Probed(key, 0, Gone), Waiting(key, 0)] && w7.s.cache == map[];
    run, steps := [w5, w6, w7], [Begin(key), EnterSection(1)];
  }

  /** The probe ends, and the caller is told that there is no object. */
  lemma WakeAfter(options: Options, key: Key, w7: World) returns (run: seq<World>, steps: seq<Step>)
    requires w7.calls == [Probed(key, 0, Gone), Waiting(key, 0)] && w7.history != [] && |w7.s.probes| == 1
    ensures Leads(options, run, steps) && |run| == 3 && run[0] == w7
    ensures run[2].calls == [Returned(key, Gone, ByProbing(0)), Returned(key, Gone, ByWaiting(0))]
  {
    var w8 := Next(options, w7, FinishSection(0));
    assert w8.calls == [Returned(key, Gone, ByProbing(0)), Waiting(key, 0)];
    var w9 := Next(options, w8, Wake(1));
    run, steps := [w7, w8, w9], [FinishSection(0), Wake(1)];
  }

  lemma JoinAfterWrite(options: Options, key: Key, w5: World) returns (run: seq<World>, steps: seq<Step>)
    requires w5.calls == [Probed(key, 0, Gone)] && w5.history != []
    requires w5.s.cache == map[] && w5.s.inFlight == map[key := 0] && |w5.s.probes| == 1
    ensures Leads(options, run, steps) && |run| == 5 && run[0] == w5
    ensures run[4].calls == [Returned(key, Gone, ByProbing(0)), Returned(key, Gone, ByWaiting(0))]
  {
    var run', steps';
    run, steps := JoinProbe(options, key, w5);
    run', steps' := WakeAfter(options, key, run[2]);
    LeadsOn(options, run, steps, run', steps');
    run, steps := run + run'[1..], steps + steps';
  }

  /** A caller may call after the section of a write and still be told what was so before the write. */
  lemma JoinMayBeStale(options: Options, key: Key) returns (run: seq<World>, steps: seq<Step>)
    ensures IsRun(options, run, steps) && |run| == 10
    ensures run[5].writes == [Invalidated(key, 1)] && |run[5].calls| == 1 && run[5].history == [map[], map[key := "new"]]
    ensures run[9].calls == [Returned(key, Gone, ByProbing(0)), Returned(key, Gone, ByWaiting(0))]
  {
    var run', steps';
    run, steps := WriteDuringProbe(options, key);
    run', steps' := JoinAfterWrite(options, key, run[5]);
    LeadsOn(options, run, steps, run', steps');
    run, steps := run + run'[1..], steps + steps';
  }
}
