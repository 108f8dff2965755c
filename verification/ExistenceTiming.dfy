/** How long the existence cache keeps an answer, and which answer makes room for another, told by the run alone. */
module ExistenceTiming {
  import opened ExistenceCache
  import opened ExistenceProtocol
  import opened ExistenceSteps
  import opened ExistenceLaws

  /** Call `i` has an answer for its second section to keep, for `life` from now. */
  ghost predicate Kept(options: Options, w: World, i: nat, life: nat) {
    && i < |w.calls| && w.calls[i].Probed? && w.calls[i].probe < |w.s.probes|
    && !w.s.probes[w.calls[i].probe].invalidated && life > 0
    && (|| (w.calls[i].answer.code == Success && life == options.positiveTtl)
        || (w.calls[i].answer.code == NotFound && life == options.negativeTtl))
  }

  ghost predicate Keeper(options: Options, w: World, i: nat) {
    Kept(options, w, i, options.positiveTtl) || Kept(options, w, i, options.negativeTtl)
  }

  ghost predicate Cached(w: World, key: Key, answer: Answer, expiresAt: int) {
    key in w.s.cache && w.s.cache[key].answer == answer && w.s.cache[key].expiresAt == expiresAt
  }

  /** The stamp of `key` is above that of every other entry. */
  ghost predicate Latest(w: World, key: Key) {
    key in w.s.cache && forall k | k in w.s.cache && k != key :: w.s.cache[k].lastUse < w.s.cache[key].lastUse
  }

  /** The second section keeps a positive answer for the positive time and a negative one for the negative time, as the
      latest used of all; any other answer changes nothing in the cache. */
  lemma KeepsForItsTime(options: Options, w: World, i: nat, life: nat)
    requires Inv(options, w) && options.maxEntries >= 1 && Enabled(w, FinishSection(i))
    ensures var w' := Next(options, w, FinishSection(i));
            && (Kept(options, w, i, life) ==>
                  Cached(w', w.calls[i].key, w.calls[i].answer, w.now + life) && Latest(w', w.calls[i].key))
            && (!Keeper(options, w, i) ==> w'.s.cache == w.s.cache)
  {
    assert CallInv(w, i) && FlightInv(w, w.calls[i].key);
    RoomIs(w.s.cache, w.now, options.maxEntries);
    forall k | k in w.s.cache ensures w.s.cache[k].lastUse <= w.s.useSequence {
      assert EntryInv(options, w, k);
    }
  }

  lemma HitMoves(options: Options, w: World, i: nat)
    requires Enabled(w, EnterSection(i)) && HitAt(options, w, i)
    ensures var s, s', key := w.s, Next(options, w, EnterSection(i)).s, w.calls[i].key;
            && key in s.cache && s.cache[key].expiresAt > w.now
            && s'.cache == s.cache[key := s.cache[key].(lastUse := s'.useSequence)] && s'.useSequence > s.useSequence
  {
  }

  /** A hit makes its entry the latest used of all, and changes nothing else in the cache. */
  lemma HitIsLatest(options: Options, w: World, i: nat)
    requires Inv(options, w) && Enabled(w, EnterSection(i)) && HitAt(options, w, i)
    ensures var w', key := Next(options, w, EnterSection(i)), w.calls[i].key;
            && key in w.s.cache && w.s.cache[key].expiresAt > w.now && Latest(w', key)
            && w'.calls[i] == Returned(key, w.s.cache[key].answer, ByHit)
            && w'.s.cache == w.s.cache[key := w.s.cache[key].(lastUse := w'.s.cache[key].lastUse)]
  {
    HitMoves(options, w, i);
    forall k | k in w.s.cache ensures w.s.cache[k].lastUse <= w.s.useSequence {
      assert EntryInv(options, w, k);
    }
  }

  /** Call `i` would return with what is cached. */
  ghost predicate HitAt(options: Options, w: World, i: nat)
    requires Enabled(w, EnterSection(i))
  {
    var c := Next(options, w, EnterSection(i)).calls[i];
    c.Returned? && c.way == ByHit
  }

  // ---------------------------------------------------------------------------
  // An entry lives until it expires, is written, or makes room for another.
  // ---------------------------------------------------------------------------

  predicate Writes(w: World, step: Step, key: Key) {
    step.WriteSection? && step.write < |w.writes| && w.writes[step.write].key == key
  }

  /** A step that takes the entry out before its time. */
  predicate Removes(w: World, step: Step, w': World, key: Key) {
    Writes(w, step, key) || (step.FinishSection? && key in w.s.cache && key !in w'.s.cache)
  }

  ghost predicate RemovedAt(run: seq<World>, steps: seq<Step>, k: nat, key: Key) {
    k < |steps| && k + 1 < |run| && Removes(run[k], steps[k], run[k + 1], key)
  }

  lemma FinishKeepsEntry(options: Options, w: World, i: nat, key: Key)
    requires Inv(options, w) && options.maxEntries >= 1 && Enabled(w, FinishSection(i)) && key in w.s.cache
    ensures var w' := Finish(options, w, i); key in w'.s.cache ==> w'.s.cache[key] == w.s.cache[key]
  {
    assert CallInv(w, i) && FlightInv(w, w.calls[i].key);
    RoomIs(w.s.cache, w.now, options.maxEntries);
  }

  lemma EnterKeepsEntry(options: Options, w: World, i: nat, key: Key)
    requires Enabled(w, EnterSection(i)) && key in w.s.cache
    ensures Cached(Enter(w, i), key, w.s.cache[key].answer, w.s.cache[key].expiresAt) || w.s.cache[key].expiresAt <= w.now
  {
  }

  lemma StepKeepsEntry(options: Options, w: World, step: Step, key: Key)
    requires Inv(options, w) && options.maxEntries >= 1 && Enabled(w, step) && key in w.s.cache
    ensures || Cached(Next(options, w, step), key, w.s.cache[key].answer, w.s.cache[key].expiresAt)
            || Removes(w, step, Next(options, w, step), key) || w.s.cache[key].expiresAt <= w.now
  {
    match step
    case EnterSection(i) => EnterKeepsEntry(options, w, i, key);
    case FinishSection(i) => FinishKeepsEntry(options, w, i, key);
    case _ =>
  }

  lemma OnlyFinishMakes(options: Options, w: World, step: Step, key: Key)
    requires Enabled(w, step) && key !in w.s.cache && key in Next(options, w, step).s.cache
    ensures step.FinishSection?
  {
  }

  lemma FinishMakesEntry(options: Options, w: World, i: nat, key: Key) returns (life: nat)
    requires Inv(options, w) && options.maxEntries >= 1 && Enabled(w, FinishSection(i))
    requires key !in w.s.cache && key in Finish(options, w, i).s.cache
    ensures Kept(options, w, i, life) && w.calls[i].key == key
    ensures Cached(Finish(options, w, i), key, w.calls[i].answer, w.now + life)
  {
    assert CallInv(w, i) && FlightInv(w, w.calls[i].key);
    RoomIs(w.s.cache, w.now, options.maxEntries);
    life := if w.calls[i].answer.code == Success then options.positiveTtl else options.negativeTtl;
  }

  /** Step `m` kept `answer` for `key`, for `life`, and no step from then to `n` took it out before its time. */
  ghost predicate Since(options: Options, run: seq<World>, steps: seq<Step>, m: nat, n: nat, key: Key, answer: Answer, life: nat)
    requires Leads(options, run, steps)
  {
    && m < n < |run| && steps[m].FinishSection? && Kept(options, run[m], steps[m].call, life)
    && run[m].calls[steps[m].call].key == key && run[m].calls[steps[m].call].answer == answer
    && Spared(run, steps, m + 1, n, key)
  }

  lemma {:induction false} TimeGoesOn(options: Options, run: seq<World>, steps: seq<Step>, m: nat, n: nat)
    requires Leads(options, run, steps) && m <= n < |run|
    ensures run[m].now <= run[n].now
    decreases n
  {
    if m < n {
      TimeGoesOn(options, run, steps, m, n - 1);
      assert run[n] == Next(options, run[n - 1], steps[n - 1]);
    }
  }

  lemma KeptAt(options: Options, run: seq<World>, steps: seq<Step>, m: nat, life: nat)
    requires IsRun(options, run, steps) && options.maxEntries >= 1
    requires m < |steps| && steps[m].FinishSection? && Kept(options, run[m], steps[m].call, life)
    ensures var c := run[m].calls[steps[m].call]; Cached(run[m + 1], c.key, c.answer, run[m].now + life)
  {
    RunKeepsInv(options, run, steps, m);
    KeepsForItsTime(options, run[m], steps[m].call, life);
  }

  lemma StaysAt(options: Options, run: seq<World>, steps: seq<Step>, k: nat, key: Key, answer: Answer, expiresAt: int)
    requires IsRun(options, run, steps) && options.maxEntries >= 1 && k < |steps|
    requires Cached(run[k], key, answer, expiresAt) && run[k].now < expiresAt && !RemovedAt(run, steps, k, key)
    ensures Cached(run[k + 1], key, answer, expiresAt)
  {
    RunKeepsInv(options, run, steps, k);
    StepKeepsEntry(options, run[k], steps[k], key);
  }

  ghost predicate Spared(run: seq<World>, steps: seq<Step>, m: nat, n: nat, key: Key) {
    forall k | m <= k < n :: !RemovedAt(run, steps, k, key)
  }

  lemma {:induction false} StaysFrom(options: Options, run: seq<World>, steps: seq<Step>, m: nat, n: nat, key: Key, answer: Answer, expiresAt: int)
    requires IsRun(options, run, steps) && options.maxEntries >= 1 && m <= n < |run| && run[n].now < expiresAt
    requires Cached(run[m], key, answer, expiresAt) && Spared(run, steps, m, n, key)
    ensures Cached(run[n], key, answer, expiresAt)
    decreases n - m
  {
    if m < n {
      TimeGoesOn(options, run, steps, m, n);
      StaysAt(options, run, steps, m, key, answer, expiresAt);
      StaysFrom(options, run, steps, m + 1, n, key, answer, expiresAt);
    }
  }

  /** What was kept stays, with its answer and its time, for all of its time. */
  lemma StaysItsTime(options: Options, run: seq<World>, steps: seq<Step>, m: nat, n: nat, key: Key, answer: Answer, life: nat)
    requires IsRun(options, run, steps) && options.maxEntries >= 1
    requires Since(options, run, steps, m, n, key, answer, life) && run[n].now < run[m].now + life
    ensures Cached(run[n], key, answer, run[m].now + life)
  {
    KeptAt(options, run, steps, m, life);
    StaysFrom(options, run, steps, m + 1, n, key, answer, run[m].now + life);
  }

  /** What is cached was kept. */
  lemma {:induction false} WasKept(options: Options, run: seq<World>, steps: seq<Step>, n: nat, key: Key) returns (m: nat, life: nat)
    requires IsRun(options, run, steps) && options.maxEntries >= 1 && n < |run| && key in run[n].s.cache
    ensures Since(options, run, steps, m, n, key, run[n].s.cache[key].answer, life)
    ensures run[n].s.cache[key].expiresAt == run[m].now + life
    decreases n
  {
    if key in run[n - 1].s.cache {
      m, life := WasKept(options, run, steps, n - 1, key);
      LeftAt(options, run, steps, n - 1, key);
      SinceAfter(options, run, steps, m, n - 1, key, run[n - 1].s.cache[key].answer, life);
    } else {
      life := MadeAt(options, run, steps, n - 1, key);
      m := n - 1;
    }
  }

  lemma SinceAfter(options: Options, run: seq<World>, steps: seq<Step>, m: nat, n: nat, key: Key, answer: Answer, life: nat)
    requires Leads(options, run, steps) && Since(options, run, steps, m, n, key, answer, life)
    requires n < |steps| && !RemovedAt(run, steps, n, key)
    ensures Since(options, run, steps, m, n + 1, key, answer, life)
  {
  }

  lemma LeftAt(options: Options, run: seq<World>, steps: seq<Step>, k: nat, key: Key)
    requires IsRun(options, run, steps) && options.maxEntries >= 1 && k < |steps|
    requires key in run[k].s.cache && key in run[k + 1].s.cache
    ensures !RemovedAt(run, steps, k, key) && Cached(run[k + 1], key, run[k].s.cache[key].answer, run[k].s.cache[key].expiresAt)
  {
    RunKeepsInv(options, run, steps, k);
    StepLeavesEntry(options, run[k], steps[k], key);
  }

  lemma MadeAt(options: Options, run: seq<World>, steps: seq<Step>, k: nat, key: Key) returns (life: nat)
    requires IsRun(options, run, steps) && options.maxEntries >= 1 && k < |steps|
    requires key !in run[k].s.cache && key in run[k + 1].s.cache
    ensures Since(options, run, steps, k, k + 1, key, run[k + 1].s.cache[key].answer, life)
    ensures run[k + 1].s.cache[key].expiresAt == run[k].now + life
  {
    RunKeepsInv(options, run, steps, k);
    OnlyFinishMakes(options, run[k], steps[k], key);
    life := FinishMakesEntry(options, run[k], steps[k].call, key);
  }

  lemma StepLeavesEntry(options: Options, w: World, step: Step, key: Key)
    requires Inv(options, w) && options.maxEntries >= 1 && Enabled(w, step)
    requires key in w.s.cache && key in Next(options, w, step).s.cache
    ensures !Removes(w, step, Next(options, w, step), key) && Cached(Next(options, w, step), key, w.s.cache[key].answer, w.s.cache[key].expiresAt)
  {
    match step
    case FinishSection(i) => FinishKeepsEntry(options, w, i, key);
    case _ =>
  }

  /** A call is answered from the cache, with this answer, exactly when some probe's answer was kept and its time is
      not over, and no write and no eviction of its key has come since. */
  lemma HitExactly(options: Options, run: seq<World>, steps: seq<Step>, n: nat, i: nat, answer: Answer)
    requires IsRun(options, run, steps) && options.maxEntries >= 1 && n < |steps| && steps[n] == EnterSection(i)
    ensures var key := run[n].calls[i].key;
            run[n + 1].calls[i] == Returned(key, answer, ByHit) <==>
            exists m: nat, life: nat :: Since(options, run, steps, m, n, key, answer, life) && run[n].now < run[m].now + life
  {
    var w, key := run[n], run[n].calls[i].key;
    if run[n + 1].calls[i] == Returned(key, answer, ByHit) {
      var m, life := WasKept(options, run, steps, n, key);
    }
    forall m: nat, life: nat | Since(options, run, steps, m, n, key, answer, life) && run[n].now < run[m].now + life
      ensures run[n + 1].calls[i] == Returned(key, answer, ByHit)
    {
      StaysItsTime(options, run, steps, m, n, key, answer, life);
    }
  }

  /** A positive answer is given for the positive time and a negative one for the negative time, and no longer. */
  lemma HitInTime(options: Options, run: seq<World>, steps: seq<Step>, n: nat, i: nat) returns (m: nat)
    requires IsRun(options, run, steps) && options.maxEntries >= 1 && n < |steps| && steps[n] == EnterSection(i)
    requires run[n + 1].calls[i].Returned? && run[n + 1].calls[i].way == ByHit
    ensures m < n && steps[m].FinishSection? && run[m].calls[steps[m].call].Probed?
    ensures run[m].calls[steps[m].call].key == run[n].calls[i].key && run[m].calls[steps[m].call].answer == run[n + 1].calls[i].answer
    ensures run[n + 1].calls[i].answer.code == Success ==> run[n].now < run[m].now + options.positiveTtl
    ensures run[n + 1].calls[i].answer.code == NotFound ==> run[n].now < run[m].now + options.negativeTtl
    ensures run[n + 1].calls[i].answer.code != OtherError
  {
    var life;
    m, life := WasKept(options, run, steps, n, run[n].calls[i].key);
  }

  // ---------------------------------------------------------------------------
  // The order of use.
  // ---------------------------------------------------------------------------

  /** Step `n` is a hit of `key`, or keeps an answer for it. */
  ghost predicate UsedAt(options: Options, run: seq<World>, steps: seq<Step>, n: nat, key: Key)
    requires Leads(options, run, steps) && n < |steps|
  {
    match steps[n]
    case EnterSection(i) => run[n].calls[i].key == key && run[n + 1].calls[i].Returned? && run[n + 1].calls[i].way == ByHit
    case FinishSection(i) => run[n].calls[i].key == key && Keeper(options, run[n], i)
    case _ => false
  }

  /** The last step before `n` that used `key`, or -1. */
  ghost function LastUse(options: Options, run: seq<World>, steps: seq<Step>, n: nat, key: Key): (last: int)
    requires Leads(options, run, steps) && n < |run|
    ensures -1 <= last < n
  {
    if n == 0 then -1
    else if UsedAt(options, run, steps, n - 1, key) then n - 1
    else LastUse(options, run, steps, n - 1, key)
  }

  /** The entry of `key` is as it was, if it is still there. */
  ghost predicate Untouched(w: World, w': World, key: Key) {
    key in w'.s.cache ==> key in w.s.cache && w'.s.cache[key] == w.s.cache[key]
  }

  lemma EnterMovesStamp(options: Options, w: World, i: nat, key: Key)
    requires Inv(options, w) && Enabled(w, EnterSection(i))
    ensures var w' := Next(options, w, EnterSection(i));
            if w.calls[i].key == key && HitAt(options, w, i) then Latest(w', key) else Untouched(w, w', key)
  {
    if HitAt(options, w, i) {
      HitIsLatest(options, w, i);
    }
  }

  lemma FinishMovesStamp(options: Options, w: World, i: nat, key: Key)
    requires Inv(options, w) && options.maxEntries >= 1 && Enabled(w, FinishSection(i))
    ensures var w' := Next(options, w, FinishSection(i));
            if w.calls[i].key == key && Keeper(options, w, i) then Latest(w', key) else Untouched(w, w', key)
  {
    if w.calls[i].key == key {
      KeepsForItsTime(options, w, i, options.positiveTtl);
      KeepsForItsTime(options, w, i, options.negativeTtl);
    } else {
      assert CallInv(w, i) && FlightInv(w, w.calls[i].key);
      RoomIs(w.s.cache, w.now, options.maxEntries);
    }
  }

  /** A step that uses a key makes it the latest; one that does not leaves its entry as it is. */
  lemma UseMovesStamp(options: Options, run: seq<World>, steps: seq<Step>, n: nat, key: Key)
    requires IsRun(options, run, steps) && options.maxEntries >= 1 && n < |steps|
    ensures if UsedAt(options, run, steps, n, key) then Latest(run[n + 1], key) else Untouched(run[n], run[n + 1], key)
  {
    RunKeepsInv(options, run, steps, n);
    match steps[n]
    case EnterSection(i) => EnterMovesStamp(options, run[n], i, key);
    case FinishSection(i) => FinishMovesStamp(options, run[n], i, key);
    case _ =>
  }

  /** Stamps are in the order of use. */
  lemma {:induction false} StampsFollowUse(options: Options, run: seq<World>, steps: seq<Step>, n: nat, j: Key, k: Key)
    requires IsRun(options, run, steps) && options.maxEntries >= 1 && n < |run| && j in run[n].s.cache && k in run[n].s.cache
    ensures run[n].s.cache[j].lastUse < run[n].s.cache[k].lastUse <==>
            LastUse(options, run, steps, n, j) < LastUse(options, run, steps, n, k)
    decreases n
  {
    UseMovesStamp(options, run, steps, n - 1, j);
    UseMovesStamp(options, run, steps, n - 1, k);
    if !UsedAt(options, run, steps, n - 1, j) && !UsedAt(options, run, steps, n - 1, k) {
      StampsFollowUse(options, run, steps, n - 1, j, k);
    }
  }

  /** When a new answer is kept, each other entry stays, as it is, unless it has expired, or the cache is full of live
      entries all the others of which were used after it. */
  lemma MakesRoomExactly(options: Options, run: seq<World>, steps: seq<Step>, n: nat, i: nat, key: Key)
    requires IsRun(options, run, steps) && options.maxEntries >= 1 && n < |steps|
    requires steps[n] == FinishSection(i) && Keeper(options, run[n], i) && key in run[n].s.cache
    ensures var live := Swept(run[n].s.cache, run[n].now);
            key in run[n + 1].s.cache <==>
            && run[n].s.cache[key].expiresAt > run[n].now
            && !(&& |live| >= options.maxEntries
                 && forall other | other in live && other != key ::
                      LastUse(options, run, steps, n, key) < LastUse(options, run, steps, n, other))
  {
    var w := run[n];
    var live := Swept(w.s.cache, w.now);
    RunKeepsInv(options, run, steps, n);
    assert CallInv(w, i) && FlightInv(w, w.calls[i].key);
    RoomOfLive(options, w.s.cache, w.now, key);
    forall other | other in live ensures key in live ==> (w.s.cache[key].lastUse < w.s.cache[other].lastUse <==>
            LastUse(options, run, steps, n, key) < LastUse(options, run, steps, n, other)) {
      StampsFollowUse(options, run, steps, n, key, other);
    }
  }

  lemma LeastOnly(live: Entries, key: Key)
    requires DistinctStamps(live) && live != map[] && key in live
    ensures key == LeastUsed(live) <==> forall other | other in live && other != key :: live[key].lastUse < live[other].lastUse
  {
    var least := LeastUsed(live);
    assert least in live && IsLeastUsed(live, least);
  }

  /** Of entries within the capacity all stay but the least used, which goes if there is no room. */
  lemma RoomExactly(live: Entries, maxEntries: nat, key: Key)
    requires DistinctStamps(live) && maxEntries >= 1 && |live| <= maxEntries && key in live
    ensures key in Evicted(live, maxEntries) <==>
            !(|live| >= maxEntries && forall other | other in live && other != key :: live[key].lastUse < live[other].lastUse)
  {
    if |live| >= maxEntries {
      var rest := live - {LeastUsed(live)};
      assert rest.Keys == live.Keys - {LeastUsed(live)};
      assert Evicted(live, maxEntries) == Evicted(rest, maxEntries) == rest;
      LeastOnly(live, key);
    }
  }

  lemma RoomOfLive(options: Options, cache: Entries, now: int, key: Key)
    requires DistinctStamps(cache) && options.maxEntries >= 1 && |cache| <= options.maxEntries && key in cache
    ensures var live := Swept(cache, now);
            key in Evicted(live, options.maxEntries) <==>
            && key in live
            && !(|live| >= options.maxEntries && forall other | other in live && other != key :: cache[key].lastUse < cache[other].lastUse)
  {
    var live := Swept(cache, now);
    SweptKeepsStamps(cache, now);
    Subset(live.Keys, cache.Keys);
    if key in live {
      RoomExactly(live, options.maxEntries, key);
    }
  }

  // ---------------------------------------------------------------------------
  // No answer is made up.
  // ---------------------------------------------------------------------------

  ghost predicate Said(w: World, p: nat, key: Key, answer: Answer) {
    p in w.stats && w.stats[p].key == key && w.stats[p].answer == answer
  }

  lemma HitSaid(options: Options, w: World, step: Step, i: nat) returns (p: nat)
    requires Inv(options, w) && Enabled(w, step)
    requires var w' := Next(options, w, step); i < |w'.calls| && w'.calls[i].Returned? && w'.calls[i].way == ByHit
    requires i >= |w.calls| || !w.calls[i].Returned?
    ensures var w' := Next(options, w, step); Said(w', p, w'.calls[i].key, w'.calls[i].answer)
  {
    assert step == EnterSection(i);
    var key := w.calls[i].key;
    assert EntryInv(options, w, key);
    p := w.sources[key].probe;
  }

  lemma ReturnedStays(options: Options, w: World, step: Step, i: nat)
    requires Enabled(w, step) && i < |w.calls| && w.calls[i].Returned?
    ensures var w' := Next(options, w, step); i < |w'.calls| && w'.calls[i] == w.calls[i]
  {
  }

  /** Every answer given, by whatever way, is what a `stat` of the caller's key said. */
  lemma {:induction false} AnswersAreStats(options: Options, run: seq<World>, steps: seq<Step>, n: nat, i: nat) returns (p: nat)
    requires IsRun(options, run, steps) && options.maxEntries >= 1 && n < |run| && i < |run[n].calls| && run[n].calls[i].Returned?
    ensures Said(run[n], p, run[n].calls[i].key, run[n].calls[i].answer)
    decreases n
  {
    if run[n].calls[i].way == ByHit {
      RunKeepsInv(options, run, steps, n - 1);
      if i < |run[n - 1].calls| && run[n - 1].calls[i].Returned? {
        p := AnswersAreStats(options, run, steps, n - 1, i);
        ReturnedStays(options, run[n - 1], steps[n - 1], i);
        StepKeepsStat(options, run[n - 1], steps[n - 1], p);
      } else {
        p := HitSaid(options, run[n - 1], steps[n - 1], i);
      }
    } else {
      RunKeepsInv(options, run, steps, n);
      assert CallInv(run[n], i);
      p := run[n].calls[i].way.probe;
    }
  }
}
