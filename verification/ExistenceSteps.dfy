/** Every step of the existence cache keeps its invariant. */
module ExistenceSteps {
  import opened ExistenceCache
  import opened ExistenceProtocol

  lemma KeepsBegin(options: Options, w: World, key: Key)
    requires Inv(options, w)
    ensures Inv(options, Next(options, w, Begin(key)))
  {
    var w' := Next(options, w, Begin(key));
    forall i ensures CallInv(w', i) {
      assert CallInv(w, i);
    }
    forall k ensures FlightInv(w', k) {
      assert FlightInv(w, k);
    }
    forall k ensures EntryInv(options, w', k) {
      assert EntryInv(options, w, k);
    }
    forall p ensures ProbeInv(w', p) {
      assert ProbeInv(w, p);
    }
    forall j ensures WriteInv(w', j) {
      assert WriteInv(w, j);
    }
  }

  lemma KeepsStat(options: Options, w: World, i: nat, answer: Answer)
    requires Inv(options, w) && options.maxEntries >= 1
    requires Enabled(w, StatReturns(i, answer))
    ensures Inv(options, Next(options, w, StatReturns(i, answer)))
  {
    var w' := Next(options, w, StatReturns(i, answer));
    assert CallInv(w, i) && FlightInv(w, w.calls[i].key);
    forall k ensures CallInv(w', k) {
      assert CallInv(w, k) && CallInv(w, i);
    }
    forall key ensures FlightInv(w', key) {
      assert FlightInv(w, key);
    }
    forall key ensures EntryInv(options, w', key) {
      assert EntryInv(options, w, key);
    }
    forall p ensures ProbeInv(w', p) {
      assert ProbeInv(w, p);
    }
    forall j ensures WriteInv(w', j) {
      assert WriteInv(w, j);
    }
  }

  lemma KeepsWake(options: Options, w: World, i: nat)
    requires Inv(options, w) && options.maxEntries >= 1
    requires Enabled(w, Wake(i))
    ensures Inv(options, Next(options, w, Wake(i)))
  {
    var w' := Next(options, w, Wake(i));
    forall k ensures CallInv(w', k) {
      assert CallInv(w, k) && CallInv(w, i) && ProbeInv(w, w.calls[i].probe);
    }
    forall key ensures FlightInv(w', key) {
      assert FlightInv(w, key);
    }
    forall key ensures EntryInv(options, w', key) {
      assert EntryInv(options, w, key);
    }
    forall p ensures ProbeInv(w', p) {
      assert ProbeInv(w, p);
    }
    forall j ensures WriteInv(w', j) {
      assert WriteInv(w, j);
    }
  }

  lemma KeepsBridgeWrite(options: Options, w: World, key: Key, metadata: string)
    requires Inv(options, w)
    ensures Inv(options, Next(options, w, BridgeWrite(key, metadata)))
  {
    var w' := Next(options, w, BridgeWrite(key, metadata));
    forall i ensures CallInv(w', i) {
      assert CallInv(w, i);
    }
    forall k ensures FlightInv(w', k) {
      assert FlightInv(w, k);
    }
    forall k ensures EntryInv(options, w', k) {
      assert EntryInv(options, w, k);
    }
    forall p ensures ProbeInv(w', p) {
      assert ProbeInv(w, p);
    }
    forall j ensures WriteInv(w', j) {
      assert WriteInv(w, j);
    }
  }

  lemma KeepsChange(options: Options, w: World, objects: Objects)
    requires Inv(options, w)
    ensures Inv(options, Next(options, w, Change(objects)))
  {
    var w' := Next(options, w, Change(objects));
    forall i ensures CallInv(w', i) {
      assert CallInv(w, i);
    }
    forall key ensures FlightInv(w', key) {
      assert FlightInv(w, key);
    }
    forall key ensures EntryInv(options, w', key) {
      assert EntryInv(options, w, key);
    }
    forall p ensures ProbeInv(w', p) {
      assert ProbeInv(w, p);
    }
    forall j ensures WriteInv(w', j) {
      assert WriteInv(w, j);
    }
  }

  lemma KeepsTick(options: Options, w: World, time: int)
    requires Inv(options, w) && options.maxEntries >= 1
    requires time >= w.now
    ensures Inv(options, Next(options, w, Tick(time)))
  {
    var w' := Next(options, w, Tick(time));
    forall i ensures CallInv(w', i) {
      assert CallInv(w, i);
    }
    forall key ensures FlightInv(w', key) {
      assert FlightInv(w, key);
    }
    forall key ensures EntryInv(options, w', key) {
      assert EntryInv(options, w, key);
    }
    forall p ensures ProbeInv(w', p) {
      assert ProbeInv(w, p);
    }
    forall j ensures WriteInv(w', j) {
      assert WriteInv(w, j);
    }
  }

  lemma KeepsWriteSection(options: Options, w: World, m: nat)
    requires Inv(options, w) && options.maxEntries >= 1
    requires Enabled(w, WriteSection(m))
    ensures Inv(options, Next(options, w, WriteSection(m)))
  {
    var w' := Next(options, w, WriteSection(m));
    forall i ensures CallInv(w', i) {
      assert CallInv(w, i);
    }
    forall key ensures FlightInv(w', key) {
      assert FlightInv(w, key);
    }
    forall key ensures EntryInv(options, w', key) {
      assert EntryInv(options, w, key);
    }
    forall p ensures ProbeInv(w', p) {
      assert ProbeInv(w, p);
    }
    forall j ensures WriteInv(w', j) {
      assert WriteInv(w, j);
    }
  }

  lemma KeepsHit(options: Options, w: World, i: nat)
    requires Inv(options, w) && Enabled(w, EnterSection(i)) && Lookup(w.s, w.calls[i].key, w.now).1.Hit?
    ensures Inv(options, Enter(w, i))
  {
    var w', hit := Enter(w, i), w.calls[i].key;
    assert w'.s.cache.Keys == w.s.cache.Keys;
    forall k ensures CallInv(w', k) {
      assert CallInv(w, k);
    }
    forall key ensures FlightInv(w', key) {
      assert FlightInv(w, key);
    }
    forall key ensures EntryInv(options, w', key) {
      assert EntryInv(options, w, key);
    }
    forall p ensures ProbeInv(w', p) {
      assert ProbeInv(w, p);
    }
    forall j ensures WriteInv(w', j) {
      assert WriteInv(w, j);
    }
    forall j, k | j in w'.s.cache && k in w'.s.cache && j != k ensures w'.s.cache[j].lastUse != w'.s.cache[k].lastUse {
      assert EntryInv(options, w, j) && EntryInv(options, w, k);
    }
  }

  lemma FewerEntries(cache: Entries, key: Key)
    ensures |cache - {key}| <= |cache| && (DistinctStamps(cache) ==> DistinctStamps(cache - {key}))
  {
    assert (cache - {key}).Keys == cache.Keys - {key};
    assert |cache.Keys - {key}| <= |cache.Keys|;
  }

  lemma KeepsJoin(options: Options, w: World, i: nat)
    requires Inv(options, w) && Enabled(w, EnterSection(i)) && Lookup(w.s, w.calls[i].key, w.now).1.Join?
    ensures Inv(options, Enter(w, i))
  {
    var w', joined := Enter(w, i), w.calls[i].key;
    FewerEntries(w.s.cache, joined);
    assert FlightInv(w, joined);
    forall k ensures CallInv(w', k) {
      assert CallInv(w, k);
    }
    forall key ensures FlightInv(w', key) {
      assert FlightInv(w, key);
    }
    forall key ensures EntryInv(options, w', key) {
      assert EntryInv(options, w, key);
    }
    forall p ensures ProbeInv(w', p) {
      assert ProbeInv(w, p);
    }
    forall j ensures WriteInv(w', j) {
      assert WriteInv(w, j);
    }
  }

  lemma StartKeepsCalls(options: Options, w: World, i: nat, k: nat)
    requires Inv(options, w) && Enabled(w, EnterSection(i)) && Lookup(w.s, w.calls[i].key, w.now).1.Start?
    ensures CallInv(Enter(w, i), k)
  {
    assert CallInv(w, k) && ProbeInv(w, |w.s.probes|);
    if k < |w.calls| && (w.calls[k].Probing? || w.calls[k].Probed?) {
      assert FlightInv(w, w.calls[k].key);
    }
  }

  lemma StartKeepsKeys(options: Options, w: World, i: nat, key: Key)
    requires Inv(options, w) && Enabled(w, EnterSection(i)) && Lookup(w.s, w.calls[i].key, w.now).1.Start?
    ensures FlightInv(Enter(w, i), key) && EntryInv(options, Enter(w, i), key)
  {
    assert FlightInv(w, key) && EntryInv(options, w, key);
  }

  lemma KeepsStart(options: Options, w: World, i: nat)
    requires Inv(options, w) && Enabled(w, EnterSection(i)) && Lookup(w.s, w.calls[i].key, w.now).1.Start?
    ensures Inv(options, Enter(w, i))
  {
    var w' := Enter(w, i);
    FewerEntries(w.s.cache, w.calls[i].key);
    assert ProbeInv(w, |w.s.probes|);
    forall k: nat ensures CallInv(w', k) {
      StartKeepsCalls(options, w, i, k);
    }
    forall key ensures FlightInv(w', key) && EntryInv(options, w', key) {
      StartKeepsKeys(options, w, i, key);
    }
    forall p ensures ProbeInv(w', p) {
      assert ProbeInv(w, p);
    }
    forall j ensures WriteInv(w', j) {
      assert WriteInv(w, j);
    }
  }

  lemma KeepsEnter(options: Options, w: World, i: nat)
    requires Inv(options, w) && Enabled(w, EnterSection(i))
    ensures Inv(options, Next(options, w, EnterSection(i)))
  {
    match Lookup(w.s, w.calls[i].key, w.now).1
    case Hit(_) => KeepsHit(options, w, i);
    case Join(_) => KeepsJoin(options, w, i);
    case Start(_) => KeepsStart(options, w, i);
  }

  lemma KeepsDiscard(options: Options, w: World, i: nat)
    requires Inv(options, w) && Enabled(w, FinishSection(i)) && !Keeps(options, w.s.probes[w.calls[i].probe], w.calls[i].answer)
    ensures Inv(options, Finish(options, w, i))
  {
    var w', done, q := Finish(options, w, i), w.calls[i].key, w.calls[i].probe;
    assert CallInv(w, i) && FlightInv(w, done) && ProbeInv(w, q);
    forall k ensures CallInv(w', k) {
      assert CallInv(w, k);
    }
    forall key ensures FlightInv(w', key) {
      assert FlightInv(w, key);
    }
    forall key ensures EntryInv(options, w', key) {
      assert EntryInv(options, w, key);
    }
    forall p ensures ProbeInv(w', p) {
      assert ProbeInv(w, p);
    }
    forall j ensures WriteInv(w', j) {
      assert WriteInv(w, j);
    }
  }

  /** What is left to make room for an entry. */
  lemma RoomIs(cache: Entries, now: int, maxEntries: nat)
    requires DistinctStamps(cache) && maxEntries >= 1
    ensures var room := Evicted(Swept(cache, now), maxEntries);
            && room.Keys <= cache.Keys && (forall k | k in room :: room[k] == cache[k])
            && |room| < maxEntries && DistinctStamps(room)
  {
    var room := Evicted(Swept(cache, now), maxEntries);
    assert forall k | k in room :: room[k] == Swept(cache, now)[k] == cache[k];
    if room == map[] {
      assert |room| == 0;
    }
  }

  lemma InsertKeepsCalls(options: Options, w: World, i: nat, k: nat)
    requires Inv(options, w) && options.maxEntries >= 1 && Enabled(w, FinishSection(i))
    ensures CallInv(Finish(options, w, i), k)
  {
    assert CallInv(w, k) && CallInv(w, i) && FlightInv(w, w.calls[i].key) && ProbeInv(w, w.calls[i].probe);
  }

  lemma InsertKeepsKeys(options: Options, w: World, i: nat, key: Key)
    requires Inv(options, w) && options.maxEntries >= 1
    requires Enabled(w, FinishSection(i)) && Keeps(options, w.s.probes[w.calls[i].probe], w.calls[i].answer)
    ensures FlightInv(Finish(options, w, i), key) && EntryInv(options, Finish(options, w, i), key)
  {
    assert CallInv(w, i) && FlightInv(w, w.calls[i].key) && ProbeInv(w, w.calls[i].probe);
    assert FlightInv(w, key) && EntryInv(options, w, key);
    RoomIs(w.s.cache, w.now, options.maxEntries);
  }

  lemma InsertKeepsWrites(options: Options, w: World, i: nat, j: nat)
    requires Inv(options, w) && options.maxEntries >= 1
    requires Enabled(w, FinishSection(i)) && Keeps(options, w.s.probes[w.calls[i].probe], w.calls[i].answer)
    ensures WriteInv(Finish(options, w, i), j)
  {
    assert CallInv(w, i) && FlightInv(w, w.calls[i].key) && ProbeInv(w, w.calls[i].probe);
    assert WriteInv(w, j);
    if j < |w.writes| {
      assert EntryInv(options, w, w.writes[j].key);
    }
    RoomIs(w.s.cache, w.now, options.maxEntries);
  }

  lemma InsertKeepsStamps(options: Options, s: State, key: Key, answer: Answer, now: int)
    requires DistinctStamps(s.cache) && options.maxEntries >= 1
    requires forall k | k in s.cache :: s.cache[k].lastUse <= s.useSequence
    ensures var t := Inserted(options, s, key, answer, now, Evicted(Swept(s.cache, now), options.maxEntries)); DistinctStamps(t.cache) && |t.cache| <= options.maxEntries
  {
    RoomIs(s.cache, now, options.maxEntries);
    var room := Evicted(Swept(s.cache, now), options.maxEntries);
    assert Inserted(options, s, key, answer, now, room).cache.Keys == room.Keys + {key};
    assert |room.Keys + {key}| <= |room.Keys| + 1;
  }

  lemma KeepsInsert(options: Options, w: World, i: nat)
    requires Inv(options, w) && options.maxEntries >= 1
    requires Enabled(w, FinishSection(i)) && Keeps(options, w.s.probes[w.calls[i].probe], w.calls[i].answer)
    ensures Inv(options, Finish(options, w, i))
  {
    var w' := Finish(options, w, i);
    forall k: nat ensures CallInv(w', k) {
      InsertKeepsCalls(options, w, i, k);
    }
    forall key ensures FlightInv(w', key) && EntryInv(options, w', key) {
      InsertKeepsKeys(options, w, i, key);
    }
    assert CallInv(w, i) && FlightInv(w, w.calls[i].key) && ProbeInv(w, w.calls[i].probe);
    forall p ensures ProbeInv(w', p) {
      assert ProbeInv(w, p);
    }
    forall j: nat ensures WriteInv(w', j) {
      InsertKeepsWrites(options, w, i, j);
    }
    forall k | k in w.s.cache ensures w.s.cache[k].lastUse <= w.s.useSequence {
      assert EntryInv(options, w, k);
    }
    InsertKeepsStamps(options, w.s, w.calls[i].key, w.calls[i].answer, w.now);
  }

  /** Every step keeps the invariant. */
  lemma StepKeepsInv(options: Options, w: World, step: Step)
    requires Inv(options, w) && options.maxEntries >= 1 && Enabled(w, step)
    ensures Inv(options, Next(options, w, step))
  {
    match step
    case Begin(key) => KeepsBegin(options, w, key);
    case EnterSection(i) => KeepsEnter(options, w, i);
    case StatReturns(i, answer) => KeepsStat(options, w, i, answer);
    case FinishSection(i) =>
      if Keeps(options, w.s.probes[w.calls[i].probe], w.calls[i].answer) {
        KeepsInsert(options, w, i);
      } else {
        KeepsDiscard(options, w, i);
      }
    case Wake(i) => KeepsWake(options, w, i);
    case BridgeWrite(key, metadata) => KeepsBridgeWrite(options, w, key, metadata);
    case WriteSection(j) => KeepsWriteSection(options, w, j);
    case Change(objects) => KeepsChange(options, w, objects);
    case Tick(time) => KeepsTick(options, w, time);
  }
}
