/** The critical sections of the existence cache, each as a function of the state it finds. */
module ExistenceCache {

  type Key = string

  datatype Code = Success | NotFound | OtherError

  /** A `stat` answer: whether the object exists, and its metadata. */
  datatype Answer = Answer(code: Code, metadata: string)

  datatype Options = Options(positiveTtl: nat, negativeTtl: nat, maxEntries: nat)

  datatype Entry = Entry(answer: Answer, expiresAt: int, lastUse: nat)

  /** A probe and what its waiters share with it. */
  datatype Probe = Probe(key: Key, answer: Answer, completed: bool, invalidated: bool)

  type Entries = map<Key, Entry>

  /** The guarded state. Probes are named by their place in the order of registration. */
  datatype State = State(cache: Entries, inFlight: map<Key, nat>, probes: seq<Probe>, useSequence: nat)

  datatype Found = Hit(answer: Answer) | Join(probe: nat) | Start(probe: nat)

  const NoAnswer: Answer := Answer(OtherError, "")

  /** The first section of `resolveExistence`: a live entry, a probe to wait for, or a new one. */
  function Lookup(s: State, key: Key, now: int): (State, Found) {
    if key in s.cache && s.cache[key].expiresAt > now then
      var used := s.cache[key].(lastUse := s.useSequence + 1);
      (s.(cache := s.cache[key := used], useSequence := s.useSequence + 1), Hit(used.answer))
    else
      var t := s.(cache := s.cache - {key});
      if key in s.inFlight then (t, Join(s.inFlight[key]))
      else (t.(inFlight := s.inFlight[key := |s.probes|], probes := s.probes + [Probe(key, NoAnswer, false, false)]), Start(|s.probes|))
  }

  /** The entries still alive at `now`. */
  function Swept(cache: Entries, now: int): (r: Entries)
    ensures r.Keys <= cache.Keys
  {
    map k | k in cache && cache[k].expiresAt > now :: cache[k]
  }

  ghost predicate IsLeastUsed(cache: Entries, k: Key) {
    k in cache && forall j | j in cache :: cache[k].lastUse <= cache[j].lastUse
  }

  lemma {:induction false} LeastUsedExists(cache: Entries)
    requires cache != map[]
    ensures exists k :: IsLeastUsed(cache, k)
    decreases |cache|
  {
    var k :| k in cache;
    var rest := cache - {k};
    if rest == map[] {
      assert forall j | j in cache :: j == k by {
        assert forall j | j in cache && j != k :: j in rest;
      }
      assert IsLeastUsed(cache, k);
    } else {
      assert rest.Keys == cache.Keys - {k};
      LeastUsedExists(rest);
      var j :| IsLeastUsed(rest, j);
      assert forall i | i in cache :: i == k || (i in rest && rest[i] == cache[i]);
      assert IsLeastUsed(cache, if cache[k].lastUse <= cache[j].lastUse then k else j);
    }
  }

  ghost function LeastUsed(cache: Entries): (k: Key)
    requires cache != map[]
    ensures IsLeastUsed(cache, k)
  {
    LeastUsedExists(cache);
    var k :| IsLeastUsed(cache, k);
    k
  }

  ghost predicate DistinctStamps(cache: Entries) {
    forall j, k | j in cache && k in cache && j != k :: cache[j].lastUse != cache[k].lastUse
  }

  /** The entries left when the least recently used are evicted until there is room for one more. */
  ghost function Evicted(cache: Entries, maxEntries: nat): (r: Entries)
    ensures r.Keys <= cache.Keys && forall k | k in r :: r[k] == cache[k]
    ensures r == map[] || |r| < maxEntries
    decreases |cache|
  {
    if cache == map[] || |cache| < maxEntries then cache
    else
      var rest := cache - {LeastUsed(cache)};
      assert rest.Keys == cache.Keys - {LeastUsed(cache)};
      Evicted(rest, maxEntries)
  }

  /** What the eviction loop may leave: nothing more than the capacity allows, nothing less than it must evict, and
      none that was used before one that is gone. */
  ghost predicate IsEvicted(cache: Entries, maxEntries: nat, r: Entries) {
    && r.Keys <= cache.Keys && (forall k | k in r :: r[k] == cache[k])
    && (r == map[] || |r| < maxEntries) && (r != cache ==> |r| + 1 >= maxEntries)
    && (forall gone, kept | gone in cache && gone !in r && kept in r :: cache[gone].lastUse <= r[kept].lastUse)
  }

  function Ttl(options: Options, answer: Answer): nat {
    if answer.code == Success then options.positiveTtl else options.negativeTtl
  }

  /** Whether the answer of a probe is kept. */
  predicate Keeps(options: Options, probe: Probe, answer: Answer) {
    !probe.invalidated && (answer.code == Success || answer.code == NotFound) && Ttl(options, answer) > 0
  }

  function Inserted(options: Options, s: State, key: Key, answer: Answer, now: int, room: Entries): State {
    var entry := Entry(answer, now + Ttl(options, answer), s.useSequence + 1);
    s.(cache := room[key := entry], useSequence := s.useSequence + 1)
  }

  /** The second section of `resolveExistence`, with what eviction leaves: the answer of a probe is kept if it may be,
      and given to waiters. */
  function CompleteWith(options: Options, s: State, p: nat, answer: Answer, now: int, room: Entries): State
    requires p < |s.probes|
  {
    var key := s.probes[p].key;
    var t := if Keeps(options, s.probes[p], answer) then Inserted(options, s, key, answer, now, room) else s;
    var inFlight := if key in s.inFlight && s.inFlight[key] == p then s.inFlight - {key} else s.inFlight;
    t.(inFlight := inFlight, probes := s.probes[p := s.probes[p].(answer := answer, completed := true)])
  }

  ghost function Complete(options: Options, s: State, p: nat, answer: Answer, now: int): State
    requires p < |s.probes|
  {
    CompleteWith(options, s, p, answer, now, Evicted(Swept(s.cache, now), options.maxEntries))
  }

  /** What the second section may do: when two entries have the same stamp either may be evicted first. */
  ghost predicate Completes(options: Options, s: State, p: nat, answer: Answer, now: int, t: State)
    requires p < |s.probes|
  {
    exists room | IsEvicted(Swept(s.cache, now), options.maxEntries, room) :: t == CompleteWith(options, s, p, answer, now, room)
  }

  /** The section of a successful `write`. */
  function Invalidate(s: State, key: Key): State
    requires key in s.inFlight ==> s.inFlight[key] < |s.probes|
  {
    var t := s.(cache := s.cache - {key});
    if key in s.inFlight then
      var p := s.inFlight[key];
      t.(probes := s.probes[p := s.probes[p].(invalidated := true)])
    else t
  }

  // ---------------------------------------------------------------------------
  // The sections as they run, under the lock.
  // ---------------------------------------------------------------------------

  class ResolveExistenceState {
    var cache: Entries
    var inFlight: map<Key, nat>
    var probes: seq<Probe>
    var useSequence: nat

    ghost function Value(): State
      reads this
    {
      State(cache, inFlight, probes, useSequence)
    }

    constructor ()
      ensures Value() == State(map[], map[], [], 0)
    {
      cache, inFlight, probes, useSequence := map[], map[], [], 0;
    }

    method Enter(key: Key, now: int) returns (found: Found)
      modifies this
      ensures (Value(), found) == Lookup(old(Value()), key, now)
    {
      if key in cache {
        if cache[key].expiresAt > now {
          useSequence := useSequence + 1;
          cache := cache[key := cache[key].(lastUse := useSequence)];
          return Hit(cache[key].answer);
        }
        cache := cache - {key};
      }
      assert cache == old(cache) - {key};
      if key in inFlight {
        return Join(inFlight[key]);
      }
      probes := probes + [Probe(key, NoAnswer, false, false)];
      inFlight := inFlight[key := |probes| - 1];
      found := Start(|probes| - 1);
    }

    /** Erases the entries that have expired, in whatever order they come. */
    method Sweep(now: int)
      modifies this`cache
      ensures cache == Swept(old(cache), now)
    {
      var left := cache.Keys;
      while left != {}
        invariant left <= cache.Keys <= old(cache).Keys
        invariant forall k | k in cache :: cache[k] == old(cache)[k]
        invariant forall k | k in old(cache) && k !in left :: k in cache <==> old(cache)[k].expiresAt > now
        decreases left
      {
        var k :| k in left;
        left := left - {k};
        if cache[k].expiresAt <= now {
          cache := cache - {k};
        }
      }
    }

    /** The key of the least recently used entry. */
    method FindLeastUsed() returns (found: bool, least: Key)
      ensures found <==> cache != map[]
      ensures found ==> IsLeastUsed(cache, least)
    {
      found, least := false, "";
      var left := cache.Keys;
      while left != {}
        invariant left <= cache.Keys
        invariant found ==> least in cache && forall k | k in cache && k !in left :: cache[least].lastUse <= cache[k].lastUse
        invariant !found ==> left == cache.Keys
        decreases left
      {
        var k :| k in left;
        left := left - {k};
        if !found || cache[k].lastUse < cache[least].lastUse {
          found, least := true, k;
        }
      }
      if !found {
        assert cache == map[];
      }
    }

    /** Evicts until there is room for one more. When two entries have the same stamp either may go first. */
    method Evict(maxEntries: nat)
      modifies this`cache
      ensures IsEvicted(old(cache), maxEntries, cache)
    {
      while |cache| >= maxEntries
        invariant cache.Keys <= old(cache).Keys && forall k | k in cache :: cache[k] == old(cache)[k]
        invariant |old(cache)| < maxEntries ==> cache == old(cache)
        invariant cache != old(cache) ==> |cache| + 1 >= maxEntries
        invariant forall gone, kept | gone in old(cache) && gone !in cache && kept in cache ::
                    old(cache)[gone].lastUse <= cache[kept].lastUse
        decreases |cache|
      {
        var found, least := FindLeastUsed();
        if !found {
          break;
        }
        assert (cache - {least}).Keys == cache.Keys - {least};
        cache := cache - {least};
      }
    }

    /** Makes room and inserts. */
    method Insert(options: Options, key: Key, answer: Answer, ttl: nat, now: int) returns (ghost room: Entries)
      requires ttl == Ttl(options, answer)
      modifies this`cache, this`useSequence
      ensures IsEvicted(Swept(old(cache), now), options.maxEntries, room)
      ensures Value() == Inserted(options, old(Value()), key, answer, now, room)
    {
      Sweep(now);
      Evict(options.maxEntries);
      room := cache;
      useSequence := useSequence + 1;
      cache := cache[key := Entry(answer, now + ttl, useSequence)];
    }

    method Finish(options: Options, p: nat, answer: Answer, now: int)
      requires p < |probes|
      modifies this
      ensures Completes(options, old(Value()), p, answer, now, Value())
    {
      ghost var room := Evicted(Swept(cache, now), options.maxEntries);
      EvictedIsEvicted(Swept(cache, now), options.maxEntries);
      var key := probes[p].key;
      var positive := answer.code == Success;
      var authoritativeNegative := answer.code == NotFound;
      var ttl := if positive then options.positiveTtl else options.negativeTtl;
      if !probes[p].invalidated && (positive || authoritativeNegative) && ttl > 0 {
        room := Insert(options, key, answer, ttl, now);
      }
      probes := probes[p := probes[p].(answer := answer, completed := true)];
      if key in inFlight && inFlight[key] == p {
        inFlight := inFlight - {key};
      }
      assert Value() == CompleteWith(options, old(Value()), p, answer, now, room);
    }

    method AfterWrite(key: Key)
      requires key in inFlight ==> inFlight[key] < |probes|
      modifies this
      ensures Value() == Invalidate(old(Value()), key)
    {
      cache := cache - {key};
      if key in inFlight {
        var p := inFlight[key];
        probes := probes[p := probes[p].(invalidated := true)];
      }
    }
  }

  // ---------------------------------------------------------------------------
  // Eviction.
  // ---------------------------------------------------------------------------

  /** Everything evicted was used before everything that stays. */
  lemma {:induction false} EvictedIsLeastUsed(cache: Entries, maxEntries: nat, gone: Key, kept: Key)
    requires gone in cache && gone !in Evicted(cache, maxEntries) && kept in Evicted(cache, maxEntries)
    ensures cache[gone].lastUse <= cache[kept].lastUse
    decreases |cache|
  {
    var least := LeastUsed(cache);
    var rest := cache - {least};
    assert rest.Keys == cache.Keys - {least};
    if gone != least {
      EvictedIsLeastUsed(rest, maxEntries, gone, kept);
    }
  }

  /** From a cache that is not over its capacity at most one entry is evicted. */
  lemma EvictedAtMostOne(cache: Entries, maxEntries: nat, j: Key, k: Key)
    requires maxEntries >= 1 && |cache| <= maxEntries
    requires j in cache && j !in Evicted(cache, maxEntries) && k in cache && k !in Evicted(cache, maxEntries)
    ensures j == k && IsLeastUsed(cache, j)
  {
    var least := LeastUsed(cache);
    var rest := cache - {least};
    assert rest.Keys == cache.Keys - {least};
    assert |rest| < maxEntries;
    assert Evicted(cache, maxEntries) == Evicted(rest, maxEntries) == rest;
  }

  lemma {:induction false} EvictedIsEvicted(cache: Entries, maxEntries: nat)
    ensures IsEvicted(cache, maxEntries, Evicted(cache, maxEntries))
    decreases |cache|
  {
    var r := Evicted(cache, maxEntries);
    if cache != map[] && |cache| >= maxEntries {
      var rest := cache - {LeastUsed(cache)};
      assert rest.Keys == cache.Keys - {LeastUsed(cache)};
      EvictedIsEvicted(rest, maxEntries);
    }
    forall gone, kept | gone in cache && gone !in r && kept in r ensures cache[gone].lastUse <= r[kept].lastUse {
      EvictedIsLeastUsed(cache, maxEntries, gone, kept);
    }
  }

  lemma Fewer(r: Entries, cache: Entries)
    requires r.Keys <= cache.Keys && forall k | k in r :: r[k] == cache[k]
    ensures r == cache || |r| < |cache|
  {
    if r.Keys == cache.Keys {
      assert r == cache;
    } else {
      var k :| k in cache && k !in r;
      assert r.Keys <= cache.Keys - {k};
      Subset(r.Keys, cache.Keys - {k});
    }
  }

  lemma {:induction false} Subset(a: set<Key>, b: set<Key>)
    requires a <= b
    ensures |a| <= |b|
  {
    assert b == a + (b - a);
  }

  lemma OneGone(cache: Entries, r: Entries) returns (gone: Key)
    requires r != cache && r.Keys <= cache.Keys && forall k | k in r :: r[k] == cache[k]
    ensures gone in cache && gone !in r
  {
    assert r.Keys == cache.Keys ==> r == cache;
    assert cache.Keys == r.Keys + (cache.Keys - r.Keys);
    assert cache.Keys - r.Keys == {} ==> cache.Keys == r.Keys + {};
    gone :| gone in cache.Keys - r.Keys;
  }

  lemma LeastIsGone(cache: Entries, maxEntries: nat, r: Entries)
    requires DistinctStamps(cache) && cache != map[] && |cache| >= maxEntries && IsEvicted(cache, maxEntries, r)
    ensures LeastUsed(cache) !in r && IsEvicted(cache - {LeastUsed(cache)}, maxEntries, r)
  {
    var least := LeastUsed(cache);
    var rest := cache - {least};
    var gone := OneGone(cache, r);
    assert gone != least ==> cache[least].lastUse < cache[gone].lastUse;
  }

  /** With distinct stamps the loop leaves one cache only. */
  lemma {:induction false} EvictedExactly(cache: Entries, maxEntries: nat, r: Entries)
    requires DistinctStamps(cache)
    ensures IsEvicted(cache, maxEntries, r) <==> r == Evicted(cache, maxEntries)
    decreases |cache|
  {
    EvictedIsEvicted(cache, maxEntries);
    if IsEvicted(cache, maxEntries, r) {
      if cache == map[] || |cache| < maxEntries {
        Fewer(r, cache);
      } else {
        var rest := cache - {LeastUsed(cache)};
        assert rest.Keys == cache.Keys - {LeastUsed(cache)};
        LeastIsGone(cache, maxEntries, r);
        EvictedExactly(rest, maxEntries, r);
      }
    }
  }

  lemma SweptKeepsStamps(cache: Entries, now: int)
    requires DistinctStamps(cache)
    ensures DistinctStamps(Swept(cache, now))
  {
    var live := Swept(cache, now);
    assert forall k | k in live :: k in cache && live[k] == cache[k];
  }

  /** So does the second section. */
  lemma CompletesExactly(options: Options, s: State, p: nat, answer: Answer, now: int, t: State)
    requires p < |s.probes| && DistinctStamps(s.cache)
    ensures Completes(options, s, p, answer, now, t) <==> t == Complete(options, s, p, answer, now)
  {
    var live := Swept(s.cache, now);
    SweptKeepsStamps(s.cache, now);
    EvictedIsEvicted(live, options.maxEntries);
    if Completes(options, s, p, answer, now, t) {
      var room :| IsEvicted(live, options.maxEntries, room) && t == CompleteWith(options, s, p, answer, now, room);
      EvictedExactly(live, options.maxEntries, room);
    }
  }
}
