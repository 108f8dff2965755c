/** The existence cache in use: any number of callers, writers and other changes to the store, one critical section,
    one `stat` or one bridge write at a time. */
module ExistenceProtocol {
  import opened ExistenceCache

  /** What the store holds: the metadata of each object. */
  type Objects = map<Key, string>

  /** A call of `resolveExistence`. */
  datatype Call =
    | Called(key: Key)
    | Probing(key: Key, probe: nat)
    | Probed(key: Key, probe: nat, answer: Answer)
    | Waiting(key: Key, probe: nat)
    | Returned(key: Key, answer: Answer, way: Way)

  datatype Way = ByHit | ByWaiting(probe: nat) | ByProbing(probe: nat)

  /** A successful `write`, from when the store took it; `version` is the store it made. */
  datatype Write = Applied(key: Key, version: nat) | Invalidated(key: Key, version: nat)

  /** A `stat` that returned, and the store it saw. */
  datatype Stat = Stat(key: Key, answer: Answer, version: nat)

  /** Where a cached entry came from, and when. */
  datatype Source = Source(probe: nat, at: int)

  /** `history` is every store there has been, `owner` the call that runs a probe. */
  datatype World = World(
    s: State, now: int, calls: seq<Call>, writes: seq<Write>,
    history: seq<Objects>, stats: map<nat, Stat>, owner: map<nat, nat>, sources: map<Key, Source>)

  datatype Step =
    | Begin(key: Key)
    | EnterSection(call: nat)
    | StatReturns(call: nat, answer: Answer)
    | FinishSection(call: nat)
    | Wake(call: nat)
    | BridgeWrite(key: Key, metadata: string)
    | WriteSection(write: nat)
    | Change(objects: Objects)
    | Tick(time: int)

  /** An answer that says what the objects are; an error says nothing. */
  predicate Truth(objects: Objects, key: Key, answer: Answer) {
    match answer.code
    case Success => key in objects && objects[key] == answer.metadata
    case NotFound => key !in objects
    case OtherError => true
  }

  function Version(w: World): nat
    requires w.history != []
  {
    |w.history| - 1
  }

  predicate Enabled(w: World, step: Step) {
    w.history != [] &&
    match step
    case Begin(_) => true
    case EnterSection(i) => i < |w.calls| && w.calls[i].Called?
    case StatReturns(i, answer) => i < |w.calls| && w.calls[i].Probing? && Truth(w.history[Version(w)], w.calls[i].key, answer)
    case FinishSection(i) => i < |w.calls| && w.calls[i].Probed? && w.calls[i].probe < |w.s.probes|
    case Wake(i) =>
      i < |w.calls| && w.calls[i].Waiting? && w.calls[i].probe < |w.s.probes| && w.s.probes[w.calls[i].probe].completed
    case BridgeWrite(_, _) => true
    case WriteSection(j) =>
      && j < |w.writes| && w.writes[j].Applied?
      && (w.writes[j].key in w.s.inFlight ==> w.s.inFlight[w.writes[j].key] < |w.s.probes|)
    case Change(_) => true
    case Tick(time) => time >= w.now
  }

  function Enter(w: World, i: nat): World
    requires i < |w.calls| && w.calls[i].Called?
  {
    var key := w.calls[i].key;
    var (s, found) := Lookup(w.s, key, w.now);
    match found
    case Hit(answer) => w.(s := s, calls := w.calls[i := Returned(key, answer, ByHit)])
    case Join(p) => w.(s := s, calls := w.calls[i := Waiting(key, p)])
    case Start(p) => w.(s := s, calls := w.calls[i := Probing(key, p)], owner := w.owner[p := i])
  }

  ghost function Finish(options: Options, w: World, i: nat): World
    requires i < |w.calls| && w.calls[i].Probed? && w.calls[i].probe < |w.s.probes|
  {
    var Probed(key, p, answer) := w.calls[i];
    w.(s := Complete(options, w.s, p, answer, w.now),
       calls := w.calls[i := Returned(key, answer, ByProbing(p))],
       sources := if Keeps(options, w.s.probes[p], answer) then w.sources[w.s.probes[p].key := Source(p, w.now)] else w.sources)
  }

  ghost function Next(options: Options, w: World, step: Step): World
    requires Enabled(w, step)
  {
    match step
    case Begin(key) => w.(calls := w.calls + [Called(key)])
    case EnterSection(i) => Enter(w, i)
    case StatReturns(i, answer) =>
      var Probing(key, p) := w.calls[i];
      w.(calls := w.calls[i := Probed(key, p, answer)], stats := w.stats[p := Stat(key, answer, Version(w))])
    case FinishSection(i) => Finish(options, w, i)
    case Wake(i) =>
      var Waiting(key, p) := w.calls[i];
      w.(calls := w.calls[i := Returned(key, w.s.probes[p].answer, ByWaiting(p))])
    case BridgeWrite(key, metadata) =>
      w.(history := w.history + [w.history[Version(w)][key := metadata]], writes := w.writes + [Applied(key, |w.history|)])
    case WriteSection(j) =>
      var Applied(key, version) := w.writes[j];
      w.(s := Invalidate(w.s, key), writes := w.writes[j := Invalidated(key, version)])
    case Change(objects) => w.(history := w.history + [objects])
    case Tick(time) => w.(now := time)
  }

  // ---------------------------------------------------------------------------
  // The invariant.
  // ---------------------------------------------------------------------------

  ghost predicate Active(w: World, i: nat, key: Key, p: nat) {
    key in w.s.inFlight && w.s.inFlight[key] == p && p in w.owner && w.owner[p] == i
  }

  ghost predicate CallInv(w: World, i: nat) {
    i < |w.calls| ==>
      match w.calls[i]
      case Called(_) => true
      case Probing(key, p) => Active(w, i, key, p) && p !in w.stats
      case Probed(key, p, answer) => Active(w, i, key, p) && p in w.stats && w.stats[p].answer == answer
      case Waiting(key, p) =>
        p < |w.s.probes| && w.s.probes[p].key == key && (w.s.probes[p].completed || (key in w.s.inFlight && w.s.inFlight[key] == p))
      case Returned(key, answer, way) =>
        match way
        case ByHit => true
        case ByWaiting(p) => p in w.stats && w.stats[p].key == key && w.stats[p].answer == answer
        case ByProbing(p) => p in w.stats && w.stats[p].key == key && w.stats[p].answer == answer
  }

  /** A probe in flight is run by exactly one call and its key is not cached. */
  ghost predicate FlightInv(w: World, key: Key) {
    key in w.s.inFlight ==>
      var p := w.s.inFlight[key];
      && p < |w.s.probes| && w.s.probes[p].key == key && !w.s.probes[p].completed && key !in w.s.cache
      && p in w.owner && w.owner[p] < |w.calls|
      && (var c := w.calls[w.owner[p]]; (c.Probing? || c.Probed?) && c.key == key && c.probe == p)
  }

  /** A cached entry is what a `stat` of its key said, kept for its time to live. */
  ghost predicate EntryInv(options: Options, w: World, key: Key) {
    key in w.s.cache ==>
      var e := w.s.cache[key];
      && key in w.sources && w.sources[key].probe in w.stats
      && (var stat := w.stats[w.sources[key].probe]; stat.key == key && stat.answer == e.answer)
      && (e.answer.code == Success || e.answer.code == NotFound)
      && w.sources[key].at <= w.now && e.expiresAt == w.sources[key].at + Ttl(options, e.answer)
      && e.lastUse <= w.s.useSequence
  }

  /** A `stat` is of its probe's key, and says what the store it saw held. */
  ghost predicate ProbeInv(w: World, p: nat) {
    && (p in w.stats ==>
          && p < |w.s.probes| && w.stats[p].key == w.s.probes[p].key
          && w.stats[p].version < |w.history| && Truth(w.history[w.stats[p].version], w.stats[p].key, w.stats[p].answer))
    && (p < |w.s.probes| && w.s.probes[p].completed ==> p in w.stats && w.s.probes[p].answer == w.stats[p].answer)
  }

  /** After the section of a write, what is cached or may still be cached was seen after that write. */
  ghost predicate WriteInv(w: World, j: nat) {
    j < |w.writes| ==>
      var write := w.writes[j];
      && write.version < |w.history|
      && (write.Invalidated? ==> Covered(w, write.key, write.version))
  }

  ghost predicate Covered(w: World, key: Key, version: nat) {
    && (key in w.s.cache && key in w.sources && w.sources[key].probe in w.stats ==> w.stats[w.sources[key].probe].version >= version)
    && (key in w.s.inFlight && w.s.inFlight[key] < |w.s.probes| && w.s.inFlight[key] in w.stats ==>
          var p := w.s.inFlight[key]; w.s.probes[p].invalidated || w.stats[p].version >= version)
  }

  ghost predicate Inv(options: Options, w: World) {
    && w.history != []
    && (forall i :: CallInv(w, i))
    && (forall key :: FlightInv(w, key))
    && (forall key :: EntryInv(options, w, key))
    && (forall p :: ProbeInv(w, p))
    && (forall j :: WriteInv(w, j))
    && DistinctStamps(w.s.cache) && |w.s.cache| <= options.maxEntries
  }

  predicate Initial(w: World) {
    w.s == State(map[], map[], [], 0) && w.calls == [] && w.writes == [] && |w.history| == 1
    && w.stats == map[] && w.owner == map[] && w.sources == map[]
  }

  lemma InitialInv(options: Options, w: World)
    requires Initial(w)
    ensures Inv(options, w)
  {
  }
}
