/** `read_stream_awaiter`: a read whose callback fires once for each chunk and once at the end. */
module StreamRead {
  import opened Basics

  /** How the append of a chunk went: an allocation that fails throws, and leaves what it leaves. */
  datatype Append = Appended | Threw(left: seq<Byte>)

  /** A firing of the callback. A chunk is a buffer to release, or null. An error's message may fail to be copied. */
  datatype Fire =
    | Chunk(data: seq<Byte>, append: Append)
    | NullChunk
    | Finished
    | Failed(code: int, copied: bool)

  /** `Unknown` is the failure an outcome is seeded with. */
  datatype Outcome = Unknown | Failure(code: int) | Success(bytes: seq<Byte>)

  /** `released` are the firings whose buffer was released, `reclaimed` how often the state was taken back and
      `delivered` how often its outcome was handed on. */
  datatype State = State(
    accumulated: seq<Byte>, errorSeen: bool, outcome: Outcome, released: seq<nat>, reclaimed: nat, delivered: nat)

  const Fresh: State := State([], false, Unknown, [], 0, 0)

  /** The end of a firing that is the last one. */
  function Terminal(s: State): State {
    s.(reclaimed := s.reclaimed + 1, delivered := s.delivered + 1,
       outcome := if s.errorSeen then s.outcome else Success(s.accumulated))
  }

  function AfterFire(s: State, fire: Fire, n: nat): State {
    match fire
    case Chunk(data, append) =>
      var t := if append.Appended? then s.(accumulated := s.accumulated + data) else s.(accumulated := append.left, errorSeen := true);
      t.(released := s.released + [n])
    case NullChunk => s
    case Finished => Terminal(s)
    case Failed(code, copied) => Terminal(s.(errorSeen := true, outcome := if copied then Failure(code) else s.outcome))
  }

  class StreamState {
    var accumulated: seq<Byte>
    var errorSeen: bool
    var outcome: Outcome
    var released: seq<nat>
    var reclaimed: nat
    var delivered: nat

    ghost function Value(): State
      reads this
    {
      State(accumulated, errorSeen, outcome, released, reclaimed, delivered)
    }

    constructor ()
      ensures Value() == Fresh
    {
      accumulated, errorSeen, outcome, released, reclaimed, delivered := [], false, Unknown, [], 0, 0;
    }

    /** The state may be borrowed only until it is reclaimed. */
    method OnChunk(fire: Fire, n: nat)
      requires reclaimed == 0
      modifies this
      ensures Value() == AfterFire(old(Value()), fire, n)
    {
      match fire {
        case Failed(code, copied) =>
          errorSeen := true;
          if copied {
            outcome := Failure(code);
          }
        case Chunk(data, append) =>
          match append {
            case Appended => accumulated := accumulated + data;
            case Threw(left) =>
              accumulated := left;
              errorSeen := true;
          }
          released := released + [n];
          return;
        case NullChunk =>
          return;
        case Finished =>
      }
      reclaimed := reclaimed + 1;
      if !errorSeen {
        outcome := Success(accumulated);
      }
      delivered := delivered + 1;
    }
  }

  // ---------------------------------------------------------------------------
  // A whole stream.
  // ---------------------------------------------------------------------------

  predicate IsLast(fire: Fire) {
    fire.Finished? || fire.Failed?
  }

  /** What the contract of the C function allows: chunks, and one last firing that ends them or reports an error. */
  ghost predicate Allowed(fires: seq<Fire>) {
    forall i | 0 <= i < |fires| - 1 :: !IsLast(fires[i])
  }

  function Run(fires: seq<Fire>): State {
    if fires == [] then Fresh else AfterFire(Run(fires[..|fires| - 1]), fires[|fires| - 1], |fires| - 1)
  }

  /** All the chunks, in order. */
  function Concatenated(fires: seq<Fire>): seq<Byte> {
    if fires == [] then []
    else
      var last := fires[|fires| - 1];
      Concatenated(fires[..|fires| - 1]) + (if last.Chunk? then last.data else [])
  }

  /** The firings that bring a buffer, in order. */
  function Buffers(fires: seq<Fire>): seq<nat> {
    if fires == [] then []
    else
      var n := |fires| - 1;
      Buffers(fires[..n]) + (if fires[n].Chunk? then [n] else [])
  }

  predicate AllAppended(fires: seq<Fire>) {
    forall i | 0 <= i < |fires| && fires[i].Chunk? :: fires[i].append.Appended?
  }

  lemma {:induction false} RunOfChunks(fires: seq<Fire>)
    requires forall i | 0 <= i < |fires| :: !IsLast(fires[i])
    ensures var s := Run(fires);
            && s.reclaimed == 0 && s.delivered == 0 && s.outcome == Unknown && s.released == Buffers(fires)
            && s.errorSeen == !AllAppended(fires) && (AllAppended(fires) ==> s.accumulated == Concatenated(fires))
    decreases |fires|
  {
    if fires != [] {
      var front, last := fires[..|fires| - 1], fires[|fires| - 1];
      RunOfChunks(front);
      assert AllAppended(fires) <==> AllAppended(front) && (last.Chunk? ==> last.append.Appended?);
    }
  }

  lemma {:induction false} BuffersAre(fires: seq<Fire>, i: nat)
    ensures i in Buffers(fires) <==> i < |fires| && fires[i].Chunk?
    decreases |fires|
  {
    if fires != [] {
      BuffersAre(fires[..|fires| - 1], i);
    }
  }

  /** No buffer is in the list twice. */
  lemma {:induction false} BuffersIncrease(fires: seq<Fire>, j: nat, k: nat)
    requires j < k < |Buffers(fires)|
    ensures Buffers(fires)[j] < Buffers(fires)[k]
    decreases |fires|
  {
    var n := |fires| - 1;
    var front := Buffers(fires[..n]);
    if k < |front| {
      BuffersIncrease(fires[..n], j, k);
    } else {
      assert front[j] in front;
      BuffersAre(fires[..n], front[j]);
    }
  }

  lemma LastFire(front: seq<Fire>, last: Fire)
    requires IsLast(last) && forall i | 0 <= i < |front| :: !IsLast(front[i])
    ensures var s := AfterFire(Run(front), last, |front|);
            && s.reclaimed == 1 && s.delivered == 1 && s.released == Buffers(front)
            && s.outcome == match last
               case Failed(code, copied) => if copied then Failure(code) else Unknown
               case _ => if AllAppended(front) then Success(Concatenated(front)) else Unknown
  {
    RunOfChunks(front);
  }

  lemma LastBringsNothing(fires: seq<Fire>)
    requires fires != [] && IsLast(fires[|fires| - 1])
    ensures var front := fires[..|fires| - 1];
            Buffers(fires) == Buffers(front) && Concatenated(fires) == Concatenated(front) && AllAppended(fires) == AllAppended(front)
  {
  }

  /** A stream that has not ended holds its state and has delivered nothing. When it ends the state is reclaimed and
      the outcome delivered, once: all the chunks in order if the stream finished and every one of them was kept, the
      error's code if it ended in one whose message could be copied, and the failure it was seeded with otherwise. The buffers released are those of the chunks, each once. */
  lemma StreamOutcome(fires: seq<Fire>)
    requires Allowed(fires)
    ensures var s := Run(fires);
            && s.released == Buffers(fires)
            && (fires == [] || !IsLast(fires[|fires| - 1]) ==> s.reclaimed == 0 && s.delivered == 0)
            && (fires != [] && IsLast(fires[|fires| - 1]) ==>
                  && s.reclaimed == 1 && s.delivered == 1
                  && (s.outcome.Success? <==> fires[|fires| - 1].Finished? && AllAppended(fires))
                  && (s.outcome.Success? ==> s.outcome.bytes == Concatenated(fires))
                  && (forall code :: s.outcome == Failure(code) <==> fires[|fires| - 1] == Failed(code, true)))
    ensures forall i | 0 <= i < |fires| :: fires[i].Chunk? <==> i in Buffers(fires)
    ensures forall j, k | 0 <= j < k < |Buffers(fires)| :: Buffers(fires)[j] < Buffers(fires)[k]
  {
    forall i | 0 <= i < |fires| ensures fires[i].Chunk? <==> i in Buffers(fires) {
      BuffersAre(fires, i);
    }
    forall j, k | 0 <= j < k < |Buffers(fires)| ensures Buffers(fires)[j] < Buffers(fires)[k] {
      BuffersIncrease(fires, j, k);
    }
    if fires != [] && IsLast(fires[|fires| - 1]) {
      LastBringsNothing(fires);
      LastFire(fires[..|fires| - 1], fires[|fires| - 1]);
    } else {
      RunOfChunks(fires);
    }
  }
}
