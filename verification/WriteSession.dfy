/** One write session, `OvstorageWritableAsset`: a staged file, written at any offset and put as a whole on close. */
module WriteSession {
  import opened Basics

  type Etag = nat

  datatype Mode = Replace | Update
  datatype Precondition = Overwrite | FailIfPresent | MatchEtag(etag: Etag)

  /** A byte-range write. */
  datatype Patch = Patch(offset: nat, data: seq<Byte>)

  /** The file after a write: a gap before it is filled with zeros, and writing nothing changes nothing. */
  function Overlay(file: seq<Byte>, p: Patch): seq<Byte> {
    if p.data == [] then file
    else
      var end := p.offset + |p.data|;
      seq(if end > |file| then end else |file|, i requires 0 <= i =>
        if p.offset <= i < end then p.data[i - p.offset] else if i < |file| then file[i] else 0)
  }

  function Overlaid(file: seq<Byte>, patches: seq<Patch>): seq<Byte> {
    if patches == [] then file else Overlay(Overlaid(file, patches[..|patches| - 1]), patches[|patches| - 1])
  }

  lemma OverlaidMore(file: seq<Byte>, patches: seq<Patch>, p: Patch)
    ensures Overlaid(file, patches + [p]) == Overlay(Overlaid(file, patches), p)
  {
    assert (patches + [p])[..|patches|] == patches;
  }

  // ---------------------------------------------------------------------------
  // A session as a value.
  // ---------------------------------------------------------------------------

  /** `open` says whether the safe output file has a stream, `data` is what has gone through it, and `directory` the
      staging directory the session still owns. */
  datatype Session = Session(
    mode: Mode, closed: bool, writeFailed: bool, open: bool, data: seq<Byte>, precondition: Precondition, directory: Option<nat>)

  /** What `ArchPWrite` did: how much it wrote, or that it failed and what it left in the file. */
  datatype Outcome = Wrote(count: nat) | Failed(left: seq<Byte>)

  datatype Request = Request(bytes: seq<Byte>, precondition: Precondition)

  /** What happens to a session, with what the local file system makes of it. */
  datatype Act =
    | Write(patch: Patch, outcome: Outcome)
    | Close(clean: bool, readBack: bool)
    | Destroy

  predicate Possible(act: Act) {
    act.Write? && act.outcome.Wrote? ==> act.outcome.count <= |act.patch.data|
  }

  /** The session after `Write`, and the count it returns. */
  function AfterWrite(s: Session, patch: Patch, outcome: Outcome): (Session, nat)
    requires outcome.Wrote? ==> outcome.count <= |patch.data|
  {
    if !s.open then (s.(writeFailed := true), 0)
    else
      match outcome
      case Failed(left) => (s.(writeFailed := true, data := left), 0)
      case Wrote(n) =>
        (s.(data := Overlay(s.data, Patch(patch.offset, patch.data[..n])), writeFailed := s.writeFailed || n < |patch.data|), n)
  }

  /** Discarding is for files opened to replace; one opened to update stays open. */
  function Abandoned(s: Session): Session {
    s.(open := s.open && s.mode == Update)
  }

  /** The session after `Close`, and the PUT it makes. */
  function AfterClose(s: Session, clean: bool, readBack: bool): (Session, Option<Request>) {
    if s.closed then (s, None)
    else if s.writeFailed then (Abandoned(s).(closed := true, directory := None), None)
    else
      var t := s.(closed := true, open := false, directory := None);
      (t, if clean && readBack then Some(Request(s.data, s.precondition)) else None)
  }

  function AfterDestroy(s: Session): Session {
    if s.closed then s else Abandoned(s).(directory := None)
  }

  function AfterAct(s: Session, act: Act): (Session, Option<Request>)
    requires Possible(act)
  {
    match act
    case Write(patch, outcome) => (AfterWrite(s, patch, outcome).0, None)
    case Close(clean, readBack) => AfterClose(s, clean, readBack)
    case Destroy => (AfterDestroy(s), None)
  }

  // ---------------------------------------------------------------------------
  // A whole session.
  // ---------------------------------------------------------------------------

  /** A sequence of calls that ends with the destruction of the session, if it is destroyed. */
  ghost predicate Life(acts: seq<Act>) {
    && (forall i | 0 <= i < |acts| :: Possible(acts[i]))
    && (forall i | 0 <= i < |acts| - 1 :: !acts[i].Destroy?)
  }

  /** The session after its calls, and the PUTs they made. */
  function Run(s: Session, acts: seq<Act>): (Session, seq<Request>)
    requires forall i | 0 <= i < |acts| :: Possible(acts[i])
  {
    if acts == [] then (s, [])
    else
      var (t, puts) := Run(s, acts[..|acts| - 1]);
      var (u, put) := AfterAct(t, acts[|acts| - 1]);
      (u, if put.Some? then puts + [put.value] else puts)
  }

  /** A session as `Open` makes it. */
  predicate Opened(s: Session, seed: seq<Byte>) {
    !s.closed && !s.writeFailed && s.open && s.data == seed && s.directory.Some?
  }

  predicate OnlyWrites(acts: seq<Act>) {
    forall i | 0 <= i < |acts| :: acts[i].Write?
  }

  /** Every write wrote all it was asked to. */
  predicate Complete(acts: seq<Act>) {
    forall i | 0 <= i < |acts| && acts[i].Write? :: acts[i].outcome == Wrote(|acts[i].patch.data|)
  }

  function Patches(acts: seq<Act>): seq<Patch>
    requires OnlyWrites(acts)
  {
    seq(|acts|, i requires 0 <= i < |acts| => acts[i].patch)
  }

  /** How many calls come before the first `Close`. */
  function FirstClose(acts: seq<Act>): (k: nat)
    ensures k <= |acts| && (k < |acts| ==> acts[k].Close?) && forall i | 0 <= i < k :: !acts[i].Close?
  {
    if acts == [] || acts[0].Close? then 0 else 1 + FirstClose(acts[1..])
  }

  lemma {:induction false} RunOfWrites(s: Session, seed: seq<Byte>, acts: seq<Act>)
    requires Opened(s, seed) && OnlyWrites(acts) && forall i | 0 <= i < |acts| :: Possible(acts[i])
    ensures var (t, puts) := Run(s, acts);
            && puts == [] && t == s.(data := t.data, writeFailed := !Complete(acts))
            && (Complete(acts) ==> t.data == Overlaid(seed, Patches(acts)))
    decreases |acts|
  {
    if acts != [] {
      var front, last := acts[..|acts| - 1], acts[|acts| - 1];
      RunOfWrites(s, seed, front);
      assert acts == front + [last];
      assert Complete(acts) <==> Complete(front) && last.outcome == Wrote(|last.patch.data|);
      if Complete(acts) {
        assert Patches(acts) == Patches(front) + [last.patch];
        OverlaidMore(seed, Patches(front), last.patch);
        assert last.patch.data[..|last.patch.data|] == last.patch.data;
      }
    }
  }

  /** The count that write `i` answered. */
  function Answered(s: Session, acts: seq<Act>, i: nat): nat
    requires i < |acts| && acts[i].Write? && forall k | 0 <= k < |acts| :: Possible(acts[k])
  {
    assert Possible(acts[i]);
    AfterWrite(Run(s, acts[..i]).0, acts[i].patch, acts[i].outcome).1
  }

  /** Write `i` answered fewer bytes than it was given, or was given none and failed. */
  predicate FellShort(s: Session, acts: seq<Act>, i: nat)
    requires forall k | 0 <= k < |acts| :: Possible(acts[k])
  {
    && i < |acts| && acts[i].Write?
    && (|| Answered(s, acts, i) < |acts[i].patch.data|
        || (acts[i].patch.data == [] && (acts[i].outcome.Failed? || !Run(s, acts[..i]).0.open)))
  }

  lemma FellShortBefore(s: Session, acts: seq<Act>, n: nat, i: nat)
    requires i < n <= |acts| && forall k | 0 <= k < |acts| :: Possible(acts[k])
    ensures FellShort(s, acts[..n], i) <==> FellShort(s, acts, i)
  {
    assert acts[..n][..i] == acts[..i];
  }

  /** A session is latched as failed exactly when one of the writes so far fell short, whatever calls came between. */
  lemma {:induction false} LatchedExactly(s: Session, acts: seq<Act>)
    requires !s.writeFailed && forall k | 0 <= k < |acts| :: Possible(acts[k])
    ensures Run(s, acts).0.writeFailed <==> exists i: nat :: FellShort(s, acts, i)
    decreases |acts|
  {
    if acts != [] {
      var last := |acts| - 1;
      LatchedExactly(s, acts[..last]);
      forall i: nat | i < last ensures FellShort(s, acts[..last], i) <==> FellShort(s, acts, i) {
        FellShortBefore(s, acts, last, i);
      }
      assert FellShort(s, acts, last) || !FellShort(s, acts, last);
    }
  }

  /** Before the first `Close` a write that was given something falls short exactly when it answers less. */
  lemma ShortBeforeClose(s: Session, seed: seq<Byte>, acts: seq<Act>, i: nat)
    requires Opened(s, seed) && Life(acts) && i < FirstClose(acts) && acts[i].Write?
    ensures FellShort(s, acts, i) <==>
            Answered(s, acts, i) < |acts[i].patch.data| || (acts[i].patch.data == [] && acts[i].outcome.Failed?)
    ensures Answered(s, acts, i) == if acts[i].outcome.Wrote? then acts[i].outcome.count else 0
  {
    forall k | 0 <= k < i ensures acts[..i][k].Write? && Possible(acts[..i][k]) {
      assert !acts[k].Close? && !acts[k].Destroy?;
    }
    RunOfWrites(s, seed, acts[..i]);
  }

  /** At the first `Close` a session is latched as failed exactly when a write before it answered less than it was given,
      or was given nothing and failed. */
  lemma LatchedAtClose(s: Session, seed: seq<Byte>, acts: seq<Act>, k: nat)
    requires Opened(s, seed) && Life(acts) && k <= FirstClose(acts)
    ensures Run(s, acts[..k]).0.writeFailed <==>
            exists i: nat | i < k && acts[i].Write? ::
              Answered(s, acts, i) < |acts[i].patch.data| || (acts[i].patch.data == [] && acts[i].outcome.Failed?)
  {
    LatchedExactly(s, acts[..k]);
    forall i: nat | i < k ensures FellShort(s, acts[..k], i) <==> FellShort(s, acts, i) {
      FellShortBefore(s, acts, k, i);
    }
    forall i: nat | i < k && acts[i].Write?
      ensures FellShort(s, acts, i) <==>
              Answered(s, acts, i) < |acts[i].patch.data| || (acts[i].patch.data == [] && acts[i].outcome.Failed?)
    {
      ShortBeforeClose(s, seed, acts, i);
    }
  }

  /** A write of nothing that fails answers as much as it was given, and still latches. */
  lemma EmptyWriteLatches(s: Session, seed: seq<Byte>, offset: nat)
    requires Opened(s, seed)
    ensures var acts := [Write(Patch(offset, []), Failed(seed))];
            Answered(s, acts, 0) == |acts[0].patch.data| && Run(s, acts).0.writeFailed
  {
    var acts := [Write(Patch(offset, []), Failed(seed))];
    assert acts[..0] == [];
  }

  /** The PUT of the first `Close`, if it makes one. */
  function ThePut(seed: seq<Byte>, precondition: Precondition, acts: seq<Act>): seq<Request>
    requires OnlyWrites(acts[..FirstClose(acts)])
  {
    var k := FirstClose(acts);
    if k < |acts| && Complete(acts[..k]) && acts[k].clean && acts[k].readBack
    then [Request(Overlaid(seed, Patches(acts[..k])), precondition)]
    else []
  }

  lemma {:induction false} RunAfterClose(s: Session, seed: seq<Byte>, acts: seq<Act>, n: nat)
    requires Opened(s, seed) && Life(acts) && FirstClose(acts) < n <= |acts| && OnlyWrites(acts[..FirstClose(acts)])
    ensures var (t, puts) := Run(s, acts[..n]);
            t.closed && t.directory == None && puts == ThePut(seed, s.precondition, acts)
    decreases n
  {
    var k := FirstClose(acts);
    assert acts[..n][..n - 1] == acts[..n - 1];
    if n == k + 1 {
      RunOfWrites(s, seed, acts[..k]);
    } else {
      RunAfterClose(s, seed, acts, n - 1);
    }
  }

  /** Over any life, a session makes one PUT at most: that of its first `Close`, when every write before it was
      complete and the local file could be closed and read back. Its bytes are the seed overlaid by these writes.
      Once it is closed or destroyed its staging directory is gone. */
  lemma SessionLife(s: Session, seed: seq<Byte>, acts: seq<Act>)
    requires Opened(s, seed) && Life(acts)
    ensures OnlyWrites(acts[..FirstClose(acts)]) || FirstClose(acts) == |acts|
    ensures FirstClose(acts) == |acts| ==> Run(s, acts).1 == []
    ensures FirstClose(acts) < |acts| ==> Run(s, acts).1 == ThePut(seed, s.precondition, acts)
    ensures FirstClose(acts) < |acts| || (acts != [] && acts[|acts| - 1].Destroy?) ==> Run(s, acts).0.directory == None
  {
    var k := FirstClose(acts);
    assert acts[..|acts|] == acts;
    if k < |acts| {
      forall i | 0 <= i < k ensures acts[i].Write? {
        assert !acts[i].Close? && !acts[i].Destroy?;
      }
      RunAfterClose(s, seed, acts, |acts|);
    } else if acts != [] && acts[|acts| - 1].Destroy? {
      var front := acts[..|acts| - 1];
      forall i | 0 <= i < |front| ensures front[i].Write? {
        assert !acts[i].Close? && !acts[i].Destroy?;
      }
      RunOfWrites(s, seed, front);
    } else {
      forall i | 0 <= i < |acts| ensures acts[i].Write? {
        assert !acts[i].Close? && !acts[i].Destroy?;
      }
      RunOfWrites(s, seed, acts);
    }
  }
}
