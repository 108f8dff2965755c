/** Which entry a write through an identifier invalidates: the one under its write target, which is the one that a
    probe of the same identifier uses unless its path resolves to one that ends in the half marker. */
module WriteInvalidation {
  import opened Basics
  import opened Strings
  import opened Identifier
  import opened IdentifierPackages
  import opened IdentifierUrls
  import opened IdentifierLaws
  import opened IdentifierArgs
  import opened ExistenceCache
  import ExistenceProtocol
  import ExistenceLaws

  /** Every probe in flight is registered under its own key. */
  ghost predicate FlightsAreKeyed(s: State) {
    forall k | k in s.inFlight :: s.inFlight[k] < |s.probes| && s.probes[s.inFlight[k]].key == k
  }

  lemma RunsAreKeyed(options: Options, run: seq<ExistenceProtocol.World>, steps: seq<ExistenceProtocol.Step>, n: nat)
    requires ExistenceLaws.IsRun(options, run, steps) && options.maxEntries >= 1 && n < |run|
    ensures FlightsAreKeyed(run[n].s)
  {
    ExistenceLaws.RunKeepsInv(options, run, steps, n);
    forall k | k in run[n].s.inFlight ensures run[n].s.inFlight[k] < |run[n].s.probes| && run[n].s.probes[run[n].s.inFlight[k]].key == k {
      assert ExistenceProtocol.FlightInv(run[n], k);
    }
  }

  /** The section of a write to an identifier erases the entry that a probe of that identifier uses, whatever the
      cache holds, if and only if it is not the case that the identifier has format arguments and its path resolves to
      one ending in the half marker. */
  lemma WriteErasesExactly(schemes: set<string>, x: string, t: string, s: State)
    requires StorageWriteTarget(schemes, x) == Some(t) && FlightsAreKeyed(s)
    requires ExistenceKey(schemes, x) in s.cache
    ensures ExistenceKey(schemes, x) !in Invalidate(s, t).cache <==>
            !(SplitArgs(x).hasArgs && Exposes(schemes, SplitArgs(x).assetPath))
  {
    KeyIsTargetExactly(schemes, x, t);
  }

  /** It marks the probe in flight for that identifier exactly then. */
  lemma WriteMarksExactly(schemes: set<string>, x: string, t: string, s: State)
    requires StorageWriteTarget(schemes, x) == Some(t) && FlightsAreKeyed(s)
    requires ExistenceKey(schemes, x) in s.inFlight && !s.probes[s.inFlight[ExistenceKey(schemes, x)]].invalidated
    ensures Invalidate(s, t).probes[s.inFlight[ExistenceKey(schemes, x)]].invalidated <==>
            !(SplitArgs(x).hasArgs && Exposes(schemes, SplitArgs(x).assetPath))
  {
    KeyIsTargetExactly(schemes, x, t);
  }

  lemma SlippingTarget(schemes: set<string>, u: Url)
    requires IsSlippingUrl(u) && "s3" in schemes
    ensures var x := Compose(u) + Marker;
            && SplitArgs(x) == Args(Compose(u), Marker, true)
            && StorageWriteTarget(schemes, x) == Some(NormalIdentifier(schemes, Compose(u)))
  {
    SlippingFree(u);
    NoBracketNoPackage(u);
    SplitAt(Compose(u));
  }

  lemma SplitAt(asset: string)
    requires !Occurs(asset, Marker) && !EndsWith(asset, Half)
    ensures SplitArgs(asset + Marker) == Args(asset, Marker, true)
  {
    assert Marker[0..17] == Marker;
    NormalSplit(asset, Marker);
  }

  /** Where the remote schemes include "s3", a probe of `s3://h/..:SDF_FORMAT_ARGS/.:SDF_FORMAT_ARGS:` and a write to
      it use two keys. */
  lemma KeyIsTargetFails(schemes: set<string>, u: Url) returns (t: string)
    requires IsSlippingUrl(u) && "s3" in schemes
    ensures var x := Compose(u) + Marker; StorageWriteTarget(schemes, x) == Some(t) && ExistenceKey(schemes, x) != t
  {
    var x := Compose(u) + Marker;
    SlippingTarget(schemes, u);
    SlippingSlips(schemes, u);
    t := NormalIdentifier(schemes, Compose(u));
    KeyIsTargetExactly(schemes, x, t);
  }

  /** So a write to it leaves the entry that a probe of it uses in place, whatever the cache holds. */
  lemma WriteLeavesEntry(schemes: set<string>, u: Url, s: State) returns (t: string)
    requires IsSlippingUrl(u) && "s3" in schemes && FlightsAreKeyed(s)
    requires ExistenceKey(schemes, Compose(u) + Marker) in s.cache
    ensures var x := Compose(u) + Marker;
            && StorageWriteTarget(schemes, x) == Some(t)
            && ExistenceKey(schemes, x) in Invalidate(s, t).cache
            && Invalidate(s, t).cache[ExistenceKey(schemes, x)] == s.cache[ExistenceKey(schemes, x)]
  {
    t := KeyIsTargetFails(schemes, u);
  }
}
