/** What the package parser accepts, and that an outer asset is never a package again. */
module IdentifierPackages {
  import opened Strings
  import opened Identifier

  predicate IsValid(p: Package, outer: string, inner: string) {
    p.isPackage && p.valid && p.outerAsset == outer && p.innerPath == inner
  }

  function Bracketed(outer: string, inner: string): string {
    outer + ("[" + (inner + "]"))
  }

  ghost predicate NoOpenFrom(x: string, start: nat) {
    forall k | start <= k < |x| :: x[k] != '['
  }

  lemma {:induction false} BalanceOfPart(x: string, a: nat, b: nat, k: nat)
    requires a <= b <= |x| && k <= b - a
    ensures Balance(x[a..b], k) == Balance(x, a + k) - Balance(x, a)
    decreases k
  {
    if k > 0 {
      BalanceOfPart(x, a, b, k - 1);
      assert x[a..b][k - 1] == x[a + k - 1];
    }
  }

  /** Before the matching bracket there is always one open. */
  lemma {:induction false} StaysOpen(x: string, open: nat, k: nat)
    requires open < k <= |x| && k <= CloseFrom(x, open, open) && x[open] == '['
    ensures Balance(x, k) > Balance(x, open)
    decreases k
  {
    if k > open + 1 {
      StaysOpen(x, open, k - 1);
    }
  }

  lemma MatchedMeansBalanced(x: string, open: nat)
    requires open < |x| && x[open] == '[' && CloseFrom(x, open, open) == |x| - 1
    ensures x[|x| - 1] == ']' && open + 1 < |x| && Balanced(x[open + 1..|x| - 1])
  {
    var inner := x[open + 1..|x| - 1];
    forall k | 0 <= k <= |inner| ensures Balance(inner, k) >= 0 {
      BalanceOfPart(x, open + 1, |x| - 1, k);
      StaysOpen(x, open, open + 1 + k);
    }
    BalanceOfPart(x, open + 1, |x| - 1, |inner|);
  }

  lemma BalancedMeansMatched(x: string, open: nat)
    requires open + 1 < |x| && x[open] == '[' && x[|x| - 1] == ']' && Balanced(x[open + 1..|x| - 1])
    ensures CloseFrom(x, open, open) == |x| - 1
  {
    var close := |x| - 1;
    forall j | open <= j < close && x[j] == ']' ensures Balance(x, j + 1) != Balance(x, open) {
      BalanceOfPart(x, open + 1, close, j - open);
      assert Balance(x[open + 1..close], j - open) >= 0;
    }
    BalanceOfPart(x, open + 1, close, close - open - 1);
    CloseIs(x, open, open, close);
  }

  lemma BracketedParts(x: string, outer: string, inner: string)
    ensures x == Bracketed(outer, inner) <==>
            && |x| == |outer| + |inner| + 2
            && x[|outer|] == '[' && x[|x| - 1] == ']'
            && x[..|outer|] == outer && x[|outer| + 1..|x| - 1] == inner
  {
    if |x| == |outer| + |inner| + 2 && x[|outer|] == '[' && x[|x| - 1] == ']' {
      var tail := x[|outer| + 1..|x| - 1] + "]";
      assert x == x[..|outer|] + ("[" + tail);
    }
  }

  lemma ValidMeans(x: string, start: nat, outer: string, inner: string)
    requires start <= |x| && IsValid(ParseFrom(x, start), outer, inner)
    ensures x == Bracketed(outer, inner) && outer != "" && inner != "" && Balanced(inner)
    ensures start <= |outer| && NoOpenFrom(outer, start)
  {
    var open := Scan(x, start, {'['});
    MatchedMeansBalanced(x, open);
    assert outer == x[..open] && inner == x[open + 1..|x| - 1];
    BracketedParts(x, outer, inner);
  }

  lemma MeansValid(x: string, start: nat, outer: string, inner: string)
    requires x == Bracketed(outer, inner) && outer != "" && inner != "" && Balanced(inner)
    requires start <= |outer| && NoOpenFrom(outer, start)
    ensures IsValid(ParseFrom(x, start), outer, inner)
  {
    BracketedParts(x, outer, inner);
    ScanIs(x, start, {'['}, |outer|);
    BalancedMeansMatched(x, |outer|);
  }

  /** A package is parsed into outer and inner exactly when it is these two put together, the inner path is
      balanced, and no bracket opens in the outer asset after its scheme and host. */
  lemma PackageExactly(x: string, outer: string, inner: string)
    ensures IsValid(ParsePackage(x), outer, inner) <==>
            && x == Bracketed(outer, inner) && outer != "" && inner != "" && Balanced(inner)
            && SearchStart(x) <= |outer| && NoOpenFrom(outer, SearchStart(x))
  {
    var start := SearchStart(x);
    if IsValid(ParsePackage(x), outer, inner) {
      ValidMeans(x, start, outer, inner);
    }
    if x == Bracketed(outer, inner) && outer != "" && inner != "" && Balanced(inner)
       && start <= |outer| && NoOpenFrom(outer, start) {
      MeansValid(x, start, outer, inner);
    }
  }

  lemma NoPackageExactly(x: string)
    ensures ParsePackage(x).isPackage <==> !NoOpenFrom(x, SearchStart(x))
  {
  }

  // ---------------------------------------------------------------------------
  // Where the search starts in text whose scheme ends at a known place.
  // ---------------------------------------------------------------------------

  /** No separator before the one that ends the scheme. */
  ghost predicate EndsFirst(scheme: string) {
    forall k | 0 <= k < |scheme| :: !At(scheme + Separator, k, Separator)
  }

  lemma FindsSeparator(scheme: string, rest: string)
    requires EndsFirst(scheme)
    ensures Find((scheme + Separator) + rest, Separator) == |scheme|
  {
    var head := scheme + Separator;
    var x := head + rest;
    assert x[|scheme|..|scheme| + 3] == Separator;
    forall k | 0 <= k < |scheme| ensures !At(x, k, Separator) {
      AtSeparator(x, k);
      AtSeparator(head, k);
      assert !At(head, k, Separator);
      assert x[k] == head[k] && x[k + 1] == head[k + 1] && x[k + 2] == head[k + 2];
    }
    FindIs(x, Separator, |scheme|);
  }

  lemma SeparatorFound(x: string)
    requires Find(x, Separator) < |x|
    ensures var p := Find(x, Separator); EndsFirst(x[..p]) && x == (x[..p] + Separator) + x[p + 3..]
  {
    var p := Find(x, Separator);
    FindFinds(x, Separator);
    assert x[p..p + 3] == Separator;
    var head := x[..p] + Separator;
    assert x == head + x[p + 3..];
    forall k | 0 <= k < p ensures !At(head, k, Separator) {
      AtSeparator(x, k);
      AtSeparator(head, k);
      assert !At(x, k, Separator);
      assert x[k] == head[k] && x[k + 1] == head[k + 1] && x[k + 2] == head[k + 2];
    }
  }

  /** The authority of what follows a scheme. */
  function Authority(rest: string): (r: string)
    ensures |r| <= |rest|
  {
    rest[..Scan(rest, 0, Delimiters)]
  }

  lemma AuthorityBehind(head: string, rest: string)
    requires |head| >= 3
    ensures AuthorityAt(head + rest, |head| - 3) == Authority(rest)
  {
    var x := head + rest;
    assert x[|head|..] == rest;
    ScanShift(x, |head|, Delimiters);
    var e := Scan(rest, 0, Delimiters);
    assert x[|head|..|head| + e] == rest[..e];
  }

  lemma SearchStartOf(scheme: string, rest: string)
    requires EndsFirst(scheme)
    ensures SearchStart((scheme + Separator) + rest) == |scheme| + 3 + HostSkip(Authority(rest))
  {
    FindsSeparator(scheme, rest);
    AuthorityBehind(scheme + Separator, rest);
  }

  lemma ScanAppend(a: string, b: string, stop: set<char>)
    requires forall k | 0 <= k < |a| :: a[k] !in stop
    ensures Scan(a + b, 0, stop) == |a| + Scan(b, 0, stop)
  {
    var e := Scan(b, 0, stop);
    forall k | 0 <= k < |a| + e ensures (a + b)[k] !in stop {
      if k >= |a| {
        assert (a + b)[k] == b[k - |a|];
      }
    }
    ScanIs(a + b, 0, stop, |a| + e);
  }

  // ---------------------------------------------------------------------------
  // Outer assets.
  // ---------------------------------------------------------------------------

  lemma {:induction false} LastIs(s: string, end: nat, c: char, r: nat)
    requires r <= end <= |s| && (r > 0 ==> s[r - 1] == c)
    requires forall k | r <= k < end :: s[k] != c
    ensures LastBefore(s, end, c) == r
  {
    if end > r {
      LastIs(s, end - 1, c, r);
    }
  }

  lemma HostSkipPrefix(r: string, s: string)
    requires 0 < HostSkip(r + s) <= |r|
    ensures HostSkip(r) == HostSkip(r + s)
  {
    var a := r + s;
    var h := AfterLast(a, '@');
    var close := Scan(a, h + 1, {']'});
    assert forall k | 0 <= k < |r| :: a[k] == r[k];
    LastIs(r, |r|, '@', h);
    ScanIs(r, h + 1, {']'}, close);
  }

  lemma AuthorityPrefix(r: string, rest: string)
    requires HostSkip(Authority(r + rest)) <= |r|
    ensures HostSkip(Authority(r + rest)) == 0 || HostSkip(Authority(r)) == HostSkip(Authority(r + rest))
  {
    var e := Scan(r, 0, Delimiters);
    if e < |r| {
      ScanIs(r + rest, 0, Delimiters, e);
      assert (r + rest)[..e] == r[..e];
    } else {
      ScanAppend(r, rest, Delimiters);
      assert (r + rest)[..|r| + |Authority(rest)|] == r + Authority(rest);
      assert r[..e] == r;
      if HostSkip(r + Authority(rest)) > 0 {
        HostSkipPrefix(r, Authority(rest));
      }
    }
  }

  lemma OuterUrl(scheme: string, r: string, rest: string)
    requires EndsFirst(scheme)
    requires var start := SearchStart((scheme + Separator) + (r + rest));
             start <= |scheme| + 3 + |r| && NoOpenFrom((scheme + Separator) + r, start)
    ensures NoOpenFrom((scheme + Separator) + r, SearchStart((scheme + Separator) + r))
  {
    SearchStartOf(scheme, r + rest);
    SearchStartOf(scheme, r);
    AuthorityPrefix(r, rest);
  }

  lemma PrefixParts(outer: string, bracket: string, p: nat)
    requires p + 3 <= |outer|
    ensures var x := outer + bracket; var r := outer[p + 3..];
            x == (x[..p] + Separator) + x[p + 3..] ==>
              outer == (x[..p] + Separator) + r && x == (x[..p] + Separator) + (r + bracket)
  {
    var x := outer + bracket;
    var head, r := x[..p] + Separator, outer[p + 3..];
    if x == head + x[p + 3..] {
      assert x[..p + 3] == head;
      assert outer[..p + 3] == x[..p + 3];
      assert outer == outer[..p + 3] + r;
      assert x[p + 3..] == r + bracket;
    }
  }

  /** The search starts in a prefix that goes beyond where it starts. */
  lemma PrefixStart(outer: string, bracket: string)
    requires SearchStart(outer + bracket) <= |outer| && NoOpenFrom(outer, SearchStart(outer + bracket))
    ensures NoOpenFrom(outer, SearchStart(outer))
  {
    var x := outer + bracket;
    var p := Find(x, Separator);
    if p < |x| {
      SeparatorFound(x);
      PrefixParts(outer, bracket, p);
      OuterUrl(x[..p], outer[p + 3..], bracket);
    } else {
      FindFinds(x, Separator);
      FindFinds(outer, Separator);
      if Occurs(outer, Separator) {
        OccursLeft(outer, bracket, Separator);
      }
    }
  }

  /** The outer asset of a package is not itself a package. */
  lemma OuterNeverPackage(x: string, outer: string, inner: string)
    requires IsValid(ParsePackage(x), outer, inner)
    ensures !ParsePackage(outer).isPackage
  {
    PackageExactly(x, outer, inner);
    PrefixStart(outer, "[" + (inner + "]"));
    NoPackageExactly(outer);
  }

  // ---------------------------------------------------------------------------
  // Format arguments.
  // ---------------------------------------------------------------------------

  /** What precedes the format arguments holds no marker. */
  lemma SplitArgsFree(x: string)
    ensures var a := SplitArgs(x);
            && x == a.assetPath + a.suffix && !Occurs(a.assetPath, Marker)
            && (a.hasArgs <==> Occurs(x, Marker)) && (a.hasArgs ==> At(a.suffix, 0, Marker))
            && (!a.hasArgs ==> a.suffix == "")
  {
    var p := Find(x, Marker);
    FindFinds(x, Marker);
    if p < |x| {
      assert x == x[..p] + x[p..];
      assert x[p..][0..|Marker|] == x[p..p + |Marker|];
      if Occurs(x[..p], Marker) {
        var i :| 0 <= i <= p && At(x[..p], i, Marker);
        assert x[i..i + |Marker|] == x[..p][i..i + |Marker|];
        assert At(x, i, Marker);
      }
    }
  }

  lemma OuterIsFree(x: string, outer: string, inner: string)
    requires IsValid(ParsePackage(x), outer, inner) && !Occurs(x, Marker)
    ensures !Occurs(outer, Marker)
  {
    PackageExactly(x, outer, inner);
    if Occurs(outer, Marker) {
      OccursLeft(outer, "[" + (inner + "]"), Marker);
    }
  }

  lemma ProviderOfFree(x: string)
    requires !Occurs(x, Marker)
    ensures StorageProviderIdentifier(x) == (if ParsePackage(x).isPackage && ParsePackage(x).valid then ParsePackage(x).outerAsset else x)
  {
    FindNone(x, Marker);
  }

  /** The provider identifier of a provider identifier is itself. */
  lemma ProviderIdentifierTwice(x: string)
    ensures StorageProviderIdentifier(StorageProviderIdentifier(x)) == StorageProviderIdentifier(x)
  {
    var asset := SplitArgs(x).assetPath;
    SplitArgsFree(x);
    var package := ParsePackage(asset);
    if package.isPackage && package.valid {
      OuterNeverPackage(asset, package.outerAsset, package.innerPath);
      OuterIsFree(asset, package.outerAsset, package.innerPath);
      ProviderOfFree(package.outerAsset);
    } else {
      ProviderOfFree(asset);
    }
  }
}
