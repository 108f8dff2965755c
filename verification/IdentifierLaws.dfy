/** Normal forms of identifiers: what normalizing keeps, and that it is done after one pass. */
module IdentifierLaws {
  import opened Basics
  import opened Strings
  import opened DotSegments
  import opened Identifier
  import opened IdentifierPackages
  import opened IdentifierUrls

  // ---------------------------------------------------------------------------
  // What normalizing a URL keeps.
  // ---------------------------------------------------------------------------

  /** The authority up to and including its first '@', or nothing. */
  function UserInfo(authority: string): string {
    var at := Scan(authority, 0, {'@'});
    if at < |authority| then authority[..at + 1] else ""
  }

  lemma FoldHostKeepsUser(authority: string)
    ensures UserInfo(FoldHost(authority)) == UserInfo(authority)
    ensures Lower(FoldHost(authority)) == Lower(authority)
  {
    ScanIs(FoldHost(authority), 0, {'@'}, Scan(authority, 0, {'@'}));
  }

  /** A normalized URL has the same scheme and authority but for case, the same userinfo, query and fragment, and a
      path that leads to the same place. */
  lemma NormalRemoteKeeps(x: string)
    requires Find(x, Separator) < |x|
    ensures Find(NormalRemote(x), Separator) < |NormalRemote(x)|
    ensures var u, v := Split(x), Split(NormalRemote(x));
            && Lower(v.scheme) == Lower(u.scheme) && Lower(v.authority) == Lower(u.authority)
            && UserInfo(v.authority) == UserInfo(u.authority)
            && Components(v.path) == Components(u.path)
            && (Components(u.path) != [] ==> TrailingSlash(v.path) == TrailingSlash(u.path))
            && v.tail == u.tail
  {
    var u := Split(x);
    SplitParts(x);
    NormalUrlWellFormed(u);
    ComposeParts(NormalUrl(u));
    LowerTwice(u.scheme);
    FoldHostKeepsUser(u.authority);
    NormalizedKeepsMeaning(u.path);
  }

  /** Normalizing a URL twice is normalizing it once. */
  lemma NormalRemoteTwice(x: string)
    ensures NormalRemote(NormalRemote(x)) == NormalRemote(x)
  {
    if Find(x, Separator) < |x| {
      var u := Split(x);
      SplitParts(x);
      NormalUrlWellFormed(u);
      ComposeParts(NormalUrl(u));
      NormalUrlTwice(u);
    }
  }

  // ---------------------------------------------------------------------------
  // Normalizing neither makes nor breaks a package.
  // ---------------------------------------------------------------------------

  ghost predicate SameBrackets(a: string, b: string) {
    && |a| == |b|
    && forall k | 0 <= k < |a| :: (a[k] == '@' <==> b[k] == '@') && (a[k] == '[' <==> b[k] == '[') && (a[k] == ']' <==> b[k] == ']')
  }

  lemma HostSkipSame(a: string, b: string)
    requires SameBrackets(a, b)
    ensures HostSkip(a) == HostSkip(b)
  {
    var h := AfterLast(a, '@');
    LastIs(b, |b|, '@', h);
    if h < |a| && a[h] == '[' {
      ScanIs(b, h + 1, {']'}, Scan(a, h + 1, {']'}));
    }
  }

  lemma SameBracketsAppend(a: string, b: string, more: string)
    requires SameBrackets(a, b)
    ensures SameBrackets(a + more, b + more)
  {
  }

  lemma FoldHostBrackets(authority: string)
    ensures SameBrackets(authority, FoldHost(authority))
  {
  }

  /** The authority of a URL with something appended. */
  lemma AuthorityOf(u: Url, z: string)
    requires WellFormed(u)
    ensures Authority(u.authority + ((u.path + u.tail) + z)) ==
            u.authority + (if u.path + u.tail == "" then Authority(z) else "")
  {
    var more := (u.path + u.tail) + z;
    ScanAppend(u.authority, more, Delimiters);
    var e := Scan(more, 0, Delimiters);
    assert (u.authority + more)[..|u.authority| + e] == u.authority + more[..e];
    if u.path + u.tail == "" {
      assert more == z;
    } else {
      assert (u.path + u.tail)[0] in Delimiters;
      assert more[0] in Delimiters;
      ScanStops(more, Delimiters);
    }
  }

  lemma StartOf(u: Url, z: string)
    requires WellFormed(u)
    ensures SearchStart(Compose(u) + z) ==
            |u.scheme| + 3 + HostSkip(u.authority + (if u.path + u.tail == "" then Authority(z) else ""))
  {
    var head, more := u.scheme + Separator, u.path + u.tail;
    Concatenated(head, u.authority, more, z);
    assert (head + u.authority) + more == Compose(u);
    SearchStartOf(u.scheme, u.authority + (more + z));
    AuthorityOf(u, z);
  }

  /** The search for a package starts at the same place in a normalized URL. */
  lemma StartKept(u: Url, z: string)
    requires WellFormed(u)
    ensures SearchStart(Compose(NormalUrl(u)) + z) == SearchStart(Compose(u) + z)
  {
    var v := NormalUrl(u);
    NormalUrlWellFormed(u);
    NormalPath(u.path);
    StartOf(u, z);
    StartOf(v, z);
    FoldHostBrackets(u.authority);
    var more := if u.path + u.tail == "" then Authority(z) else "";
    assert v.path + v.tail == "" <==> u.path + u.tail == "";
    SameBracketsAppend(u.authority, v.authority, more);
    HostSkipSame(u.authority + more, v.authority + more);
  }

  /** No bracket opens in the parts of a URL from position `skip` of the authority on. */
  ghost predicate OpenFree(u: Url, skip: nat) {
    (forall k | skip <= k < |u.authority| :: u.authority[k] != '[') && Free(u.path, {'['}) && Free(u.tail, {'['})
  }

  lemma ComposeAt(u: Url, k: nat)
    requires k < |Rest(u)|
    ensures Compose(u)[|u.scheme| + 3 + k] == Rest(u)[k]
    ensures k < |u.authority| ==> Rest(u)[k] == u.authority[k]
    ensures |u.authority| <= k < |u.authority| + |u.path| ==> Rest(u)[k] == u.path[k - |u.authority|]
    ensures |u.authority| + |u.path| <= k ==> Rest(u)[k] == u.tail[k - |u.authority| - |u.path|]
  {
    assert k >= |u.authority| ==> Rest(u)[k] == (u.path + u.tail)[k - |u.authority|];
  }

  lemma OpenFreeMeans(u: Url, skip: nat)
    requires skip <= |u.authority| && NoOpenFrom(Compose(u), |u.scheme| + 3 + skip)
    ensures OpenFree(u, skip)
  {
    forall k | skip <= k < |u.authority| ensures u.authority[k] != '[' {
      ComposeAt(u, k);
    }
    forall k | 0 <= k < |u.path| ensures u.path[k] != '[' {
      ComposeAt(u, |u.authority| + k);
    }
    forall k | 0 <= k < |u.tail| ensures u.tail[k] != '[' {
      ComposeAt(u, |u.authority| + |u.path| + k);
    }
  }

  lemma MeansOpenFree(u: Url, skip: nat)
    requires skip <= |u.authority| && OpenFree(u, skip)
    ensures NoOpenFrom(Compose(u), |u.scheme| + 3 + skip)
  {
    forall k | |u.scheme| + 3 + skip <= k < |Compose(u)| ensures Compose(u)[k] != '[' {
      ComposeAt(u, k - |u.scheme| - 3);
    }
  }

  /** No bracket opens in a normalized URL if none does in the URL. */
  lemma NoOpenKept(u: Url, skip: nat)
    requires WellFormed(u) && skip <= |u.authority| && NoOpenFrom(Compose(u), |u.scheme| + 3 + skip)
    ensures NoOpenFrom(Compose(NormalUrl(u)), |u.scheme| + 3 + skip)
  {
    OpenFreeMeans(u, skip);
    NormalizedFree(u.path, {'['});
    FoldHostBrackets(u.authority);
    MeansOpenFree(NormalUrl(u), skip);
  }

  lemma StartBeforePath(u: Url, z: string)
    requires WellFormed(u) && SearchStart(Compose(u) + z) <= |Compose(u)|
    ensures |u.scheme| + 3 <= SearchStart(Compose(u) + z) <= |u.scheme| + 3 + |u.authority|
  {
    StartOf(u, z);
  }

  /** The normal form of a URL that is no package is no package. */
  lemma NormalUrlNoPackage(u: Url)
    requires WellFormed(u) && !ParsePackage(Compose(u)).isPackage
    ensures !ParsePackage(Compose(NormalUrl(u))).isPackage
  {
    assert Compose(u) + "" == Compose(u) && Compose(NormalUrl(u)) + "" == Compose(NormalUrl(u));
    NoPackageExactly(Compose(u));
    NoPackageExactly(Compose(NormalUrl(u)));
    StartKept(u, "");
    StartBeforePath(u, "");
    NoOpenKept(u, SearchStart(Compose(u)) - |u.scheme| - 3);
  }

  /** A package over a normalized URL is a package over it. */
  lemma NormalUrlPackage(u: Url, inner: string)
    requires WellFormed(u) && IsValid(ParsePackage(Bracketed(Compose(u), inner)), Compose(u), inner)
    ensures IsValid(ParsePackage(Bracketed(Compose(NormalUrl(u)), inner)), Compose(NormalUrl(u)), inner)
  {
    var z, v := "[" + (inner + "]"), NormalUrl(u);
    PackageExactly(Compose(u) + z, Compose(u), inner);
    StartKept(u, z);
    StartBeforePath(u, z);
    NoOpenKept(u, SearchStart(Compose(u) + z) - |u.scheme| - 3);
    NormalUrlWellFormed(u);
    assert |Compose(v)| >= |u.scheme| + 3 + |u.authority|;
    PackageExactly(Compose(v) + z, Compose(v), inner);
  }

  // ---------------------------------------------------------------------------
  // One pass is enough.
  // ---------------------------------------------------------------------------

  /** Whether normalizing changes anything but the outer asset of a package. */
  predicate IsRemoteUrl(schemes: set<string>, x: string) {
    IsRemote(schemes, x) && Find(x, Separator) < |x|
  }

  lemma NormalPlain(schemes: set<string>, x: string)
    requires !ParsePackage(x).isPackage
    ensures NormalAsset(schemes, x) == if IsRemoteUrl(schemes, x) then Compose(NormalUrl(Split(x))) else x
  {
  }

  lemma NormalPlainTwice(schemes: set<string>, x: string)
    requires !ParsePackage(x).isPackage
    ensures !ParsePackage(NormalAsset(schemes, x)).isPackage
    ensures NormalAsset(schemes, NormalAsset(schemes, x)) == NormalAsset(schemes, x)
  {
    NormalPlain(schemes, x);
    if IsRemoteUrl(schemes, x) {
      var u := Split(x);
      SplitParts(x);
      NormalUrlWellFormed(u);
      ComposeParts(NormalUrl(u));
      NormalUrlTwice(u);
      NormalUrlNoPackage(u);
      NormalIsRemote(schemes, u);
      NormalPlain(schemes, Compose(NormalUrl(u)));
    }
  }

  /** Normalizing a package normalizes its outer asset and leaves a package with the same inner path. */
  lemma NormalPackage(schemes: set<string>, x: string, outer: string, inner: string)
    requires IsValid(ParsePackage(x), outer, inner)
    ensures NormalAsset(schemes, x) == Bracketed(NormalAsset(schemes, outer), inner)
    ensures IsValid(ParsePackage(NormalAsset(schemes, x)), NormalAsset(schemes, outer), inner)
  {
    PackageExactly(x, outer, inner);
    OuterNeverPackage(x, outer, inner);
    NormalPlain(schemes, outer);
    if IsRemoteUrl(schemes, outer) {
      SplitParts(outer);
      NormalUrlPackage(Split(outer), inner);
    }
  }

  /** Normalizing an asset twice is normalizing it once, whether it is a package, a malformed one or none. */
  lemma NormalAssetTwice(schemes: set<string>, x: string)
    ensures NormalAsset(schemes, NormalAsset(schemes, x)) == NormalAsset(schemes, x)
  {
    var package := ParsePackage(x);
    if !package.isPackage {
      NormalPlainTwice(schemes, x);
    } else if package.valid {
      var outer, inner := package.outerAsset, package.innerPath;
      NormalPackage(schemes, x, outer, inner);
      OuterNeverPackage(x, outer, inner);
      NormalPlainTwice(schemes, outer);
    }
  }

  // ---------------------------------------------------------------------------
  // Normalizing makes no format arguments.
  // ---------------------------------------------------------------------------

  lemma LowerHasNoMarker(s: string)
    ensures !Occurs(Lower(s), Marker)
  {
    assert Marker[1] == 'S';
    NoCapitals(Lower(s), Marker, 1);
  }

  lemma FoldHostFree(authority: string)
    requires !Occurs(authority, Marker)
    ensures !Occurs(FoldHost(authority), Marker)
  {
    var at := Scan(authority, 0, {'@'});
    if at < |authority| {
      var user, host := authority[..at], Lower(authority[at + 1..]);
      LowerHasNoMarker(authority[at + 1..]);
      assert FoldHost(authority) == user + (['@'] + host);
      assert user + authority[at..] == authority;
      if Occurs(user, Marker) {
        OccursLeft(user, authority[at..], Marker);
      }
      FreeBehind('@', host, Marker);
      FreeBeside(user, ['@'] + host, Marker);
    } else {
      assert FoldHost(authority) == Lower(authority);
      LowerHasNoMarker(authority);
    }
  }

  lemma RestFree(u: Url)
    requires WellFormed(u) && !Occurs(Rest(u), Marker)
    ensures !Occurs(u.authority, Marker) && !Occurs(u.path, Marker) && !Occurs(u.tail, Marker)
  {
    if Occurs(u.authority, Marker) {
      OccursLeft(u.authority, u.path + u.tail, Marker);
    }
    if Occurs(u.path, Marker) {
      OccursLeft(u.path, u.tail, Marker);
      OccursRight(u.authority, u.path + u.tail, Marker);
    }
    if Occurs(u.tail, Marker) {
      OccursRight(u.path, u.tail, Marker);
      OccursRight(u.authority, u.path + u.tail, Marker);
    }
  }

  lemma FreeRest(u: Url)
    requires WellFormed(u) && !Occurs(u.authority, Marker) && !Occurs(u.path, Marker) && !Occurs(u.tail, Marker)
    ensures !Occurs(Rest(u), Marker)
  {
    FreeBeside(u.path, u.tail, Marker);
    FreeBeside(u.authority, u.path + u.tail, Marker);
  }

  lemma ComposeFree(scheme: string, rest: string)
    requires !Occurs(rest, Marker)
    ensures !Occurs((Lower(scheme) + Separator) + rest, Marker)
  {
    var s := Lower(scheme) + Separator;
    assert Marker[1] == 'S';
    NoCapitals(s, Marker, 1);
    var t := Lower(scheme) + ":/";
    assert s + rest == t + (['/'] + rest);
    NoCapitals(t, Marker, 1);
    FreeBehind('/', rest, Marker);
    FreeBeside(t, ['/'] + rest, Marker);
  }

  lemma NormalUrlFree(u: Url)
    requires WellFormed(u) && !Occurs(Compose(u), Marker)
    ensures !Occurs(Compose(NormalUrl(u)), Marker)
  {
    if Occurs(Rest(u), Marker) {
      OccursRight(u.scheme + Separator, Rest(u), Marker);
    }
    RestFree(u);
    FoldHostFree(u.authority);
    if Occurs(Normalized(u.path), Marker) {
      NormalizedOccurs(u.path, Marker);
    }
    NormalUrlWellFormed(u);
    FreeRest(NormalUrl(u));
    ComposeFree(u.scheme, Rest(NormalUrl(u)));
  }

  lemma BracketedOccurs(outer: string, inner: string)
    requires Occurs(outer, Marker) || Occurs(inner, Marker)
    ensures Occurs(Bracketed(outer, inner), Marker)
  {
    var more := inner + "]";
    if Occurs(outer, Marker) {
      OccursLeft(outer, "[" + more, Marker);
    } else {
      OccursLeft(inner, "]", Marker);
      OccursRight("[", more, Marker);
      OccursRight(outer, "[" + more, Marker);
    }
  }

  lemma BracketedFree(outer: string, inner: string)
    requires !Occurs(outer, Marker) && !Occurs(inner, Marker)
    ensures !Occurs(Bracketed(outer, inner), Marker)
  {
    FreeBehind(']', "", Marker);
    assert [']'] + "" == "]";
    FreeBeside(inner, "]", Marker);
    FreeBehind('[', inner + "]", Marker);
    FreeBeside(outer, "[" + (inner + "]"), Marker);
  }

  /** An asset without the marker has none when normalized. */
  lemma NormalAssetFree(schemes: set<string>, x: string)
    requires !Occurs(x, Marker)
    ensures !Occurs(NormalAsset(schemes, x), Marker)
  {
    var package := ParsePackage(x);
    if !package.isPackage {
      NormalPlainFree(schemes, x);
    } else if package.valid {
      var outer, inner := package.outerAsset, package.innerPath;
      NormalPackage(schemes, x, outer, inner);
      PackageExactly(x, outer, inner);
      if Occurs(outer, Marker) || Occurs(inner, Marker) {
        BracketedOccurs(outer, inner);
      }
      OuterNeverPackage(x, outer, inner);
      NormalPlainFree(schemes, outer);
      BracketedFree(NormalAsset(schemes, outer), inner);
    }
  }

  lemma NormalPlainFree(schemes: set<string>, x: string)
    requires !ParsePackage(x).isPackage && !Occurs(x, Marker)
    ensures !Occurs(NormalAsset(schemes, x), Marker)
  {
    NormalPlain(schemes, x);
    if IsRemoteUrl(schemes, x) {
      SplitParts(x);
      NormalUrlFree(Split(x));
    }
  }

  lemma NormalOfFree(schemes: set<string>, x: string)
    requires !Occurs(x, Marker)
    ensures NormalIdentifier(schemes, x) == NormalAsset(schemes, x)
  {
    FindNone(x, Marker);
    assert NormalAsset(schemes, x) + "" == NormalAsset(schemes, x);
  }

  /** Normalizing an identifier without format arguments twice is normalizing it once. */
  lemma NormalizeTwice(schemes: set<string>, x: string)
    requires !Occurs(x, Marker)
    ensures NormalIdentifier(schemes, NormalIdentifier(schemes, x)) == NormalIdentifier(schemes, x)
  {
    NormalOfFree(schemes, x);
    NormalAssetFree(schemes, x);
    NormalOfFree(schemes, NormalAsset(schemes, x));
    NormalAssetTwice(schemes, x);
  }

  // ---------------------------------------------------------------------------
  // Write targets.
  // ---------------------------------------------------------------------------

  /** The key under which the runtime caches whether an identifier exists. */
  function ExistenceKey(schemes: set<string>, x: string): string {
    StorageProviderIdentifier(NormalIdentifier(schemes, x))
  }

  /** A write target is its own write target, and the key of its cache entry. */
  lemma WriteTargetIsFixed(schemes: set<string>, x: string, t: string)
    requires StorageWriteTarget(schemes, x) == Some(t)
    ensures StorageWriteTarget(schemes, t) == Some(t)
    ensures NormalIdentifier(schemes, t) == t
    ensures ExistenceKey(schemes, t) == t
  {
    var asset := SplitArgs(x).assetPath;
    SplitArgsFree(x);
    NormalOfFree(schemes, asset);
    NormalAssetFree(schemes, asset);
    NormalPlainTwice(schemes, asset);
    NormalOfFree(schemes, t);
    ProviderOfFree(t);
    FindNone(t, Marker);
  }
}
