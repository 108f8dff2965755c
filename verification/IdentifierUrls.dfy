/** URLs in four parts, and what normalizing does to each of them. */
module IdentifierUrls {
  import opened Strings
  import opened DotSegments
  import opened Identifier
  import opened IdentifierPackages

  ghost predicate Free(s: string, stop: set<char>) {
    forall k | 0 <= k < |s| :: s[k] !in stop
  }

  ghost predicate WellFormedRest(authority: string, path: string, tail: string) {
    && Free(authority, Delimiters) && Free(path, {'?', '#'})
    && (path == "" || path[0] == '/')
    && (tail == "" || tail[0] in {'?', '#'})
  }

  ghost predicate WellFormed(u: Url) {
    EndsFirst(u.scheme) && WellFormedRest(u.authority, u.path, u.tail)
  }

  function Rest(u: Url): string {
    u.authority + (u.path + u.tail)
  }

  lemma ScanSplits(s: string, stop: set<char>, e: nat)
    requires e == Scan(s, 0, stop)
    ensures s == s[..e] + s[e..] && Free(s[..e], stop) && (s[e..] != "" ==> s[e..][0] in stop)
  {
    assert s[e..] != "" ==> s[e..][0] == s[e];
  }

  lemma SplitRestParts(scheme: string, rest: string)
    ensures var u := SplitRest(scheme, rest); WellFormedRest(u.authority, u.path, u.tail) && Rest(u) == rest
  {
    var e := Scan(rest, 0, Delimiters);
    var remainder := rest[e..];
    var q := Scan(remainder, 0, {'?', '#'});
    ScanSplits(rest, Delimiters, e);
    ScanSplits(remainder, {'?', '#'}, q);
    var u := SplitRest(scheme, rest);
    assert u.authority == rest[..e] && u.path == remainder[..q] && u.tail == remainder[q..];
    FirstOfPath(remainder, q);
  }

  /** What stands before a query or fragment in text that starts with a delimiter is empty or starts with a slash. */
  lemma FirstOfPath(remainder: string, q: nat)
    requires remainder != "" ==> remainder[0] in Delimiters
    requires q == Scan(remainder, 0, {'?', '#'})
    ensures remainder[..q] == "" || remainder[..q][0] == '/'
  {
  }

  lemma ScanStops(s: string, stop: set<char>)
    requires s == "" || s[0] in stop
    ensures Scan(s, 0, stop) == 0
  {
  }

  lemma RestParts(u: Url)
    requires WellFormedRest(u.authority, u.path, u.tail)
    ensures SplitRest(u.scheme, Rest(u)) == u
  {
    var more := u.path + u.tail;
    ScanAppend(u.path, u.tail, {'?', '#'});
    ScanStops(u.tail, {'?', '#'});
    ScanStops(more, Delimiters);
    ScanAppend(u.authority, more, Delimiters);
    var rest, e, q := Rest(u), |u.authority|, |u.path|;
    assert rest[e..] == more && rest[..e] == u.authority;
    assert more[..q] == u.path && more[q..] == u.tail;
  }

  /** Taking a URL apart loses nothing. */
  lemma SplitParts(x: string)
    requires Find(x, Separator) < |x|
    ensures WellFormed(Split(x)) && Compose(Split(x)) == x
  {
    var p := Find(x, Separator);
    SeparatorFound(x);
    SplitRestParts(x[..p], x[p + 3..]);
  }

  /** Putting a URL together and taking it apart gives the same four parts. */
  lemma ComposeParts(u: Url)
    requires WellFormed(u)
    ensures Find(Compose(u), Separator) == |u.scheme| < |Compose(u)| && Split(Compose(u)) == u
  {
    FindsSeparator(u.scheme, Rest(u));
    var x := Compose(u);
    assert x[..|u.scheme|] == u.scheme && x[|u.scheme| + 3..] == Rest(u);
    RestParts(u);
  }

  // ---------------------------------------------------------------------------
  // Normal URLs.
  // ---------------------------------------------------------------------------

  lemma FoldHostTwice(authority: string)
    ensures FoldHost(FoldHost(authority)) == FoldHost(authority)
  {
    ScanIs(FoldHost(authority), 0, {'@'}, Scan(authority, 0, {'@'}));
  }

  lemma EndsFirstLower(scheme: string)
    requires EndsFirst(scheme)
    ensures EndsFirst(Lower(scheme))
  {
    forall k | 0 <= k < |scheme| ensures !At(Lower(scheme) + Separator, k, Separator) {
      AtSeparator(scheme + Separator, k);
      AtSeparator(Lower(scheme) + Separator, k);
      assert !At(scheme + Separator, k, Separator);
    }
  }

  lemma NormalizedChar(path: string, c: char)
    requires c in Normalized(path) && c != '/'
    ensures c in path
  {
    var i :| 0 <= i < |Normalized(path)| && Normalized(path)[i] == c;
    assert Normalized(path)[i..i + 1] == [c];
    OccursAt(Normalized(path), i, [c]);
    NormalizedOccurs(path, [c]);
    var j :| 0 <= j <= |path| && At(path, j, [c]);
    assert path[j..j + 1][0] == path[j];
  }

  lemma NormalizedFree(path: string, stop: set<char>)
    requires Free(path, stop) && '/' !in stop
    ensures Free(Normalized(path), stop)
  {
    forall k | 0 <= k < |Normalized(path)| ensures Normalized(path)[k] !in stop {
      if Normalized(path)[k] in stop {
        NormalizedChar(path, Normalized(path)[k]);
      }
    }
  }

  lemma NormalPath(path: string)
    requires path == "" || path[0] == '/'
    ensures path == "" ==> Normalized(path) == ""
    ensures path != "" ==> Normalized(path) != "" && Normalized(path)[0] == '/'
  {
    NormalizedKeepsMeaning(path);
  }

  lemma NormalUrlWellFormed(u: Url)
    requires WellFormed(u)
    ensures WellFormed(NormalUrl(u))
  {
    EndsFirstLower(u.scheme);
    forall k | 0 <= k < |u.authority| ensures FoldHost(u.authority)[k] !in Delimiters {
      assert u.authority[k] !in Delimiters;
    }
    NormalizedFree(u.path, {'?', '#'});
    NormalPath(u.path);
  }

  lemma NormalUrlTwice(u: Url)
    ensures NormalUrl(NormalUrl(u)) == NormalUrl(u)
  {
    LowerTwice(u.scheme);
    FoldHostTwice(u.authority);
    NormalizedTwice(u.path);
  }

  // ---------------------------------------------------------------------------
  // Whether an identifier is remote is in its scheme.
  // ---------------------------------------------------------------------------

  lemma SchemeOf(scheme: string, rest: string)
    ensures UriScheme((scheme + Separator) + rest) == UriScheme(scheme + ":")
  {
    var x, y := (scheme + Separator) + rest, scheme + ":";
    var colon := Scan(y, 0, {':'});
    assert y[|scheme|] == ':';
    assert x[|scheme|] == ':';
    assert forall k | 0 <= k <= colon :: x[k] == y[k];
    ScanIs(x, 0, {':'}, colon);
    assert x[..colon] == y[..colon];
    assert HasUriScheme(x) <==> HasUriScheme(y);
  }

  lemma SchemeLower(scheme: string)
    ensures UriScheme(Lower(scheme) + ":") == UriScheme(scheme + ":")
  {
    var x, y := Lower(scheme) + ":", scheme + ":";
    var colon := Scan(y, 0, {':'});
    assert y[|scheme|] == ':';
    assert forall k | 0 <= k < |y| :: x[k] == LowerChar(y[k]);
    ScanIs(x, 0, {':'}, colon);
    assert Lower(x[..colon]) == Lower(y[..colon]);
    assert forall k | 0 <= k < |y| :: IsSchemeChar(x[k]) <==> IsSchemeChar(y[k]);
    assert HasUriScheme(x) <==> HasUriScheme(y);
  }

  /** A normalized URL is remote exactly when the URL was. */
  lemma NormalIsRemote(schemes: set<string>, u: Url)
    ensures IsRemote(schemes, Compose(NormalUrl(u))) <==> IsRemote(schemes, Compose(u))
  {
    SchemeOf(u.scheme, Rest(u));
    SchemeOf(Lower(u.scheme), Rest(NormalUrl(u)));
    SchemeLower(u.scheme);
  }
}
