/** `identifier.cpp`: schemes, packages, format arguments and normal forms of asset identifiers. */
module Identifier {
  import opened Basics
  import opened Strings
  import opened DotSegments

  const Marker: string := ":SDF_FORMAT_ARGS:"
  const Separator: string := "://"
  const Delimiters: set<char> := {'/', '?', '#'}

  predicate IsLetter(c: char) {
    'a' <= c <= 'z' || 'A' <= c <= 'Z'
  }

  predicate IsSchemeChar(c: char) {
    IsLetter(c) || '0' <= c <= '9' || c == '+' || c == '-' || c == '.'
  }

  // ---------------------------------------------------------------------------
  // Schemes. The advertised schemes are fixed when the resolver is built.
  // ---------------------------------------------------------------------------

  predicate HasUriScheme(x: string) {
    var colon := Scan(x, 0, {':'});
    && |x| >= 2 && IsLetter(x[0])
    && colon < |x| && colon != 1
    && forall i | 1 <= i < colon :: IsSchemeChar(x[i])
  }

  function UriScheme(x: string): string {
    if HasUriScheme(x) then Lower(x[..Scan(x, 0, {':'})]) else ""
  }

  predicate IsRemote(schemes: set<string>, x: string) {
    UriScheme(x) != "" && UriScheme(x) in schemes
  }

  // ---------------------------------------------------------------------------
  // Format arguments and packages.
  // ---------------------------------------------------------------------------

  datatype Args = Args(assetPath: string, suffix: string, hasArgs: bool)

  function SplitArgs(x: string): Args {
    var position := Find(x, Marker);
    if position == |x| then Args(x, "", false) else Args(x[..position], x[position..], true)
  }

  datatype Package = Package(isPackage: bool, valid: bool, outerAsset: string, innerPath: string, error: string)

  const NotPackage: Package := Package(false, true, "", "", "")

  function Nesting(c: char): int {
    if c == '[' then 1 else if c == ']' then -1 else 0
  }

  /** How many brackets are open before position `k`. */
  function Balance(s: string, k: nat): int
    requires k <= |s|
  {
    if k == 0 then 0 else Balance(s, k - 1) + Nesting(s[k - 1])
  }

  ghost predicate Balanced(s: string) {
    Balance(s, |s|) == 0 && forall k | 0 <= k <= |s| :: Balance(s, k) >= 0
  }

  /** How much of an authority is userinfo and a bracketed host. */
  function HostSkip(authority: string): (r: nat)
    ensures r <= |authority|
  {
    var host := AfterLast(authority, '@');
    if host < |authority| && authority[host] == '[' then
      var close := Scan(authority, host + 1, {']'});
      if close < |authority| then close + 1 else 0
    else 0
  }

  /** The authority of an identifier whose scheme ends at `p`. */
  function AuthorityAt(x: string, p: nat): string
    requires p + 3 <= |x|
  {
    x[p + 3..Scan(x, p + 3, Delimiters)]
  }

  /** Where the search for a package's opening bracket starts. */
  function SearchStart(x: string): (r: nat)
    ensures r <= |x|
  {
    var p := Find(x, Separator);
    if p == |x| then 0 else p + 3 + HostSkip(AuthorityAt(x, p))
  }

  /** The first position from `k` on at which the brackets opened since `open` are closed. */
  function CloseFrom(x: string, open: nat, k: nat): (r: nat)
    requires open <= k <= |x|
    ensures k <= r <= |x|
    ensures r < |x| ==> x[r] == ']' && Balance(x, r + 1) == Balance(x, open)
    ensures forall j | k <= j < r :: x[j] == ']' ==> Balance(x, j + 1) != Balance(x, open)
    decreases |x| - k
  {
    if k == |x| || (x[k] == ']' && Balance(x, k + 1) == Balance(x, open)) then k else CloseFrom(x, open, k + 1)
  }

  function ParsePackage(x: string): Package {
    ParseFrom(x, SearchStart(x))
  }

  function ParseFrom(x: string, start: nat): (r: Package)
    requires start <= |x|
    ensures r.isPackage && r.valid ==> |r.outerAsset| < |x|
  {
    var open := Scan(x, start, {'['});
    if open == |x| then NotPackage
    else
      var close := CloseFrom(x, open, open);
      if close == |x| then Package(true, false, "", "", "missing closing package bracket")
      else if close + 1 != |x| then Package(true, false, "", "", "unexpected characters after package identifier")
      else
        var outer, inner := x[..open], x[open + 1..close];
        if outer == "" || inner == "" then
          Package(true, false, outer, inner, "package outer asset and inner path must be non-empty")
        else Package(true, true, outer, inner, "")
  }

  // ---------------------------------------------------------------------------
  // Normal forms.
  // ---------------------------------------------------------------------------

  /** A URL in four parts; the tail is the query and the fragment. */
  datatype Url = Url(scheme: string, authority: string, path: string, tail: string)

  function Compose(u: Url): string {
    (u.scheme + Separator) + (u.authority + (u.path + u.tail))
  }

  function SplitRest(scheme: string, rest: string): Url {
    var e := Scan(rest, 0, Delimiters);
    var remainder := rest[e..];
    var q := Scan(remainder, 0, {'?', '#'});
    Url(scheme, rest[..e], remainder[..q], remainder[q..])
  }

  function Split(x: string): Url
    requires Find(x, Separator) < |x|
  {
    var p := Find(x, Separator);
    SplitRest(x[..p], x[p + 3..])
  }

  /** The authority with its host and port folded: what follows the first '@', or all of it without one. */
  function FoldHost(authority: string): (r: string)
    ensures |r| == |authority|
  {
    var at := Scan(authority, 0, {'@'});
    seq(|authority|, i requires 0 <= i < |authority| =>
      if i <= at < |authority| then authority[i] else LowerChar(authority[i]))
  }

  function NormalUrl(u: Url): Url {
    Url(Lower(u.scheme), FoldHost(u.authority), Normalized(u.path), u.tail)
  }

  function NormalRemote(x: string): string {
    if Find(x, Separator) == |x| then x else Compose(NormalUrl(Split(x)))
  }

  function NormalAsset(schemes: set<string>, x: string): string
    decreases |x|
  {
    var package := ParsePackage(x);
    if package.isPackage then
      if !package.valid then x
      else NormalAsset(schemes, package.outerAsset) + ("[" + (package.innerPath + "]"))
    else if IsRemote(schemes, x) then NormalRemote(x) else x
  }

  function NormalIdentifier(schemes: set<string>, x: string): string {
    var args := SplitArgs(x);
    NormalAsset(schemes, args.assetPath) + args.suffix
  }

  function StorageProviderIdentifier(x: string): string {
    var asset := SplitArgs(x).assetPath;
    var package := ParsePackage(asset);
    if package.isPackage && package.valid then package.outerAsset else asset
  }

  function StorageWriteTarget(schemes: set<string>, x: string): Option<string> {
    var asset := SplitArgs(x).assetPath;
    if ParsePackage(asset).isPackage then None else Some(NormalIdentifier(schemes, asset))
  }

  // ---------------------------------------------------------------------------
  // The loops.
  // ---------------------------------------------------------------------------

  lemma AtSeparator(x: string, k: nat)
    ensures At(x, k, Separator) <==> k + 3 <= |x| && x[k] == ':' && x[k + 1] == '/' && x[k + 2] == '/'
  {
    if k + 3 <= |x| {
      assert x[k..k + 3] == [x[k], x[k + 1], x[k + 2]];
    }
  }

  method UriSchemeOf(x: string) returns (has: bool)
    ensures has == HasUriScheme(x)
  {
    if |x| < 2 || !IsLetter(x[0]) {
      return false;
    }
    var colon := Scan(x, 0, {':'});
    if colon == |x| || colon == 1 {
      return false;
    }
    for index := 1 to colon
      invariant forall i | 1 <= i < index :: IsSchemeChar(x[i])
    {
      if !IsSchemeChar(x[index]) {
        return false;
      }
    }
    return true;
  }

  /** The position `find` gives in the whole identifier, seen from the authority. */
  lemma ScanInside(x: string, a: nat, b: nat, from: nat, c: char)
    requires a <= b <= |x| && from <= b - a
    ensures Scan(x, a + from, {c}) < b ==> Scan(x[a..b], from, {c}) == Scan(x, a + from, {c}) - a
    ensures Scan(x, a + from, {c}) >= b ==> Scan(x[a..b], from, {c}) == b - a
  {
    var r := Scan(x, a + from, {c});
    ScanIs(x[a..b], from, {c}, if r < b then r - a else b - a);
  }

  lemma {:induction false} CloseIs(x: string, open: nat, k: nat, r: nat)
    requires open <= k <= r <= |x|
    requires r < |x| ==> x[r] == ']' && Balance(x, r + 1) == Balance(x, open)
    requires forall j | k <= j < r :: x[j] == ']' ==> Balance(x, j + 1) != Balance(x, open)
    ensures CloseFrom(x, open, k) == r
    decreases r - k
  {
    if k < r {
      CloseIs(x, open, k + 1, r);
    }
  }

  /** The scan for the closing bracket, which never meets one too many. */
  method MatchingClose(x: string, firstOpen: nat) returns (matchingClose: nat, tooMany: bool)
    requires firstOpen < |x| && x[firstOpen] == '['
    ensures matchingClose == CloseFrom(x, firstOpen, firstOpen)
    ensures !tooMany
  {
    var depth := 0;
    tooMany := false;
    matchingClose := |x|;
    for index := firstOpen to |x|
      invariant depth == Balance(x, index) - Balance(x, firstOpen)
      invariant index > firstOpen ==> depth > 0
      invariant !tooMany && matchingClose == |x|
      invariant forall j | firstOpen <= j < index :: x[j] == ']' ==> Balance(x, j + 1) != Balance(x, firstOpen)
    {
      if x[index] == '[' {
        depth := depth + 1;
      } else if x[index] == ']' {
        depth := depth - 1;
        if depth == 0 {
          matchingClose := index;
          CloseIs(x, firstOpen, firstOpen, index);
          return;
        }
        if depth < 0 {
          tooMany := true;
          break;
        }
      }
    }
    CloseIs(x, firstOpen, firstOpen, |x|);
  }

  /** Past the userinfo and a bracketed host of an authority. */
  method HostEnd(x: string, authorityStart: nat, authorityEnd: nat) returns (searchStart: nat)
    requires authorityStart <= authorityEnd <= |x|
    ensures searchStart == authorityStart + HostSkip(x[authorityStart..authorityEnd])
  {
    var authority := x[authorityStart..authorityEnd];
    searchStart := authorityStart;
    var host := AfterLast(authority, '@');
    var hostStart := authorityStart + host;
    assert host < |authority| ==> authority[host] == x[hostStart];
    if hostStart < authorityEnd && x[hostStart] == '[' {
      var hostEnd := Scan(x, hostStart + 1, {']'});
      ScanInside(x, authorityStart, authorityEnd, host + 1, ']');
      if hostEnd < |x| && hostEnd < authorityEnd {
        searchStart := hostEnd + 1;
      }
    }
  }

  /** The first step of the package parser: past a bracketed host, which is no package. */
  method SkipHost(x: string) returns (searchStart: nat)
    ensures searchStart == SearchStart(x)
  {
    searchStart := 0;
    var schemeEnd := Find(x, Separator);
    if schemeEnd < |x| {
      var authorityEnd := Scan(x, schemeEnd + 3, Delimiters);
      searchStart := HostEnd(x, schemeEnd + 3, authorityEnd);
    }
  }

  method ParsePackageIdentifier(x: string) returns (r: Package)
    ensures r == ParsePackage(x)
  {
    var searchStart := SkipHost(x);
    var firstOpen := Scan(x, searchStart, {'['});
    if firstOpen == |x| {
      return NotPackage;
    }
    var matchingClose, _ := MatchingClose(x, firstOpen);
    if matchingClose == |x| {
      return Package(true, false, "", "", "missing closing package bracket");
    }
    if matchingClose + 1 != |x| {
      return Package(true, false, "", "", "unexpected characters after package identifier");
    }
    r := Package(true, true, x[..firstOpen], x[firstOpen + 1..matchingClose], "");
    if r.outerAsset == "" || r.innerPath == "" {
      r := r.(valid := false, error := "package outer asset and inner path must be non-empty");
    }
  }

  lemma ScanOr(s: string)
    ensures var f, q := Scan(s, 0, {'#'}), Scan(s, 0, {'?'});
            Scan(s, 0, {'?', '#'}) == if q < f then q else f
  {
    var f, q := Scan(s, 0, {'#'}), Scan(s, 0, {'?'});
    ScanIs(s, 0, {'?', '#'}, if q < f then q else f);
  }

  lemma ScanShift(x: string, e: nat, stop: set<char>)
    requires e <= |x|
    ensures e + Scan(x[e..], 0, stop) == Scan(x, e, stop)
  {
    var r := Scan(x[e..], 0, stop);
    assert forall k | e <= k < e + r :: x[k] == x[e..][k - e];
    ScanIs(x, e, stop, e + r);
  }

  method AuthorityEnd(x: string, authorityStart: nat) returns (authorityEnd: nat)
    requires authorityStart <= |x|
    ensures authorityEnd == Scan(x, authorityStart, Delimiters)
  {
    authorityEnd := |x|;
    for index := authorityStart to |x|
      invariant authorityEnd == |x|
      invariant forall k | authorityStart <= k < index :: x[k] !in Delimiters
    {
      var c := x[index];
      if c == '/' || c == '?' || c == '#' {
        authorityEnd := index;
        break;
      }
    }
    ScanIs(x, authorityStart, Delimiters, authorityEnd);
  }

  /** Where the query or, without one, the fragment starts. */
  method PathLength(remainder: string) returns (pathLen: nat)
    ensures pathLen == Scan(remainder, 0, {'?', '#'})
  {
    var fragmentStart := Scan(remainder, 0, {'#'});
    var queryStart := Scan(remainder, 0, {'?'});
    ScanOr(remainder);
    if queryStart < |remainder| && fragmentStart < |remainder| && queryStart > fragmentStart {
      queryStart := |remainder|;
    }
    pathLen := |remainder|;
    if queryStart < |remainder| {
      pathLen := queryStart;
    } else if fragmentStart < |remainder| {
      pathLen := fragmentStart;
    }
  }

  method FoldAuthority(authority: string) returns (authorityOut: string)
    ensures authorityOut == FoldHost(authority)
  {
    var atSign := Scan(authority, 0, {'@'});
    if atSign < |authority| {
      authorityOut := authority[..atSign];
      authorityOut := authorityOut + "@";
      authorityOut := authorityOut + Lower(authority[atSign + 1..]);
    } else {
      authorityOut := Lower(authority);
    }
  }

  method SplitUrl(x: string, schemeEnd: nat) returns (u: Url)
    requires schemeEnd + 3 <= |x|
    ensures u == SplitRest(x[..schemeEnd], x[schemeEnd + 3..])
  {
    var authorityStart := schemeEnd + 3;
    var authorityEnd := AuthorityEnd(x, authorityStart);
    ScanShift(x, authorityStart, Delimiters);
    var authority := x[authorityStart..authorityEnd];
    var remainder := x[authorityEnd..];
    ghost var rest, e := x[authorityStart..], authorityEnd - authorityStart;
    assert rest[..e] == authority && rest[e..] == remainder;
    var pathLen := PathLength(remainder);
    var path, queryAndFragment := remainder[..pathLen], remainder[pathLen..];
    u := Url(x[..schemeEnd], authority, path, queryAndFragment);
  }

  method NormalizeRemotePath(x: string) returns (result: string)
    ensures result == NormalRemote(x)
  {
    var schemeEnd := Find(x, Separator);
    if schemeEnd == |x| {
      return x;
    }
    var u := SplitUrl(x, schemeEnd);
    NormalRemoteIs(x, schemeEnd, u);
    result := NormalizeUrl(u);
  }

  lemma NormalRemoteIs(x: string, p: nat, u: Url)
    requires p == Find(x, Separator) < |x| && u == SplitRest(x[..p], x[p + 3..])
    ensures NormalRemote(x) == Compose(NormalUrl(u))
  {
  }

  method NormalizeUrl(u: Url) returns (result: string)
    ensures result == Compose(NormalUrl(u))
  {
    var authorityOut := FoldAuthority(u.authority);
    var normal := "";
    if u.path != "" {
      normal := NormalizeDotSegments(u.path);
    }
    assert normal == Normalized(u.path);
    result := Lower(u.scheme);
    result := result + Separator;
    Concatenated(result, authorityOut, normal, u.tail);
    result := result + authorityOut;
    result := result + normal;
    result := result + u.tail;
  }

  lemma Concatenated(a: string, b: string, c: string, d: string)
    ensures ((a + b) + c) + d == a + (b + (c + d))
  {
  }
}
