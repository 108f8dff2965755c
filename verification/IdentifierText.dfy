/** Identifiers as text: what each form looks like, character by character, and what becomes of it. */
module IdentifierText {
  import opened Basics
  import opened Strings
  import opened DotSegments
  import opened Identifier
  import opened IdentifierPackages
  import opened IdentifierUrls
  import opened IdentifierLaws

  // ---------------------------------------------------------------------------
  // Schemes.
  // ---------------------------------------------------------------------------

  /** Only capitals are folded, each to the small letter in its place. */
  lemma FoldsCapitals(c: char)
    ensures 'A' <= c <= 'Z' ==> LowerChar(c) as int - 'a' as int == c as int - 'A' as int
    ensures !('A' <= c <= 'Z') ==> LowerChar(c) == c
    ensures !('A' <= LowerChar(c) <= 'Z')
  {
  }

  /** Two characters at least, of letters, digits, '+', '-' and '.', the first a letter. */
  predicate IsSchemeName(scheme: string) {
    && |scheme| >= 2 && ('a' <= scheme[0] <= 'z' || 'A' <= scheme[0] <= 'Z')
    && forall i | 0 <= i < |scheme| ::
         var c := scheme[i];
         'a' <= c <= 'z' || 'A' <= c <= 'Z' || '0' <= c <= '9' || c == '+' || c == '-' || c == '.'
  }

  /** The scheme is what stands before the first colon, if that is the name of one, in small letters. */
  lemma SchemeExactly(x: string, scheme: string, rest: string)
    requires ':' !in scheme && x == scheme + (":" + rest)
    ensures HasUriScheme(x) <==> IsSchemeName(scheme)
    ensures UriScheme(x) == if IsSchemeName(scheme) then Lower(scheme) else ""
  {
    assert forall k | 0 <= k < |scheme| :: x[k] == scheme[k];
    assert x[|scheme|] == ':';
    ScanIs(x, 0, {':'}, |scheme|);
    assert x[..|scheme|] == scheme;
  }

  lemma NoColonNoScheme(x: string)
    requires ':' !in x
    ensures UriScheme(x) == ""
  {
  }

  /** An identifier is remote exactly when its scheme, in small letters, is advertised. */
  lemma RemoteExactly(schemes: set<string>, x: string, scheme: string, rest: string)
    requires ':' !in scheme && x == scheme + (":" + rest)
    ensures IsRemote(schemes, x) <==> IsSchemeName(scheme) && Lower(scheme) in schemes
  {
    SchemeExactly(x, scheme, rest);
  }

  /** An identifier that is no package is normalized if its scheme is advertised, and is left as it is if not. */
  lemma PlainExactly(schemes: set<string>, x: string, scheme: string, rest: string)
    requires ':' !in scheme && x == scheme + (":" + rest) && !ParsePackage(x).isPackage
    ensures NormalAsset(schemes, x) == if IsSchemeName(scheme) && Lower(scheme) in schemes then NormalRemote(x) else x
  {
    RemoteExactly(schemes, x, scheme, rest);
  }

  /** So is one without a colon, and a package that is not well formed. */
  lemma LeftAlone(schemes: set<string>, x: string)
    requires if ParsePackage(x).isPackage then !ParsePackage(x).valid else ':' !in x
    ensures NormalAsset(schemes, x) == x
  {
    if ':' !in x {
      NoColonNoScheme(x);
    }
  }

  // ---------------------------------------------------------------------------
  // URLs.
  // ---------------------------------------------------------------------------

  ghost predicate NoneOf(s: string, a: char, b: char, c: char) {
    a !in s && b !in s && c !in s
  }

  /** The four parts of a URL, each within its bounds. */
  ghost predicate AreParts(scheme: string, authority: string, path: string, tail: string) {
    && ':' !in scheme && NoneOf(authority, '/', '?', '#') && NoneOf(path, '?', '?', '#')
    && (path == "" || path[0] == '/') && (tail == "" || tail[0] == '?' || tail[0] == '#')
  }

  lemma PlainSchemeEnds(scheme: string)
    requires ':' !in scheme
    ensures EndsFirst(scheme)
  {
    forall k | 0 <= k < |scheme| ensures !At(scheme + Separator, k, Separator) {
      AtSeparator(scheme + Separator, k);
      assert (scheme + Separator)[k] == scheme[k];
    }
  }

  lemma PartsAreWellFormed(u: Url)
    requires AreParts(u.scheme, u.authority, u.path, u.tail)
    ensures WellFormed(u)
  {
    PlainSchemeEnds(u.scheme);
  }

  lemma NormalOfUrl(x: string, u: Url)
    requires WellFormed(u) && x == Compose(u)
    ensures NormalRemote(x) == Compose(NormalUrl(u))
  {
    ComposeParts(u);
  }

  /** A URL is normalized part by part; what follows its path is kept as it is. */
  lemma UrlExactly(x: string, scheme: string, authority: string, path: string, tail: string, sep: string)
    requires AreParts(scheme, authority, path, tail) && sep == "://"
    requires x == (scheme + sep) + (authority + (path + tail))
    ensures NormalRemote(x) == (Lower(scheme) + sep) + (FoldHost(authority) + (Normalized(path) + tail))
  {
    var u := Url(scheme, authority, path, tail);
    PartsAreWellFormed(u);
    NormalOfUrl(x, u);
  }

  /** Two URLs have the same normal form exactly when each of their four parts has. */
  lemma SameUrlExactly(x: string, u: Url, y: string, v: Url)
    requires WellFormed(u) && WellFormed(v) && x == Compose(u) && y == Compose(v)
    ensures NormalRemote(x) == NormalRemote(y) <==>
            && Lower(u.scheme) == Lower(v.scheme) && FoldHost(u.authority) == FoldHost(v.authority)
            && Normalized(u.path) == Normalized(v.path) && u.tail == v.tail
  {
    NormalOfUrl(x, u);
    NormalOfUrl(y, v);
    NormalUrlWellFormed(u);
    NormalUrlWellFormed(v);
    ComposeParts(NormalUrl(u));
    ComposeParts(NormalUrl(v));
  }

  /** The host is folded, with its port; the userinfo before it is not. */
  lemma HostIsFolded(user: string, host: string)
    requires '@' !in user
    ensures '@' !in host ==> FoldHost(host) == Lower(host)
    ensures FoldHost(user + ("@" + host)) == user + ("@" + Lower(host))
  {
    var authority := user + ("@" + host);
    assert authority[|user|] == '@';
    assert forall k | 0 <= k < |user| :: authority[k] == user[k];
    ScanIs(authority, 0, {'@'}, |user|);
    if '@' !in host {
      ScanIs(host, 0, {'@'}, |host|);
    }
  }

  lemma NotUrlUnchanged(x: string, sep: string)
    requires sep == "://" && !Occurs(x, sep)
    ensures NormalRemote(x) == x
  {
    FindNone(x, sep);
  }

  // ---------------------------------------------------------------------------
  // Brackets of packages and of hosts.
  // ---------------------------------------------------------------------------

  /** In text that is no URL the first bracket is a package's. */
  lemma StartOfText(x: string, sep: string)
    requires sep == "://" && !Occurs(x, sep)
    ensures SearchStart(x) == 0
  {
    FindNone(x, sep);
  }

  /** Userinfo with the '@' that ends it, or nothing. */
  ghost predicate IsUser(user: string) {
    user == "" || user[|user| - 1] == '@'
  }

  lemma HostStarts(user: string, host: string)
    requires IsUser(user) && '@' !in host
    ensures AfterLast(user + host, '@') == |user|
  {
    var authority := user + host;
    forall k | |user| <= k < |authority| ensures authority[k] != '@' {
      assert authority[k] == host[k - |user|];
    }
    LastIs(authority, |authority|, '@', |user|);
  }

  lemma SkipsHost(user: string, ip: string, port: string)
    requires IsUser(user) && ']' !in ip && '@' !in ip && '@' !in port
    ensures HostSkip(user + ("[" + (ip + ("]" + port)))) == |user| + |ip| + 2
  {
    var host := "[" + (ip + ("]" + port));
    var authority := user + host;
    HostStarts(user, host);
    assert host[0] == '[' && host[|ip| + 1] == ']';
    assert authority[|user|] == host[0];
    forall k | |user| + 1 <= k < |user| + 1 + |ip| ensures authority[k] != ']' {
      assert authority[k] == host[k - |user|] == ip[k - |user| - 1];
    }
    assert authority[|user| + 1 + |ip|] == host[|ip| + 1];
    ScanIs(authority, |user| + 1, {']'}, |user| + 1 + |ip|);
  }

  lemma SkipsNothing(user: string, host: string)
    requires IsUser(user) && '@' !in host && (host == "" || host[0] != '[' || ']' !in host)
    ensures HostSkip(user + host) == 0
  {
    var authority := user + host;
    HostStarts(user, host);
    if host != "" {
      assert authority[|user|] == host[0];
      if host[0] == '[' {
        forall k | |user| + 1 <= k < |authority| ensures authority[k] != ']' {
          assert authority[k] == host[k - |user|];
        }
        ScanIs(authority, |user| + 1, {']'}, |authority|);
      }
    }
  }

  lemma StartBehindHost(x: string, scheme: string, authority: string, more: string, sep: string)
    requires ':' !in scheme && sep == "://" && NoneOf(authority, '/', '?', '#')
    requires more == "" || more[0] == '/' || more[0] == '?' || more[0] == '#'
    requires x == (scheme + sep) + (authority + more)
    ensures SearchStart(x) == |scheme| + 3 + HostSkip(authority)
  {
    PlainSchemeEnds(scheme);
    SearchStartOf(scheme, authority + more);
    ScanAppend(authority, more, Delimiters);
    ScanStops(more, Delimiters);
    assert (authority + more)[..|authority|] == authority;
  }

  /** The brackets of a bracketed host are not a package's. */
  lemma StartBehindBracketed(x: string, scheme: string, user: string, ip: string, port: string, more: string, sep: string)
    requires ':' !in scheme && sep == "://" && NoneOf(user + ("[" + (ip + ("]" + port))), '/', '?', '#')
    requires more == "" || more[0] == '/' || more[0] == '?' || more[0] == '#'
    requires x == (scheme + sep) + ((user + ("[" + (ip + ("]" + port)))) + more)
    requires IsUser(user) && ']' !in ip && '@' !in ip && '@' !in port
    ensures SearchStart(x) == |scheme| + 3 + |user| + |ip| + 2
  {
    StartBehindHost(x, scheme, user + ("[" + (ip + ("]" + port))), more, sep);
    SkipsHost(user, ip, port);
  }

  /** Behind the scheme of any other URL every bracket is. */
  lemma StartBehindScheme(x: string, scheme: string, user: string, host: string, more: string, sep: string)
    requires ':' !in scheme && sep == "://" && NoneOf(user + host, '/', '?', '#')
    requires more == "" || more[0] == '/' || more[0] == '?' || more[0] == '#'
    requires x == (scheme + sep) + ((user + host) + more)
    requires IsUser(user) && '@' !in host && (host == "" || host[0] != '[' || ']' !in host)
    ensures SearchStart(x) == |scheme| + 3
  {
    StartBehindHost(x, scheme, user + host, more, sep);
    SkipsNothing(user, host);
  }

  /** The bracket at `close` closes the one at `open`. */
  ghost predicate Closes(x: string, open: nat, close: nat) {
    open < close < |x| && x[close] == ']' && Balanced(x[open + 1..close])
  }

  lemma ClosesMeans(x: string, open: nat, close: nat)
    requires open < |x| && x[open] == '[' && Closes(x, open, close)
    ensures CloseFrom(x, open, open) == close
  {
    forall j | open <= j < close && x[j] == ']' ensures Balance(x, j + 1) != Balance(x, open) {
      BalanceOfPart(x, open + 1, close, j - open);
      assert Balance(x[open + 1..close], j - open) >= 0;
    }
    BalanceOfPart(x, open + 1, close, close - open - 1);
    CloseIs(x, open, open, close);
  }

  lemma StaysWithin(x: string, open: nat, close: nat, k: nat)
    requires open < close < |x| && x[open] == '[' && CloseFrom(x, open, open) == close && k <= close - open - 1
    ensures Balance(x[open + 1..close], k) >= 0
    ensures Balance(x[open + 1..close], close - open - 1) == 0
  {
    BalanceOfPart(x, open + 1, close, k);
    StaysOpen(x, open, open + 1 + k);
    BalanceOfPart(x, open + 1, close, close - open - 1);
  }

  lemma MeansCloses(x: string, open: nat)
    requires open < |x| && x[open] == '[' && CloseFrom(x, open, open) < |x|
    ensures Closes(x, open, CloseFrom(x, open, open))
  {
    var close := CloseFrom(x, open, open);
    var inner := x[open + 1..close];
    forall k | 0 <= k <= |inner| ensures Balance(inner, k) >= 0 && Balance(inner, |inner|) == 0 {
      StaysWithin(x, open, close, k);
    }
    assert Balance(inner, 0) >= 0;
  }

  /** Text without a bracket where packages are looked for is no package. */
  lemma NoBracketNoPackage(x: string)
    requires NoOpenFrom(x, SearchStart(x))
    ensures ParsePackage(x) == Package(false, true, "", "", "")
  {
  }

  /** The first bracket where packages are looked for is at `open`. */
  ghost predicate Opens(x: string, open: nat) {
    SearchStart(x) <= open < |x| && x[open] == '[' && forall k | SearchStart(x) <= k < open :: x[k] != '['
  }

  lemma OpensAt(x: string, open: nat)
    requires Opens(x, open)
    ensures Scan(x, SearchStart(x), {'['}) == open
  {
    ScanIs(x, SearchStart(x), {'['}, open);
  }

  /** The error for a bracket that is never closed. */
  lemma ParsedOpen(x: string, open: nat, error: string)
    requires Opens(x, open) && (forall k: nat :: !Closes(x, open, k)) && error == "missing closing package bracket"
    ensures ParsePackage(x) == Package(true, false, "", "", error)
  {
    OpensAt(x, open);
    if CloseFrom(x, open, open) < |x| {
      MeansCloses(x, open);
    }
  }

  /** The error for text behind the bracket that closes it. */
  lemma ParsedTrailing(x: string, open: nat, close: nat, error: string)
    requires Opens(x, open) && Closes(x, open, close) && close + 1 < |x| && error == "unexpected characters after package identifier"
    ensures ParsePackage(x) == Package(true, false, "", "", error)
  {
    OpensAt(x, open);
    ClosesMeans(x, open, close);
  }

  /** The error for an empty part. */
  lemma ParsedEmpty(x: string, open: nat, close: nat, error: string)
    requires Opens(x, open) && Closes(x, open, close) && close + 1 == |x| && (open == 0 || close == open + 1)
    requires error == "package outer asset and inner path must be non-empty"
    ensures ParsePackage(x) == Package(true, false, x[..open], x[open + 1..close], error)
  {
    OpensAt(x, open);
    ClosesMeans(x, open, close);
  }

  /** The two parts of any other package. */
  lemma ParsedParts(x: string, open: nat, close: nat)
    requires Opens(x, open) && Closes(x, open, close) && close + 1 == |x| && open > 0 && close > open + 1
    ensures ParsePackage(x) == Package(true, true, x[..open], x[open + 1..close], "")
  {
    OpensAt(x, open);
    ClosesMeans(x, open, close);
  }

  // ---------------------------------------------------------------------------
  // Format arguments, providers and write targets.
  // ---------------------------------------------------------------------------

  /** `suffix` starts with the first marker of the identifier, or is nothing and there is none. */
  ghost predicate AreArgs(asset: string, suffix: string, marker: string) {
    && marker == ":SDF_FORMAT_ARGS:"
    && (suffix == "" || At(suffix, 0, marker))
    && forall k | 0 <= k < |asset| :: !At(asset + suffix, k, marker)
  }

  /** Format arguments start at the first marker. */
  lemma ArgsExactly(asset: string, suffix: string, marker: string)
    requires AreArgs(asset, suffix, marker)
    ensures SplitArgs(asset + suffix) == Args(asset, suffix, suffix != "")
  {
    var x := asset + suffix;
    if suffix == "" {
      assert x == asset;
      forall k | 0 <= k <= |x| ensures !At(x, k, marker) {
      }
      FindNone(x, marker);
    } else {
      assert x[|asset|..|asset| + |marker|] == suffix[0..|marker|];
      FindIs(x, marker, |asset|);
      assert x[..|asset|] == asset && x[|asset|..] == suffix;
    }
  }

  lemma AssetHasNoMarker(asset: string, suffix: string, marker: string)
    requires AreArgs(asset, suffix, marker)
    ensures !Occurs(asset, marker)
  {
    ArgsExactly(asset, suffix, marker);
    SplitArgsFree(asset + suffix);
  }

  /** Normalizing keeps format arguments as they are. */
  lemma ArgsAreKept(schemes: set<string>, asset: string, suffix: string, marker: string)
    requires AreArgs(asset, suffix, marker)
    ensures NormalIdentifier(schemes, asset + suffix) == NormalAsset(schemes, asset) + suffix
  {
    ArgsExactly(asset, suffix, marker);
  }

  /** They are not part of a provider's identifier, nor is the inner path of a valid package. */
  lemma ProviderExactly(asset: string, suffix: string, marker: string, p: Package)
    requires AreArgs(asset, suffix, marker) && p == ParsePackage(asset)
    ensures StorageProviderIdentifier(asset + suffix) == if p.isPackage && p.valid then p.outerAsset else asset
  {
    ArgsExactly(asset, suffix, marker);
  }

  /** What may be written is what is no package, valid or not, and it is written to its normal form. */
  lemma TargetExactly(schemes: set<string>, asset: string, suffix: string, marker: string)
    requires AreArgs(asset, suffix, marker)
    ensures StorageWriteTarget(schemes, asset + suffix) ==
            if ParsePackage(asset).isPackage then None else Some(NormalAsset(schemes, asset))
  {
    ArgsExactly(asset, suffix, marker);
    AssetHasNoMarker(asset, suffix, marker);
    NormalOfFree(schemes, asset);
  }
}
