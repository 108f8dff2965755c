/** Which bytes of an authority normalizing keeps. Everything after the first '@' is folded, a bracketed host
    included, while a package is searched for after the last '@'. */
module IdentifierHosts {
  import opened Strings
  import opened DotSegments
  import opened Identifier
  import opened IdentifierPackages
  import opened IdentifierUrls
  import opened IdentifierLaws
  import opened IdentifierArgs

  predicate Capital(c: char) {
    'A' <= c <= 'Z'
  }

  /** What the package parser takes for userinfo: all up to the last '@'. */
  function UserPart(authority: string): string {
    authority[..AfterLast(authority, '@')]
  }

  /** The bracketed host that the package parser skips; nothing when there is none. */
  function BracketedHost(authority: string): string
    requires HostSkip(authority) > 0
  {
    authority[AfterLast(authority, '@')..HostSkip(authority)]
  }

  lemma FoldKeepsEnds(authority: string)
    ensures AfterLast(FoldHost(authority), '@') == AfterLast(authority, '@')
    ensures HostSkip(FoldHost(authority)) == HostSkip(authority)
  {
    var f := FoldHost(authority);
    FoldHostBrackets(authority);
    LastIs(f, |f|, '@', AfterLast(authority, '@'));
    HostSkipSame(authority, f);
  }

  lemma FoldedFrom(authority: string, i: nat)
    requires i < |authority|
    ensures FoldHost(authority)[i] == authority[i] <==> i <= Scan(authority, 0, {'@'}) < |authority| || !Capital(authority[i])
  {
  }

  /** A part of an authority is kept exactly when it holds no capital after the first '@'. */
  lemma PartKeptExactly(authority: string, a: nat, b: nat)
    requires a <= b <= |authority|
    ensures FoldHost(authority)[a..b] == authority[a..b] <==>
            forall i | a <= i < b && !(i <= Scan(authority, 0, {'@'}) < |authority|) :: !Capital(authority[i])
  {
    var f := FoldHost(authority);
    if f[a..b] == authority[a..b] {
      forall i | a <= i < b && !(i <= Scan(authority, 0, {'@'}) < |authority|) ensures !Capital(authority[i]) {
        assert f[i] == f[a..b][i - a] == authority[a..b][i - a] == authority[i];
        FoldedFrom(authority, i);
      }
    }
    if forall i | a <= i < b && !(i <= Scan(authority, 0, {'@'}) < |authority|) :: !Capital(authority[i]) {
      forall i | a <= i < b ensures f[i] == authority[i] {
        FoldedFrom(authority, i);
      }
    }
  }

  /** An authority is kept exactly when it holds no capital after its first '@', or none at all without one. */
  lemma AuthorityKeptExactly(authority: string)
    ensures FoldHost(authority) == authority <==>
            forall i | 0 <= i < |authority| && !(i <= Scan(authority, 0, {'@'}) < |authority|) :: !Capital(authority[i])
  {
    PartKeptExactly(authority, 0, |authority|);
    assert authority[0..|authority|] == authority && FoldHost(authority)[0..|authority|] == FoldHost(authority);
  }

  lemma FirstBeforeLast(authority: string)
    ensures Scan(authority, 0, {'@'}) < |authority| ==> Scan(authority, 0, {'@'}) < AfterLast(authority, '@')
    ensures Scan(authority, 0, {'@'}) == |authority| ==> AfterLast(authority, '@') == 0
  {
  }

  lemma NormalAuthority(x: string)
    requires Find(x, Separator) < |x|
    ensures Find(NormalRemote(x), Separator) < |NormalRemote(x)|
    ensures Split(NormalRemote(x)).authority == FoldHost(Split(x).authority)
  {
    SplitParts(x);
    NormalUrlWellFormed(Split(x));
    ComposeParts(NormalUrl(Split(x)));
  }

  /** Normalizing a URL keeps a bracketed host byte for byte if and only if it holds no capital. */
  lemma HostKeptExactly(x: string)
    requires Find(x, Separator) < |x| && HostSkip(Split(x).authority) > 0
    ensures Find(NormalRemote(x), Separator) < |NormalRemote(x)| && HostSkip(Split(NormalRemote(x)).authority) > 0
    ensures BracketedHost(Split(NormalRemote(x)).authority) == BracketedHost(Split(x).authority) <==>
            forall c | c in BracketedHost(Split(x).authority) :: !Capital(c)
  {
    var a := Split(x).authority;
    NormalAuthority(x);
    FoldKeepsEnds(a);
    FirstBeforeLast(a);
    HostPart(a);
  }

  lemma NoCapitalIn(s: string, a: nat, b: nat)
    requires a <= b <= |s|
    ensures (forall c | c in s[a..b] :: !Capital(c)) <==> forall i | a <= i < b :: !Capital(s[i])
  {
    var part := s[a..b];
    assert forall i | a <= i < b :: s[i] == part[i - a] && s[i] in part;
  }

  lemma HostPart(authority: string)
    requires HostSkip(authority) > 0
    ensures var h, e := AfterLast(authority, '@'), HostSkip(authority);
            FoldHost(authority)[h..e] == authority[h..e] <==> forall c | c in authority[h..e] :: !Capital(c)
  {
    var h, e := AfterLast(authority, '@'), HostSkip(authority);
    FirstBeforeLast(authority);
    PartKeptExactly(authority, h, e);
    NoCapitalIn(authority, h, e);
  }

  /** Normalizing a URL keeps its userinfo byte for byte, up to the last '@', if and only if no capital stands between
      the first '@' and the last. */
  lemma UserKeptExactly(x: string)
    requires Find(x, Separator) < |x|
    ensures Find(NormalRemote(x), Separator) < |NormalRemote(x)|
    ensures var a := Split(x).authority;
            UserPart(Split(NormalRemote(x)).authority) == UserPart(a) <==>
            forall i | Scan(a, 0, {'@'}) < i < AfterLast(a, '@') :: !Capital(a[i])
  {
    var a := Split(x).authority;
    NormalAuthority(x);
    FoldKeepsEnds(a);
    FirstBeforeLast(a);
    PartKeptExactly(a, 0, AfterLast(a, '@'));
    assert FoldHost(a)[0..AfterLast(a, '@')] == FoldHost(a)[..AfterLast(a, '@')];
    assert a[0..AfterLast(a, '@')] == a[..AfterLast(a, '@')];
  }

  // ---------------------------------------------------------------------------
  // URLs whose host or userinfo is not kept.
  // ---------------------------------------------------------------------------

  lemma NormalOfPlain(schemes: set<string>, x: string)
    requires IsRemote(schemes, x) && !ParsePackage(x).isPackage && 'S' !in x
    ensures NormalIdentifier(schemes, x) == NormalRemote(x)
  {
    assert Marker[1] == 'S';
    LacksOne(x, Marker, 1);
    NormalOfFree(schemes, x);
  }

  lemma ComposeLacks(u: Url, c: char)
    requires c !in u.scheme && c !in u.authority && c !in u.path && c !in u.tail && c !in Separator
    ensures c !in Compose(u)
  {
    assert c !in u.path + u.tail;
    assert c !in Rest(u);
    assert c !in u.scheme + Separator;
  }

  lemma BehindAuthority(u: Url, k: nat)
    requires |u.scheme| + 3 + |u.authority| <= k < |Compose(u)|
    ensures Compose(u)[k] == (u.path + u.tail)[k - |u.scheme| - 3 - |u.authority|]
  {
    var head, more := u.scheme + Separator, u.path + u.tail;
    assert Compose(u)[k] == (u.authority + more)[k - |head|];
  }

  lemma StartBehind(u: Url)
    requires WellFormed(u) && HostSkip(u.authority) == |u.authority|
    ensures SearchStart(Compose(u)) == |u.scheme| + 3 + |u.authority|
  {
    assert Compose(u) + "" == Compose(u);
    StartOf(u, "");
    assert u.authority + "" == u.authority && Authority("") == "";
  }

  /** A URL whose whole authority is a bracketed host, with no bracket behind it, is no package. */
  lemma OnlyHostNoPackage(u: Url)
    requires WellFormed(u) && HostSkip(u.authority) == |u.authority| && '[' !in u.path && '[' !in u.tail
    ensures !ParsePackage(Compose(u)).isPackage
  {
    StartBehind(u);
    NoPackageExactly(Compose(u));
    assert '[' !in u.path + u.tail;
    forall k | |u.scheme| + 3 + |u.authority| <= k < |Compose(u)| ensures Compose(u)[k] != '[' {
      BehindAuthority(u, k);
    }
  }

  /** A URL whose bracketed host holds a capital. */
  lemma HostWithCapital(schemes: set<string>, x: string)
    requires IsRemoteUrl(schemes, x) && !ParsePackage(x).isPackage && 'S' !in x
    requires HostSkip(Split(x).authority) > 0 && exists c :: c in BracketedHost(Split(x).authority) && Capital(c)
    ensures var y := NormalIdentifier(schemes, x);
            && Find(y, Separator) < |y| && HostSkip(Split(y).authority) > 0
            && BracketedHost(Split(y).authority) != BracketedHost(Split(x).authority)
  {
    NormalOfPlain(schemes, x);
    HostKeptExactly(x);
  }

  /** A URL with a capital between its first '@' and its last. */
  lemma UserWithCapital(schemes: set<string>, x: string, i: nat)
    requires IsRemoteUrl(schemes, x) && !ParsePackage(x).isPackage && 'S' !in x
    requires var a := Split(x).authority; Scan(a, 0, {'@'}) < i < AfterLast(a, '@') && Capital(a[i])
    ensures var y := NormalIdentifier(schemes, x);
            Find(y, Separator) < |y| && UserPart(Split(y).authority) != UserPart(Split(x).authority)
  {
    NormalOfPlain(schemes, x);
    UserKeptExactly(x);
  }

  lemma SimpleUrl(u: Url)
    requires u.scheme == "s3" && Free(u.authority, Delimiters) && u.path == "/x" && u.tail == ""
    ensures WellFormed(u)
  {
    SchemeIsS3("");
  }

  /** `s3://[FE80::1]/x` */
  predicate IsBracketedUrl(u: Url) {
    u.scheme == "s3" && u.authority == "[FE80::1]" && u.path == "/x" && u.tail == ""
  }

  lemma BracketedAuthority(authority: string)
    requires authority == "[FE80::1]"
    ensures AfterLast(authority, '@') == 0 && HostSkip(authority) == 9
  {
    LastIs(authority, 9, '@', 0);
    ScanIs(authority, 1, {']'}, 8);
  }

  lemma BracketedCapital(authority: string)
    requires authority == "[FE80::1]" && HostSkip(authority) == 9 && AfterLast(authority, '@') == 0
    ensures 'F' in BracketedHost(authority)
  {
    assert BracketedHost(authority)[1] == 'F';
  }

  /** Where the remote schemes include "s3", the host of `s3://[FE80::1]/x` is not kept. */
  lemma HostNotKept(schemes: set<string>, u: Url)
    requires IsBracketedUrl(u) && "s3" in schemes
    ensures var x := Compose(u); var y := NormalIdentifier(schemes, x);
            && Find(x, Separator) < |x| && Find(y, Separator) < |y|
            && HostSkip(Split(x).authority) > 0 && HostSkip(Split(y).authority) > 0
            && BracketedHost(Split(y).authority) != BracketedHost(Split(x).authority)
  {
    BracketedAuthority(u.authority);
    BracketedCapital(u.authority);
    SimpleUrl(u);
    ComposeParts(u);
    SchemeIsS3(Rest(u));
    OnlyHostNoPackage(u);
    ComposeLacks(u, 'S');
    assert Capital('F');
    HostWithCapital(schemes, Compose(u));
  }

  /** `s3://a@B@h/x` */
  predicate IsTwoAtUrl(u: Url) {
    u.scheme == "s3" && u.authority == "a@B@h" && u.path == "/x" && u.tail == ""
  }

  lemma TwoAtAuthority(authority: string)
    requires authority == "a@B@h"
    ensures Scan(authority, 0, {'@'}) == 1 && AfterLast(authority, '@') == 4
  {
    ScanIs(authority, 0, {'@'}, 1);
    LastIs(authority, 5, '@', 4);
  }

  /** Where the remote schemes include "s3", the userinfo of `s3://a@B@h/x` is not kept. */
  lemma UserNotKept(schemes: set<string>, u: Url)
    requires IsTwoAtUrl(u) && "s3" in schemes
    ensures var x := Compose(u); var y := NormalIdentifier(schemes, x);
            && Find(x, Separator) < |x| && Find(y, Separator) < |y|
            && UserPart(Split(y).authority) != UserPart(Split(x).authority)
  {
    TwoAtAuthority(u.authority);
    SimpleUrl(u);
    ComposeParts(u);
    SchemeIsS3(Rest(u));
    NoBracketNoPackage(u);
    ComposeLacks(u, 'S');
    UserWithCapital(schemes, Compose(u), 2);
  }
}
