/** Format arguments after normalizing. A normalized asset may end in all but the last character of the marker; its
    arguments then start there, 16 characters too early. Which identifiers this happens to, and what it breaks. */
module IdentifierArgs {
  import opened Basics
  import opened Strings
  import opened DotSegments
  import opened Identifier
  import opened IdentifierPackages
  import opened IdentifierUrls
  import opened IdentifierLaws

  /** The marker without its last character. */
  const Half: string := ":SDF_FORMAT_ARGS"

  predicate EndsWith(s: string, w: string) {
    |w| <= |s| && s[|s| - |w|..] == w
  }

  lemma MarkerColons(d: nat)
    requires 0 < d <= 16
    ensures |Marker| == 17 && |Half| == 16 && Marker == Half + ":" && Half == Marker[..16]
    ensures Marker[d] == ':' ==> d == 16
  {
    assert Marker[16] == ':';
  }

  /** An occurrence that starts in `b` and ends in the arguments takes all of the half marker from `b`. */
  lemma Straddles(b: string, suffix: string, k: nat)
    requires At(suffix, 0, Marker) && k < |b| < k + 17 && At(b + suffix, k, Marker)
    ensures k == |b| - 16 && EndsWith(b, Half)
  {
    var x := b + suffix;
    MarkerColons(|b| - k);
    assert x[k..k + 17][|b| - k] == x[|b|] == suffix[0] == suffix[0..17][0] == ':';
    assert b[k..] == x[k..k + 17][..16];
  }

  lemma MarkerFrom(b: string, suffix: string)
    requires At(suffix, 0, Marker) && EndsWith(b, Half)
    ensures At(b + suffix, |b| - 16, Marker)
  {
    var x, k := b + suffix, |b| - 16;
    MarkerColons(16);
    assert suffix[0] == suffix[0..17][0] == ':';
    assert x[k..k + 17] == b[k..] + [suffix[0]];
  }

  /** Where the arguments of a marker-free asset with arguments start. */
  lemma ArgsStart(b: string, suffix: string)
    requires At(suffix, 0, Marker) && !Occurs(b, Marker)
    ensures Find(b + suffix, Marker) == if EndsWith(b, Half) then |b| - 16 else |b|
  {
    var x := b + suffix;
    var r := if EndsWith(b, Half) then |b| - 16 else |b|;
    MarkerColons(16);
    assert x[|b|..|b| + 17] == suffix[0..17];
    if EndsWith(b, Half) {
      MarkerFrom(b, suffix);
    }
    forall k | 0 <= k < r ensures !At(x, k, Marker) {
      if At(x, k, Marker) {
        if k + 17 > |b| {
          Straddles(b, suffix, k);
        } else {
          NotInside(b, suffix, k);
        }
      }
    }
    FindIs(x, Marker, r);
  }

  lemma NotInside(b: string, suffix: string, k: nat)
    requires k + |Marker| <= |b| && At(b + suffix, k, Marker)
    ensures Occurs(b, Marker)
  {
    assert b[k..k + |Marker|] == (b + suffix)[k..k + |Marker|];
    OccursAt(b, k, Marker);
  }

  lemma AssetEndsElsewhere(x: string)
    requires SplitArgs(x).hasArgs
    ensures !EndsWith(SplitArgs(x).assetPath, Half)
  {
    var a := SplitArgs(x);
    SplitArgsFree(x);
    ArgsStart(a.assetPath, a.suffix);
  }

  /** Where the arguments of a normalized identifier start. */
  lemma NormalSplit(b: string, suffix: string)
    requires At(suffix, 0, Marker) && !Occurs(b, Marker)
    ensures !EndsWith(b, Half) ==> SplitArgs(b + suffix) == Args(b, suffix, true)
    ensures EndsWith(b, Half) ==> SplitArgs(b + suffix) == Args(b[..|b| - 16], Half + suffix, true)
  {
    var x := b + suffix;
    ArgsStart(b, suffix);
    if EndsWith(b, Half) {
      var front := b[..|b| - 16];
      assert b == front + Half;
      assert x == front + (Half + suffix);
      assert x[..|b| - 16] == front && x[|b| - 16..] == Half + suffix;
    } else {
      assert x[..|b|] == b && x[|b|..] == suffix;
    }
  }

  // ---------------------------------------------------------------------------
  // Which assets end in the half marker once normalized.
  // ---------------------------------------------------------------------------

  function Last(parts: seq<string>): string
    requires parts != []
  {
    parts[|parts| - 1]
  }

  /** A URL without query, fragment and final slash, whose resolved path ends in the half marker. */
  predicate ExposedUrl(u: Url) {
    && u.tail == "" && !TrailingSlash(u.path)
    && Components(u.path) != [] && EndsWith(Last(Components(u.path)), Half)
  }

  predicate Exposes(schemes: set<string>, asset: string) {
    !ParsePackage(asset).isPackage && IsRemoteUrl(schemes, asset) && ExposedUrl(Split(asset))
  }

  lemma EndHolds(s: string, w: string, k: nat)
    requires k < |s|
    ensures EndsWith(s, w) && |s| - |w| <= k ==> s[k] in w
  {
    if EndsWith(s, w) && |s| - |w| <= k {
      assert s[k] == s[|s| - |w|..][k - (|s| - |w|)];
    }
  }

  lemma EndsInPart(a: string, b: string, w: string)
    requires b != "" && b[0] !in w && w != ""
    ensures EndsWith(a + b, w) <==> EndsWith(b, w)
  {
    var s := a + b;
    assert s[|a|] == b[0];
    EndHolds(s, w, |a|);
    assert |w| <= |b| ==> s[|s| - |w|..] == b[|b| - |w|..];
  }

  lemma EndsWithLast(s: string)
    requires EndsWith(s, Half)
    ensures |s| > 0 && s[|s| - 1] == 'S'
  {
    assert s[|s| - 1] == s[|s| - 16..][15];
  }

  function Init(parts: seq<string>): seq<string>
    requires parts != []
  {
    parts[..|parts| - 1]
  }

  /** The text of an absolute path that ends in component `last`. */
  function PathTo(init: seq<string>, last: string): string {
    (if init == [] then "" else "/" + Join(init)) + ("/" + last)
  }

  lemma PathToIs(parts: seq<string>)
    requires parts != []
    ensures "/" + Join(parts) == PathTo(Init(parts), Last(parts))
  {
    var init := Join(Init(parts));
    assert "/" + (init + ("/" + Last(parts))) == ("/" + init) + ("/" + Last(parts));
  }

  lemma NormalPathEnd(path: string)
    requires IsAbsolute(path)
    ensures var parts := Components(path);
            && Canonical(true, parts)
            && (parts == [] ==> Normalized(path) == "/")
            && (parts != [] ==> Normalized(path) == PathTo(Init(parts), Last(parts)) + (if TrailingSlash(path) then "/" else ""))
  {
    var parts := Components(path);
    NormalizedKeepsMeaning(path);
    RenderIsText(true, parts, TrailingSlash(path));
    if parts != [] {
      PathToIs(parts);
      assert "/" + (Join(parts) + "/") == ("/" + Join(parts)) + "/";
    }
  }

  lemma PathEnds(path: string)
    requires IsAbsolute(path)
    ensures EndsWith(Normalized(path), Half) <==>
            !TrailingSlash(path) && Components(path) != [] && EndsWith(Last(Components(path)), Half)
  {
    var parts := Components(path);
    NormalPathEnd(path);
    if EndsWith(Normalized(path), Half) {
      EndsWithLast(Normalized(path));
    }
    if parts != [] && !TrailingSlash(path) {
      var init, last := Init(parts), Last(parts);
      assert PathTo(init, last) + "" == PathTo(init, last);
      EndsInPart(if init == [] then "" else "/" + Join(init), "/" + last, Half);
      EndsBehind('/', last, Half);
    }
  }

  lemma EndsBehind(c: char, s: string, w: string)
    requires w != "" && c !in w
    ensures EndsWith([c] + s, w) <==> EndsWith(s, w)
  {
    var t := [c] + s;
    EndHolds(t, w, 0);
    assert |w| <= |s| ==> t[|t| - |w|..] == s[|s| - |w|..];
  }

  lemma HostEndsElsewhere(authority: string)
    ensures authority != "" ==> FoldHost(authority)[|authority| - 1] != 'S'
  {
    if authority != "" {
      if Scan(authority, 0, {'@'}) == |authority| - 1 {
        assert authority[|authority| - 1] == '@';
      }
    }
  }

  lemma TailEnds(u: Url, v: Url)
    requires u.tail == v.tail != "" && u.tail[0] in {'?', '#'}
    ensures EndsWith(Compose(u), Half) <==> EndsWith(Compose(v), Half)
  {
    Concatenated(u.scheme + Separator, u.authority, u.path, u.tail);
    Concatenated(v.scheme + Separator, v.authority, v.path, v.tail);
    EndsInPart(((u.scheme + Separator) + u.authority) + u.path, u.tail, Half);
    EndsInPart(((v.scheme + Separator) + v.authority) + v.path, v.tail, Half);
  }

  lemma HostEnds(u: Url)
    requires u.path == "" && u.tail == ""
    ensures !EndsWith(Compose(NormalUrl(u)), Half)
  {
    var v := NormalUrl(u);
    NormalPath(u.path);
    var head := v.scheme + Separator;
    assert v.authority + (v.path + v.tail) == v.authority;
    HostEndsElsewhere(u.authority);
    if EndsWith(head + v.authority, Half) {
      EndsWithLast(head + v.authority);
    }
  }

  lemma UrlEnds(u: Url)
    requires WellFormed(u) && !EndsWith(Compose(u), Half)
    ensures EndsWith(Compose(NormalUrl(u)), Half) <==> ExposedUrl(u)
  {
    var v := NormalUrl(u);
    if u.tail != "" {
      TailEnds(u, v);
    } else if u.path == "" {
      HostEnds(u);
      assert Components("") == [];
    } else {
      var head := v.scheme + Separator;
      NormalPath(u.path);
      assert v.path + v.tail == v.path;
      assert head + (v.authority + v.path) == (head + v.authority) + v.path;
      PathEnds(u.path);
      EndsInPart(head + v.authority, v.path, Half);
    }
  }

  lemma AssetEnds(schemes: set<string>, asset: string)
    requires !EndsWith(asset, Half)
    ensures EndsWith(NormalAsset(schemes, asset), Half) <==> Exposes(schemes, asset)
  {
    var package := ParsePackage(asset);
    if package.isPackage {
      if package.valid {
        NormalPackage(schemes, asset, package.outerAsset, package.innerPath);
        var y := NormalAsset(schemes, asset);
        assert y[|y| - 1] == ']';
        if EndsWith(y, Half) {
          EndsWithLast(y);
        }
      }
    } else {
      NormalPlain(schemes, asset);
      if IsRemoteUrl(schemes, asset) {
        SplitParts(asset);
        UrlEnds(Split(asset));
      }
    }
  }

  // ---------------------------------------------------------------------------
  // What is left of an exposed asset.
  // ---------------------------------------------------------------------------

  /** An exposed asset whose resolved path ends in a component that is a dot segment without the half marker. */
  predicate Slips(schemes: set<string>, asset: string) {
    && Exposes(schemes, asset)
    && var last := Last(Components(Split(asset).path));
       last == "." + Half || last == ".." + Half
  }

  lemma PiecesOfRendered(parts: seq<string>, trailing: bool)
    requires Canonical(true, parts)
    ensures Pieces(Render(true, parts, trailing)) == [""] + parts
  {
    RenderIsText(true, parts, trailing);
    var r, text := Render(true, parts, trailing), Text(parts, trailing);
    assert r == "/" + text && r[1..] == text;
    PiecesAfterSlash(r);
    PiecesOfText(parts, trailing);
  }

  /** A normalized absolute path has no dot segment for a piece. */
  lemma FixedHasNoDots(path: string, piece: string)
    requires IsAbsolute(path) && Normalized(path) == path && piece in Pieces(path)
    ensures piece != "." && piece != ".."
  {
    NormalizedKeepsMeaning(path);
    PiecesOfRendered(Components(path), TrailingSlash(path));
  }

  lemma PathToPieces(init: seq<string>, q: string)
    requires forall i | 0 <= i < |init| :: init[i] != "" && '/' !in init[i]
    requires q != "" && '/' !in q
    ensures q in Pieces(PathTo(init, q))
  {
    if init == [] {
      var p := "/" + q;
      assert "" + p == p && p[1..] == q;
      PiecesAfterSlash(p);
      PiecesOfOne(q);
    } else {
      JoinShape(init);
      PiecesOfTwo("/" + Join(init), q);
    }
  }

  lemma PathToRendered(init: seq<string>, q: string)
    requires Canonical(true, init + [q])
    ensures PathTo(init, q) == Render(true, init + [q], false)
  {
    var parts := init + [q];
    RenderIsText(true, parts, false);
    assert Init(parts) == init && Last(parts) == q;
    PathToIs(parts);
  }

  lemma PathToDirectory(init: seq<string>)
    requires Canonical(true, init)
    ensures PathTo(init, "") == Render(true, init, true)
  {
    RenderIsText(true, init, true);
    assert "/" + "" == "/";
    assert "/" + (Join(init) + "/") == ("/" + Join(init)) + "/";
  }

  lemma RenderedIsFixed(parts: seq<string>, trailing: bool)
    requires Canonical(true, parts)
    ensures Normalized(Render(true, parts, trailing)) == Render(true, parts, trailing)
  {
    RenderReadsBack(true, parts, trailing);
    if parts == [] {
      assert Join(parts) == "";
    }
  }

  /** A path to components in lowest terms is normal unless it ends in a dot segment. */
  lemma PathToIsFixed(init: seq<string>, q: string)
    requires Canonical(true, init) && '/' !in q
    ensures Normalized(PathTo(init, q)) == PathTo(init, q) <==> q != "." && q != ".."
  {
    if q == "" {
      PathToDirectory(init);
      RenderedIsFixed(init, true);
    } else if q == "." || q == ".." {
      PathToPieces(init, q);
      if Normalized(PathTo(init, q)) == PathTo(init, q) {
        FixedHasNoDots(PathTo(init, q), q);
      }
    } else {
      assert Canonical(true, init + [q]);
      PathToRendered(init, q);
      RenderedIsFixed(init + [q], false);
    }
  }

  /** The URL that is left of a normalized exposed one. */
  lemma CutUrl(v: Url, init: seq<string>, q: string)
    requires v.tail == "" && v.path == PathTo(init, q + Half)
    ensures Compose(v) == Compose(v.(path := PathTo(init, q))) + Half
  {
    var before := if init == [] then "" else "/" + Join(init);
    assert before + ("/" + (q + Half)) == (before + ("/" + q)) + Half;
    var head, cut := v.scheme + Separator, PathTo(init, q);
    assert (cut + Half) + "" == (cut + "") + Half;
    Concatenated(head, v.authority, cut + "", Half);
    assert (head + v.authority) + (cut + "") == head + (v.authority + (cut + ""));
  }

  /** A URL over a normal one, cut in its last component, is still remote and no package; normalizing it only
      concerns the path. */
  lemma CutNormal(schemes: set<string>, v: Url, cut: string)
    requires WellFormed(v) && Lower(v.scheme) == v.scheme && FoldHost(v.authority) == v.authority && v.tail == ""
    requires !ParsePackage(Compose(v)).isPackage && IsRemote(schemes, Compose(v))
    requires cut != "" && cut <= v.path
    ensures NormalAsset(schemes, Compose(v.(path := cut))) == Compose(v.(path := cut)) <==> Normalized(cut) == cut
  {
    var w := v.(path := cut);
    assert WellFormed(w);
    CutIsPlain(v, cut);
    SchemeOf(v.scheme, Rest(v));
    SchemeOf(w.scheme, Rest(w));
    ComposeParts(w);
    NormalPlain(schemes, Compose(w));
    NormalUrlWellFormed(w);
    ComposeParts(NormalUrl(w));
  }

  lemma CutIsPlain(v: Url, cut: string)
    requires WellFormed(v) && v.tail == "" && !ParsePackage(Compose(v)).isPackage
    requires cut != "" && cut <= v.path
    ensures !ParsePackage(Compose(v.(path := cut))).isPackage
  {
    var w := v.(path := cut);
    assert WellFormed(w);
    var x, y := Compose(v), Compose(w);
    assert x + "" == x && y + "" == y;
    StartOf(v, "");
    StartOf(w, "");
    NoPackageExactly(x);
    NoPackageExactly(y);
    ComposePrefix(v, cut);
  }

  lemma ComposePrefix(v: Url, cut: string)
    requires v.tail == "" && cut <= v.path
    ensures Compose(v.(path := cut)) <= Compose(v)
  {
    var rest := v.path[|cut|..];
    assert v.path + "" == (cut + "") + rest;
    var head := v.scheme + Separator;
    Concatenated(head, v.authority, cut + "", rest);
    assert (head + v.authority) + (cut + "") == head + (v.authority + (cut + ""));
  }

  /** The text ends in the half marker, and what precedes it is normal unless it ends in a dot segment. */
  ghost predicate CutIsNormal(schemes: set<string>, y: string, q: string) {
    && EndsWith(y, Half)
    && (NormalAsset(schemes, y[..|y| - 16]) == y[..|y| - 16] <==> q != "." && q != "..")
  }

  lemma ExposedNormalUrl(schemes: set<string>, v: Url, init: seq<string>, q: string)
    requires WellFormed(v) && Lower(v.scheme) == v.scheme && FoldHost(v.authority) == v.authority
    requires v.tail == "" && v.path == PathTo(init, q + Half)
    requires !ParsePackage(Compose(v)).isPackage && IsRemote(schemes, Compose(v))
    requires Canonical(true, init) && '/' !in q
    ensures CutIsNormal(schemes, Compose(v), q)
  {
    CutUrl(v, init, q);
    CutPrefix(init, q);
    var y, b := Compose(v), Compose(v.(path := PathTo(init, q)));
    assert y[..|y| - 16] == b && y[|y| - 16..] == Half;
    CutNormal(schemes, v, PathTo(init, q));
    PathToIsFixed(init, q);
  }

  lemma ExposedPath(path: string) returns (init: seq<string>, q: string)
    requires path == "" || IsAbsolute(path)
    requires !TrailingSlash(path) && Components(path) != [] && EndsWith(Last(Components(path)), Half)
    ensures Normalized(path) == PathTo(init, q + Half) && Canonical(true, init) && '/' !in q
    ensures Last(Components(path)) == q + Half
  {
    assert path != "" by {
      assert Components("") == [];
    }
    NormalPathEnd(path);
    var parts := Components(path);
    var last := Last(parts);
    init, q := Init(parts), last[..|last| - 16];
    assert last == q + Half;
    assert PathTo(init, last) + "" == PathTo(init, last);
  }

  lemma NormalUrlIsNormal(schemes: set<string>, u: Url)
    requires WellFormed(u) && !ParsePackage(Compose(u)).isPackage && IsRemote(schemes, Compose(u))
    ensures var v := NormalUrl(u);
            && WellFormed(v) && Lower(v.scheme) == v.scheme && FoldHost(v.authority) == v.authority
            && !ParsePackage(Compose(v)).isPackage && IsRemote(schemes, Compose(v))
  {
    NormalUrlWellFormed(u);
    LowerTwice(u.scheme);
    FoldHostTwice(u.authority);
    NormalUrlNoPackage(u);
    NormalIsRemote(schemes, u);
  }

  lemma ExposedNormal(schemes: set<string>, u: Url, v: Url, init: seq<string>, q: string)
    requires WellFormed(u) && u.tail == "" && v == NormalUrl(u) && v.path == PathTo(init, q + Half)
    requires !ParsePackage(Compose(u)).isPackage && IsRemote(schemes, Compose(u))
    requires Canonical(true, init) && '/' !in q
    ensures CutIsNormal(schemes, Compose(v), q)
  {
    NormalUrlIsNormal(schemes, u);
    ExposedNormalUrl(schemes, v, init, q);
  }

  lemma IsSlipping(q: string)
    ensures q + Half == "." + Half || q + Half == ".." + Half <==> q == "." || q == ".."
  {
    SameFront(q, ".", Half);
    SameFront(q, "..", Half);
  }

  /** What precedes the half marker in a normalized exposed URL is normal unless it ends in a dot segment. */
  lemma ExposedCut(schemes: set<string>, u: Url) returns (q: string)
    requires WellFormed(u) && ExposedUrl(u)
    requires !ParsePackage(Compose(u)).isPackage && IsRemote(schemes, Compose(u))
    ensures Last(Components(u.path)) == q + Half
    ensures CutIsNormal(schemes, Compose(NormalUrl(u)), q)
  {
    var init;
    init, q := ExposedPath(u.path);
    ExposedNormal(schemes, u, NormalUrl(u), init, q);
  }

  lemma CutPrefix(init: seq<string>, q: string)
    ensures PathTo(init, q) <= PathTo(init, q + Half)
  {
    var before := if init == [] then "" else "/" + Join(init);
    assert before + ("/" + (q + Half)) == (before + ("/" + q)) + Half;
  }

  lemma FixedExactly(schemes: set<string>, x: string, front: string, suffix: string)
    requires x == front + suffix && SplitArgs(x) == Args(front, suffix, true)
    ensures NormalIdentifier(schemes, x) == x <==> NormalAsset(schemes, front) == front
  {
    SameFront(NormalAsset(schemes, front), front, suffix);
  }

  lemma SecondPass(schemes: set<string>, y: string, suffix: string)
    requires At(suffix, 0, Marker) && !Occurs(y, Marker) && NormalAsset(schemes, y) == y
    ensures NormalIdentifier(schemes, y + suffix) == y + suffix <==>
            (EndsWith(y, Half) ==> NormalAsset(schemes, y[..|y| - 16]) == y[..|y| - 16])
  {
    NormalSplit(y, suffix);
    var a := SplitArgs(y + suffix);
    SplitArgsFree(y + suffix);
    FixedExactly(schemes, y + suffix, a.assetPath, a.suffix);
  }

  /** Normalizing an identifier twice is normalizing it once, except where it has format arguments and a path that
      resolves to one ending in a dot segment and the half marker. */
  lemma NormalizeTwiceExactly(schemes: set<string>, x: string)
    ensures NormalIdentifier(schemes, NormalIdentifier(schemes, x)) == NormalIdentifier(schemes, x) <==>
            !(SplitArgs(x).hasArgs && Slips(schemes, SplitArgs(x).assetPath))
  {
    var a := SplitArgs(x);
    SplitArgsFree(x);
    if !a.hasArgs {
      NormalizeTwice(schemes, x);
    } else {
      NormalAssetFree(schemes, a.assetPath);
      NormalAssetTwice(schemes, a.assetPath);
      SecondPass(schemes, NormalAsset(schemes, a.assetPath), a.suffix);
      AssetEndsElsewhere(x);
      AssetEnds(schemes, a.assetPath);
      if Exposes(schemes, a.assetPath) {
        SplitParts(a.assetPath);
        NormalPlain(schemes, a.assetPath);
        var q := ExposedCut(schemes, Split(a.assetPath));
        IsSlipping(q);
      }
    }
  }

  lemma SameFront(p: string, q: string, s: string)
    ensures p + s == q + s <==> p == q
  {
    if p + s == q + s {
      assert p == (p + s)[..|p|] && q == (q + s)[..|q|];
    }
  }

  /** A probe of an identifier and a write to it concern the same cache key, except where it has format arguments
      and a path that resolves to one ending in the half marker. */
  lemma KeyIsTargetExactly(schemes: set<string>, x: string, t: string)
    requires StorageWriteTarget(schemes, x) == Some(t)
    ensures ExistenceKey(schemes, x) == t <==> !(SplitArgs(x).hasArgs && Exposes(schemes, SplitArgs(x).assetPath))
  {
    var a := SplitArgs(x);
    SplitArgsFree(x);
    NormalOfFree(schemes, a.assetPath);
    NormalAssetFree(schemes, a.assetPath);
    NormalPlainTwice(schemes, a.assetPath);
    assert t == NormalAsset(schemes, a.assetPath);
    if !a.hasArgs {
      assert t + a.suffix == t;
      ProviderOfFree(t);
    } else {
      NormalSplit(t, a.suffix);
      AssetEndsElsewhere(x);
      AssetEnds(schemes, a.assetPath);
      ProviderIsShorter(t + a.suffix);
    }
  }

  lemma ProviderIsShorter(x: string)
    ensures |StorageProviderIdentifier(x)| <= |SplitArgs(x).assetPath|
  {
  }

  // ---------------------------------------------------------------------------
  // An identifier it happens to.
  // ---------------------------------------------------------------------------

  lemma DotAfter(c: string)
    requires c != "" && c != "." && c != ".." && '/' !in c
    ensures Components(("/" + c) + ("/" + ".")) == [c]
  {
    PiecesOfTwo("/" + c, ".");
    assert ("/" + c)[1..] == c;
    PiecesAfterSlash("/" + c);
    PiecesOfOne(c);
    assert ([""] + [c]) + ["."] == [""] + ([c] + ["."]);
    WalkStep(true, [], "", [c] + ["."]);
    WalkStep(true, [], c, ["."]);
    assert [] + [c] == [c];
    assert ["."] + [] == ["."];
    WalkStep(true, [c], ".", []);
  }

  lemma NoBracketNoPackage(u: Url)
    requires '[' !in u.scheme && '[' !in u.authority && '[' !in u.path && '[' !in u.tail
    ensures !ParsePackage(Compose(u)).isPackage
  {
    assert '[' !in u.path + u.tail;
    assert '[' !in Rest(u);
    assert '[' !in u.scheme + Separator;
    assert '[' !in Compose(u);
    NoPackageExactly(Compose(u));
  }

  lemma SlipsFrom(schemes: set<string>, u: Url)
    requires WellFormed(u) && u.tail == "" && !TrailingSlash(u.path) && Components(u.path) == [".." + Half]
    requires !ParsePackage(Compose(u)).isPackage && IsRemote(schemes, Compose(u))
    ensures Slips(schemes, Compose(u))
  {
    ComposeParts(u);
    var c := ".." + Half;
    assert c[2..] == Half;
  }

  lemma FailsFor(schemes: set<string>, u: Url)
    requires Slips(schemes, Compose(u)) && !Occurs(Compose(u), Marker) && !EndsWith(Compose(u), Half)
    ensures var x := Compose(u) + Marker;
            NormalIdentifier(schemes, NormalIdentifier(schemes, x)) != NormalIdentifier(schemes, x)
  {
    assert Marker[0..17] == Marker;
    NormalSplit(Compose(u), Marker);
    NormalizeTwiceExactly(schemes, Compose(u) + Marker);
  }

  lemma SchemeIsS3(rest: string)
    ensures EndsFirst("s3") && UriScheme(("s3" + Separator) + rest) == "s3"
  {
    forall k | 0 <= k < 2 ensures !At("s3" + Separator, k, Separator) {
      AtSeparator("s3" + Separator, k);
    }
    SchemeOf("s3", rest);
    var x := "s3" + ":";
    ScanIs(x, 0, {':'}, 2);
    assert x[..2] == "s3" && Lower("s3") == "s3";
  }

  /** `s3://h/..:SDF_FORMAT_ARGS/.` */
  predicate IsSlippingUrl(u: Url) {
    u.scheme == "s3" && u.authority == "h" && u.path == ("/" + (".." + Half)) + ("/" + ".") && u.tail == ""
  }

  lemma SlippingFree(u: Url)
    requires IsSlippingUrl(u)
    ensures !Occurs(Compose(u), Marker) && !EndsWith(Compose(u), Half)
  {
    var a := Compose(u);
    assert a[|a| - 1] == '.';
    if EndsWith(a, Half) {
      EndsWithLast(a);
    }
    assert |a| == 27;
    forall i | 0 <= i <= |a| ensures !At(a, i, Marker) {
      if i + 17 <= |a| {
        assert a[i..i + 17][0] == a[i] && Marker[0] == ':';
        assert a[i..i + 17][1] == a[i + 1] && Marker[1] == 'S';
        assert a[i..i + 17][16] == a[i + 16] && Marker[16] == ':';
      }
    }
  }

  lemma SlippingComponents(c: string)
    requires c == ".." + Half
    ensures Components(("/" + c) + ("/" + ".")) == [c]
  {
    assert |c| == 18;
    DotAfter(c);
  }

  lemma SlippingWellFormed(u: Url)
    requires IsSlippingUrl(u)
    ensures WellFormed(u) && !TrailingSlash(u.path)
  {
    SchemeIsS3("");
    assert Free(".." + Half, {'?', '#'});
    assert Free(u.path, {'?', '#'});
  }

  lemma SlippingRemote(schemes: set<string>, u: Url)
    requires IsSlippingUrl(u) && "s3" in schemes
    ensures IsRemote(schemes, Compose(u))
  {
    SchemeIsS3(Rest(u));
  }

  lemma SlippingPlain(u: Url)
    requires IsSlippingUrl(u)
    ensures !ParsePackage(Compose(u)).isPackage
  {
    assert '[' !in ".." + Half;
    assert '[' !in u.path;
    NoBracketNoPackage(u);
  }

  lemma SlippingSlips(schemes: set<string>, u: Url)
    requires IsSlippingUrl(u) && "s3" in schemes
    ensures Slips(schemes, Compose(u))
  {
    SlippingWellFormed(u);
    SlippingComponents(".." + Half);
    SlippingRemote(schemes, u);
    SlippingPlain(u);
    SlipsFrom(schemes, u);
  }

  /** Where the remote schemes include "s3", normalizing twice is not normalizing once for
      `s3://h/..:SDF_FORMAT_ARGS/.:SDF_FORMAT_ARGS:`. */
  lemma NormalizeTwiceFails(schemes: set<string>, u: Url)
    requires IsSlippingUrl(u) && "s3" in schemes
    ensures var x := Compose(u) + Marker;
            NormalIdentifier(schemes, NormalIdentifier(schemes, x)) != NormalIdentifier(schemes, x)
  {
    SlippingSlips(schemes, u);
    SlippingFree(u);
    FailsFor(schemes, u);
  }
}
