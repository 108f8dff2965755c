/** What dot segments and slashes mean in a path, told on paths alone. */
module DotLaws {
  import opened Strings
  import opened DotSegments

  /** The name of an entry of a directory. */
  predicate IsName(x: string) {
    x != "" && x != "." && x != ".." && '/' !in x
  }

  lemma PiecesNext(first: string, rest: string, q: string)
    requires '/' !in first && Pieces(rest + q) == Pieces(rest) + Pieces(q)
    ensures Pieces((first + ("/" + rest)) + q) == Pieces(first + ("/" + rest)) + Pieces(q)
  {
    assert ("/" + rest) + q == "/" + (rest + q);
    assert (first + ("/" + rest)) + q == first + ("/" + (rest + q));
    PiecesFrom(first, rest + q);
    PiecesFrom(first, rest);
    Regroup(first, Pieces(rest), Pieces(q));
  }

  lemma PiecesOfNone(rest: string, q: string)
    requires rest == ""
    ensures Pieces(rest + q) == Pieces(rest) + Pieces(q)
  {
    assert rest + q == q;
    assert Pieces(rest) == [];
  }

  lemma {:induction false} PiecesTogether(p: string, q: string)
    requires TrailingSlash(p)
    ensures Pieces(p + q) == Pieces(p) + Pieces(q)
    decreases |p|
  {
    var e := Scan(p, 0, {'/'});
    var first, rest := p[..e], p[e + 1..];
    SlashSplits(p, e);
    if rest == "" {
      PiecesOfNone(rest, q);
    } else {
      PiecesTogether(rest, q);
    }
    PiecesNext(first, rest, q);
  }

  lemma {:induction false} WalkTogether(absolute: bool, stack: seq<string>, a: seq<string>, b: seq<string>)
    ensures Walk(absolute, stack, a + b) == Walk(absolute, Walk(absolute, stack, a), b)
    decreases |a|
  {
    if a == [] {
      assert a + b == b;
    } else {
      assert (a + b)[1..] == a[1..] + b;
      WalkTogether(absolute, Enter(absolute, stack, a[0]), a[1..], b);
    }
  }

  /** Behind a slash a path goes on from where it has come to. */
  lemma GoesOn(p: string, q: string)
    requires TrailingSlash(p)
    ensures Components(p + q) == Walk(IsAbsolute(p), Components(p), Pieces(q))
  {
    PiecesTogether(p, q);
    WalkTogether(IsAbsolute(p), [], Pieces(p), Pieces(q));
  }

  lemma OnePiece(p: string, piece: string)
    requires TrailingSlash(p) && piece != "" && '/' !in piece
    ensures Components(p + piece) == Enter(IsAbsolute(p), Components(p), piece)
  {
    PiecesOfOne(piece);
    GoesOn(p, piece);
    WalkStep(IsAbsolute(p), Components(p), piece, []);
    assert [piece] + [] == [piece];
  }

  lemma PieceAndMore(p: string, piece: string, q: string)
    requires TrailingSlash(p) && '/' !in piece
    ensures Components(p + (piece + ("/" + q))) == Walk(IsAbsolute(p), Enter(IsAbsolute(p), Components(p), piece), Pieces(q))
  {
    PiecesFrom(piece, q);
    GoesOn(p, piece + ("/" + q));
    WalkStep(IsAbsolute(p), Components(p), piece, Pieces(q));
  }

  lemma EndsAlike(p: string, piece: string, q: string)
    requires TrailingSlash(p)
    ensures TrailingSlash(p + (piece + ("/" + q))) == TrailingSlash(p + q)
  {
  }

  /** A segment that leads nowhere may be left out. */
  lemma LeavesOut(p: string, piece: string, q: string)
    requires TrailingSlash(p) && '/' !in piece && Enter(IsAbsolute(p), Components(p), piece) == Components(p)
    ensures Normalized(p + (piece + ("/" + q))) == Normalized(p + q)
  {
    PieceAndMore(p, piece, q);
    GoesOn(p, q);
    EndsAlike(p, piece, q);
    NormalizedIsCanonical(p + (piece + ("/" + q)), p + q);
  }

  /** A name leads one level down. */
  lemma NameGoesDown(p: string, x: string)
    requires TrailingSlash(p) && IsName(x)
    ensures Components(p + x) == Components(p) + [x]
  {
    OnePiece(p, x);
  }

  lemma ParentPops(absolute: bool, stack: seq<string>, x: string)
    requires x != ".."
    ensures Enter(absolute, stack + [x], "..") == stack
  {
    assert (stack + [x])[..|stack|] == stack;
  }

  lemma ParentGoesBack(p: string, x: string, parent: string, q: string)
    requires TrailingSlash(p) && IsName(x) && parent == ".."
    ensures Components(p + (x + ("/" + (parent + ("/" + q))))) == Components(p + q)
    ensures Components(p + (x + ("/" + parent))) == Components(p)
  {
    ParentPops(IsAbsolute(p), Components(p), x);
    PieceAndMore(p, x, parent + ("/" + q));
    PiecesFrom(parent, q);
    WalkStep(IsAbsolute(p), Components(p) + [x], parent, Pieces(q));
    GoesOn(p, q);
    PieceAndMore(p, x, parent);
    PiecesOfOne(parent);
    WalkStep(IsAbsolute(p), Components(p) + [x], parent, []);
    assert [parent] + [] == [parent];
  }

  /** A parent segment undoes the name before it, and nothing else. */
  lemma ParentUndoes(p: string, x: string, parent: string, q: string)
    requires TrailingSlash(p) && IsName(x) && parent == ".."
    ensures Components(p + (x + ("/" + parent))) == Components(p)
    ensures Normalized(p + (x + ("/" + (parent + ("/" + q))))) == Normalized(p + q)
  {
    ParentGoesBack(p, x, parent, q);
    EndsAlike(p, x, parent + ("/" + q));
    EndsAlike(p, parent, q);
    NormalizedIsCanonical(p + (x + ("/" + (parent + ("/" + q)))), p + q);
  }

  /** A dot segment leads nowhere. */
  lemma DotStays(p: string, dot: string, q: string)
    requires TrailingSlash(p) && dot == "."
    ensures Components(p + dot) == Components(p)
    ensures Normalized(p + (dot + ("/" + q))) == Normalized(p + q)
  {
    OnePiece(p, dot);
    LeavesOut(p, dot, q);
  }

  /** Nor does a second slash. */
  lemma SecondSlash(p: string, q: string)
    requires TrailingSlash(p)
    ensures Normalized(p + ("/" + q)) == Normalized(p + q)
  {
    LeavesOut(p, "", q);
    assert "" + ("/" + q) == "/" + q;
  }

  /** The root is its own parent. */
  lemma RootIsItsParent(p: string, parent: string, q: string)
    requires TrailingSlash(p) && IsAbsolute(p) && Components(p) == [] && parent == ".."
    ensures Normalized(p + (parent + ("/" + q))) == Normalized(p + q)
  {
    LeavesOut(p, parent, q);
  }

  lemma SlashIsRoot()
    ensures TrailingSlash("/") && IsAbsolute("/") && Components("/") == []
  {
    PiecesAfterSlash("/");
    assert "/"[1..] == "";
    WalkStep(true, [], "", []);
  }

  /** `/../` is `/`. */
  lemma AboveTheRoot(parent: string, q: string)
    requires parent == ".."
    ensures Normalized("/" + (parent + ("/" + q))) == Normalized("/" + q)
  {
    SlashIsRoot();
    RootIsItsParent("/", parent, q);
  }

  /** `n` times the same segment and a slash. */
  function Steps(segment: string, n: nat): string {
    if n == 0 then "" else Steps(segment, n - 1) + (segment + ("/" + ""))
  }

  ghost predicate AllAre(parts: seq<string>, n: nat, part: string) {
    |parts| == n && forall i | 0 <= i < n :: parts[i] == part
  }

  lemma OneParent(parent: string)
    requires parent == ".."
    ensures var p := parent + ("/" + ""); TrailingSlash(p) && !IsAbsolute(p) && Components(p) == [parent]
  {
    PiecesFrom(parent, "");
    WalkStep(false, [], parent, []);
    assert Walk(false, [parent], []) == [parent];
  }

  lemma OneParentMore(p: string, parent: string, n: nat)
    requires parent == ".." && TrailingSlash(p) && !IsAbsolute(p) && n > 0 && AllAre(Components(p), n, parent)
    ensures var more := p + (parent + ("/" + ""));
            TrailingSlash(more) && !IsAbsolute(more) && AllAre(Components(more), n + 1, parent)
  {
    PieceAndMore(p, parent, "");
    assert Components(p)[n - 1] == parent;
  }

  /** A relative path keeps the parent segments it starts with. */
  lemma {:induction false} ParentsStay(parent: string, n: nat)
    requires n > 0 && parent == ".."
    ensures var p := Steps(parent, n); !IsAbsolute(p) && TrailingSlash(p) && AllAre(Components(p), n, parent)
  {
    if n == 1 {
      OneParent(parent);
      assert Steps(parent, 0) + (parent + ("/" + "")) == parent + ("/" + "");
    } else {
      ParentsStay(parent, n - 1);
      OneParentMore(Steps(parent, n - 1), parent, n - 1);
    }
  }
}
