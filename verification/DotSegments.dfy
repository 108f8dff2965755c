/** `normalizeDotSegments`: dot segments and duplicate slashes of a path. */
module DotSegments {
  import opened Strings

  /** The pieces between slashes, as `std::getline` yields them: no piece after a final slash. */
  function Pieces(path: string): seq<string>
    decreases |path|
  {
    if path == "" then []
    else
      var e := Scan(path, 0, {'/'});
      [path[..e]] + (if e < |path| then Pieces(path[e + 1..]) else [])
  }

  /** What one piece does to the stack of path components. */
  function Enter(absolute: bool, stack: seq<string>, piece: string): seq<string> {
    if piece == "" || piece == "." then stack
    else if piece == ".." then
      if |stack| > 0 && stack[|stack| - 1] != ".." then stack[..|stack| - 1]
      else if !absolute then stack + [piece]
      else stack
    else stack + [piece]
  }

  /** Walking along pieces, starting from a stack of components. */
  function Walk(absolute: bool, stack: seq<string>, pieces: seq<string>): seq<string>
    decreases |pieces|
  {
    if pieces == [] then stack else Walk(absolute, Enter(absolute, stack, pieces[0]), pieces[1..])
  }

  predicate IsAbsolute(path: string) {
    path != "" && path[0] == '/'
  }

  predicate TrailingSlash(path: string) {
    path != "" && path[|path| - 1] == '/'
  }

  /** The meaning of a path: where it leads. */
  function Components(path: string): seq<string> {
    Walk(IsAbsolute(path), [], Pieces(path))
  }

  function Join(parts: seq<string>): string {
    if parts == [] then "" else if |parts| == 1 then parts[0] else Join(parts[..|parts| - 1]) + ("/" + parts[|parts| - 1])
  }

  function Render(absolute: bool, parts: seq<string>, trailing: bool): string {
    var result := (if absolute then "/" else "") + Join(parts);
    if trailing && result != "" && result[|result| - 1] != '/' then result + "/" else result
  }

  function Normalized(path: string): string {
    Render(IsAbsolute(path), Components(path), TrailingSlash(path))
  }

  /** The loops of `normalizeDotSegments`. */
  method NormalizeDotSegments(path: string) returns (result: string)
    ensures result == Normalized(path)
  {
    var absolute := path != "" && path[0] == '/';
    var trailing := path != "" && path[|path| - 1] == '/';
    var parts: seq<string> := [];
    var pos := 0;
    while pos < |path|
      invariant 0 <= pos <= |path|
      invariant Walk(absolute, parts, Pieces(path[pos..])) == Components(path)
    {
      var end := Scan(path, pos, {'/'});
      var part := path[pos..end];
      NextPiece(path, pos, end);
      pos := if end < |path| then end + 1 else end;
      WalkStep(absolute, parts, part, Pieces(path[pos..]));
      if part == "" || part == "." {
      } else if part == ".." {
        if parts != [] && parts[|parts| - 1] != ".." {
          parts := parts[..|parts| - 1];
        } else if !absolute {
          parts := parts + [part];
        }
      } else {
        parts := parts + [part];
      }
    }
    result := if absolute then "/" else "";
    ghost var lead := result;
    for index := 0 to |parts|
      invariant result == lead + Join(parts[..index])
    {
      JoinStep(lead, parts, index);
      if index > 0 {
        result := result + "/";
      }
      result := result + parts[index];
    }
    assert parts[..|parts|] == parts;
    if trailing && result != "" && result[|result| - 1] != '/' {
      result := result + "/";
    }
    if result == "" && absolute {
      result := "/";
    }
  }

  lemma WalkStep(absolute: bool, stack: seq<string>, piece: string, rest: seq<string>)
    ensures Walk(absolute, stack, [piece] + rest) == Walk(absolute, Enter(absolute, stack, piece), rest)
  {
    assert ([piece] + rest)[1..] == rest;
  }

  lemma JoinStep(lead: string, parts: seq<string>, index: nat)
    requires index < |parts|
    ensures lead + Join(parts[..index + 1]) ==
            (if index > 0 then (lead + Join(parts[..index])) + "/" else lead + Join(parts[..index])) + parts[index]
  {
    assert parts[..index + 1][..index] == parts[..index];
    var init := Join(parts[..index]);
    assert lead + (init + ("/" + parts[index])) == ((lead + init) + "/") + parts[index];
  }

  lemma NextPiece(path: string, pos: nat, end: nat)
    requires pos < |path| && pos <= end <= |path| && (end < |path| ==> path[end] == '/')
    requires forall k | pos <= k < end :: path[k] != '/'
    ensures Pieces(path[pos..]) == [path[pos..end]] + Pieces(path[if end < |path| then end + 1 else end..])
  {
    ScanIs(path[pos..], 0, {'/'}, end - pos);
    assert path[pos..][..end - pos] == path[pos..end];
    if end < |path| {
      assert path[pos..][end - pos + 1..] == path[end + 1..];
    }
  }

  // ---------------------------------------------------------------------------
  // Meaning and canonical form.
  // ---------------------------------------------------------------------------

  /** A stack of components in lowest terms: no empty or dot component, and parent steps only where a relative
      path starts with them. */
  ghost predicate Canonical(absolute: bool, stack: seq<string>) {
    && (forall i | 0 <= i < |stack| :: stack[i] != "" && stack[i] != "." && '/' !in stack[i])
    && (absolute ==> ".." !in stack)
    && (forall i, j | 0 <= i < j < |stack| && stack[j] == ".." :: stack[i] == "..")
  }

  lemma {:induction false} WalkIsCanonical(absolute: bool, stack: seq<string>, pieces: seq<string>)
    requires Canonical(absolute, stack) && forall p | p in pieces :: '/' !in p
    ensures Canonical(absolute, Walk(absolute, stack, pieces))
    decreases |pieces|
  {
    if pieces != [] {
      var next := Enter(absolute, stack, pieces[0]);
      assert pieces[0] in pieces;
      assert Canonical(absolute, next);
      WalkIsCanonical(absolute, next, pieces[1..]);
    }
  }

  /** Walking along components in lowest terms adds exactly these. */
  lemma {:induction false} WalkAlongCanonical(absolute: bool, stack: seq<string>, parts: seq<string>)
    requires Canonical(absolute, stack + parts)
    ensures Walk(absolute, stack, parts) == stack + parts
    decreases |parts|
  {
    if parts == [] {
      assert stack + parts == stack;
    } else {
      assert (stack + parts)[|stack|] == parts[0];
      assert |stack| > 0 ==> (stack + parts)[|stack| - 1] == stack[|stack| - 1];
      assert stack + [parts[0]] + parts[1..] == stack + parts;
      WalkAlongCanonical(absolute, stack + [parts[0]], parts[1..]);
    }
  }

  lemma {:induction false} PiecesHaveNoSlash(path: string, i: nat)
    requires i < |Pieces(path)|
    ensures '/' !in Pieces(path)[i]
    decreases |path|
  {
    var e := Scan(path, 0, {'/'});
    if i > 0 {
      PiecesHaveNoSlash(path[e + 1..], i - 1);
    }
  }

  lemma PiecesOfOne(s: string)
    requires s != "" && '/' !in s
    ensures Pieces(s) == [s]
  {
    ScanIs(s, 0, {'/'}, |s|);
    assert s[..|s|] == s;
  }

  lemma Regroup(piece: string, a: seq<string>, b: seq<string>)
    ensures [piece] + (a + b) == ([piece] + a) + b
  {
  }

  /** The first piece of a path, and the others. */
  lemma PiecesFrom(first: string, rest: string)
    requires '/' !in first
    ensures Pieces(first + ("/" + rest)) == [first] + Pieces(rest)
  {
    var s := first + ("/" + rest);
    ScanIs(s, 0, {'/'}, |first|);
    assert s[..|first|] == first && s[|first| + 1..] == rest;
  }

  lemma SlashSplits(s: string, e: nat)
    requires e == Scan(s, 0, {'/'}) < |s|
    ensures s == s[..e] + ("/" + s[e + 1..]) && '/' !in s[..e]
  {
    var behind := s[e..];
    assert behind[0] == '/' && behind[1..] == s[e + 1..];
    assert behind == "/" + behind[1..];
    assert s == s[..e] + behind;
  }

  lemma AppendBehind(first: string, rest: string, t: string)
    ensures (first + ("/" + rest)) + ("/" + t) == first + ("/" + (rest + ("/" + t)))
  {
    assert ("/" + rest) + ("/" + t) == "/" + (rest + ("/" + t));
  }

  /** The pieces of a path with a piece in front, when those of the rest are known. */
  lemma PiecesBehind(first: string, rest: string, t: string)
    requires '/' !in first && Pieces(rest + ("/" + t)) == Pieces(rest) + Pieces(t)
    ensures Pieces((first + ("/" + rest)) + ("/" + t)) == Pieces(first + ("/" + rest)) + Pieces(t)
  {
    AppendBehind(first, rest, t);
    PiecesFrom(first, rest + ("/" + t));
    PiecesFrom(first, rest);
    Regroup(first, Pieces(rest), Pieces(t));
  }

  /** A slash after text that does not end in one separates the pieces. */
  lemma {:induction false} PiecesAppend(s: string, t: string)
    requires s != "" && !TrailingSlash(s)
    ensures Pieces(s + ("/" + t)) == Pieces(s) + Pieces(t)
    decreases |s|
  {
    var e := Scan(s, 0, {'/'});
    if e < |s| {
      var first, rest := s[..e], s[e + 1..];
      SlashSplits(s, e);
      PiecesAppend(rest, t);
      PiecesBehind(first, rest, t);
    } else {
      PiecesFrom(s, t);
      PiecesOfOne(s);
    }
  }

  lemma PiecesAfterSlash(s: string)
    requires IsAbsolute(s)
    ensures Pieces(s) == [""] + Pieces(s[1..])
  {
    NextPiece(s, 0, 0);
    assert s[0..] == s;
  }

  lemma {:induction false} JoinShape(parts: seq<string>)
    requires parts != [] && forall i | 0 <= i < |parts| :: parts[i] != "" && '/' !in parts[i]
    ensures Join(parts) != "" && !IsAbsolute(Join(parts)) && !TrailingSlash(Join(parts))
  {
    if |parts| > 1 {
      JoinShape(parts[..|parts| - 1]);
    }
  }

  lemma PiecesOfTwo(init: string, last: string)
    requires init != "" && !TrailingSlash(init) && last != "" && '/' !in last
    ensures Pieces(init + ("/" + last)) == Pieces(init) + [last]
  {
    PiecesOfOne(last);
    PiecesAppend(init, last);
  }

  lemma PiecesOfMore(front: seq<string>, last: string)
    requires front != [] && forall i | 0 <= i < |front| :: front[i] != "" && '/' !in front[i]
    requires last != "" && '/' !in last
    ensures Pieces(Join(front + [last])) == Pieces(Join(front)) + [last]
  {
    assert (front + [last])[..|front|] == front;
    JoinShape(front);
    PiecesOfTwo(Join(front), last);
  }

  lemma {:induction false} PiecesOfJoin(parts: seq<string>)
    requires forall i | 0 <= i < |parts| :: parts[i] != "" && '/' !in parts[i]
    ensures Pieces(Join(parts)) == parts
    decreases |parts|
  {
    if parts != [] {
      var front, last := parts[..|parts| - 1], parts[|parts| - 1];
      assert parts == front + [last];
      PiecesOfJoin(front);
      PiecesOfNext(front, last);
    }
  }

  lemma PiecesOfNext(front: seq<string>, last: string)
    requires forall i | 0 <= i < |front| :: front[i] != "" && '/' !in front[i]
    requires last != "" && '/' !in last && Pieces(Join(front)) == front
    ensures Pieces(Join(front + [last])) == front + [last]
  {
    if front == [] {
      assert Join([last]) == last && [] + [last] == [last];
      PiecesOfOne(last);
    } else {
      PiecesOfMore(front, last);
    }
  }

  /** The text of a stack after the leading slash, if any. */
  function Text(parts: seq<string>, trailing: bool): string {
    if parts != [] && trailing then Join(parts) + "/" else Join(parts)
  }

  lemma PiecesOfText(parts: seq<string>, trailing: bool)
    requires forall i | 0 <= i < |parts| :: parts[i] != "" && '/' !in parts[i]
    ensures Pieces(Text(parts, trailing)) == parts
  {
    PiecesOfJoin(parts);
    if parts != [] && trailing {
      JoinShape(parts);
      PiecesAppend(Join(parts), "");
      assert "/" + "" == "/";
    }
  }

  lemma RenderIsText(absolute: bool, parts: seq<string>, trailing: bool)
    requires forall i | 0 <= i < |parts| :: parts[i] != "" && '/' !in parts[i]
    ensures Render(absolute, parts, trailing) == (if absolute then "/" else "") + Text(parts, trailing)
  {
    if parts != [] {
      JoinShape(parts);
    }
    if parts != [] && trailing {
      assert ((if absolute then "/" else "") + Join(parts)) + "/" == (if absolute then "/" else "") + (Join(parts) + "/");
    }
  }

  lemma ComponentsAfterSlash(text: string)
    ensures Components("/" + text) == Walk(true, [], Pieces(text))
  {
    var r := "/" + text;
    assert r[1..] == text;
    PiecesAfterSlash(r);
    WalkStep(true, [], "", Pieces(text));
  }

  lemma ReadsBackAbsolute(stack: seq<string>, trailing: bool)
    requires Canonical(true, stack)
    ensures Components("/" + Text(stack, trailing)) == stack
    ensures TrailingSlash("/" + Text(stack, trailing)) == (stack == [] || trailing)
  {
    PiecesOfText(stack, trailing);
    ComponentsAfterSlash(Text(stack, trailing));
    assert [] + stack == stack;
    WalkAlongCanonical(true, [], stack);
    TextShape(stack, trailing);
  }

  lemma TextShape(parts: seq<string>, trailing: bool)
    requires forall i | 0 <= i < |parts| :: parts[i] != "" && '/' !in parts[i]
    ensures parts == [] ==> Text(parts, trailing) == ""
    ensures parts != [] ==> Text(parts, trailing) != "" && !IsAbsolute(Text(parts, trailing))
    ensures parts != [] ==> TrailingSlash(Text(parts, trailing)) == trailing
  {
    if parts != [] {
      JoinShape(parts);
    }
  }

  lemma ReadsBackRelative(stack: seq<string>, trailing: bool)
    requires Canonical(false, stack)
    ensures !IsAbsolute(Text(stack, trailing))
    ensures Components(Text(stack, trailing)) == stack
    ensures TrailingSlash(Text(stack, trailing)) == (stack != [] && trailing)
  {
    PiecesOfText(stack, trailing);
    TextShape(stack, trailing);
    assert [] + stack == stack;
    WalkAlongCanonical(false, [], stack);
  }

  /** A rendered stack reads back as itself. */
  lemma RenderReadsBack(absolute: bool, stack: seq<string>, trailing: bool)
    requires Canonical(absolute, stack)
    ensures IsAbsolute(Render(absolute, stack, trailing)) == absolute
    ensures Components(Render(absolute, stack, trailing)) == stack
    ensures TrailingSlash(Render(absolute, stack, trailing)) == (if stack == [] then absolute else trailing)
  {
    RenderIsText(absolute, stack, trailing);
    if absolute {
      ReadsBackAbsolute(stack, trailing);
    } else {
      assert "" + Text(stack, trailing) == Text(stack, trailing);
      ReadsBackRelative(stack, trailing);
    }
  }

  /** Normalizing keeps what a path means: where it starts, where it leads, and whether it names a directory. */
  lemma NormalizedKeepsMeaning(path: string)
    ensures IsAbsolute(Normalized(path)) == IsAbsolute(path)
    ensures Components(Normalized(path)) == Components(path)
    ensures Components(path) != [] ==> TrailingSlash(Normalized(path)) == TrailingSlash(path)
    ensures Canonical(IsAbsolute(path), Components(path))
  {
    forall p | p in Pieces(path) ensures '/' !in p {
      var i :| 0 <= i < |Pieces(path)| && Pieces(path)[i] == p;
      PiecesHaveNoSlash(path, i);
    }
    WalkIsCanonical(IsAbsolute(path), [], Pieces(path));
    RenderReadsBack(IsAbsolute(path), Components(path), TrailingSlash(path));
  }

  /** Two paths have the same normal form exactly when they mean the same. */
  lemma NormalizedIsCanonical(p: string, q: string)
    ensures Normalized(p) == Normalized(q) <==>
            && IsAbsolute(p) == IsAbsolute(q)
            && Components(p) == Components(q)
            && (TrailingSlash(p) == TrailingSlash(q) || Components(p) == [])
  {
    NormalizedKeepsMeaning(p);
    NormalizedKeepsMeaning(q);
  }

  lemma NormalizedTwice(path: string)
    ensures Normalized(Normalized(path)) == Normalized(path)
  {
    NormalizedKeepsMeaning(path);
    NormalizedIsCanonical(Normalized(path), path);
  }

  // ---------------------------------------------------------------------------
  // Every character of a normalized path was there before.
  // ---------------------------------------------------------------------------

  lemma LaterPiece(path: string, e: nat, i: nat)
    requires e == Scan(path, 0, {'/'}) && 0 < i < |Pieces(path)|
    ensures e < |path| && i - 1 < |Pieces(path[e + 1..])| && Pieces(path)[i] == Pieces(path[e + 1..])[i - 1]
  {
  }

  lemma PartOfRest(path: string, e: nat, a: nat, b: nat)
    requires e <= |path| && a <= b <= |path| - e
    ensures path[e..][a..b] == path[e + a..e + b]
  {
  }

  lemma {:induction false} PieceIsPart(path: string, i: nat) returns (a: nat, b: nat)
    requires i < |Pieces(path)|
    ensures a <= b <= |path| && Pieces(path)[i] == path[a..b]
    decreases |path|
  {
    var e := Scan(path, 0, {'/'});
    if i == 0 {
      a, b := 0, e;
    } else {
      LaterPiece(path, e, i);
      var c, d := PieceIsPart(path[e + 1..], i - 1);
      PartOfRest(path, e + 1, c, d);
      a, b := e + 1 + c, e + 1 + d;
    }
  }

  lemma OccursWithin(path: string, a: nat, b: nat, pattern: string)
    requires a <= b <= |path| && Occurs(path[a..b], pattern)
    ensures Occurs(path, pattern)
  {
    OccursRight(path[..a], path[a..b], pattern);
    assert path[..a] + path[a..b] == path[..b];
    OccursLeft(path[..b], path[b..], pattern);
    assert path[..b] + path[b..] == path;
  }

  lemma PieceOccurs(path: string, i: nat, pattern: string)
    requires i < |Pieces(path)| && Occurs(Pieces(path)[i], pattern)
    ensures Occurs(path, pattern)
  {
    var a, b := PieceIsPart(path, i);
    OccursWithin(path, a, b, pattern);
  }

  lemma {:induction false} WalkTakes(absolute: bool, stack: seq<string>, pieces: seq<string>, part: string)
    requires part in Walk(absolute, stack, pieces)
    ensures part in stack || part in pieces
    decreases |pieces|
  {
    if pieces != [] {
      WalkTakes(absolute, Enter(absolute, stack, pieces[0]), pieces[1..], part);
    }
  }

  lemma {:induction false} JoinOccurs(parts: seq<string>, pattern: string) returns (part: string)
    requires pattern != "" && '/' !in pattern && Occurs(Join(parts), pattern)
    ensures part in parts && Occurs(part, pattern)
  {
    var n := |parts| - 1;
    if n <= 0 {
      part := parts[0];
    } else {
      OccursBeforeOrAfter(Join(parts[..n]), "/" + parts[n], pattern);
      if Occurs(Join(parts[..n]), pattern) {
        part := JoinOccurs(parts[..n], pattern);
      } else {
        part := parts[n];
        OccursBehind('/', part, pattern);
      }
    }
  }

  /** What occurs in a normalized path and has no slash occurred in the path. */
  lemma NormalizedOccurs(path: string, pattern: string)
    requires pattern != "" && '/' !in pattern && Occurs(Normalized(path), pattern)
    ensures Occurs(path, pattern)
  {
    var parts := Components(path);
    NormalizedKeepsMeaning(path);
    var lead := if IsAbsolute(path) then "/" else "";
    var text := Text(parts, TrailingSlash(path));
    RenderIsText(IsAbsolute(path), parts, TrailingSlash(path));
    if IsAbsolute(path) {
      OccursBehind('/', text, pattern);
    } else {
      assert lead + text == text;
    }
    if text != Join(parts) {
      FreeBehind('/', "", pattern);
      assert ['/'] + "" == "/";
      OccursBeforeOrAfter(Join(parts), "/", pattern);
    }
    var part := JoinOccurs(parts, pattern);
    WalkTakes(IsAbsolute(path), [], Pieces(path), part);
    var i :| 0 <= i < |Pieces(path)| && Pieces(path)[i] == part;
    PieceOccurs(path, i, pattern);
  }
}
