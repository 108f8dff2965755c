/** Two files overlaid by the same writes: when the results are the same. */
module WriteOverlay {
  import opened Basics
  import opened WriteSession

  function Max(a: nat, b: nat): nat {
    if a > b then a else b
  }

  /** The byte at a position; a gap reads as zeros. */
  function ByteAt(file: seq<Byte>, i: nat): Byte {
    if i < |file| then file[i] else 0
  }

  predicate Covers(p: Patch, i: nat) {
    p.offset <= i < p.offset + |p.data|
  }

  /** The position lies in a range that was written. */
  predicate Covered(patches: seq<Patch>, i: nat) {
    patches != [] && (Covers(patches[|patches| - 1], i) || Covered(patches[..|patches| - 1], i))
  }

  /** The byte that was written last at a position. */
  function Latest(patches: seq<Patch>, i: nat): Byte
    requires Covered(patches, i)
  {
    var p := patches[|patches| - 1];
    if Covers(p, i) then p.data[i - p.offset] else Latest(patches[..|patches| - 1], i)
  }

  /** Where the ranges that were written end. */
  function End(patches: seq<Patch>): nat {
    if patches == [] then 0
    else
      var p := patches[|patches| - 1];
      Max(End(patches[..|patches| - 1]), if p.data == [] then 0 else p.offset + |p.data|)
  }

  lemma {:induction false} OverlaidLength(file: seq<Byte>, patches: seq<Patch>)
    ensures |Overlaid(file, patches)| == Max(|file|, End(patches))
  {
    if patches != [] {
      OverlaidLength(file, patches[..|patches| - 1]);
    }
  }

  lemma OverlayAt(file: seq<Byte>, p: Patch, i: nat)
    requires i < |Overlay(file, p)|
    ensures Overlay(file, p)[i] == if Covers(p, i) then p.data[i - p.offset] else ByteAt(file, i)
  {
  }

  /** Each byte is what was written there last, or what the file had. */
  lemma {:induction false} OverlaidAt(file: seq<Byte>, patches: seq<Patch>, i: nat)
    ensures ByteAt(Overlaid(file, patches), i) == if Covered(patches, i) then Latest(patches, i) else ByteAt(file, i)
  {
    if patches != [] {
      var front, p := patches[..|patches| - 1], patches[|patches| - 1];
      var before := Overlaid(file, front);
      OverlaidAt(file, front, i);
      if i < |Overlay(before, p)| {
        OverlayAt(before, p, i);
      }
    }
  }

  /** The two files have the same bytes outside the ranges that were written, up to where either result ends. */
  ghost predicate AgreeOutside(a: seq<Byte>, b: seq<Byte>, patches: seq<Patch>) {
    && Max(|a|, End(patches)) == Max(|b|, End(patches))
    && forall i: nat | i < Max(|a|, End(patches)) && !Covered(patches, i) :: ByteAt(a, i) == ByteAt(b, i)
  }

  /** The same writes over two files give the same result exactly when the files agree outside them. */
  lemma SameOverlaidExactly(a: seq<Byte>, b: seq<Byte>, patches: seq<Patch>)
    ensures Overlaid(a, patches) == Overlaid(b, patches) <==> AgreeOutside(a, b, patches)
  {
    var x, y := Overlaid(a, patches), Overlaid(b, patches);
    OverlaidLength(a, patches);
    OverlaidLength(b, patches);
    if x == y {
      forall i: nat | i < Max(|a|, End(patches)) && !Covered(patches, i) ensures ByteAt(a, i) == ByteAt(b, i) {
        OverlaidAt(a, patches, i);
        OverlaidAt(b, patches, i);
      }
    }
    if AgreeOutside(a, b, patches) {
      forall i | 0 <= i < |x| ensures x[i] == y[i] {
        OverlaidAt(a, patches, i);
        OverlaidAt(b, patches, i);
      }
    }
  }
}
