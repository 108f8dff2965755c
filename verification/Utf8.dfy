/** The two UTF-8 validators: `detail::valid_utf8` of the C++ wrapper decodes, `ovc_utf8_is_valid` of the C runtime
    goes by tables. Masks and shifts are written as division and remainder. */
module Utf8 {
  import opened Basics

  /** A Unicode scalar value: a code point that is not a surrogate. */
  predicate IsScalar(c: int) {
    0 <= c < 0xD800 || 0xE000 <= c <= 0x10FFFF
  }

  type Scalar = c: int | 0 <= c < 0xD800 || 0xE000 <= c <= 0x10FFFF

  /** The encoding of one scalar value, section 3 of RFC 3629: six bits to each byte but the first. */
  function Encode(c: Scalar): (s: seq<Byte>)
    ensures 1 <= |s| <= 4
  {
    var d := c / 0x40;
    var e := d / 0x40;
    if c < 0x80 then [c]
    else if c < 0x800 then [0xC0 + d, 0x80 + c % 0x40]
    else if c < 0x10000 then [0xE0 + e, 0x80 + d % 0x40, 0x80 + c % 0x40]
    else [0xF0 + e / 0x40, 0x80 + e % 0x40, 0x80 + d % 0x40, 0x80 + c % 0x40]
  }

  function EncodeAll(text: seq<Scalar>): seq<Byte> {
    if text == [] then [] else Encode(text[0]) + EncodeAll(text[1..])
  }

  /** The bytes are the encoding of some text. */
  ghost predicate IsUtf8(bytes: seq<Byte>) {
    exists text :: EncodeAll(text) == bytes
  }

  // ---------------------------------------------------------------------------
  // One character.
  // ---------------------------------------------------------------------------

  /** How many bytes a lead byte announces; 0 for a byte that is no lead byte. */
  function LeadLength(lead: Byte): nat {
    if lead < 0x80 then 1
    else if lead / 0x20 == 0x06 then 2
    else if lead / 0x10 == 0x0E then 3
    else if lead / 0x08 == 0x1E then 4
    else 0
  }

  function LeadBits(lead: Byte): int {
    if lead < 0x80 then lead
    else if lead / 0x20 == 0x06 then lead % 0x20
    else if lead / 0x10 == 0x0E then lead % 0x10
    else lead % 0x08
  }

  predicate IsContinuation(b: Byte) {
    b / 0x40 == 0x02
  }

  /** The bits of the first `k` bytes. */
  function Bits(s: seq<Byte>, k: nat): int
    requires 1 <= k <= |s|
  {
    if k == 1 then LeadBits(s[0]) else Bits(s, k - 1) * 0x40 + s[k - 1] % 0x40
  }

  /** The smallest code point that needs this many bytes. */
  function Smallest(length: nat): int {
    if length == 2 then 0x80 else if length == 3 then 0x800 else if length == 4 then 0x10000 else 0
  }

  /** One well-formed character: no truncated, overlong, surrogate or too large one. */
  ghost predicate IsCharacter(s: seq<Byte>) {
    && s != [] && |s| == LeadLength(s[0])
    && (forall k | 1 <= k < |s| :: IsContinuation(s[k]))
    && Bits(s, |s|) >= Smallest(|s|) && IsScalar(Bits(s, |s|))
  }

  /** Reading back the encoding of a scalar value gives that value. */
  lemma EncodedReadsBack(c: Scalar)
    ensures IsCharacter(Encode(c)) && Bits(Encode(c), |Encode(c)|) == c
  {
    var s := Encode(c);
    var d := c / 0x40;
    var e := d / 0x40;
    if |s| == 2 {
      assert Bits(s, 1) == d;
    } else if |s| == 3 {
      assert Bits(s, 1) == e;
      assert Bits(s, 2) == d;
    } else if |s| == 4 {
      assert 0 <= e / 0x40 <= 4;
      assert Bits(s, 1) == e / 0x40;
      assert Bits(s, 2) == e;
      assert Bits(s, 3) == d;
    }
  }

  lemma LastDigit(high: int, low: int)
    requires 0 <= low < 0x40
    ensures (high * 0x40 + low) / 0x40 == high && (high * 0x40 + low) % 0x40 == low
  {
  }

  lemma BitsStep(s: seq<Byte>, k: nat)
    requires 1 <= k < |s|
    ensures Bits(s, k + 1) / 0x40 == Bits(s, k) && Bits(s, k + 1) % 0x40 == s[k] % 0x40
  {
    LastDigit(Bits(s, k), s[k] % 0x40);
  }

  lemma ReadTwo(s: seq<Byte>)
    requires IsCharacter(s) && |s| == 2
    ensures Encode(Bits(s, 2)) == s
  {
    assert IsContinuation(s[1]);
    BitsStep(s, 1);
  }

  lemma ReadThree(s: seq<Byte>)
    requires IsCharacter(s) && |s| == 3
    ensures Encode(Bits(s, 3)) == s
  {
    assert IsContinuation(s[1]) && IsContinuation(s[2]);
    BitsStep(s, 1);
    BitsStep(s, 2);
  }

  lemma ReadFour(s: seq<Byte>)
    requires IsCharacter(s) && |s| == 4
    ensures Encode(Bits(s, 4)) == s
  {
    assert IsContinuation(s[1]) && IsContinuation(s[2]) && IsContinuation(s[3]);
    BitsStep(s, 1);
    BitsStep(s, 2);
    BitsStep(s, 3);
  }

  /** A well-formed character is the encoding of the value it reads as. */
  lemma ReadIsEncoded(s: seq<Byte>)
    requires IsCharacter(s)
    ensures Encode(Bits(s, |s|)) == s
  {
    if |s| == 2 {
      ReadTwo(s);
    } else if |s| == 3 {
      ReadThree(s);
    } else if |s| == 4 {
      ReadFour(s);
    }
  }

  // ---------------------------------------------------------------------------
  // Text.
  // ---------------------------------------------------------------------------

  lemma EncodeMore(c: Scalar, text: seq<Scalar>)
    ensures EncodeAll([c] + text) == Encode(c) + EncodeAll(text)
  {
    assert ([c] + text)[1..] == text;
  }

  /** The first character of an encoded text is the encoding of its first scalar value. */
  lemma FirstCharacter(text: seq<Scalar>, bytes: seq<Byte>)
    requires text != [] && EncodeAll(text) == bytes
    ensures var n := |Encode(text[0])|;
            && 0 < n <= |bytes| && n == LeadLength(bytes[0])
            && bytes[..n] == Encode(text[0]) && bytes[n..] == EncodeAll(text[1..])
  {
    EncodedReadsBack(text[0]);
    assert bytes[0] == Encode(text[0])[0];
  }

  /** What the first byte announces is a character, and the rest is text. */
  lemma TextStep(bytes: seq<Byte>)
    requires bytes != []
    ensures var n := LeadLength(bytes[0]);
            IsUtf8(bytes) <==> 0 < n <= |bytes| && IsCharacter(bytes[..n]) && IsUtf8(bytes[n..])
  {
    var n := LeadLength(bytes[0]);
    if IsUtf8(bytes) {
      var text :| EncodeAll(text) == bytes;
      FirstCharacter(text, bytes);
      EncodedReadsBack(text[0]);
    }
    if 0 < n <= |bytes| && IsCharacter(bytes[..n]) && IsUtf8(bytes[n..]) {
      var c := Bits(bytes[..n], n);
      var text :| EncodeAll(text) == bytes[n..];
      ReadIsEncoded(bytes[..n]);
      EncodeMore(c, text);
      assert EncodeAll([c] + text) == bytes;
    }
  }

  /** No two texts have the same encoding. */
  lemma {:induction false} EncodingIsUnique(a: seq<Scalar>, b: seq<Scalar>)
    requires EncodeAll(a) == EncodeAll(b)
    ensures a == b
  {
    if a != [] && b != [] {
      var bytes := EncodeAll(a);
      FirstCharacter(a, bytes);
      FirstCharacter(b, bytes);
      EncodedReadsBack(a[0]);
      EncodedReadsBack(b[0]);
      EncodingIsUnique(a[1..], b[1..]);
      assert a == [a[0]] + a[1..] && b == [b[0]] + b[1..];
    }
  }

  lemma TextStepAt(bytes: seq<Byte>, i: nat)
    requires i < |bytes|
    ensures var n := LeadLength(bytes[i]);
            IsUtf8(bytes[i..]) <==> 0 < n <= |bytes| - i && IsCharacter(bytes[i..i + n]) && IsUtf8(bytes[i + n..])
  {
    var rest, n := bytes[i..], LeadLength(bytes[i]);
    TextStep(rest);
    if n <= |rest| {
      assert rest[..n] == bytes[i..i + n] && rest[n..] == bytes[i + n..];
    }
  }

  lemma EmptyIsText()
    ensures IsUtf8([])
  {
    assert EncodeAll([]) == [];
  }

  // ---------------------------------------------------------------------------
  // The validator that decodes.
  // ---------------------------------------------------------------------------

  /** Reads the continuation bytes of the character `s` after its first byte. */
  method ReadContinuations(s: seq<Byte>, leadBits: int) returns (ok: bool, codePoint: int)
    requires s != [] && leadBits == LeadBits(s[0])
    ensures ok <==> forall k | 1 <= k < |s| :: IsContinuation(s[k])
    ensures ok ==> codePoint == Bits(s, |s|)
  {
    codePoint := leadBits;
    for k := 1 to |s|
      invariant forall j | 1 <= j < k :: IsContinuation(s[j])
      invariant codePoint == Bits(s, k)
    {
      var continuation := s[k];
      if continuation / 0x40 != 0x02 {
        return false, 0;
      }
      codePoint := codePoint * 0x40 + continuation % 0x40;
    }
    ok := true;
  }

  method ValidUtf8(bytes: seq<Byte>) returns (valid: bool)
    ensures valid <==> IsUtf8(bytes)
  {
    var i := 0;
    assert bytes[0..] == bytes;
    while i < |bytes|
      invariant 0 <= i <= |bytes|
      invariant IsUtf8(bytes) <==> IsUtf8(bytes[i..])
      decreases |bytes| - i
    {
      var lead := bytes[i];
      TextStepAt(bytes, i);
      var length, codePoint;
      if lead < 0x80 {
        length, codePoint := 1, lead;
      } else if lead / 0x20 == 0x06 {
        length, codePoint := 2, lead % 0x20;
      } else if lead / 0x10 == 0x0E {
        length, codePoint := 3, lead % 0x10;
      } else if lead / 0x08 == 0x1E {
        length, codePoint := 4, lead % 0x08;
      } else {
        return false;
      }
      if |bytes| - i < length {
        return false;
      }
      var ok;
      ok, codePoint := ReadContinuations(bytes[i..i + length], codePoint);
      if !ok {
        return false;
      }
      if length == 2 && codePoint < 0x80 { return false; }
      if length == 3 && codePoint < 0x800 { return false; }
      if length == 4 && codePoint < 0x10000 { return false; }
      if codePoint > 0x10FFFF { return false; }
      if codePoint >= 0xD800 && codePoint <= 0xDFFF { return false; }
      CharacterIs(bytes[i..i + length]);
      i := i + length;
    }
    assert bytes[i..] == [];
    EmptyIsText();
    valid := true;
  }

  lemma {:induction false} BitsPositive(s: seq<Byte>, k: nat)
    requires 1 <= k <= |s|
    ensures Bits(s, k) >= 0
  {
    if k > 1 {
      BitsPositive(s, k - 1);
    }
  }

  lemma CharacterIs(s: seq<Byte>)
    requires s != [] && |s| == LeadLength(s[0])
    requires forall k | 1 <= k < |s| :: IsContinuation(s[k])
    requires Smallest(|s|) <= Bits(s, |s|) <= 0x10FFFF && !(0xD800 <= Bits(s, |s|) <= 0xDFFF)
    ensures IsCharacter(s)
  {
    BitsPositive(s, |s|);
  }

  // ---------------------------------------------------------------------------
  // The validator that goes by tables, section 4 of RFC 3629.
  // ---------------------------------------------------------------------------

  predicate Tail(b: Byte) {
    0x80 <= b <= 0xBF
  }

  lemma TwoBytes(s: seq<Byte>)
    requires |s| == 2
    ensures IsCharacter(s) <==> 0xC2 <= s[0] <= 0xDF && Tail(s[1])
  {
    assert Bits(s, 1) == LeadBits(s[0]);
    assert Bits(s, 2) == Bits(s, 1) * 0x40 + s[1] % 0x40;
  }

  lemma ThreeBytes(s: seq<Byte>)
    requires |s| == 3
    ensures IsCharacter(s) <==>
            && 0xE0 <= s[0] <= 0xEF && Tail(s[1]) && Tail(s[2])
            && (s[0] == 0xE0 ==> s[1] >= 0xA0) && (s[0] == 0xED ==> s[1] <= 0x9F)
  {
    assert Bits(s, 1) == LeadBits(s[0]);
    assert Bits(s, 2) == Bits(s, 1) * 0x40 + s[1] % 0x40;
    assert Bits(s, 3) == Bits(s, 2) * 0x40 + s[2] % 0x40;
  }

  lemma FourBytes(s: seq<Byte>)
    requires |s| == 4
    ensures IsCharacter(s) <==>
            && 0xF0 <= s[0] <= 0xF4 && Tail(s[1]) && Tail(s[2]) && Tail(s[3])
            && (s[0] == 0xF0 ==> s[1] >= 0x90) && (s[0] == 0xF4 ==> s[1] <= 0x8F)
  {
    assert Bits(s, 1) == LeadBits(s[0]);
    assert Bits(s, 2) == Bits(s, 1) * 0x40 + s[1] % 0x40;
    assert Bits(s, 3) == Bits(s, 2) * 0x40 + s[2] % 0x40;
    assert Bits(s, 4) == Bits(s, 3) * 0x40 + s[3] % 0x40;
  }

  /** The table entry for a character of more than one byte: how long it is, and the range of its second byte. */
  function Entry(first: Byte): (int, int, int) {
    if 0xC2 <= first <= 0xDF then (2, 0x80, 0xBF)
    else if first == 0xE0 then (3, 0xA0, 0xBF)
    else if 0xE1 <= first <= 0xEC || 0xEE <= first <= 0xEF then (3, 0x80, 0xBF)
    else if first == 0xED then (3, 0x80, 0x9F)
    else if first == 0xF0 then (4, 0x90, 0xBF)
    else if 0xF1 <= first <= 0xF3 then (4, 0x80, 0xBF)
    else if first == 0xF4 then (4, 0x80, 0x8F)
    else (0, 0, 0)
  }

  /** The tables accept a character exactly when it is well formed. */
  lemma TableIsRight(s: seq<Byte>)
    requires s != [] && s[0] >= 0x80 && |s| == LeadLength(s[0])
    ensures var (length, low, high) := Entry(s[0]);
            IsCharacter(s) <==> |s| == length && low <= s[1] <= high && forall k | 2 <= k < |s| :: Tail(s[k])
  {
    if |s| == 2 {
      TwoBytes(s);
    } else if |s| == 3 {
      ThreeBytes(s);
    } else {
      FourBytes(s);
    }
  }

  /** One turn of the loop of `ovc_utf8_is_valid`: the length of the character at `index`, or 0. */
  method CharacterAt(bytes: seq<Byte>, index: nat) returns (length: nat)
    requires index < |bytes|
    ensures length > 0 ==> length == LeadLength(bytes[index]) <= |bytes| - index && IsCharacter(bytes[index..index + length])
    ensures length == 0 ==>
              var n := LeadLength(bytes[index]); !(0 < n <= |bytes| - index && IsCharacter(bytes[index..index + n]))
  {
    var first, available := bytes[index], |bytes| - index;
    ghost var n := LeadLength(first);
    if first <= 0x7F {
      assert bytes[index..index + 1] == [first];
      return 1;
    }
    if 0 < n <= available {
      TableIsRight(bytes[index..index + n]);
    }
    length := 0;
    if first >= 0xC2 && first <= 0xDF {
      if !(available < 2 || bytes[index + 1] < 0x80 || bytes[index + 1] > 0xBF) {
        length := 2;
      }
    } else if first == 0xE0 {
      if !(available < 3 || bytes[index + 1] < 0xA0 || bytes[index + 1] > 0xBF || !Tail(bytes[index + 2])) {
        length := 3;
      }
    } else if (first >= 0xE1 && first <= 0xEC) || (first >= 0xEE && first <= 0xEF) {
      if !(available < 3 || bytes[index + 1] < 0x80 || bytes[index + 1] > 0xBF || !Tail(bytes[index + 2])) {
        length := 3;
      }
    } else if first == 0xED {
      if !(available < 3 || bytes[index + 1] < 0x80 || bytes[index + 1] > 0x9F || !Tail(bytes[index + 2])) {
        length := 3;
      }
    } else if first == 0xF0 {
      if !(available < 4 || bytes[index + 1] < 0x90 || bytes[index + 1] > 0xBF
           || !Tail(bytes[index + 2]) || !Tail(bytes[index + 3])) {
        length := 4;
      }
    } else if first >= 0xF1 && first <= 0xF3 {
      if !(available < 4 || bytes[index + 1] < 0x80 || bytes[index + 1] > 0xBF
           || !Tail(bytes[index + 2]) || !Tail(bytes[index + 3])) {
        length := 4;
      }
    } else if first == 0xF4 {
      if !(available < 4 || bytes[index + 1] < 0x80 || bytes[index + 1] > 0x8F
           || !Tail(bytes[index + 2]) || !Tail(bytes[index + 3])) {
        length := 4;
      }
    }
  }

  method TableUtf8(bytes: seq<Byte>) returns (valid: bool)
    ensures valid <==> IsUtf8(bytes)
  {
    var index := 0;
    assert bytes[0..] == bytes;
    while index < |bytes|
      invariant 0 <= index <= |bytes|
      invariant IsUtf8(bytes) <==> IsUtf8(bytes[index..])
      decreases |bytes| - index
    {
      TextStepAt(bytes, index);
      var length := CharacterAt(bytes, index);
      if length == 0 {
        return false;
      }
      index := index + length;
    }
    assert bytes[index..] == [];
    EmptyIsText();
    valid := true;
  }
}
