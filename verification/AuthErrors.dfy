/** What a message is refused for, and what it must look like not to be, byte by byte. */
module AuthErrors {
  import opened Basics
  import opened Utf8
  import opened AuthWire

  // ---------------------------------------------------------------------------
  // Messages by version and transport.
  // ---------------------------------------------------------------------------

  ghost predicate ProperParts(bearer: Optional, transport: Transport, headers: seq<Header>) {
    ProperOptional(bearer) && ProperTransport(transport) && ProperHeaders(headers) && |headers| < 0x1_0000_0000
  }

  /** A message that starts with 2 has bearer, transport and header list, and decodes to exactly these. */
  lemma VersionTwo(b: seq<Byte>, bearer: Optional, transport: Transport, headers: seq<Header>)
    requires |headers| < 0x1_0000_0000
    requires b == [2] + (EncodeOptional(bearer) + (EncodeTransport(transport) + EncodeList(headers)))
    ensures ProperParts(bearer, transport, headers) ==> Decode(b) == Got((2, Credential(bearer, transport, headers)), |b|)
  {
    DecodesExactly(b, 2, Credential(bearer, transport, headers));
  }

  /** A message that starts with 1 ends with its transport, and has no headers. */
  lemma VersionOne(b: seq<Byte>, bearer: Optional, transport: Transport)
    requires b == [1] + (EncodeOptional(bearer) + EncodeTransport(transport))
    ensures ProperParts(bearer, transport, []) ==> Decode(b) == Got((1, Credential(bearer, transport, [])), |b|)
  {
    assert EncodeTransport(transport) + [] == EncodeTransport(transport);
    DecodesExactly(b, 1, Credential(bearer, transport, []));
  }

  /** Tag 0 is TCP, 1 a Unix domain socket, 2 a named pipe. */
  lemma TransportTags(t: Transport)
    ensures match t
            case Tcp(peerAddr, cert) =>
              EncodeTransport(t) == [0] + (EncodeBlob(peerAddr) + EncodeBlob(if cert.Present? then cert.value else []))
            case Uds(uid, gid, pid) =>
              EncodeTransport(t) == [1] + (Encode32(uid) + (Encode32(gid) + Encode32(if pid < 0 then pid + 0x1_0000_0000 else pid)))
            case NamedPipe(sid, pid) => EncodeTransport(t) == [2] + (EncodeBlob(sid) + Encode32(pid))
  {
  }

  /** Four bytes, the least significant first. */
  lemma WordLayout(n: U32, s: seq<Byte>)
    requires |s| == 4
    ensures var b0: int, b1: int, b2: int, b3: int := s[0], s[1], s[2], s[3];
            Encode32(n) == s <==> b0 + 0x100 * b1 + 0x1_0000 * b2 + 0x100_0000 * b3 == n
  {
    Digits(s[0], s[1], s[2], s[3], n);
    assert s == [s[0], s[1], s[2], s[3]];
  }

  /** A number read as signed differs from what its bits say by a whole turn, if at all. */
  lemma SignedWord(n: U32)
    ensures FromBits(n) == n || FromBits(n) == n - 0x1_0000_0000
    ensures FromBits(n) < 0 <==> n >= 0x8000_0000
  {
  }

  /** The number that four bytes from `k` on are. */
  function Number(u: seq<Byte>, k: nat): U32
    requires k + 4 <= |u|
  {
    var b0: int, b1: int, b2: int, b3: int := u[k], u[k + 1], u[k + 2], u[k + 3];
    b0 + 0x100 * b1 + 0x1_0000 * b2 + 0x100_0000 * b3
  }

  lemma NumberAt(u: seq<Byte>, k: nat)
    requires k + 4 <= |u|
    ensures Encode32(Number(u, k)) == u[k..k + 4]
  {
    WordLayout(Number(u, k), u[k..k + 4]);
  }

  lemma UdsLayout(u: seq<Byte>, pid: I32)
    requires |u| == 12 && ToBits(pid) == Number(u, 8)
    ensures EncodeTransport(Uds(Number(u, 0), Number(u, 4), pid)) == [1] + u
  {
    NumberAt(u, 0);
    NumberAt(u, 4);
    NumberAt(u, 8);
    assert u == u[0..4] + (u[4..8] + u[8..12]);
  }

  /** A message with no bearer, a Unix domain socket and no headers, byte by byte. */
  lemma UdsMessage(b: seq<Byte>, u: seq<Byte>, pid: I32)
    requires |u| == 12 && b == [2] + ([0, 0, 0, 0] + (([1] + u) + [0, 0, 0, 0]))
    requires pid == if Number(u, 8) < 0x8000_0000 then Number(u, 8) else Number(u, 8) - 0x1_0000_0000
    ensures Decode(b) == Got((2, Credential(Absent, Uds(Number(u, 0), Number(u, 4), pid), [])), 22)
  {
    UdsLayout(u, pid);
    assert EncodeOptional(Absent) == [0, 0, 0, 0] && EncodeList([]) == [0, 0, 0, 0];
    VersionTwo(b, Absent, Uds(Number(u, 0), Number(u, 4), pid), []);
  }

  /** A field starts with its length. */
  lemma BlobLayout(s: Blob)
    ensures EncodeBlob(s)[..4] == Encode32(|s|) && EncodeBlob(s)[4..] == s
  {
  }

  /** A header list is its length and then each header in turn, the name before the value. */
  lemma ListLayout(headers: seq<Header>, h: Header, more: seq<Header>)
    ensures |headers| < 0x1_0000_0000 ==> EncodeList(headers) == Encode32(|headers|) + EncodeHeaders(headers)
    ensures EncodeHeaders([]) == []
    ensures EncodeHeaders([h] + more) == (EncodeBlob(h.name) + EncodeBlob(h.value)) + EncodeHeaders(more)
  {
    assert ([h] + more)[1..] == more;
  }

  /** An optional field that is absent is an empty one. */
  lemma OptionalLayout(o: Optional)
    ensures EncodeOptional(o) == EncodeBlob(match o case Absent => [] case Present(value) => value)
  {
  }

  // ---------------------------------------------------------------------------
  // Errors.
  // ---------------------------------------------------------------------------

  ghost predicate FieldError<T(!new)>(r: Read<T>) {
    r.Fail? ==> r.error == Truncated || r.error == InvalidUtf8
  }

  lemma {:induction false} HeadersError(b: seq<Byte>, pos: nat, count: nat)
    requires pos <= |b|
    ensures FieldError(ReadHeaders(b, pos, count))
    decreases count
  {
    if count > 0 && ReadHeader(b, pos).Got? {
      HeadersError(b, ReadHeader(b, pos).pos, count - 1);
    }
  }

  lemma TailError(version: Byte, b: seq<Byte>, pos: nat)
    requires pos <= |b|
    ensures FieldError(ReadTail(version, b, pos))
  {
    if version == CurrentVersion && Read32(b, pos).Got? {
      HeadersError(b, Read32(b, pos).pos, Read32(b, pos).value);
    }
  }

  /** A transport is refused as such exactly for a tag above 2. */
  lemma TransportError(b: seq<Byte>, pos: nat)
    requires pos <= |b|
    ensures ReadTransport(b, pos).Fail? ==> FieldError(ReadTransport(b, pos)) || ReadTransport(b, pos).error == BadTag
    ensures ReadTransport(b, pos) == Fail(BadTag) <==> pos < |b| && b[pos] > 2
  {
  }

  lemma BodyError(version: Byte, b: seq<Byte>, pos: nat)
    requires pos <= |b|
    ensures ReadBody(version, b, pos).Fail? ==> FieldError(ReadBody(version, b, pos)) || ReadBody(version, b, pos).error == BadTag
    ensures ReadBody(version, b, pos) == Fail(BadTag) <==>
            ReadOptional(b, pos).Got? && ReadTransport(b, ReadOptional(b, pos).pos) == Fail(BadTag)
  {
    var r := ReadOptional(b, pos);
    if r.Got? {
      TransportError(b, r.pos);
      var t := ReadTransport(b, r.pos);
      if t.Got? {
        TailError(version, b, t.pos);
      }
    }
  }

  /** Refused for its version: exactly what starts with neither 1 nor 2. */
  lemma UnsupportedExactly(b: seq<Byte>)
    ensures Decode(b) == Fail(UnsupportedVersion) <==> b != [] && b[0] != 1 && b[0] != 2
  {
    if b != [] {
      BodyError(b[0], b, 1);
    }
  }

  /** Refused for its tag: exactly what has a bearer and then a byte above 2. */
  lemma BadTagExactly(b: seq<Byte>)
    ensures Decode(b) == Fail(BadTag) <==> KnownVersion(b) && HasBadTag(b)
  {
    if b != [] {
      BodyError(b[0], b, 1);
      var r := ReadOptional(b, 1);
      if r.Got? {
        ReadOptionalExactly(b, 1, r.value, r.pos);
        TransportError(b, r.pos);
      }
      if Decode(b) == Fail(BadTag) {
        assert TagBehind(b, r.value);
      }
      forall bearer | TagBehind(b, bearer)
        ensures b[0] == 1 || b[0] == 2 ==> Decode(b) == Fail(BadTag)
      {
        ReadOptionalExactly(b, 1, bearer, 1 + |EncodeOptional(bearer)|);
      }
    }
  }

  /** A bearer stands behind the version, and a byte above 2 behind the bearer. */
  ghost predicate TagBehind(b: seq<Byte>, bearer: Optional) {
    var p := 1 + |EncodeOptional(bearer)|;
    ProperOptional(bearer) && Holds(b, 1, EncodeOptional(bearer)) && p < |b| && b[p] > 2
  }

  ghost predicate HasBadTag(b: seq<Byte>) {
    exists bearer :: TagBehind(b, bearer)
  }

  ghost predicate KnownVersion(b: seq<Byte>) {
    b != [] && (b[0] == 1 || b[0] == 2)
  }

  /** A proper message with something behind it. */
  ghost predicate Followed(b: seq<Byte>, version: Byte, c: Credential) {
    Proper(version, c) && |EncodeCredential(version, c)| < |b| && Holds(b, 0, EncodeCredential(version, c))
  }

  ghost predicate HasMore(b: seq<Byte>) {
    exists version, c :: Followed(b, version, c)
  }

  lemma TrailingMeans(b: seq<Byte>) returns (version: Byte, c: Credential)
    requires Decode(b) == Fail(TrailingData)
    ensures Followed(b, version, c)
  {
    version := b[0];
    BodyError(version, b, 1);
    var r := ReadBody(version, b, 1);
    c := r.value;
    ReadBodyMeans(version, b, 1, c, r.pos);
    HoldsByte(b, 0, version, EncodeBody(version, c));
  }

  lemma MeansTrailing(b: seq<Byte>, version: Byte, c: Credential)
    requires Followed(b, version, c)
    ensures Decode(b) == Fail(TrailingData)
  {
    HoldsByte(b, 0, version, EncodeBody(version, c));
    MeansReadBody(version, b, 1, c);
  }

  /** Refused for what follows: exactly a proper message with something behind it. */
  lemma TrailingExactly(b: seq<Byte>)
    ensures Decode(b) == Fail(TrailingData) <==> HasMore(b)
  {
    if Decode(b) == Fail(TrailingData) {
      var version, c := TrailingMeans(b);
    }
    forall version, c | Followed(b, version, c) ensures Decode(b) == Fail(TrailingData) {
      MeansTrailing(b, version, c);
    }
  }

  // ---------------------------------------------------------------------------
  // Strings that are not UTF-8.
  // ---------------------------------------------------------------------------

  /** A complete field that is no string stands at `pos`. */
  ghost predicate BadString(b: seq<Byte>, pos: nat) {
    exists s: Blob :: BadField(b, pos, s)
  }

  ghost predicate BadField(b: seq<Byte>, pos: nat, s: Blob) {
    !IsUtf8(s) && Holds(b, pos, EncodeBlob(s))
  }

  lemma BadStringExactly(b: seq<Byte>, pos: nat)
    requires pos <= |b|
    ensures ReadString(b, pos) == Fail(InvalidUtf8) <==> BadString(b, pos)
  {
    var r := ReadBlob(b, pos);
    if r.Got? {
      ReadBlobExactly(b, pos, r.value, r.pos);
      assert ReadString(b, pos) == Fail(InvalidUtf8) ==> BadField(b, pos, r.value);
    }
    forall s: Blob | BadField(b, pos, s) ensures ReadString(b, pos) == Fail(InvalidUtf8) {
      ReadBlobExactly(b, pos, s, pos + |EncodeBlob(s)|);
    }
  }

  /** A header whose name or whose value is no string. */
  ghost predicate BadHeader(b: seq<Byte>, pos: nat) {
    BadString(b, pos) || exists name: Blob :: BadValue(b, pos, name)
  }

  ghost predicate BadValue(b: seq<Byte>, pos: nat, name: Blob) {
    IsUtf8(name) && Holds(b, pos, EncodeBlob(name)) && BadString(b, pos + |EncodeBlob(name)|)
  }

  lemma BadHeaderExactly(b: seq<Byte>, pos: nat)
    requires pos <= |b|
    ensures ReadHeader(b, pos) == Fail(InvalidUtf8) <==> BadHeader(b, pos)
  {
    var r := ReadString(b, pos);
    BadStringExactly(b, pos);
    if r.Got? {
      ReadStringExactly(b, pos, r.value, r.pos);
      BadStringExactly(b, r.pos);
      assert ReadHeader(b, pos) == Fail(InvalidUtf8) ==> BadValue(b, pos, r.value);
    }
    forall name: Blob | BadValue(b, pos, name) ensures ReadHeader(b, pos) == Fail(InvalidUtf8) {
      ReadStringExactly(b, pos, name, pos + |EncodeBlob(name)|);
      BadStringExactly(b, pos + |EncodeBlob(name)|);
    }
  }

  /** A proper header stands at `pos` and ends at `mid`. */
  ghost predicate HeaderAt(b: seq<Byte>, pos: nat, h: Header, mid: nat) {
    IsUtf8(h.name) && IsUtf8(h.value) && mid == pos + |EncodeHeader(h)| && Holds(b, pos, EncodeHeader(h))
  }

  /** One of the next `count` headers is bad, and all before it are proper. */
  ghost predicate BadHeaders(b: seq<Byte>, pos: nat, count: nat)
    decreases count
  {
    count > 0 && (BadHeader(b, pos) || exists h, mid :: HeaderAt(b, pos, h, mid) && BadHeaders(b, mid, count - 1))
  }

  lemma OneHeader(b: seq<Byte>, pos: nat, h: Header, mid: nat)
    requires pos <= |b|
    ensures HeaderAt(b, pos, h, mid) <==> ReadHeader(b, pos) == Got(h, mid)
  {
    ReadHeaderExactly(b, pos, h, mid);
  }

  ghost predicate Stops(b: seq<Byte>, pos: nat, count: nat) {
    pos <= |b| && ReadHeaders(b, pos, count) == Fail(InvalidUtf8)
  }

  /** The reader fails for the first header, or passes it and fails behind it. */
  lemma StopsFirst(b: seq<Byte>, pos: nat, count: nat)
    requires pos <= |b| && count > 0
    ensures var r := ReadHeader(b, pos);
            Stops(b, pos, count) <==> r == Fail(InvalidUtf8) || (r.Got? && Stops(b, r.pos, count - 1))
  {
  }

  lemma {:induction false} BadHeadersExactly(b: seq<Byte>, pos: nat, count: nat)
    requires pos <= |b|
    ensures Stops(b, pos, count) <==> BadHeaders(b, pos, count)
    decreases count
  {
    if count > 0 {
      var r := ReadHeader(b, pos);
      StopsFirst(b, pos, count);
      BadHeaderExactly(b, pos);
      if r.Got? {
        OneHeader(b, pos, r.value, r.pos);
        BadHeadersExactly(b, r.pos, count - 1);
      }
      forall h, mid | HeaderAt(b, pos, h, mid) ensures r == Got(h, mid) {
        OneHeader(b, pos, h, mid);
      }
    }
  }

  /** A header list that announces no more headers than there is room for, one of which is bad. */
  ghost predicate BadList(b: seq<Byte>, pos: nat) {
    exists count: U32 :: BadListOf(b, pos, count)
  }

  ghost predicate BadListOf(b: seq<Byte>, pos: nat, count: U32) {
    Holds(b, pos, Encode32(count)) && count <= (|b| - pos - 4) / 8 && BadHeaders(b, pos + 4, count)
  }

  lemma BadListExactly(b: seq<Byte>, pos: nat)
    requires pos <= |b|
    ensures ReadList(b, pos) == Fail(InvalidUtf8) <==> BadList(b, pos)
  {
    var r := Read32(b, pos);
    if r.Got? {
      Read32Exactly(b, pos, r.value, r.pos);
      BadHeadersExactly(b, r.pos, r.value);
      assert ReadList(b, pos) == Fail(InvalidUtf8) ==> BadListOf(b, pos, r.value);
    }
    forall count: U32 | BadListOf(b, pos, count) ensures ReadList(b, pos) == Fail(InvalidUtf8) {
      Read32Exactly(b, pos, count, pos + 4);
      BadHeadersExactly(b, pos + 4, count);
    }
  }

  /** A transport whose string is none: the address of tag 0 or the identity of tag 2. */
  ghost predicate BadTransport(b: seq<Byte>, pos: nat) {
    pos < |b| && (b[pos] == 0 || b[pos] == 2) && BadString(b, pos + 1)
  }

  lemma BadTransportExactly(b: seq<Byte>, pos: nat)
    requires pos <= |b|
    ensures ReadTransport(b, pos) == Fail(InvalidUtf8) <==> BadTransport(b, pos)
  {
    if pos < |b| {
      BadStringExactly(b, pos + 1);
    }
  }

  /** Behind the version and a bearer, the transport is bad; or it is proper, the version is 2 and the list is bad. */
  ghost predicate BadBehind(b: seq<Byte>, bearer: Optional) {
    var p := 1 + |EncodeOptional(bearer)|;
    && ProperOptional(bearer) && Holds(b, 1, EncodeOptional(bearer))
    && (BadTransport(b, p) || exists t :: BadListBehind(b, p, t))
  }

  ghost predicate HasBadString(b: seq<Byte>) {
    exists bearer :: BadBehind(b, bearer)
  }

  ghost predicate BadListBehind(b: seq<Byte>, p: nat, t: Transport) {
    b != [] && b[0] == 2 && ProperTransport(t) && Holds(b, p, EncodeTransport(t)) && BadList(b, p + |EncodeTransport(t)|)
  }

  /** The transport, or what follows it, fails for a string. */
  ghost predicate FailsFrom(b: seq<Byte>, p: nat)
    requires 1 <= p <= |b|
  {
    var r := ReadTransport(b, p);
    if r.Fail? then r.error == InvalidUtf8 else ReadTail(b[0], b, r.pos) == Fail(InvalidUtf8)
  }

  lemma FailsFromMeans(b: seq<Byte>, p: nat)
    requires 1 <= p <= |b| && FailsFrom(b, p)
    ensures BadTransport(b, p) || exists t :: BadListBehind(b, p, t)
  {
    var r := ReadTransport(b, p);
    if r.Fail? {
      BadTransportExactly(b, p);
    } else {
      ReadTransportExactly(b, p, r.value, r.pos);
      BadListExactly(b, r.pos);
      assert BadListBehind(b, p, r.value);
    }
  }

  lemma FailsByList(b: seq<Byte>, p: nat, t: Transport, q: nat)
    requires 1 <= p <= |b| && q <= |b| && b[0] == 2 && ReadTransport(b, p) == Got(t, q) && ReadList(b, q) == Fail(InvalidUtf8)
    ensures FailsFrom(b, p)
  {
  }

  lemma ListBehindFails(b: seq<Byte>, p: nat, t: Transport, q: nat)
    requires p <= q <= |b| && q == p + |EncodeTransport(t)| && BadListBehind(b, p, t)
    ensures ReadTransport(b, p) == Got(t, q) && ReadList(b, q) == Fail(InvalidUtf8)
  {
    ReadTransportExactly(b, p, t, q);
    BadListExactly(b, q);
  }

  lemma MeansFailsFrom(b: seq<Byte>, p: nat, t: Transport)
    requires 1 <= p <= |b| && BadListBehind(b, p, t)
    ensures FailsFrom(b, p)
  {
    var q := p + |EncodeTransport(t)|;
    ListBehindFails(b, p, t, q);
    FailsByList(b, p, t, q);
  }

  lemma InvalidBody(b: seq<Byte>, p: nat)
    requires 1 <= p <= |b|
    ensures FailsFrom(b, p) <==> (BadTransport(b, p) || exists t :: BadListBehind(b, p, t))
  {
    if FailsFrom(b, p) {
      FailsFromMeans(b, p);
    }
    BadTransportExactly(b, p);
    forall t | BadListBehind(b, p, t) ensures FailsFrom(b, p) {
      MeansFailsFrom(b, p, t);
    }
  }

  /** Refused for a string: exactly when one of the fields that must be strings is complete and is none, and all before
      it is proper. */
  lemma InvalidExactly(b: seq<Byte>)
    ensures Decode(b) == Fail(InvalidUtf8) <==> KnownVersion(b) && HasBadString(b)
  {
    if KnownVersion(b) {
      var r := ReadOptional(b, 1);
      if r.Got? {
        ReadOptionalExactly(b, 1, r.value, r.pos);
        InvalidBody(b, r.pos);
        assert Decode(b) == Fail(InvalidUtf8) ==> BadBehind(b, r.value);
      }
      forall bearer | BadBehind(b, bearer) ensures Decode(b) == Fail(InvalidUtf8) {
        var p := 1 + |EncodeOptional(bearer)|;
        ReadOptionalExactly(b, 1, bearer, p);
        InvalidBody(b, p);
      }
    }
  }

  ghost predicate IsMessage(b: seq<Byte>) {
    exists version, c :: IsMessageOf(b, version, c)
  }

  ghost predicate IsMessageOf(b: seq<Byte>, version: Byte, c: Credential) {
    Proper(version, c) && b == EncodeCredential(version, c)
  }

  lemma AcceptedExactly(b: seq<Byte>)
    ensures Decode(b).Got? <==> IsMessage(b)
  {
    if Decode(b).Got? {
      DecodeMeans(b);
      assert IsMessageOf(b, Decode(b).value.0, Decode(b).value.1);
    }
    forall version, c | IsMessageOf(b, version, c) ensures Decode(b).Got? {
      DecodesExactly(b, version, c);
    }
  }

  /** Whatever is neither a proper message nor refused for one of these is cut short. */
  lemma TruncatedExactly(b: seq<Byte>)
    ensures Decode(b) == Fail(Truncated) <==>
            (b == [] || KnownVersion(b)) && !IsMessage(b) && !(KnownVersion(b) && (HasBadTag(b) || HasBadString(b))) && !HasMore(b)
  {
    AcceptedExactly(b);
    UnsupportedExactly(b);
    BadTagExactly(b);
    InvalidExactly(b);
    TrailingExactly(b);
    if Decode(b).Fail? {
      match Decode(b).error
      case Truncated =>
      case UnsupportedVersion =>
      case BadTag =>
      case InvalidUtf8 =>
      case TrailingData =>
    }
  }
}
