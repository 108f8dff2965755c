/** The AUTH_CREDENTIAL wire format: an encoder to specify it, a reader for each field, and that they are inverse. */
module AuthWire {
  import opened Basics
  import opened Utf8

  type U32 = n: int | 0 <= n < 0x1_0000_0000
  type I32 = n: int | -0x8000_0000 <= n < 0x8000_0000
  /** A byte string whose length fits its prefix. */
  type Blob = s: seq<Byte> | |s| < 0x1_0000_0000

  datatype Optional = Absent | Present(value: Blob)

  datatype Transport =
    | Tcp(peerAddr: Blob, cert: Optional)
    | Uds(uid: U32, gid: U32, pid: I32)
    | NamedPipe(sid: Blob, pipePid: U32)

  datatype Header = Header(name: Blob, value: Blob)

  datatype Credential = Credential(bearer: Optional, transport: Transport, headers: seq<Header>)

  const CurrentVersion: Byte := 2

  // ---------------------------------------------------------------------------
  // The encoder.
  // ---------------------------------------------------------------------------

  /** Four bytes, the least significant first. */
  function Encode32(n: U32): (s: seq<Byte>)
    ensures |s| == 4
  {
    [n % 0x100, n / 0x100 % 0x100, n / 0x100 / 0x100 % 0x100, n / 0x100 / 0x100 / 0x100]
  }

  /** The bits of a two's complement number. */
  function ToBits(n: I32): U32 {
    if n < 0 then n + 0x1_0000_0000 else n
  }

  function FromBits(n: U32): I32 {
    if n < 0x8000_0000 then n else n - 0x1_0000_0000
  }

  function EncodeBlob(s: Blob): seq<Byte> {
    Encode32(|s|) + s
  }

  function EncodeOptional(o: Optional): seq<Byte> {
    EncodeBlob(if o.Present? then o.value else [])
  }

  function EncodeTransport(t: Transport): seq<Byte> {
    match t
    case Tcp(peerAddr, cert) => [0] + (EncodeBlob(peerAddr) + EncodeOptional(cert))
    case Uds(uid, gid, pid) => [1] + (Encode32(uid) + (Encode32(gid) + Encode32(ToBits(pid))))
    case NamedPipe(sid, pid) => [2] + (EncodeBlob(sid) + Encode32(pid))
  }

  function EncodeHeader(h: Header): seq<Byte> {
    EncodeBlob(h.name) + EncodeBlob(h.value)
  }

  function EncodeHeaders(headers: seq<Header>): seq<Byte> {
    if headers == [] then [] else EncodeHeader(headers[0]) + EncodeHeaders(headers[1..])
  }

  function EncodeList(headers: seq<Header>): seq<Byte>
    requires |headers| < 0x1_0000_0000
  {
    Encode32(|headers|) + EncodeHeaders(headers)
  }

  function EncodeTail(version: Byte, headers: seq<Header>): seq<Byte>
    requires |headers| < 0x1_0000_0000
  {
    if version == CurrentVersion then EncodeList(headers) else []
  }

  function EncodeCredential(version: Byte, c: Credential): seq<Byte>
    requires |c.headers| < 0x1_0000_0000
  {
    [version] + (EncodeOptional(c.bearer) + (EncodeTransport(c.transport) + EncodeTail(version, c.headers)))
  }

  // ---------------------------------------------------------------------------
  // Well-formed credentials.
  // ---------------------------------------------------------------------------

  predicate ProperOptional(o: Optional) {
    o.Present? ==> o.value != []
  }

  ghost predicate ProperTransport(t: Transport) {
    match t
    case Tcp(peerAddr, cert) => IsUtf8(peerAddr) && ProperOptional(cert)
    case Uds(_, _, _) => true
    case NamedPipe(sid, _) => IsUtf8(sid)
  }

  ghost predicate ProperHeaders(headers: seq<Header>) {
    forall i | 0 <= i < |headers| :: IsUtf8(headers[i].name) && IsUtf8(headers[i].value)
  }

  ghost predicate ProperTail(version: Byte, headers: seq<Header>) {
    ProperHeaders(headers) && |headers| < 0x1_0000_0000 && (version == CurrentVersion || headers == [])
  }

  /** Valid strings, no empty optional field, and headers only in the current version. */
  ghost predicate Proper(version: Byte, c: Credential) {
    && (version == 1 || version == CurrentVersion)
    && ProperOptional(c.bearer) && ProperTransport(c.transport) && ProperTail(version, c.headers)
  }

  // ---------------------------------------------------------------------------
  // The readers.
  // ---------------------------------------------------------------------------

  datatype Error = Truncated | UnsupportedVersion | BadTag | InvalidUtf8 | TrailingData

  datatype Read<+T> = Fail(error: Error) | Got(value: T, pos: nat)

  function ReadByte(b: seq<Byte>, pos: nat): (r: Read<Byte>)
    requires pos <= |b|
    ensures r.Got? ==> pos <= r.pos <= |b|
  {
    if 1 > |b| - pos then Fail(Truncated) else Got(b[pos], pos + 1)
  }

  function FromBytes(b0: int, b1: int, b2: int, b3: int): int {
    b0 + 0x100 * (b1 + 0x100 * (b2 + 0x100 * b3))
  }

  function Read32(b: seq<Byte>, pos: nat): (r: Read<U32>)
    requires pos <= |b|
    ensures r.Got? ==> pos <= r.pos <= |b|
  {
    if 4 > |b| - pos then Fail(Truncated) else Got(FromBytes(b[pos], b[pos + 1], b[pos + 2], b[pos + 3]), pos + 4)
  }

  /** The `n` bytes at position `q`. */
  function Part(b: seq<Byte>, q: nat, n: nat): (s: seq<Byte>)
    requires q + n <= |b|
    ensures |s| == n && forall i | 0 <= i < n :: s[i] == b[q + i]
  {
    seq(n, i requires 0 <= i < n => b[q + i])
  }

  function ReadBlob(b: seq<Byte>, pos: nat): (r: Read<Blob>)
    requires pos <= |b|
    ensures r.Got? ==> pos <= r.pos <= |b|
  {
    match Read32(b, pos)
    case Fail(e) => Fail(e)
    case Got(n, q) =>
      if n > |b| - q then Fail(Truncated)
      else
        var s: Blob := Part(b, q, n);
        Got(s, q + n)
  }

  function ReadOptional(b: seq<Byte>, pos: nat): (r: Read<Optional>)
    requires pos <= |b|
    ensures r.Got? ==> pos <= r.pos <= |b|
  {
    match ReadBlob(b, pos)
    case Fail(e) => Fail(e)
    case Got(s, q) => Got(if s == [] then Absent else Present(s), q)
  }

  ghost function ReadString(b: seq<Byte>, pos: nat): (r: Read<Blob>)
    requires pos <= |b|
    ensures r.Got? ==> pos <= r.pos <= |b|
  {
    match ReadBlob(b, pos)
    case Fail(e) => Fail(e)
    case Got(s, q) => if IsUtf8(s) then Got(s, q) else Fail(InvalidUtf8)
  }

  ghost function ReadTcp(b: seq<Byte>, pos: nat): (r: Read<Transport>)
    requires pos <= |b|
    ensures r.Got? ==> pos <= r.pos <= |b|
  {
    match ReadString(b, pos)
    case Fail(e) => Fail(e)
    case Got(peerAddr, q) =>
      match ReadOptional(b, q)
      case Fail(e) => Fail(e)
      case Got(cert, r) => Got(Tcp(peerAddr, cert), r)
  }

  function ReadUds(b: seq<Byte>, pos: nat): (r: Read<Transport>)
    requires pos <= |b|
    ensures r.Got? ==> pos <= r.pos <= |b|
  {
    match Read32(b, pos)
    case Fail(e) => Fail(e)
    case Got(uid, q) =>
      match Read32(b, q)
      case Fail(e) => Fail(e)
      case Got(gid, p) =>
        match Read32(b, p)
        case Fail(e) => Fail(e)
        case Got(pid, t) => Got(Uds(uid, gid, FromBits(pid)), t)
  }

  ghost function ReadPipe(b: seq<Byte>, pos: nat): (r: Read<Transport>)
    requires pos <= |b|
    ensures r.Got? ==> pos <= r.pos <= |b|
  {
    match ReadString(b, pos)
    case Fail(e) => Fail(e)
    case Got(sid, q) =>
      match Read32(b, q)
      case Fail(e) => Fail(e)
      case Got(pid, r) => Got(NamedPipe(sid, pid), r)
  }

  ghost function ReadTransport(b: seq<Byte>, pos: nat): (r: Read<Transport>)
    requires pos <= |b|
    ensures r.Got? ==> pos <= r.pos <= |b|
  {
    match ReadByte(b, pos)
    case Fail(e) => Fail(e)
    case Got(tag, q) =>
      if tag == 0 then ReadTcp(b, q)
      else if tag == 1 then ReadUds(b, q)
      else if tag == 2 then ReadPipe(b, q)
      else Fail(BadTag)
  }

  ghost function ReadHeader(b: seq<Byte>, pos: nat): (r: Read<Header>)
    requires pos <= |b|
    ensures r.Got? ==> pos <= r.pos <= |b|
  {
    match ReadString(b, pos)
    case Fail(e) => Fail(e)
    case Got(name, q) =>
      match ReadString(b, q)
      case Fail(e) => Fail(e)
      case Got(value, r) => Got(Header(name, value), r)
  }

  ghost function ReadHeaders(b: seq<Byte>, pos: nat, count: nat): (r: Read<seq<Header>>)
    requires pos <= |b|
    ensures r.Got? ==> pos <= r.pos <= |b| && |r.value| == count
    decreases count
  {
    if count == 0 then Got([], pos)
    else
      match ReadHeader(b, pos)
      case Fail(e) => Fail(e)
      case Got(h, q) =>
        match ReadHeaders(b, q, count - 1)
        case Fail(e) => Fail(e)
        case Got(more, r) => Got([h] + more, r)
  }

  /** The header list; a count that cannot fit in what is left is refused at once. */
  ghost function ReadList(b: seq<Byte>, pos: nat): (r: Read<seq<Header>>)
    requires pos <= |b|
    ensures r.Got? ==> pos <= r.pos <= |b|
  {
    match Read32(b, pos)
    case Fail(e) => Fail(e)
    case Got(count, q) => if count > (|b| - q) / 8 then Fail(Truncated) else ReadHeaders(b, q, count)
  }

  ghost function ReadTail(version: Byte, b: seq<Byte>, pos: nat): (r: Read<seq<Header>>)
    requires pos <= |b|
    ensures r.Got? ==> pos <= r.pos <= |b|
  {
    if version == CurrentVersion then ReadList(b, pos) else Got([], pos)
  }

  ghost function ReadBody(version: Byte, b: seq<Byte>, pos: nat): (r: Read<Credential>)
    requires pos <= |b|
    ensures r.Got? ==> pos <= r.pos <= |b|
  {
    match ReadOptional(b, pos)
    case Fail(e) => Fail(e)
    case Got(bearer, q) =>
      match ReadTransport(b, q)
      case Fail(e) => Fail(e)
      case Got(transport, r) =>
        match ReadTail(version, b, r)
        case Fail(e) => Fail(e)
        case Got(headers, t) => Got(Credential(bearer, transport, headers), t)
  }

  /** The version and the credential of a message. */
  ghost function Decode(b: seq<Byte>): Read<(Byte, Credential)> {
    match ReadByte(b, 0)
    case Fail(e) => Fail(e)
    case Got(version, q) =>
      if version != 1 && version != CurrentVersion then Fail(UnsupportedVersion)
      else
        match ReadBody(version, b, q)
        case Fail(e) => Fail(e)
        case Got(c, r) => if r != |b| then Fail(TrailingData) else Got((version, c), r)
  }

  // ---------------------------------------------------------------------------
  // Each reader undoes its part of the encoder, and accepts nothing else.
  // ---------------------------------------------------------------------------

  /** The bytes `s` stand at position `pos`. */
  ghost predicate Holds(b: seq<Byte>, pos: nat, s: seq<Byte>) {
    pos + |s| <= |b| && forall k | 0 <= k < |s| :: s[k] == b[pos + k]
  }

  lemma HoldsBoth(b: seq<Byte>, pos: nat, s: seq<Byte>, t: seq<Byte>)
    ensures Holds(b, pos, s + t) <==> Holds(b, pos, s) && Holds(b, pos + |s|, t)
  {
    var st := s + t;
    assert forall k | 0 <= k < |s| :: st[k] == s[k];
    assert forall k | 0 <= k < |t| :: st[|s| + k] == t[k];
    assert forall k | |s| <= k < |st| :: st[k] == t[k - |s|];
    if Holds(b, pos, st) {
      forall k | 0 <= k < |t| ensures t[k] == b[pos + |s| + k] {
        assert st[|s| + k] == b[pos + (|s| + k)];
      }
    }
    if Holds(b, pos, s) && Holds(b, pos + |s|, t) {
      forall k | 0 <= k < |st| ensures st[k] == b[pos + k] {
        if k >= |s| {
          assert t[k - |s|] == b[pos + |s| + (k - |s|)];
        }
      }
    }
  }

  lemma Digits(b0: Byte, b1: Byte, b2: Byte, b3: Byte, n: U32)
    ensures FromBytes(b0, b1, b2, b3) == n <==> Encode32(n) == [b0, b1, b2, b3]
  {
    var high: int := b2 + 0x100 * (b3 as int);
    if FromBytes(b0, b1, b2, b3) == n {
      assert n / 0x100 == b1 as int + 0x100 * high;
      assert n / 0x100 / 0x100 == high;
    }
  }

  lemma Read32Exactly(b: seq<Byte>, pos: nat, n: U32, q: nat)
    requires pos <= |b|
    ensures Read32(b, pos) == Got(n, q) <==> q == pos + 4 && Holds(b, pos, Encode32(n))
  {
    if pos + 4 <= |b| {
      Digits(b[pos], b[pos + 1], b[pos + 2], b[pos + 3], n);
      var e := Encode32(n);
      assert Holds(b, pos, e) <==> e[0] == b[pos + 0] && e[1] == b[pos + 1] && e[2] == b[pos + 2] && e[3] == b[pos + 3];
    }
  }

  lemma PartIs(b: seq<Byte>, q: nat, s: seq<Byte>)
    requires q + |s| <= |b|
    ensures Part(b, q, |s|) == s <==> Holds(b, q, s)
    ensures Part(b, q, |s|) == b[q..q + |s|]
  {
  }

  lemma ReadBlobExactly(b: seq<Byte>, pos: nat, s: Blob, q: nat)
    requires pos <= |b|
    ensures ReadBlob(b, pos) == Got(s, q) <==> q == pos + |EncodeBlob(s)| && Holds(b, pos, EncodeBlob(s))
  {
    HoldsBoth(b, pos, Encode32(|s|), s);
    Read32Exactly(b, pos, |s|, pos + 4);
    if pos + 4 + |s| <= |b| {
      PartIs(b, pos + 4, s);
    }
    if ReadBlob(b, pos) == Got(s, q) {
      Read32Exactly(b, pos, Read32(b, pos).value, Read32(b, pos).pos);
    }
  }

  lemma ReadOptionalExactly(b: seq<Byte>, pos: nat, o: Optional, q: nat)
    requires pos <= |b|
    ensures ReadOptional(b, pos) == Got(o, q) <==>
            ProperOptional(o) && q == pos + |EncodeOptional(o)| && Holds(b, pos, EncodeOptional(o))
  {
    var s: Blob := if o.Present? then o.value else [];
    ReadBlobExactly(b, pos, s, q);
  }

  lemma ReadStringExactly(b: seq<Byte>, pos: nat, s: Blob, q: nat)
    requires pos <= |b|
    ensures ReadString(b, pos) == Got(s, q) <==> IsUtf8(s) && q == pos + |EncodeBlob(s)| && Holds(b, pos, EncodeBlob(s))
  {
    ReadBlobExactly(b, pos, s, q);
  }

  lemma ReadTcpExactly(b: seq<Byte>, pos: nat, peerAddr: Blob, cert: Optional, q: nat)
    requires pos <= |b|
    ensures var e := EncodeBlob(peerAddr) + EncodeOptional(cert);
            ReadTcp(b, pos) == Got(Tcp(peerAddr, cert), q) <==>
            IsUtf8(peerAddr) && ProperOptional(cert) && q == pos + |e| && Holds(b, pos, e)
  {
    var mid := pos + |EncodeBlob(peerAddr)|;
    HoldsBoth(b, pos, EncodeBlob(peerAddr), EncodeOptional(cert));
    ReadStringExactly(b, pos, peerAddr, mid);
    if ReadString(b, pos).Got? {
      var r := ReadString(b, pos);
      ReadStringExactly(b, pos, r.value, r.pos);
      ReadOptionalExactly(b, r.pos, cert, q);
    }
  }

  lemma ReadPipeExactly(b: seq<Byte>, pos: nat, sid: Blob, pid: U32, q: nat)
    requires pos <= |b|
    ensures var e := EncodeBlob(sid) + Encode32(pid);
            ReadPipe(b, pos) == Got(NamedPipe(sid, pid), q) <==> IsUtf8(sid) && q == pos + |e| && Holds(b, pos, e)
  {
    var mid := pos + |EncodeBlob(sid)|;
    HoldsBoth(b, pos, EncodeBlob(sid), Encode32(pid));
    ReadStringExactly(b, pos, sid, mid);
    if ReadString(b, pos).Got? {
      var r := ReadString(b, pos);
      ReadStringExactly(b, pos, r.value, r.pos);
      Read32Exactly(b, r.pos, pid, q);
    }
  }

  lemma BitsOfSigned(n: I32, m: U32)
    ensures FromBits(m) == n <==> m == ToBits(n)
  {
  }

  lemma ReadUdsExactly(b: seq<Byte>, pos: nat, uid: U32, gid: U32, pid: I32, q: nat)
    requires pos <= |b|
    ensures var e := Encode32(uid) + (Encode32(gid) + Encode32(ToBits(pid)));
            ReadUds(b, pos) == Got(Uds(uid, gid, pid), q) <==> q == pos + |e| && Holds(b, pos, e)
  {
    HoldsBoth(b, pos, Encode32(uid), Encode32(gid) + Encode32(ToBits(pid)));
    HoldsBoth(b, pos + 4, Encode32(gid), Encode32(ToBits(pid)));
    Read32Exactly(b, pos, uid, pos + 4);
    if pos + 4 <= |b| {
      Read32Exactly(b, pos + 4, gid, pos + 8);
    }
    if pos + 8 <= |b| {
      Read32Exactly(b, pos + 8, ToBits(pid), pos + 12);
      if pos + 12 <= |b| {
        BitsOfSigned(pid, Read32(b, pos + 8).value);
      }
    }
  }

  lemma HoldsByte(b: seq<Byte>, pos: nat, tag: Byte, s: seq<Byte>)
    ensures Holds(b, pos, [tag] + s) <==> pos < |b| && b[pos] == tag && Holds(b, pos + 1, s)
  {
    HoldsBoth(b, pos, [tag], s);
    assert Holds(b, pos, [tag]) <==> pos < |b| && [tag][0] == b[pos + 0];
  }

  /** Which reader a transport comes from. */
  lemma ReadByTag(b: seq<Byte>, pos: nat, t: Transport, q: nat)
    requires pos <= |b|
    ensures ReadTransport(b, pos) == Got(t, q) <==>
            && pos < |b|
            && match t
               case Tcp(_, _) => b[pos] == 0 && ReadTcp(b, pos + 1) == Got(t, q)
               case Uds(_, _, _) => b[pos] == 1 && ReadUds(b, pos + 1) == Got(t, q)
               case NamedPipe(_, _) => b[pos] == 2 && ReadPipe(b, pos + 1) == Got(t, q)
  {
  }

  /** A field behind a tag, when the field is read exactly where its encoding `e` stands. */
  lemma TaggedExactly(b: seq<Byte>, pos: nat, tag: Byte, e: seq<Byte>, proper: bool, got: bool, q: nat)
    requires pos < |b| ==> (got <==> proper && q == pos + 1 + |e| && Holds(b, pos + 1, e))
    ensures pos < |b| && b[pos] == tag && got <==> proper && q == pos + |[tag] + e| && Holds(b, pos, [tag] + e)
  {
    HoldsByte(b, pos, tag, e);
  }

  lemma ReadTransportTcp(b: seq<Byte>, pos: nat, peerAddr: Blob, cert: Optional, q: nat)
    requires pos <= |b|
    ensures var t := Tcp(peerAddr, cert);
            ReadTransport(b, pos) == Got(t, q) <==>
            ProperTransport(t) && q == pos + |EncodeTransport(t)| && Holds(b, pos, EncodeTransport(t))
  {
    var t, e := Tcp(peerAddr, cert), EncodeBlob(peerAddr) + EncodeOptional(cert);
    ReadByTag(b, pos, t, q);
    if pos < |b| {
      ReadTcpExactly(b, pos + 1, peerAddr, cert, q);
    }
    TaggedExactly(b, pos, 0, e, ProperTransport(t), pos < |b| && ReadTcp(b, pos + 1) == Got(t, q), q);
  }

  lemma ReadTransportUds(b: seq<Byte>, pos: nat, uid: U32, gid: U32, pid: I32, q: nat)
    requires pos <= |b|
    ensures var t := Uds(uid, gid, pid);
            ReadTransport(b, pos) == Got(t, q) <==> q == pos + |EncodeTransport(t)| && Holds(b, pos, EncodeTransport(t))
  {
    var t, e := Uds(uid, gid, pid), Encode32(uid) + (Encode32(gid) + Encode32(ToBits(pid)));
    ReadByTag(b, pos, t, q);
    if pos < |b| {
      ReadUdsExactly(b, pos + 1, uid, gid, pid, q);
    }
    TaggedExactly(b, pos, 1, e, true, pos < |b| && ReadUds(b, pos + 1) == Got(t, q), q);
  }

  lemma ReadTransportPipe(b: seq<Byte>, pos: nat, sid: Blob, pid: U32, q: nat)
    requires pos <= |b|
    ensures var t := NamedPipe(sid, pid);
            ReadTransport(b, pos) == Got(t, q) <==>
            ProperTransport(t) && q == pos + |EncodeTransport(t)| && Holds(b, pos, EncodeTransport(t))
  {
    var t, e := NamedPipe(sid, pid), EncodeBlob(sid) + Encode32(pid);
    ReadByTag(b, pos, t, q);
    if pos < |b| {
      ReadPipeExactly(b, pos + 1, sid, pid, q);
    }
    TaggedExactly(b, pos, 2, e, ProperTransport(t), pos < |b| && ReadPipe(b, pos + 1) == Got(t, q), q);
  }

  lemma ReadTransportExactly(b: seq<Byte>, pos: nat, t: Transport, q: nat)
    requires pos <= |b|
    ensures ReadTransport(b, pos) == Got(t, q) <==>
            ProperTransport(t) && q == pos + |EncodeTransport(t)| && Holds(b, pos, EncodeTransport(t))
  {
    match t
    case Tcp(peerAddr, cert) => ReadTransportTcp(b, pos, peerAddr, cert, q);
    case Uds(uid, gid, pid) => ReadTransportUds(b, pos, uid, gid, pid, q);
    case NamedPipe(sid, pid) => ReadTransportPipe(b, pos, sid, pid, q);
  }

  lemma ReadHeaderExactly(b: seq<Byte>, pos: nat, h: Header, q: nat)
    requires pos <= |b|
    ensures ReadHeader(b, pos) == Got(h, q) <==>
            IsUtf8(h.name) && IsUtf8(h.value) && q == pos + |EncodeHeader(h)| && Holds(b, pos, EncodeHeader(h))
  {
    var mid := pos + |EncodeBlob(h.name)|;
    HoldsBoth(b, pos, EncodeBlob(h.name), EncodeBlob(h.value));
    ReadStringExactly(b, pos, h.name, mid);
    if ReadString(b, pos).Got? {
      var r := ReadString(b, pos);
      ReadStringExactly(b, pos, r.value, r.pos);
      ReadStringExactly(b, r.pos, h.value, q);
    }
  }

  lemma ProperMore(h: Header, more: seq<Header>)
    ensures ProperHeaders([h] + more) <==> IsUtf8(h.name) && IsUtf8(h.value) && ProperHeaders(more)
    ensures EncodeHeaders([h] + more) == EncodeHeader(h) + EncodeHeaders(more)
  {
    var all := [h] + more;
    assert all[0] == h && all[1..] == more;
    assert forall i | 0 <= i < |more| :: more[i] == all[i + 1];
  }

  lemma HeadersTogether(b: seq<Byte>, pos: nat, h: Header, mid: nat, more: seq<Header>, q: nat)
    requires IsUtf8(h.name) && IsUtf8(h.value) && mid == pos + |EncodeHeader(h)| && Holds(b, pos, EncodeHeader(h))
    requires ProperHeaders(more) && q == mid + |EncodeHeaders(more)| && Holds(b, mid, EncodeHeaders(more))
    ensures var all := [h] + more;
            ProperHeaders(all) && q == pos + |EncodeHeaders(all)| && Holds(b, pos, EncodeHeaders(all))
  {
    ProperMore(h, more);
    HoldsBoth(b, pos, EncodeHeader(h), EncodeHeaders(more));
  }

  lemma FirstHeader(b: seq<Byte>, pos: nat, headers: seq<Header>, q: nat) returns (h: Header, mid: nat, more: seq<Header>)
    requires pos <= |b| && headers != [] && ReadHeaders(b, pos, |headers|) == Got(headers, q)
    ensures headers == [h] + more && mid <= |b| && ReadHeader(b, pos) == Got(h, mid)
    ensures ReadHeaders(b, mid, |more|) == Got(more, q)
  {
    var r := ReadHeader(b, pos);
    h, mid := r.value, r.pos;
    more := ReadHeaders(b, mid, |headers| - 1).value;
  }

  lemma {:induction false} ReadHeadersMeans(b: seq<Byte>, pos: nat, headers: seq<Header>, q: nat)
    requires pos <= |b| && ReadHeaders(b, pos, |headers|) == Got(headers, q)
    ensures ProperHeaders(headers) && q == pos + |EncodeHeaders(headers)| && Holds(b, pos, EncodeHeaders(headers))
    decreases |headers|
  {
    if headers != [] {
      var h, mid, more := FirstHeader(b, pos, headers, q);
      ReadHeaderExactly(b, pos, h, mid);
      ReadHeadersMeans(b, mid, more, q);
      HeadersTogether(b, pos, h, mid, more, q);
    }
  }

  lemma PartsHeaders(b: seq<Byte>, pos: nat, h: Header, mid: nat, more: seq<Header>, q: nat)
    requires pos <= |b| && mid <= |b| && ReadHeader(b, pos) == Got(h, mid) && ReadHeaders(b, mid, |more|) == Got(more, q)
    ensures ReadHeaders(b, pos, |more| + 1) == Got([h] + more, q)
  {
  }

  lemma FirstEncoded(b: seq<Byte>, pos: nat, h: Header, more: seq<Header>)
    requires ProperHeaders([h] + more) && Holds(b, pos, EncodeHeaders([h] + more))
    ensures IsUtf8(h.name) && IsUtf8(h.value) && Holds(b, pos, EncodeHeader(h))
    ensures ProperHeaders(more) && Holds(b, pos + |EncodeHeader(h)|, EncodeHeaders(more))
    ensures |EncodeHeaders([h] + more)| == |EncodeHeader(h)| + |EncodeHeaders(more)|
  {
    ProperMore(h, more);
    HoldsBoth(b, pos, EncodeHeader(h), EncodeHeaders(more));
  }

  lemma {:induction false} MeansReadHeaders(b: seq<Byte>, pos: nat, headers: seq<Header>)
    requires pos <= |b| && ProperHeaders(headers) && Holds(b, pos, EncodeHeaders(headers))
    ensures ReadHeaders(b, pos, |headers|) == Got(headers, pos + |EncodeHeaders(headers)|)
    decreases |headers|
  {
    if headers != [] {
      var h, more := headers[0], headers[1..];
      assert headers == [h] + more;
      FirstEncoded(b, pos, h, more);
      var q := pos + |EncodeHeader(h)|;
      ReadHeaderExactly(b, pos, h, q);
      MeansReadHeaders(b, q, more);
      PartsHeaders(b, pos, h, q, more, q + |EncodeHeaders(more)|);
    }
  }

  /** Each header takes eight bytes at least. */
  lemma {:induction false} HeadersAreLong(headers: seq<Header>)
    ensures |EncodeHeaders(headers)| >= 8 * |headers|
  {
    if headers != [] {
      HeadersAreLong(headers[1..]);
    }
  }

  lemma Eighth(n: nat, k: nat)
    requires 8 * n <= k
    ensures n <= k / 8
  {
  }

  /** The early check of the header count refuses no encodable list. */
  lemma {:induction false} CountFits(b: seq<Byte>, pos: nat, headers: seq<Header>)
    requires Holds(b, pos, EncodeHeaders(headers))
    ensures |headers| <= (|b| - pos) / 8
  {
    var length := |EncodeHeaders(headers)|;
    HeadersAreLong(headers);
    assert 8 * |headers| <= length && length <= |b| - pos;
    Eighth(|headers|, |b| - pos);
  }

  lemma ListParts(b: seq<Byte>, pos: nat, headers: seq<Header>, q: nat)
    requires pos <= |b| && ReadList(b, pos) == Got(headers, q)
    ensures pos + 4 <= |b| && |headers| < 0x1_0000_0000
    ensures Read32(b, pos) == Got(|headers|, pos + 4) && ReadHeaders(b, pos + 4, |headers|) == Got(headers, q)
  {
  }

  lemma ReadListMeans(b: seq<Byte>, pos: nat, headers: seq<Header>, q: nat)
    requires pos <= |b| && ReadList(b, pos) == Got(headers, q)
    ensures ProperHeaders(headers) && |headers| < 0x1_0000_0000
    ensures q == pos + |EncodeList(headers)| && Holds(b, pos, EncodeList(headers))
  {
    ListParts(b, pos, headers, q);
    Read32Exactly(b, pos, |headers|, pos + 4);
    ReadHeadersMeans(b, pos + 4, headers, q);
    HoldsBoth(b, pos, Encode32(|headers|), EncodeHeaders(headers));
  }

  lemma PartsList(b: seq<Byte>, pos: nat, headers: seq<Header>, q: nat)
    requires pos + 4 <= |b| && |headers| < 0x1_0000_0000 && |headers| <= (|b| - (pos + 4)) / 8
    requires Read32(b, pos) == Got(|headers|, pos + 4) && ReadHeaders(b, pos + 4, |headers|) == Got(headers, q)
    ensures ReadList(b, pos) == Got(headers, q)
  {
  }

  lemma MeansReadList(b: seq<Byte>, pos: nat, headers: seq<Header>)
    requires pos <= |b| && ProperHeaders(headers) && |headers| < 0x1_0000_0000 && Holds(b, pos, EncodeList(headers))
    ensures ReadList(b, pos) == Got(headers, pos + |EncodeList(headers)|)
  {
    HoldsBoth(b, pos, Encode32(|headers|), EncodeHeaders(headers));
    Read32Exactly(b, pos, |headers|, pos + 4);
    CountFits(b, pos + 4, headers);
    MeansReadHeaders(b, pos + 4, headers);
    PartsList(b, pos, headers, pos + 4 + |EncodeHeaders(headers)|);
  }

  lemma ReadListExactly(b: seq<Byte>, pos: nat, headers: seq<Header>, q: nat)
    requires pos <= |b|
    ensures ReadList(b, pos) == Got(headers, q) <==>
            && ProperHeaders(headers) && |headers| < 0x1_0000_0000
            && q == pos + |EncodeList(headers)| && Holds(b, pos, EncodeList(headers))
  {
    if ReadList(b, pos) == Got(headers, q) {
      ReadListMeans(b, pos, headers, q);
    }
    if ProperHeaders(headers) && |headers| < 0x1_0000_0000 && Holds(b, pos, EncodeList(headers)) {
      MeansReadList(b, pos, headers);
    }
  }

  lemma ReadTailExactly(version: Byte, b: seq<Byte>, pos: nat, headers: seq<Header>, q: nat)
    requires pos <= |b|
    ensures ReadTail(version, b, pos) == Got(headers, q) <==>
            ProperTail(version, headers) && q == pos + |EncodeTail(version, headers)| && Holds(b, pos, EncodeTail(version, headers))
  {
    ReadListExactly(b, pos, headers, q);
  }

  ghost predicate ProperBody(version: Byte, c: Credential) {
    ProperOptional(c.bearer) && ProperTransport(c.transport) && ProperTail(version, c.headers)
  }

  function EncodeBody(version: Byte, c: Credential): seq<Byte>
    requires |c.headers| < 0x1_0000_0000
  {
    EncodeOptional(c.bearer) + (EncodeTransport(c.transport) + EncodeTail(version, c.headers))
  }

  lemma HoldsThree(b: seq<Byte>, pos: nat, s: seq<Byte>, t: seq<Byte>, u: seq<Byte>)
    ensures Holds(b, pos, s + (t + u)) <==> Holds(b, pos, s) && Holds(b, pos + |s|, t) && Holds(b, pos + |s| + |t|, u)
  {
    HoldsBoth(b, pos, s, t + u);
    HoldsBoth(b, pos + |s|, t, u);
  }

  lemma BodyParts(version: Byte, b: seq<Byte>, pos: nat, c: Credential, q: nat) returns (r: nat, t: nat)
    requires pos <= |b| && ReadBody(version, b, pos) == Got(c, q)
    ensures r <= |b| && t <= |b| && ReadOptional(b, pos) == Got(c.bearer, r)
    ensures ReadTransport(b, r) == Got(c.transport, t) && ReadTail(version, b, t) == Got(c.headers, q)
  {
    r := ReadOptional(b, pos).pos;
    t := ReadTransport(b, r).pos;
  }

  lemma PartsBody(version: Byte, b: seq<Byte>, pos: nat, c: Credential, r: nat, t: nat, q: nat)
    requires pos <= |b| && r <= |b| && t <= |b| && ReadOptional(b, pos) == Got(c.bearer, r)
    requires ReadTransport(b, r) == Got(c.transport, t) && ReadTail(version, b, t) == Got(c.headers, q)
    ensures ReadBody(version, b, pos) == Got(c, q)
  {
  }

  /** Three parts that stand one after the other stand there together. */
  lemma Together(b: seq<Byte>, pos: nat, s: seq<Byte>, r: nat, t: seq<Byte>, p: nat, u: seq<Byte>, q: nat)
    requires r == pos + |s| && p == r + |t| && q == p + |u| && Holds(b, pos, s) && Holds(b, r, t) && Holds(b, p, u)
    ensures var all := s + (t + u); q == pos + |all| && Holds(b, pos, all)
  {
    HoldsThree(b, pos, s, t, u);
  }

  lemma ReadBodyMeans(version: Byte, b: seq<Byte>, pos: nat, c: Credential, q: nat)
    requires pos <= |b| && ReadBody(version, b, pos) == Got(c, q)
    ensures ProperBody(version, c) && q == pos + |EncodeBody(version, c)| && Holds(b, pos, EncodeBody(version, c))
  {
    var r, t := BodyParts(version, b, pos, c, q);
    ReadOptionalExactly(b, pos, c.bearer, r);
    ReadTransportExactly(b, r, c.transport, t);
    ReadTailExactly(version, b, t, c.headers, q);
    Together(b, pos, EncodeOptional(c.bearer), r, EncodeTransport(c.transport), t, EncodeTail(version, c.headers), q);
  }

  lemma ThreeApart(b: seq<Byte>, pos: nat, s: seq<Byte>, t: seq<Byte>, u: seq<Byte>) returns (r: nat, p: nat, q: nat)
    requires Holds(b, pos, s + (t + u))
    ensures r == pos + |s| && p == r + |t| && q == p + |u| && q == pos + |s + (t + u)|
    ensures Holds(b, pos, s) && Holds(b, r, t) && Holds(b, p, u)
  {
    HoldsThree(b, pos, s, t, u);
    r, p, q := pos + |s|, pos + |s| + |t|, pos + |s| + |t| + |u|;
  }

  lemma MeansReadBody(version: Byte, b: seq<Byte>, pos: nat, c: Credential)
    requires pos <= |b| && ProperBody(version, c) && Holds(b, pos, EncodeBody(version, c))
    ensures ReadBody(version, b, pos) == Got(c, pos + |EncodeBody(version, c)|)
  {
    var r, p, q := ThreeApart(b, pos, EncodeOptional(c.bearer), EncodeTransport(c.transport), EncodeTail(version, c.headers));
    ReadOptionalExactly(b, pos, c.bearer, r);
    ReadTransportExactly(b, r, c.transport, p);
    ReadTailExactly(version, b, p, c.headers, q);
    PartsBody(version, b, pos, c, r, p, q);
  }

  lemma HoldsAll(b: seq<Byte>, version: Byte, body: seq<Byte>)
    ensures b == [version] + body <==> |b| == 1 + |body| && b[0] == version && Holds(b, 1, body)
  {
    HoldsByte(b, 0, version, body);
    var all := [version] + body;
    if |b| == |all| {
      assert Holds(b, 0, all) ==> b == all by {
        if Holds(b, 0, all) {
          assert forall k | 0 <= k < |all| :: all[k] == b[0 + k];
        }
      }
    }
  }

  lemma DecodedIsEncoded(b: seq<Byte>, version: Byte, c: Credential)
    requires Decode(b) == Got((version, c), |b|)
    ensures Proper(version, c) && b == EncodeCredential(version, c)
  {
    ReadBodyMeans(version, b, 1, c, |b|);
    HoldsAll(b, version, EncodeBody(version, c));
  }

  lemma EncodedIsDecoded(b: seq<Byte>, version: Byte, c: Credential)
    requires Proper(version, c) && b == EncodeCredential(version, c)
    ensures Decode(b) == Got((version, c), |b|)
  {
    HoldsAll(b, version, EncodeBody(version, c));
    MeansReadBody(version, b, 1, c);
  }

  /** A message decodes to a version and a credential exactly when it is the encoding of a proper one. */
  lemma DecodesExactly(b: seq<Byte>, version: Byte, c: Credential)
    ensures Decode(b) == Got((version, c), |b|) <==> Proper(version, c) && b == EncodeCredential(version, c)
  {
    if Decode(b) == Got((version, c), |b|) {
      DecodedIsEncoded(b, version, c);
    }
    if Proper(version, c) && b == EncodeCredential(version, c) {
      EncodedIsDecoded(b, version, c);
    }
  }

  /** No two proper credentials have the same encoding. */
  lemma EncodedOnce(v: Byte, c: Credential, v': Byte, c': Credential, b: seq<Byte>)
    requires Proper(v, c) && Proper(v', c') && b == EncodeCredential(v, c) && b == EncodeCredential(v', c')
    ensures v == v' && c == c'
  {
    DecodesExactly(b, v, c);
    DecodesExactly(b, v', c');
  }

  /** No message has two meanings, and none that is not an encoding is accepted. */
  lemma DecodeMeans(b: seq<Byte>)
    requires Decode(b).Got?
    ensures var (version, c) := Decode(b).value; Proper(version, c) && b == EncodeCredential(version, c)
  {
    var (version, c) := Decode(b).value;
    DecodesExactly(b, version, c);
  }
}
