/** `ovstorage_plugin_auth_credential_decode` and `_free`, on a heap that is accounted for block by block. */
module AuthDecoder {
  import opened Basics
  import opened Utf8
  import opened AuthWire
  import opened AuthMemory
  import AuthErrors

  datatype Status = Okay | Bad(error: Error)

  /** A pointer into the message, with the bytes it may be used for. */
  datatype View = Null | View(data: seq<Byte>)

  /** A reader's answer and the cursor it leaves are the ones `r` promises. */
  ghost predicate Follows<T(!new)>(r: Read<T>, status: Status, pos: nat, value: T) {
    match r
    case Fail(e) => status == Bad(e)
    case Got(v, q) => status == Okay && pos == q && value == v
  }

  /** `ovc_auth_cursor`: once it has an error it stays where it is. */
  class Cursor {
    const bytes: seq<Byte>
    var pos: nat
    var error: Status

    ghost predicate Valid()
      reads this
    {
      pos <= |bytes|
    }

    constructor (bytes: seq<Byte>)
      ensures this.bytes == bytes && pos == 0 && error == Okay && Valid()
    {
      this.bytes := bytes;
      pos := 0;
      error := Okay;
    }

    method Take(count: nat) returns (value: View)
      requires Valid()
      modifies this`pos, this`error
      ensures Valid()
      ensures old(error).Bad? ==> error == old(error) && value == Null
      ensures old(error) == Okay && count > |bytes| - old(pos) ==> error == Bad(Truncated) && value == Null
      ensures old(error) == Okay && count <= |bytes| - old(pos) ==>
                error == Okay && pos == old(pos) + count && value == View(bytes[old(pos)..old(pos) + count])
    {
      if error != Okay {
        return Null;
      }
      if pos > |bytes| || count > |bytes| - pos {
        error := Bad(Truncated);
        return Null;
      }
      value := View(bytes[pos..pos + count]);
      pos := pos + count;
    }

    method Byte8() returns (value: Byte)
      requires Valid()
      modifies this`pos, this`error
      ensures Valid()
      ensures old(error).Bad? ==> error == old(error) && value == 0
      ensures old(error) == Okay ==> Follows(ReadByte(bytes, old(pos)), error, pos, value)
    {
      var taken := Take(1);
      value := if taken == Null then 0 else taken.data[0];
    }

    method Word32() returns (value: U32)
      requires Valid()
      modifies this`pos, this`error
      ensures Valid()
      ensures old(error).Bad? ==> error == old(error) && value == 0
      ensures old(error) == Okay ==> Follows(Read32(bytes, old(pos)), error, pos, value)
      ensures error == Okay ==>
                var b0: int, b1: int, b2: int, b3: int := bytes[pos - 4], bytes[pos - 3], bytes[pos - 2], bytes[pos - 1];
                value == b0 + 0x100 * b1 + 0x1_0000 * b2 + 0x100_0000 * b3
    {
      var taken := Take(4);
      if taken == Null {
        return 0;
      }
      var b0: int, b1: int, b2: int, b3: int := taken.data[0], taken.data[1], taken.data[2], taken.data[3];
      value := b0 + 0x100 * b1 + 0x1_0000 * b2 + 0x100_0000 * b3;
    }

    method Signed32() returns (value: I32)
      requires Valid()
      modifies this`pos, this`error
      ensures Valid()
      ensures old(error).Bad? ==> error == old(error) && value == 0
      ensures old(error) == Okay ==>
                match Read32(bytes, old(pos))
                case Fail(e) => error == Bad(e)
                case Got(n, q) => error == Okay && pos == q && value == FromBits(n)
    {
      var bits := Word32();
      value := 0;
      if error == Okay {
        value := FromBits(bits);
      }
    }

    method Bytes() returns (value: View, len: nat)
      requires Valid()
      modifies this`pos, this`error
      ensures Valid()
      ensures old(error).Bad? ==> error == old(error)
      ensures old(error) == Okay ==>
                match ReadBlob(bytes, old(pos))
                case Fail(e) => error == Bad(e)
                case Got(s, q) => error == Okay && pos == q && value == View(s) && len == |s|
    {
      len := Word32();
      if error != Okay {
        return Null, 0;
      }
      ghost var start := pos;
      value := Take(len);
      if error == Okay {
        PartIs(bytes, start, value.data);
      }
    }
  }

  /** A copy of a valid string; nothing is allocated for an invalid one. */
  method CopyString(cursor: Cursor, heap: Heap, ghost slot: Slot) returns (out: Slice)
    requires cursor.Valid() && heap.Valid()
    modifies cursor`pos, cursor`error, heap
    ensures cursor.Valid() && heap.Valid() && heap.released == old(heap.released)
    ensures old(cursor.error).Bad? ==> cursor.error == old(cursor.error)
    ensures old(cursor.error) == Okay ==>
              match ReadString(cursor.bytes, old(cursor.pos))
              case Fail(e) => cursor.error == Bad(e)
              case Got(s, q) =>
                && cursor.error == Okay && cursor.pos == q
                && out == Slice(old(heap.next), |s|) && old(heap.next) != 0 && old(heap.next) !in old(heap.blocks)
                && heap.blocks == old(heap.blocks)[out.ptr := s] && heap.slots == old(heap.slots)[out.ptr := slot]
    ensures cursor.error.Bad? ==> out == NullSlice && heap.blocks == old(heap.blocks) && heap.slots == old(heap.slots)
  {
    out := NullSlice;
    var bytes, len := cursor.Bytes();
    if cursor.error != Okay {
      return;
    }
    var valid := TableUtf8(bytes.data);
    if !valid {
      cursor.error := Bad(InvalidUtf8);
      return;
    }
    var ptr := heap.Allocate(bytes.data, slot);
    out := Slice(ptr, len);
  }

  /** An optional field: a copy of its bytes, or nothing when it is empty. */
  method CopyOptional(cursor: Cursor, heap: Heap, ghost slot: Slot) returns (out: OptionalSlice)
    requires cursor.Valid() && heap.Valid()
    modifies cursor`pos, cursor`error, heap
    ensures cursor.Valid() && heap.Valid() && heap.released == old(heap.released)
    ensures old(cursor.error).Bad? ==> cursor.error == old(cursor.error)
    ensures old(cursor.error) == Okay ==>
              match ReadOptional(cursor.bytes, old(cursor.pos))
              case Fail(e) => cursor.error == Bad(e)
              case Got(o, q) =>
                && cursor.error == Okay && cursor.pos == q && out.present == o.Present?
                && (o.Present? ==>
                      && out.value == Slice(old(heap.next), |o.value|)
                      && old(heap.next) != 0 && old(heap.next) !in old(heap.blocks)
                      && heap.blocks == old(heap.blocks)[out.value.ptr := o.value]
                      && heap.slots == old(heap.slots)[out.value.ptr := slot])
    ensures !out.present ==> out == NullOptional && heap.blocks == old(heap.blocks) && heap.slots == old(heap.slots)
    ensures cursor.error.Bad? ==> !out.present
  {
    out := NullOptional;
    var field, len := cursor.Bytes();
    if cursor.error == Okay && len != 0 {
      var ptr := heap.Allocate(field.data, slot);
      out := OptionalSlice(true, Slice(ptr, len));
    }
  }

  // ---------------------------------------------------------------------------
  // Clearing.
  // ---------------------------------------------------------------------------

  /** The length recorded for the secret is the length of its block. */
  ghost predicate BearerFits(f: Fields, blocks: Blocks) {
    f.bearer.present ==> f.bearer.value.ptr in blocks && f.bearer.value.len == |blocks[f.bearer.value.ptr]|
  }

  /** Frees the secret after overwriting it. */
  method ClearBearer(heap: Heap, record: Record, ghost base: Blocks)
    requires heap.Valid() && Owns(record.Snapshot(), heap.blocks, heap.slots, base) && BearerFits(record.Snapshot(), heap.blocks)
    modifies heap, record`bearer
    ensures heap.Valid() && Owns(record.Snapshot(), heap.blocks, heap.slots, base)
    ensures record.Snapshot() == old(record.Snapshot()).(bearer := record.bearer) && !record.bearer.present
    ensures old(record.bearer.present) ==>
              var p := old(record.bearer.value.ptr); p in heap.released && heap.released[p] == Zeros(old(record.bearer.value.len))
  {
    if record.bearer.present {
      var p := record.bearer.value.ptr;
      ghost var f := record.Snapshot();
      SlotIsAllocated(f, heap.blocks, heap.slots, base, Bearer);
      assert Pointer(f, Bearer) == p;
      OwnsRewritten(f, heap.blocks, heap.slots, base, p, Zeros(record.bearer.value.len));
      heap.Zero(p, record.bearer.value.len);
      ghost var blocks := heap.blocks;
      heap.Free(p);
      record.bearer := NullOptional;
      assert Repoints(f, record.Snapshot(), Bearer, 0);
      OwnsLess(f, record.Snapshot(), blocks, heap.slots, base, Bearer);
    }
  }

  method ClearTransport(heap: Heap, record: Record, ghost base: Blocks)
    requires heap.Valid() && Owns(record.Snapshot(), heap.blocks, heap.slots, base)
    modifies heap, record`peerAddr, record`cert, record`sid
    ensures heap.Valid() && Owns(record.Snapshot(), heap.blocks, heap.slots, base)
    ensures record.Snapshot() == old(record.Snapshot()).(peerAddr := record.peerAddr, cert := record.cert, sid := record.sid)
    ensures Pointer(record.Snapshot(), Peer) == Pointer(record.Snapshot(), Cert) == Pointer(record.Snapshot(), Sid) == 0
    ensures Grown(old(heap.released), heap.released)
  {
    match record.tag
    case TcpTag =>
      ClearPeer(heap, record, base);
      ClearCert(heap, record, base);
    case PipeTag =>
      ghost var f := record.Snapshot();
      SlotIsAllocated(f, heap.blocks, heap.slots, base, Sid);
      OwnsLess(f, f.(sid := NullSlice), heap.blocks, heap.slots, base, Sid);
      heap.Free(record.sid.ptr);
      record.sid := NullSlice;
    case UdsTag =>
  }

  method ClearPeer(heap: Heap, record: Record, ghost base: Blocks)
    requires heap.Valid() && Owns(record.Snapshot(), heap.blocks, heap.slots, base) && record.tag == TcpTag
    modifies heap, record`peerAddr
    ensures heap.Valid() && Owns(record.Snapshot(), heap.blocks, heap.slots, base)
    ensures record.Snapshot() == old(record.Snapshot()).(peerAddr := NullSlice)
    ensures Grown(old(heap.released), heap.released)
  {
    ghost var f := record.Snapshot();
    SlotIsAllocated(f, heap.blocks, heap.slots, base, Peer);
    OwnsLess(f, f.(peerAddr := NullSlice), heap.blocks, heap.slots, base, Peer);
    heap.Free(record.peerAddr.ptr);
    record.peerAddr := NullSlice;
  }

  method ClearCert(heap: Heap, record: Record, ghost base: Blocks)
    requires heap.Valid() && Owns(record.Snapshot(), heap.blocks, heap.slots, base) && record.tag == TcpTag
    modifies heap, record`cert
    ensures heap.Valid() && Owns(record.Snapshot(), heap.blocks, heap.slots, base)
    ensures record.Snapshot() == old(record.Snapshot()).(cert := record.cert) && !record.cert.present
    ensures Grown(old(heap.released), heap.released)
  {
    if record.cert.present {
      ghost var f := record.Snapshot();
      SlotIsAllocated(f, heap.blocks, heap.slots, base, Cert);
      OwnsLess(f, f.(cert := NullOptional), heap.blocks, heap.slots, base, Cert);
      heap.Free(record.cert.value.ptr);
      record.cert := NullOptional;
    }
  }

  /** Frees the two strings of a header. */
  method ClearHeader(heap: Heap, record: Record, index: nat, ghost base: Blocks)
    requires heap.Valid() && Owns(record.Snapshot(), heap.blocks, heap.slots, base)
    requires record.headersPtr != 0 && index < record.headersLen <= |record.cells|
    modifies heap, record`cells
    ensures heap.Valid() && Owns(record.Snapshot(), heap.blocks, heap.slots, base)
    ensures record.Snapshot() == old(record.Snapshot()).(cells := old(record.cells)[index := NullCell])
    ensures Grown(old(heap.released), heap.released)
  {
    ghost var f := record.Snapshot();
    var cell := record.cells[index];
    ghost var half := f.(cells := f.cells[index := Cell(NullSlice, cell.value)]);
    SlotIsAllocated(f, heap.blocks, heap.slots, base, Name(index));
    assert Repoints(f, half, Name(index), 0);
    OwnsLess(f, half, heap.blocks, heap.slots, base, Name(index));
    heap.Free(cell.name.ptr);
    record.cells := record.cells[index := Cell(NullSlice, cell.value)];
    SlotIsAllocated(half, heap.blocks, heap.slots, base, Value(index));
    ghost var g := half.(cells := half.cells[index := NullCell]);
    assert Repoints(half, g, Value(index), 0);
    OwnsLess(half, g, heap.blocks, heap.slots, base, Value(index));
    heap.Free(cell.value.ptr);
    record.cells := record.cells[index := NullCell];
  }

  method ClearHeaders(heap: Heap, record: Record, ghost base: Blocks)
    requires heap.Valid() && Owns(record.Snapshot(), heap.blocks, heap.slots, base) && record.headersLen <= |record.cells|
    modifies heap, record`headersPtr, record`cells, record`headersLen
    ensures heap.Valid() && Owns(record.Snapshot(), heap.blocks, heap.slots, base)
    ensures record.Snapshot() == old(record.Snapshot()).(headersPtr := 0, cells := record.cells, headersLen := 0)
    ensures Grown(old(heap.released), heap.released)
  {
    if record.headersPtr != 0 {
      for index := 0 to record.headersLen
        invariant heap.Valid() && Owns(record.Snapshot(), heap.blocks, heap.slots, base)
        invariant record.Snapshot() == old(record.Snapshot()).(cells := record.cells) && |record.cells| == old(|record.cells|)
        invariant forall i | 0 <= i < index :: record.cells[i] == NullCell
        invariant Grown(old(heap.released), heap.released)
      {
        ClearHeader(heap, record, index, base);
      }
    }
    ghost var f := record.Snapshot();
    SlotIsAllocated(f, heap.blocks, heap.slots, base, Array);
    ghost var g := f.(headersPtr := 0, headersLen := 0);
    assert Repoints(f, g, Array, 0);
    OwnsLess(f, g, heap.blocks, heap.slots, base, Array);
    heap.Free(record.headersPtr);
    record.headersPtr := 0;
    record.headersLen := 0;
  }

  /** Frees all that a record points to, and the record: what is left is what there was without it. A secret is
      overwritten first. */
  method FreeCredential(heap: Heap, record: Record, ghost base: Blocks)
    requires heap.Valid() && Owns(record.Snapshot(), heap.blocks, heap.slots, base)
    requires BearerFits(record.Snapshot(), heap.blocks) && record.headersLen <= |record.cells|
    modifies heap, record
    ensures heap.Valid() && heap.blocks == base
    ensures old(record.bearer.present) ==>
              var p := old(record.bearer.value.ptr); p in heap.released && heap.released[p] == Zeros(old(record.bearer.value.len))
  {
    ClearBearer(heap, record, base);
    ClearTransport(heap, record, base);
    ClearHeaders(heap, record, base);
    ghost var f := record.Snapshot();
    SlotIsAllocated(f, heap.blocks, heap.slots, base, Self);
    ghost var g := f.(self := 0);
    assert Repoints(f, g, Self, 0);
    OwnsLess(f, g, heap.blocks, heap.slots, base, Self);
    heap.Free(record.self);
    assert forall s :: Pointer(g, s) == 0;
    OwnsNothing(g, heap.blocks, heap.slots, base);
  }

  // ---------------------------------------------------------------------------
  // Decoding, field by field.
  // ---------------------------------------------------------------------------

  method DecodeBearer(cursor: Cursor, heap: Heap, record: Record, ghost base: Blocks)
    requires cursor.Valid() && heap.Valid() && cursor.error == Okay
    requires record.Snapshot() == Zeroed(record.self) && Owns(record.Snapshot(), heap.blocks, heap.slots, base)
    modifies cursor`pos, cursor`error, heap, record`bearer
    ensures cursor.Valid() && heap.Valid() && Owns(record.Snapshot(), heap.blocks, heap.slots, base)
    ensures record.Snapshot() == Zeroed(record.self).(bearer := record.bearer) && BearerFits(record.Snapshot(), heap.blocks)
    ensures match ReadOptional(cursor.bytes, old(cursor.pos))
            case Fail(e) => cursor.error == Bad(e)
            case Got(o, q) => cursor.error == Okay && cursor.pos == q && HoldsOptional(heap.blocks, record.bearer, o)
  {
    ghost var f := record.Snapshot();
    ghost var blocks, slots := heap.blocks, heap.slots;
    record.bearer := CopyOptional(cursor, heap, Bearer);
    if record.bearer.present {
      ghost var p := record.bearer.value.ptr;
      assert Repoints(f, record.Snapshot(), Bearer, p);
      OwnsMore(f, record.Snapshot(), blocks, slots, base, Bearer, p, heap.blocks[p]);
    } else {
      OwnsSame(f, record.Snapshot(), blocks, slots, base);
    }
  }

  /** A record that has its bearer and nothing else. */
  ghost predicate OnlyBearer(f: Fields) {
    f == Zeroed(f.self).(bearer := f.bearer)
  }

  /** A record that has no header yet. */
  ghost predicate NoHeaders(f: Fields) {
    f.headersPtr == 0 && f.cells == [] && f.headersLen == 0
  }

  method DecodeTcp(cursor: Cursor, heap: Heap, record: Record, ghost base: Blocks)
    requires cursor.Valid() && heap.Valid() && cursor.error == Okay
    requires OnlyBearer(record.Snapshot()) && Owns(record.Snapshot(), heap.blocks, heap.slots, base)
    modifies cursor`pos, cursor`error, heap, record`tag, record`peerAddr, record`cert
    ensures cursor.Valid() && heap.Valid() && Owns(record.Snapshot(), heap.blocks, heap.slots, base)
    ensures Grown(old(heap.blocks), heap.blocks) && NoHeaders(record.Snapshot())
    ensures match ReadTcp(cursor.bytes, old(cursor.pos))
            case Fail(e) => cursor.error == Bad(e)
            case Got(t, q) => cursor.error == Okay && cursor.pos == q && HoldsTransport(heap.blocks, record.Snapshot(), t)
  {
    record.tag := TcpTag;
    ghost var f, blocks, slots := record.Snapshot(), heap.blocks, heap.slots;
    record.peerAddr := CopyString(cursor, heap, Peer);
    if cursor.error == Okay {
      ghost var p := record.peerAddr.ptr;
      assert Repoints(f, record.Snapshot(), Peer, p);
      OwnsMore(f, record.Snapshot(), blocks, slots, base, Peer, p, heap.blocks[p]);
    }
    DecodeCert(cursor, heap, record, base);
  }

  method DecodeCert(cursor: Cursor, heap: Heap, record: Record, ghost base: Blocks)
    requires cursor.Valid() && heap.Valid() && Owns(record.Snapshot(), heap.blocks, heap.slots, base)
    requires record.tag == TcpTag && record.cert == NullOptional
    modifies cursor`pos, cursor`error, heap, record`cert
    ensures cursor.Valid() && heap.Valid() && Owns(record.Snapshot(), heap.blocks, heap.slots, base)
    ensures Grown(old(heap.blocks), heap.blocks)
    ensures old(cursor.error).Bad? ==> cursor.error == old(cursor.error)
    ensures old(cursor.error) == Okay ==>
              match ReadOptional(cursor.bytes, old(cursor.pos))
              case Fail(e) => cursor.error == Bad(e)
              case Got(o, q) => cursor.error == Okay && cursor.pos == q && HoldsOptional(heap.blocks, record.cert, o)
  {
    ghost var f, blocks, slots := record.Snapshot(), heap.blocks, heap.slots;
    record.cert := CopyOptional(cursor, heap, Cert);
    if record.cert.present {
      ghost var p := record.cert.value.ptr;
      assert Repoints(f, record.Snapshot(), Cert, p);
      OwnsMore(f, record.Snapshot(), blocks, slots, base, Cert, p, heap.blocks[p]);
    }
  }

  method DecodeUds(cursor: Cursor, heap: Heap, record: Record, ghost base: Blocks)
    requires cursor.Valid() && heap.Valid() && cursor.error == Okay
    requires OnlyBearer(record.Snapshot()) && Owns(record.Snapshot(), heap.blocks, heap.slots, base)
    modifies cursor`pos, cursor`error, record`tag, record`uid, record`gid, record`pid
    ensures cursor.Valid() && Owns(record.Snapshot(), heap.blocks, heap.slots, base)
    ensures NoHeaders(record.Snapshot())
    ensures match ReadUds(cursor.bytes, old(cursor.pos))
            case Fail(e) => cursor.error == Bad(e)
            case Got(t, q) => cursor.error == Okay && cursor.pos == q && HoldsTransport(heap.blocks, record.Snapshot(), t)
  {
    ghost var f := record.Snapshot();
    record.tag := UdsTag;
    record.uid := cursor.Word32();
    record.gid := cursor.Word32();
    record.pid := cursor.Signed32();
    OwnsSame(f, record.Snapshot(), heap.blocks, heap.slots, base);
  }

  method DecodePipe(cursor: Cursor, heap: Heap, record: Record, ghost base: Blocks)
    requires cursor.Valid() && heap.Valid() && cursor.error == Okay
    requires OnlyBearer(record.Snapshot()) && Owns(record.Snapshot(), heap.blocks, heap.slots, base)
    modifies cursor`pos, cursor`error, heap, record`tag, record`sid, record`pipePid
    ensures cursor.Valid() && heap.Valid() && Owns(record.Snapshot(), heap.blocks, heap.slots, base)
    ensures Grown(old(heap.blocks), heap.blocks) && NoHeaders(record.Snapshot())
    ensures match ReadPipe(cursor.bytes, old(cursor.pos))
            case Fail(e) => cursor.error == Bad(e)
            case Got(t, q) => cursor.error == Okay && cursor.pos == q && HoldsTransport(heap.blocks, record.Snapshot(), t)
  {
    ghost var f := record.Snapshot();
    record.tag := PipeTag;
    OwnsSame(f, record.Snapshot(), heap.blocks, heap.slots, base);
    DecodeSid(cursor, heap, record, base);
    f := record.Snapshot();
    record.pipePid := cursor.Word32();
    OwnsSame(f, record.Snapshot(), heap.blocks, heap.slots, base);
  }

  method DecodeSid(cursor: Cursor, heap: Heap, record: Record, ghost base: Blocks)
    requires cursor.Valid() && heap.Valid() && cursor.error == Okay && Owns(record.Snapshot(), heap.blocks, heap.slots, base)
    requires record.tag == PipeTag && record.sid == NullSlice
    modifies cursor`pos, cursor`error, heap, record`sid
    ensures cursor.Valid() && heap.Valid() && Owns(record.Snapshot(), heap.blocks, heap.slots, base)
    ensures Grown(old(heap.blocks), heap.blocks)
    ensures match ReadString(cursor.bytes, old(cursor.pos))
            case Fail(e) => cursor.error == Bad(e)
            case Got(s, q) => cursor.error == Okay && cursor.pos == q && HoldsBlob(heap.blocks, record.sid, s)
  {
    ghost var f, blocks, slots := record.Snapshot(), heap.blocks, heap.slots;
    record.sid := CopyString(cursor, heap, Sid);
    if cursor.error == Okay {
      ghost var p := record.sid.ptr;
      assert Repoints(f, record.Snapshot(), Sid, p);
      OwnsMore(f, record.Snapshot(), blocks, slots, base, Sid, p, heap.blocks[p]);
    }
  }

  method DecodeTransport(cursor: Cursor, heap: Heap, record: Record, ghost base: Blocks)
    requires cursor.Valid() && heap.Valid()
    requires OnlyBearer(record.Snapshot()) && Owns(record.Snapshot(), heap.blocks, heap.slots, base)
    modifies cursor`pos, cursor`error, heap
    modifies record`tag, record`peerAddr, record`cert, record`uid, record`gid, record`pid, record`sid, record`pipePid
    ensures cursor.Valid() && heap.Valid() && Owns(record.Snapshot(), heap.blocks, heap.slots, base)
    ensures Grown(old(heap.blocks), heap.blocks) && NoHeaders(record.Snapshot())
    ensures old(cursor.error).Bad? ==> cursor.error == old(cursor.error)
    ensures old(cursor.error) == Okay ==>
              match ReadTransport(cursor.bytes, old(cursor.pos))
              case Fail(e) => cursor.error == Bad(e)
              case Got(t, q) => cursor.error == Okay && cursor.pos == q && HoldsTransport(heap.blocks, record.Snapshot(), t)
  {
    var tag := cursor.Byte8();
    if cursor.error == Okay {
      if tag == 0 {
        DecodeTcp(cursor, heap, record, base);
      } else if tag == 1 {
        DecodeUds(cursor, heap, record, base);
      } else if tag == 2 {
        DecodePipe(cursor, heap, record, base);
      } else {
        cursor.error := Bad(BadTag);
      }
    }
  }

  /** One header: its name counts as soon as it is copied, so that clearing finds it when the value fails. */
  method DecodeHeader(cursor: Cursor, heap: Heap, record: Record, index: nat, ghost base: Blocks)
    requires cursor.Valid() && heap.Valid() && cursor.error == Okay
    requires Owns(record.Snapshot(), heap.blocks, heap.slots, base)
    requires record.headersPtr != 0 && index == record.headersLen < |record.cells| && record.cells[index] == NullCell
    modifies cursor`pos, cursor`error, heap, record`cells, record`headersLen
    ensures cursor.Valid() && heap.Valid() && Owns(record.Snapshot(), heap.blocks, heap.slots, base)
    ensures Grown(old(heap.blocks), heap.blocks)
    ensures |record.cells| == old(|record.cells|) && record.headersLen <= |record.cells|
    ensures forall i | 0 <= i < |record.cells| && i != index :: record.cells[i] == old(record.cells[i])
    ensures match ReadHeader(cursor.bytes, old(cursor.pos))
            case Fail(e) => cursor.error == Bad(e)
            case Got(h, q) =>
              && cursor.error == Okay && cursor.pos == q
              && record.headersLen == index + 1 && HoldsHeader(heap.blocks, record.cells[index], h)
  {
    ghost var f, blocks, slots := record.Snapshot(), heap.blocks, heap.slots;
    var name := CopyString(cursor, heap, Name(index));
    record.cells := record.cells[index := record.cells[index].(name := name)];
    if cursor.error == Okay {
      record.headersLen := index + 1;
      RepointsName(f, index, name);
      OwnsMore(f, record.Snapshot(), blocks, slots, base, Name(index), name.ptr, heap.blocks[name.ptr]);
      DecodeHeaderValue(cursor, heap, record, index, base);
    } else {
      OwnsSame(f, record.Snapshot(), blocks, slots, base);
    }
  }

  method DecodeHeaderValue(cursor: Cursor, heap: Heap, record: Record, index: nat, ghost base: Blocks)
    requires cursor.Valid() && heap.Valid() && cursor.error == Okay
    requires Owns(record.Snapshot(), heap.blocks, heap.slots, base)
    requires record.headersPtr != 0 && index < record.headersLen <= |record.cells| && record.cells[index].value == NullSlice
    modifies cursor`pos, cursor`error, heap, record`cells
    ensures cursor.Valid() && heap.Valid() && Owns(record.Snapshot(), heap.blocks, heap.slots, base)
    ensures Grown(old(heap.blocks), heap.blocks)
    ensures |record.cells| == old(|record.cells|)
    ensures record.cells == old(record.cells)[index := old(record.cells[index]).(value := record.cells[index].value)]
    ensures match ReadString(cursor.bytes, old(cursor.pos))
            case Fail(e) => cursor.error == Bad(e)
            case Got(s, q) => cursor.error == Okay && cursor.pos == q && HoldsBlob(heap.blocks, record.cells[index].value, s)
  {
    ghost var f, blocks, slots := record.Snapshot(), heap.blocks, heap.slots;
    var value := CopyString(cursor, heap, Value(index));
    record.cells := record.cells[index := record.cells[index].(value := value)];
    if cursor.error == Okay {
      RepointsValue(f, index, value);
      OwnsMore(f, record.Snapshot(), blocks, slots, base, Value(index), value.ptr, heap.blocks[value.ptr]);
    } else {
      OwnsSame(f, record.Snapshot(), blocks, slots, base);
    }
  }

  /** The header at a mark is read, and ends at the next mark. */
  ghost predicate MarkedAt(b: seq<Byte>, hs: seq<Header>, marks: seq<nat>, i: nat) {
    i < |hs| && i + 1 < |marks| && marks[i] <= |b| && ReadHeader(b, marks[i]) == Got(hs[i], marks[i + 1])
  }

  /** The headers that can be read, at most `count`, and where they start and end; when they are fewer the next one
      fails. */
  ghost predicate Marked(b: seq<Byte>, count: nat, hs: seq<Header>, marks: seq<nat>) {
    && |hs| <= count && |marks| == |hs| + 1 && marks[|hs|] <= |b|
    && (forall i | 0 <= i < |hs| :: MarkedAt(b, hs, marks, i))
    && (|hs| < count ==> ReadHeader(b, marks[|hs|]).Fail?)
  }

  lemma MarkedMore(b: seq<Byte>, count: nat, pos: nat, h: Header, hs: seq<Header>, marks: seq<nat>)
    requires pos <= |b| && Marked(b, count, hs, marks) && ReadHeader(b, pos) == Got(h, marks[0])
    ensures Marked(b, count + 1, [h] + hs, [pos] + marks)
  {
    var all, places := [h] + hs, [pos] + marks;
    forall i | 0 <= i < |all| ensures MarkedAt(b, all, places, i) {
      if i > 0 {
        assert MarkedAt(b, hs, marks, i - 1);
      }
    }
  }

  lemma ReadHeadersMore(b: seq<Byte>, pos: nat, count: nat)
    requires pos <= |b| && count > 0
    ensures match ReadHeader(b, pos)
            case Fail(e) => ReadHeaders(b, pos, count) == Fail(e)
            case Got(h, q) =>
              match ReadHeaders(b, q, count - 1)
              case Fail(e) => ReadHeaders(b, pos, count) == Fail(e)
              case Got(more, r) => ReadHeaders(b, pos, count) == Got([h] + more, r)
  {
  }

  /** What `ReadHeaders` answers, in terms of the marks. */
  ghost predicate Answers(b: seq<Byte>, pos: nat, count: nat, hs: seq<Header>, marks: seq<nat>) {
    && Marked(b, count, hs, marks) && marks[0] == pos <= |b|
    && ReadHeaders(b, pos, count) == if |hs| == count then Got(hs, marks[count]) else Fail(ReadHeader(b, marks[|hs|]).error)
  }

  lemma AnswersMore(b: seq<Byte>, pos: nat, count: nat, h: Header, mid: nat, hs: seq<Header>, marks: seq<nat>)
    returns (all: seq<Header>, places: seq<nat>)
    requires pos <= |b| && count > 0 && Answers(b, mid, count - 1, hs, marks) && ReadHeader(b, pos) == Got(h, mid)
    ensures Answers(b, pos, count, all, places)
  {
    all, places := [h] + hs, [pos] + marks;
    MarkedMore(b, count - 1, pos, h, hs, marks);
    ReadHeadersMore(b, pos, count);
    assert places[|hs| + 1] == marks[|hs|];
  }

  lemma AnswersNone(b: seq<Byte>, pos: nat, count: nat) returns (hs: seq<Header>, marks: seq<nat>)
    requires pos <= |b| && (count == 0 || ReadHeader(b, pos).Fail?)
    ensures Answers(b, pos, count, hs, marks)
  {
    hs, marks := [], [pos];
    if count > 0 {
      ReadHeadersMore(b, pos, count);
    }
  }

  lemma ReadsNext(b: seq<Byte>, pos: nat) returns (ok: bool, h: Header, mid: nat)
    requires pos <= |b|
    ensures ok ==> mid <= |b| && ReadHeader(b, pos) == Got(h, mid)
    ensures !ok ==> ReadHeader(b, pos).Fail?
  {
    var r := ReadHeader(b, pos);
    ok := r.Got?;
    h, mid := if ok then r.value else Header([], []), if ok then r.pos else 0;
  }

  lemma {:induction false} MarksOf(b: seq<Byte>, pos: nat, count: nat) returns (hs: seq<Header>, marks: seq<nat>)
    requires pos <= |b|
    ensures Answers(b, pos, count, hs, marks)
    decreases count
  {
    var ok, h, mid := ReadsNext(b, pos);
    if count > 0 && ok {
      hs, marks := MarksOf(b, mid, count - 1);
      hs, marks := AnswersMore(b, pos, count, h, mid, hs, marks);
    } else {
      hs, marks := AnswersNone(b, pos, count);
    }
  }

  /** The largest `size_t` and the size of a header on a 64-bit machine. */
  const SizeMax: nat := 0xFFFF_FFFF_FFFF_FFFF
  const HeaderSize: nat := 32

  /** The headers read so far are in their cells, and the other cells are null. */
  ghost predicate Placed(done: seq<Header>, blocks: Blocks, cells: seq<Cell>) {
    && |done| <= |cells|
    && (forall i | 0 <= i < |done| :: HoldsHeader(blocks, cells[i], done[i]))
    && (forall i | |done| <= i < |cells| :: cells[i] == NullCell)
  }

  lemma PlacedMore(done: seq<Header>, before: Blocks, cells: seq<Cell>, after: Blocks, cells': seq<Cell>, h: Header)
    requires Placed(done, before, cells) && Grown(before, after) && |done| < |cells| == |cells'|
    requires HoldsHeader(after, cells'[|done|], h) && forall i | 0 <= i < |cells| && i != |done| :: cells'[i] == cells[i]
    ensures Placed(done + [h], after, cells')
  {
    var all := done + [h];
    forall i | 0 <= i < |all| ensures HoldsHeader(after, cells'[i], all[i]) {
      if i < |done| {
        HeaderStays(before, after, cells[i], done[i]);
        assert all[i] == done[i];
      }
    }
  }

  lemma HeaderStays(before: Blocks, after: Blocks, cell: Cell, h: Header)
    requires Grown(before, after) && HoldsHeader(before, cell, h)
    ensures HoldsHeader(after, cell, h)
  {
  }

  /** One turn of the loop over the headers. */
  method DecodeNext(cursor: Cursor, heap: Heap, record: Record, index: nat, ghost hs: seq<Header>, ghost marks: seq<nat>, ghost base: Blocks)
    requires cursor.Valid() && heap.Valid() && cursor.error == Okay && Owns(record.Snapshot(), heap.blocks, heap.slots, base)
    requires record.headersPtr != 0 && index == record.headersLen < |record.cells| && index <= |hs|
    requires Marked(cursor.bytes, |record.cells|, hs, marks) && cursor.pos == marks[index]
    requires Placed(hs[..index], heap.blocks, record.cells)
    modifies cursor`pos, cursor`error, heap, record`cells, record`headersLen
    ensures cursor.Valid() && heap.Valid() && Owns(record.Snapshot(), heap.blocks, heap.slots, base)
    ensures Grown(old(heap.blocks), heap.blocks) && record.headersLen <= |record.cells| == old(|record.cells|)
    ensures index < |hs| ==>
              && cursor.error == Okay && index + 1 == record.headersLen && cursor.pos == marks[index + 1]
              && Placed(hs[..index + 1], heap.blocks, record.cells)
    ensures index == |hs| ==> cursor.error == Bad(ReadHeader(cursor.bytes, marks[|hs|]).error)
  {
    ghost var blocks, cells := heap.blocks, record.cells;
    assert index < |hs| ==> MarkedAt(cursor.bytes, hs, marks, index);
    DecodeHeader(cursor, heap, record, index, base);
    if cursor.error == Okay {
      PlacedMore(hs[..index], blocks, cells, heap.blocks, record.cells, hs[index]);
      assert hs[..index] + [hs[index]] == hs[..index + 1];
    }
  }

  /** The loop over the headers. */
  method DecodeEach(cursor: Cursor, heap: Heap, record: Record, count: nat, ghost hs: seq<Header>, ghost marks: seq<nat>, ghost base: Blocks)
    requires cursor.Valid() && heap.Valid() && cursor.error == Okay && Owns(record.Snapshot(), heap.blocks, heap.slots, base)
    requires record.headersLen == 0 && |record.cells| == count && (count > 0 ==> record.headersPtr != 0)
    requires Marked(cursor.bytes, count, hs, marks) && marks[0] == cursor.pos && Placed([], heap.blocks, record.cells)
    modifies cursor`pos, cursor`error, heap, record`cells, record`headersLen
    ensures cursor.Valid() && heap.Valid() && Owns(record.Snapshot(), heap.blocks, heap.slots, base)
    ensures Grown(old(heap.blocks), heap.blocks) && record.headersLen <= |record.cells| == count
    ensures |hs| < count ==> cursor.error == Bad(ReadHeader(cursor.bytes, marks[|hs|]).error)
    ensures |hs| == count ==>
              cursor.error == Okay && cursor.pos == marks[count] && HoldsHeaders(heap.blocks, record.Snapshot(), hs)
  {
    var index := 0;
    while cursor.error == Okay && index < count
      invariant cursor.Valid() && heap.Valid() && Owns(record.Snapshot(), heap.blocks, heap.slots, base)
      invariant Grown(old(heap.blocks), heap.blocks) && record.headersLen <= |record.cells| == count
      invariant cursor.error == Okay ==> index == record.headersLen <= |hs| && cursor.pos == marks[index]
      invariant cursor.error == Okay ==> Placed(hs[..index], heap.blocks, record.cells)
      invariant cursor.error.Bad? ==> |hs| < count && cursor.error == Bad(ReadHeader(cursor.bytes, marks[|hs|]).error)
      decreases count - index
    {
      ghost var blocks := heap.blocks;
      DecodeNext(cursor, heap, record, index, hs, marks, base);
      GrownTwice(old(heap.blocks), blocks, heap.blocks);
      index := index + 1;
    }
    assert hs[..|hs|] == hs;
  }

  lemma GrownTwice(a: Blocks, b: Blocks, c: Blocks)
    requires Grown(a, b) && Grown(b, c)
    ensures Grown(a, c)
  {
  }

  method DecodeHeaders(cursor: Cursor, heap: Heap, record: Record, ghost base: Blocks)
    requires cursor.Valid() && heap.Valid() && cursor.error == Okay
    requires NoHeaders(record.Snapshot()) && Owns(record.Snapshot(), heap.blocks, heap.slots, base)
    modifies cursor`pos, cursor`error, heap, record`headersPtr, record`cells, record`headersLen
    ensures cursor.Valid() && heap.Valid() && Owns(record.Snapshot(), heap.blocks, heap.slots, base)
    ensures Grown(old(heap.blocks), heap.blocks) && record.headersLen <= |record.cells|
    ensures record.headersPtr == 0 ==> record.headersLen == 0
    ensures match ReadList(cursor.bytes, old(cursor.pos))
            case Fail(e) => cursor.error == Bad(e)
            case Got(hs, q) => cursor.error == Okay && cursor.pos == q && HoldsHeaders(heap.blocks, record.Snapshot(), hs)
  {
    var count := cursor.Word32();
    if cursor.error == Okay && count > (|cursor.bytes| - cursor.pos) / 8 {
      cursor.error := Bad(Truncated);
    }
    if cursor.error == Okay && count != 0 {
      assert count <= SizeMax / HeaderSize;
      AllocateHeaders(heap, record, count, base);
    }
    if cursor.error == Okay {
      ghost var hs, marks := MarksOf(cursor.bytes, cursor.pos, count);
      DecodeEach(cursor, heap, record, count, hs, marks, base);
    }
  }

  method AllocateHeaders(heap: Heap, record: Record, count: nat, ghost base: Blocks)
    requires heap.Valid() && NoHeaders(record.Snapshot()) && Owns(record.Snapshot(), heap.blocks, heap.slots, base)
    modifies heap, record`headersPtr, record`cells
    ensures heap.Valid() && Owns(record.Snapshot(), heap.blocks, heap.slots, base)
    ensures Grown(old(heap.blocks), heap.blocks)
    ensures record.headersLen == 0 && record.headersPtr != 0 && |record.cells| == count && forall i | 0 <= i < count :: record.cells[i] == NullCell
  {
    ghost var f, blocks, slots := record.Snapshot(), heap.blocks, heap.slots;
    record.headersPtr := heap.Allocate([], Array);
    record.cells := seq(count, i => NullCell);
    assert Repoints(f, record.Snapshot(), Array, record.headersPtr);
    OwnsMore(f, record.Snapshot(), blocks, slots, base, Array, record.headersPtr, []);
  }

  // ---------------------------------------------------------------------------
  // The whole message.
  // ---------------------------------------------------------------------------

  /** What the free function relies on. */
  ghost predicate Releasable(f: Fields, blocks: Blocks) {
    BearerFits(f, blocks) && f.headersLen <= |f.cells| && (f.headersPtr == 0 ==> f.headersLen == 0)
  }

  method DecodeBody(cursor: Cursor, heap: Heap, record: Record, version: Byte, ghost base: Blocks)
    requires cursor.Valid() && heap.Valid() && cursor.error == Okay
    requires record.Snapshot() == Zeroed(record.self) && Owns(record.Snapshot(), heap.blocks, heap.slots, base)
    modifies cursor`pos, cursor`error, heap, record
    ensures cursor.Valid() && heap.Valid() && Owns(record.Snapshot(), heap.blocks, heap.slots, base)
    ensures Releasable(record.Snapshot(), heap.blocks)
    ensures match ReadBody(version, cursor.bytes, old(cursor.pos))
            case Fail(e) => cursor.error == Bad(e)
            case Got(c, q) => cursor.error == Okay && cursor.pos == q && Shows(heap.blocks, record.Snapshot(), c)
  {
    DecodeBearer(cursor, heap, record, base);
    ghost var bearer := record.bearer;
    DecodeTransport(cursor, heap, record, base);
    ghost var blocks, f := heap.blocks, record.Snapshot();
    if cursor.error == Okay && version == CurrentVersion {
      DecodeHeaders(cursor, heap, record, base);
    }
  }

  /** Allocates the one-element array that stands for no headers. */
  method AllocatePlaceholder(heap: Heap, record: Record, ghost base: Blocks)
    requires heap.Valid() && Owns(record.Snapshot(), heap.blocks, heap.slots, base) && Releasable(record.Snapshot(), heap.blocks)
    modifies heap, record`headersPtr
    ensures heap.Valid() && Owns(record.Snapshot(), heap.blocks, heap.slots, base)
    ensures Grown(old(heap.blocks), heap.blocks) && record.headersPtr != 0
  {
    if record.headersPtr == 0 {
      ghost var f, blocks, slots := record.Snapshot(), heap.blocks, heap.slots;
      record.headersPtr := heap.Allocate([], Array);
      assert Repoints(f, record.Snapshot(), Array, record.headersPtr);
      OwnsMore(f, record.Snapshot(), blocks, slots, base, Array, record.headersPtr, []);
    }
  }

  lemma ShowsGrown(before: Blocks, after: Blocks, f: Fields, g: Fields, c: Credential)
    requires Grown(before, after) && Shows(before, f, c) && g == f.(headersPtr := g.headersPtr)
    ensures Shows(after, g, c)
  {
    forall i | 0 <= i < |c.headers| ensures HoldsHeader(after, g.cells[i], c.headers[i]) {
      HeaderStays(before, after, f.cells[i], c.headers[i]);
    }
  }

  /** The record of a message: it shows the credential that the message encodes, and all that was allocated belongs
      to it. A message that is no encoding leaves the heap as it was. */
  method DecodeCredential(bytes: seq<Byte>, heap: Heap) returns (status: Status, out: Record?)
    requires heap.Valid()
    modifies heap
    ensures heap.Valid()
    ensures match Decode(bytes)
            case Fail(e) => status == Bad(e) && out == null && heap.blocks == old(heap.blocks)
            case Got(message, _) =>
              && status == Okay && out != null && fresh(out) && Shows(heap.blocks, out.Snapshot(), message.1)
              && Owns(out.Snapshot(), heap.blocks, heap.slots, old(heap.blocks))
              && Releasable(out.Snapshot(), heap.blocks) && out.headersPtr != 0
    ensures status == Bad(UnsupportedVersion) <==> bytes != [] && bytes[0] != 1 && bytes[0] != 2
  {
    AuthErrors.UnsupportedExactly(bytes);
    var cursor := new Cursor(bytes);
    out := null;
    var version := cursor.Byte8();
    if cursor.error != Okay {
      return cursor.error, null;
    }
    if version != 1 && version != CurrentVersion {
      return Bad(UnsupportedVersion), null;
    }
    ghost var base := heap.blocks;
    var record := AllocateRecord(heap);
    DecodeBody(cursor, heap, record, version, base);
    if cursor.error == Okay && cursor.pos != |cursor.bytes| {
      cursor.error := Bad(TrailingData);
    }
    if cursor.error != Okay {
      FreeCredential(heap, record, base);
      return cursor.error, null;
    }
    ghost var f, blocks := record.Snapshot(), heap.blocks;
    AllocatePlaceholder(heap, record, base);
    ShowsGrown(blocks, heap.blocks, f, record.Snapshot(), Decode(bytes).value.1);
    return Okay, record;
  }

  method AllocateRecord(heap: Heap) returns (record: Record)
    requires heap.Valid()
    modifies heap
    ensures heap.Valid() && fresh(record) && record.Snapshot() == Zeroed(record.self)
    ensures Owns(record.Snapshot(), heap.blocks, heap.slots, old(heap.blocks))
  {
    ghost var base, slots := heap.blocks, heap.slots;
    OwnsAtFirst(base, slots);
    var self := heap.Allocate([], Self);
    record := new Record(self);
    assert Repoints(Zeroed(0), Zeroed(self), Self, self);
    OwnsMore(Zeroed(0), Zeroed(self), base, slots, base, Self, self, []);
  }

  lemma OwnsAtFirst(base: Blocks, slots: map<nat, Slot>)
    requires 0 !in base
    ensures Owns(Zeroed(0), base, slots, base)
  {
    forall p ensures OwnedBlock(Zeroed(0), base, slots, base, p) {
    }
    forall s ensures OwnedSlot(Zeroed(0), base, slots, base, s) {
    }
  }

  /** Decoding a message and freeing the answer leaves the heap as it was, whatever the message. */
  method DecodeAndFree(bytes: seq<Byte>, heap: Heap) returns (accepted: bool)
    requires heap.Valid()
    modifies heap
    ensures heap.Valid() && heap.blocks == old(heap.blocks)
    ensures accepted <==> exists version, c :: Proper(version, c) && bytes == EncodeCredential(version, c)
  {
    ghost var base := heap.blocks;
    var status, out := DecodeCredential(bytes, heap);
    accepted := status == Okay;
    if out != null {
      FreeCredential(heap, out, base);
      DecodeMeans(bytes);
    } else {
      forall version, c | Proper(version, c) && bytes == EncodeCredential(version, c) ensures false {
        DecodesExactly(bytes, version, c);
      }
    }
  }
}
