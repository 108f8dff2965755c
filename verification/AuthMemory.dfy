/** The ABI heap and the record that the credential decoder fills in place. */
module AuthMemory {
  import opened Basics
  import opened AuthWire

  /** What an allocation is for: a field of the record, an end of a header, the header array, or the record. */
  datatype Slot = Self | Bearer | Peer | Cert | Sid | Array | Name(index: nat) | Value(index: nat)

  type Blocks = map<nat, seq<Byte>>

  /** The ABI heap. Allocating never fails, since the program aborts when it would; a block that was freed is never
      handed out again. Null is 0. */
  class Heap {
    var next: nat
    var blocks: Blocks
    ghost var slots: map<nat, Slot>
    ghost var released: Blocks

    ghost predicate Valid()
      reads this
    {
      next > 0 && (forall p | p in blocks :: 0 < p < next) && (forall p | p in released :: p < next && p !in blocks)
    }

    method Allocate(data: seq<Byte>, ghost slot: Slot) returns (p: nat)
      requires Valid()
      modifies this
      ensures Valid()
      ensures p == old(next) && p !in old(blocks) && p != 0
      ensures blocks == old(blocks)[p := data] && slots == old(slots)[p := slot] && released == old(released)
    {
      p := next;
      next := next + 1;
      blocks := blocks[p := data];
      slots := slots[p := slot];
    }

    /** Only what is allocated may be freed: freeing twice would violate the precondition. */
    method Free(p: nat)
      requires Valid() && (p == 0 || p in blocks)
      modifies this
      ensures Valid() && next == old(next) && slots == old(slots)
      ensures blocks == old(blocks) - {p}
      ensures released == if p == 0 then old(released) else old(released)[p := old(blocks)[p]]
    {
      if p != 0 {
        released := released[p := blocks[p]];
        blocks := blocks - {p};
      }
    }

    /** Overwrites the bytes of a block with zeros, one at a time. */
    method Zero(p: nat, len: nat)
      requires Valid() && p in blocks && len == |blocks[p]|
      modifies this`blocks
      ensures Valid() && blocks == old(blocks)[p := Zeros(len)]
    {
      ghost var before := blocks;
      for index := 0 to len
        invariant Valid() && blocks.Keys == before.Keys && |blocks[p]| == len
        invariant forall q | q in before && q != p :: blocks[q] == before[q]
        invariant forall i | 0 <= i < index :: blocks[p][i] == 0
      {
        blocks := blocks[p := blocks[p][index := 0]];
      }
      assert blocks[p] == Zeros(len);
    }
  }

  function Zeros(n: nat): (z: seq<Byte>)
    ensures |z| == n && forall i | 0 <= i < n :: z[i] == 0
  {
    seq(n, i => 0)
  }

  /** Everything that was there is still there. */
  ghost predicate Grown(before: Blocks, after: Blocks) {
    forall p | p in before :: p in after && after[p] == before[p]
  }

  // ---------------------------------------------------------------------------
  // The record.
  // ---------------------------------------------------------------------------

  datatype Slice = Slice(ptr: nat, len: nat)
  datatype OptionalSlice = OptionalSlice(present: bool, value: Slice)
  datatype Cell = Cell(name: Slice, value: Slice)
  datatype Tag = TcpTag | UdsTag | PipeTag

  const NullSlice: Slice := Slice(0, 0)
  const NullOptional: OptionalSlice := OptionalSlice(false, NullSlice)
  const NullCell: Cell := Cell(NullSlice, NullSlice)

  /** What a record holds; `cells` is the array behind `headersPtr`. */
  datatype Fields = Fields(
    self: nat, bearer: OptionalSlice,
    tag: Tag, peerAddr: Slice, cert: OptionalSlice, uid: U32, gid: U32, pid: I32, sid: Slice, pipePid: U32,
    headersPtr: nat, cells: seq<Cell>, headersLen: nat)

  /** `OvStoragePlugin_AuthCredential`. */
  class Record {
    const self: nat
    var bearer: OptionalSlice
    var tag: Tag
    var peerAddr: Slice
    var cert: OptionalSlice
    var uid: U32
    var gid: U32
    var pid: I32
    var sid: Slice
    var pipePid: U32
    var headersPtr: nat
    var cells: seq<Cell>
    var headersLen: nat

    /** The zeroed record. */
    constructor (self: nat)
      ensures Snapshot() == Zeroed(self)
    {
      this.self := self;
      bearer := NullOptional;
      tag := TcpTag;
      peerAddr := NullSlice;
      cert := NullOptional;
      uid, gid, pid := 0, 0, 0;
      sid := NullSlice;
      pipePid := 0;
      headersPtr := 0;
      cells := [];
      headersLen := 0;
    }

    ghost function Snapshot(): Fields
      reads this
    {
      Fields(self, bearer, tag, peerAddr, cert, uid, gid, pid, sid, pipePid, headersPtr, cells, headersLen)
    }
  }

  function Zeroed(self: nat): Fields {
    Fields(self, NullOptional, TcpTag, NullSlice, NullOptional, 0, 0, 0, NullSlice, 0, 0, [], 0)
  }

  /** The allocation that clearing the record would find in a slot. */
  function Pointer(f: Fields, slot: Slot): nat {
    match slot
    case Self => f.self
    case Bearer => if f.bearer.present then f.bearer.value.ptr else 0
    case Peer => if f.tag == TcpTag then f.peerAddr.ptr else 0
    case Cert => if f.tag == TcpTag && f.cert.present then f.cert.value.ptr else 0
    case Sid => if f.tag == PipeTag then f.sid.ptr else 0
    case Array => f.headersPtr
    case Name(i) => if f.headersPtr != 0 && i < f.headersLen && i < |f.cells| then f.cells[i].name.ptr else 0
    case Value(i) => if f.headersPtr != 0 && i < f.headersLen && i < |f.cells| then f.cells[i].value.ptr else 0
  }

  ghost predicate OwnedBlock(f: Fields, blocks: Blocks, slots: map<nat, Slot>, base: Blocks, p: nat) {
    p in blocks && p !in base ==> p in slots && Pointer(f, slots[p]) == p
  }

  ghost predicate OwnedSlot(f: Fields, blocks: Blocks, slots: map<nat, Slot>, base: Blocks, slot: Slot) {
    var p := Pointer(f, slot);
    p != 0 ==> p in blocks && p !in base && p in slots && slots[p] == slot
  }

  /** The blocks beyond `base` are the ones this record points to, each from its own slot. */
  ghost predicate Owns(f: Fields, blocks: Blocks, slots: map<nat, Slot>, base: Blocks) {
    && Grown(base, blocks) && 0 !in blocks
    && (forall p :: OwnedBlock(f, blocks, slots, base, p))
    && (forall slot :: OwnedSlot(f, blocks, slots, base, slot))
  }

  /** Only `slot` has changed, and now points to `p`. */
  ghost predicate Repoints(f: Fields, g: Fields, slot: Slot, p: nat) {
    forall s :: Pointer(g, s) == if s == slot then p else Pointer(f, s)
  }

  lemma OwnsMore(f: Fields, g: Fields, blocks: Blocks, slots: map<nat, Slot>, base: Blocks, slot: Slot, p: nat, data: seq<Byte>)
    requires Owns(f, blocks, slots, base) && Pointer(f, slot) == 0 && p != 0 && p !in blocks
    requires Repoints(f, g, slot, p)
    ensures Owns(g, blocks[p := data], slots[p := slot], base)
  {
    var bs, ss := blocks[p := data], slots[p := slot];
    forall q ensures OwnedBlock(g, bs, ss, base, q) {
      assert OwnedBlock(f, blocks, slots, base, q);
      assert Pointer(g, slot) == p;
      if q in blocks && q !in base {
        assert Pointer(f, slots[q]) == q && Pointer(g, slots[q]) == q;
      }
    }
    forall s ensures OwnedSlot(g, bs, ss, base, s) {
      assert OwnedSlot(f, blocks, slots, base, s);
      assert Pointer(g, s) == if s == slot then p else Pointer(f, s);
    }
  }

  lemma OwnsLess(f: Fields, g: Fields, blocks: Blocks, slots: map<nat, Slot>, base: Blocks, slot: Slot)
    requires Owns(f, blocks, slots, base) && Repoints(f, g, slot, 0)
    ensures Owns(g, blocks - {Pointer(f, slot)}, slots, base)
  {
    var p := Pointer(f, slot);
    var bs := blocks - {p};
    assert OwnedSlot(f, blocks, slots, base, slot);
    forall q ensures OwnedBlock(g, bs, slots, base, q) {
      assert OwnedBlock(f, blocks, slots, base, q);
      if q in bs && q !in base {
        assert Pointer(g, slots[q]) == if slots[q] == slot then 0 else Pointer(f, slots[q]);
      }
    }
    forall s ensures OwnedSlot(g, bs, slots, base, s) {
      assert OwnedSlot(f, blocks, slots, base, s);
      assert Pointer(g, s) == if s == slot then 0 else Pointer(f, s);
    }
  }

  lemma OwnsSame(f: Fields, g: Fields, blocks: Blocks, slots: map<nat, Slot>, base: Blocks)
    requires Owns(f, blocks, slots, base) && forall s :: Pointer(g, s) == Pointer(f, s)
    ensures Owns(g, blocks, slots, base)
  {
    forall q ensures OwnedBlock(g, blocks, slots, base, q) {
      assert OwnedBlock(f, blocks, slots, base, q);
    }
    forall s ensures OwnedSlot(g, blocks, slots, base, s) {
      assert OwnedSlot(f, blocks, slots, base, s);
      assert Pointer(g, s) == Pointer(f, s);
    }
  }

  /** What a slot points to is allocated. */
  lemma SlotIsAllocated(f: Fields, blocks: Blocks, slots: map<nat, Slot>, base: Blocks, slot: Slot)
    requires Owns(f, blocks, slots, base)
    ensures Pointer(f, slot) != 0 ==> Pointer(f, slot) in blocks && Pointer(f, slot) !in base
  {
    assert OwnedSlot(f, blocks, slots, base, slot);
  }

  /** A record that points to nothing owns nothing. */
  lemma OwnsNothing(f: Fields, blocks: Blocks, slots: map<nat, Slot>, base: Blocks)
    requires Owns(f, blocks, slots, base) && forall s :: Pointer(f, s) == 0
    ensures blocks == base
  {
    forall p | p in blocks ensures p in base {
      assert p in slots ==> Pointer(f, slots[p]) == 0;
      assert OwnedBlock(f, blocks, slots, base, p);
    }
  }

  lemma OwnsRewritten(f: Fields, blocks: Blocks, slots: map<nat, Slot>, base: Blocks, p: nat, data: seq<Byte>)
    requires Owns(f, blocks, slots, base) && p in blocks && p !in base
    ensures Owns(f, blocks[p := data], slots, base)
  {
    var bs := blocks[p := data];
    forall q ensures OwnedBlock(f, bs, slots, base, q) {
      assert OwnedBlock(f, blocks, slots, base, q);
    }
    forall s ensures OwnedSlot(f, bs, slots, base, s) {
      assert OwnedSlot(f, blocks, slots, base, s);
    }
  }

  /** A name that has just been copied is found once the header counts; its value is still null. */
  lemma RepointsName(f: Fields, index: nat, name: Slice)
    requires f.headersPtr != 0 && index == f.headersLen < |f.cells| && f.cells[index] == NullCell
    ensures Pointer(f, Name(index)) == 0
    ensures Repoints(f, f.(cells := f.cells[index := Cell(name, NullSlice)], headersLen := index + 1), Name(index), name.ptr)
  {
  }

  lemma RepointsValue(f: Fields, index: nat, value: Slice)
    requires f.headersPtr != 0 && index < f.headersLen <= |f.cells| && f.cells[index].value == NullSlice
    ensures Pointer(f, Value(index)) == 0
    ensures Repoints(f, f.(cells := f.cells[index := f.cells[index].(value := value)]), Value(index), value.ptr)
  {
  }

  // ---------------------------------------------------------------------------
  // What a record shows.
  // ---------------------------------------------------------------------------

  /** The slice is an allocation that holds `s`. */
  ghost predicate HoldsBlob(blocks: Blocks, slice: Slice, s: Blob) {
    slice.ptr in blocks && blocks[slice.ptr] == s && slice.len == |s|
  }

  ghost predicate HoldsOptional(blocks: Blocks, slice: OptionalSlice, o: Optional) {
    slice.present == o.Present? && (o.Present? ==> HoldsBlob(blocks, slice.value, o.value))
  }

  ghost predicate HoldsHeader(blocks: Blocks, cell: Cell, h: Header) {
    HoldsBlob(blocks, cell.name, h.name) && HoldsBlob(blocks, cell.value, h.value)
  }

  ghost predicate HoldsTransport(blocks: Blocks, f: Fields, t: Transport) {
    match t
    case Tcp(peerAddr, cert) =>
      f.tag == TcpTag && HoldsBlob(blocks, f.peerAddr, peerAddr) && HoldsOptional(blocks, f.cert, cert)
    case Uds(uid, gid, pid) => f.tag == UdsTag && f.uid == uid && f.gid == gid && f.pid == pid
    case NamedPipe(sid, pid) => f.tag == PipeTag && HoldsBlob(blocks, f.sid, sid) && f.pipePid == pid
  }

  ghost predicate HoldsHeaders(blocks: Blocks, f: Fields, headers: seq<Header>) {
    && f.headersLen == |headers| <= |f.cells|
    && forall i | 0 <= i < |headers| :: HoldsHeader(blocks, f.cells[i], headers[i])
  }

  /** The record, with what it points to, is the credential. */
  ghost predicate Shows(blocks: Blocks, f: Fields, c: Credential) {
    HoldsOptional(blocks, f.bearer, c.bearer) && HoldsTransport(blocks, f, c.transport) && HoldsHeaders(blocks, f, c.headers)
  }
}
