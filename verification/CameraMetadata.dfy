/** CameraMetadata (camera/CameraMetadata.cpp): an object that owns one metadata buffer and can be
    locked. Buffers are named by the address the allocator gave them; addresses are not reused, so
    that a buffer that was freed stays recognisable. */
module CameraMetadataModel {
  import opened CameraStatus
  import opened Wrappers
  import opened MetadataBuffer

  type Address = nat

  // All buffers that are allocated, all addresses that were freed, in order, and the next address.
  datatype Heap = Heap(live: map<Address, Buffer>, freed: seq<Address>, next: Address)

  datatype Object = Object(buffer: Option<Address>, locked: bool)

  datatype Memory = Memory(heap: Heap, obj: Object)

  const FRESH := Object(None, false)

  // ---------------------------------------------------------------------------------------------
  // The operations, on a heap and one object.

  function Freed(h: Heap, p: Option<Address>): Heap {
    match p
    case None => h
    case Some(a) => h.(live := h.live - {a}, freed := h.freed + [a])
  }

  function Clear(m: Memory): Memory {
    if m.obj.locked then m else Memory(Freed(m.heap, m.obj.buffer), m.obj.(buffer := None))
  }

  // A new buffer is allocated, then the old one is freed and replaced by it.
  function Replace(m: Memory, b: Buffer): Memory {
    var h := m.heap.(live := m.heap.live[m.heap.next := b], next := m.heap.next + 1);
    Memory(Freed(h, m.obj.buffer), m.obj.(buffer := Some(m.heap.next)))
  }

  // What clone_camera_metadata copies.
  function BufferAt(h: Heap, p: Option<Address>): Option<Buffer> {
    if p.Some? && p.value in h.live then Some(h.live[p.value]) else None
  }

  // operator=(const camera_metadata_t *); operator=(const CameraMetadata &) passes other.mBuffer.
  function Assign(m: Memory, p: Option<Address>): Memory {
    if m.obj.locked || p == m.obj.buffer then m
    else match BufferAt(m.heap, p)
         case None => Clear(m)
         case Some(b) => Replace(m, b)
  }

  function Release(o: Object): (Object, Option<Address>) {
    if o.locked then (o, None) else (o.(buffer := None), o.buffer)
  }

  function Acquire(m: Memory, p: Option<Address>): Memory {
    if m.obj.locked then m else var c := Clear(m); c.(obj := c.obj.(buffer := p))
  }

  function Destroy(m: Memory): Memory { Clear(m.(obj := m.obj.(locked := false))) }

  function Unlock(o: Object, p: Option<Address>): (Object, Status) {
    if !o.locked then (o, INVALID_OPERATION)
    else if p != o.buffer then (o, BAD_VALUE)
    else (o.(locked := false), OK)
  }

  // readFromParcel(Parcel *): `parsed` is the outcome of the static parser, a status or the buffer.
  function Read(m: Memory, parsed: Result<Option<Buffer>, Status>): (Memory, Status) {
    if m.obj.locked then (m, INVALID_OPERATION)
    else match parsed
         case Err(err) => (m, err)
         case Ok(None) => (Clear(m), OK)
         case Ok(Some(b)) => (Replace(m, b), OK)
  }

  function Content(m: Memory): Option<Buffer> { BufferAt(m.heap, m.obj.buffer) }

  // The buffer is rewritten in place.
  function Rewrite(m: Memory, b: Buffer): Memory {
    match m.obj.buffer
    case None => m
    case Some(a) => m.(heap := m.heap.(live := m.heap.live[a := b]))
  }

  function Resize(m: Memory, extraEntries: nat, extraData: nat): Memory {
    if Reallocates(Content(m), extraEntries, extraData)
    then Replace(m, Resized(Content(m), extraEntries, extraData))
    else m
  }

  function ResizeFor(m: Memory, op: Op): Memory {
    if Resizes(op) then Resize(m, ExtraEntries(op), ExtraData(op)) else m
  }

  // The library call on the resized buffer.
  function PerformOn(m: Memory, op: Op): (Memory, Status) {
    match Content(m)
    case None => (m, LIBRARY_ERROR)
    case Some(b) =>
      match Perform(b, op)
      case None => (m, LIBRARY_ERROR)
      case Some(done) => (Rewrite(m, done), OK)
  }

  // update, append, erase and sort.
  function Modify(m: Memory, op: Op): (Memory, Status) {
    if m.obj.locked then (m, INVALID_OPERATION) else PerformOn(ResizeFor(m, op), op)
  }

  // ---------------------------------------------------------------------------------------------
  // The classes.

  // allocate_camera_metadata, clone_camera_metadata and free_camera_metadata.
  class Allocator {
    var live: map<Address, Buffer>
    var freed: seq<Address>
    var next: Address

    constructor ()
      ensures View() == Heap(map[], [], 0)
    {
      live, freed, next := map[], [], 0;
    }

    function View(): Heap
      reads this
    {
      Heap(live, freed, next)
    }

    method Allocate(b: Buffer) returns (a: Address)
      modifies this
      ensures a == old(next)
      ensures View() == old(View()).(live := old(live)[a := b], next := a + 1)
    {
      a := next;
      live, next := live[a := b], next + 1;
    }

    method Free(a: Address)
      requires a in live
      modifies this
      ensures View() == Freed(old(View()), Some(a))
    {
      live, freed := live - {a}, freed + [a];
    }
  }

  class CameraMetadata {
    const heap: Allocator
    var mBuffer: Option<Address>
    var mLocked: bool

    function View(): Memory
      reads this, heap
    {
      Memory(heap.View(), Object(mBuffer, mLocked))
    }

    ghost predicate Valid()
      reads this, heap
    {
      mBuffer.Some? ==> mBuffer.value in heap.live && mBuffer.value < heap.next
    }

    constructor (heap: Allocator)
      ensures this.heap == heap && Valid()
      ensures View() == Memory(old(heap.View()), FRESH)
    {
      this.heap := heap;
      mBuffer, mLocked := None, false;
    }

    // The heap after the buffer that was owned has been freed.
    twostate predicate OwnFreed()
      reads this, heap
    {
      && heap.next == old(heap.next)
      && heap.live == old(heap.live) - (if old(mBuffer).Some? then {old(mBuffer).value} else {})
      && heap.freed == old(heap.freed) + (if old(mBuffer).Some? then [old(mBuffer).value] else [])
    }

    twostate predicate SameHeap()
      reads this, heap
    {
      heap.live == old(heap.live) && heap.freed == old(heap.freed) && heap.next == old(heap.next)
    }

    // A new buffer with this content takes the place of the one that was owned, which is freed.
    twostate predicate Replaced(b: Buffer)
      reads this, heap
    {
      && mBuffer == Some(old(heap.next)) && heap.next == old(heap.next) + 1
      && heap.live == old(heap.live)[old(heap.next) := b]
                      - (if old(mBuffer).Some? then {old(mBuffer).value} else {})
      && heap.freed == old(heap.freed) + (if old(mBuffer).Some? then [old(mBuffer).value] else [])
    }

    method ClearBuffer()
      requires Valid()
      modifies this, heap
      ensures Valid() && View() == Clear(old(View()))
      ensures mLocked == old(mLocked)
      ensures if old(mLocked) then mBuffer == old(mBuffer) && SameHeap() else mBuffer == None && OwnFreed()
    {
      if mLocked {
        return;
      }
      if mBuffer.Some? {
        heap.Free(mBuffer.value);
        mBuffer := None;
      }
    }

    method AssignFrom(p: Option<Address>)
      requires Valid() && (p.Some? ==> p.value in heap.live)
      modifies this, heap
      ensures Valid() && View() == Assign(old(View()), p)
      ensures mLocked == old(mLocked)
      ensures if old(mLocked) || p == old(mBuffer) then mBuffer == old(mBuffer) && SameHeap()
              else if p.None? then mBuffer == None && OwnFreed()
              else Replaced(old(heap.live)[p.value])
    {
      if mLocked {
        return;
      }
      if p != mBuffer {
        var newBuffer := None;
        if p.Some? {
          var a := heap.Allocate(heap.live[p.value]);
          newBuffer := Some(a);
        }
        ClearBuffer();
        mBuffer := newBuffer;
      }
    }

    method ReleaseBuffer() returns (released: Option<Address>)
      modifies this
      ensures (Object(mBuffer, mLocked), released) == Release(Object(old(mBuffer), old(mLocked)))
      ensures mLocked == old(mLocked)
      ensures if mLocked then released == None && mBuffer == old(mBuffer)
              else released == old(mBuffer) && mBuffer == None
    {
      if mLocked {
        return None;
      }
      released := mBuffer;
      mBuffer := None;
    }

    method AcquireBuffer(p: Option<Address>)
      requires Valid()
      modifies this, heap
      ensures View() == Acquire(old(View()), p)
      ensures mLocked == old(mLocked)
      ensures if mLocked then mBuffer == old(mBuffer) && SameHeap() else mBuffer == p && OwnFreed()
    {
      if mLocked {
        return;
      }
      ClearBuffer();
      mBuffer := p;
    }

    // acquire(CameraMetadata &): `other` may be this object.
    method AcquireFrom(other: CameraMetadata)
      requires Valid()
      modifies this, other, heap
      ensures other != this ==>
                var r := if old(mLocked) then (Object(old(other.mBuffer), old(other.mLocked)), None)
                         else Release(Object(old(other.mBuffer), old(other.mLocked)));
                && Object(other.mBuffer, other.mLocked) == r.0
                && View() == Acquire(old(View()), r.1)
      ensures mLocked == old(mLocked) && other.mLocked == old(other.mLocked)
      ensures other != this && !mLocked ==>
                OwnFreed() && if other.mLocked then mBuffer == None && other.mBuffer == old(other.mBuffer)
                              else mBuffer == old(other.mBuffer) && other.mBuffer == None
      ensures other != this && mLocked ==>
                SameHeap() && mBuffer == old(mBuffer) && other.mBuffer == old(other.mBuffer)
      ensures other == this ==> View() == old(View())
    {
      if mLocked {
        return;
      }
      var released := other.ReleaseBuffer();
      AcquireBuffer(released);
    }

    method Swap(other: CameraMetadata)
      modifies this, other
      ensures mLocked == old(mLocked) && other.mLocked == old(other.mLocked)
      ensures if old(mLocked) || old(other.mLocked)
              then mBuffer == old(mBuffer) && other.mBuffer == old(other.mBuffer)
              else mBuffer == old(other.mBuffer) && other.mBuffer == old(mBuffer)
    {
      if mLocked {
        return;
      } else if other.mLocked {
        return;
      }
      var thisBuf := mBuffer;
      var otherBuf := other.mBuffer;
      other.mBuffer := thisBuf;
      mBuffer := otherBuf;
    }

    method GetAndLock() returns (p: Option<Address>)
      modifies this
      ensures mLocked && mBuffer == old(mBuffer) && p == mBuffer
    {
      mLocked := true;
      p := mBuffer;
    }

    method UnlockWith(p: Option<Address>) returns (res: Status)
      modifies this
      ensures (Object(mBuffer, mLocked), res) == Unlock(Object(old(mBuffer), old(mLocked)), p)
      ensures mBuffer == old(mBuffer) && (mLocked <==> old(mLocked) && p != old(mBuffer))
      ensures res == if !old(mLocked) then INVALID_OPERATION else if p != old(mBuffer) then BAD_VALUE else OK
    {
      if !mLocked {
        return INVALID_OPERATION;
      }
      if p != mBuffer {
        return BAD_VALUE;
      }
      mLocked := false;
      return OK;
    }

    method ReadFrom(parsed: Result<Option<Buffer>, Status>) returns (res: Status)
      requires Valid()
      modifies this, heap
      ensures Valid() && (View(), res) == Read(old(View()), parsed)
      ensures mLocked == old(mLocked)
      ensures res == if mLocked then INVALID_OPERATION else if parsed.Err? then parsed.error else OK
      ensures if mLocked || parsed.Err? then mBuffer == old(mBuffer) && SameHeap()
              else if parsed.value.None? then mBuffer == None && OwnFreed()
              else Replaced(parsed.value.value)
    {
      if mLocked {
        return INVALID_OPERATION;
      }
      if parsed.Err? {
        return parsed.error;
      }
      var buffer := None;
      if parsed.value.Some? {
        var a := heap.Allocate(parsed.value.value);
        buffer := Some(a);
      }
      ClearBuffer();
      mBuffer := buffer;
      return OK;
    }

    method ResizeIfNeeded(extraEntries: nat, extraData: nat)
      requires Valid()
      modifies this, heap
      ensures Valid() && mLocked == old(mLocked)
      ensures View() == Resize(old(View()), extraEntries, extraData)
      ensures old(mBuffer).None? ==> Replaced(Buffer([], 2 * extraEntries, 2 * extraData))
      ensures old(mBuffer).Some? ==>
                var was := old(heap.live)[old(mBuffer).value];
                var entries, data := |was.entries| + extraEntries, DataCount(was.entries) + extraData;
                if entries <= was.entryCapacity && data <= was.dataCapacity
                then mBuffer == old(mBuffer) && SameHeap()
                else Replaced(Buffer(was.entries,
                                     if entries > was.entryCapacity then 2 * entries else was.entryCapacity,
                                     if data > was.dataCapacity then 2 * data else was.dataCapacity))
    {
      if mBuffer.None? {
        var a := heap.Allocate(Buffer([], extraEntries * 2, extraData * 2));
        mBuffer := Some(a);
      } else {
        var current := heap.live[mBuffer.value];
        var newEntryCount := |current.entries| + extraEntries;
        newEntryCount := if newEntryCount > current.entryCapacity then newEntryCount * 2 else current.entryCapacity;
        var newDataCount := DataCount(current.entries) + extraData;
        newDataCount := if newDataCount > current.dataCapacity then newDataCount * 2 else current.dataCapacity;
        if newEntryCount > current.entryCapacity || newDataCount > current.dataCapacity {
          var oldBuffer := mBuffer.value;
          var a := heap.Allocate(Buffer(current.entries, newEntryCount, newDataCount));
          mBuffer := Some(a);
          heap.Free(oldBuffer);
        }
      }
    }

    method ModifyWith(op: Op) returns (res: Status)
      requires Valid()
      modifies this, heap
      ensures (View(), res) == Modify(old(View()), op)
      ensures mLocked == old(mLocked) && (mLocked ==> res == INVALID_OPERATION)
      ensures mLocked ==> mBuffer == old(mBuffer) && SameHeap()
    {
      if mLocked {
        return INVALID_OPERATION;
      }
      if Resizes(op) {
        ResizeIfNeeded(ExtraEntries(op), ExtraData(op));
      }
      if mBuffer.None? {
        return LIBRARY_ERROR;
      }
      var done := Perform(heap.live[mBuffer.value], op);
      if done.None? {
        return LIBRARY_ERROR;
      }
      heap.live := heap.live[mBuffer.value := done.value];
      return OK;
    }
  }
}
