/** What the operations on CameraMetadata objects do to the contents they move, copy and change. */
module MetadataContents {
  import opened CameraMetadataModel
  import opened CameraStatus
  import opened MetadataBuffer
  import opened MetadataOwnership
  import opened Wrappers

  function ContentOf(w: World, id: Name): Option<Buffer>
    requires id in w.objects
  {
    Content(MemoryOf(w, id))
  }

  // update, append, erase and sort on an unlocked object do to its content what the growth theorems say
  // of a buffer.
  lemma ModifyIsAfter(w: World, id: Name, op: Op)
    requires Owned(w) && id in w.objects && !w.objects[id].locked
    ensures ContentOf(Apply(w, Modify(id, op)), id) == After(ContentOf(w, id), op)
  {
  }

  // Their status: a locked object refuses, and without a buffer there is nothing to erase from or to sort.
  lemma ModifyStatus(w: World, id: Name, op: Op)
    requires Owned(w) && id in w.objects && (!w.objects[id].locked ==> AllowedOp(ContentOf(w, id), op))
    requires ContentOf(w, id).Some? ==> Fits(ContentOf(w, id).value)
    ensures CameraMetadataModel.Modify(MemoryOf(w, id), op).1
         == if w.objects[id].locked then INVALID_OPERATION
            else if (op.Update? || op.Append?) || w.objects[id].buffer.Some? then OK
            else LIBRARY_ERROR
  {
    if !w.objects[id].locked && Resizes(op) {
      NeverFailsForRoom(ContentOf(w, id), op);
    }
  }

  // Locking and unlocking with the buffer that getAndLock handed out undo each other; with another pointer
  // the lock stays, and an object that is not locked stays so.
  lemma LockThenUnlock(w: World, id: Name, p: Option<Address>)
    requires id in w.objects && !w.objects[id].locked
    ensures var locked := Apply(w, Lock(id));
            && locked.objects[id] == Object(w.objects[id].buffer, true) && locked.heap == w.heap
            && Apply(locked, Unlock(id, w.objects[id].buffer)) == w
            && (p != w.objects[id].buffer ==> Apply(locked, Unlock(id, p)) == locked)
            && Apply(w, Unlock(id, p)) == w
  {
    var back := Apply(Apply(w, Lock(id)), Unlock(id, w.objects[id].buffer));
    assert back.objects == w.objects;
    assert Apply(w, Unlock(id, p)).objects == w.objects;
    if p != w.objects[id].buffer {
      assert Apply(Apply(w, Lock(id)), Unlock(id, p)).objects == Apply(w, Lock(id)).objects;
    }
  }

  // What the constructors make.
  lemma ConstructedInFields(w: World, id: Name, source: Name, entries: nat, data: nat, p: Option<Address>)
    requires Owned(w) && id !in w.objects && source in w.objects && (p.Some? ==> p.value in w.caller)
    ensures var w' := Apply(w, Construct(id));
            w'.objects[id] == Object(None, false) && w'.heap == w.heap
    ensures var w' := Apply(w, ConstructSized(id, entries, data));
            ContentOf(w', id) == Some(Buffer([], entries, data)) && !w'.objects[id].locked
    ensures var w' := Apply(w, ConstructCopy(id, source));
            && ContentOf(w', id) == ContentOf(w, source) == ContentOf(w', source) && !w'.objects[id].locked
            && (w.objects[source].buffer.Some? ==> w'.objects[id].buffer != w.objects[source].buffer)
    ensures var w' := Apply(w, ConstructFrom(id, p));
            w'.objects[id] == Object(p, false) && w'.heap == w.heap && (p.Some? ==> p.value !in w'.caller)
  {
  }

  // clear() and the destructor free the buffer; the destructor does so for a locked object too.
  lemma FreedInFields(w: World, id: Name)
    requires id in w.objects
    ensures var w' := Apply(w, Destroy(id));
            && id !in w'.objects
            && (w.objects[id].buffer.Some? ==> w'.heap.freed == w.heap.freed + [w.objects[id].buffer.value]
                                               && w'.heap.live == w.heap.live - {w.objects[id].buffer.value})
            && (w.objects[id].buffer.None? ==> w'.heap == w.heap)
    ensures var w' := Apply(w, Clear(id));
            if w.objects[id].locked then w' == w
            else
              && w'.objects[id] == Object(None, false)
              && (w.objects[id].buffer.Some? ==> w'.heap.freed == w.heap.freed + [w.objects[id].buffer.value]
                                                 && w'.heap.live == w.heap.live - {w.objects[id].buffer.value})
              && (w.objects[id].buffer.None? ==> w'.heap == w.heap)
  {
    if w.objects[id].locked {
      assert Apply(w, Clear(id)).objects == w.objects;
    }
  }

  // A good parcel replaces the content, a null one empties the object, a bad one changes nothing.
  lemma ReadInFields(w: World, id: Name, parsed: Result<Option<Buffer>, Status>)
    requires Owned(w) && id in w.objects && !w.objects[id].locked
    ensures var w' := Apply(w, ReadParcel(id, parsed));
            match parsed
            case Err(_) => w' == w
            case Ok(content) => ContentOf(w', id) == content && !w'.objects[id].locked
  {
    if parsed.Err? {
      assert Apply(w, ReadParcel(id, parsed)).objects == w.objects;
    }
  }

  // Assigning a raw buffer copies it, and null empties the object; the caller keeps what it owns.
  lemma AssignRawInFields(w: World, id: Name, p: Option<Address>)
    requires Owned(w) && Allowed(w, AssignRaw(id, p)) && !w.objects[id].locked
    ensures var w' := Apply(w, AssignRaw(id, p));
            && w'.caller == w.caller && !w'.objects[id].locked
            && (p.None? ==> w'.objects[id].buffer == None)
            && (p.Some? ==> ContentOf(w', id) == Some(w.heap.live[p.value]))
  {
  }

  // What the caller allocates is live and its own until it frees it.
  lemma CallerInFields(w: World, b: Buffer, a: Address)
    requires Owned(w) && a in w.caller
    ensures var w' := Apply(w, CallerAllocates(b));
            && w'.caller == w.caller + {w.heap.next} && w'.heap.live == w.heap.live[w.heap.next := b]
            && w'.objects == w.objects && w'.heap.freed == w.heap.freed
    ensures var w' := Apply(w, CallerFrees(a));
            && w'.caller == w.caller - {a} && w'.heap.live == w.heap.live - {a}
            && w'.objects == w.objects && w'.heap.freed == w.heap.freed + [a]
  {
  }

  // Assignment copies; the source keeps its own.
  lemma AssignCopies(w: World, id: Name, source: Name)
    requires Owned(w) && id in w.objects && source in w.objects && !w.objects[id].locked
    ensures var w' := Apply(w, AssignObject(id, source));
            ContentOf(w', id) == ContentOf(w, source) == ContentOf(w', source)
            && (id != source && w.objects[source].buffer.Some? ==>
                  w'.objects[id].buffer != w'.objects[source].buffer)
  {
    if id != source {
      DistinctBuffers(w, source, id);
    }
  }

  // acquire moves the content over, and leaves the other object without a buffer.
  lemma AcquireMoves(w: World, id: Name, source: Name)
    requires Owned(w) && id in w.objects && source in w.objects && id != source
    requires !w.objects[id].locked && !w.objects[source].locked
    ensures var w' := Apply(w, AcquireObject(id, source));
            ContentOf(w', id) == ContentOf(w, source) && w'.objects[source].buffer == None
            && w'.objects[id].buffer == w.objects[source].buffer
  {
    DistinctBuffers(w, source, id);
  }

  // swap exchanges the contents of unlocked objects without copying them.
  lemma SwapExchanges(w: World, id: Name, other: Name)
    requires Owned(w) && id in w.objects && other in w.objects
    requires !w.objects[id].locked && !w.objects[other].locked
    ensures var w' := Apply(w, Swap(id, other));
            ContentOf(w', id) == ContentOf(w, other) && ContentOf(w', other) == ContentOf(w, id)
            && w'.heap == w.heap
  {
  }

  // What release hands over and acquire takes back is the same buffer with the same content.
  lemma ReleaseThenAcquire(w: World, id: Name)
    requires Owned(w) && id in w.objects && !w.objects[id].locked
    ensures var w' := Apply(w, Release(id));
            w'.objects[id].buffer == None && w'.heap == w.heap
            && Allowed(w', AcquireRaw(id, w.objects[id].buffer))
            && Apply(w', AcquireRaw(id, w.objects[id].buffer)) == w
  {
    var p := w.objects[id].buffer;
    var w' := Apply(w, Release(id));
    var back := Apply(w', AcquireRaw(id, p));
    assert back.objects == w.objects;
    if p.Some? {
      assert Holds(w, id, p.value);
      assert back.caller == w.caller;
    }
  }
}
