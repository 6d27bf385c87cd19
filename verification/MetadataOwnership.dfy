/** Any number of CameraMetadata objects and a caller that handles raw buffers: over every sequence
    of operations each allocated buffer has exactly one owner and is freed exactly once, and a locked
    object keeps its buffer. */
module MetadataOwnership {
  import opened CameraStatus
  import opened Wrappers
  import opened MetadataBuffer
  import opened CameraMetadataModel

  type Name = nat

  // `caller` is the set of raw buffers the caller has to free.
  datatype World = World(heap: Heap, objects: map<Name, Object>, caller: set<Address>)

  const EMPTY := World(Heap(map[], [], 0), map[], {})

  datatype Step =
    | Construct(id: Name)
    | ConstructSized(id: Name, entryCapacity: nat, dataCapacity: nat)
    | ConstructCopy(id: Name, source: Name)
    | ConstructFrom(id: Name, p: Option<Address>)
    | Destroy(id: Name)
    | AssignObject(id: Name, source: Name)
    | AssignRaw(id: Name, p: Option<Address>)
    | AcquireRaw(id: Name, p: Option<Address>)
    | AcquireObject(id: Name, source: Name)
    | Release(id: Name)
    | Clear(id: Name)
    | Swap(id: Name, other: Name)
    | ReadParcel(id: Name, parsed: Result<Option<Buffer>, Status>)
    | Lock(id: Name)
    | Unlock(id: Name, p: Option<Address>)
    | Modify(id: Name, op: Op)
    | CallerAllocates(b: Buffer)
    | CallerFrees(a: Address)

  // What the caller must not do: use a name twice, use an object that does not exist, read a raw
  // buffer that is not allocated, or give away or free a buffer it does not own.
  predicate Allowed(w: World, step: Step) {
    match step
    case Construct(id) => id !in w.objects
    case ConstructSized(id, _, _) => id !in w.objects
    case ConstructCopy(id, source) => id !in w.objects && source in w.objects
    case ConstructFrom(id, p) => id !in w.objects && (p.Some? ==> p.value in w.caller)
    case AssignObject(id, source) => id in w.objects && source in w.objects
    case AssignRaw(id, p) => id in w.objects && (p.Some? ==> p.value in w.heap.live)
    case AcquireRaw(id, p) => id in w.objects && (p.Some? ==> p.value in w.caller)
    case AcquireObject(id, source) => id in w.objects && source in w.objects
    case Swap(id, other) => id in w.objects && other in w.objects
    case CallerAllocates(_) => true
    case CallerFrees(a) => a in w.caller
    case _ => step.id in w.objects
  }

  function MemoryOf(w: World, id: Name): Memory
    requires id in w.objects
  {
    Memory(w.heap, w.objects[id])
  }

  function Put(w: World, id: Name, m: Memory): World {
    w.(heap := m.heap, objects := w.objects[id := m.obj])
  }

  function AddressSet(p: Option<Address>): set<Address> { if p.Some? then {p.value} else {} }

  function Apply(w: World, step: Step): World
    requires Allowed(w, step)
  {
    match step
    case Construct(id) => Put(w, id, Memory(w.heap, FRESH))
    case ConstructSized(id, e, d) => Put(w, id, Replace(Memory(w.heap, FRESH), Buffer([], e, d)))
    case ConstructCopy(id, source) => Put(w, id, Assign(Memory(w.heap, FRESH), w.objects[source].buffer))
    case ConstructFrom(id, p) =>
      Put(w, id, Acquire(Memory(w.heap, FRESH), p)).(caller := w.caller - AddressSet(p))
    case Destroy(id) =>
      var m := CameraMetadataModel.Destroy(MemoryOf(w, id));
      w.(heap := m.heap, objects := w.objects - {id})
    case AssignObject(id, source) => Put(w, id, Assign(MemoryOf(w, id), w.objects[source].buffer))
    case AssignRaw(id, p) => Put(w, id, Assign(MemoryOf(w, id), p))
    case AcquireRaw(id, p) =>
      // A locked object does not take the buffer, so the caller keeps it.
      Put(w, id, Acquire(MemoryOf(w, id), p))
        .(caller := if w.objects[id].locked then w.caller else w.caller - AddressSet(p))
    case AcquireObject(id, source) =>
      if w.objects[id].locked then w
      else
        var r := CameraMetadataModel.Release(w.objects[source]);
        var w' := w.(objects := w.objects[source := r.0]);
        Put(w', id, Acquire(MemoryOf(w', id), r.1))
    case Release(id) =>
      var r := CameraMetadataModel.Release(w.objects[id]);
      w.(objects := w.objects[id := r.0], caller := w.caller + AddressSet(r.1))
    case Clear(id) => Put(w, id, CameraMetadataModel.Clear(MemoryOf(w, id)))
    case Swap(id, other) =>
      if w.objects[id].locked || w.objects[other].locked then w
      else
        var a, b := w.objects[id], w.objects[other];
        w.(objects := w.objects[other := b.(buffer := a.buffer)][id := a.(buffer := b.buffer)])
    case ReadParcel(id, parsed) => Put(w, id, Read(MemoryOf(w, id), parsed).0)
    case Lock(id) => w.(objects := w.objects[id := w.objects[id].(locked := true)])
    case Unlock(id, p) => w.(objects := w.objects[id := CameraMetadataModel.Unlock(w.objects[id], p).0])
    case Modify(id, op) => Put(w, id, CameraMetadataModel.Modify(MemoryOf(w, id), op).0)
    case CallerAllocates(b) =>
      w.(heap := w.heap.(live := w.heap.live[w.heap.next := b], next := w.heap.next + 1),
         caller := w.caller + {w.heap.next})
    case CallerFrees(a) => w.(heap := Freed(w.heap, Some(a)), caller := w.caller - {a})
  }

  // ---------------------------------------------------------------------------------------------
  // The ownership invariant.

  predicate Holds(w: World, id: Name, a: Address) {
    id in w.objects && w.objects[id].buffer == Some(a)
  }

  // Each allocated buffer belongs to the caller or to one object, never to two.
  ghost predicate OneOwner(w: World) {
    && w.caller <= w.heap.live.Keys
    && (forall id <- w.objects :: w.objects[id].buffer.Some? ==> w.objects[id].buffer.value in w.heap.live)
    && (forall a <- w.heap.live :: a in w.caller || exists id :: Holds(w, id, a))
    && (forall id, a :: Holds(w, id, a) ==> a !in w.caller)
    && (forall id, other, a :: Holds(w, id, a) && Holds(w, other, a) ==> id == other)
  }

  // Every address ever allocated is either allocated or was freed, once.
  ghost predicate FreedOnce(h: Heap) {
    && (forall a <- h.live :: a < h.next && a !in h.freed)
    && (forall a <- h.freed :: a < h.next)
    && (forall a: nat :: a < h.next ==> a in h.live || a in h.freed)
    && (forall i, j :: 0 <= i < j < |h.freed| ==> h.freed[i] != h.freed[j])
  }

  ghost predicate Owned(w: World) { OneOwner(w) && FreedOnce(w.heap) }

  // ---------------------------------------------------------------------------------------------
  // The elementary moves every operation is made of.

  // An object frees its buffer.
  lemma FreeMove(w: World, id: Name, locked: bool)
    requires Owned(w) && id in w.objects
    ensures Owned(Put(w, id, Memory(Freed(w.heap, w.objects[id].buffer), Object(None, locked))))
  {
    var w' := Put(w, id, Memory(Freed(w.heap, w.objects[id].buffer), Object(None, locked)));
    if w.objects[id].buffer.Some? {
      assert Holds(w, id, w.objects[id].buffer.value);
    }
    forall o <- w'.objects | o != id && w.objects[o].buffer.Some? ensures w.objects[o].buffer != w.objects[id].buffer {
      assert Holds(w, o, w.objects[o].buffer.value);
    }
    forall a <- w'.heap.live ensures a in w'.caller || exists o :: Holds(w', o, a) {
      if a !in w.caller {
        var o :| Holds(w, o, a);
        assert Holds(w', o, a);
      }
    }
    assert forall o, a :: Holds(w', o, a) ==> Holds(w, o, a);
  }

  // An object without a buffer gets a newly allocated one.
  lemma AllocateMove(w: World, id: Name, b: Buffer, locked: bool)
    requires Owned(w) && id in w.objects && w.objects[id].buffer == None
    ensures Owned(Put(w, id, Replace(Memory(w.heap, Object(None, locked)), b)))
  {
    var w' := Put(w, id, Replace(Memory(w.heap, Object(None, locked)), b));
    assert Holds(w', id, w.heap.next);
    forall a <- w'.heap.live ensures a in w'.caller || exists o :: Holds(w', o, a) {
      if a != w.heap.next && a !in w.caller {
        var o :| Holds(w, o, a);
        assert Holds(w', o, a);
      }
    }
    assert forall o, a :: Holds(w', o, a) ==> Holds(w, o, a) || (o == id && a == w.heap.next);
  }

  // An object without a buffer takes one from the caller.
  lemma TakeMove(w: World, id: Name, p: Option<Address>, locked: bool)
    requires Owned(w) && id in w.objects && w.objects[id].buffer == None
    requires p.Some? ==> p.value in w.caller
    ensures Owned(Put(w, id, Memory(w.heap, Object(p, locked))).(caller := w.caller - AddressSet(p)))
  {
    var w' := Put(w, id, Memory(w.heap, Object(p, locked))).(caller := w.caller - AddressSet(p));
    forall a <- w'.heap.live ensures a in w'.caller || exists o :: Holds(w', o, a) {
      if p == Some(a) {
        assert Holds(w', id, a);
      } else if a !in w.caller {
        var o :| Holds(w, o, a);
        assert Holds(w', o, a);
      }
    }
    assert forall o, a: Address :: Holds(w', o, a) ==> Holds(w, o, a) || (o == id && p == Some(a));
  }

  // An object hands its buffer to the caller.
  lemma GiveMove(w: World, id: Name)
    requires Owned(w) && id in w.objects
    ensures Owned(w.(objects := w.objects[id := w.objects[id].(buffer := None)],
                     caller := w.caller + AddressSet(w.objects[id].buffer)))
  {
    var w' := w.(objects := w.objects[id := w.objects[id].(buffer := None)],
                 caller := w.caller + AddressSet(w.objects[id].buffer));
    if w.objects[id].buffer.Some? {
      assert Holds(w, id, w.objects[id].buffer.value);
    }
    forall a <- w'.heap.live ensures a in w'.caller || exists o :: Holds(w', o, a) {
      if a !in w.caller {
        var o :| Holds(w, o, a);
        assert o == id || Holds(w', o, a);
      }
    }
    assert forall o, a :: Holds(w', o, a) ==> Holds(w, o, a);
  }

  // An object without a buffer appears or disappears; a lock changes.
  lemma NameMove(w: World, id: Name, locked: bool)
    requires Owned(w) && (id in w.objects ==> w.objects[id].buffer == None)
    ensures Owned(Put(w, id, Memory(w.heap, Object(None, locked))))
    ensures Owned(w.(objects := w.objects - {id}))
  {
    var w1 := Put(w, id, Memory(w.heap, Object(None, locked)));
    var w2 := w.(objects := w.objects - {id});
    assert forall o, a :: Holds(w1, o, a) <==> Holds(w, o, a);
    assert forall o, a :: Holds(w2, o, a) <==> Holds(w, o, a);
  }

  lemma LockMove(w: World, id: Name, locked: bool)
    requires Owned(w) && id in w.objects
    ensures Owned(w.(objects := w.objects[id := w.objects[id].(locked := locked)]))
  {
    var w' := w.(objects := w.objects[id := w.objects[id].(locked := locked)]);
    assert forall o, a :: Holds(w', o, a) <==> Holds(w, o, a);
  }

  lemma ExchangeMove(w: World, id: Name, other: Name)
    requires Owned(w) && id in w.objects && other in w.objects
    ensures var a, b := w.objects[id], w.objects[other];
            Owned(w.(objects := w.objects[other := b.(buffer := a.buffer)][id := a.(buffer := b.buffer)]))
  {
    var x, y := w.objects[id], w.objects[other];
    var w' := w.(objects := w.objects[other := y.(buffer := x.buffer)][id := x.(buffer := y.buffer)]);
    forall a <- w'.heap.live ensures a in w'.caller || exists o :: Holds(w', o, a) {
      if a !in w.caller {
        var o :| Holds(w, o, a);
        assert Holds(w', if o == id then other else if o == other then id else o, a);
      }
    }
    assert forall o, a :: Holds(w', o, a) ==> Holds(w, if o == id then other else if o == other then id else o, a);
  }

  lemma RewriteMove(w: World, a: Address, b: Buffer)
    requires Owned(w) && a in w.heap.live
    ensures Owned(w.(heap := w.heap.(live := w.heap.live[a := b])))
  {
    var w' := w.(heap := w.heap.(live := w.heap.live[a := b]));
    assert forall o, x :: Holds(w', o, x) <==> Holds(w, o, x);
  }

  // ---------------------------------------------------------------------------------------------
  // Every operation is a sequence of moves.

  lemma ClearKeeps(w: World, id: Name)
    requires Owned(w) && id in w.objects
    ensures Owned(Put(w, id, CameraMetadataModel.Clear(MemoryOf(w, id))))
  {
    if w.objects[id].locked {
      assert w.objects[id := w.objects[id]] == w.objects;
    } else {
      FreeMove(w, id, false);
    }
  }

  lemma ReplaceIsFreeThenAllocate(w: World, id: Name, b: Buffer)
    requires FreedOnce(w.heap) && id in w.objects
    requires w.objects[id].buffer.Some? ==> w.objects[id].buffer.value in w.heap.live
    ensures var o := Object(None, w.objects[id].locked);
            var freed := Put(w, id, Memory(Freed(w.heap, w.objects[id].buffer), o));
            Put(w, id, Replace(MemoryOf(w, id), b)) == Put(freed, id, Replace(Memory(freed.heap, o), b))
  {
  }

  lemma ReplaceKeeps(w: World, id: Name, b: Buffer)
    requires Owned(w) && id in w.objects
    ensures Owned(Put(w, id, Replace(MemoryOf(w, id), b)))
  {
    var locked := w.objects[id].locked;
    ReplaceIsFreeThenAllocate(w, id, b);
    FreeMove(w, id, locked);
    AllocateMove(Put(w, id, Memory(Freed(w.heap, w.objects[id].buffer), Object(None, locked))), id, b, locked);
  }

  lemma AssignKeeps(w: World, id: Name, p: Option<Address>)
    requires Owned(w) && id in w.objects && (p.Some? ==> p.value in w.heap.live)
    ensures Owned(Put(w, id, Assign(MemoryOf(w, id), p)))
  {
    if w.objects[id].locked || p == w.objects[id].buffer {
      assert w.objects[id := w.objects[id]] == w.objects;
    } else if p.None? {
      ClearKeeps(w, id);
    } else {
      ReplaceKeeps(w, id, w.heap.live[p.value]);
    }
  }

  lemma AcquireKeeps(w: World, id: Name, p: Option<Address>)
    requires Owned(w) && id in w.objects && !w.objects[id].locked && (p.Some? ==> p.value in w.caller)
    ensures Owned(Put(w, id, Acquire(MemoryOf(w, id), p)).(caller := w.caller - AddressSet(p)))
  {
    FreeMove(w, id, false);
    var cleared := Put(w, id, CameraMetadataModel.Clear(MemoryOf(w, id)));
    if p.Some? && w.objects[id].buffer.Some? {
      assert Holds(w, id, w.objects[id].buffer.value);
    }
    TakeMove(cleared, id, p, false);
    assert cleared.objects[id := Object(p, false)] == w.objects[id := Object(p, false)];
  }

  // acquire(CameraMetadata &) is a release to the caller followed by an acquire.
  lemma AcquireObjectKeeps(w: World, id: Name, source: Name)
    requires Owned(w) && id in w.objects && source in w.objects && !w.objects[id].locked
    ensures Owned(Apply(w, AcquireObject(id, source)))
  {
    var r := CameraMetadataModel.Release(w.objects[source]);
    var w1 := w.(objects := w.objects[source := r.0], caller := w.caller + AddressSet(r.1));
    if w.objects[source].locked {
      assert w1 == w;
    } else {
      GiveMove(w, source);
    }
    AcquireKeeps(w1, id, r.1);
    var w2 := Put(w1, id, Acquire(MemoryOf(w1, id), r.1)).(caller := w1.caller - AddressSet(r.1));
    assert w2.caller == w.caller by {
      if r.1.Some? {
        assert Holds(w, source, r.1.value);
      }
    }
    assert w2 == Apply(w, AcquireObject(id, source));
  }

  lemma SameObject(w: World, id: Name)
    requires id in w.objects
    ensures Put(w, id, MemoryOf(w, id)) == w
  {
  }

  lemma ReadKeeps(w: World, id: Name, parsed: Result<Option<Buffer>, Status>)
    requires Owned(w) && id in w.objects
    ensures Owned(Put(w, id, Read(MemoryOf(w, id), parsed).0))
  {
    SameObject(w, id);
    if !w.objects[id].locked && parsed.Ok? {
      if parsed.value.Some? {
        ReplaceKeeps(w, id, parsed.value.value);
      } else {
        ClearKeeps(w, id);
      }
    }
  }

  lemma ResizeKeeps(w: World, id: Name, extraEntries: nat, extraData: nat)
    requires Owned(w) && id in w.objects
    ensures Owned(Put(w, id, Resize(MemoryOf(w, id), extraEntries, extraData)))
  {
    SameObject(w, id);
    ReplaceKeeps(w, id, Resized(Content(MemoryOf(w, id)), extraEntries, extraData));
  }

  lemma PerformKeeps(w: World, id: Name, r: Memory, op: Op)
    requires Owned(Put(w, id, r))
    ensures Owned(Put(w, id, PerformOn(r, op).0))
  {
    if Content(r).Some? && Perform(Content(r).value, op).Some? {
      RewriteMove(Put(w, id, r), r.obj.buffer.value, Perform(Content(r).value, op).value);
    }
  }

  lemma ModifyKeeps(w: World, id: Name, op: Op)
    requires Owned(w) && id in w.objects
    ensures Owned(Put(w, id, CameraMetadataModel.Modify(MemoryOf(w, id), op).0))
  {
    var m := MemoryOf(w, id);
    SameObject(w, id);
    if !m.obj.locked {
      if Resizes(op) {
        ResizeKeeps(w, id, ExtraEntries(op), ExtraData(op));
      }
      PerformKeeps(w, id, ResizeFor(m, op), op);
    }
  }

  lemma PutTwice(w: World, id: Name, first: Memory, second: Memory)
    ensures Put(Put(w, id, first), id, second) == Put(w, id, second)
  {
  }

  lemma ConstructKeeps(w: World, step: Step)
    requires Owned(w) && Allowed(w, step)
    requires step.Construct? || step.ConstructSized? || step.ConstructCopy? || step.ConstructFrom?
    ensures Owned(Apply(w, step))
  {
    var id, m := step.id, Memory(w.heap, FRESH);
    NameMove(w, id, false);
    var w1 := Put(w, id, m);
    match step
    case Construct(_) =>
    case ConstructSized(_, e, d) =>
      ReplaceKeeps(w1, id, Buffer([], e, d));
      PutTwice(w, id, m, Replace(m, Buffer([], e, d)));
    case ConstructCopy(_, source) =>
      AssignKeeps(w1, id, w.objects[source].buffer);
      PutTwice(w, id, m, Assign(m, w.objects[source].buffer));
    case ConstructFrom(_, p) =>
      AcquireKeeps(w1, id, p);
      PutTwice(w, id, m, Acquire(m, p));
  }

  lemma DestroyKeeps(w: World, id: Name)
    requires Owned(w) && id in w.objects
    ensures Owned(Apply(w, Destroy(id)))
  {
    FreeMove(w, id, false);
    var w1 := Put(w, id, Memory(Freed(w.heap, w.objects[id].buffer), Object(None, false)));
    NameMove(w1, id, false);
    assert w1.objects - {id} == w.objects - {id};
  }

  lemma CallerKeeps(w: World, step: Step)
    requires Owned(w) && Allowed(w, step) && (step.CallerAllocates? || step.CallerFrees?)
    ensures Owned(Apply(w, step))
  {
    var w' := Apply(w, step);
    forall a <- w'.heap.live ensures a in w'.caller || exists o :: Holds(w', o, a) {
      if a !in w.caller && a in w.heap.live {
        var o :| Holds(w, o, a);
        assert Holds(w', o, a);
      }
    }
    assert forall o, a :: Holds(w', o, a) <==> Holds(w, o, a);
    forall o <- w'.objects | w.objects[o].buffer.Some? ensures w.objects[o].buffer.value in w'.heap.live {
      assert Holds(w, o, w.objects[o].buffer.value);
    }
  }

  lemma OwnedStep(w: World, step: Step)
    requires Owned(w) && Allowed(w, step)
    ensures Owned(Apply(w, step))
  {
    match step
    case Construct(_) | ConstructSized(_, _, _) | ConstructCopy(_, _) | ConstructFrom(_, _) => ConstructKeeps(w, step);
    case Destroy(id) => DestroyKeeps(w, id);
    case AssignObject(id, source) => AssignKeeps(w, id, w.objects[source].buffer);
    case AssignRaw(id, p) => AssignKeeps(w, id, p);
    case AcquireRaw(id, p) =>
      if w.objects[id].locked {
        assert Apply(w, step) == w;
      } else {
        AcquireKeeps(w, id, p);
      }
    case AcquireObject(id, source) =>
      if !w.objects[id].locked {
        AcquireObjectKeeps(w, id, source);
      }
    case Release(id) =>
      if w.objects[id].locked {
        assert Apply(w, step) == w;
      } else {
        GiveMove(w, id);
      }
    case Clear(id) => ClearKeeps(w, id);
    case Swap(id, other) => ExchangeMove(w, id, other);
    case ReadParcel(id, parsed) => ReadKeeps(w, id, parsed);
    case Lock(id) => LockMove(w, id, true);
    case Unlock(id, p) => LockMove(w, id, CameraMetadataModel.Unlock(w.objects[id], p).0.locked);
    case Modify(id, op) => ModifyKeeps(w, id, op);
    case CallerAllocates(_) | CallerFrees(_) => CallerKeeps(w, step);
  }

  // ---------------------------------------------------------------------------------------------
  // All runs.

  predicate AllowedRun(w: World, run: seq<Step>)
    decreases run
  {
    run == [] || (Allowed(w, run[0]) && AllowedRun(Apply(w, run[0]), run[1..]))
  }

  function Exec(w: World, run: seq<Step>): World
    requires AllowedRun(w, run)
    decreases run
  {
    if run == [] then w else Exec(Apply(w, run[0]), run[1..])
  }

  lemma {:induction false} OwnedRun(w: World, run: seq<Step>)
    requires Owned(w) && AllowedRun(w, run)
    ensures Owned(Exec(w, run))
    decreases run
  {
    if run != [] {
      OwnedStep(w, run[0]);
      OwnedRun(Apply(w, run[0]), run[1..]);
    }
  }

  // Over every run, each allocated buffer has exactly one owner, and every buffer ever allocated is
  // either still allocated or was freed exactly once.
  lemma {:induction false} OneOwnerAlways(run: seq<Step>)
    requires AllowedRun(EMPTY, run)
    ensures var w := Exec(EMPTY, run);
            && (forall a <- w.heap.live :: a in w.caller || exists id :: Holds(w, id, a))
            && (forall id, a :: Holds(w, id, a) ==> a in w.heap.live && a !in w.caller)
            && (forall id, other, a :: Holds(w, id, a) && Holds(w, other, a) ==> id == other)
            && (forall a: nat :: a < w.heap.next ==> (a in w.heap.live <==> a !in w.heap.freed))
            && (forall i, j :: 0 <= i < j < |w.heap.freed| ==> w.heap.freed[i] != w.heap.freed[j])
  {
    assert Owned(EMPTY);
    OwnedRun(EMPTY, run);
  }

  // When every object is destroyed and the caller has freed what it owned, nothing is left over.
  lemma {:induction false} NothingLeaks(run: seq<Step>)
    requires AllowedRun(EMPTY, run)
    requires Exec(EMPTY, run).objects == map[] && Exec(EMPTY, run).caller == {}
    ensures var h := Exec(EMPTY, run).heap;
            h.live == map[] && forall a: nat :: a < h.next ==> a in h.freed
  {
    OneOwnerAlways(run);
    var w := Exec(EMPTY, run);
    forall a: Address ensures a !in w.heap.live {
      assert forall id :: !Holds(w, id, a);
    }
  }

  // ---------------------------------------------------------------------------------------------
  // Locking.

  // Steps that end the protection of a locked object.
  predicate Unprotects(w: World, step: Step, id: Name) {
    || step == Destroy(id)
    || (step.Unlock? && step.id == id && id in w.objects && step.p == w.objects[id].buffer)
  }

  lemma DistinctBuffers(w: World, id: Name, other: Name)
    requires Owned(w) && id in w.objects && other in w.objects && id != other
    ensures w.objects[id].buffer.Some? ==> w.objects[id].buffer != w.objects[other].buffer
  {
    if w.objects[id].buffer.Some? && w.objects[id].buffer == w.objects[other].buffer {
      assert Holds(w, id, w.objects[id].buffer.value);
      assert Holds(w, other, w.objects[id].buffer.value);
    }
  }

  // Called on a locked object itself, every operation but these gives up before it does anything.
  lemma LockedRefuses(w: World, step: Step, id: Name)
    requires Owned(w) && Allowed(w, step) && !step.CallerAllocates? && !step.CallerFrees? && step.id == id
    requires id in w.objects && w.objects[id].locked && !Unprotects(w, step, id)
    ensures Apply(w, step).heap == w.heap && Apply(w, step).objects == w.objects
  {
  }

  // Called on something else, no operation reaches a locked object's buffer.
  lemma OthersLeaveAlone(w: World, step: Step, id: Name)
    requires Owned(w) && Allowed(w, step) && (step.CallerAllocates? || step.CallerFrees? || step.id != id)
    requires id in w.objects && w.objects[id].locked
    ensures var w' := Apply(w, step);
            && id in w'.objects && w'.objects[id] == w.objects[id]
            && Content(MemoryOf(w', id)) == Content(MemoryOf(w, id))
  {
    if !step.CallerAllocates? && !step.CallerFrees? && step.id in w.objects {
      DistinctBuffers(w, id, step.id);
    }
    if w.objects[id].buffer.Some? {
      assert Holds(w, id, w.objects[id].buffer.value);
    }
  }

  // No other step changes a locked object's buffer pointer or the buffer's content.
  lemma LockProtects(w: World, step: Step, id: Name)
    requires Owned(w) && Allowed(w, step)
    requires id in w.objects && w.objects[id].locked && !Unprotects(w, step, id)
    ensures var w' := Apply(w, step);
            && id in w'.objects && w'.objects[id] == w.objects[id]
            && Content(MemoryOf(w', id)) == Content(MemoryOf(w, id))
  {
    if step.CallerAllocates? || step.CallerFrees? || step.id != id {
      OthersLeaveAlone(w, step, id);
    } else {
      LockedRefuses(w, step, id);
    }
  }

  predicate NeverUnprotects(w: World, run: seq<Step>, id: Name)
    requires AllowedRun(w, run)
    decreases run
  {
    run == [] || (!Unprotects(w, run[0], id) && NeverUnprotects(Apply(w, run[0]), run[1..], id))
  }

  // From getAndLock until the matching unlock or the destructor, whatever else happens, the pointer
  // that getAndLock returned stays the object's, with the same content.
  lemma {:induction false} LockedIsStable(w: World, run: seq<Step>, id: Name)
    requires Owned(w) && AllowedRun(w, run)
    requires id in w.objects && w.objects[id].locked && NeverUnprotects(w, run, id)
    ensures var w' := Exec(w, run);
            && id in w'.objects && w'.objects[id] == w.objects[id]
            && Content(MemoryOf(w', id)) == Content(MemoryOf(w, id))
    decreases run
  {
    if run != [] {
      OwnedStep(w, run[0]);
      LockProtects(w, run[0], id);
      LockedIsStable(Apply(w, run[0]), run[1..], id);
    }
  }
}
