/** One camera_metadata_t buffer, as far as CameraMetadata relies on it, and the growth policy that
    camera/CameraMetadata.cpp adds. The C library behind it is modelled by its contract: entries in
    order, an entry capacity and a data capacity, and operations that fail when something does not
    fit. */
module MetadataBuffer {
  import opened Powers
  import opened Wrappers

  // `dataSize` is what calculate_camera_metadata_entry_data_size answers for the entry.
  datatype Entry = Entry(tag: nat, data: seq<bv8>, dataSize: nat)

  datatype Buffer = Buffer(entries: seq<Entry>, entryCapacity: nat, dataCapacity: nat)

  function DataCount(entries: seq<Entry>): nat {
    if entries == [] then 0 else DataCount(entries[..|entries| - 1]) + entries[|entries| - 1].dataSize
  }

  predicate Fits(b: Buffer) {
    |b.entries| <= b.entryCapacity && DataCount(b.entries) <= b.dataCapacity
  }

  // ---------------------------------------------------------------------------------------------
  // The library: None stands for its error status.

  function FindFrom(entries: seq<Entry>, tag: nat, from: nat): (r: Option<nat>)
    requires from <= |entries|
    ensures r.Some? ==> from <= r.value < |entries| && entries[r.value].tag == tag
    ensures r.None? ==> forall i :: from <= i < |entries| ==> entries[i].tag != tag
    ensures r.Some? ==> forall i :: from <= i < r.value ==> entries[i].tag != tag
    decreases |entries| - from
  {
    if from == |entries| then None
    else if entries[from].tag == tag then Some(from)
    else FindFrom(entries, tag, from + 1)
  }

  function Find(b: Buffer, tag: nat): Option<nat> { FindFrom(b.entries, tag, 0) }

  function Checked(b: Buffer): Option<Buffer> { if Fits(b) then Some(b) else None }

  function LibraryAppend(b: Buffer, other: seq<Entry>): Option<Buffer> {
    Checked(b.(entries := b.entries + other))
  }

  function LibraryAdd(b: Buffer, e: Entry): Option<Buffer> {
    Checked(b.(entries := b.entries + [e]))
  }

  function LibraryUpdate(b: Buffer, index: nat, e: Entry): Option<Buffer>
    requires index < |b.entries|
  {
    Checked(b.(entries := b.entries[index := e]))
  }

  function LibraryDelete(b: Buffer, index: nat): Buffer
    requires index < |b.entries|
  {
    b.(entries := b.entries[..index] + b.entries[index + 1..])
  }

  // ---------------------------------------------------------------------------------------------
  // resizeIfNeeded.

  function EntryCount(b: Option<Buffer>): nat { if b.None? then 0 else |b.value.entries| }
  function EntryCapacity(b: Option<Buffer>): nat { if b.None? then 0 else b.value.entryCapacity }
  function DataUsed(b: Option<Buffer>): nat { if b.None? then 0 else DataCount(b.value.entries) }
  function DataCapacity(b: Option<Buffer>): nat { if b.None? then 0 else b.value.dataCapacity }

  function NewCapacity(count: nat, extra: nat, capacity: nat): nat {
    if count + extra > capacity then (count + extra) * 2 else capacity
  }

  // A null buffer is allocated; a buffer that is too small in either respect is copied to a larger one.
  predicate Reallocates(b: Option<Buffer>, extraEntries: nat, extraData: nat) {
    || b.None?
    || NewCapacity(EntryCount(b), extraEntries, EntryCapacity(b)) > EntryCapacity(b)
    || NewCapacity(DataUsed(b), extraData, DataCapacity(b)) > DataCapacity(b)
  }

  function Resized(b: Option<Buffer>, extraEntries: nat, extraData: nat): Buffer {
    match b
    case None => Buffer([], extraEntries * 2, extraData * 2)
    case Some(was) =>
      if !Reallocates(b, extraEntries, extraData) then was
      else
        Buffer(was.entries, NewCapacity(|was.entries|, extraEntries, was.entryCapacity),
               NewCapacity(DataCount(was.entries), extraData, was.dataCapacity))
  }

  ghost predicate ValidBuffer(b: Option<Buffer>) { b.Some? ==> Fits(b.value) }

  // Contents stay, and both requests fit afterwards.
  lemma ResizeMakesRoom(b: Option<Buffer>, extraEntries: nat, extraData: nat)
    requires ValidBuffer(b)
    ensures var r := Resized(b, extraEntries, extraData);
            && Fits(r)
            && r.entries == (if b.None? then [] else b.value.entries)
            && |r.entries| + extraEntries <= r.entryCapacity
            && DataCount(r.entries) + extraData <= r.dataCapacity
  {
  }

  // ---------------------------------------------------------------------------------------------
  // update, append, erase, sort on the buffer.

  datatype Op = Update(e: Entry) | Append(other: seq<Entry>) | Erase(tag: nat) | Sort(sorted: seq<Entry>)

  function ExtraEntries(op: Op): nat {
    match op case Update(_) => 1 case Append(other) => |other| case _ => 0
  }

  function ExtraData(op: Op): nat {
    match op case Update(e) => e.dataSize case Append(other) => DataCount(other) case _ => 0
  }

  predicate Resizes(op: Op) { op.Update? || op.Append? }

  // The library call behind each operation, on a buffer that resizeIfNeeded has seen.
  function Perform(b: Buffer, op: Op): Option<Buffer> {
    match op
    case Update(e) =>
      var at := Find(b, e.tag);
      if at.None? then LibraryAdd(b, e) else LibraryUpdate(b, at.value, e)
    case Append(other) => LibraryAppend(b, other)
    case Erase(tag) =>
      var at := Find(b, tag);
      if at.None? then Some(b) else Some(LibraryDelete(b, at.value))
    case Sort(sorted) => Some(b.(entries := sorted))
  }

  // sort_camera_metadata rearranges the entries.
  ghost predicate AllowedOp(b: Option<Buffer>, op: Op) {
    op.Sort? ==> b.Some? && multiset(op.sorted) == multiset(b.value.entries)
  }

  function After(b: Option<Buffer>, op: Op): Option<Buffer> {
    if Resizes(op) then
      var r := Resized(b, ExtraEntries(op), ExtraData(op));
      var done := Perform(r, op);
      if done.None? then Some(r) else done
    else if b.None? then None
    else Perform(b.value, op)
  }

  lemma {:induction false} DataCountConcat(a: seq<Entry>, b: seq<Entry>)
    ensures DataCount(a + b) == DataCount(a) + DataCount(b)
    decreases |b|
  {
    if b == [] {
      assert a + b == a;
    } else {
      var n := |b| - 1;
      assert (a + b)[..|a + b| - 1] == a + b[..n];
      DataCountConcat(a, b[..n]);
    }
  }

  lemma {:induction false} DataCountAround(s: seq<Entry>, i: nat)
    requires i < |s|
    ensures DataCount(s) == DataCount(s[..i]) + s[i].dataSize + DataCount(s[i + 1..])
  {
    assert s == s[..i] + ([s[i]] + s[i + 1..]);
    assert DataCount([s[i]]) == s[i].dataSize;
    DataCountConcat(s[..i], [s[i]] + s[i + 1..]);
    DataCountConcat([s[i]], s[i + 1..]);
  }

  lemma MultisetWithoutOne(s: seq<Entry>, i: nat)
    requires i < |s|
    ensures multiset(s[..i] + s[i + 1..]) == multiset(s) - multiset{s[i]}
  {
    assert s == s[..i] + [s[i]] + s[i + 1..];
  }

  lemma {:induction false} DataWithoutOne(s: seq<Entry>, i: nat)
    requires i < |s|
    ensures DataCount(s[..i] + s[i + 1..]) + s[i].dataSize == DataCount(s)
  {
    DataCountAround(s, i);
    DataCountConcat(s[..i], s[i + 1..]);
  }

  lemma SameLength(a: seq<Entry>, b: seq<Entry>)
    requires multiset(a) == multiset(b)
    ensures |a| == |b|
  {
    assert |multiset(a)| == |a| && |multiset(b)| == |b|;
  }

  // Without its last element one arrangement has the same elements as the other without an equal one.
  lemma SameWithoutOne(a: seq<Entry>, b: seq<Entry>) returns (i: nat)
    requires multiset(a) == multiset(b) && a != []
    ensures i < |b| && b[i] == a[|a| - 1]
    ensures multiset(a[..|a| - 1]) == multiset(b[..i] + b[i + 1..])
  {
    var n := |a| - 1;
    assert a[n] in multiset(a);
    i :| 0 <= i < |b| && b[i] == a[n];
    MultisetWithoutOne(b, i);
    MultisetWithoutOne(a, n);
    assert a[..n] + a[n + 1..] == a[..n];
  }

  lemma {:induction false} DataCountOfPermutation(a: seq<Entry>, b: seq<Entry>)
    requires multiset(a) == multiset(b)
    ensures DataCount(a) == DataCount(b) && |a| == |b|
    decreases |a|
  {
    SameLength(a, b);
    if a != [] {
      var i := SameWithoutOne(a, b);
      DataWithoutOne(b, i);
      DataCountOfPermutation(a[..|a| - 1], b[..i] + b[i + 1..]);
    }
  }

  lemma DataCountOfUpdate(s: seq<Entry>, i: nat, e: Entry)
    requires i < |s|
    ensures DataCount(s[i := e]) + s[i].dataSize == DataCount(s) + e.dataSize
  {
    var s' := s[i := e];
    assert s'[..i] == s[..i] && s'[i + 1..] == s[i + 1..];
    DataCountAround(s, i);
    DataCountAround(s', i);
  }

  lemma UpdateFits(r: Buffer, e: Entry)
    requires Fits(r)
    requires |r.entries| + 1 <= r.entryCapacity && DataCount(r.entries) + e.dataSize <= r.dataCapacity
    ensures Perform(r, Update(e)).Some?
  {
    var at := Find(r, e.tag);
    if at.None? {
      DataCountConcat(r.entries, [e]);
      assert DataCount([e]) == e.dataSize;
    } else {
      DataCountOfUpdate(r.entries, at.value, e);
    }
  }

  // After resizeIfNeeded the library call never fails for want of room.
  lemma NeverFailsForRoom(b: Option<Buffer>, op: Op)
    requires ValidBuffer(b) && AllowedOp(b, op) && Resizes(op)
    ensures Perform(Resized(b, ExtraEntries(op), ExtraData(op)), op).Some?
  {
    var r := Resized(b, ExtraEntries(op), ExtraData(op));
    ResizeMakesRoom(b, ExtraEntries(op), ExtraData(op));
    match op
    case Update(e) => UpdateFits(r, e);
    case Append(other) => DataCountConcat(r.entries, other);
  }

  lemma OpKeepsValid(b: Option<Buffer>, op: Op)
    requires ValidBuffer(b) && AllowedOp(b, op)
    ensures ValidBuffer(After(b, op))
    ensures After(b, op).Some? ==>
              |After(b, op).value.entries| <= After(b, op).value.entryCapacity
              && DataCount(After(b, op).value.entries) <= After(b, op).value.dataCapacity
  {
    match op
    case Update(_) | Append(_) =>
      ResizeMakesRoom(b, ExtraEntries(op), ExtraData(op));
      NeverFailsForRoom(b, op);
    case Erase(tag) =>
      if b.Some? && Find(b.value, tag).Some? {
        DataWithoutOne(b.value.entries, Find(b.value, tag).value);
      }
    case Sort(sorted) => DataCountOfPermutation(sorted, b.value.entries);
  }

  // What update() leaves: the entry is the one a later find() answers, every other entry is still
  // there in its old order, and only a tag that was not there makes the buffer longer.
  lemma UpdateIsFound(b: Option<Buffer>, e: Entry)
    requires ValidBuffer(b)
    ensures var before := if b.None? then [] else b.value.entries;
            var at := FindFrom(before, e.tag, 0);
            var r := After(b, Update(e));
            && r.Some?
            && r.value.entries == (if at.None? then before + [e] else before[at.value := e])
            && Find(r.value, e.tag) == Some(if at.None? then |before| else at.value)
  {
    NeverFailsForRoom(b, Update(e));
    ResizeMakesRoom(b, 1, e.dataSize);
    var before := if b.None? then [] else b.value.entries;
    var at := FindFrom(before, e.tag, 0);
    var i := if at.None? then |before| else at.value;
    var after := if at.None? then before + [e] else before[i := e];
    FirstMatch(after, e.tag, i);
  }

  // What append() leaves: the entries that were there, then all of the other's.
  lemma AppendInFields(b: Option<Buffer>, other: seq<Entry>)
    requires ValidBuffer(b)
    ensures var r := After(b, Append(other));
            r.Some? && r.value.entries == (if b.None? then [] else b.value.entries) + other
  {
    NeverFailsForRoom(b, Append(other));
    ResizeMakesRoom(b, |other|, DataCount(other));
  }

  // What erase() leaves: everything but the first entry with the tag, wherever that stands.
  lemma EraseInFields(b: Buffer, tag: nat)
    ensures After(Some(b), Erase(tag)).Some?
    ensures var was, r := b.entries, After(Some(b), Erase(tag)).value;
            && r.entryCapacity == b.entryCapacity && r.dataCapacity == b.dataCapacity
            && ((forall e <- was :: e.tag != tag) ==> r.entries == was)
            && (forall i :: 0 <= i < |was| && was[i].tag == tag && (forall j :: 0 <= j < i ==> was[j].tag != tag) ==>
                  r.entries == was[..i] + was[i + 1..])
    ensures After(None, Erase(tag)) == None
  {
    var at := FindFrom(b.entries, tag, 0);
    if at.Some? {
      assert b.entries[at.value] in b.entries;
    }
  }

  // What sort() leaves: the arrangement the library made, in the same buffer.
  lemma SortInFields(b: Buffer, sorted: seq<Entry>)
    ensures After(Some(b), Sort(sorted)) == Some(Buffer(sorted, b.entryCapacity, b.dataCapacity))
  {
  }

  // The capacities that update() and append() leave: twice the request where that did not fit.
  lemma GrownInFields(b: Option<Buffer>, op: Op)
    requires ValidBuffer(b) && Resizes(op)
    ensures var r := After(b, op);
            var entries := match op case Update(_) => 1 case Append(other) => |other| case _ => 0;
            var data := match op case Update(e) => e.dataSize case Append(other) => DataCount(other) case _ => 0;
            && r.Some?
            && (b.None? ==> r.value.entryCapacity == 2 * entries && r.value.dataCapacity == 2 * data)
            && (b.Some? ==>
                  var needed, used := |b.value.entries| + entries, DataCount(b.value.entries) + data;
                  && r.value.entryCapacity
                     == (if needed > b.value.entryCapacity then 2 * needed else b.value.entryCapacity)
                  && r.value.dataCapacity == if used > b.value.dataCapacity then 2 * used else b.value.dataCapacity)
  {
    hide DataCount, FindFrom;
    NeverFailsForRoom(b, op);
    CapacitiesAfter(b, op);
  }

  lemma {:induction false} FirstMatch(entries: seq<Entry>, tag: nat, i: nat)
    requires i < |entries| && entries[i].tag == tag
    requires forall j :: 0 <= j < i ==> entries[j].tag != tag
    ensures FindFrom(entries, tag, 0) == Some(i)
  {
  }

  // Erasing a tag that update has added leaves the entries as they were before.
  lemma EraseUndoesUpdate(b: Option<Buffer>, e: Entry)
    requires ValidBuffer(b) && (b.Some? ==> Find(b.value, e.tag).None?)
    ensures var was := if b.None? then [] else b.value.entries;
            var erased := After(After(b, Update(e)), Erase(e.tag));
            erased.Some? && erased.value.entries == was
  {
    var was := if b.None? then [] else b.value.entries;
    var r := Resized(b, 1, e.dataSize);
    ResizeMakesRoom(b, 1, e.dataSize);
    NeverFailsForRoom(b, Update(e));
    assert r.entries == was;
    assert Find(r, e.tag).None?;
    var updated := After(b, Update(e)).value;
    assert updated.entries == was + [e];
    FirstMatch(updated.entries, e.tag, |was|);
  }

  // ---------------------------------------------------------------------------------------------
  // Growth over a whole run.

  // The buffer, how often each capacity has grown, how often a new buffer was allocated, and the
  // largest number of entries and of data bytes ever requested.
  datatype Meter = Meter(buffer: Option<Buffer>, entryGrowths: nat, dataGrowths: nat, reallocations: nat,
                         peakEntries: nat, peakData: nat)

  function Max(a: nat, b: nat): nat { if a < b then b else a }

  function Metered(m: Meter, op: Op): Meter {
    var b := m.buffer;
    if !Resizes(op) then m.(buffer := After(b, op))
    else
      var r := Resized(b, ExtraEntries(op), ExtraData(op));
      Meter(After(b, op),
            m.entryGrowths + (if r.entryCapacity > EntryCapacity(b) then 1 else 0),
            m.dataGrowths + (if r.dataCapacity > DataCapacity(b) then 1 else 0),
            m.reallocations + (if b.Some? && Reallocates(b, ExtraEntries(op), ExtraData(op)) then 1 else 0),
            Max(m.peakEntries, EntryCount(b) + ExtraEntries(op)),
            Max(m.peakData, DataUsed(b) + ExtraData(op)))
  }

  // Each growth at least doubles capacity + 2, and a grown capacity is twice some request.
  predicate Doubling(growths: nat, capacity: nat, peak: nat) {
    2 * Pow2(growths) <= capacity + 2 && (growths > 0 ==> capacity <= 2 * peak)
  }

  ghost predicate MeterInv(m: Meter) {
    && ValidBuffer(m.buffer)
    && Doubling(m.entryGrowths, EntryCapacity(m.buffer), m.peakEntries)
    && Doubling(m.dataGrowths, DataCapacity(m.buffer), m.peakData)
    && m.reallocations <= m.entryGrowths + m.dataGrowths
  }

  lemma CapacitiesAfterResize(b: Option<Buffer>, extraEntries: nat, extraData: nat)
    ensures var r := Resized(b, extraEntries, extraData);
            && r.entryCapacity == NewCapacity(EntryCount(b), extraEntries, EntryCapacity(b))
            && r.dataCapacity == NewCapacity(DataUsed(b), extraData, DataCapacity(b))
            && (b.Some? && Reallocates(b, extraEntries, extraData) ==>
                  r.entryCapacity > EntryCapacity(b) || r.dataCapacity > DataCapacity(b))
  {
  }

  lemma CapacitiesStay(b: Buffer, op: Op)
    ensures var r := Perform(b, op);
            r.Some? ==> r.value.entryCapacity == b.entryCapacity && r.value.dataCapacity == b.dataCapacity
  {
  }

  lemma DoublingStep(growths: nat, count: nat, extra: nat, capacity: nat, peak: nat)
    requires Doubling(growths, capacity, peak)
    ensures var capacity' := NewCapacity(count, extra, capacity);
            Doubling(growths + (if capacity' > capacity then 1 else 0), capacity', Max(peak, count + extra))
  {
  }

  lemma CapacitiesAfter(b: Option<Buffer>, op: Op)
    requires ValidBuffer(b) && AllowedOp(b, op)
    ensures Resizes(op) ==>
              EntryCapacity(After(b, op)) == NewCapacity(EntryCount(b), ExtraEntries(op), EntryCapacity(b))
              && DataCapacity(After(b, op)) == NewCapacity(DataUsed(b), ExtraData(op), DataCapacity(b))
    ensures !Resizes(op) ==>
              EntryCapacity(After(b, op)) == EntryCapacity(b) && DataCapacity(After(b, op)) == DataCapacity(b)
  {
    if Resizes(op) {
      CapacitiesAfterResize(b, ExtraEntries(op), ExtraData(op));
      CapacitiesStay(Resized(b, ExtraEntries(op), ExtraData(op)), op);
    } else if b.Some? {
      CapacitiesStay(b.value, op);
    }
  }

  lemma ResizeIsCounted(m: Meter, op: Op)
    requires MeterInv(m) && AllowedOp(m.buffer, op) && Resizes(op)
    ensures var m' := Metered(m, op);
            && Doubling(m'.entryGrowths, EntryCapacity(m'.buffer), m'.peakEntries)
            && Doubling(m'.dataGrowths, DataCapacity(m'.buffer), m'.peakData)
  {
    var b := m.buffer;
    CapacitiesAfter(b, op);
    CapacitiesAfterResize(b, ExtraEntries(op), ExtraData(op));
    DoublingStep(m.entryGrowths, EntryCount(b), ExtraEntries(op), EntryCapacity(b), m.peakEntries);
    DoublingStep(m.dataGrowths, DataUsed(b), ExtraData(op), DataCapacity(b), m.peakData);
  }

  lemma MeterInvStep(m: Meter, op: Op)
    requires MeterInv(m) && AllowedOp(m.buffer, op)
    ensures MeterInv(Metered(m, op))
  {
    OpKeepsValid(m.buffer, op);
    if Resizes(op) {
      ResizeIsCounted(m, op);
      CapacitiesAfterResize(m.buffer, ExtraEntries(op), ExtraData(op));
    } else {
      CapacitiesAfter(m.buffer, op);
    }
  }

  ghost predicate AllowedOps(m: Meter, ops: seq<Op>)
    decreases ops
  {
    ops == [] || (AllowedOp(m.buffer, ops[0]) && AllowedOps(Metered(m, ops[0]), ops[1..]))
  }

  function AfterAll(m: Meter, ops: seq<Op>): Meter
    decreases ops
  {
    if ops == [] then m else AfterAll(Metered(m, ops[0]), ops[1..])
  }

  lemma {:induction false} MeterRun(m: Meter, ops: seq<Op>)
    requires MeterInv(m) && AllowedOps(m, ops)
    ensures MeterInv(AfterAll(m, ops))
    decreases ops
  {
    if ops != [] {
      MeterInvStep(m, ops[0]);
      MeterRun(Metered(m, ops[0]), ops[1..]);
    }
  }

  // From a null buffer or one of any capacities, after any operations: the number of growths is
  // logarithmic in the largest request, and so is the number of copying reallocations.
  lemma {:induction false} GrowthIsLogarithmic(b: Option<Buffer>, ops: seq<Op>)
    requires ValidBuffer(b) && AllowedOps(Meter(b, 0, 0, 0, 0, 0), ops)
    ensures var m := AfterAll(Meter(b, 0, 0, 0, 0, 0), ops);
            && Pow2(m.entryGrowths) <= m.peakEntries + 1
            && Pow2(m.dataGrowths) <= m.peakData + 1
            && m.reallocations <= m.entryGrowths + m.dataGrowths
  {
    MeterRun(Meter(b, 0, 0, 0, 0, 0), ops);
  }
}
