/** Vendor tag descriptors in a parcel: what writeToParcel writes, what createFromParcel makes of any
    parcel, and when one undoes the other. */
module VendorTagParcel {
  import opened CameraStatus
  import opened Parcels
  import opened Sequences
  import opened SortedNames
  import opened VendorTags
  import opened Wrappers

  // reinterpret_cast of an int32_t into a uint32_t.
  function ToUint32(v: int): Tag { v % TAG_LIMIT }

  lemma CastsCancel(x: Tag)
    ensures ToUint32(ToInt32(x)) == x && (x < COUNT_LIMIT ==> ToInt32(x) == x)
  {
  }

  // ---- keys in order ----

  predicate IsLeast(keys: set<Tag>, k: Tag) { k in keys && forall j :: j in keys ==> k <= j }

  lemma {:induction false} LeastExists(keys: set<Tag>)
    requires keys != {}
    ensures exists k :: IsLeast(keys, k)
    decreases |keys|
  {
    var x :| x in keys;
    var rest := keys - {x};
    if rest == {} {
      forall j | j in keys ensures x <= j {
        assert j == x || j in rest;
      }
      assert IsLeast(keys, x);
    } else {
      LeastExists(rest);
      var k :| IsLeast(rest, k);
      LeastOfTwo(keys, x, k);
    }
  }

  lemma LeastOfTwo(keys: set<Tag>, x: Tag, k: Tag)
    requires x in keys && IsLeast(keys - {x}, k)
    ensures IsLeast(keys, if x <= k then x else k)
  {
    forall j | j in keys ensures j == x || k <= j {
      assert j == x || j in keys - {x};
    }
  }

  function Least(keys: set<Tag>): (k: Tag)
    requires keys != {}
    ensures IsLeast(keys, k)
  {
    LeastExists(keys);
    var k :| IsLeast(keys, k);
    k
  }

  // keyAt(0), keyAt(1), ... of a KeyedVector with these keys.
  function Ascending(keys: set<Tag>): (s: seq<Tag>)
    ensures |s| == |keys|
    decreases |keys|
  {
    if keys == {} then [] else [Least(keys)] + Ascending(keys - {Least(keys)})
  }

  lemma {:induction false} AscendingMember(keys: set<Tag>, k: Tag)
    ensures k in Ascending(keys) <==> k in keys
    decreases |keys|
  {
    if keys != {} {
      AscendingMember(keys - {Least(keys)}, k);
    }
  }

  lemma {:induction false} AscendingHolds(keys: set<Tag>)
    ensures forall k :: k in Ascending(keys) <==> k in keys
  {
    forall k ensures k in Ascending(keys) <==> k in keys {
      AscendingMember(keys, k);
    }
  }

  lemma {:induction false} AscendingIsSorted(keys: set<Tag>, i: nat, j: nat)
    requires i < j < |keys|
    ensures Ascending(keys)[i] < Ascending(keys)[j]
    decreases |keys|
  {
    var s := Ascending(keys);
    assert s[1..] == Ascending(keys - {s[0]});
    if i > 0 {
      AscendingIsSorted(keys - {s[0]}, i - 1, j - 1);
    } else {
      assert s[j] == s[1..][j - 1];
      AscendingMember(keys - {s[0]}, s[j]);
    }
  }

  // ---- writing ----

  datatype Entry = Entry(tag: Tag, kind: int, name: string, sectionIndex: Tag)

  predicate Indexable(d: Descriptor, tags: seq<Tag>) {
    forall t :: t in tags ==>
      t in d.names && t in d.sectionOf && t in d.types && d.sectionOf[t] < |d.sections|
  }

  function EntryOf(d: Descriptor, t: Tag): Entry
    requires Indexable(d, [t]) && |d.sections| < COUNT_LIMIT
  {
    assert t in [t];
    Entry(t, d.types[t], d.names[t], d.sectionOf[t])
  }

  function EntriesOf(d: Descriptor, tags: seq<Tag>): (es: seq<Entry>)
    requires Indexable(d, tags) && |d.sections| < COUNT_LIMIT
    ensures |es| == |tags|
  {
    seq(|tags|, i requires 0 <= i < |tags| => EntryOf(d, tags[i]))
  }

  function WriteEntry(e: Entry): seq<Item> {
    [Int32(ToInt32(e.tag)), Int32(e.kind), Text(e.name), Int32(ToInt32(e.sectionIndex))]
  }

  function WriteEntries(es: seq<Entry>): seq<Item> {
    if es == [] then [] else WriteEntry(es[0]) + WriteEntries(es[1..])
  }

  function WriteTexts(names: seq<string>): seq<Item> {
    if names == [] then [] else [Text(names[0])] + WriteTexts(names[1..])
  }

  function WriteSections(sections: seq<string>): seq<Item> {
    if sections == [] then [] else [Int32(ToInt32(|sections|))] + WriteTexts(sections)
  }

  function Encode(d: Descriptor): seq<Item>
    requires Consistent(d) && |d.sections| < COUNT_LIMIT
  {
    AscendingHolds(d.names.Keys);
    [Int32(d.count)] + WriteEntries(EntriesOf(d, Ascending(d.names.Keys))) + WriteSections(d.sections)
  }

  // ---- reading ----

  // Aborted: the original stops the process at a capacity of zero or an index past a vector's end.
  datatype Received =
    | Received(descriptor: Descriptor, rest: seq<Item>)
    | Refused(error: Status)
    | Aborted

  function TakeEntry(rest: seq<Item>): Result<(Entry, seq<Item>), Status> {
    match TakeInt32(rest)
    case Err(e) => Err(e)
    case Ok((tag, rest1)) =>
      if ToUint32(tag) < VENDOR_TAG_BOUNDARY then Err(BAD_VALUE)
      else
        match TakeInt32(rest1)
        case Err(e) => Err(e)
        case Ok((kind, rest2)) =>
          if !(0 <= kind < NUM_TYPES) then Err(BAD_VALUE)
          else
            var (name, rest3) := TextOrEmpty(rest2);
            if name == "" then Err(NOT_ENOUGH_DATA)
            else
              match TakeInt32(rest3)
              case Err(e) => Err(e)
              case Ok((index, rest4)) => Ok((Entry(ToUint32(tag), kind, name, ToUint32(index)), rest4))
  }

  function TakeEntries(n: nat, rest: seq<Item>, so: seq<Entry>): Result<(seq<Entry>, seq<Item>), Status> {
    if n == 0 then Ok((so, rest))
    else
      match TakeEntry(rest)
      case Err(e) => Err(e)
      case Ok((entry, rest1)) => TakeEntries(n - 1, rest1, so + [entry])
  }

  function TakeSections(n: nat, rest: seq<Item>, so: seq<string>): Result<(seq<string>, seq<Item>), Status> {
    if n == 0 then Ok((so, rest))
    else
      var (name, rest1) := TextOrEmpty(rest);
      if name == "" then Err(NOT_ENOUGH_DATA) else TakeSections(n - 1, rest1, Insert(so, name))
  }

  function MaxIndex(es: seq<Entry>): Tag {
    if es == [] then 0
    else
      var m := MaxIndex(es[..|es| - 1]);
      if m >= es[|es| - 1].sectionIndex then m else es[|es| - 1].sectionIndex
  }

  // The forward maps, filled in the order of the entries.
  function Record(d: Descriptor, e: Entry): Descriptor {
    d.(names := d.names[e.tag := e.name],
       sectionOf := d.sectionOf[e.tag := e.sectionIndex],
       types := d.types[e.tag := e.kind])
  }

  function Recorded(count: nat, es: seq<Entry>): (d: Descriptor)
    ensures d.names.Keys == d.sectionOf.Keys == d.types.Keys
    ensures forall i :: 0 <= i < |es| ==> es[i].tag in d.names
  {
    if es == [] then Descriptor(count, map[], map[], map[], [], map[])
    else Record(Recorded(count, es[..|es| - 1]), es[|es| - 1])
  }

  function TagsOf(es: seq<Entry>): (tags: seq<Tag>)
    ensures |tags| == |es|
  {
    seq(|es|, i requires 0 <= i < |es| => es[i].tag)
  }

  function RowOf(d: Descriptor, t: Tag): Row
    requires Indexable(d, [t])
  {
    assert t in [t];
    Row(t, d.names[t], d.sections[d.sectionOf[t]])
  }

  function RowsOf(d: Descriptor, tags: seq<Tag>): (rows: seq<Row>)
    requires Indexable(d, tags)
    ensures |rows| == |tags|
  {
    seq(|tags|, i requires 0 <= i < |tags| => RowOf(d, tags[i]))
  }

  function TakeReverse(d: Descriptor, tags: seq<Tag>, rest: seq<Item>): Received {
    if !Indexable(d, tags) then Aborted
    else Received(d.(reverse := Reversed(RowsOf(d, tags))), rest)
  }

  // From the section names on.
  function SectionsTaken(d: Descriptor, tags: seq<Tag>, maxIndex: Tag, count: Tag, rest: seq<Item>): Received {
    if count < ToUint32(maxIndex + 1) then Refused(BAD_VALUE)
    else if count == 0 then Aborted
    else
      match TakeSections(count, rest, [])
      case Err(e) => Refused(e)
      case Ok((sections, rest1)) => TakeReverse(d.(sections := sections), tags, rest1)
  }

  // From the section count on, for a parcel with at least one tag.
  function IndexTaken(d: Descriptor, tags: seq<Tag>, maxIndex: Tag, rest: seq<Item>): Received {
    match TakeInt32(rest)
    case Err(e) => Refused(e)
    case Ok((count, rest1)) => SectionsTaken(d, tags, maxIndex, ToUint32(count), rest1)
  }

  function Filled(count: nat, rest: seq<Item>): Received {
    match TakeEntries(count, rest, [])
    case Err(e) => Refused(e)
    case Ok((es, rest1)) =>
      if count == 0 then Received(Recorded(count, es), rest1)
      else IndexTaken(Recorded(count, es), TagsOf(es), MaxIndex(es), rest1)
  }

  function Decode(items: seq<Item>): Received {
    match TakeInt32(items)
    case Err(e) => Refused(e)
    case Ok((count, rest)) => if count < 0 then Refused(BAD_VALUE) else Filled(count, rest)
  }

  // ---- reading what was written ----

  ghost predicate Legal(e: Entry) {
    VENDOR_TAG_BOUNDARY <= e.tag && 0 <= e.kind < NUM_TYPES
  }

  ghost predicate Named(es: seq<Entry>) {
    forall i :: 0 <= i < |es| ==> es[i].name != ""
  }

  lemma EntryIsRead(e: Entry, tail: seq<Item>)
    requires Legal(e)
    ensures TakeEntry(WriteEntry(e) + tail) == if e.name == "" then Err(NOT_ENOUGH_DATA) else Ok((e, tail))
  {
  }

  lemma {:induction false} NextEntryIsRead(n: nat, e: Entry, rest: seq<Item>, so: seq<Entry>)
    requires 0 < n && Legal(e)
    ensures TakeEntries(n, WriteEntry(e) + rest, so)
            == if e.name == "" then Err(NOT_ENOUGH_DATA) else TakeEntries(n - 1, rest, so + [e])
  {
    EntryIsRead(e, rest);
  }

  lemma NamedRest(es: seq<Entry>)
    requires es != [] && es[0].name != ""
    ensures Named(es) <==> Named(es[1..])
  {
  }

  lemma {:induction false} EntriesAreRead(n: nat, es: seq<Entry>, tail: seq<Item>, so: seq<Entry>)
    requires |es| <= n && forall i :: 0 <= i < |es| ==> Legal(es[i])
    ensures TakeEntries(n, WriteEntries(es) + tail, so)
            == if Named(es) then TakeEntries(n - |es|, tail, so + es) else Err(NOT_ENOUGH_DATA)
    decreases es
  {
    hide TakeEntry, WriteEntry, Legal;
    if es == [] {
      assert WriteEntries(es) + tail == tail && so + es == so;
    } else {
      NextEntryIsRead(n, es[0], WriteEntries(es[1..]) + tail, so);
      Regroup(WriteEntry(es[0]), WriteEntries(es[1..]), tail);
      if es[0].name != "" {
        EntriesAreRead(n - 1, es[1..], tail, so + [es[0]]);
        assert so + [es[0]] + es[1..] == so + es;
        NamedRest(es);
      }
    }
  }

  lemma {:induction false} NextSectionIsRead(n: nat, name: string, rest: seq<Item>, so: seq<string>)
    requires 0 < n && forall i :: 0 <= i < |so| ==> Less(so[i], name)
    ensures TakeSections(n, [Text(name)] + rest, so)
            == if name == "" then Err(NOT_ENOUGH_DATA) else TakeSections(n - 1, rest, so + [name])
  {
    InsertAtEnd(so, name);
    assert TextOrEmpty([Text(name)] + rest) == (name, rest);
  }

  lemma SortedSplit(so: seq<string>, names: seq<string>)
    requires Sorted(so + names) && names != []
    ensures forall i :: 0 <= i < |so| ==> Less(so[i], names[0])
    ensures so + [names[0]] + names[1..] == so + names
  {
    forall i | 0 <= i < |so| ensures Less(so[i], names[0]) {
      assert (so + names)[i] == so[i] && (so + names)[|so|] == names[0];
    }
  }

  lemma {:induction false} SectionsAreRead(names: seq<string>, tail: seq<Item>, so: seq<string>)
    requires Sorted(so + names)
    ensures TakeSections(|names|, WriteTexts(names) + tail, so)
            == if "" in names then Err(NOT_ENOUGH_DATA) else Ok((so + names, tail))
    decreases names
  {
    if names == [] {
      assert WriteTexts(names) + tail == tail && so + names == so;
    } else {
      SortedSplit(so, names);
      NextSectionIsRead(|names|, names[0], WriteTexts(names[1..]) + tail, so);
      Regroup([Text(names[0])], WriteTexts(names[1..]), tail);
      if names[0] != "" {
        SectionsAreRead(names[1..], tail, so + [names[0]]);
      }
    }
  }

  lemma {:induction false} MaxIndexBelow(es: seq<Entry>, bound: nat)
    requires forall i :: 0 <= i < |es| ==> es[i].sectionIndex < bound
    ensures es != [] ==> MaxIndex(es) < bound
  {
    if |es| > 1 {
      MaxIndexBelow(es[..|es| - 1], bound);
    } else if |es| == 1 {
      assert es[..0] == [];
    }
  }

  lemma {:induction false} RecordedEntry(d: Descriptor, count: nat, tags: seq<Tag>, t: Tag)
    requires Indexable(d, tags) && |d.sections| < COUNT_LIMIT
    ensures var r := Recorded(count, EntriesOf(d, tags));
            r.count == count && r.sections == [] && r.reverse == map[]
            && (t in r.names <==> t in tags)
            && (t in tags ==>
                  r.names[t] == d.names[t] && r.sectionOf[t] == d.sectionOf[t] && r.types[t] == d.types[t])
    decreases tags
  {
    if tags != [] {
      var front := tags[..|tags| - 1];
      assert EntriesOf(d, tags)[..|tags| - 1] == EntriesOf(d, front);
      RecordedEntry(d, count, front, t);
      assert tags == front + [tags[|tags| - 1]];
    }
  }

  lemma WrittenIsIndexable(d: Descriptor)
    requires Consistent(d) && |d.sections| < COUNT_LIMIT
    ensures Indexable(d, Ascending(d.names.Keys))
    ensures var es := EntriesOf(d, Ascending(d.names.Keys));
            forall i :: 0 <= i < |es| ==> Legal(es[i]) && es[i].sectionIndex < |d.sections|
  {
    AscendingHolds(d.names.Keys);
  }

  // What is read where a consistent descriptor was written.
  lemma WrittenIsRecorded(d: Descriptor)
    requires Consistent(d) && |d.sections| < COUNT_LIMIT
    requires Indexable(d, Ascending(d.names.Keys))
    ensures var es := EntriesOf(d, Ascending(d.names.Keys));
            Recorded(d.count, es) == d.(sections := [], reverse := map[])
            && TagsOf(es) == Ascending(d.names.Keys)
  {
    var tags := Ascending(d.names.Keys);
    var r := Recorded(d.count, EntriesOf(d, tags));
    forall t: Tag
      ensures r.count == d.count && r.sections == [] && r.reverse == map[]
      ensures t in r.names <==> t in d.names
      ensures t in d.names ==>
                r.names[t] == d.names[t] && r.sectionOf[t] == d.sectionOf[t] && r.types[t] == d.types[t]
    {
      RecordedEntry(d, d.count, tags, t);
      AscendingMember(d.names.Keys, t);
    }
    assert r.count == d.count && r.sections == [] && r.reverse == map[] by {
      RecordedEntry(d, d.count, tags, 0);
    }
    assert r.names == d.names;
    assert r.sectionOf == d.sectionOf;
    assert r.types == d.types;
  }

  // The reverse index as a receiver rebuilds it, tag by tag in ascending order.
  function Rebuilt(d: Descriptor): Reverse
    requires Indexable(d, Ascending(d.names.Keys))
  {
    Reversed(RowsOf(d, Ascending(d.names.Keys)))
  }

  lemma {:induction false} SectionsPass(d: Descriptor, es: seq<Entry>, tail: seq<Item>)
    requires Sorted(d.sections) && 0 < |d.sections| < COUNT_LIMIT && es != []
    requires forall i :: 0 <= i < |es| ==> es[i].sectionIndex < |d.sections|
    ensures IndexTaken(d.(sections := [], reverse := map[]), TagsOf(es), MaxIndex(es),
                       WriteSections(d.sections) + tail)
            == if "" in d.sections then Refused(NOT_ENOUGH_DATA)
               else TakeReverse(d.(reverse := map[]), TagsOf(es), tail)
  {
    var bare := d.(sections := [], reverse := map[]);
    CountPasses(es, |d.sections|);
    Regroup([Int32(ToInt32(|d.sections|))], WriteTexts(d.sections), tail);
    assert [] + d.sections == d.sections;
    SectionsAreRead(d.sections, tail, []);
    assert bare.(sections := d.sections) == d.(reverse := map[]);
  }

  lemma {:induction false} CountPasses(es: seq<Entry>, n: nat)
    requires 0 < n < COUNT_LIMIT && es != []
    requires forall i :: 0 <= i < |es| ==> es[i].sectionIndex < n
    ensures ToUint32(ToInt32(n)) == n && ToUint32(MaxIndex(es) + 1) <= n
  {
    MaxIndexBelow(es, n);
    CastsCancel(n);
    assert (MaxIndex(es) + 1) / TAG_LIMIT == 0;
  }

  lemma IndexIsRead(d: Descriptor, tail: seq<Item>)
    requires Consistent(d) && 0 < |d.sections| < COUNT_LIMIT && d.names != map[]
    requires Indexable(d, Ascending(d.names.Keys))
    ensures var es := EntriesOf(d, Ascending(d.names.Keys));
            IndexTaken(d.(sections := [], reverse := map[]), TagsOf(es), MaxIndex(es),
                       WriteSections(d.sections) + tail)
            == if "" in d.sections then Refused(NOT_ENOUGH_DATA)
               else Received(d.(reverse := Rebuilt(d)), tail)
  {
    var tags := Ascending(d.names.Keys);
    var es := EntriesOf(d, tags);
    SectionsPass(d, es, tail);
    WrittenIsRecorded(d);
    assert RowsOf(d.(reverse := map[]), tags) == RowsOf(d, tags);
  }

  // A descriptor with one tag per count is read back, whatever follows it, if and only if every name
  // and every section has a character; the rebuilt reverse index aside, it is read back as it was.
  lemma DecodeOfEncode(d: Descriptor, tail: seq<Item>)
    requires Consistent(d) && |d.sections| < COUNT_LIMIT && d.count == |d.names|
    requires d.names == map[] <==> d.sections == []
    ensures Indexable(d, Ascending(d.names.Keys))
    ensures Decode(Encode(d) + tail)
            == if "" in d.names.Values || "" in d.sections then Refused(NOT_ENOUGH_DATA)
               else Received(d.(reverse := Rebuilt(d)), tail)
  {
    var tags := Ascending(d.names.Keys);
    WrittenIsIndexable(d);
    WrittenIsRecorded(d);
    var es := EntriesOf(d, tags);
    EntriesPass(d, es, WriteSections(d.sections) + tail);
    EncodeThen(d, tail);
    NamesWritten(d);
    if d.names == map[] {
      assert d.names.Values == {};
      assert WriteSections(d.sections) + tail == tail;
    } else {
      IndexIsRead(d, tail);
    }
  }

  lemma EncodeThen(d: Descriptor, tail: seq<Item>)
    requires Consistent(d) && |d.sections| < COUNT_LIMIT
    requires Indexable(d, Ascending(d.names.Keys))
    ensures var entries := WriteEntries(EntriesOf(d, Ascending(d.names.Keys)));
            Encode(d) + tail == [Int32(d.count)] + entries + (WriteSections(d.sections) + tail)
  {
  }

  lemma {:induction false} EntriesPass(d: Descriptor, es: seq<Entry>, rest: seq<Item>)
    requires |es| == d.count && forall i :: 0 <= i < |es| ==> Legal(es[i])
    ensures Decode([Int32(d.count)] + WriteEntries(es) + rest)
            == if !Named(es) then Refused(NOT_ENOUGH_DATA)
               else if d.count == 0 then Received(Recorded(d.count, es), rest)
               else IndexTaken(Recorded(d.count, es), TagsOf(es), MaxIndex(es), rest)
  {
    Regroup([Int32(d.count)], WriteEntries(es), rest);
    EntriesAreRead(d.count, es, rest, []);
    assert [] + es == es;
  }

  lemma NamesWritten(d: Descriptor)
    requires Consistent(d) && |d.sections| < COUNT_LIMIT
    requires Indexable(d, Ascending(d.names.Keys))
    ensures Named(EntriesOf(d, Ascending(d.names.Keys))) <==> "" !in d.names.Values
  {
    var tags := Ascending(d.names.Keys);
    var es := EntriesOf(d, tags);
    AscendingHolds(d.names.Keys);
    if "" in d.names.Values {
      var t :| t in d.names && d.names[t] == "";
      var i :| 0 <= i < |tags| && tags[i] == t;
      assert es[i].name == "";
    }
    if "" !in d.names.Values {
      forall i | 0 <= i < |es| ensures es[i].name != "" {
        assert es[i].name == d.names[tags[i]] && d.names[tags[i]] in d.names.Values;
      }
    }
  }

  // ---- the layout, and what is refused ----

  // One tag of three, with two sections: number, type, name and section index of each tag in ascending
  // order, then the number of sections and their names.
  lemma {:induction false} LayoutInItems(d: Descriptor, t: Tag, u: Tag)
    requires Consistent(d) && t < u && d.names.Keys == {t, u} && |d.sections| == 2
    ensures Encode(d) == [Int32(d.count),
                          Int32(ToInt32(t)), Int32(d.types[t]), Text(d.names[t]), Int32(d.sectionOf[t]),
                          Int32(ToInt32(u)), Int32(d.types[u]), Text(d.names[u]), Int32(d.sectionOf[u]),
                          Int32(2), Text(d.sections[0]), Text(d.sections[1])]
  {
    hide WriteEntries, WriteEntry, WriteSections;
    AscendingPair(t, u);
    var es := EntriesOf(d, [t, u]);
    WrittenPair(es[0], es[1]);
    NamedPair(d.sections[0], d.sections[1]);
    assert es == [es[0], es[1]] && d.sections == [d.sections[0], d.sections[1]];
    assert ToInt32(d.sectionOf[t]) == d.sectionOf[t] && ToInt32(d.sectionOf[u]) == d.sectionOf[u];
  }

  lemma AscendingPair(t: Tag, u: Tag)
    requires t < u
    ensures Ascending({t, u}) == [t, u]
  {
    assert {t, u} - {t} == {u} && {u} - {u} == {};
  }

  lemma {:induction false} WrittenPair(a: Entry, b: Entry)
    ensures WriteEntries([a, b])
         == [Int32(ToInt32(a.tag)), Int32(a.kind), Text(a.name), Int32(ToInt32(a.sectionIndex)),
             Int32(ToInt32(b.tag)), Int32(b.kind), Text(b.name), Int32(ToInt32(b.sectionIndex))]
  {
    assert [a, b][1..] == [b] && [b][1..] == [];
    assert WriteEntries([b]) == WriteEntry(b) + WriteEntries([]);
  }

  lemma {:induction false} NamedPair(a: string, b: string)
    ensures WriteSections([a, b]) == [Int32(2), Text(a), Text(b)]
  {
    assert [a, b][1..] == [b] && [b][1..] == [];
    assert WriteTexts([b]) == [Text(b)] + WriteTexts([]);
  }

  // An entry is read exactly when its number lies in the vendor's range, its type is one of the six and its
  // name is not empty, and the first of these that fails decides the error.
  lemma EntryInItems(tag: int, kind: int, name: string, index: int, more: seq<Item>)
    requires -0x8000_0000 <= tag < 0x8000_0000 && -0x8000_0000 <= index < 0x8000_0000
    ensures var number := if tag < 0 then tag + 0x1_0000_0000 else tag;
            TakeEntry([Int32(tag), Int32(kind), Text(name), Int32(index)] + more)
            == if number < 0x8000_0000 then Err(BAD_VALUE)
               else if kind < 0 || kind >= 6 then Err(BAD_VALUE)
               else if name == "" then Err(NOT_ENOUGH_DATA)
               else Ok((Entry(number, kind, name, if index < 0 then index + 0x1_0000_0000 else index), more))
  {
    var items := [Int32(tag), Int32(kind), Text(name), Int32(index)] + more;
    assert items[1..] == [Int32(kind), Text(name), Int32(index)] + more;
    assert items[1..][1..] == [Text(name), Int32(index)] + more;
    assert items[1..][1..][1..] == [Int32(index)] + more;
    assert items[1..][1..][1..][1..] == more;
  }

  // What is refused behind the tags: too few sections for the largest index, and a section without a name.
  // No section at all, for a largest index that wraps to none, stops the process.
  lemma SectionsInItems(d: Descriptor, tags: seq<Tag>, maxIndex: Tag, count: int, first: string, more: seq<Item>)
    requires 0 <= count < 0x8000_0000
    ensures IndexTaken(d, tags, maxIndex, []) == Refused(NOT_ENOUGH_DATA)
    ensures var needed := if maxIndex == 0xFFFF_FFFF then 0 else maxIndex + 1;
            var r := IndexTaken(d, tags, maxIndex, [Int32(count), Text(first)] + more);
            && (count < needed ==> r == Refused(BAD_VALUE))
            && (count == 0 && needed == 0 ==> r == Aborted)
            && (0 < count && needed <= count && first == "" ==> r == Refused(NOT_ENOUGH_DATA))
  {
    var items := [Int32(count), Text(first)] + more;
    assert items[1..] == [Text(first)] + more;
  }

  // What is refused in front of the tags.
  lemma CountInItems(count: int, more: seq<Item>)
    ensures Decode([]) == Refused(NOT_ENOUGH_DATA)
    ensures count < 0 ==> Decode([Int32(count)] + more) == Refused(BAD_VALUE)
    ensures Decode([Int32(0)] + more) == Received(Descriptor(0, map[], map[], map[], [], map[]), more)
    ensures count > 0 ==> Decode([Int32(count)]) == Refused(NOT_ENOUGH_DATA)
  {
    assert ([Int32(count)] + more)[1..] == more && ([Int32(0)] + more)[1..] == more;
    assert [Int32(count)][1..] == [];
  }
}
