/** The class VendorTagDescriptor: its loops compute what VendorTags and VendorTagParcel say. */
module VendorTagDescriptors {
  import opened CameraStatus
  import opened Parcels
  import opened Sequences
  import opened SortedNames
  import opened VendorTagParcel
  import opened VendorTags
  import opened Wrappers

  datatype Created =
    | Created(descriptor: VendorTagDescriptor)
    | CreationRefused(error: Status)
    | CreationAborted

  // The object made, with the parcel left at rest, stands for this outcome.
  ghost predicate Answers(r: Created, outcome: Received, rest: seq<Item>)
    reads if r.Created? then {r.descriptor} else {}
  {
    match r
    case Created(d) => outcome == Received(d.Value(), rest)
    case CreationRefused(e) => outcome == Refused(e)
    case CreationAborted => outcome == Aborted
  }

  class VendorTagDescriptor {
    var tagCount: nat
    var tagToName: map<Tag, string>
    var tagToSection: map<Tag, nat>
    var tagToType: map<Tag, int>
    var sections: seq<string>
    var reverseMapping: Reverse

    function Value(): Descriptor
      reads this
    {
      Descriptor(tagCount, tagToName, tagToSection, tagToType, sections, reverseMapping)
    }

    constructor (count: nat)
      ensures Value() == Descriptor(count, map[], map[], map[], [], map[])
    {
      tagCount := count;
      tagToName, tagToSection, tagToType, sections, reverseMapping := map[], map[], map[], [], map[];
    }

    method AddReverse(section: string, name: string, tag: Tag)
      modifies this`reverseMapping
      ensures reverseMapping == Enter(old(reverseMapping), Row(tag, name, section))
    {
      if section !in reverseMapping {
        reverseMapping := reverseMapping[section := map[]];
      }
      var nameMapper: map<string, Tag> := reverseMapping[section][name := tag];
      reverseMapping := reverseMapping[section := nameMapper];
    }

    static method CreateDescriptorFromOps(vOps: Option<Ops>)
      returns (r: Result<VendorTagDescriptor, Status>)
      requires vOps.Some? ==> ValidOps(vOps.value)
      ensures r.Ok? <==>
                vOps.Some? && 0 <= vOps.value.count
                && forall t :: t in vOps.value.tags ==>
                     && 0x8000_0000 <= t && vOps.value.name(t).Some? && vOps.value.section(t).Some?
                     && 0 <= vOps.value.kind(t) < 6
      ensures r.Err? ==> r.error == BAD_VALUE
      ensures vOps.Some? && r.Ok? ==> FromOps(vOps.value) == Ok(r.value.Value())
      ensures vOps.Some? && r.Err? ==> FromOps(vOps.value) == Err(r.error)
    {
      if vOps.None? || vOps.value.count < 0 {
        return Err(BAD_VALUE);
      }
      var ops := vOps.value;
      var desc := new VendorTagDescriptor(ops.count);
      for i := 0 to |ops.tags|
        invariant AllAccepted(ops, ops.tags[..i])
        invariant desc.Value()
                  == Descriptor(ops.count, NamesOf(ops, ops.tags[..i]), map[], TypesOf(ops, ops.tags[..i]),
                                SectionsOf(OpsRows(ops, ops.tags[..i])), map[])
      {
        var tag := ops.tags[i];
        if !Accepted(ops, tag) {
          assert tag in ops.tags;
          return Err(BAD_VALUE);
        }
        TagsStep(ops, ops.tags, i);
        desc.tagToName := desc.tagToName[tag := ops.name(tag).value];
        desc.sections := Insert(desc.sections, ops.section(tag).value);
        desc.tagToType := desc.tagToType[tag := ops.kind(tag)];
      }
      assert ops.tags[..|ops.tags|] == ops.tags;
      IndexTags(ops, desc);
      return Ok(desc);
    }

    static lemma TagsStep(ops: Ops, tags: seq<Tag>, i: nat)
      requires i < |tags| && AllAccepted(ops, tags[..i]) && Accepted(ops, tags[i])
      ensures AllAccepted(ops, tags[..i + 1])
      ensures NamesOf(ops, tags[..i + 1]) == NamesOf(ops, tags[..i])[tags[i] := ops.name(tags[i]).value]
      ensures TypesOf(ops, tags[..i + 1]) == TypesOf(ops, tags[..i])[tags[i] := ops.kind(tags[i])]
      ensures OpsRows(ops, tags[..i + 1]) == OpsRows(ops, tags[..i]) + [OpsRow(ops, tags[i])]
      ensures SectionsOf(OpsRows(ops, tags[..i + 1]))
              == Insert(SectionsOf(OpsRows(ops, tags[..i])), ops.section(tags[i]).value)
    {
    }

    static lemma {:induction false} IndexStep(ops: Ops, tags: seq<Tag>, sections: seq<string>, i: nat)
      requires i < |tags| && AllAccepted(ops, tags[..i + 1])
      ensures AllAccepted(ops, tags[..i])
      ensures IndicesOf(ops, tags[..i + 1], sections)
              == IndicesOf(ops, tags[..i], sections)
                   [tags[i] := IndexOf(sections, OpsRow(ops, tags[i]).section)]
      ensures Reversed(OpsRows(ops, tags[..i + 1]))
              == Enter(Reversed(OpsRows(ops, tags[..i])), OpsRow(ops, tags[i]))
    {
      assert tags[..i + 1] == tags[..i] + [tags[i]];
      assert OpsRows(ops, tags[..i + 1])[..i] == OpsRows(ops, tags[..i]);
    }

    // The second loop of createDescriptorFromOps.
    static method IndexTags(ops: Ops, desc: VendorTagDescriptor)
      requires AllAccepted(ops, ops.tags)
      requires desc.tagToName == NamesOf(ops, ops.tags)
      requires desc.tagToSection == map[] && desc.reverseMapping == map[]
      modifies desc`tagToSection, desc`reverseMapping
      ensures desc.reverseMapping == Reversed(OpsRows(ops, ops.tags))
      ensures desc.tagToSection == IndicesOf(ops, ops.tags, desc.sections)
    {
      for i := 0 to |ops.tags|
        invariant AllAccepted(ops, ops.tags[..i])
        invariant desc.reverseMapping == Reversed(OpsRows(ops, ops.tags[..i]))
        invariant desc.tagToSection == IndicesOf(ops, ops.tags[..i], desc.sections)
      {
        var tag := ops.tags[i];
        assert tag in ops.tags;
        IndexStep(ops, ops.tags, desc.sections, i);
        var section := ops.section(tag).value;
        desc.tagToSection := desc.tagToSection[tag := IndexOf(desc.sections, section)];
        desc.AddReverse(section, desc.tagToName[tag], tag);
      }
      assert ops.tags[..|ops.tags|] == ops.tags;
    }

    static method CreateFromParcel(parcel: Option<Parcel>) returns (r: Created)
      requires parcel.Some? ==> parcel.value.Valid()
      modifies match parcel case Some(p) => {p} case None => {}
      ensures parcel.None? ==> r == CreationRefused(BAD_VALUE)
      ensures parcel.Some? ==> parcel.value.Valid() && parcel.value.items == old(parcel.value.items)
      ensures parcel.Some? ==> Answers(r, Decode(old(parcel.value.Rest())), parcel.value.Rest())
    {
      if parcel.None? {
        return CreationRefused(BAD_VALUE);
      }
      var p := parcel.value;
      var count := p.ReadInt32();
      if count.Err? {
        return CreationRefused(count.error);
      }
      if count.value < 0 {
        return CreationRefused(BAD_VALUE);
      }
      var desc := new VendorTagDescriptor(count.value);
      r := desc.Fill(p, count.value);
    }

    // createFromParcel after the tag count.
    method Fill(p: Parcel, count: nat) returns (r: Created)
      requires p.Valid() && Value() == Recorded(count, [])
      modifies this, p`position
      ensures p.Valid()
      ensures Answers(r, Filled(count, old(p.Rest())), p.Rest())
      ensures r.Created? ==> r.descriptor == this
    {
      var tags, maxIndex, status := ReadTags(p, count);
      if status != OK {
        return CreationRefused(status);
      }
      if count == 0 {
        return Created(this);
      }
      r := ReadIndex(p, tags, maxIndex);
    }

    method ReadTag(p: Parcel) returns (r: Result<Entry, Status>)
      requires p.Valid()
      modifies p`position
      ensures p.Valid()
      ensures r.Ok? ==> TakeEntry(old(p.Rest())) == Ok((r.value, p.Rest()))
      ensures r.Err? ==> TakeEntry(old(p.Rest())) == Err(r.error) && r.error != OK
    {
      var tag := p.ReadInt32();
      if tag.Err? {
        return Err(tag.error);
      }
      if ToUint32(tag.value) < VENDOR_TAG_BOUNDARY {
        return Err(BAD_VALUE);
      }
      var kind := p.ReadInt32();
      if kind.Err? {
        return Err(kind.error);
      }
      if kind.value < 0 || kind.value >= NUM_TYPES {
        return Err(BAD_VALUE);
      }
      var name := p.ReadString8();
      if name == "" {
        return Err(NOT_ENOUGH_DATA);
      }
      var index := p.ReadInt32();
      if index.Err? {
        return Err(index.error);
      }
      return Ok(Entry(ToUint32(tag.value), kind.value, name, ToUint32(index.value)));
    }

    // One turn of that loop, with n entries still to be read after `es`.
    method ReadNext(p: Parcel, ghost n: nat, ghost es: seq<Entry>) returns (r: Result<Entry, Status>)
      requires p.Valid() && n > 0
      modifies p`position
      ensures p.Valid()
      ensures r.Ok? ==> TakeEntries(n, old(p.Rest()), es) == TakeEntries(n - 1, p.Rest(), es + [r.value])
      ensures r.Err? ==> TakeEntries(n, old(p.Rest()), es) == Err(r.error) && r.error != OK
    {
      r := ReadTag(p);
    }

    // The loop over the tags: what it leaves is what Recorded makes of the entries it read.
    method ReadTags(p: Parcel, count: nat) returns (tags: seq<Tag>, maxIndex: Tag, status: Status)
      requires p.Valid() && Value() == Recorded(count, [])
      modifies `tagToName, `tagToSection, `tagToType, p`position
      ensures p.Valid()
      ensures match TakeEntries(count, old(p.Rest()), [])
              case Ok((es, rest)) =>
                status == OK && p.Rest() == rest && Value() == Recorded(count, es)
                && tags == TagsOf(es) && maxIndex == MaxIndex(es)
              case Err(e) => status == e && e != OK
    {
      hide TakeEntry;
      tags, maxIndex := [], 0;
      ghost var es: seq<Entry>, rest := [], p.Rest();
      ghost var whole := TakeEntries(count, rest, es);
      for i := 0 to count
        invariant p.Valid()
        invariant rest == p.Rest() && whole == TakeEntries(count - i, rest, es)
        invariant Value() == Recorded(count, es) && tags == TagsOf(es) && maxIndex == MaxIndex(es)
      {
        var e := ReadNext(p, count - i, es);
        if e.Err? {
          return tags, maxIndex, e.error;
        }
        rest := p.Rest();
        tags, maxIndex := RecordTag(e.value, tags, maxIndex, count, es);
        es := es + [e.value];
      }
      assert whole == Ok((es, rest));
      status := OK;
    }

    // One more entry in the maps, behind those of `es`.
    method RecordTag(e: Entry, tags: seq<Tag>, maxIndex: Tag, ghost count: nat, ghost es: seq<Entry>)
      returns (tags': seq<Tag>, maxIndex': Tag)
      requires Value() == Recorded(count, es) && tags == TagsOf(es) && maxIndex == MaxIndex(es)
      modifies `tagToName, `tagToSection, `tagToType
      ensures Value() == Recorded(count, es + [e])
      ensures tags' == TagsOf(es + [e]) && maxIndex' == MaxIndex(es + [e])
    {
      RecordStep(count, es, e);
      maxIndex' := if maxIndex >= e.sectionIndex then maxIndex else e.sectionIndex;
      tags' := tags + [e.tag];
      tagToName := tagToName[e.tag := e.name];
      tagToSection := tagToSection[e.tag := e.sectionIndex];
      tagToType := tagToType[e.tag := e.kind];
    }

    static lemma {:induction false} RecordStep(count: nat, es: seq<Entry>, e: Entry)
      ensures Recorded(count, es + [e]) == Record(Recorded(count, es), e)
      ensures TagsOf(es + [e]) == TagsOf(es) + [e.tag]
      ensures MaxIndex(es + [e]) == if MaxIndex(es) >= e.sectionIndex then MaxIndex(es) else e.sectionIndex
    {
    }

    method WriteToParcel(parcel: Parcel)
      requires Consistent(Value()) && |sections| < COUNT_LIMIT && parcel.Valid()
      modifies parcel
      ensures parcel.Valid() && parcel.items == old(parcel.items) + Encode(Value())
    {
      ghost var before := parcel.items;
      parcel.Write(Int32(tagCount));
      WriteTags(parcel);
      ghost var entries := WriteEntries(EntriesOf(Value(), Ascending(tagToName.Keys)));
      WriteNames(parcel);
      Together(before, [Int32(tagCount)], entries, WriteSections(sections));
    }

    static lemma Together(a: seq<Item>, b: seq<Item>, c: seq<Item>, d: seq<Item>)
      ensures a + b + c + d == a + (b + c + d)
    {
    }

    method WriteTags(parcel: Parcel)
      requires Consistent(Value()) && |sections| < COUNT_LIMIT && parcel.Valid()
      modifies parcel
      ensures parcel.Valid() && Indexable(Value(), Ascending(tagToName.Keys))
      ensures parcel.items
              == old(parcel.items) + WriteEntries(EntriesOf(Value(), Ascending(tagToName.Keys)))
    {
      ghost var before, d := parcel.items, Value();
      var tags := Ascending(tagToName.Keys);
      WrittenIsIndexable(d);
      ghost var es := EntriesOf(d, tags);
      for i := 0 to |tags|
        invariant parcel.Valid() && Value() == d
        invariant parcel.items == before + WriteEntries(es[..i])
      {
        WriteTag(parcel, tags[i]);
        EntryWritten(es, i);
        Regroup(before, WriteEntries(es[..i]), WriteEntry(es[i]));
      }
      assert es[..|tags|] == es;
    }

    method WriteTag(parcel: Parcel, tag: Tag)
      requires Indexable(Value(), [tag]) && |sections| < COUNT_LIMIT && parcel.Valid()
      modifies parcel
      ensures parcel.Valid() && parcel.items == old(parcel.items) + WriteEntry(EntryOf(Value(), tag))
    {
      assert tag in [tag];
      parcel.Write(Int32(ToInt32(tag)));
      parcel.Write(Int32(tagToType[tag]));
      parcel.Write(Text(tagToName[tag]));
      parcel.Write(Int32(ToInt32(tagToSection[tag])));
    }

    // The section count and the section names, when there are any.
    method WriteNames(parcel: Parcel)
      requires parcel.Valid()
      modifies parcel
      ensures parcel.Valid() && parcel.items == old(parcel.items) + WriteSections(sections)
    {
      if |sections| == 0 {
        return;
      }
      ghost var before := parcel.items;
      parcel.Write(Int32(ToInt32(|sections|)));
      for i := 0 to |sections|
        invariant parcel.Valid()
        invariant parcel.items == before + ([Int32(ToInt32(|sections|))] + WriteTexts(sections[..i]))
      {
        parcel.Write(Text(sections[i]));
        TextWritten(sections, i);
      }
      assert sections[..|sections|] == sections;
    }

    static lemma {:induction false} EntryWritten(es: seq<Entry>, i: nat)
      requires i < |es|
      ensures WriteEntries(es[..i + 1]) == WriteEntries(es[..i]) + WriteEntry(es[i])
      decreases i
    {
      if i > 0 {
        EntryWritten(es[1..], i - 1);
        assert es[..i + 1][1..] == es[1..][..i] && es[..i][1..] == es[1..][..i - 1];
      }
    }

    static lemma {:induction false} TextWritten(names: seq<string>, i: nat)
      requires i < |names|
      ensures WriteTexts(names[..i + 1]) == WriteTexts(names[..i]) + [Text(names[i])]
      decreases i
    {
      if i > 0 {
        TextWritten(names[1..], i - 1);
        assert names[..i + 1][1..] == names[1..][..i] && names[..i][1..] == names[1..][..i - 1];
      }
    }

    method ReadIndex(p: Parcel, tags: seq<Tag>, maxIndex: Tag) returns (r: Created)
      requires p.Valid() && sections == [] && reverseMapping == map[]
      modifies this, p`position
      ensures p.Valid()
      ensures Answers(r, IndexTaken(old(Value()), tags, maxIndex, old(p.Rest())), p.Rest())
      ensures r.Created? ==> r.descriptor == this
    {
      var count := p.ReadInt32();
      if count.Err? {
        return CreationRefused(count.error);
      }
      if ToUint32(count.value) < ToUint32(maxIndex + 1) {
        return CreationRefused(BAD_VALUE);
      }
      if ToUint32(count.value) == 0 {
        return CreationAborted;
      }
      var read := ReadSections(p, ToUint32(count.value));
      if !read {
        return CreationRefused(NOT_ENOUGH_DATA);
      }
      var indexed := IndexRead(tags);
      r := if indexed then Created(this) else CreationAborted;
    }

    method ReadSections(p: Parcel, count: nat) returns (ok: bool)
      requires p.Valid() && sections == []
      modifies this`sections, p`position
      ensures p.Valid()
      ensures TakeSections(count, old(p.Rest()), [])
              == if ok then Ok((sections, p.Rest())) else Err(NOT_ENOUGH_DATA)
    {
      for i := 0 to count
        invariant p.Valid()
        invariant TakeSections(count, old(p.Rest()), []) == TakeSections(count - i, p.Rest(), sections)
      {
        var name := p.ReadString8();
        if name == "" {
          return false;
        }
        sections := Insert(sections, name);
      }
      return true;
    }

    // The loop that sets up the reverse mapping from a parcel.
    method IndexRead(tags: seq<Tag>) returns (ok: bool)
      requires reverseMapping == map[]
      modifies this`reverseMapping
      ensures ok <==> Indexable(Value(), tags)
      ensures ok ==> reverseMapping == Reversed(RowsOf(old(Value()), tags))
    {
      ghost var d := Value();
      for i := 0 to |tags|
        invariant Indexable(d, tags[..i]) && Value() == d.(reverse := reverseMapping)
        invariant reverseMapping == Reversed(RowsOf(d, tags[..i]))
      {
        var tag := tags[i];
        if tag !in tagToName || tag !in tagToSection || tag !in tagToType
           || tagToSection[tag] >= |sections|
        {
          assert tag in tags;
          return false;
        }
        RowsStep(d, tags, i);
        AddReverse(sections[tagToSection[tag]], tagToName[tag], tag);
      }
      assert tags[..|tags|] == tags;
      return true;
    }

    static lemma RowsStep(d: Descriptor, tags: seq<Tag>, i: nat)
      requires i < |tags| && Indexable(d, tags[..i]) && Indexable(d, [tags[i]])
      ensures Indexable(d, tags[..i + 1])
      ensures Reversed(RowsOf(d, tags[..i + 1])) == Enter(Reversed(RowsOf(d, tags[..i])), RowOf(d, tags[i]))
    {
      assert tags[i] in [tags[i]];
      assert tags[..i + 1] == tags[..i] + [tags[i]];
      assert RowsOf(d, tags[..i + 1])[..i] == RowsOf(d, tags[..i]);
    }

    method GetTagCount() returns (r: Option<nat>)
      ensures r == if tagToName == map[] then None else Some(|tagToName|)
    {
      r := if |tagToName| == 0 then None else Some(|tagToName|);
    }

    method GetTagArray(tagArray: array<Tag>)
      requires |tagToName| <= tagArray.Length
      modifies tagArray
      ensures tagArray[..|tagToName|] == Ascending(tagToName.Keys)
      ensures tagArray[|tagToName|..] == old(tagArray[|tagToName|..])
    {
      var keys := Ascending(tagToName.Keys);
      assert |tagToName| == |tagToName.Keys|;
      for i := 0 to |keys|
        invariant tagArray[..i] == keys[..i]
        invariant tagArray[i..] == old(tagArray[i..])
      {
        tagArray[i] := keys[i];
      }
    }

    method GetSectionName(tag: Tag) returns (r: Option<string>)
      requires Consistent(Value())
      ensures r == SectionName(Value(), tag)
      ensures r == if tag in tagToSection then Some(sections[tagToSection[tag]]) else None
    {
      if tag !in tagToSection {
        return None;
      }
      return Some(sections[tagToSection[tag]]);
    }

    method GetTagName(tag: Tag) returns (r: Option<string>)
      ensures r == TagName(Value(), tag)
      ensures r == if tag in tagToName then Some(tagToName[tag]) else None
    {
      if tag !in tagToName {
        return None;
      }
      return Some(tagToName[tag]);
    }

    method GetTagType(tag: Tag) returns (r: Option<int>)
      requires Consistent(Value())
      ensures r == TagType(Value(), tag)
      ensures r == if tag in tagToName then Some(tagToType[tag]) else None
    {
      if tag !in tagToName {
        return None;
      }
      return Some(tagToType[tag]);
    }

    method LookupTag(name: string, section: string) returns (r: Result<Tag, Status>)
      ensures r == match Lookup(Value().reverse, section, name)
                   case Some(t) => Ok(t)
                   case None => Err(BAD_VALUE)
      ensures r == if section in reverseMapping && name in reverseMapping[section]
                   then Ok(reverseMapping[section][name]) else Err(BAD_VALUE)
    {
      if section !in reverseMapping {
        return Err(BAD_VALUE);
      }
      if name !in reverseMapping[section] {
        return Err(BAD_VALUE);
      }
      return Ok(reverseMapping[section][name]);
    }
  }
}
