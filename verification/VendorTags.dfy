/** VendorTagDescriptor as a value: the maps it holds, what the vendor's operations make of them, and
    what a lookup by section and name finds. */
module VendorTags {
  import opened CameraStatus
  import opened SortedNames
  import opened Wrappers

  const VENDOR_TAG_BOUNDARY: nat := 0x8000_0000
  const TAG_LIMIT: nat := 0x1_0000_0000
  const COUNT_LIMIT: nat := 0x8000_0000
  const NUM_TYPES: nat := 6

  type Tag = t: nat | t < TAG_LIMIT

  // A uint32_t tag with the name and the section it is known by.
  datatype Row = Row(tag: Tag, name: string, section: string)

  type Reverse = map<string, map<string, Tag>>

  datatype Descriptor = Descriptor(
    count: nat,
    names: map<Tag, string>,
    sectionOf: map<Tag, nat>,
    types: map<Tag, int>,
    sections: seq<string>,
    reverse: Reverse)

  // What the vendor's get_* functions answer.
  datatype Ops = Ops(count: int, tags: seq<Tag>, name: Tag -> Option<string>,
                     section: Tag -> Option<string>, kind: Tag -> int)

  ghost predicate ValidOps(ops: Ops) {
    ops.count < COUNT_LIMIT && (0 <= ops.count ==> |ops.tags| == ops.count)
  }

  predicate Accepted(ops: Ops, t: Tag) {
    VENDOR_TAG_BOUNDARY <= t && ops.name(t).Some? && ops.section(t).Some?
    && 0 <= ops.kind(t) < NUM_TYPES
  }

  predicate AllAccepted(ops: Ops, tags: seq<Tag>) {
    forall t :: t in tags ==> Accepted(ops, t)
  }

  // ---- the reverse index ----

  function Enter(m: Reverse, r: Row): Reverse {
    m[r.section := (if r.section in m then m[r.section] else map[])[r.name := r.tag]]
  }

  function Reversed(rows: seq<Row>): Reverse {
    if rows == [] then map[] else Enter(Reversed(rows[..|rows| - 1]), rows[|rows| - 1])
  }

  function Lookup(m: Reverse, section: string, name: string): Option<Tag> {
    if section in m && name in m[section] then Some(m[section][name]) else None
  }

  predicate Has(r: Row, section: string, name: string) { r.section == section && r.name == name }

  // Row i is the last with its section and name.
  ghost predicate Wins(rows: seq<Row>, i: nat)
    requires i < |rows|
  {
    forall j :: i < j < |rows| ==> !Has(rows[j], rows[i].section, rows[i].name)
  }

  // The index of the row a lookup answers with; |rows| when there is none.
  ghost function Winner(rows: seq<Row>, section: string, name: string): (i: nat)
    ensures i <= |rows|
    ensures i < |rows| ==> Has(rows[i], section, name) && Wins(rows, i)
    ensures i == |rows| ==> forall j :: 0 <= j < |rows| ==> !Has(rows[j], section, name)
  {
    if rows == [] then 0
    else if Has(rows[|rows| - 1], section, name) then |rows| - 1
    else
      var i := Winner(rows[..|rows| - 1], section, name);
      if i == |rows| - 1 then |rows| else i
  }

  lemma {:induction false} LookupFindsTheLast(rows: seq<Row>, section: string, name: string)
    ensures var i := Winner(rows, section, name);
            Lookup(Reversed(rows), section, name) == if i < |rows| then Some(rows[i].tag) else None
  {
    if rows != [] {
      LookupFindsTheLast(rows[..|rows| - 1], section, name);
    }
  }

  lemma {:induction false} NoEmptySections(rows: seq<Row>, section: string)
    requires section in Reversed(rows)
    ensures Reversed(rows)[section] != map[]
  {
    var r := rows[|rows| - 1];
    if section == r.section {
      assert r.name in Reversed(rows)[section];
    } else {
      NoEmptySections(rows[..|rows| - 1], section);
    }
  }

  lemma {:induction false} SameSections(a: seq<Row>, b: seq<Row>, section: string)
    requires forall n :: Lookup(Reversed(a), section, n) == Lookup(Reversed(b), section, n)
    requires section in Reversed(a)
    ensures section in Reversed(b) && Reversed(a)[section] == Reversed(b)[section]
  {
    NoEmptySections(a, section);
    var x := Reversed(a)[section];
    var n :| n in x;
    assert Lookup(Reversed(b), section, n) == Some(x[n]);
    var y := Reversed(b)[section];
    forall k ensures k in x <==> k in y {
      assert Lookup(Reversed(a), section, k) == Lookup(Reversed(b), section, k);
    }
    forall k | k in x ensures x[k] == y[k] {
      assert Lookup(Reversed(a), section, k) == Lookup(Reversed(b), section, k);
    }
  }

  // An index is known by its lookups alone.
  lemma {:induction false} SameLookupsSameIndex(a: seq<Row>, b: seq<Row>)
    requires forall s, n :: Lookup(Reversed(a), s, n) == Lookup(Reversed(b), s, n)
    ensures Reversed(a) == Reversed(b)
  {
    forall s | s in Reversed(a)
      ensures s in Reversed(b) && Reversed(a)[s] == Reversed(b)[s]
    {
      SameSections(a, b, s);
    }
    forall s | s in Reversed(b) ensures s in Reversed(a) {
      SameSections(b, a, s);
    }
  }

  // ---- building a descriptor from the vendor's operations ----

  function OpsRow(ops: Ops, t: Tag): Row
    requires Accepted(ops, t)
  {
    Row(t, ops.name(t).value, ops.section(t).value)
  }

  function OpsRows(ops: Ops, tags: seq<Tag>): (rows: seq<Row>)
    requires AllAccepted(ops, tags)
    ensures |rows| == |tags|
  {
    seq(|tags|, i requires 0 <= i < |tags| => OpsRow(ops, tags[i]))
  }

  // The sections of the tags, added to a sorted vector in turn.
  function SectionsOf(rows: seq<Row>): seq<string> {
    if rows == [] then []
    else Insert(SectionsOf(rows[..|rows| - 1]), rows[|rows| - 1].section)
  }

  lemma {:induction false} SectionsAreSorted(rows: seq<Row>)
    ensures Sorted(SectionsOf(rows)) && |SectionsOf(rows)| <= |rows|
    ensures forall s :: s in SectionsOf(rows) <==> exists i :: 0 <= i < |rows| && rows[i].section == s
  {
    if rows != [] {
      var front, last := rows[..|rows| - 1], rows[|rows| - 1];
      SectionsAreSorted(front);
      InsertKeepsSorted(SectionsOf(front), last.section);
      InsertLength(SectionsOf(front), last.section);
      forall s ensures s in SectionsOf(rows) <==> exists i :: 0 <= i < |rows| && rows[i].section == s {
        if s in SectionsOf(front) {
          var i :| 0 <= i < |front| && front[i].section == s;
          assert rows[i].section == s;
        }
        if i :| 0 <= i < |rows| && rows[i].section == s {
          assert i == |rows| - 1 || front[i].section == s;
        }
      }
    }
  }

  lemma {:induction false} InsertLength(s: seq<string>, x: string)
    ensures |s| <= |Insert(s, x)| <= |s| + 1
    decreases s
  {
    if s != [] {
      InsertLength(s[1..], x);
    }
  }

  function NamesOf(ops: Ops, tags: seq<Tag>): map<Tag, string>
    requires AllAccepted(ops, tags)
  {
    map t | t in tags :: OpsRow(ops, t).name
  }

  function TypesOf(ops: Ops, tags: seq<Tag>): map<Tag, int> { map t | t in tags :: ops.kind(t) }

  function IndicesOf(ops: Ops, tags: seq<Tag>, sections: seq<string>): map<Tag, nat>
    requires AllAccepted(ops, tags)
  {
    map t | t in tags :: IndexOf(sections, OpsRow(ops, t).section)
  }

  function Built(ops: Ops, tags: seq<Tag>): Descriptor
    requires AllAccepted(ops, tags)
  {
    var rows := OpsRows(ops, tags);
    var sections := SectionsOf(rows);
    Descriptor(|tags|, NamesOf(ops, tags), IndicesOf(ops, tags, sections), TypesOf(ops, tags), sections,
               Reversed(rows))
  }

  function FromOps(ops: Ops): Result<Descriptor, Status> {
    if ops.count < 0 || !AllAccepted(ops, ops.tags) then Err(BAD_VALUE) else Ok(Built(ops, ops.tags))
  }

  // Exactly these operations are accepted: no negative count, and for every tag listed a number in the
  // vendor's range, a name, a section and one of the six types.
  lemma AcceptedOpsIff(ops: Ops)
    ensures FromOps(ops).Ok? <==>
              0 <= ops.count
              && forall t :: t in ops.tags ==>
                   0x8000_0000 <= t && ops.name(t).Some? && ops.section(t).Some? && 0 <= ops.kind(t) < 6
    ensures FromOps(ops).Err? ==> FromOps(ops).error == BAD_VALUE
  {
  }

  // The fields of the descriptor that is built.
  lemma BuiltInFields(ops: Ops)
    requires FromOps(ops).Ok?
    ensures var d := FromOps(ops).value;
            && d.count == |ops.tags| && (forall t :: t in d.names <==> t in ops.tags)
            && (forall t :: t in d.sectionOf <==> t in ops.tags) && (forall t :: t in d.types <==> t in ops.tags)
            && (forall t :: t in ops.tags ==>
                  && d.names[t] == ops.name(t).value && d.types[t] == ops.kind(t)
                  && d.sectionOf[t] < |d.sections| && d.sections[d.sectionOf[t]] == ops.section(t).value)
            && (forall s :: s in d.sections <==> exists t :: t in ops.tags && ops.section(t) == Some(s))
            && (forall i, j :: 0 <= i < j < |d.sections| ==> Less(d.sections[i], d.sections[j]))
  {
    var d, rows := FromOps(ops).value, OpsRows(ops, ops.tags);
    SectionsAreSorted(rows);
    forall t | t in ops.tags
      ensures d.sectionOf[t] < |d.sections| && d.sections[d.sectionOf[t]] == ops.section(t).value
    {
      OpsSection(ops, ops.tags, t);
    }
    forall s ensures s in d.sections <==> exists t :: t in ops.tags && ops.section(t) == Some(s) {
      if s in d.sections {
        var i :| 0 <= i < |rows| && rows[i].section == s;
        assert ops.tags[i] in ops.tags && ops.section(ops.tags[i]) == Some(s);
      }
      if t :| t in ops.tags && ops.section(t) == Some(s) {
        var i :| 0 <= i < |ops.tags| && ops.tags[i] == t;
        assert rows[i].section == s;
      }
    }
  }

  // ---- what a descriptor answers ----

  function SectionName(d: Descriptor, t: Tag): Option<string>
    requires Consistent(d)
  {
    if t in d.sectionOf then Some(d.sections[d.sectionOf[t]]) else None
  }

  function TagName(d: Descriptor, t: Tag): Option<string> {
    if t in d.names then Some(d.names[t]) else None
  }

  function TagType(d: Descriptor, t: Tag): Option<int>
    requires Consistent(d)
  {
    if t in d.names then Some(d.types[t]) else None
  }

  // One key set, section indices in range, tags and types legal.
  ghost predicate Consistent(d: Descriptor) {
    d.names.Keys == d.sectionOf.Keys == d.types.Keys
    && Sorted(d.sections)
    && forall t :: t in d.names ==>
         VENDOR_TAG_BOUNDARY <= t && d.sectionOf[t] < |d.sections| && 0 <= d.types[t] < NUM_TYPES
  }

  lemma OpsSection(ops: Ops, tags: seq<Tag>, t: Tag)
    requires AllAccepted(ops, tags) && t in tags
    ensures var d := Built(ops, tags);
            d.sectionOf[t] < |d.sections| && d.sections[d.sectionOf[t]] == OpsRow(ops, t).section
  {
    var rows := OpsRows(ops, tags);
    SectionsAreSorted(rows);
    var i :| 0 <= i < |tags| && tags[i] == t;
    assert rows[i].section == OpsRow(ops, t).section;
    assert OpsRow(ops, t).section in SectionsOf(rows);
  }

  lemma BuiltIsConsistent(ops: Ops, tags: seq<Tag>)
    requires AllAccepted(ops, tags)
    ensures Consistent(Built(ops, tags)) && |Built(ops, tags).sections| <= |tags|
    ensures forall t :: t in Built(ops, tags).names <==> t in tags
  {
    SectionsAreSorted(OpsRows(ops, tags));
    forall t | t in tags
      ensures Built(ops, tags).sectionOf[t] < |Built(ops, tags).sections|
    {
      OpsSection(ops, tags, t);
    }
  }

  // The getters give back what the vendor said.
  lemma GettersAnswerTheOps(ops: Ops, t: Tag)
    requires FromOps(ops).Ok?
    ensures var d := FromOps(ops).value;
            Consistent(d)
            && TagName(d, t) == (if t in ops.tags then ops.name(t) else None)
            && SectionName(d, t) == (if t in ops.tags then ops.section(t) else None)
            && TagType(d, t) == if t in ops.tags then Some(ops.kind(t)) else None
  {
    BuiltIsConsistent(ops, ops.tags);
    if t in ops.tags {
      OpsSection(ops, ops.tags, t);
    }
  }

  // A tag a lookup answers with has that name and section.
  lemma LookupIsSound(ops: Ops, section: string, name: string)
    requires FromOps(ops).Ok?
    ensures var d := FromOps(ops).value;
            Consistent(d)
            && match Lookup(d.reverse, section, name)
               case Some(t) => TagName(d, t) == Some(name) && SectionName(d, t) == Some(section)
               case None =>
                 forall t :: !(TagName(d, t) == Some(name) && SectionName(d, t) == Some(section))
  {
    var d, rows := FromOps(ops).value, OpsRows(ops, ops.tags);
    BuiltIsConsistent(ops, ops.tags);
    LookupFindsTheLast(rows, section, name);
    var w := Winner(rows, section, name);
    if w < |rows| {
      assert Has(rows[w], section, name);
      GettersAnswerTheOps(ops, ops.tags[w]);
    } else {
      forall t: Tag
        ensures !(TagName(d, t) == Some(name) && SectionName(d, t) == Some(section))
      {
        GettersAnswerTheOps(ops, t);
        if t in ops.tags {
          var i :| 0 <= i < |ops.tags| && ops.tags[i] == t;
          assert !Has(rows[i], section, name);
        }
      }
    }
  }

  ghost predicate PairsDistinct(ops: Ops, tags: seq<Tag>) {
    forall t, u ::
      t in tags && u in tags && ops.name(t) == ops.name(u) && ops.section(t) == ops.section(u) ==>
        t == u
  }

  ghost predicate FoundByOwnPair(d: Descriptor, t: Tag)
    requires Consistent(d)
  {
    t in d.names && Lookup(d.reverse, d.sections[d.sectionOf[t]], d.names[t]) == Some(t)
  }

  // Every tag is found by its own name and section exactly when no two tags share both.
  lemma AllFoundIffPairsDistinct(ops: Ops)
    requires FromOps(ops).Ok?
    ensures var d := FromOps(ops).value;
            Consistent(d)
            && (PairsDistinct(ops, ops.tags) <==> forall t :: t in ops.tags ==> FoundByOwnPair(d, t))
  {
    var d := FromOps(ops).value;
    BuiltIsConsistent(ops, ops.tags);
    if PairsDistinct(ops, ops.tags) {
      forall t | t in ops.tags ensures FoundByOwnPair(d, t) {
        GettersAnswerTheOps(ops, t);
        LookupIsSound(ops, d.sections[d.sectionOf[t]], d.names[t]);
        var found := Lookup(d.reverse, d.sections[d.sectionOf[t]], d.names[t]);
        assert TagName(d, t) == Some(d.names[t]);
        GettersAnswerTheOps(ops, found.value);
      }
    }
    if forall t :: t in ops.tags ==> FoundByOwnPair(d, t) {
      forall t, u | t in ops.tags && u in ops.tags && ops.name(t) == ops.name(u)
                    && ops.section(t) == ops.section(u)
        ensures t == u
      {
        GettersAnswerTheOps(ops, t);
        GettersAnswerTheOps(ops, u);
        assert FoundByOwnPair(d, t) && FoundByOwnPair(d, u);
      }
    }
  }
}
