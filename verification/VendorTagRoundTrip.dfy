/** When a descriptor made from the vendor's operations survives a parcel. */
module VendorTagRoundTrip {
  import opened CameraStatus
  import opened Parcels
  import opened Sequences
  import opened VendorTagParcel
  import opened VendorTags
  import opened Wrappers

  ghost predicate Distinct(tags: seq<Tag>) {
    forall i, j :: 0 <= i < j < |tags| ==> tags[i] != tags[j]
  }

  ghost function TagSet(tags: seq<Tag>): set<Tag> { set t | t in tags }

  lemma TagSetStep(tags: seq<Tag>, t: Tag)
    ensures TagSet(tags + [t]) == TagSet(tags) + {t}
    ensures |TagSet(tags + [t])| == |TagSet(tags)| + if t in tags then 0 else 1
  {
  }

  lemma {:induction false} DistinctIffCounted(tags: seq<Tag>)
    ensures |TagSet(tags)| <= |tags|
    ensures Distinct(tags) <==> |TagSet(tags)| == |tags|
  {
    if tags != [] {
      var front, last := tags[..|tags| - 1], tags[|tags| - 1];
      DistinctIffCounted(front);
      assert tags == front + [last];
      TagSetStep(front, last);
      if last in front {
        var i :| 0 <= i < |front| && front[i] == last;
        assert tags[i] == tags[|tags| - 1];
      }
    }
  }

  // A count beyond the number of tags makes the receiver take the section count for a tag.
  lemma SurplusCountIsRefused(d: Descriptor, tail: seq<Item>)
    requires Consistent(d) && 0 < |d.sections| < COUNT_LIMIT && |d.names| < d.count
    ensures Decode(Encode(d) + tail).Refused?
  {
    WrittenIsIndexable(d);
    var es := EntriesOf(d, Ascending(d.names.Keys));
    var rest := WriteSections(d.sections) + tail;
    EncodeThen(d, tail);
    Regroup([Int32(d.count)], WriteEntries(es), rest);
    assert |d.names| == |d.names.Keys|;
    EntriesAreRead(d.count, es, rest, []);
    Regroup([Int32(ToInt32(|d.sections|))], WriteTexts(d.sections), tail);
    CastsCancel(|d.sections|);
    assert TakeEntry(rest) == Err(BAD_VALUE);
    assert TakeEntries(d.count - |es|, rest, [] + es) == Err(BAD_VALUE);
  }

  ghost predicate NothingEmpty(ops: Ops) {
    forall t :: t in ops.tags ==> ops.name(t) != Some("") && ops.section(t) != Some("")
  }

  lemma SectionsNamed(ops: Ops)
    requires FromOps(ops).Ok?
    ensures var d := FromOps(ops).value;
            "" !in d.names.Values && "" !in d.sections <==> NothingEmpty(ops)
  {
    var d, rows := FromOps(ops).value, OpsRows(ops, ops.tags);
    SectionsAreSorted(rows);
    if "" !in d.names.Values && "" !in d.sections {
      forall t | t in ops.tags ensures ops.name(t) != Some("") && ops.section(t) != Some("") {
        assert d.names[t] in d.names.Values;
        var i :| 0 <= i < |ops.tags| && ops.tags[i] == t;
        assert rows[i].section in d.sections;
      }
    }
    if NothingEmpty(ops) {
      forall s | s in d.sections ensures s != "" {
        var i :| 0 <= i < |rows| && rows[i].section == s;
        assert ops.tags[i] in ops.tags;
      }
    }
  }

  lemma BuiltIsCounted(ops: Ops)
    requires ValidOps(ops) && FromOps(ops).Ok?
    ensures var d := FromOps(ops).value;
            Consistent(d) && |d.sections| < COUNT_LIMIT && |d.names| <= d.count
            && (Distinct(ops.tags) <==> |d.names| == d.count)
            && (d.names == map[] <==> d.sections == []) && (d.names == map[] ==> ops.tags == [])
  {
    var d := FromOps(ops).value;
    BuiltIsConsistent(ops, ops.tags);
    DistinctIffCounted(ops.tags);
    assert d.names.Keys == TagSet(ops.tags);
    assert |d.names| == |d.names.Keys|;
    if ops.tags != [] {
      assert ops.tags[0] in d.names;
      OpsSection(ops, ops.tags, ops.tags[0]);
    } else {
      SectionsAreSorted(OpsRows(ops, ops.tags));
    }
  }

  // A descriptor made from ops is read back, with anything after it left in place, if and only if the
  // tags differ and every name and section has a character. Only the reverse index can differ.
  lemma RoundTripIff(ops: Ops, tail: seq<Item>)
    requires ValidOps(ops) && FromOps(ops).Ok?
    ensures var d := FromOps(ops).value;
            Consistent(d) && |d.sections| < COUNT_LIMIT && Indexable(d, Ascending(d.names.Keys))
            && var r := Decode(Encode(d) + tail);
               (r.Received? <==> Distinct(ops.tags) && NothingEmpty(ops))
               && (r.Received? ==> r == Received(d.(reverse := Rebuilt(d)), tail))
               && !r.Aborted?
  {
    var d := FromOps(ops).value;
    BuiltIsCounted(ops);
    WrittenIsIndexable(d);
    SectionsNamed(ops);
    if Distinct(ops.tags) {
      DecodeOfEncode(d, tail);
    } else {
      SurplusCountIsRefused(d, tail);
    }
  }

  // ---- the reverse index ----

  // Among tags that share a name and a section, the vendor lists the largest last.
  ghost predicate LargestIsLast(rows: seq<Row>) {
    forall i, j ::
      0 <= i < |rows| && 0 <= j < |rows| && Wins(rows, i) && Has(rows[j], rows[i].section, rows[i].name) ==>
        rows[j].tag <= rows[i].tag
  }

  // Both indexes hold the same rows, one in the vendor's order and one by ascending tag.
  ghost predicate SameRows(a: seq<Row>, b: seq<Row>) {
    (forall r :: r in a <==> r in b)
    && forall i, j :: 0 <= i < j < |b| ==> b[i].tag < b[j].tag
  }

  lemma {:induction false} SortedLookup(a: seq<Row>, b: seq<Row>, section: string, name: string)
    requires SameRows(a, b)
    ensures var i, k := Winner(a, section, name), Winner(b, section, name);
            (i < |a| <==> k < |b|)
            && (i < |a| ==>
                  (a[i].tag == b[k].tag <==>
                     forall j :: 0 <= j < |a| && Has(a[j], section, name) ==> a[j].tag <= a[i].tag))
  {
    var i, k := Winner(a, section, name), Winner(b, section, name);
    if i < |a| {
      assert a[i] in b;
      var w :| 0 <= w < |b| && b[w] == a[i];
      assert Has(b[w], section, name);
      forall j | 0 <= j < |a| && Has(a[j], section, name) ensures a[j].tag <= b[k].tag {
        assert a[j] in b;
        var m :| 0 <= m < |b| && b[m] == a[j];
        assert m <= k;
      }
    }
    if k < |b| {
      assert b[k] in a;
      var m :| 0 <= m < |a| && a[m] == b[k];
      assert Has(a[m], section, name);
    }
  }

  lemma {:induction false} SameIndexIff(a: seq<Row>, b: seq<Row>)
    requires SameRows(a, b)
    ensures Reversed(a) == Reversed(b) <==> LargestIsLast(a)
  {
    if LargestIsLast(a) {
      forall s, n ensures Lookup(Reversed(a), s, n) == Lookup(Reversed(b), s, n) {
        SortedLookup(a, b, s, n);
        LookupFindsTheLast(a, s, n);
        LookupFindsTheLast(b, s, n);
      }
      SameLookupsSameIndex(a, b);
    }
    if Reversed(a) == Reversed(b) {
      forall i, j | 0 <= i < |a| && 0 <= j < |a| && Wins(a, i) && Has(a[j], a[i].section, a[i].name)
        ensures a[j].tag <= a[i].tag
      {
        SortedLookup(a, b, a[i].section, a[i].name);
        LookupFindsTheLast(a, a[i].section, a[i].name);
        LookupFindsTheLast(b, a[i].section, a[i].name);
      }
    }
  }

  lemma RowIsVendors(ops: Ops, t: Tag)
    requires FromOps(ops).Ok? && t in ops.tags
    ensures var d := FromOps(ops).value;
            Indexable(d, [t]) && RowOf(d, t) == OpsRow(ops, t)
  {
    OpsSection(ops, ops.tags, t);
    BuiltIsConsistent(ops, ops.tags);
  }

  // Rows taken from two lists of the same tags are the same rows.
  lemma RowsOfSameTags(ops: Ops, d: Descriptor, a: seq<Tag>, b: seq<Tag>)
    requires AllAccepted(ops, a) && Indexable(d, b)
    requires forall t :: t in a <==> t in b
    requires forall t :: t in a ==> Indexable(d, [t]) && RowOf(d, t) == OpsRow(ops, t)
    ensures forall r :: r in OpsRows(ops, a) <==> r in RowsOf(d, b)
  {
    var x, y := OpsRows(ops, a), RowsOf(d, b);
    forall r | r in x ensures r in y {
      var i :| 0 <= i < |x| && x[i] == r;
      assert a[i] in b;
      var k :| 0 <= k < |b| && b[k] == a[i];
      assert y[k] == r;
    }
    forall r | r in y ensures r in x {
      var k :| 0 <= k < |y| && y[k] == r;
      assert b[k] in a;
      var i :| 0 <= i < |a| && a[i] == b[k];
      assert x[i] == r;
    }
  }

  lemma RowsAgree(ops: Ops)
    requires FromOps(ops).Ok? && |ops.tags| < COUNT_LIMIT
    ensures var d := FromOps(ops).value;
            Indexable(d, Ascending(d.names.Keys))
            && SameRows(OpsRows(ops, ops.tags), RowsOf(d, Ascending(d.names.Keys)))
  {
    var d := FromOps(ops).value;
    var tags := Ascending(d.names.Keys);
    BuiltIsConsistent(ops, ops.tags);
    WrittenIsIndexable(d);
    AscendingHolds(d.names.Keys);
    forall t | t in ops.tags ensures Indexable(d, [t]) && RowOf(d, t) == OpsRow(ops, t) {
      RowIsVendors(ops, t);
    }
    RowsOfSameTags(ops, d, ops.tags, tags);
    forall i, j | 0 <= i < j < |tags| ensures tags[i] < tags[j] {
      AscendingIsSorted(d.names.Keys, i, j);
    }
  }

  // The whole descriptor comes back exactly when, besides, the vendor lists the largest of any tags
  // that share a name and a section last.
  lemma WholeDescriptorIff(ops: Ops, tail: seq<Item>)
    requires ValidOps(ops) && FromOps(ops).Ok?
    ensures var d := FromOps(ops).value;
            Consistent(d) && |d.sections| < COUNT_LIMIT
            && (Decode(Encode(d) + tail) == Received(d, tail)
                <==> Distinct(ops.tags) && NothingEmpty(ops) && LargestIsLast(OpsRows(ops, ops.tags)))
  {
    var d := FromOps(ops).value;
    RoundTripIff(ops, tail);
    RowsAgree(ops);
    SameIndexIff(OpsRows(ops, ops.tags), RowsOf(d, Ascending(d.names.Keys)));
  }

  // In particular when the pairs are distinct.
  lemma DistinctPairsSurvive(ops: Ops, tail: seq<Item>)
    requires ValidOps(ops) && FromOps(ops).Ok?
    requires Distinct(ops.tags) && NothingEmpty(ops) && PairsDistinct(ops, ops.tags)
    ensures var d := FromOps(ops).value;
            Consistent(d) && |d.sections| < COUNT_LIMIT && Decode(Encode(d) + tail) == Received(d, tail)
  {
    WholeDescriptorIff(ops, tail);
    var rows := OpsRows(ops, ops.tags);
    forall i, j | 0 <= i < |rows| && 0 <= j < |rows| && Wins(rows, i)
                  && Has(rows[j], rows[i].section, rows[i].name)
      ensures rows[j].tag <= rows[i].tag
    {
      assert ops.tags[i] in ops.tags && ops.tags[j] in ops.tags;
    }
  }
}
