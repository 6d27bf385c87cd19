/** A metadata library that keeps the contract the parcel theorems ask for. */
module PlainLibrary {
  import opened MetadataBuffer
  import opened MetadataParcel
  import opened Powers
  import opened Wrappers

  function Unary(n: nat): seq<bv8> { if n == 0 then [0] else [1] + Unary(n - 1) }

  function TakeUnary(s: seq<bv8>): (r: (nat, seq<bv8>))
    ensures |r.1| <= |s|
  {
    if s == [] then (0, [])
    else if s[0] == 0 then (0, s[1..])
    else var (n, rest) := TakeUnary(s[1..]); (n + 1, rest)
  }

  lemma {:induction false} UnaryRoundTrip(n: nat, tail: seq<bv8>)
    ensures TakeUnary(Unary(n) + tail) == (n, tail)
  {
    if n == 0 {
      assert ([0] + tail)[1..] == tail;
    } else {
      UnaryRoundTrip(n - 1, tail);
      assert (Unary(n) + tail)[1..] == Unary(n - 1) + tail;
    }
  }

  function PackEntry(e: Entry, tail: seq<bv8>): seq<bv8> {
    Unary(e.tag) + (Unary(e.dataSize) + (Unary(|e.data|) + (e.data + tail)))
  }

  function Pack(entries: seq<Entry>): (s: seq<bv8>)
    ensures s != []
  {
    if entries == [] then [0] else [1] + PackEntry(entries[0], Pack(entries[1..]))
  }

  function TakeEntry(s: seq<bv8>): (r: Option<(Entry, seq<bv8>)>)
    ensures r.Some? ==> |r.value.1| <= |s|
  {
    var (tag, afterTag) := TakeUnary(s);
    var (dataSize, afterSize) := TakeUnary(afterTag);
    var (length, rest) := TakeUnary(afterSize);
    if |rest| < length then None else Some((Entry(tag, rest[..length], dataSize), rest[length..]))
  }

  function Unpack(s: seq<bv8>): Option<seq<Entry>>
    decreases |s|
  {
    if s == [] then None
    else if s[0] == 0 then Some([])
    else
      match TakeEntry(s[1..])
      case None => None
      case Some((e, rest)) =>
        match Unpack(rest)
        case None => None
        case Some(more) => Some([e] + more)
  }

  lemma EntryRoundTrip(e: Entry, tail: seq<bv8>)
    ensures TakeEntry(PackEntry(e, tail)) == Some((e, tail))
  {
    UnaryRoundTrip(e.tag, Unary(e.dataSize) + (Unary(|e.data|) + (e.data + tail)));
    UnaryRoundTrip(e.dataSize, Unary(|e.data|) + (e.data + tail));
    UnaryRoundTrip(|e.data|, e.data + tail);
    assert (e.data + tail)[..|e.data|] == e.data && (e.data + tail)[|e.data|..] == tail;
  }

  lemma {:induction false} PackRoundTrip(entries: seq<Entry>)
    ensures Unpack(Pack(entries)) == Some(entries)
    decreases entries
  {
    if entries != [] {
      var tail := Pack(entries[1..]);
      PackRoundTrip(entries[1..]);
      EntryRoundTrip(entries[0], tail);
      assert Pack(entries)[1..] == PackEntry(entries[0], tail);
      assert [entries[0]] + entries[1..] == entries;
    }
  }

  // The contract can be met.
  lemma PlainIsFaithful()
    ensures Faithful(Library(8, Pack, Unpack))
  {
    assert Pow2(3) == 8;
    forall m: seq<Entry> ensures 0 < |Pack(m)| && Unpack(Pack(m)) == Some(m) {
      PackRoundTrip(m);
    }
  }
}
