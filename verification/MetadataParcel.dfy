/** CameraMetadata in a parcel (camera/CameraMetadata.cpp, both static parcel functions): a blob that
    is one alignment larger than the packed metadata, with the metadata at an aligned address inside
    it, followed by the offset at which it was put. */
module MetadataParcel {
  import opened CameraStatus
  import opened Wrappers
  import opened Alignment
  import opened MetadataBuffer
  import opened Parcels

  // The metadata library: copy_camera_metadata packs the entries without spare capacity,
  // allocate_copy_camera_metadata_checked validates a region and unpacks it.
  datatype Library = Library(alignment: nat, pack: seq<Entry> -> seq<bv8>, unpack: seq<bv8> -> Option<seq<Entry>>)

  ghost predicate Faithful(lib: Library) {
    && PowerOfTwo(lib.alignment) && 0 < lib.alignment < INT32_LIMIT
    && (forall m :: 0 < |lib.pack(m)| && lib.unpack(lib.pack(m)) == Some(m))
  }

  // Where the parcel puts a blob, what its memory holds, and whether writeBlob succeeds at all.
  datatype Placement = Placement(address: nat, filler: nat -> bv8, granted: bool)

  function BlobSize(lib: Library, m: seq<Entry>): nat { |lib.pack(m)| + lib.alignment }

  // The blob after copy_camera_metadata has written the metadata at `offset`.
  function Filled(place: Placement, size: nat, offset: nat, packed: seq<bv8>): seq<bv8>
    requires offset + |packed| <= size
  {
    seq(size, i requires 0 <= i < size =>
      if offset <= i < offset + |packed| then packed[i - offset] else place.filler(i))
  }

  ghost predicate GoodPlace(lib: Library, place: Placement) {
    0 < lib.alignment <= ADDRESSES && place.address < ADDRESSES && PowerOfTwo(lib.alignment)
  }

  // The items writeToParcel appends. The status of the blob is overwritten by that of the offset, so
  // the function reports success whether or not the blob was written.
  function Encoded(lib: Library, metadata: Option<seq<Entry>>, place: Placement): seq<Item>
    requires GoodPlace(lib, place)
  {
    match metadata
    case None => [Int32(0)]
    case Some(m) =>
      AlignedOffset(place.address, lib.alignment);
      var size := BlobSize(lib, m);
      var offset := Offset(place.address, lib.alignment);
      if place.granted
      then [Int32(ToInt32(size)), Blob(Filled(place, size, offset, lib.pack(m))), Int32(ToInt32(offset))]
      else [Int32(ToInt32(size)), Int32(0)]
  }

  function Decoded(lib: Library, rest: seq<Item>): Result<(Option<seq<Entry>>, seq<Item>), Status> {
    match TakeInt32(rest)
    case Err(e) => Err(e)
    case Ok((sizeTmp, afterSize)) =>
      var blobSize := ToSize(sizeTmp);
      if blobSize == 0 then Ok((None, afterSize))
      else if blobSize <= lib.alignment then Err(BAD_VALUE)
      else
        match TakeBlob(blobSize, afterSize)
        case Err(e) => Err(e)
        case Ok((blob, afterBlob)) =>
          match TakeInt32(afterBlob)
          case Err(e) => Err(e)
          case Ok((offsetTmp, afterOffset)) =>
            var offset := ToSize(offsetTmp);
            if offset < 0 || offset >= lib.alignment then Err(BAD_VALUE)
            else
              match lib.unpack(blob[offset..offset + (blobSize - lib.alignment)])
              case None => Err(BAD_VALUE)
              case Some(m) => Ok((Some(m), afterOffset))
  }

  // ---------------------------------------------------------------------------------------------

  // What a writer could check beforehand: the blob was granted and its size fits the int32 that
  // announces it.
  predicate Sendable(lib: Library, metadata: Option<seq<Entry>>, place: Placement) {
    metadata.Some? ==> place.granted && BlobSize(lib, metadata.value) < INT32_LIMIT
  }

  // Sizes are sizes of memory.
  predicate Physical(lib: Library, metadata: Option<seq<Entry>>) {
    metadata.Some? ==> BlobSize(lib, metadata.value) < SIZE_LIMIT / 2
  }

  lemma RegionLiesInBlob(lib: Library, m: seq<Entry>, place: Placement)
    requires Faithful(lib) && GoodPlace(lib, place)
    ensures var offset := Offset(place.address, lib.alignment);
            && 0 <= offset < lib.alignment
            && offset + |lib.pack(m)| < BlobSize(lib, m)
            && (place.address + offset) % ADDRESSES % lib.alignment == 0
            && Filled(place, BlobSize(lib, m), offset, lib.pack(m))[offset..offset + |lib.pack(m)|] == lib.pack(m)
  {
    AlignedOffset(place.address, lib.alignment);
  }

  lemma Int32RoundTrip(x: nat)
    requires x < SIZE_LIMIT / 2
    ensures x < INT32_LIMIT ==> ToInt32(x) == x
    ensures INT32_LIMIT <= x ==> ToSize(ToInt32(x)) != x
  {
  }

  lemma SentIsReceived(lib: Library, m: seq<Entry>, place: Placement, suffix: seq<Item>)
    requires Faithful(lib) && GoodPlace(lib, place) && Sendable(lib, Some(m), place)
    ensures Decoded(lib, Encoded(lib, Some(m), place) + suffix) == Ok((Some(m), suffix))
  {
    RegionLiesInBlob(lib, m, place);
    var offset := Offset(place.address, lib.alignment);
    Int32RoundTrip(BlobSize(lib, m));
    Int32RoundTrip(offset);
    var items := Encoded(lib, Some(m), place);
    var blob := Filled(place, BlobSize(lib, m), offset, lib.pack(m));
    assert (items + suffix)[1..] == [items[1], items[2]] + suffix;
    assert (items + suffix)[1..][1..] == [items[2]] + suffix;
    assert (items + suffix)[1..][1..][1..] == suffix;
    assert TakeBlob(BlobSize(lib, m), (items + suffix)[1..]) == Ok((blob, [items[2]] + suffix));
  }

  // Metadata that cannot be sent is never received: the reader reports an error, or takes it for null
  // metadata (when its size is a multiple of 2^32).
  lemma UnsentIsNotReceived(lib: Library, m: seq<Entry>, place: Placement, suffix: seq<Item>)
    requires Faithful(lib) && GoodPlace(lib, place)
    requires Physical(lib, Some(m)) && !Sendable(lib, Some(m), place)
    ensures var r := Decoded(lib, Encoded(lib, Some(m), place) + suffix);
            r.Ok? ==> r.value.0 == None
  {
  }

  // Reading back what was written returns the same metadata and leaves the rest of the parcel exactly
  // when the blob was granted and is smaller than 2^31 bytes. The writer's status does not tell.
  lemma MetadataRoundTripIff(lib: Library, metadata: Option<seq<Entry>>, place: Placement, suffix: seq<Item>)
    requires Faithful(lib) && GoodPlace(lib, place) && Physical(lib, metadata)
    ensures Decoded(lib, Encoded(lib, metadata, place) + suffix) == Ok((metadata, suffix))
       <==> Sendable(lib, metadata, place)
  {
    if metadata.None? {
      assert (Encoded(lib, metadata, place) + suffix)[1..] == suffix;
    } else if Sendable(lib, metadata, place) {
      SentIsReceived(lib, metadata.value, place, suffix);
    } else {
      UnsentIsNotReceived(lib, metadata.value, place, suffix);
    }
  }

  // ---------------------------------------------------------------------------------------------
  // The items, one by one.

  // A null metadata is a zero. Otherwise the items are the size of the blob, one alignment more than the
  // packed metadata, then the blob with the metadata at an aligned address in it, then the offset of that.
  lemma EncodedInItems(lib: Library, m: seq<Entry>, place: Placement)
    requires Faithful(lib) && GoodPlace(lib, place) && |lib.pack(m)| + lib.alignment < 0x8000_0000
    ensures Encoded(lib, None, place) == [Int32(0)]
    ensures !place.granted ==> Encoded(lib, Some(m), place) == [Int32(|lib.pack(m)| + lib.alignment), Int32(0)]
    ensures place.granted ==>
              exists offset: nat, blob: seq<bv8> ::
                && Encoded(lib, Some(m), place) == [Int32(|lib.pack(m)| + lib.alignment), Blob(blob), Int32(offset)]
                && |blob| == |lib.pack(m)| + lib.alignment && offset < lib.alignment
                && (place.address + offset) % ADDRESSES % lib.alignment == 0
                && blob[offset..offset + |lib.pack(m)|] == lib.pack(m)
  {
    RegionLiesInBlob(lib, m, place);
    var size, offset := BlobSize(lib, m), Offset(place.address, lib.alignment);
    Int32RoundTrip(size);
    Int32RoundTrip(offset);
    var blob := Filled(place, size, offset, lib.pack(m));
    assert place.granted ==> Encoded(lib, Some(m), place) == [Int32(size), Blob(blob), Int32(offset)];
  }

  // What the reader makes of a size, a blob and an offset, with the first check that fails.
  lemma DecodedInItems(lib: Library, size: int, blob: seq<bv8>, offset: int, more: seq<Item>)
    requires Faithful(lib) && -0x8000_0000 <= size < 0x8000_0000 && -0x8000_0000 <= offset < 0x8000_0000
    ensures var length: int := if size < 0 then size + 0x1_0000_0000_0000_0000 else size;
            Decoded(lib, [Int32(size), Blob(blob), Int32(offset)] + more)
            == if size == 0 then Ok((None, [Blob(blob), Int32(offset)] + more))
               else if length <= lib.alignment || length != |blob| then Err(BAD_VALUE)
               else if offset < 0 || offset >= lib.alignment then Err(BAD_VALUE)
               else match lib.unpack(blob[offset..offset + (|blob| - lib.alignment)])
                    case None => Err(BAD_VALUE)
                    case Some(m) => Ok((Some(m), more))
  {
    var items := [Int32(size), Blob(blob), Int32(offset)] + more;
    assert items[1..] == [Blob(blob), Int32(offset)] + more;
    assert items[1..][1..] == [Int32(offset)] + more;
    assert items[1..][1..][1..] == more;
  }

  // What it makes of items that are missing.
  lemma MissingItems(lib: Library, size: int, blob: seq<bv8>)
    requires Faithful(lib) && lib.alignment < size < 0x8000_0000 && |blob| == size
    ensures Decoded(lib, []) == Err(NOT_ENOUGH_DATA)
    ensures Decoded(lib, [Int32(size)]) == Err(BAD_VALUE)
    ensures Decoded(lib, [Int32(size), Blob(blob)]) == Err(NOT_ENOUGH_DATA)
  {
    assert [Int32(size)][1..] == [];
    assert [Int32(size), Blob(blob)][1..] == [Blob(blob)] && [Blob(blob)][1..] == [];
  }

  // ---------------------------------------------------------------------------------------------
  // The two functions, on a parcel.

  method WriteToParcel(lib: Library, metadata: Option<seq<Entry>>, place: Placement, parcel: Parcel)
    returns (res: Status)
    requires parcel.Valid() && GoodPlace(lib, place)
    modifies parcel
    ensures parcel.Valid() && parcel.position == old(parcel.position)
    ensures parcel.items == old(parcel.items) + Encoded(lib, metadata, place)
    ensures res == OK
  {
    if metadata.None? {
      parcel.Write(Int32(0));
      return OK;
    }
    AlignedOffset(place.address, lib.alignment);
    var packed := lib.pack(metadata.value);
    var metadataSize := |packed|;
    var blobSize := metadataSize + lib.alignment;
    parcel.Write(Int32(ToInt32(blobSize)));
    res := OK;
    var offset := 0;
    if place.granted {
      var metadataStart := AlignTo(place.address, lib.alignment);
      offset := (metadataStart - place.address) % ADDRESSES;
      parcel.Write(Blob(Filled(place, blobSize, offset, packed)));
    } else {
      res := BAD_VALUE;
    }
    parcel.Write(Int32(ToInt32(offset)));
    res := OK;
  }

  method ReadFromParcel(lib: Library, parcel: Parcel) returns (r: Result<Option<seq<Entry>>, Status>)
    requires parcel.Valid()
    modifies parcel`position
    ensures parcel.Valid()
    ensures r.Ok? ==> Decoded(lib, old(parcel.Rest())) == Ok((r.value, parcel.Rest()))
    ensures r.Err? ==> Decoded(lib, old(parcel.Rest())) == Err(r.error)
  {
    var sizeTmp := parcel.ReadInt32();
    if sizeTmp.Err? {
      return Err(sizeTmp.error);
    }
    var blobSize := ToSize(sizeTmp.value);
    if blobSize == 0 {
      return Ok(None);
    }
    if blobSize <= lib.alignment {
      return Err(BAD_VALUE);
    }
    var metadataSize := blobSize - lib.alignment;
    var blob := parcel.ReadBlob(blobSize);
    if blob.Err? {
      return Err(blob.error);
    }
    var offsetTmp := parcel.ReadInt32();
    if offsetTmp.Err? {
      return Err(offsetTmp.error);
    }
    var offset := ToSize(offsetTmp.value);
    if offset < 0 || offset >= lib.alignment {
      return Err(BAD_VALUE);
    }
    var metadata := lib.unpack(blob.value[offset..offset + metadataSize]);
    if metadata.None? {
      return Err(BAD_VALUE);
    }
    return Ok(Some(metadata.value));
  }
}
