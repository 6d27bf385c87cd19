/** A binder parcel, as the camera classes use it: values are appended in order and read back with a
    cursor. A read that does not find a value of its kind fails and leaves the cursor alone. */
module Parcels {
  import opened CameraStatus
  import opened Wrappers

  datatype Item =
    | Int32(value: int)
    | Text(text: string)
    | NullText
    | Binder(handle: Option<nat>)
    | Blob(bytes: seq<bv8>)

  const INT32_LIMIT: nat := 0x8000_0000
  const UINT32_LIMIT: nat := 0x1_0000_0000
  const SIZE_LIMIT: nat := 0x1_0000_0000_0000_0000

  // static_cast<int32_t> of a size_t, and back.
  function ToInt32(x: nat): int { (x + INT32_LIMIT) % UINT32_LIMIT - INT32_LIMIT }

  function ToSize(v: int): int { if v < 0 then v + SIZE_LIMIT else v }

  // readInt32(int32_t *) and readInt32().
  function TakeInt32(rest: seq<Item>): Result<(int, seq<Item>), Status> {
    if rest != [] && rest[0].Int32? then Ok((rest[0].value, rest[1..])) else Err(NOT_ENOUGH_DATA)
  }

  function Int32OrZero(rest: seq<Item>): (int, seq<Item>) {
    if rest != [] && rest[0].Int32? then (rest[0].value, rest[1..]) else (0, rest)
  }

  // readBlob of a given length.
  function TakeBlob(length: int, rest: seq<Item>): Result<(seq<bv8>, seq<Item>), Status> {
    if rest != [] && rest[0].Blob? && |rest[0].bytes| == length then Ok((rest[0].bytes, rest[1..]))
    else Err(BAD_VALUE)
  }

  // readString8: an empty string when there is none.
  function TextOrEmpty(rest: seq<Item>): (string, seq<Item>) {
    if rest != [] && rest[0].Text? then (rest[0].text, rest[1..]) else ("", rest)
  }

  // readString16Inplace: null when there is none.
  function TextOrNull(rest: seq<Item>): (Option<string>, seq<Item>) {
    if rest != [] && rest[0].Text? then (Some(rest[0].text), rest[1..])
    else if rest != [] && rest[0].NullText? then (None, rest[1..])
    else (None, rest)
  }

  // readStrongBinder: null when there is none.
  function BinderOrNull(rest: seq<Item>): (Option<nat>, seq<Item>) {
    if rest != [] && rest[0].Binder? then (rest[0].handle, rest[1..]) else (None, rest)
  }

  class Parcel {
    var items: seq<Item>
    var position: nat

    ghost predicate Valid()
      reads this
    {
      position <= |items|
    }

    function Rest(): seq<Item>
      requires Valid()
      reads this
    {
      items[position..]
    }

    constructor ()
      ensures Valid() && items == [] && position == 0
    {
      items, position := [], 0;
    }

    method Write(item: Item)
      requires Valid()
      modifies this
      ensures Valid() && items == old(items) + [item] && position == old(position)
    {
      items := items + [item];
    }

    method ReadInt32() returns (r: Result<int, Status>)
      requires Valid()
      modifies this`position
      ensures Valid()
      ensures r.Ok? ==> TakeInt32(old(Rest())) == Ok((r.value, Rest()))
      ensures r.Err? ==> TakeInt32(old(Rest())) == Err(r.error) && Rest() == old(Rest())
    {
      if position < |items| && items[position].Int32? {
        position := position + 1;
        return Ok(items[position - 1].value);
      }
      return Err(NOT_ENOUGH_DATA);
    }

    method ReadBlob(length: int) returns (r: Result<seq<bv8>, Status>)
      requires Valid()
      modifies this`position
      ensures Valid()
      ensures r.Ok? ==> TakeBlob(length, old(Rest())) == Ok((r.value, Rest()))
      ensures r.Err? ==> TakeBlob(length, old(Rest())) == Err(r.error) && Rest() == old(Rest())
    {
      if position < |items| && items[position].Blob? && |items[position].bytes| == length {
        position := position + 1;
        return Ok(items[position - 1].bytes);
      }
      return Err(BAD_VALUE);
    }

    method ReadInt32OrZero() returns (v: int)
      requires Valid()
      modifies this`position
      ensures Valid() && (v, Rest()) == Int32OrZero(old(Rest()))
    {
      var r := ReadInt32();
      v := if r.Ok? then r.value else 0;
    }

    method ReadString8() returns (s: string)
      requires Valid()
      modifies this`position
      ensures Valid() && (s, Rest()) == TextOrEmpty(old(Rest()))
    {
      s := "";
      if position < |items| && items[position].Text? {
        s, position := items[position].text, position + 1;
      }
    }

    method ReadString16() returns (s: Option<string>)
      requires Valid()
      modifies this`position
      ensures Valid() && (s, Rest()) == TextOrNull(old(Rest()))
    {
      s := None;
      if position < |items| && (items[position].Text? || items[position].NullText?) {
        s := if items[position].Text? then Some(items[position].text) else None;
        position := position + 1;
      }
    }

    method ReadStrongBinder() returns (b: Option<nat>)
      requires Valid()
      modifies this`position
      ensures Valid() && (b, Rest()) == BinderOrNull(old(Rest()))
    {
      b := None;
      if position < |items| && items[position].Binder? {
        b, position := items[position].handle, position + 1;
      }
    }
  }
}
