/** The AVC configuration branch of makeFormat: the parameter sets of an AVCDecoderConfigurationRecord
    (section 5.2.4.1 of ISO/IEC 14496-15) turned into two buffers of start-code prefixed NAL units. */
module Avcc {
  import opened Sequences

  type Nal = s: seq<Byte> | |s| < 0x1_0000

  const CAPACITY: nat := 1024
  const START_CODE: seq<Byte> := [0, 0, 0, 1]

  // ---- the record ----

  // The five bytes in front of the counts carry no parameter sets; the reserved bits are not checked.
  datatype Record = Record(profile: Byte, compatibility: Byte, level: Byte, lengthSize: Byte, reserved: nat,
                           sps: seq<Nal>, pps: seq<Nal>)

  ghost predicate ValidRecord(r: Record) { |r.sps| < 32 && |r.pps| < 256 && r.reserved < 8 }

  function WriteNals(nals: seq<Nal>): seq<Byte> {
    if nals == [] then []
    else [|nals[0]| / 256, |nals[0]| % 256] + nals[0] + WriteNals(nals[1..])
  }

  function Encode(r: Record): seq<Byte>
    requires ValidRecord(r)
  {
    [1, r.profile, r.compatibility, r.level, r.lengthSize, r.reserved * 32 + |r.sps|]
    + WriteNals(r.sps) + [|r.pps|] + WriteNals(r.pps)
  }

  // What the parser is to emit for a group of parameter sets.
  function AnnexB(nals: seq<Nal>): seq<Byte> {
    if nals == [] then [] else START_CODE + nals[0] + AnnexB(nals[1..])
  }

  // ---- the parser ----

  // CheckFailed: a CHECK stops the process. Overflow: a memcpy would run past the 1024-byte buffer.
  datatype Group = Group(csd: seq<Byte>, rest: seq<Byte>) | GroupCheckFailed | GroupOverflow

  datatype Outcome = Parsed(csd: seq<seq<Byte>>, rest: seq<Byte>) | CheckFailed | Overflow

  // U16_AT.
  function U16(b: seq<Byte>): nat
    requires |b| >= 2
  {
    var high: nat := b[0];
    high * 256 + b[1]
  }

  function TakeNals(n: nat, rest: seq<Byte>, so: seq<Byte>): Group {
    if n == 0 then Group(so, rest)
    else if |rest| < 2 then GroupCheckFailed
    else
      var length, body := U16(rest), rest[2..];
      if |body| < length then GroupCheckFailed
      else if |so| + 4 + length > CAPACITY then GroupOverflow
      else TakeNals(n - 1, body[length..], so + START_CODE + body[..length])
  }

  function Parse(data: seq<Byte>): Outcome {
    if |data| < 7 || data[0] != 1 then CheckFailed
    else
      match TakeNals(data[5] % 32, data[6..], [])
      case GroupCheckFailed => CheckFailed
      case GroupOverflow => Overflow
      case Group(sps, rest) =>
        if |rest| < 1 then CheckFailed
        else
          match TakeNals(rest[0], rest[1..], [])
          case GroupCheckFailed => CheckFailed
          case GroupOverflow => Overflow
          case Group(pps, rest2) => Parsed([sps, pps], rest2)
  }

  // ---- parsing what a record holds ----

  lemma {:induction false} TakeOneNal(n: nat, nal: Nal, tail: seq<Byte>, so: seq<Byte>)
    requires 0 < n
    ensures TakeNals(n, [|nal| / 256, |nal| % 256] + nal + tail, so)
            == if |so| + 4 + |nal| > CAPACITY then GroupOverflow
               else TakeNals(n - 1, tail, so + START_CODE + nal)
  {
    var w: seq<Byte> := [|nal| / 256, |nal| % 256] + nal + tail;
    assert U16(w) == |nal|;
    assert w[2..] == nal + tail && (nal + tail)[..|nal|] == nal && (nal + tail)[|nal|..] == tail;
  }

  lemma {:induction false} OneMoreNal(nal: Nal, more: seq<Nal>, tail: seq<Byte>, so: seq<Byte>)
    ensures WriteNals([nal] + more) + tail == [|nal| / 256, |nal| % 256] + nal + (WriteNals(more) + tail)
    ensures so + AnnexB([nal] + more) == so + START_CODE + nal + AnnexB(more)
  {
  }

  // A group is emitted whole when it fits the buffer once converted; otherwise the buffer overflows.
  lemma {:induction false} NalsAreTaken(nals: seq<Nal>, tail: seq<Byte>, so: seq<Byte>)
    ensures TakeNals(|nals|, WriteNals(nals) + tail, so)
            == if nals == [] || |so| + |AnnexB(nals)| <= CAPACITY then Group(so + AnnexB(nals), tail)
               else GroupOverflow
    decreases nals
  {
    if nals == [] {
      assert WriteNals(nals) + tail == tail && so + AnnexB(nals) == so;
    } else {
      var nal, rest := nals[0], nals[1..];
      assert nals == [nal] + rest;
      OneMoreNal(nal, rest, tail, so);
      TakeOneNal(|nals|, nal, WriteNals(rest) + tail, so);
      if |so| + 4 + |nal| <= CAPACITY {
        NalsAreTaken(rest, tail, so + START_CODE + nal);
      }
    }
  }

  lemma HeaderIsRead(r: Record, tail: seq<Byte>)
    requires ValidRecord(r)
    ensures var data := Encode(r) + tail;
            |data| >= 7 && data[0] == 1 && data[5] % 32 == |r.sps|
            && data[6..] == WriteNals(r.sps) + ([|r.pps|] + (WriteNals(r.pps) + tail))
  {
  }

  // For every record and whatever follows it: both groups are emitted exactly when both fit.
  lemma ParseEmitsTheSets(r: Record, tail: seq<Byte>)
    requires ValidRecord(r)
    ensures Parse(Encode(r) + tail)
            == if |AnnexB(r.sps)| <= 1024 && |AnnexB(r.pps)| <= 1024
               then Parsed([AnnexB(r.sps), AnnexB(r.pps)], tail)
               else Overflow
  {
    var rest := [|r.pps|] + (WriteNals(r.pps) + tail);
    HeaderIsRead(r, tail);
    NalsAreTaken(r.sps, rest, []);
    assert [] + AnnexB(r.sps) == AnnexB(r.sps) && [] + AnnexB(r.pps) == AnnexB(r.pps);
    assert rest[0] == |r.pps| && rest[1..] == WriteNals(r.pps) + tail;
    NalsAreTaken(r.pps, tail, []);
  }

  // ---- and only that ----

  lemma NalIsCut(rest: seq<Byte>) returns (nal: Nal)
    requires |rest| >= 2 && |rest[2..]| >= U16(rest)
    ensures nal == rest[2..][..U16(rest)]
    ensures rest == [|nal| / 256, |nal| % 256] + nal + rest[2..][U16(rest)..]
  {
    nal := rest[2..][..U16(rest)];
    assert [|nal| / 256, |nal| % 256] == rest[..2];
    assert rest[2..] == nal + rest[2..][U16(rest)..];
    assert rest == rest[..2] + rest[2..];
  }

  lemma {:induction false} TakenAreNals(n: nat, rest: seq<Byte>, so: seq<Byte>) returns (nals: seq<Nal>)
    requires TakeNals(n, rest, so).Group?
    ensures |nals| == n && rest == WriteNals(nals) + TakeNals(n, rest, so).rest
    ensures TakeNals(n, rest, so).csd == so + AnnexB(nals)
  {
    if n == 0 {
      nals := [];
    } else {
      var nal := NalIsCut(rest);
      var more := TakenAreNals(n - 1, rest[2..][U16(rest)..], so + START_CODE + nal);
      nals := [nal] + more;
      OneMoreNal(nal, more, TakeNals(n, rest, so).rest, so);
    }
  }

  // Whatever the parser accepts is a record, and what it emits are that record's parameter sets.
  lemma AcceptedIsARecord(data: seq<Byte>) returns (r: Record)
    requires Parse(data).Parsed?
    ensures ValidRecord(r) && data == Encode(r) + Parse(data).rest
    ensures Parse(data).csd == [AnnexB(r.sps), AnnexB(r.pps)]
  {
    var sps := TakenAreNals(data[5] % 32, data[6..], []);
    var rest := TakeNals(data[5] % 32, data[6..], []).rest;
    var pps := TakenAreNals(rest[0], rest[1..], []);
    assert [] + AnnexB(sps) == AnnexB(sps) && [] + AnnexB(pps) == AnnexB(pps);
    r := Record(data[1], data[2], data[3], data[4], data[5] / 32, sps, pps);
    HeaderIsCut(data, r);
    Assembled(data, r, rest, Parse(data).rest);
  }

  lemma Assembled(data: seq<Byte>, r: Record, rest: seq<Byte>, more: seq<Byte>)
    requires ValidRecord(r) && |data| > 6 && rest != []
    requires data[..6] == [1, r.profile, r.compatibility, r.level, r.lengthSize, r.reserved * 32 + |r.sps|]
    requires data[6..] == WriteNals(r.sps) + rest
    requires rest[0] == |r.pps| && rest[1..] == WriteNals(r.pps) + more
    ensures data == Encode(r) + more
  {
  }

  lemma HeaderIsCut(data: seq<Byte>, r: Record)
    requires |data| > 6 && data[0] == 1
    requires r == Record(data[1], data[2], data[3], data[4], data[5] / 32, r.sps, r.pps)
    requires |r.sps| == data[5] % 32
    ensures data == data[..6] + data[6..]
    ensures data[..6]
            == [1, r.profile, r.compatibility, r.level, r.lengthSize, r.reserved * 32 + |r.sps|]
  {
  }

  // ---- the loops ----

  class ABuffer {
    const data: array<Byte>
    var size: nat

    ghost predicate Valid()
      reads this
    {
      size <= data.Length
    }

    ghost function Contents(): seq<Byte>
      requires Valid()
      reads this, data
    {
      data[..size]
    }

    constructor (capacity: nat)
      ensures Valid() && fresh(data) && data.Length == capacity && Contents() == []
    {
      data := new Byte[capacity];
      size := 0;
    }

    // memcpy to the end of the range, then setRange.
    method Append(s: seq<Byte>)
      requires Valid() && size + |s| <= data.Length
      modifies this, data
      ensures Valid() && Contents() == old(Contents()) + s
    {
      for i := 0 to |s|
        invariant size == old(size) && data[..size] == old(Contents())
        invariant data[size..size + i] == s[..i]
      {
        data[size + i] := s[i];
      }
      size := size + |s|;
      assert data[..size] == data[..old(size)] + data[old(size)..size];
    }
  }

  datatype Status = Done | Failed | Overran

  // One group: the pointer and the size move together, so that they always end at the record's end.
  method ConvertGroup(data: seq<Byte>, p: nat, count: nat, buffer: ABuffer) returns (ptr: nat, status: Status)
    requires p <= |data| && buffer.Valid() && buffer.Contents() == [] && buffer.data.Length == CAPACITY
    modifies buffer, buffer.data
    ensures buffer.Valid() && ptr <= |data|
    ensures TakeNals(count, data[p..], [])
            == match status
               case Done => Group(buffer.Contents(), data[ptr..])
               case Failed => GroupCheckFailed
               case Overran => GroupOverflow
  {
    ptr := p;
    var size: nat := |data| - p;
    for i := 0 to count
      invariant ptr + size == |data| && buffer.Valid()
      invariant TakeNals(count, data[p..], []) == TakeNals(count - i, data[ptr..], buffer.Contents())
    {
      if size < 2 {
        return ptr, Failed;
      }
      var length := U16(data[ptr..ptr + 2]);
      NalStarts(data, ptr);
      ptr, size := ptr + 2, size - 2;
      if size < length {
        return ptr, Failed;
      }
      if buffer.size + 4 + length > CAPACITY {
        return ptr, Overran;
      }
      buffer.Append(START_CODE);
      buffer.Append(data[ptr..ptr + length]);
      ptr, size := ptr + length, size - length;
    }
    status := Done;
  }

  lemma NalStarts(data: seq<Byte>, ptr: nat)
    requires ptr + 2 <= |data|
    ensures var length, body := U16(data[ptr..ptr + 2]), data[ptr..][2..];
            length == U16(data[ptr..]) && body == data[ptr + 2..]
            && (length <= |body| ==>
                  body[..length] == data[ptr + 2..ptr + 2 + length]
                  && body[length..] == data[ptr + 2 + length..])
  {
  }

  // makeFormat's AVC branch: the buffers it pushes, and where its pointer stands in the end.
  method MakeCsd(data: seq<Byte>) returns (csd: seq<seq<Byte>>, ptr: nat, status: Status)
    ensures ptr <= |data|
    ensures Parse(data)
            == match status
               case Done => Parsed(csd, data[ptr..])
               case Failed => CheckFailed
               case Overran => Overflow
  {
    csd, ptr := [], 0;
    if |data| < 7 || data[0] != 1 {
      return csd, ptr, Failed;
    }
    var sps := new ABuffer(CAPACITY);
    ptr, status := ConvertGroup(data, 6, data[5] % 32, sps);
    if status != Done {
      return;
    }
    csd := [sps.data[..sps.size]];
    if |data| - ptr < 1 {
      return csd, ptr, Failed;
    }
    assert data[ptr..][1..] == data[ptr + 1..];
    var pps := new ABuffer(CAPACITY);
    ptr, status := ConvertGroup(data, ptr + 1, data[ptr], pps);
    if status == Done {
      csd := csd + [pps.data[..pps.size]];
    }
  }

  // ---- literals ----

  // A start code of four bytes stands before each parameter set, and before nothing else.
  lemma {:induction false} AnnexBInBytes(nal: Nal, more: seq<Nal>)
    ensures AnnexB([]) == [] && AnnexB([nal] + more) == [0, 0, 0, 1] + nal + AnnexB(more)
  {
    assert ([nal] + more)[1..] == more;
  }

  // A record of one set of two bytes and one of one byte.
  lemma {:induction false} RecordInBytes(tail: seq<Byte>)
    ensures Parse([1, 66, 0, 30, 255, 225, 0, 2, 103, 66, 1, 0, 1, 104] + tail)
         == Parsed([[0, 0, 0, 1, 103, 66], [0, 0, 0, 1, 104]], tail)
  {
    var sps: Nal, pps: Nal := [103, 66], [104];
    var r := Record(66, 0, 30, 255, 7, [sps], [pps]);
    ParseEmitsTheSets(r, tail);
    AnnexBInBytes(sps, []);
    AnnexBInBytes(pps, []);
    assert [sps] + [] == [sps] && [pps] + [] == [pps];
    assert AnnexB([sps]) == [0, 0, 0, 1, 103, 66] && AnnexB([pps]) == [0, 0, 0, 1, 104];
    assert [sps][1..] == [] && [pps][1..] == [];
    assert WriteNals([sps]) == [0, 2, 103, 66] && WriteNals([pps]) == [0, 1, 104];
    assert Encode(r) == [1, 66, 0, 30, 255, 225, 0, 2, 103, 66, 1, 0, 1, 104];
  }

  // Fewer than seven bytes and any other version are refused.
  lemma RefusedInBytes(data: seq<Byte>)
    ensures |data| < 7 ==> Parse(data) == CheckFailed
    ensures data != [] && data[0] != 1 ==> Parse(data) == CheckFailed
  {
  }
}
