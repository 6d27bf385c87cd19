/** The classes CameraParameters2 and CameraParameters, and the typed getters and setters both have. */
module CameraParameterClasses {
  import opened CameraStatus
  import opened Numbers
  import opened Parameters
  import opened Sizes
  import opened Wrappers

  import SortedParameters

  // getInt on the text of a value.
  function AsInt(text: Option<string>): int {
    match text
    case None => -1
    case Some(v) => ToInt(Strtol(v, 0).0)
  }

  // The size getters: -1 and -1 when there is no value or it does not parse.
  function AsPair(text: Option<string>, delim: char): (int, int) {
    match text
    case None => (-1, -1)
    case Some(v) =>
      match ParsePair(v, delim)
      case None => (-1, -1)
      case Some((first, second, _)) => (first, second)
  }

  // getInt answers -1 for a missing value, and zero for one that holds no number.
  lemma {:induction false} IntInFields(text: string)
    requires text == "" || (DigitOf(text[0]) >= 10 && !Numbers.IsSpace(text[0]) && text[0] != '-' && text[0] != '+')
    ensures AsInt(None) == -1 && AsInt(Some(text)) == 0
  {
  }

  // The size getters answer -1 and -1 for a missing value, for one without the delimiter, and for one with
  // anything but a number before it. Missing numbers are zeros.
  lemma {:induction false} PairInFields(front: string, delim: char, after: string)
    requires IsDelimiter(delim) && delim !in front
    ensures AsPair(None, delim) == (-1, -1) && AsPair(Some(front), delim) == (-1, -1)
    ensures front != "" && !IsNumeral(front) ==> AsPair(Some(front + [delim] + after), delim) == (-1, -1)
    ensures front == "" ==> AsPair(Some(front + [delim] + after), delim).0 == 0
    ensures (front == "" || IsNumeral(front)) && !StartsWithNumber(after) ==>
              AsPair(Some(front + [delim] + after), delim).1 == 0
  {
    NoDelimiterIsRefused(front, delim);
    PairAcceptedIff(front, delim, after);
    if front == "" || IsNumeral(front) {
      MissingNumbersAreZero(front, delim, after);
    }
  }

  predicate GoodKey(key: string) { '=' !in key && ';' !in key }

  lemma IntIsAccepted(key: string, n: int)
    requires GoodKey(key)
    ensures Accepted(key, PrintInt(n)) && PrintInt(n) != ""
  {
    if '=' in PrintInt(n) {
      PrintIntCharacters(n, '=');
    }
    if ';' in PrintInt(n) {
      PrintIntCharacters(n, ';');
    }
  }

  lemma PairIsAccepted(key: string, first: int, second: int, delim: char)
    requires GoodKey(key) && (delim == 'x' || delim == ',')
    ensures Accepted(key, PrintPair(first, second, delim)) && PrintPair(first, second, delim) != ""
  {
    IntIsAccepted(key, first);
    IntIsAccepted(key, second);
  }

  lemma PairReadsBack(first: int, second: int, delim: char)
    requires IsInt(first) && IsInt(second) && (delim == 'x' || delim == ',')
    ensures AsPair(Some(PrintPair(first, second, delim)), delim) == (first, second)
  {
    PairRoundTrip(first, second, delim, "");
    assert PrintPair(first, second, delim) + "" == PrintPair(first, second, delim);
  }

  // set(key, int) then getInt(key), in both classes.
  lemma IntRoundTrip(p: Params, q: Params, key: string, n: int)
    requires GoodKey(key) && IsInt(n) && DistinctKeys(p) && SortedParameters.Sorted(q)
    ensures AsInt(Get(Set(p, key, PrintInt(n)), key)) == n
    ensures AsInt(SortedParameters.Text(SortedParameters.Store(q, key, PrintInt(n)), key)) == n
  {
    var x := Pair(key, PrintInt(n));
    IntIsAccepted(key, n);
    StrtolGuessesTen(n);
    SortedParameters.GetAfterSet(p, x, key);
    SortedParameters.GetAfterPut(q, x, key);
  }

  // A size or a range set under a key is what the getter answers, in both classes.
  lemma PairRoundTrips(p: Params, q: Params, key: string, first: int, second: int, delim: char)
    requires GoodKey(key) && IsInt(first) && IsInt(second) && (delim == 'x' || delim == ',')
    requires DistinctKeys(p) && SortedParameters.Sorted(q)
    ensures AsPair(Get(Set(p, key, PrintPair(first, second, delim)), key), delim) == (first, second)
    ensures AsPair(SortedParameters.Text(SortedParameters.Store(q, key, PrintPair(first, second, delim)), key),
                   delim)
            == (first, second)
  {
    var x := Pair(key, PrintPair(first, second, delim));
    PairIsAccepted(key, first, second, delim);
    PairReadsBack(first, second, delim);
    SortedParameters.GetAfterSet(p, x, key);
    SortedParameters.GetAfterPut(q, x, key);
  }

  // flatten of either class: the loop over the pairs.
  method FlattenPairs(p: Params) returns (flattened: string)
    ensures flattened == Flatten(p)
  {
    flattened := "";
    for i := 0 to |p|
      invariant flattened + Flatten(p[i..]) == Flatten(p)
    {
      FlattenFrom(p, i);
      flattened := flattened + p[i].key + "=" + p[i].value;
      if i != |p| - 1 {
        flattened := flattened + ";";
      }
    }
  }

  lemma FlattenFrom(p: Params, i: nat)
    requires i < |p|
    ensures Flatten(p[i..])
            == p[i].key + "=" + p[i].value + if i == |p| - 1 then "" else ";" + Flatten(p[i + 1..])
    ensures i == |p| - 1 ==> Flatten(p[i + 1..]) == ""
  {
    assert p[i..][1..] == p[i + 1..];
  }

  // The two searches of one turn of unflatten's loop.
  method ParseItemAt(a: string) returns (r: Parsed)
    ensures r == Parse(a)
  {
    hide Find;
    var b := Find(a, '=');
    if b == |a| {
      return NoItem;
    }
    var rest := a[b + 1..];
    var e := Find(rest, ';');
    if e == |rest| {
      return LastItem(Pair(a[..b], rest));
    }
    return NextItem(Pair(a[..b], rest[..e]), rest[e + 1..]);
  }

  lemma Append(list: Params, x: Pair, rest: Params)
    ensures list + ([x] + rest) == list + [x] + rest
  {
  }

  class CameraParameters2 {
    var list: Params

    constructor ()
      ensures list == []
    {
      list := [];
    }

    method ToText() returns (flattened: string)
      ensures flattened == Flatten(list)
    {
      flattened := FlattenPairs(list);
    }

    method FromText(params: string)
      modifies this
      ensures list == Unflatten(params)
    {
      list := [];
      var a := params;
      while true
        invariant list + Unflatten(a) == Unflatten(params)
        decreases |a|
      {
        var turn := ParseItemAt(a);
        if turn.NoItem? {
          break;
        }
        if turn.NextItem? {
          Append(list, turn.item, Unflatten(turn.rest));
        }
        list := list + [turn.item];
        if turn.LastItem? {
          break;
        }
        a := turn.rest;
      }
    }

    method IndexOfKey(key: string) returns (i: nat)
      ensures i == Index(list, key)
    {
      i := 0;
      while i < |list|
        invariant i <= |list| && Index(list, key) == i + Index(list[i..], key)
      {
        if list[i].key == key {
          return;
        }
        assert list[i..][1..] == list[i + 1..];
        i := i + 1;
      }
    }

    method RemoveItem(key: string)
      modifies this
      ensures list == Remove(old(list), key)
    {
      var i := IndexOfKey(key);
      if i < |list| {
        list := list[..i] + list[i + 1..];
      }
    }

    method SetText(key: string, value: string)
      modifies this
      ensures list == Set(old(list), key, value)
    {
      if '=' in key || ';' in key {
        return;
      }
      if '=' in value || ';' in value {
        return;
      }
      RemoveItem(key);
      list := list + [Pair(key, value)];
    }

    method GetText(key: string) returns (r: Option<string>)
      ensures r == Get(list, key)
    {
      var i := IndexOfKey(key);
      r := if i == |list| then None else Some(list[i].value);
    }

    // None stands for a null key.
    method CompareOrder(key1: Option<string>, key2: Option<string>) returns (r: Result<int, Status>)
      ensures r == if key1.None? || key2.None? then Err(BAD_VALUE)
                   else CompareSetOrder(list, key1.value, key2.value)
    {
      if key1.None? || key2.None? {
        return Err(BAD_VALUE);
      }
      var i := IndexOfKey(key1.value);
      var j := IndexOfKey(key2.value);
      if i == |list| || j == |list| {
        return Err(NAME_NOT_FOUND);
      }
      return Ok(if i == j then 0 else if i < j then -1 else 1);
    }

    method SetInt(key: string, value: int)
      modifies this
      ensures list == Set(old(list), key, PrintInt(value))
      ensures GoodKey(key) && IsInt(value) && old(DistinctKeys(list)) ==> AsInt(Get(list, key)) == value
    {
      if GoodKey(key) && IsInt(value) && DistinctKeys(list) {
        IntRoundTrip(list, [], key, value);
      }
      SetText(key, PrintInt(value));
    }

    method GetInt(key: string) returns (n: int)
      ensures n == AsInt(Get(list, key))
    {
      var v := GetText(key);
      if v.None? {
        return -1;
      }
      return ToInt(Strtol(v.value, 0).0);
    }
  }

  class CameraParameters {
    var pairs: Params

    ghost predicate Valid()
      reads this
    {
      SortedParameters.Sorted(pairs) && AllClean(pairs)
    }

    constructor ()
      ensures Valid() && pairs == []
    {
      pairs := [];
    }

    method ToText() returns (flattened: string)
      requires Valid()
      ensures flattened == Flatten(pairs) && SortedParameters.Read(flattened) == pairs
    {
      SortedParameters.RoundTripIff(pairs);
      flattened := FlattenPairs(pairs);
    }

    method FromText(params: string)
      modifies this
      ensures Valid() && pairs == SortedParameters.Read(params)
    {
      SortedParameters.ReadIsSortedAndClean(params);
      pairs := [];
      var a := params;
      while true
        invariant SortedParameters.PutAll(pairs, Unflatten(a)) == SortedParameters.Read(params)
        decreases |a|
      {
        var turn := ParseItemAt(a);
        if turn.NoItem? {
          break;
        }
        pairs := SortedParameters.Put(pairs, turn.item);
        if turn.LastItem? {
          break;
        }
        a := turn.rest;
      }
    }

    method SetText(key: string, value: string)
      requires Valid()
      modifies this
      ensures Valid() && pairs == SortedParameters.Store(old(pairs), key, value)
    {
      if '=' in key || ';' in key || '=' in value || ';' in value {
        return;
      }
      SortedParameters.PutKeepsSorted(pairs, Pair(key, value));
      SortedParameters.PutKeepsClean(pairs, Pair(key, value));
      pairs := SortedParameters.Put(pairs, Pair(key, value));
    }

    method RemoveItem(key: string)
      requires Valid()
      modifies this
      ensures Valid() && pairs == Remove(old(pairs), key)
    {
      var i := Index(pairs, key);
      if i < |pairs| {
        pairs := pairs[..i] + pairs[i + 1..];
      }
    }

    method GetText(key: string) returns (r: Option<string>)
      ensures r == SortedParameters.Text(pairs, key)
    {
      var i := Index(pairs, key);
      var v := if i < |pairs| then pairs[i].value else "";
      r := if |v| == 0 then None else Some(v);
    }

    method GetInt(key: string) returns (n: int)
      ensures n == AsInt(SortedParameters.Text(pairs, key))
    {
      var v := GetText(key);
      if v.None? {
        return -1;
      }
      return ToInt(Strtol(v.value, 0).0);
    }

    // setPreviewSize, setVideoSize and setPictureSize, each under its own key.
    method SetSize(key: string, width: int, height: int)
      requires Valid() && GoodKey(key) && IsInt(width) && IsInt(height)
      modifies this
      ensures Valid() && pairs == SortedParameters.Store(old(pairs), key, PrintPair(width, height, 'x'))
      ensures AsPair(SortedParameters.Text(pairs, key), 'x') == (width, height)
    {
      PairRoundTrips([], pairs, key, width, height, 'x');
      SetText(key, PrintPair(width, height, 'x'));
    }

    method GetSize(key: string) returns (width: int, height: int)
      ensures (width, height) == AsPair(SortedParameters.Text(pairs, key), 'x')
    {
      width, height := -1, -1;
      var p := GetText(key);
      if p.None? {
        return;
      }
      var pair := ParsePairAt(p.value, 'x');
      if pair.Some? {
        width, height := pair.value.0, pair.value.1;
      }
    }
  }
}
