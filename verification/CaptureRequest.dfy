/** Capture requests in a parcel (camera/camera2/CaptureRequest.cpp) and lists of them
    (camera/camera2/ICameraDeviceUser.cpp, SUBMIT_REQUEST_LIST). */
module CaptureRequests {
  import opened CameraStatus
  import opened Sequences
  import opened Wrappers
  import opened MetadataBuffer
  import opened Parcels
  import opened MetadataParcel

  function Flag(b: bool): Item { Int32(if b then 1 else 0) }

  // A surface is known by the binder of its buffer producer.
  datatype Request = Request(metadata: Option<seq<Entry>>, surfaces: seq<Option<nat>>, isReprocess: bool)

  // ---------------------------------------------------------------------------------------------
  // One request.

  function EncodedSurface(surface: Option<nat>): seq<Item> {
    [Text("android.view.Surface"), Text("unknown_name"), Binder(surface)]
  }

  function EncodedSurfaces(surfaces: seq<Option<nat>>): seq<Item> {
    if surfaces == [] then [] else EncodedSurface(surfaces[0]) + EncodedSurfaces(surfaces[1..])
  }

  function EncodedTail(request: Request): seq<Item> {
    [Int32(ToInt32(|request.surfaces|))] + EncodedSurfaces(request.surfaces)
    + [Flag(request.isReprocess)]
  }

  function EncodedRequest(lib: Library, request: Request, place: Placement): seq<Item>
    requires GoodPlace(lib, place)
  {
    Encoded(lib, request.metadata, place) + EncodedTail(request)
  }

  // The loop over the surfaces: a null class name skips the entry.
  function DecodedSurfaces(count: int, rest: seq<Item>): (seq<Option<nat>>, seq<Item>)
    decreases count
  {
    if count <= 0 then ([], rest)
    else
      var (className, afterClass) := TextOrNull(rest);
      if className.None? then DecodedSurfaces(count - 1, afterClass)
      else
        var (name, afterName) := TextOrNull(afterClass);
        var (binder, afterBinder) := BinderOrNull(afterName);
        var (surfaces, rest') := DecodedSurfaces(count - 1, afterBinder);
        ([binder] + surfaces, rest')
  }

  function DecodedTail(metadata: Option<seq<Entry>>, rest: seq<Item>): Result<(Request, seq<Item>), Status> {
    match TakeInt32(rest)
    case Err(e) => Err(e)
    case Ok((size, afterSize)) =>
      var (surfaces, afterSurfaces) := DecodedSurfaces(size, afterSize);
      match TakeInt32(afterSurfaces)
      case Err(e) => Err(e)
      case Ok((isReprocess, rest')) => Ok((Request(metadata, surfaces, isReprocess != 0), rest'))
  }

  function DecodedRequest(lib: Library, rest: seq<Item>): Result<(Request, seq<Item>), Status> {
    match Decoded(lib, rest)
    case Err(e) => Err(e)
    case Ok((metadata, afterMetadata)) => DecodedTail(metadata, afterMetadata)
  }

  // ---------------------------------------------------------------------------------------------
  // A list of requests, some of them null.

  datatype Submission = Submission(requests: seq<Option<Request>>, repeating: bool)

  function EncodedElement(lib: Library, element: Option<Request>, place: Placement): seq<Item>
    requires GoodPlace(lib, place)
  {
    match element
    case None => [Int32(0)]
    case Some(request) => [Int32(1)] + EncodedRequest(lib, request, place)
  }

  function EncodedList(lib: Library, requests: seq<Option<Request>>, places: seq<Placement>): seq<Item>
    requires |places| == |requests| && forall i :: 0 <= i < |places| ==> GoodPlace(lib, places[i])
    decreases requests
  {
    if requests == [] then []
    else EncodedElement(lib, requests[0], places[0]) + EncodedList(lib, requests[1..], places[1..])
  }

  function EncodedSubmission(lib: Library, s: Submission, places: seq<Placement>): seq<Item>
    requires |places| == |s.requests| && forall i :: 0 <= i < |places| ==> GoodPlace(lib, places[i])
  {
    [Int32(ToInt32(|s.requests|))] + EncodedList(lib, s.requests, places) + [Flag(s.repeating)]
  }

  function DecodedList(lib: Library, count: int, rest: seq<Item>): Result<(seq<Option<Request>>, seq<Item>), Status>
    decreases count
  {
    if count <= 0 then Ok(([], rest))
    else
      var (present, afterFlag) := Int32OrZero(rest);
      if present == 0 then
        match DecodedList(lib, count - 1, afterFlag)
        case Err(e) => Err(e)
        case Ok((requests, rest')) => Ok(([None] + requests, rest'))
      else
        match DecodedRequest(lib, afterFlag)
        case Err(_) => Err(BAD_VALUE)
        case Ok((request, afterRequest)) =>
          match DecodedList(lib, count - 1, afterRequest)
          case Err(e) => Err(e)
          case Ok((requests, rest')) => Ok(([Some(request)] + requests, rest'))
  }

  function DecodedSubmission(lib: Library, rest: seq<Item>): Result<(Submission, seq<Item>), Status> {
    var (count, afterCount) := Int32OrZero(rest);
    DecodedBody(DecodedList(lib, count, afterCount))
  }

  function DecodedBody(list: Result<(seq<Option<Request>>, seq<Item>), Status>)
    : Result<(Submission, seq<Item>), Status>
  {
    match list
    case Err(e) => Err(e)
    case Ok((requests, afterList)) =>
      var (repeating, rest') := Int32OrZero(afterList);
      Ok((Submission(requests, repeating != 0), rest'))
  }

  // ---------------------------------------------------------------------------------------------
  // Round trips.

  lemma SurfaceIsRead(surface: Option<nat>, count: nat, more: seq<Item>)
    ensures var (surfaces, rest) := DecodedSurfaces(count, more);
            DecodedSurfaces(count + 1, EncodedSurface(surface) + more) == ([surface] + surfaces, rest)
  {
  }

  lemma {:induction false} SurfacesRoundTrip(surfaces: seq<Option<nat>>, suffix: seq<Item>)
    ensures DecodedSurfaces(|surfaces|, EncodedSurfaces(surfaces) + suffix) == (surfaces, suffix)
    decreases surfaces
  {
    hide EncodedSurface, TextOrNull, BinderOrNull;
    if surfaces == [] {
      assert EncodedSurfaces(surfaces) + suffix == suffix;
    } else {
      var more := EncodedSurfaces(surfaces[1..]) + suffix;
      SurfacesRoundTrip(surfaces[1..], suffix);
      SurfaceIsRead(surfaces[0], |surfaces| - 1, more);
      Regroup(EncodedSurface(surfaces[0]), EncodedSurfaces(surfaces[1..]), suffix);
      assert surfaces == [surfaces[0]] + surfaces[1..];
    }
  }

  lemma TailRoundTrip(request: Request, suffix: seq<Item>)
    requires |request.surfaces| < INT32_LIMIT
    ensures DecodedTail(request.metadata, EncodedTail(request) + suffix) == Ok((request, suffix))
  {
    var flag := Flag(request.isReprocess);
    var surfaces := EncodedSurfaces(request.surfaces) + ([flag] + suffix);
    assert EncodedTail(request) + suffix == [Int32(ToInt32(|request.surfaces|))] + surfaces;
    SurfacesRoundTrip(request.surfaces, [flag] + suffix);
  }

  // One request comes back exactly when its metadata can be sent.
  lemma RequestRoundTripIff(lib: Library, request: Request, place: Placement, suffix: seq<Item>)
    requires Faithful(lib) && GoodPlace(lib, place) && |request.surfaces| < INT32_LIMIT
    requires Physical(lib, request.metadata)
    ensures var r := DecodedRequest(lib, EncodedRequest(lib, request, place) + suffix);
            if Sendable(lib, request.metadata, place) then r == Ok((request, suffix))
            else r.Ok? ==> r.value.0 != request
  {
    var tail := EncodedTail(request) + suffix;
    assert EncodedRequest(lib, request, place) + suffix == Encoded(lib, request.metadata, place) + tail;
    MetadataRoundTripIff(lib, request.metadata, place, tail);
    if Sendable(lib, request.metadata, place) {
      TailRoundTrip(request, suffix);
    } else {
      UnsentIsNotReceived(lib, request.metadata.value, place, tail);
    }
  }

  predicate ElementSendable(lib: Library, element: Option<Request>, place: Placement) {
    element.Some? ==> Sendable(lib, element.value.metadata, place)
  }

  predicate ListSendable(lib: Library, requests: seq<Option<Request>>, places: seq<Placement>)
    requires |places| == |requests|
    decreases requests
  {
    requests == []
    || (ElementSendable(lib, requests[0], places[0]) && ListSendable(lib, requests[1..], places[1..]))
  }

  predicate Reasonable(lib: Library, requests: seq<Option<Request>>) {
    && |requests| < INT32_LIMIT
    && (forall r <- requests :: r.Some? ==>
          |r.value.surfaces| < INT32_LIMIT && Physical(lib, r.value.metadata))
  }

  ghost predicate GoodPlaces(lib: Library, requests: seq<Option<Request>>, places: seq<Placement>) {
    |places| == |requests| && forall i :: 0 <= i < |places| ==> GoodPlace(lib, places[i])
  }

  // The first element of a list, read in front of everything that follows it.
  lemma {:induction false} ElementRoundTripIff(
    lib: Library, element: Option<Request>, place: Placement, count: nat, more: seq<Item>)
    requires Faithful(lib) && GoodPlace(lib, place) && 0 < count
    requires element.Some? ==> |element.value.surfaces| < INT32_LIMIT && Physical(lib, element.value.metadata)
    ensures var r := DecodedList(lib, count, EncodedElement(lib, element, place) + more);
            var tail := DecodedList(lib, count - 1, more);
            if !ElementSendable(lib, element, place)
            then r.Ok? ==> r.value.0 != [] && r.value.0[0] != element
            else r == (match tail case Err(e) => Err(e) case Ok((requests, rest)) => Ok(([element] + requests, rest)))
  {
    if element.None? {
    } else {
      var body := EncodedRequest(lib, element.value, place) + more;
      assert EncodedElement(lib, element, place) + more == [Int32(1)] + body;
      RequestRoundTripIff(lib, element.value, place, more);
    }
  }

  lemma {:induction false} ListRoundTripIff(
    lib: Library, requests: seq<Option<Request>>, places: seq<Placement>, suffix: seq<Item>)
    requires Faithful(lib) && Reasonable(lib, requests) && GoodPlaces(lib, requests, places)
    ensures var r := DecodedList(lib, |requests|, EncodedList(lib, requests, places) + suffix);
            if ListSendable(lib, requests, places) then r == Ok((requests, suffix))
            else r.Ok? ==> r.value.0 != requests
    decreases requests
  {
    if requests == [] {
      assert EncodedList(lib, requests, places) + suffix == suffix;
    } else {
      var element, place, rest := requests[0], places[0], requests[1..];
      var more := EncodedList(lib, rest, places[1..]) + suffix;
      assert requests == [element] + rest;
      Regroup(EncodedElement(lib, element, place), EncodedList(lib, rest, places[1..]), suffix);
      ElementRoundTripIff(lib, element, place, |requests|, more);
      ListRoundTripIff(lib, rest, places[1..], suffix);
    }
  }

  lemma {:induction false} CountRoundTrip(lib: Library, count: nat, list: seq<Item>)
    requires count < INT32_LIMIT
    ensures DecodedSubmission(lib, [Int32(ToInt32(count))] + list) == DecodedBody(DecodedList(lib, count, list))
  {
  }

  // Any list of optional requests, at any addresses, followed by anything: the service receives the
  // same list and leaves the rest of the parcel, exactly when every metadata blob was granted and is
  // smaller than 2^31 bytes.
  lemma {:induction false} SubmissionRoundTripIff(
    lib: Library, s: Submission, places: seq<Placement>, suffix: seq<Item>)
    requires Faithful(lib) && Reasonable(lib, s.requests) && GoodPlaces(lib, s.requests, places)
    ensures DecodedSubmission(lib, EncodedSubmission(lib, s, places) + suffix) == Ok((s, suffix))
       <==> ListSendable(lib, s.requests, places)
  {
    var flag := Flag(s.repeating);
    var list := EncodedList(lib, s.requests, places) + ([flag] + suffix);
    assert EncodedSubmission(lib, s, places) + suffix == [Int32(ToInt32(|s.requests|))] + list;
    CountRoundTrip(lib, |s.requests|, list);
    ListRoundTripIff(lib, s.requests, places, [flag] + suffix);
  }

  // ---------------------------------------------------------------------------------------------
  // The class, and the two ends of the binder call.

  class CaptureRequest {
    var mMetadata: Option<seq<Entry>>
    var mSurfaceList: seq<Option<nat>>
    var mIsReprocess: bool

    constructor ()
    {
      mMetadata, mSurfaceList, mIsReprocess := None, [], false;
    }

    function View(): Request
      reads this
    {
      Request(mMetadata, mSurfaceList, mIsReprocess)
    }

    method WriteRequest(lib: Library, place: Placement, parcel: Parcel) returns (err: Status)
      requires parcel.Valid() && GoodPlace(lib, place)
      modifies parcel
      ensures parcel.Valid() && parcel.position == old(parcel.position)
      ensures err == OK && parcel.items == old(parcel.items) + EncodedRequest(lib, View(), place)
    {
      err := WriteToParcel(lib, mMetadata, place, parcel);
      if err != OK {
        return;
      }
      ghost var start := parcel.items;
      var size := |mSurfaceList|;
      parcel.Write(Int32(ToInt32(size)));
      WriteSurfaces(mSurfaceList, parcel);
      parcel.Write(Int32(if mIsReprocess then 1 else 0));
      assert parcel.items == start + EncodedTail(View());
      return OK;
    }

    // The loop over mSurfaceList.
    static method WriteSurfaces(surfaces: seq<Option<nat>>, parcel: Parcel)
      requires parcel.Valid()
      modifies parcel
      ensures parcel.Valid() && parcel.position == old(parcel.position)
      ensures parcel.items == old(parcel.items) + EncodedSurfaces(surfaces)
    {
      var i := 0;
      while i < |surfaces|
        invariant i <= |surfaces| && parcel.Valid() && parcel.position == old(parcel.position)
        invariant parcel.items + EncodedSurfaces(surfaces[i..]) == old(parcel.items) + EncodedSurfaces(surfaces)
      {
        ghost var before, more := parcel.items, EncodedSurfaces(surfaces[i + 1..]);
        assert surfaces[i..][1..] == surfaces[i + 1..];
        Regroup(before, EncodedSurface(surfaces[i]), more);
        parcel.Write(Text("android.view.Surface"));
        parcel.Write(Text("unknown_name"));
        parcel.Write(Binder(surfaces[i]));
        assert parcel.items == before + EncodedSurface(surfaces[i]);
        i := i + 1;
      }
    }

    method ReadRequest(lib: Library, parcel: Parcel) returns (err: Status)
      requires parcel.Valid()
      modifies this, parcel`position
      ensures parcel.Valid()
      ensures match DecodedRequest(lib, old(parcel.Rest()))
              case Ok((request, rest)) => err == OK && View() == request && parcel.Rest() == rest
              case Err(e) => err != OK
    {
      mMetadata := None;
      mSurfaceList := [];
      var metadata := ReadFromParcel(lib, parcel);
      if metadata.Err? {
        ErrorsAreErrors(lib, old(parcel.Rest()));
        return metadata.error;
      }
      mMetadata := metadata.value;
      var size := parcel.ReadInt32();
      if size.Err? {
        return size.error;
      }
      mSurfaceList := ReadSurfaces(size.value, parcel);
      var isReprocess := parcel.ReadInt32();
      if isReprocess.Err? {
        return isReprocess.error;
      }
      mIsReprocess := isReprocess.value != 0;
      return OK;
    }

    static method ReadSurfaces(size: int, parcel: Parcel) returns (surfaces: seq<Option<nat>>)
      requires parcel.Valid()
      modifies parcel`position
      ensures parcel.Valid() && (surfaces, parcel.Rest()) == DecodedSurfaces(size, old(parcel.Rest()))
    {
      surfaces := [];
      ghost var whole := DecodedSurfaces(size, parcel.Rest());
      assert whole.0 == [] + whole.0;
      for i := 0 to if size < 0 then 0 else size
        invariant parcel.Valid()
        invariant whole.0 == surfaces + DecodedSurfaces(size - i, parcel.Rest()).0
        invariant whole.1 == DecodedSurfaces(size - i, parcel.Rest()).1
      {
        var className := parcel.ReadString16();
        if className.None? {
          continue;
        }
        var name := parcel.ReadString16();
        var binder := parcel.ReadStrongBinder();
        surfaces := surfaces + [binder];
      }
      assert surfaces + [] == surfaces;
    }
  }

  lemma ErrorsAreErrors(lib: Library, rest: seq<Item>)
    ensures Decoded(lib, rest) != Err(OK)
  {
  }

  function ViewOf(r: CaptureRequest?): Option<Request>
    reads r
  {
    if r == null then None else Some(r.View())
  }

  ghost predicate Matches(list: seq<CaptureRequest?>, requests: seq<Option<Request>>)
    reads list
  {
    |list| == |requests| && forall i :: 0 <= i < |list| ==> requests[i] == ViewOf(list[i])
  }

  // BpCameraDeviceUser::submitRequestList, up to the transaction.
  method SubmitRequestList(lib: Library, list: seq<CaptureRequest?>, ghost requests: seq<Option<Request>>,
                           repeating: bool, places: seq<Placement>, parcel: Parcel)
    returns (err: Status)
    requires parcel.Valid() && Matches(list, requests) && GoodPlaces(lib, requests, places)
    modifies parcel
    ensures parcel.Valid() && parcel.position == old(parcel.position)
    ensures err == OK
    ensures parcel.items == old(parcel.items) + EncodedSubmission(lib, Submission(requests, repeating), places)
  {
    ghost var before, encoded := parcel.items, EncodedList(lib, requests, places);
    parcel.Write(Int32(ToInt32(|list|)));
    err := SubmitRequests(lib, list, requests, places, parcel);
    if err != OK {
      return BAD_VALUE;
    }
    parcel.Write(Int32(if repeating then 1 else 0));
    Sandwich(before, Int32(ToInt32(|list|)), encoded, Flag(repeating));
  }

  lemma Sandwich(before: seq<Item>, first: Item, middle: seq<Item>, last: Item)
    ensures ((before + [first]) + middle) + [last] == before + ([first] + middle + [last])
  {
  }

  // The loop over the requests.
  method SubmitRequests(lib: Library, list: seq<CaptureRequest?>, ghost requests: seq<Option<Request>>,
                        places: seq<Placement>, parcel: Parcel)
    returns (err: Status)
    requires parcel.Valid() && Matches(list, requests) && GoodPlaces(lib, requests, places)
    modifies parcel
    ensures parcel.Valid() && parcel.position == old(parcel.position)
    ensures err == OK && parcel.items == old(parcel.items) + EncodedList(lib, requests, places)
  {
    var i := 0;
    while i < |list|
      invariant i <= |list| && parcel.Valid() && parcel.position == old(parcel.position)
      invariant Matches(list, requests)
      invariant parcel.items + EncodedList(lib, requests[i..], places[i..])
             == old(parcel.items) + EncodedList(lib, requests, places)
    {
      Regroup(parcel.items, EncodedElement(lib, requests[i], places[i]),
              EncodedList(lib, requests[i + 1..], places[i + 1..]));
      err := WriteElement(lib, list[i], places[i], parcel);
      if err != OK {
        return;
      }
      i := i + 1;
    }
    assert parcel.items + [] == parcel.items;
    err := OK;
  }

  method WriteElement(lib: Library, request: CaptureRequest?, place: Placement, parcel: Parcel) returns (err: Status)
    requires parcel.Valid() && GoodPlace(lib, place)
    modifies parcel
    ensures parcel.Valid() && parcel.position == old(parcel.position)
    ensures err == OK && parcel.items == old(parcel.items) + EncodedElement(lib, ViewOf(request), place)
  {
    if request != null {
      parcel.Write(Int32(1));
      err := request.WriteRequest(lib, place, parcel);
    } else {
      parcel.Write(Int32(0));
      err := OK;
    }
  }

  // BnCameraDeviceUser::onTransact, SUBMIT_REQUEST_LIST, up to the call of the service.
  method ReceiveRequestList(lib: Library, parcel: Parcel)
    returns (err: Status, list: seq<CaptureRequest?>, repeating: bool)
    requires parcel.Valid()
    modifies parcel`position
    ensures parcel.Valid()
    ensures match DecodedSubmission(lib, old(parcel.Rest()))
            case Ok((s, rest)) =>
              err == OK && Matches(list, s.requests) && repeating == s.repeating && parcel.Rest() == rest
            case Err(e) => err == BAD_VALUE
  {
    repeating := false;
    var size := parcel.ReadInt32OrZero();
    err, list := ReceiveRequests(lib, size, parcel);
    if err != OK {
      return;
    }
    var flag := parcel.ReadInt32OrZero();
    repeating := flag != 0;
  }

  method ReceiveRequests(lib: Library, size: int, parcel: Parcel) returns (err: Status, list: seq<CaptureRequest?>)
    requires parcel.Valid()
    modifies parcel`position
    ensures parcel.Valid()
    ensures match DecodedList(lib, size, old(parcel.Rest()))
            case Ok((requests, rest)) => err == OK && Matches(list, requests) && parcel.Rest() == rest
            case Err(e) => err == BAD_VALUE && e == BAD_VALUE
  {
    hide DecodedRequest;
    list := [];
    ghost var whole := DecodedList(lib, size, parcel.Rest());
    ghost var requests: seq<Option<Request>> := [];
    PrependedNothing(whole);
    for i := 0 to if size < 0 then 0 else size
      invariant parcel.Valid()
      invariant Matches(list, requests)
      invariant forall r <- list :: r != null ==> fresh(r)
      invariant whole == Prepended(requests, DecodedList(lib, size - i, parcel.Rest()))
    {
      var status, request := ReceiveNext(lib, parcel, size - i, requests, whole);
      if status != OK {
        return BAD_VALUE, list;
      }
      requests := requests + [ViewOf(request)];
      list := list + [request];
    }
    err := OK;
  }

  // One turn of that loop, with n elements still to be read after `requests`.
  method ReceiveNext(lib: Library, parcel: Parcel, ghost n: int, ghost requests: seq<Option<Request>>,
                     ghost whole: Result<(seq<Option<Request>>, seq<Item>), Status>)
    returns (err: Status, request: CaptureRequest?)
    requires parcel.Valid() && n > 0 && whole == Prepended(requests, DecodedList(lib, n, parcel.Rest()))
    modifies parcel`position
    ensures parcel.Valid() && (request != null ==> fresh(request))
    ensures err == OK ==> whole == Prepended(requests + [ViewOf(request)], DecodedList(lib, n - 1, parcel.Rest()))
    ensures err != OK ==> whole == Err(BAD_VALUE)
  {
    ghost var rest := parcel.Rest();
    err, request := ReceiveElement(lib, parcel);
    if err == OK {
      ghost var more := DecodedList(lib, n - 1, parcel.Rest());
      assert DecodedList(lib, n, rest) == Prepended([ViewOf(request)], more);
      PrependedMore(requests, ViewOf(request), more);
    }
  }

  method ReceiveElement(lib: Library, parcel: Parcel) returns (err: Status, request: CaptureRequest?)
    requires parcel.Valid()
    modifies parcel`position
    ensures parcel.Valid() && (request != null ==> fresh(request))
    ensures var (present, rest) := Int32OrZero(old(parcel.Rest()));
            if present == 0 then err == OK && request == null && parcel.Rest() == rest
            else match DecodedRequest(lib, rest)
                 case Ok((r, rest')) => err == OK && ViewOf(request) == Some(r) && parcel.Rest() == rest'
                 case Err(e) => err != OK
  {
    var present := parcel.ReadInt32OrZero();
    if present == 0 {
      return OK, null;
    }
    request := new CaptureRequest();
    err := request.ReadRequest(lib, parcel);
  }

  function Prepended(first: seq<Option<Request>>, list: Result<(seq<Option<Request>>, seq<Item>), Status>)
    : Result<(seq<Option<Request>>, seq<Item>), Status>
  {
    match list
    case Err(e) => Err(e)
    case Ok((requests, rest)) => Ok((first + requests, rest))
  }

  lemma PrependedNothing(list: Result<(seq<Option<Request>>, seq<Item>), Status>)
    ensures Prepended([], list) == list
  {
    if list.Ok? {
      assert [] + list.value.0 == list.value.0;
    }
  }

  lemma PrependedMore(first: seq<Option<Request>>, r: Option<Request>,
                      list: Result<(seq<Option<Request>>, seq<Item>), Status>)
    ensures Prepended(first, Prepended([r], list)) == Prepended(first + [r], list)
  {
    if list.Ok? {
      assert first + ([r] + list.value.0) == (first + [r]) + list.value.0;
    }
  }

  // ---------------------------------------------------------------------------------------------
  // The items, one by one.

  // The metadata, the number of surfaces, class name, name and binder of each, and the reprocess flag.
  lemma {:induction false} RequestInItems(lib: Library, metadata: Option<seq<Entry>>, first: Option<nat>,
                                          second: Option<nat>, reprocess: bool, place: Placement)
    requires GoodPlace(lib, place)
    ensures EncodedRequest(lib, Request(metadata, [first, second], reprocess), place)
         == Encoded(lib, metadata, place)
            + [Int32(2), Text("android.view.Surface"), Text("unknown_name"), Binder(first),
               Text("android.view.Surface"), Text("unknown_name"), Binder(second), Int32(if reprocess then 1 else 0)]
  {
    assert [first, second][1..] == [second] && [second][1..] == [];
    assert EncodedSurfaces([second]) == EncodedSurface(second) + [];
    assert ToInt32(2) == 2;
  }

  // The number of requests, a one before each request and a zero in place of a null one, and the
  // repeating flag.
  lemma {:induction false} SubmissionInItems(lib: Library, request: Request, repeating: bool, a: Placement,
                                             b: Placement)
    requires GoodPlace(lib, a) && GoodPlace(lib, b)
    ensures EncodedSubmission(lib, Submission([Some(request), None], repeating), [a, b])
         == [Int32(2), Int32(1)] + EncodedRequest(lib, request, a)
            + [Int32(0), Int32(if repeating then 1 else 0)]
  {
    hide EncodedRequest;
    var requests: seq<Option<Request>>, places := [Some(request), None], [a, b];
    assert requests[1..] == [None] && places[1..] == [b] && requests[1..][1..] == [];
    assert EncodedList(lib, [None], [b]) == [Int32(0)] + [];
    assert ToInt32(2) == 2;
    var body := EncodedRequest(lib, request, a);
    assert EncodedElement(lib, requests[0], a) == [Int32(1)] + body;
    assert EncodedList(lib, requests, places) == ([Int32(1)] + body) + [Int32(0)];
  }

  // An entry whose class name is null is skipped, and a surface whose binder is null is kept as such.
  lemma {:induction false} SkippedSurface(name: string, title: string, binder: Option<nat>, more: seq<Item>)
    ensures DecodedSurfaces(2, [NullText, Text(name), Text(title), Binder(binder)] + more) == ([binder], more)
  {
    var items := [NullText, Text(name), Text(title), Binder(binder)] + more;
    assert items[1..] == [Text(name), Text(title), Binder(binder)] + more;
    assert items[1..][1..] == [Text(title), Binder(binder)] + more;
    assert items[1..][1..][1..] == [Binder(binder)] + more;
    assert items[1..][1..][1..][1..] == more;
    var none: seq<Option<nat>> := [];
    assert DecodedSurfaces(0, more) == (none, more) && [binder] + none == [binder];
    assert DecodedSurfaces(1, items[1..]) == ([binder], more);
  }

  // A request that cannot be read makes the whole list BAD_VALUE.
  lemma {:induction false} BadListIsRefused(lib: Library, count: int, present: int, rest: seq<Item>)
    requires count > 0 && present != 0 && DecodedRequest(lib, rest).Err?
    ensures DecodedSubmission(lib, [Int32(count), Int32(present)] + rest) == Err(BAD_VALUE)
    ensures DecodedSubmission(lib, []) == Ok((Submission([], false), []))
  {
    var items := [Int32(count), Int32(present)] + rest;
    assert items[1..] == [Int32(present)] + rest && items[1..][1..] == rest;
  }
}
