/** The request-side logic of the device endpoints: the state-string tables,
    the case-insensitive parse with its error response, the defaults of the
    list endpoint and the shape of its response. Routing, HTTP result objects
    and the framework are not modelled. */
module DeviceEndpoints {
  import opened Wrappers
  import opened Devices
  import opened DevicesCommandHandler
  import opened DevicesQueries
  import opened DevicesQueriesPaging

  /** `statesMap`, in declaration order, which is also the order in which its
      keys are enumerated. */
  const StatesMap: seq<(string, StateType)> :=
    [("available", Available), ("in-use", InUse), ("inactive", Inactive)]

  /** `statesUnmap`: every state has an entry, and it agrees with `statesMap`. */
  function Unmap(s: StateType): (k: string)
    ensures (k, s) in StatesMap
  {
    match s
    case Available => "available"
    case InUse => "in-use"
    case Inactive => "inactive"
  }

  /** `char.ToLowerInvariant`, over ASCII letters. */
  function LowerChar(c: char): (r: char)
    ensures !('A' <= r <= 'Z')
    ensures 'A' <= c <= 'Z' ==> r as int == c as int + 32
    ensures !('A' <= c <= 'Z') ==> r == c
  {
    if 'A' <= c <= 'Z' then (c as int + 32) as char else c
  }

  /** `string.ToLowerInvariant`, character by character. */
  function ToLowerInvariant(s: string): (r: string)
    ensures |r| == |s|
    ensures forall i :: 0 <= i < |s| ==> r[i] == LowerChar(s[i])
  {
    if s == [] then [] else [LowerChar(s[0])] + ToLowerInvariant(s[1..])
  }

  /** Lowering twice is lowering once. */
  lemma ToLowerInvariantIdempotent(s: string)
    ensures ToLowerInvariant(ToLowerInvariant(s)) == ToLowerInvariant(s)
  {
  }

  /** `Dictionary.TryGetValue`: the value stored under `key`, if any. */
  function Lookup(table: seq<(string, StateType)>, key: string): (r: Option<StateType>)
    ensures r.Some? <==> exists i :: 0 <= i < |table| && table[i].0 == key
    ensures r.Some? ==> (key, r.value) in table
  {
    if table == [] then None
    else if table[0].0 == key then Some(table[0].1)
    else
      var r := Lookup(table[1..], key);
      assert forall i :: 1 <= i < |table| ==> table[i] == table[1..][i - 1];
      assert r.Some? ==> (key, r.value) in table[1..];
      r
  }

  /** The table finds `s` under `key` exactly when `key` is the string of `s`. */
  lemma StatesMapLookup(key: string, s: StateType)
    ensures Lookup(StatesMap, key) == Some(s) <==> key == Unmap(s)
  {
    if Lookup(StatesMap, key) == Some(s) {
      assert (key, s) in StatesMap;
    }
    if key == Unmap(s) {
      assert StatesMap[0].0 == Unmap(Available);
      assert StatesMap[1].0 == Unmap(InUse);
      assert StatesMap[2].0 == Unmap(Inactive);
    }
  }

  /** `statesMap.TryGetValue(input.ToLowerInvariant(), out state)`. Parsing
      ignores case: `input` names `s` exactly when its lower-case form is the
      table key of `s`. */
  function Parse(input: string): (r: Option<StateType>)
    ensures forall s :: r == Some(s) <==> ToLowerInvariant(input) == Unmap(s)
  {
    var key := ToLowerInvariant(input);
    assert forall s :: Lookup(StatesMap, key) == Some(s) <==> key == Unmap(s) by {
      forall s ensures Lookup(StatesMap, key) == Some(s) <==> key == Unmap(s) {
        StatesMapLookup(key, s);
      }
    }
    Lookup(StatesMap, key)
  }

  /** Every state survives printing and parsing back. */
  lemma ParseUnmap(s: StateType)
    ensures Parse(Unmap(s)) == Some(s)
  {
    var k := Unmap(s);
    assert ToLowerInvariant(k) == k by {
      forall i | 0 <= i < |k| ensures LowerChar(k[i]) == k[i] {
      }
    }
  }

  /** Every key of the table survives parsing and printing back. */
  lemma UnmapParse(i: nat)
    requires i < |StatesMap|
    ensures Parse(StatesMap[i].0).Some?
    ensures Unmap(Parse(StatesMap[i].0).value) == StatesMap[i].0
  {
    var s := StatesMap[i].1;
    assert StatesMap[i].0 == Unmap(s) by {
      if i == 0 { assert s == Available; }
      else if i == 1 { assert s == InUse; }
      else { assert s == Inactive; }
    }
    ParseUnmap(s);
  }

  /** Distinct states print differently. */
  lemma UnmapInjective(a: StateType, b: StateType)
    ensures Unmap(a) == Unmap(b) <==> a == b
  {
  }

  /** The keys of a table, in order. */
  function Keys(table: seq<(string, StateType)>): (r: seq<string>)
    ensures |r| == |table|
    ensures forall i :: 0 <= i < |table| ==> r[i] == table[i].0
  {
    if table == [] then [] else [table[0].0] + Keys(table[1..])
  }

  /** `string.Join(separator, items)`: the items in order, one separator
      between each neighbouring pair and none at either end. */
  function Join(items: seq<string>, separator: string): (r: string)
    ensures items == [] ==> r == ""
    ensures |items| == 1 ==> r == items[0]
    ensures |items| >= 2 ==> items[0] + separator <= r
  {
    if items == [] then ""
    else if |items| == 1 then items[0]
    else items[0] + separator + Join(items[1..], separator)
  }

  /** A join of at least one item ends with the last item. */
  lemma {:induction false} JoinEndsWithLast(items: seq<string>, separator: string)
    requires items != []
    ensures var r := Join(items, separator);
            var last := items[|items| - 1];
            |last| <= |r| && r[|r| - |last|..] == last
    decreases |items|
  {
    if |items| > 1 {
      var rest := items[1..];
      JoinEndsWithLast(rest, separator);
      var tail := Join(rest, separator);
      var r := Join(items, separator);
      assert r == (items[0] + separator) + tail;
      assert items[|items| - 1] == rest[|rest| - 1];
      assert r[|r| - |tail|..] == tail;
    }
  }

  /** A problem response: `Results.Problem(title, detail, statusCode)`. */
  datatype Problem = Problem(title: string, detail: string, statusCode: int)

  const BadRequest: int := 400

  /** The response to a state string the table does not know; the input is
      quoted as it was given, not lowered. */
  function InvalidState(input: string): (p: Problem)
    ensures p.statusCode == BadRequest
    ensures p.title == "Invalid state"
  {
    Problem("Invalid state",
            "Invalid device state: '" + input + "'. Use: " + Join(Keys(StatesMap), ", "),
            BadRequest)
  }

  /** The valid keys, as the error detail lists them: in table order. */
  lemma JoinedStateKeys()
    ensures Join(Keys(StatesMap), ", ") == "available, in-use, inactive"
  {
    assert Keys(StatesMap) == ["available", "in-use", "inactive"];
    JoinThree("available", "in-use", "inactive", ", ");
    StateKeysLiteral();
  }

  lemma JoinThree(a: string, b: string, c: string, separator: string)
    ensures Join([a, b, c], separator) == a + separator + (b + separator + c)
  {
    assert [b, c][1..] == [c];
    assert Join([b, c], separator) == b + separator + Join([c], separator);
    assert [a, b, c][1..] == [b, c];
    assert Join([a, b, c], separator) == a + separator + Join([b, c], separator);
  }

  lemma StateKeysLiteral()
    ensures "available" + ", " + ("in-use" + ", " + "inactive") == "available, in-use, inactive"
  {
    var joined := "available" + ", " + ("in-use" + ", " + "inactive");
    var t := "available, in-use, inactive";
    assert |joined| == |t|;
    forall i | 0 <= i < |joined| ensures joined[i] == t[i] {
    }
  }

  /** The detail quotes the input and then lists the three keys. */
  lemma InvalidStateDetail(input: string)
    ensures InvalidState(input).detail
            == "Invalid device state: '" + input + "'. Use: " + "available, in-use, inactive"
  {
    JoinedStateKeys();
  }

  /** The optional `state` parameter of the create, update and list endpoints:
      absent gives no state, a known string its state, anything else a 400. */
  function ParseStateParameter(raw: Option<string>): (r: Result<Option<StateType>, Problem>)
    ensures raw.None? ==> r == Success(None)
    ensures raw.Some? && r.Success? ==>
              r.value.Some? && ToLowerInvariant(raw.value) == Unmap(r.value.value)
    ensures raw.Some? ==>
              (r.Failure? <==> forall s: StateType :: ToLowerInvariant(raw.value) != Unmap(s))
    ensures r.Failure? ==> raw.Some? && r.error == InvalidState(raw.value)
  {
    match raw
    case None => Success(None)
    case Some(input) =>
      match Parse(input)
      case Some(s) => Success(Some(s))
      case None => Failure(InvalidState(input))
  }

  // ------------------------------------------------------------------ create

  datatype CreateDeviceRequest = CreateDeviceRequest(
    name: Option<string>,
    brand: Option<string>,
    state: Option<string>)

  /** `POST /devices`: parse the state, then hand the command to the create
      handler. `newId` and `now` stand for the id generator and the clock. */
  function PostDevice(store: Store, request: CreateDeviceRequest, newId: Guid, now: Timestamp)
    : (r: Result<Created, Problem>)
    requires newId !in store
    ensures r.Failure? <==> ParseStateParameter(request.state).Failure?
    ensures r.Failure? ==> r.error == InvalidState(request.state.value)
    ensures r.Success? ==> r.value.id == newId && r.value.store.Keys == store.Keys + {newId}
    ensures r.Success? ==> forall k :: k in store ==> r.value.store[k] == store[k]
    ensures r.Success? ==>
              var d := r.value.store[r.value.id];
              && d.name == request.name && d.brand == request.brand && d.state == Available
              && d.creationTime == now && d.id == newId
  {
    match ParseStateParameter(request.state)
    case Failure(p) => Failure(p)
    case Success(state) =>
      Success(HandleCreate(store, CreateDeviceCommand(request.name, request.brand, state), newId, now))
  }

  /** Creating with state "In-Use" is accepted, yet the stored device is
      available, because the handler does not forward the state. */
  lemma PostInUseStoresAvailable(store: Store, newId: Guid, now: Timestamp)
    requires newId !in store
    ensures var r := PostDevice(store, CreateDeviceRequest(Some("Test name"), Some("Test brand"), Some("In-Use")), newId, now);
            r.Success? && r.value.store[newId].state == Available
  {
    MixedCaseParses();
  }

  /** A mixed-case spelling of a key is accepted. */
  lemma MixedCaseParses()
    ensures Parse("In-Use") == Some(InUse)
  {
    var lowered := ToLowerInvariant("In-Use");
    assert |lowered| == 6;
    assert lowered[0] == 'i' && lowered[1] == 'n' && lowered[2] == '-';
    assert lowered[3] == 'u' && lowered[4] == 's' && lowered[5] == 'e';
    assert lowered == "in-use";
  }

  /** "unknown" is not a key of the table in any casing. */
  lemma UnknownIsNotAState(input: string)
    requires ToLowerInvariant(input) == "unknown"
    ensures Parse(input) == None
  {
    var lowered := ToLowerInvariant(input);
    forall s: StateType ensures lowered != Unmap(s) {
      assert Unmap(s)[0] != lowered[0];
    }
  }

  /** Creating with an unknown state is a 400 quoting the input, and nothing is stored. */
  lemma PostUnknownStateIsRejected(store: Store, newId: Guid, now: Timestamp)
    requires newId !in store
    ensures var r := PostDevice(store, CreateDeviceRequest(None, None, Some("unknown")), newId, now);
            && r == Failure(InvalidState("unknown"))
            && r.error.statusCode == BadRequest
            && r.error.detail
               == "Invalid device state: '" + "unknown" + "'. Use: " + "available, in-use, inactive"
  {
    var lowered := ToLowerInvariant("unknown");
    assert |lowered| == 7 && lowered[0] == 'u' && lowered[1] == 'n' && lowered[2] == 'k';
    assert lowered[3] == 'n' && lowered[4] == 'o' && lowered[5] == 'w' && lowered[6] == 'n';
    assert lowered == "unknown";
    UnknownIsNotAState("unknown");
    InvalidStateDetail("unknown");
  }

  // ------------------------------------------------------------------ update

  datatype UpdateDeviceRequest = UpdateDeviceRequest(
    name: Option<string>,
    brand: Option<string>,
    state: Option<string>)

  datatype UpdateDeviceCommand = UpdateDeviceCommand(
    id: Guid,
    name: Option<string>,
    brand: Option<string>,
    state: Option<StateType>)

  /** `PUT /devices/{id}` up to the point where it calls the update handler:
      the command it builds, or the 400 for a bad state. */
  function ToUpdateCommand(id: Guid, request: UpdateDeviceRequest): (r: Result<UpdateDeviceCommand, Problem>)
    ensures r.Failure? <==> ParseStateParameter(request.state).Failure?
    ensures r.Failure? ==> request.state.Some? && r.error == InvalidState(request.state.value)
    ensures r.Success? ==>
              && r.value.id == id && r.value.name == request.name && r.value.brand == request.brand
              && (request.state.None? <==> r.value.state.None?)
              && (request.state.Some? ==> Parse(request.state.value) == r.value.state)
  {
    match ParseStateParameter(request.state)
    case Failure(p) => Failure(p)
    case Success(state) => Success(UpdateDeviceCommand(id, request.name, request.brand, state))
  }

  // -------------------------------------------------------------------- list

  const DefaultPage: int := 1
  /** `maxPageSize`, used only as the default page size. */
  const MaxPageSize: int := 50

  datatype GetDevicesQuery = GetDevicesQuery(
    page: int,
    pageSize: int,
    brand: Option<string>,
    state: Option<StateType>)

  /** `GET /devices` up to the point where it calls the list handler. */
  function ToGetDevicesQuery(page: Option<int>, pageSize: Option<int>,
                             brand: Option<string>, state: Option<string>)
    : (r: Result<GetDevicesQuery, Problem>)
    ensures r.Failure? <==> ParseStateParameter(state).Failure?
    ensures r.Success? ==>
              && (page.None? ==> r.value.page == 1)
              && (page.Some? ==> r.value.page == page.value)
              && (pageSize.None? ==> r.value.pageSize == 50)
              && (pageSize.Some? ==> r.value.pageSize == pageSize.value)
              && r.value.brand == brand
              && (state.None? ==> r.value.state.None?)
              && (state.Some? ==> r.value.state == Parse(state.value))
    ensures r.Failure? ==> state.Some? && r.error == InvalidState(state.value)
  {
    match ParseStateParameter(state)
    case Failure(p) => Failure(p)
    case Success(s) =>
      Success(GetDevicesQuery(page.GetOr(DefaultPage), pageSize.GetOr(MaxPageSize), brand, s))
  }

  /** `DeviceSummary`, with the state as its table string. */
  datatype DeviceSummary = DeviceSummary(
    id: Guid,
    name: Option<string>,
    brand: Option<string>,
    state: string,
    creationTime: Timestamp)

  /** The summary of a device, as `GET /devices/{id}` and `GET /devices` send it. */
  function Summarize(d: Device): (r: DeviceSummary)
    ensures r.id == d.id && r.name == d.name && r.brand == d.brand
    ensures r.creationTime == d.creationTime
    ensures (r.state, d.state) in StatesMap
    ensures Parse(r.state) == Some(d.state)
  {
    ParseUnmap(d.state);
    DeviceSummary(d.id, d.name, d.brand, Unmap(d.state), d.creationTime)
  }

  datatype PagedResponse = PagedResponse(items: seq<DeviceSummary>, totalCount: int)

  /** The list response for a page of devices. */
  function ToPagedResponse(devices: seq<Device>): (r: PagedResponse)
    ensures |r.items| == |devices|
    ensures forall i :: 0 <= i < |devices| ==> r.items[i] == Summarize(devices[i])
    ensures r.totalCount == |devices|
  {
    var items := seq(|devices|, i requires 0 <= i < |devices| => Summarize(devices[i]));
    PagedResponse(items, |items|)
  }

  /** `TotalCount` counts the devices on the page, not the matches: with more
      matches than fit on the first page, it is the page size. */
  lemma TotalCountCountsThePage(rows: seq<Device>, pageSize: int,
                                brand: Option<string>, state: Option<StateType>)
    requires 0 <= pageSize < |Filter(rows, brand, state)|
    ensures ToPagedResponse(GetAll(rows, 1, pageSize, brand, state)).totalCount == pageSize
  {
    var matches := Filter(rows, brand, state);
    var sorted := SortNewestFirst(matches);
    assert |sorted| == |multiset(sorted)| == |multiset(matches)| == |matches|;
    var _, _ := GetAllIsPageSlice(rows, 1, pageSize, brand, state);
    assert SkipCount(1, pageSize) == 0;
  }
}
