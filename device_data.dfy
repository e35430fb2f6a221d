/**
  Record shapes of the device payload returned by the backend's login
  endpoint (src/interfaces/DeviceData.ts), with the nullable fields the
  player code tests made explicit as `Option`s.
 */
module DeviceData {

  datatype Option<+T> = None | Some(value: T)

  /** Instants in milliseconds; the parsing of date strings is not modelled. */
  type Timestamp = int

  /** The bytes `res.blob()` yields for one media file. */
  datatype Blob = Blob(bytes: seq<bv8>)

  /** One playable entry of the device's content list (`MultimediaContent`). */
  datatype MultimediaContent = MultimediaContent(
    localUrl: Option<string>,
    idDeviceContent: int,
    idContent: nat,
    content: string,
    urlContent: string,
    playBeginningDate: Option<Timestamp>,
    playEndDate: Option<Timestamp>,
    positionInCarousel: Option<int>,
    hour: Option<int>,
    minute: Option<int>,
    seconds: Option<int>,
    rotation: Option<int>)

  /** The device description (`Summary`); `deviceType` is the source's `type`. */
  datatype Summary = Summary(
    id: int,
    password: string,
    description: string,
    organization: string,
    businessUnity: string,
    area: string,
    deviceType: string)

  /** `response.data` of a login call: either part may be missing. */
  datatype LoginResponse = LoginResponse(
    summary: Option<Summary>,
    content: Option<seq<MultimediaContent>>)

  /** One `await login(password)`: it throws, or resolves to data that may be null. */
  datatype LoginOutcome = LoginThrew | LoginReturned(data: Option<LoginResponse>)

  /** JavaScript `x || d` on a nullable number: null, undefined and 0 are falsy. */
  function OrDefault(x: Option<int>, d: int): (r: int)
    ensures x.None? || x == Some(0) ==> r == d
    ensures x.Some? && x.value != 0 ==> r == x.value
  {
    if x.None? || x.value == 0 then d else x.value
  }

  /** JavaScript `x ?? d` on a nullable number: only null and undefined give way. */
  function NullishDefault(x: Option<int>, d: int): (r: int)
    ensures x.None? ==> r == d
    ensures x.Some? ==> r == x.value
  {
    if x.None? then d else x.value
  }

  /** `position_in_carousel ?? 0`: the carousel position, a missing one read as 0. */
  function PositionOrZero(item: MultimediaContent): int
  {
    NullishDefault(item.positionInCarousel, 0)
  }
}
