/**
 * The response layer of the client: how one GET completion (a body or a
 * transport error) becomes a decoded value or an error, and how the photo
 * search hands its page of results to the caller. URLSession and
 * JSONDecoder are not modelled; the body and both decode attempts are
 * inputs.
 */
module Client {
  import opened Wrappers
  import opened Responses

  /** The outcome of one `JSONDecoder().decode` call on a body. */
  datatype Decoded<+T> = Decoded(value: T) | DecodingFailed(reason: string)

  /** The `Error` a completion can carry. */
  datatype ClientError =
    | Transport(description: string)   // the session's own error, passed on untouched
    | Api(response: VTResponse)        // the decoded error envelope, thrown as an error
    | Decoding(reason: string)         // the error envelope's own decoding failure

  /** The `(value?, error?)` pair a completion handler receives. */
  datatype Completion<+T> = Completion(value: Option<T>, error: Option<ClientError>)

  /**
   * `taskForGETRequest`. `data` and `transportError` are what the session
   * delivered; `decode` decodes the expected type and `decodeError` the
   * error envelope.
   */
  function TaskForGet<T>(data: Option<Bytes>, transportError: Option<string>,
                         decode: Bytes -> Decoded<T>, decodeError: Bytes -> Decoded<VTResponse>)
    : (c: Completion<T>)
    ensures data.None? ==> c.value.None? && (c.error.Some? <==> transportError.Some?)
    ensures data.None? && transportError.Some? ==> c.error == Some(Transport(transportError.value))
    ensures c.value.Some? <==> data.Some? && decode(data.value).Decoded?
    ensures c.value.Some? ==> c.value.value == decode(data.value).value
    ensures data.Some? && decode(data.value).DecodingFailed? && decodeError(data.value).Decoded?
            ==> c.error == Some(Api(decodeError(data.value).value))
    ensures data.Some? && decode(data.value).DecodingFailed? && decodeError(data.value).DecodingFailed?
            ==> c.error == Some(Decoding(decodeError(data.value).reason))
  {
    match data
    case None =>
      Completion(None, match transportError case None => None case Some(e) => Some(Transport(e)))
    case Some(body) =>
      match decode(body)
      case Decoded(v) => Completion(Some(v), None)
      case DecodingFailed(_) =>
        match decodeError(body)
        case Decoded(r) => Completion(None, Some(Api(r)))
        case DecodingFailed(reason) => Completion(None, Some(Decoding(reason)))
  }

  /** Without a body the decoders are never consulted: any two give the same completion. */
  lemma NoBodyIgnoresDecoders<T>(transportError: Option<string>,
                                 decode1: Bytes -> Decoded<T>, decodeError1: Bytes -> Decoded<VTResponse>,
                                 decode2: Bytes -> Decoded<T>, decodeError2: Bytes -> Decoded<VTResponse>)
    ensures TaskForGet(None, transportError, decode1, decodeError1)
         == TaskForGet(None, transportError, decode2, decodeError2)
  {
  }

  /**
   * A completion never carries both a value and an error, and it carries
   * neither only when the session delivered neither a body nor an error.
   */
  lemma TaskForGetExclusive<T>(data: Option<Bytes>, transportError: Option<string>,
                               decode: Bytes -> Decoded<T>, decodeError: Bytes -> Decoded<VTResponse>)
    ensures var c := TaskForGet(data, transportError, decode, decodeError);
      && !(c.value.Some? && c.error.Some?)
      && (c.value.None? && c.error.None? <==> data.None? && transportError.None?)
  {
  }

  /** `downloadPhotos`: passes on the page of results, or the error. */
  function DownloadPhotos(c: Completion<PhotoResponse>): (r: Completion<Photos>)
    ensures r.value.Some? <==> c.value.Some?
    ensures c.value.Some? ==> r.value.value == c.value.value.photos && r.error.None?
    ensures c.value.None? ==> r.error == c.error
  {
    match c.value
    case Some(response) => Completion(Some(response.photos), None)
    case None => Completion(None, c.error)
  }

  /**
   * A photo search, end to end: a page arrives exactly when the body decoded
   * as a photo response, it never arrives with an error, and an API error
   * is reported exactly when the body was the error envelope instead.
   */
  lemma SearchOutcome(data: Option<Bytes>, transportError: Option<string>,
                      decode: Bytes -> Decoded<PhotoResponse>, decodeError: Bytes -> Decoded<VTResponse>)
    ensures var r := DownloadPhotos(TaskForGet(data, transportError, decode, decodeError));
      && (r.value.Some? <==> data.Some? && decode(data.value).Decoded?)
      && (r.value.Some? ==> r.value.value == decode(data.value).value.photos && r.error.None?)
      && ((exists s :: r.error == Some(Api(s)))
          <==> data.Some? && decode(data.value).DecodingFailed? && decodeError(data.value).Decoded?)
  {
  }
}
