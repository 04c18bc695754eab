/**
 * The JSON shapes the photo-search endpoint answers with: a page of photo
 * descriptors on success, a status record on an API-level failure.
 * Decoding itself is not modelled; these are the decoded values.
 */
module Responses {

  /** A raw payload: an HTTP body or the bytes of an image. */
  type Bytes = seq<bv8>

  /** One search hit: enough to build its image URL. */
  datatype PhotoDetails = PhotoDetails(id: string, server: string, secret: string)

  /** One page of search results. */
  datatype Photos = Photos(page: int, pages: int, perpage: int, total: int, photo: seq<PhotoDetails>)

  /** The top-level success envelope `{ "photos": ... }`. */
  datatype PhotoResponse = PhotoResponse(photos: Photos)

  /** The error envelope `{ "status_code": ..., "status_message": ... }`. */
  datatype VTResponse = VTResponse(statusCode: int, statusMessage: string)
}
