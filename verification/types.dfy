/**
 The data that flows through the Midras client: embeddings, the service's
 response record, and the errors the client can raise.
 */
module Types {

  /** One vector of a multi-vector embedding. */
  type Vector = seq<real>

  /** A ColBERT-style embedding: one vector per token of one encoded unit
      (one page image or one text query). */
  type ColBERT = seq<Vector>

  datatype Option<+T> = None | Some(value: T)

  /** Why a client call did not produce a value. */
  datatype Error =
      /** The service answered with a status of 500 or more; carries the body text. */
    | ServerFault(body: String)
      /** The service's body does not decode into a response record. */
    | MalformedResponse
      /** `range(0, n, 0)`: a batch size of zero. */
    | ZeroBatchSize
      /** Element 0 of an empty embeddings list. */
    | NoEmbeddings

  type String = seq<char>

  datatype Result<+T> = Success(value: T) | Failure(error: Error)

  /** The service's response record (`MidrasResponse`): the credits the call
      cost, one embedding per submitted unit, and the page images when they
      were asked for. `P` is the type of a page image. */
  datatype EmbedResponse<+P> = EmbedResponse(
    creditsSpent: int,
    embeddings: seq<ColBERT>,
    images: Option<seq<P>>
  )
}
