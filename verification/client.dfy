/**
 The client facade around the pipeline: checking the service's reply
 (`validate_response`), the single-batch image call built on it, and the
 query step that embeds one text and hands its embedding to the store's
 search. The transport, the store and the body decoding are parameters.
 */
module Client {
  import opened Types
  import opened Batching
  import opened Pipeline

  /** A reply of the embedding service as the client sees it: the status
      code, the body text, and what `MidrasResponse(**response.json())`
      makes of the body (`None` when the body does not decode into a
      response record). */
  datatype HttpReply<+P> = HttpReply(status: int, text: String, decoded: Option<EmbedResponse<P>>)

  /** `validate_response`: a status of 500 or more is a server fault carrying
      the body; any other status, 4xx included, has its body decoded into a
      response record. */
  function ValidateResponse<P>(reply: HttpReply<P>): (r: Result<EmbedResponse<P>>)
    ensures r == Failure(ServerFault(reply.text)) <==> reply.status >= 500
    ensures r.Success? <==> reply.status < 500 && reply.decoded.Some?
    ensures r.Success? ==> r.value == reply.decoded.value
  {
    if reply.status >= 500 then Failure(ServerFault(reply.text))
    else
      match reply.decoded
      case None => Failure(MalformedResponse)
      case Some(response) => Success(response)
  }

  /** `embed_images` for one batch: `transport` encodes the batch, posts it
      and returns the service's reply, which is then validated. */
  function EmbedImages<P>(transport: seq<P> -> HttpReply<P>, batch: seq<P>): Result<EmbedResponse<P>> {
    ValidateResponse(transport(batch))
  }

  /** The single-batch embed call the pipeline runs on. */
  function ImagesEmbedder<P>(transport: seq<P> -> HttpReply<P>): Embedder<P> {
    batch => EmbedImages(transport, batch)
  }

  /** A server fault on any batch, after the earlier batches succeeded,
      aborts the whole document with that batch's body text. */
  lemma ServerFaultAbortsDocument<P>(transport: seq<P> -> HttpReply<P>, pages: seq<P>, batchSize: int,
                                     includeImages: bool, k: int)
    requires batchSize >= 1
    requires 0 <= k < |Batches(pages, batchSize)|
    requires transport(Batches(pages, batchSize)[k]).status >= 500
    requires forall j :: 0 <= j < k ==> EmbedImages(transport, Batches(pages, batchSize)[j]).Success?
    ensures EmbedDocument(ImagesEmbedder(transport), pages, batchSize, includeImages)
         == Failure(ServerFault(transport(Batches(pages, batchSize)[k]).text))
  {
    var embed := ImagesEmbedder(transport);
    forall j | 0 <= j < k
      ensures embed(Batches(pages, batchSize)[j]).Success?
    {
    }
    DocumentFirstFailure(embed, pages, batchSize, includeImages, k);
  }

  /** `query` / `query_text`: embed the one-element list `[query]`, take
      element 0 of the returned embeddings and search the index with it
      and the caller's `quantity`. An empty embeddings list is an error
      (indexing it fails), as is a failed embed call. */
  function Query<P, S>(embedText: seq<String> -> Result<EmbedResponse<P>>,
                       search: (String, ColBERT, int) -> S,
                       index: String, query: String, quantity: int := 5): (r: Result<S>)
    ensures embedText([query]).Failure? ==> r == Failure(embedText([query]).error)
    ensures r.Success? <==> embedText([query]).Success? && |embedText([query]).value.embeddings| > 0
    ensures r.Success? ==> r.value == search(index, embedText([query]).value.embeddings[0], quantity)
  {
    match embedText([query])
    case Failure(e) => Failure(e)
    case Success(response) =>
      if |response.embeddings| == 0 then Failure(NoEmbeddings)
      else Success(search(index, response.embeddings[0], quantity))
  }

  /** The query step sends nothing but `[query]` to the embed call and uses
      nothing of the reply but its first embedding. */
  lemma QueryUsesFirstEmbeddingOnly<P, S>(e1: seq<String> -> Result<EmbedResponse<P>>,
                                          e2: seq<String> -> Result<EmbedResponse<P>>,
                                          search: (String, ColBERT, int) -> S,
                                          index: String, query: String, quantity: int)
    requires e1([query]).Success? && e2([query]).Success?
    requires |e1([query]).value.embeddings| > 0 && |e2([query]).value.embeddings| > 0
    requires e1([query]).value.embeddings[0] == e2([query]).value.embeddings[0]
    ensures Query(e1, search, index, query, quantity) == Query(e2, search, index, query, quantity)
  {
  }

  /** A server fault on the query's embed call surfaces as that fault; the
      store is not searched. */
  lemma QueryServerFault<P, S>(transport: seq<String> -> HttpReply<P>, search: (String, ColBERT, int) -> S,
                               index: String, query: String, quantity: int)
    requires transport([query]).status >= 500
    ensures Query(texts => ValidateResponse(transport(texts)), search, index, query, quantity)
         == Failure(ServerFault(transport([query]).text))
  {
  }
}
