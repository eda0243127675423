# Midras client: document batching and aggregation, in Dafny

Midras is a client library. It turns PDF documents and text queries into
ColBERT-style multi-vector embeddings by calling a remote embedding service.
This project models the logic at its centre: `embed_pdf`, which embeds a
document of any length. It cuts the rasterised pages into consecutive
batches of at most `batch_size` pages and sends each batch through the
single-batch call `embed_images`, one batch at a time. It concatenates the
batches' `embeddings` in order, sums their `credits_spent`, and returns the
pages themselves only when `include_images` is set. Two small pieces sit
next to it, and both are modelled too:

- `validate_response` turns a reply with status 500 or more into an error
  that carries the body.
- The query step embeds one text and passes element 0 of the embeddings to
  the vector store's search.

The synchronous `Midras` and the asynchronous `AsyncMidras` run the same
loop. The asynchronous one awaits each batch before it starts the next, so
the model states the loop once.

Files:

- `types.dfy` (module `Types`): embeddings, the response record
  (`MidrasResponse`), `Result`/`Option` and the client's errors.
- `batching.dfy` (module `Batching`): how the pages are cut into batches,
  with the partition, count and shape lemmas.
- `pipeline.dfy` (module `Pipeline`):
  - `EmbedBatches`, a recursive reference definition of the run over the
    batches.
  - `EmbedDocument`, the whole of `embed_pdf` as a function.
  - `EmbedLoop`, a loop method that follows the source's `range`/slice loop,
    and `EmbedPdf` around it. Both are proved equal to the reference
    definitions.
  - Lemmas for concatenation, summing, abort on first failure, credits and
    per-page counts.
- `client.dfy` (module `Client`): `ValidateResponse`, the single-batch image
  call on top of a transport, and `Query`.

The source's default arguments are kept as defaults: `batch_size = 10`,
`include_images = False` and `quantity = 5`.

External parts are function parameters:

- The embed call is a function from a batch to a validated response or an
  error.
- The transport is a function from a batch, or a text list, to a reply:
  status, body text, and the decoded record if there is one.
- The store's search is a function from (index, embedding, quantity) to its
  result.

Behaviour at the edges, as the code has it:

- The code does not check the batch size itself. `range` raises on a batch
  size of 0, so the model fails with `ZeroBatchSize`. `range` is empty for a
  negative batch size, so nothing is embedded and the result has zero
  credits and no embeddings.
- `validate_response` does not single out 4xx replies. It decodes them like
  2xx ones, and they fail only if their body does not decode.
- Credits are unbounded integers, as in Python. The model does not assume
  they are non-negative. It proves that they stay non-negative when every
  batch's credits are.

## Model

| member | source | states |
|---|---|---|
| Batching.BatchesPartition | midrasai/client/main.py:30-31 | The batches are non-empty and at most `batch_size` long. Concatenated in order, they give back exactly the document's pages. |
| Batching.BatchAt | midrasai/client/main.py:30-31 | Batch `k` starts at offset `k * batch_size`, inside the document. It is the slice `images[k*batch_size : k*batch_size + batch_size]`, cut short at the end of the pages. |
| Batching.BatchesStep | midrasai/client/main.py:30-31 | One turn of the loop at offset `i`: the slice taken there is the next batch. The remaining batches are those of the pages from `i + batch_size` on. |
| Batching.BatchCountBounds | midrasai/client/main.py:30 | With `m` batches, `(m - 1) * batch_size < n <= m * batch_size`: every batch but the last is full. |
| Batching.BatchCount | midrasai/client/main.py:30 | A document of `n` pages is sent as exactly ceil(n / batch_size) batches, and as none when `n` is 0. |
| Batching.BatchSizes | midrasai/client/main.py:30-31 | Every batch except the last holds exactly `batch_size` pages. The last holds the `n - (m - 1) * batch_size` pages left over. |
| Batching.TwentyThreePages | midrasai/client/main.py:30-31 | 23 pages with batch size 10 give three batches, of 10, 10 and 3 pages. |
| Pipeline.EmbedPdf | midrasai/client/main.py:101-118 | The whole of `embed_pdf` (default batch size 10, pages not returned) returns exactly the reference definition: for a zero batch size, a negative one, the empty document, a failed batch, and a successful run. |
| Pipeline.EmbedLoop | midrasai/client/main.py:105-113 | The `range`/slice loop, with its running embeddings and credits, ends with exactly the reference run over the document's batches. This includes the early exit on a failed batch. |
| Pipeline.StepSucceeds | midrasai/client/main.py:108-113 | One loop turn whose batch succeeds: the slice taken is the next batch, and the totals grow by that batch's embeddings and credits. |
| Pipeline.StepFails | midrasai/client/main.py:108-110 | One loop turn whose batch fails, after successful ones: the document's run fails with that batch's error. |
| Pipeline.EmbedDocument | midrasai/client/main.py:36-40 | A batch size of 0 is an error. On success the `images` field is all the pages, in order, when `include_images` is set, and absent otherwise. |
| Pipeline.EmbedBatchesAppend | midrasai/client/main.py:30-34 | Running the batch list in two parts and joining the outcomes gives the same result as one run. The earlier failure wins, otherwise embeddings concatenate and credits add. This is why folding one batch at a time is correct. |
| Pipeline.SucceedingBatch | midrasai/client/main.py:32-34 | After successful batches, a successful batch extends the totals by its embeddings and its credits. |
| Pipeline.FailingBatch | midrasai/client/main.py:32 | After successful batches, a failing batch ends the run with its error, whatever follows it. |
| Pipeline.EmbedBatchesAllSucceed | midrasai/client/main.py:30-34 | If every batch is answered, the totals are the answers' embeddings concatenated in batch order and their credits summed. |
| Pipeline.EmbedBatchesFirstFailure | midrasai/client/main.py:30-32 | The first failing batch decides the outcome: the run fails with its error. |
| Pipeline.EmbedBatchesSuccess | midrasai/client/main.py:30-34 | A run succeeds if and only if every batch succeeds. |
| Pipeline.EmbedBatchesCredits | midrasai/client/main.py:28-34 | Total credits are non-negative when each batch's credits are. |
| Pipeline.EmbedBatchesLength | midrasai/client/main.py:33 | If each batch gets one embedding per page, the run has one embedding per page of all batches together. |
| Pipeline.EmbedBatchesAgree | midrasai/client/main.py:30-32 | Two embed calls that agree on the batches give the same run, so no other input is ever embedded. |
| Pipeline.DocumentConcatAndSum | midrasai/client/main.py:27-40 | If every batch succeeds, the document's result is: credits = the sum of the batches' credits, embeddings = the batches' embeddings in batch order, and the images field as requested. |
| Pipeline.DocumentFirstFailure | midrasai/client/main.py:108-112 | The first failing batch aborts the whole document with its error. No partial result is returned. |
| Pipeline.DocumentSuccess | midrasai/client/main.py:108-118 | The document succeeds if and only if every one of its batches does. |
| Pipeline.DocumentCredits | midrasai/client/main.py:106-112 | The document's credits are non-negative when every batch's are. |
| Pipeline.DocumentOneEmbeddingPerPage | midrasai/client/main.py:111 | If each batch answer has one embedding per page, the document has exactly as many embeddings as pages. |
| Pipeline.DocumentOnlyEmbedsBatches | midrasai/client/main.py:108-110 | The result depends on the embed call only through its answers for the document's batches. |
| Pipeline.NothingEmbedded | midrasai/client/main.py:27-40 | With no pages, or with a negative batch size, the result is zero credits, no embeddings and the requested images field, whatever the embed call would answer. |
| Client.ValidateResponse | midrasai/client/main.py:96-99 | Fails with the body text as a server fault exactly when the status is 500 or more. Otherwise succeeds exactly when the body decodes, and returns the decoded record unchanged. |
| Client.ServerFaultAbortsDocument | midrasai/client/main.py:131-135 | A reply of 500 or more to any batch, after the earlier batches succeeded, aborts the document with that reply's body. |
| Client.Query | midrasai/client/main.py:83-85 | Embeds `[query]`. A failure passes through, and an empty embeddings list is an error. Otherwise the result is the store's search with element 0 and the caller's `quantity` unchanged. |
| Client.QueryUsesFirstEmbeddingOnly | midrasai/client/main.py:157-159 | Two embed answers for `[query]` with the same first embedding give the same query result. |
| Client.QueryServerFault | midrasai/client/main.py:154-159 | A reply of 500 or more to the query's embed call surfaces as that server fault, and the store is not searched. |

## Left out

- HTTP transport: the `httpx` clients, the endpoints, the 180-second timeout and the status `print`. This is I/O. The model takes the reply as a parameter.
- PDF rasterisation (`convert_from_path`): a foreign library. The model takes the page list as input.
- Base64 encoding of the pages and the request record (`MidrasRequest`, with its key and mode): their definitions are not part of this model. The transport parameter stands for encode-and-post.
- Decoding the reply body (`response.json()` and the `MidrasResponse` schema check): not part of this model. The reply carries the decoded record, or `None` when decoding fails.
- Vector store operations (`create_index`, `add_point`, `search`, the in-memory Qdrant default): thin delegations to a backend that is not part of this model. `search` is a parameter of `Query`.
- The synchronous `embed_images` and `embed_queries` return `response.json()` (a dict) without validation. `embed_pdf` and `query` then read `.embeddings` from that dict, which Python rejects. The model runs both variants on the validated response, as the asynchronous client does.
- Concurrency: the asynchronous client awaits every batch in turn, so it adds no interleaving and is modelled by the same sequential loop.
- The embed call is modelled as a function of the batch alone, so two equal batches always get the same answer. For example, a run in batches of 1 over two identical pages cannot have its first call succeed and its second fail with a transient 500. No proved property depends on this.
- Client.Query: the search result is opaque. Errors the store raises (for example a missing index) are part of that result and are not classified.
