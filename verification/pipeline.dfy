/**
 The document-embedding pipeline of `embed_pdf`: every batch of pages goes
 through the single-batch embed call, in order; the batches' embeddings are
 concatenated and their credits summed. The synchronous and the asynchronous
 client run the same loop (the asynchronous one awaits each batch before the
 next), so it is stated once.
 */
module Pipeline {
  import opened Types
  import opened Batching

  /** The single-batch embed call (`embed_images`): one request for the
      batch, its reply validated. Transport, encoding and decoding are
      behind this function. */
  type Embedder<!P> = seq<P> -> Result<EmbedResponse<P>>

  /** What the loop has accumulated: the embeddings so far and the credits
      spent so far. */
  datatype Totals = Totals(embeddings: seq<ColBERT>, credits: int)

  /** Reference definition: embed the batches front to back; the first
      failing batch's error is the outcome, otherwise the totals of the
      first batch followed by those of the rest. */
  function EmbedBatches<P>(embed: Embedder<P>, batches: seq<seq<P>>): Result<Totals>
    decreases |batches|
  {
    if |batches| == 0 then Success(Totals([], 0))
    else
      match embed(batches[0])
      case Failure(e) => Failure(e)
      case Success(first) =>
        match EmbedBatches(embed, batches[1..])
        case Failure(e) => Failure(e)
        case Success(rest) =>
          Success(Totals(first.embeddings + rest.embeddings, first.creditsSpent + rest.credits))
  }

  /** The outcome of two runs one after the other: the earlier failure wins,
      otherwise the totals add up. */
  function Join(a: Result<Totals>, b: Result<Totals>): Result<Totals> {
    if a.Failure? then a
    else if b.Failure? then b
    else Success(Totals(a.value.embeddings + b.value.embeddings, a.value.credits + b.value.credits))
  }

  /** Embedding a list of batches in two goes gives the same outcome as in
      one: this is what lets the loop fold one batch at a time. */
  lemma {:induction false} EmbedBatchesAppend<P>(embed: Embedder<P>, xs: seq<seq<P>>, ys: seq<seq<P>>)
    ensures EmbedBatches(embed, xs + ys) == Join(EmbedBatches(embed, xs), EmbedBatches(embed, ys))
    decreases |xs|
  {
    if |xs| == 0 {
      assert xs + ys == ys;
      var b := EmbedBatches(embed, ys);
      if b.Success? {
        assert [] + b.value.embeddings == b.value.embeddings;
      }
    } else {
      assert (xs + ys)[0] == xs[0];
      assert (xs + ys)[1..] == xs[1..] + ys;
      EmbedBatchesAppend(embed, xs[1..], ys);
      var a, b := EmbedBatches(embed, xs[1..]), EmbedBatches(embed, ys);
      if embed(xs[0]).Success? && a.Success? && b.Success? {
        var first := embed(xs[0]).value;
        assert first.embeddings + (a.value.embeddings + b.value.embeddings)
            == (first.embeddings + a.value.embeddings) + b.value.embeddings;
      }
    }
  }

  /** The whole document: `embed_pdf` given the pages, the batch size and
      whether the pages are to be returned. A batch size of zero is refused
      by `range`; a negative one makes `range` empty, so nothing is embedded. */
  function EmbedDocument<P>(embed: Embedder<P>, pages: seq<P>, batchSize: int := 10, includeImages: bool := false)
    : (r: Result<EmbedResponse<P>>)
    ensures batchSize == 0 ==> r == Failure(ZeroBatchSize)
    ensures r.Success? ==> r.value.images == (if includeImages then Some(pages) else None)
  {
    if batchSize == 0 then Failure(ZeroBatchSize)
    else
      var totals := if batchSize < 0 then Success(Totals([], 0))
                    else EmbedBatches(embed, Batches(pages, batchSize));
      match totals
      case Failure(e) => Failure(e)
      case Success(t) =>
        Success(EmbedResponse(t.credits, t.embeddings, if includeImages then Some(pages) else None))
  }

  /** A failing batch after successful ones aborts the run with its error,
      whatever comes after it. */
  lemma FailingBatch<P>(embed: Embedder<P>, done: seq<seq<P>>, batch: seq<P>, rest: seq<seq<P>>)
    requires EmbedBatches(embed, done).Success?
    requires embed(batch).Failure?
    ensures EmbedBatches(embed, done + ([batch] + rest)) == Failure(embed(batch).error)
  {
    EmbedBatchesAppend(embed, done, [batch] + rest);
    assert ([batch] + rest)[0] == batch;
  }

  /** A successful batch extends the totals by its embeddings and credits. */
  lemma SucceedingBatch<P>(embed: Embedder<P>, done: seq<seq<P>>, batch: seq<P>, t: Totals)
    requires EmbedBatches(embed, done) == Success(t)
    requires embed(batch).Success?
    ensures EmbedBatches(embed, done + [batch])
         == Success(Totals(t.embeddings + embed(batch).value.embeddings,
                           t.credits + embed(batch).value.creditsSpent))
  {
    EmbedBatchesAppend(embed, done, [batch]);
    assert [batch][1..] == [];
    assert embed(batch).value.embeddings + [] == embed(batch).value.embeddings;
  }

  /** One turn of the loop at offset `i` whose batch succeeds: the batch
      joins those done, and its embeddings and credits extend the totals. */
  lemma StepSucceeds<P>(embed: Embedder<P>, images: seq<P>, size: int, i: int, done: seq<seq<P>>, t: Totals)
    requires size >= 1 && 0 <= i < |images|
    requires Batches(images, size) == done + Batches(images[Min(i, |images|)..], size)
    requires EmbedBatches(embed, done) == Success(t)
    requires embed(images[i..Min(i + size, |images|)]).Success?
    ensures var batch := images[i..Min(i + size, |images|)];
            Batches(images, size) == (done + [batch]) + Batches(images[Min(i + size, |images|)..], size)
    ensures var response := embed(images[i..Min(i + size, |images|)]).value;
            EmbedBatches(embed, done + [images[i..Min(i + size, |images|)]])
            == Success(Totals(t.embeddings + response.embeddings, t.credits + response.creditsSpent))
  {
    BatchesStep(images, size, i);
    SucceedingBatch(embed, done, images[i..Min(i + size, |images|)], t);
  }

  /** One turn of the loop at offset `i` whose batch fails: the document's
      run fails with that batch's error. */
  lemma StepFails<P>(embed: Embedder<P>, images: seq<P>, size: int, i: int, done: seq<seq<P>>)
    requires size >= 1 && 0 <= i < |images|
    requires Batches(images, size) == done + Batches(images[Min(i, |images|)..], size)
    requires EmbedBatches(embed, done).Success?
    requires embed(images[i..Min(i + size, |images|)]).Failure?
    ensures EmbedBatches(embed, Batches(images, size))
         == Failure(embed(images[i..Min(i + size, |images|)]).error)
  {
    BatchesStep(images, size, i);
    FailingBatch(embed, done, images[i..Min(i + size, |images|)],
                 Batches(images[Min(i + size, |images|)..], size));
  }

  /** The loop of `embed_pdf`, in both clients: walk the offsets of
      `range(0, len(images), batch_size)`, embed the slice at each offset,
      extend the embeddings and add up the credits. The first failing batch
      ends the loop with its error. */
  method EmbedLoop<P>(embed: Embedder<P>, images: seq<P>, batchSize: int)
    returns (r: Result<Totals>)
    requires batchSize >= 1
    ensures r == EmbedBatches(embed, Batches(images, batchSize))
  {
    var embeddings: seq<ColBERT> := [];
    var totalSpent := 0;
    var i := 0;
    ghost var done: seq<seq<P>> := [];
    while i < |images|
      invariant 0 <= i
      invariant Batches(images, batchSize) == done + Batches(images[Min(i, |images|)..], batchSize)
      invariant EmbedBatches(embed, done) == Success(Totals(embeddings, totalSpent))
      decreases |images| - i
    {
      var imageBatch := images[i..Min(i + batchSize, |images|)];
      var response := embed(imageBatch);
      if response.Failure? {
        StepFails(embed, images, batchSize, i, done);
        return Failure(response.error);
      }
      StepSucceeds(embed, images, batchSize, i, done, Totals(embeddings, totalSpent));
      embeddings := embeddings + response.value.embeddings;
      totalSpent := totalSpent + response.value.creditsSpent;
      done := done + [imageBatch];
      i := i + batchSize;
    }
    assert images[Min(i, |images|)..] == [];
    assert done + [] == done;
    r := Success(Totals(embeddings, totalSpent));
  }

  /** `embed_pdf`: a batch size of zero makes `range` raise, a negative one
      makes it empty; otherwise the loop runs over the pages and the result
      carries the pages only when they were asked for. It computes exactly
      the reference definition. */
  method EmbedPdf<P>(embed: Embedder<P>, images: seq<P>, batchSize: int := 10, includeImages: bool := false)
    returns (r: Result<EmbedResponse<P>>)
    ensures r == EmbedDocument(embed, images, batchSize, includeImages)
  {
    if batchSize == 0 {
      return Failure(ZeroBatchSize);
    }
    var totals: Result<Totals> := Success(Totals([], 0));
    if batchSize > 0 {
      totals := EmbedLoop(embed, images, batchSize);
    }
    if totals.Failure? {
      return Failure(totals.error);
    }
    r := Success(EmbedResponse(totals.value.credits, totals.value.embeddings,
                               if includeImages then Some(images) else None));
  }

  /** Reference sum of the batch responses' credits. */
  function TotalCredits<P>(rs: seq<EmbedResponse<P>>): int
    decreases |rs|
  {
    if |rs| == 0 then 0 else rs[0].creditsSpent + TotalCredits(rs[1..])
  }

  /** Reference concatenation of the batch responses' embeddings, in order. */
  function AllEmbeddings<P>(rs: seq<EmbedResponse<P>>): seq<ColBERT>
    decreases |rs|
  {
    if |rs| == 0 then [] else rs[0].embeddings + AllEmbeddings(rs[1..])
  }

  /** When batch `k` is answered with `rs[k]` for every `k`, the run ends
      with the responses' embeddings concatenated and their credits summed. */
  lemma {:induction false} EmbedBatchesAllSucceed<P>(embed: Embedder<P>, batches: seq<seq<P>>, rs: seq<EmbedResponse<P>>)
    requires |rs| == |batches|
    requires forall k :: 0 <= k < |batches| ==> embed(batches[k]) == Success(rs[k])
    ensures EmbedBatches(embed, batches) == Success(Totals(AllEmbeddings(rs), TotalCredits(rs)))
    decreases |batches|
  {
    if |batches| > 0 {
      EmbedBatchesAllSucceed(embed, batches[1..], rs[1..]);
    }
  }

  /** The first failing batch decides the outcome: its error, whatever the
      later batches would have answered. */
  lemma {:induction false} EmbedBatchesFirstFailure<P>(embed: Embedder<P>, batches: seq<seq<P>>, k: int)
    requires 0 <= k < |batches|
    requires embed(batches[k]).Failure?
    requires forall j :: 0 <= j < k ==> embed(batches[j]).Success?
    ensures EmbedBatches(embed, batches) == Failure(embed(batches[k]).error)
    decreases k
  {
    if k > 0 {
      EmbedBatchesFirstFailure(embed, batches[1..], k - 1);
    }
  }

  /** The run succeeds exactly when every batch does. */
  lemma {:induction false} EmbedBatchesSuccess<P>(embed: Embedder<P>, batches: seq<seq<P>>)
    ensures EmbedBatches(embed, batches).Success?
            <==> forall k :: 0 <= k < |batches| ==> embed(batches[k]).Success?
    decreases |batches|
  {
    if |batches| > 0 {
      EmbedBatchesSuccess(embed, batches[1..]);
      if embed(batches[0]).Success? {
        forall k | 1 <= k < |batches|
          ensures embed(batches[k]) == embed(batches[1..][k - 1])
        {
        }
      }
    }
  }

  /** Credits never go negative when no batch reports negative credits. */
  lemma {:induction false} EmbedBatchesCredits<P>(embed: Embedder<P>, batches: seq<seq<P>>)
    requires forall k :: 0 <= k < |batches| && embed(batches[k]).Success? ==>
               embed(batches[k]).value.creditsSpent >= 0
    ensures EmbedBatches(embed, batches).Success? ==> EmbedBatches(embed, batches).value.credits >= 0
    decreases |batches|
  {
    if |batches| > 0 {
      forall k | 0 <= k < |batches[1..]| && embed(batches[1..][k]).Success?
        ensures embed(batches[1..][k]).value.creditsSpent >= 0
      {
        assert batches[1..][k] == batches[k + 1];
      }
      EmbedBatchesCredits(embed, batches[1..]);
    }
  }

  /** One embedding per page in every batch gives one embedding per page of
      the whole run. */
  lemma {:induction false} EmbedBatchesLength<P>(embed: Embedder<P>, batches: seq<seq<P>>)
    requires forall k :: 0 <= k < |batches| && embed(batches[k]).Success? ==>
               |embed(batches[k]).value.embeddings| == |batches[k]|
    ensures EmbedBatches(embed, batches).Success? ==>
              |EmbedBatches(embed, batches).value.embeddings| == |Flatten(batches)|
    decreases |batches|
  {
    if |batches| > 0 {
      forall k | 0 <= k < |batches[1..]| && embed(batches[1..][k]).Success?
        ensures |embed(batches[1..][k]).value.embeddings| == |batches[1..][k]|
      {
        assert batches[1..][k] == batches[k + 1];
      }
      EmbedBatchesLength(embed, batches[1..]);
    }
  }

  /** Two embed calls that agree on the given batches give the same run: no
      other input is ever sent. */
  lemma {:induction false} EmbedBatchesAgree<P>(e1: Embedder<P>, e2: Embedder<P>, batches: seq<seq<P>>)
    requires forall k :: 0 <= k < |batches| ==> e1(batches[k]) == e2(batches[k])
    ensures EmbedBatches(e1, batches) == EmbedBatches(e2, batches)
    decreases |batches|
  {
    if |batches| > 0 {
      forall k | 0 <= k < |batches[1..]|
        ensures e1(batches[1..][k]) == e2(batches[1..][k])
      {
        assert batches[1..][k] == batches[k + 1];
      }
      EmbedBatchesAgree(e1, e2, batches[1..]);
    }
  }

  /** The pages returned, if any: all of them, in order, exactly when they
      were asked for. */
  function ImagesField<P>(pages: seq<P>, includeImages: bool): Option<seq<P>> {
    if includeImages then Some(pages) else None
  }

  /** Document level: when every batch succeeds, the document's embeddings
      are the batches' embeddings in batch order and its credits are their
      sum. */
  lemma DocumentConcatAndSum<P>(embed: Embedder<P>, pages: seq<P>, batchSize: int, includeImages: bool,
                                rs: seq<EmbedResponse<P>>)
    requires batchSize >= 1
    requires |rs| == |Batches(pages, batchSize)|
    requires forall k :: 0 <= k < |rs| ==> embed(Batches(pages, batchSize)[k]) == Success(rs[k])
    ensures EmbedDocument(embed, pages, batchSize, includeImages)
         == Success(EmbedResponse(TotalCredits(rs), AllEmbeddings(rs), ImagesField(pages, includeImages)))
  {
    EmbedBatchesAllSucceed(embed, Batches(pages, batchSize), rs);
  }

  /** Document level: the first failing batch aborts the document with its
      error; nothing aggregated so far is returned. */
  lemma DocumentFirstFailure<P>(embed: Embedder<P>, pages: seq<P>, batchSize: int, includeImages: bool, k: int)
    requires batchSize >= 1
    requires 0 <= k < |Batches(pages, batchSize)|
    requires embed(Batches(pages, batchSize)[k]).Failure?
    requires forall j :: 0 <= j < k ==> embed(Batches(pages, batchSize)[j]).Success?
    ensures EmbedDocument(embed, pages, batchSize, includeImages)
         == Failure(embed(Batches(pages, batchSize)[k]).error)
  {
    EmbedBatchesFirstFailure(embed, Batches(pages, batchSize), k);
  }

  /** Document level: the document succeeds exactly when every batch does. */
  lemma DocumentSuccess<P>(embed: Embedder<P>, pages: seq<P>, batchSize: int, includeImages: bool)
    requires batchSize >= 1
    ensures EmbedDocument(embed, pages, batchSize, includeImages).Success?
            <==> forall k :: 0 <= k < |Batches(pages, batchSize)| ==> embed(Batches(pages, batchSize)[k]).Success?
  {
    EmbedBatchesSuccess(embed, Batches(pages, batchSize));
    if EmbedDocument(embed, pages, batchSize, includeImages).Success? {
      assert EmbedBatches(embed, Batches(pages, batchSize)).Success?;
    } else {
      assert !EmbedBatches(embed, Batches(pages, batchSize)).Success?;
    }
  }

  /** Document level: credits are non-negative when every batch's are. */
  lemma DocumentCredits<P>(embed: Embedder<P>, pages: seq<P>, batchSize: int, includeImages: bool)
    requires batchSize >= 1
    requires forall k :: 0 <= k < |Batches(pages, batchSize)| && embed(Batches(pages, batchSize)[k]).Success? ==>
               embed(Batches(pages, batchSize)[k]).value.creditsSpent >= 0
    ensures EmbedDocument(embed, pages, batchSize, includeImages).Success? ==>
              EmbedDocument(embed, pages, batchSize, includeImages).value.creditsSpent >= 0
  {
    EmbedBatchesCredits(embed, Batches(pages, batchSize));
  }

  /** Document level: one embedding per page in every batch gives one
      embedding per page of the document. */
  lemma DocumentOneEmbeddingPerPage<P>(embed: Embedder<P>, pages: seq<P>, batchSize: int, includeImages: bool)
    requires batchSize >= 1
    requires forall k :: 0 <= k < |Batches(pages, batchSize)| && embed(Batches(pages, batchSize)[k]).Success? ==>
               |embed(Batches(pages, batchSize)[k]).value.embeddings| == |Batches(pages, batchSize)[k]|
    ensures EmbedDocument(embed, pages, batchSize, includeImages).Success? ==>
              |EmbedDocument(embed, pages, batchSize, includeImages).value.embeddings| == |pages|
  {
    EmbedBatchesLength(embed, Batches(pages, batchSize));
    BatchesPartition(pages, batchSize);
  }

  /** Document level: the embed call only ever sees the document's batches. */
  lemma DocumentOnlyEmbedsBatches<P>(e1: Embedder<P>, e2: Embedder<P>, pages: seq<P>, batchSize: int, includeImages: bool)
    requires batchSize >= 1
    requires forall k :: 0 <= k < |Batches(pages, batchSize)| ==>
               e1(Batches(pages, batchSize)[k]) == e2(Batches(pages, batchSize)[k])
    ensures EmbedDocument(e1, pages, batchSize, includeImages) == EmbedDocument(e2, pages, batchSize, includeImages)
  {
    EmbedBatchesAgree(e1, e2, Batches(pages, batchSize));
  }

  /** A document without pages, or a negative batch size, embeds nothing:
      zero credits, no embeddings, whatever the embed call would answer. */
  lemma NothingEmbedded<P>(embed: Embedder<P>, pages: seq<P>, batchSize: int, includeImages: bool)
    requires batchSize < 0 || (batchSize > 0 && |pages| == 0)
    ensures EmbedDocument(embed, pages, batchSize, includeImages)
         == Success(EmbedResponse(0, [], ImagesField(pages, includeImages)))
  {
  }
}
