/**
 How `embed_pdf` cuts a document's pages into batches: the loop
 `for i in range(0, len(images), batch_size)` takes the slice
 `images[i : i + batch_size]` each time round.
 */
module Batching {

  function Min(a: int, b: int): int {
    if a <= b then a else b
  }

  /** The concatenation of a sequence of sequences, in order. */
  function Flatten<T>(xss: seq<seq<T>>): seq<T>
    decreases |xss|
  {
    if |xss| == 0 then [] else xss[0] + Flatten(xss[1..])
  }

  /** The batches of `pages`: the first `size` pages, then the batches of
      the rest; the last batch takes what is left. */
  function Batches<P>(pages: seq<P>, size: int): seq<seq<P>>
    requires size >= 1
    decreases |pages|
  {
    if |pages| == 0 then []
    else if |pages| <= size then [pages]
    else [pages[..size]] + Batches(pages[size..], size)
  }

  /** The batches are non-empty, at most `size` long, and together exactly
      the pages in their original order. */
  lemma {:induction false} BatchesPartition<P>(pages: seq<P>, size: int)
    requires size >= 1
    ensures Flatten(Batches(pages, size)) == pages
    ensures forall k :: 0 <= k < |Batches(pages, size)| ==> 0 < |Batches(pages, size)[k]| <= size
    decreases |pages|
  {
    if |pages| == 0 {
    } else if |pages| <= size {
      assert Flatten([pages]) == pages + Flatten([]);
    } else {
      var rest := Batches(pages[size..], size);
      BatchesPartition(pages[size..], size);
      assert ([pages[..size]] + rest)[1..] == rest;
      assert pages[..size] + pages[size..] == pages;
    }
  }

  /** One turn of the loop: the batch taken at offset `i` is the slice
      `pages[i : i + size]`, and the batches after it are those of the pages
      from `i + size` on. */
  lemma BatchesStep<P>(pages: seq<P>, size: int, i: int)
    requires size >= 1
    requires 0 <= i < |pages|
    ensures Batches(pages[i..], size)
         == [pages[i..Min(i + size, |pages|)]] + Batches(pages[Min(i + size, |pages|)..], size)
  {
    var tail := pages[i..];
    if |tail| <= size {
      assert pages[i..Min(i + size, |pages|)] == tail;
      assert pages[Min(i + size, |pages|)..] == [];
    } else {
      assert tail[..size] == pages[i..i + size];
      assert tail[size..] == pages[i + size..];
    }
  }

  lemma {:induction false} MulGap(a: int, b: int, d: int)
    requires a < b && d >= 1
    ensures b * d >= a * d + d
    decreases b - a
  {
    if a + 1 < b {
      MulGap(a + 1, b, d);
    }
    assert (a + 1) * d == a * d + d;
  }

  /** Euclidean division has a unique quotient. */
  lemma DivUnique(y: int, d: int, q: int, r: int)
    requires d >= 1 && 0 <= r < d && y == q * d + r
    ensures y / d == q
  {
    var q', r' := y / d, y % d;
    assert y == q' * d + r' && 0 <= r' < d;
    if q' < q {
      MulGap(q', q, d);
      assert false;
    } else if q' > q {
      MulGap(q, q', d);
      assert false;
    }
  }

  /** Each batch but the last is full, so the batches cover the pages with
      less than one batch to spare. */
  lemma {:induction false} BatchCountBounds<P>(pages: seq<P>, size: int)
    requires size >= 1
    ensures var m := |Batches(pages, size)|;
            (m - 1) * size < |pages| <= m * size
    decreases |pages|
  {
    var n := |pages|;
    if n == 0 {
    } else if n <= size {
    } else {
      BatchesUnfold(pages, size);
      BatchCountBounds(pages[size..], size);
      var m' := |Batches(pages[size..], size)|;
      MulPred(m' + 1, size);
      MulPred(m', size);
    }
  }

  /** The ceiling of `n / d`, as the bounds above pin it down. */
  lemma CeilFromBounds(n: int, d: int, m: int)
    requires d >= 1 && n >= 0
    requires (m - 1) * d < n <= m * d
    ensures m == (n + d - 1) / d
  {
    MulPred(m, d);
    DivUnique(n + d - 1, d, m, n - 1 - (m - 1) * d);
  }

  /** The number of batches is the ceiling of `|pages| / size`: one request
      per started block of `size` pages, none for an empty document. */
  lemma BatchCount<P>(pages: seq<P>, size: int)
    requires size >= 1
    ensures |Batches(pages, size)| == (|pages| + size - 1) / size
  {
    BatchCountBounds(pages, size);
    CeilFromBounds(|pages|, size, |Batches(pages, size)|);
  }

  /** Python's `pages[i : i + size]` for `0 <= i`: the slice is cut short
      at the end of the sequence. */
  function Slice<P>(pages: seq<P>, i: int, size: int): seq<P>
    requires 0 <= i <= |pages| && size >= 0
  {
    pages[i..Min(i + size, |pages|)]
  }

  lemma BatchesUnfold<P>(pages: seq<P>, size: int)
    requires size >= 1 && |pages| > size
    ensures Batches(pages, size) == [pages[..size]] + Batches(pages[size..], size)
  {
  }

  lemma MulPred(k: int, size: int)
    ensures (k - 1) * size + size == k * size
  {
  }

  /** Batch `k` is the slice the loop takes at offset `k * size`:
      `pages[k * size : k * size + size]`, cut short at the end of the pages. */
  lemma {:induction false} BatchAt<P>(pages: seq<P>, size: int, k: int)
    requires size >= 1
    requires 0 <= k < |Batches(pages, size)|
    ensures 0 <= k * size < |pages|
    ensures Batches(pages, size)[k] == Slice(pages, k * size, size)
    decreases |pages|
  {
    if |pages| <= size {
      assert k == 0;
    } else if k == 0 {
      BatchesUnfold(pages, size);
    } else {
      var tail := pages[size..];
      BatchesUnfold(pages, size);
      BatchAt(tail, size, k - 1);
      var s := (k - 1) * size;
      MulPred(k, size);
      DropSlice(pages, size, s, Min(s + size, |tail|));
    }
  }

  lemma DropSlice<P>(pages: seq<P>, d: int, a: int, b: int)
    requires 0 <= d <= |pages| && 0 <= a <= b <= |pages| - d
    ensures pages[d..][a..b] == pages[d + a .. d + b]
  {
  }

  /** A batch that is followed by another holds exactly `size` pages. */
  lemma FullBatch<P>(pages: seq<P>, size: int, k: int)
    requires size >= 1
    requires 0 <= k < |Batches(pages, size)| - 1
    ensures |Batches(pages, size)[k]| == size
  {
    BatchAt(pages, size, k);
    BatchAt(pages, size, k + 1);
    MulPred(k + 1, size);
  }

  /** The last batch holds the pages left over after the full ones. */
  lemma LastBatch<P>(pages: seq<P>, size: int)
    requires size >= 1
    requires |Batches(pages, size)| > 0
    ensures var m := |Batches(pages, size)|;
            |Batches(pages, size)[m - 1]| == |pages| - (m - 1) * size
  {
    var m := |Batches(pages, size)|;
    BatchAt(pages, size, m - 1);
    BatchCountBounds(pages, size);
    MulPred(m, size);
  }

  /** Every batch but the last holds exactly `size` pages; the last holds
      the pages left over. */
  lemma BatchSizes<P>(pages: seq<P>, size: int)
    requires size >= 1
    ensures forall k :: 0 <= k < |Batches(pages, size)| - 1 ==> |Batches(pages, size)[k]| == size
    ensures |Batches(pages, size)| > 0 ==>
              |Batches(pages, size)[|Batches(pages, size)| - 1]|
              == |pages| - (|Batches(pages, size)| - 1) * size
  {
    forall k | 0 <= k < |Batches(pages, size)| - 1
      ensures |Batches(pages, size)[k]| == size
    {
      FullBatch(pages, size, k);
    }
    if |Batches(pages, size)| > 0 {
      LastBatch(pages, size);
    }
  }

  /** The documented example: 23 pages in batches of 10 give three batches
      of 10, 10 and 3 pages. */
  lemma TwentyThreePages<P>(pages: seq<P>)
    requires |pages| == 23
    ensures |Batches(pages, 10)| == 3
    ensures |Batches(pages, 10)[0]| == 10
    ensures |Batches(pages, 10)[1]| == 10
    ensures |Batches(pages, 10)[2]| == 3
  {
    BatchCount(pages, 10);
    BatchSizes(pages, 10);
  }
}
