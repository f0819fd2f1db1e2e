/**
  The batching arithmetic of `upload_to_seatable`: the rows read back from the
  `front` file are appended remotely in consecutive slices `rows[i:i + 50]`
  for `i` in `range(0, len(rows), 50)`, and after each slice the count
  `min(i + 50, len(rows))` is reported. The remote calls themselves are not
  modelled; the method returns the slices it would send and the counts it
  would report.
 */
module Batching {
  import opened Classifier

  /** `batch_size`: rows sent per append call. */
  const BatchSize: nat := 50

  /** Python's `min` on two counts. */
  function Min(a: nat, b: nat): nat {
    if a <= b then a else b
  }

  /** The concatenation of a sequence of chunks. */
  function Flatten<T>(cs: seq<seq<T>>): seq<T> {
    if cs == [] then [] else cs[0] + Flatten(cs[1..])
  }

  /** `rows` cut into consecutive slices of `n`, front to back. */
  function Chunks<T>(rows: seq<T>, n: nat): seq<seq<T>>
    requires n > 0
    decreases |rows|
  {
    if |rows| == 0 then []
    else if |rows| <= n then [rows]
    else [rows[..n]] + Chunks(rows[n..], n)
  }

  /** The chunks concatenate back to `rows`, every chunk is non-empty and
      holds at most `n` rows, all but the last hold exactly `n`, and no rows
      give no chunks. */
  lemma {:induction false} ChunksSpec<T>(rows: seq<T>, n: nat)
    requires n > 0
    ensures Flatten(Chunks(rows, n)) == rows
    ensures forall k :: 0 <= k < |Chunks(rows, n)| ==> 0 < |Chunks(rows, n)[k]| <= n
    ensures forall k :: 0 <= k < |Chunks(rows, n)| - 1 ==> |Chunks(rows, n)[k]| == n
    ensures rows == [] <==> Chunks(rows, n) == []
    decreases |rows|
  {
    var cs := Chunks(rows, n);
    if |rows| == 0 {
    } else if |rows| <= n {
      assert Flatten([rows]) == rows + Flatten([]);
    } else {
      var rest := Chunks(rows[n..], n);
      ChunksSpec(rows[n..], n);
      assert cs == [rows[..n]] + rest;
      assert Flatten([rows[..n]] + rest) == rows[..n] + Flatten(rest);
      assert rows[..n] + rows[n..] == rows;
    }
  }

  /** There are `ceil(|rows| / n)` chunks: the fewest slices of `n` that cover
      a non-empty `rows`. */
  lemma {:induction false} ChunkCount<T>(rows: seq<T>, n: nat)
    requires n > 0 && rows != []
    ensures (|Chunks(rows, n)| - 1) * n < |rows| <= |Chunks(rows, n)| * n
    decreases |rows|
  {
    if |rows| > n {
      var c := |Chunks(rows[n..], n)|;
      ChunkCount(rows[n..], n);
      assert Chunks(rows, n) == [rows[..n]] + Chunks(rows[n..], n);
      assert (c + 1 - 1) * n == (c - 1) * n + n;
      assert (c + 1) * n == c * n + n;
    }
  }

  /** One step of the upload loop: the first chunk of a non-empty `s` is its
      first `min(n, |s|)` elements, and the rest are the chunks of what
      follows. */
  lemma ChunksStep<T>(s: seq<T>, n: nat)
    requires n > 0 && |s| > 0
    ensures Chunks(s, n) == [s[..Min(n, |s|)]] + Chunks(s[Min(n, |s|)..], n)
  {
    if |s| <= n {
      assert s[..|s|] == s;
      assert s[|s|..] == [];
    }
  }

  /** Slicing a suffix is slicing the original at shifted bounds. */
  lemma SliceOfSuffix<T>(s: seq<T>, i: nat, m: nat)
    requires i + m <= |s|
    ensures s[i..][..m] == s[i..i + m]
    ensures s[i..][m..] == s[i + m..]
  {
    assert |s[i..][..m]| == m;
    forall p | 0 <= p < m
      ensures s[i..][..m][p] == s[i..i + m][p]
    {
    }
  }

  /** The chunks of `rows[i..]` are the slice `rows[i:i + n]` followed by the
      chunks of what comes after it. */
  lemma ChunksFrom<T>(rows: seq<T>, i: nat, n: nat)
    requires n > 0 && i < |rows|
    ensures Chunks(rows[i..], n) == [rows[i..Min(i + n, |rows|)]] + Chunks(rows[Min(i + n, |rows|)..], n)
  {
    var m := Min(n, |rows| - i);
    ChunksStep(rows[i..], n);
    SliceOfSuffix(rows, i, m);
  }

  /** A slice of a suffix is a slice of the original at shifted bounds. */
  lemma SliceRangeOfSuffix<T>(s: seq<T>, i: nat, lo: nat, hi: nat)
    requires lo <= hi && i + hi <= |s|
    ensures s[i..][lo..hi] == s[i + lo..i + hi]
  {
    forall p | 0 <= p < hi - lo
      ensures s[i..][lo..hi][p] == s[i + lo..i + hi][p]
    {
    }
  }

  /** Chunk `k` is the Python slice `rows[k * n : (k + 1) * n]`, clipped to the
      end of `rows`. */
  lemma {:induction false} ChunkIsSlice<T>(rows: seq<T>, n: nat, k: nat)
    requires n > 0 && k < |Chunks(rows, n)|
    ensures k * n < |rows|
    ensures Chunks(rows, n)[k] == rows[k * n .. Min((k + 1) * n, |rows|)]
    decreases |rows|
  {
    if |rows| <= n {
      assert rows[0..|rows|] == rows;
    } else if k > 0 {
      var rest := rows[n..];
      ChunkIsSlice(rest, n, k - 1);
      var lo, hi := (k - 1) * n, Min(k * n, |rest|);
      assert n + lo == k * n;
      assert (k + 1) * n == k * n + n;
      assert n + hi == Min((k + 1) * n, |rows|);
      SliceRangeOfSuffix(rows, n, lo, hi);
    }
  }

  /** After chunk `k` has been sent, `min((k + 1) * n, |rows|)` rows have been
      sent in all: the count the loop reports is the number of rows uploaded
      so far. */
  lemma {:induction false} SentSoFar<T>(rows: seq<T>, n: nat, k: nat)
    requires n > 0 && k < |Chunks(rows, n)|
    ensures |Flatten(Chunks(rows, n)[..k + 1])| == Min((k + 1) * n, |rows|)
    decreases |rows|
  {
    var cs := Chunks(rows, n);
    if |rows| <= n {
      assert cs[..k + 1] == [rows];
      assert Flatten([rows]) == rows + Flatten([]);
    } else {
      var rest := Chunks(rows[n..], n);
      assert cs == [rows[..n]] + rest;
      if k == 0 {
        assert cs[..1] == [rows[..n]];
        assert Flatten([rows[..n]]) == rows[..n] + Flatten([]);
      } else {
        SentSoFar(rows[n..], n, k - 1);
        assert cs[..k + 1] == [rows[..n]] + rest[..k];
        assert Flatten(cs[..k + 1]) == rows[..n] + Flatten(rest[..k]);
        assert k * n + n == (k + 1) * n;
      }
    }
  }

  /** One pass of the upload loop: the slice passed to the append call, and
      the count of rows printed as uploaded after it. */
  datatype Step<T> = Step(batch: seq<T>, sent: nat)

  /** The passes of the upload loop from offset `i` on: for each `i` of
      `range(i, len(rows), 50)`, the slice `rows[i:i + 50]` and the count
      `min(i + 50, len(rows))`. */
  function Steps<T>(rows: seq<T>, i: nat): seq<Step<T>>
    decreases |rows| - i
  {
    if i < |rows| then
      var j := Min(i + BatchSize, |rows|);
      [Step(rows[i..j], j)] + Steps(rows, i + BatchSize)
    else []
  }

  /** The slices the passes send, in order: one per pass. */
  function Batches<T>(steps: seq<Step<T>>): (r: seq<seq<T>>)
    ensures |r| == |steps|
    ensures forall k :: 0 <= k < |r| ==> r[k] == steps[k].batch
  {
    if steps == [] then [] else [steps[0].batch] + Batches(steps[1..])
  }

  /** The slices sent from offset `i` on are exactly the chunks of
      `rows[i..]`. */
  lemma {:induction false} StepsFromAreChunks<T>(rows: seq<T>, i: nat)
    requires i <= |rows|
    ensures Batches(Steps(rows, i)) == Chunks(rows[i..], BatchSize)
    decreases |rows| - i
  {
    var steps := Steps(rows, i);
    if i < |rows| {
      var j := Min(i + BatchSize, |rows|);
      var rest := Steps(rows, i + BatchSize);
      ChunksFrom(rows, i, BatchSize);
      assert steps == [Step(rows[i..j], j)] + rest;
      assert steps[1..] == rest;
      if j < |rows| {
        StepsFromAreChunks(rows, j);
      } else {
        assert rest == [];
        assert rows[j..] == [];
      }
    } else {
      assert rows[i..] == [];
    }
  }

  /** The slices the upload loop sends are exactly the chunks of `rows`, so
      `ChunksSpec`, `ChunkCount` and `ChunkIsSlice` describe them: they
      concatenate back to `rows`, there are `ceil(len(rows) / 50)` of them,
      and each holds between 1 and 50 rows. */
  lemma StepsAreChunks<T>(rows: seq<T>)
    ensures Batches(Steps(rows, 0)) == Chunks(rows, BatchSize)
  {
    StepsFromAreChunks(rows, 0);
    assert rows[0..] == rows;
  }

  /** The count printed after pass `k` from offset `i` is
      `min(i + 50 * (k + 1), len(rows))`. */
  lemma {:induction false} StepsSent<T>(rows: seq<T>, i: nat)
    ensures forall k :: 0 <= k < |Steps(rows, i)| ==>
              Steps(rows, i)[k].sent == Min(i + (k + 1) * BatchSize, |rows|)
    decreases |rows| - i
  {
    if i < |rows| {
      var r, r' := Steps(rows, i), Steps(rows, i + BatchSize);
      StepsSent(rows, i + BatchSize);
      assert r == [Step(rows[i..Min(i + BatchSize, |rows|)], Min(i + BatchSize, |rows|))] + r';
      forall k | 0 < k < |r|
        ensures r[k].sent == Min(i + (k + 1) * BatchSize, |rows|)
      {
        assert r[k] == r'[k - 1];
        assert i + BatchSize + k * BatchSize == i + (k + 1) * BatchSize;
      }
    }
  }

  /** The count printed after the last pass is `len(rows)`: every row has been
      sent once the loop ends. */
  lemma {:induction false} LastSent<T>(rows: seq<T>, i: nat)
    requires i < |rows|
    ensures Steps(rows, i) != []
    ensures Steps(rows, i)[|Steps(rows, i)| - 1].sent == |rows|
    decreases |rows| - i
  {
    var r' := Steps(rows, i + BatchSize);
    assert Steps(rows, i) == [Step(rows[i..Min(i + BatchSize, |rows|)], Min(i + BatchSize, |rows|))] + r';
    if i + BatchSize < |rows| {
      LastSent(rows, i + BatchSize);
    }
  }

  /** The count printed after pass `k` is the number of rows the passes so far
      have sent, and no rows means no passes. */
  lemma SentCountsRows<T>(rows: seq<T>)
    ensures rows == [] <==> Steps(rows, 0) == []
    ensures forall k :: 0 <= k < |Steps(rows, 0)| ==>
              Steps(rows, 0)[k].sent == |Flatten(Batches(Steps(rows, 0))[..k + 1])|
  {
    var steps := Steps(rows, 0);
    StepsAreChunks(rows);
    StepsSent(rows, 0);
    forall k | 0 <= k < |steps|
      ensures steps[k].sent == |Flatten(Batches(steps)[..k + 1])|
    {
      SentSoFar(rows, BatchSize, k);
    }
  }

  /** The upload loop of `upload_to_seatable`. `rows` are the records read back
      from the `front` file, one per data row; each pass sends one slice and
      prints one count. The passes are exactly `Steps(rows, 0)`. */
  method UploadBatches(rows: seq<Row>) returns (steps: seq<Step<Row>>)
    ensures steps == Steps(rows, 0)
  {
    steps := [];
    var i := 0;
    while i < |rows|
      invariant steps + Steps(rows, i) == Steps(rows, 0)
    {
      var j := Min(i + BatchSize, |rows|);
      var batch := rows[i..j];
      assert Steps(rows, i) == [Step(batch, j)] + Steps(rows, i + BatchSize);
      assert (steps + [Step(batch, j)]) + Steps(rows, i + BatchSize) == steps + Steps(rows, i);
      steps := steps + [Step(batch, j)];
      i := i + BatchSize;
    }
    assert steps == steps + Steps(rows, i);
  }
}
