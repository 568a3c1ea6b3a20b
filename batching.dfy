/** Which slices of the data rows the pricing sheet writer hands to the host
    in one call each, as the source computes them and as intended. */
module Batching {
  import opened Wrappers

  /** NUM_DATA_ROWS_TO_LOAD: the most data rows written by one call. */
  const BATCH_SIZE: nat := 1000

  /** The data rows [start, end) written by one call. */
  datatype Batch = Batch(start: nat, end: nat)

  /** range(start, stop, BATCH_SIZE). */
  function BatchStarts(start: nat, stop: int): (r: seq<nat>)
    ensures r == [] <==> start >= stop
    decreases stop - start
  {
    if start >= stop then [] else [start] + BatchStarts(start + BATCH_SIZE, stop)
  }

  /** The k-th value of the range is start + k * BATCH_SIZE, below stop. */
  lemma {:induction false} BatchStartsAt(start: nat, stop: int, k: nat)
    requires k < |BatchStarts(start, stop)|
    ensures BatchStarts(start, stop)[k] == start + k * 1000 < stop
    decreases stop - start
  {
    if k > 0 {
      BatchStartsAt(start + BATCH_SIZE, stop, k - 1);
    }
  }

  /** The range stops at its first value that would reach stop. */
  lemma {:induction false} BatchStartsLast(start: nat, stop: int)
    requires start < stop
    ensures stop <= BatchStarts(start, stop)[|BatchStarts(start, stop)| - 1] + BATCH_SIZE
    decreases stop - start
  {
    var rest := BatchStarts(start + BATCH_SIZE, stop);
    assert BatchStarts(start, stop) == [start] + rest;
    if start + BATCH_SIZE < stop {
      BatchStartsLast(start + BATCH_SIZE, stop);
      assert ([start] + rest)[|rest|] == rest[|rest| - 1];
    } else {
      assert rest == [];
      assert ([start] + rest)[0] == start;
    }
  }

  /** One full batch from each start. */
  function FullBatches(starts: seq<nat>): (r: seq<Batch>)
    ensures |r| == |starts|
  {
    if starts == [] then []
    else FullBatches(starts[..|starts| - 1]) + [Batch(starts[|starts| - 1], starts[|starts| - 1] + BATCH_SIZE)]
  }

  /** One more start adds one more full batch at the end. */
  lemma FullBatchesSnoc(starts: seq<nat>, k: nat)
    requires k < |starts|
    ensures FullBatches(starts[..k + 1]) == FullBatches(starts[..k]) + [Batch(starts[k], starts[k] + BATCH_SIZE)]
  {
    assert starts[..k + 1][..k] == starts[..k];
  }

  lemma {:induction false} FullBatchesAt(starts: seq<nat>)
    ensures forall k :: 0 <= k < |starts| ==> FullBatches(starts)[k] == Batch(starts[k], starts[k] + BATCH_SIZE)
  {
    if starts != [] {
      FullBatchesAt(starts[..|starts| - 1]);
    }
  }

  /** The slices the source writes for n data rows: a full batch for each
      start in range(0, n - BATCH_SIZE, BATCH_SIZE), then, in the loop's else
      clause, the rows from the last start plus BATCH_SIZE up to n. None when
      the range is empty: the else clause then reads start_row, which the
      loop never bound, and raises. */
  function AsWrittenBatches(n: nat): Option<seq<Batch>>
  {
    var starts := BatchStarts(0, n - BATCH_SIZE);
    if starts == [] then None
    else
      var next := starts[|starts| - 1] + BATCH_SIZE;
      Some(FullBatches(starts) + if next < n then [Batch(next, n)] else [])
  }

  /** The intended slices: range(0, n, BATCH_SIZE), each batch ending at the
      next start or at n. */
  function Batches(n: nat): seq<Batch>
  {
    var starts := BatchStarts(0, n);
    seq(|starts|, k requires 0 <= k < |starts| => Batch(starts[k], if starts[k] + BATCH_SIZE < n then starts[k] + BATCH_SIZE else n))
  }

  /** bs cuts [0, n) into consecutive non-empty batches of at most
      BATCH_SIZE rows, in order. */
  ghost predicate Tiles(bs: seq<Batch>, n: nat)
  {
    && |bs| > 0
    && bs[0].start == 0
    && bs[|bs| - 1].end == n
    && (forall k :: 0 <= k < |bs| ==> bs[k].start < bs[k].end <= bs[k].start + BATCH_SIZE)
    && (forall k :: 0 <= k < |bs| - 1 ==> bs[k].end == bs[k + 1].start)
  }

  lemma {:induction false} TilesOrdered(bs: seq<Batch>, n: nat, k: nat, j: nat)
    requires Tiles(bs, n) && k < j < |bs|
    ensures bs[k].end <= bs[j].start
    decreases j - k
  {
    if k + 1 < j {
      TilesOrdered(bs, n, k + 1, j);
    }
  }

  lemma {:induction false} TilesLocate(bs: seq<Batch>, n: nat, i: nat, from: nat) returns (k: nat)
    requires Tiles(bs, n) && i < n && from < |bs| && bs[from].start <= i
    ensures from <= k < |bs| && bs[k].start <= i < bs[k].end
    decreases |bs| - from
  {
    if i < bs[from].end {
      k := from;
    } else {
      k := TilesLocate(bs, n, i, from + 1);
    }
  }

  /** Row i falls in some batch of bs. */
  ghost predicate Covered(bs: seq<Batch>, i: nat)
  {
    exists k :: 0 <= k < |bs| && bs[k].start <= i < bs[k].end
  }

  /** A tiling's batches are pairwise disjoint and in order, together cover
      [0, n) exactly, and their ends rise strictly up to n. */
  lemma TilesPartition(bs: seq<Batch>, n: nat)
    requires Tiles(bs, n)
    ensures forall k, j :: 0 <= k < j < |bs| ==> bs[k].end <= bs[j].start && bs[k].end < bs[j].end
    ensures forall k :: 0 <= k < |bs| ==> bs[k].end <= n
    ensures forall i: nat :: i < n ==> Covered(bs, i)
  {
    forall k, j | 0 <= k < j < |bs|
      ensures bs[k].end <= bs[j].start && bs[k].end < bs[j].end
    {
      TilesOrdered(bs, n, k, j);
    }
    forall k | 0 <= k < |bs|
      ensures bs[k].end <= n
    {
      if k < |bs| - 1 {
        TilesOrdered(bs, n, k, |bs| - 1);
      }
    }
    forall i: nat | i < n
      ensures Covered(bs, i)
    {
      var k := TilesLocate(bs, n, i, 0);
    }
  }

  /** The source's slices: present exactly when there are more than
      BATCH_SIZE rows, and then they tile [0, n) as [0, B), [B, 2B), ... with
      the last one ending at n. */
  lemma AsWrittenBatchesSpec(n: nat)
    ensures AsWrittenBatches(n).Some? <==> n > BATCH_SIZE
    ensures n > BATCH_SIZE ==> Tiles(AsWrittenBatches(n).value, n)
    ensures n > BATCH_SIZE ==> forall k :: 0 <= k < |AsWrittenBatches(n).value| ==>
      AsWrittenBatches(n).value[k].start == k * 1000
  {
    var starts := BatchStarts(0, n - BATCH_SIZE);
    if n > BATCH_SIZE {
      var last := starts[|starts| - 1];
      var next := last + BATCH_SIZE;
      BatchStartsAt(0, n - BATCH_SIZE, |starts| - 1);
      BatchStartsLast(0, n - BATCH_SIZE);
      forall k | 0 <= k < |starts|
        ensures starts[k] == k * 1000
      {
        BatchStartsAt(0, n - BATCH_SIZE, k);
      }
      var bs := AsWrittenBatches(n).value;
      FullBatchesAt(starts);
      assert bs == FullBatches(starts) + [Batch(next, n)];
      assert |bs| == |starts| + 1;
      assert bs[|bs| - 1] == Batch(next, n);
      forall k | 0 <= k < |bs| - 1
        ensures bs[k].end == bs[k + 1].start
      {
        if k + 1 < |starts| {
          assert bs[k + 1] == Batch(starts[k + 1], starts[k + 1] + BATCH_SIZE);
        }
      }
    }
  }

  /** The intended slices tile [0, n) for every n > 0, and there are none
      for n = 0. */
  lemma BatchesSpec(n: nat)
    ensures n == 0 <==> Batches(n) == []
    ensures n > 0 ==> Tiles(Batches(n), n)
    ensures forall k :: 0 <= k < |Batches(n)| ==> Batches(n)[k].start == k * 1000
  {
    var bs := Batches(n);
    var starts := BatchStarts(0, n);
    forall k | 0 <= k < |starts|
      ensures starts[k] == k * 1000 < n
    {
      BatchStartsAt(0, n, k);
    }
    if n > 0 {
      BatchStartsLast(0, n);
      forall k | 0 <= k < |bs| - 1
        ensures bs[k].end == bs[k + 1].start
      {
        assert starts[k + 1] == starts[k] + BATCH_SIZE;
      }
    }
  }
}
