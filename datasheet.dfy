/** Writing the pricing header and data rows into the pricing sheet, one
    block of rows per host call, with progress reported to a status
    indicator. */
module DataSheet {
  import opened Wrappers
  import opened Sheet
  import opened Batching
  import opened Text

  const LOADING_CAPTION := "Loading pricing data..."

  /** The exception the as-written loop raises when it never ran. */
  datatype LoadError = UnboundLocal(name: string)

  /** The sheet rows each batch is written to: the data area starts at sheet
      row 1, below the header. */
  function SpansOf(bs: seq<Batch>): (r: seq<Span>)
    ensures |r| == |bs|
  {
    if bs == [] then [] else [Span(1 + bs[0].start, 1 + bs[0].end)] + SpansOf(bs[1..])
  }

  /** The progress value reported after each batch: the batch's end row. */
  function ProgressOf(bs: seq<Batch>): (r: seq<Progress>)
    ensures |r| == |bs|
  {
    if bs == [] then [] else [ValueSet(bs[0].end)] + ProgressOf(bs[1..])
  }

  /** Batch k is written to sheet rows [1 + start, 1 + end) and reported
      as its end row. */
  lemma {:induction false} ReportedBatches(bs: seq<Batch>)
    ensures forall k :: 0 <= k < |bs| ==> SpansOf(bs)[k] == Span(1 + bs[k].start, 1 + bs[k].end)
    ensures forall k :: 0 <= k < |bs| ==> ProgressOf(bs)[k] == ValueSet(bs[k].end)
  {
    if bs != [] {
      ReportedBatches(bs[1..]);
    }
  }

  lemma {:induction false} SpansOfAppend(a: seq<Batch>, b: seq<Batch>)
    ensures SpansOf(a + b) == SpansOf(a) + SpansOf(b)
  {
    if a == [] {
      assert a + b == b;
    } else {
      assert (a + b)[1..] == a[1..] + b;
      SpansOfAppend(a[1..], b);
    }
  }

  lemma {:induction false} ProgressOfAppend(a: seq<Batch>, b: seq<Batch>)
    ensures ProgressOf(a + b) == ProgressOf(a) + ProgressOf(b)
  {
    if a == [] {
      assert a + b == b;
    } else {
      assert (a + b)[1..] == a[1..] + b;
      ProgressOfAppend(a[1..], b);
    }
  }

  /** The progress values of a tiling of [0, n) rise strictly and end at n. */
  lemma ProgressRises(bs: seq<Batch>, n: nat)
    requires Tiles(bs, n)
    ensures |ProgressOf(bs)| > 0 && ProgressOf(bs)[|bs| - 1] == ValueSet(n)
    ensures forall k :: 0 <= k < |bs| ==> ProgressOf(bs)[k].ValueSet?
    ensures forall k, j :: 0 <= k < j < |bs| ==>
      ProgressOf(bs)[k].value < ProgressOf(bs)[j].value <= n
  {
    TilesPartition(bs, n);
    ReportedBatches(bs);
  }

  /** The sheet after the header and the given data rows are written:
      row 0 holds the header and row 1 + i holds rows[i]. */
  function Loaded(headers: Row, rows: seq<Row>): map<nat, Row>
  {
    Placed([headers], 0) + Placed(rows, 1)
  }

  /** The loaded sheet holds the header in row 0, rows[i] in row 1 + i,
      and nothing in any other row. */
  lemma LoadedSpec(headers: Row, rows: seq<Row>)
    ensures forall r: nat :: r in Loaded(headers, rows) <==> r <= |rows|
    ensures Loaded(headers, rows)[0] == headers
    ensures forall i :: 0 <= i < |rows| ==> Loaded(headers, rows)[1 + i] == rows[i]
  {
    var h, d := Placed([headers], 0), Placed(rows, 1);
    assert 0 in h && 0 !in d && h[0] == [headers][0];
    forall r: nat
      ensures r in Loaded(headers, rows) <==> r <= |rows|
    {
      assert r in h <==> r == 0;
      assert r in d <==> 1 <= r <= |rows|;
    }
    forall i | 0 <= i < |rows|
      ensures Loaded(headers, rows)[1 + i] == rows[i]
    {
      assert 1 + i in d;
    }
  }

  lemma UnionAssoc<K, V>(a: map<K, V>, b: map<K, V>, c: map<K, V>)
    ensures a + b + c == a + (b + c)
  {
  }

  /** One batch written below what is already loaded extends the load. */
  lemma LoadedStep(headers: Row, rows: seq<Row>, s: nat, e: nat)
    requires s <= e <= |rows|
    ensures Loaded(headers, rows[..s]) + Placed(rows[s..e], 1 + s) == Loaded(headers, rows[..e])
  {
    var h, a, b := Placed([headers], 0), Placed(rows[..s], 1), Placed(rows[s..e], 1 + s);
    UnionAssoc(h, a, b);
    PlacedAppend(rows, s, e, 1);
  }

  /** Clear the sheet, write the header into row 0 in bold, and start the
      progress indicator at n rows. */
  method BeginLoad(sheet: Sheet, headers: Row, n: nat, status: StatusIndicator)
    modifies sheet, status
    ensures sheet.boldRows == {0}
    ensures sheet.cells == Loaded(headers, [])
    ensures sheet.writes == old(sheet.writes) + [Span(0, 1)]
    ensures status.log == old(status.log) + [Started(LOADING_CAPTION, n)]
  {
    sheet.ClearContents();
    sheet.SetDataArray(0, [headers]);
    sheet.SetBold(0);
    assert [headers] + [] == [headers];
    status.Start(LOADING_CAPTION, n);
  }

  /** Write the rows of one batch below those already loaded and report its
      end row; `done` are the batches written before it since `writes0` and
      `log0`. */
  method LoadBatch(sheet: Sheet, headers: Row, rows: seq<Row>, b: Batch, status: StatusIndicator,
                   ghost writes0: seq<Span>, ghost log0: seq<Progress>, ghost done: seq<Batch>)
    requires b.start <= b.end <= |rows|
    requires sheet.cells == Loaded(headers, rows[..b.start])
    requires sheet.writes == writes0 + SpansOf(done)
    requires status.log == log0 + ProgressOf(done)
    modifies sheet, status
    ensures sheet.boldRows == old(sheet.boldRows)
    ensures sheet.cells == Loaded(headers, rows[..b.end])
    ensures sheet.writes == writes0 + SpansOf(done + [b])
    ensures status.log == log0 + ProgressOf(done + [b])
  {
    sheet.SetDataArray(1 + b.start, rows[b.start..b.end]);
    status.SetValue(b.end);
    LoadedStep(headers, rows, b.start, b.end);
    SpansOfAppend(done, [b]);
    ProgressOfAppend(done, [b]);
    assert SpansOf([b]) == [Span(1 + b.start, 1 + b.end)];
    assert ProgressOf([b]) == [ValueSet(b.end)];
    assert writes0 + SpansOf(done) + SpansOf([b]) == writes0 + (SpansOf(done) + SpansOf([b]));
    assert log0 + ProgressOf(done) + ProgressOf([b]) == log0 + (ProgressOf(done) + ProgressOf([b]));
  }

  /** The for loop of _update_pricing_data_sheet: one full batch from each
      start, leaving start_row bound to the last start, or unbound when
      there are no starts. */
  method LoadFullBatches(sheet: Sheet, headers: Row, rows: seq<Row>, starts: seq<nat>, status: StatusIndicator)
    returns (startRow: Option<nat>)
    requires starts == BatchStarts(0, |rows| - BATCH_SIZE)
    requires sheet.cells == Loaded(headers, [])
    modifies sheet, status
    ensures startRow == if starts == [] then None else Some(starts[|starts| - 1])
    ensures |starts| * 1000 <= |rows|
    ensures sheet.cells == Loaded(headers, rows[..|starts| * 1000])
    ensures sheet.boldRows == old(sheet.boldRows)
    ensures sheet.writes == old(sheet.writes) + SpansOf(FullBatches(starts))
    ensures status.log == old(status.log) + ProgressOf(FullBatches(starts))
  {
    assert rows[..0] == [];
    startRow := None;
    ghost var loaded := 0;
    var k := 0;
    while k < |starts|
      invariant k <= |starts|
      invariant startRow == if k == 0 then None else Some(starts[k - 1])
      invariant loaded == k * 1000
      invariant loaded <= |rows|
      invariant sheet.cells == Loaded(headers, rows[..loaded])
      invariant sheet.boldRows == old(sheet.boldRows)
      invariant sheet.writes == old(sheet.writes) + SpansOf(FullBatches(starts[..k]))
      invariant status.log == old(status.log) + ProgressOf(FullBatches(starts[..k]))
    {
      BatchStartsAt(0, |rows| - BATCH_SIZE, k);
      startRow := Some(starts[k]);
      var b := Batch(starts[k], starts[k] + BATCH_SIZE);
      ghost var done := FullBatches(starts[..k]);
      assert b.start == loaded;
      LoadBatch(sheet, headers, rows, b, status, old(sheet.writes), old(status.log), done);
      loaded := b.end;
      FullBatchesSnoc(starts, k);
      k := k + 1;
    }
    assert starts[..k] == starts;
  }

  /** _update_pricing_data_sheet as written. The loop runs over
      range(0, n - BATCH_SIZE, BATCH_SIZE) and its else clause writes the
      rows left after the last full batch; when the range is empty the else
      clause reads an unbound start_row and the call raises after the
      header and the progress start have gone out. */
  method UpdatePricingDataSheet(sheet: Sheet, headers: Row, rows: seq<Row>, status: StatusIndicator)
    returns (err: Option<LoadError>)
    modifies sheet, status
    ensures sheet.boldRows == {0}
    ensures AsWrittenBatches(|rows|).None? ==>
      && err == Some(UnboundLocal("start_row"))
      && sheet.cells == Loaded(headers, [])
      && sheet.writes == old(sheet.writes) + [Span(0, 1)]
      && status.log == old(status.log) + [Started(LOADING_CAPTION, |rows|)]
    ensures AsWrittenBatches(|rows|).Some? ==>
      && err == None
      && sheet.cells == Loaded(headers, rows)
      && sheet.writes == old(sheet.writes) + [Span(0, 1)] + SpansOf(AsWrittenBatches(|rows|).value)
      && status.log == old(status.log) + [Started(LOADING_CAPTION, |rows|)]
                       + ProgressOf(AsWrittenBatches(|rows|).value) + [Ended]
  {
    BeginLoad(sheet, headers, |rows|, status);
    ghost var writes1, log1 := sheet.writes, status.log;
    var starts := BatchStarts(0, |rows| - BATCH_SIZE);
    var startRow := LoadFullBatches(sheet, headers, rows, starts, status);
    if startRow.None? {
      assert rows[..0] == [];
      return Some(UnboundLocal("start_row"));
    }
    var start := startRow.value + BATCH_SIZE;
    BatchStartsAt(0, |rows| - BATCH_SIZE, |starts| - 1);
    assert start == |starts| * 1000;
    assert rows[..|rows|] == rows;
    ghost var bs := AsWrittenBatches(|rows|).value;
    ghost var full := FullBatches(starts);
    if start < |rows| {
      var b := Batch(start, |rows|);
      LoadBatch(sheet, headers, rows, b, status, writes1, log1, full);
      assert bs == full + [b];
    }
    status.End();
    err := None;
  }

  /** The batching loop as intended: range(0, n, BATCH_SIZE), each batch
      ending at the next start or at n. It never fails and writes every
      row, whatever n is. */
  method UpdatePricingDataSheetCorrected(sheet: Sheet, headers: Row, rows: seq<Row>, status: StatusIndicator)
    modifies sheet, status
    ensures sheet.boldRows == {0}
    ensures sheet.cells == Loaded(headers, rows)
    ensures sheet.writes == old(sheet.writes) + [Span(0, 1)] + SpansOf(Batches(|rows|))
    ensures status.log == old(status.log) + [Started(LOADING_CAPTION, |rows|)]
                          + ProgressOf(Batches(|rows|)) + [Ended]
  {
    BeginLoad(sheet, headers, |rows|, status);
    assert rows[..0] == [];
    ghost var writes0 := sheet.writes;
    ghost var log0 := status.log;

    var bs := Batches(|rows|);
    BatchesSpec(|rows|);
    var k := 0;
    while k < |bs|
      invariant k <= |bs|
      invariant sheet.cells == Loaded(headers, rows[..if k == 0 then 0 else bs[k - 1].end])
      invariant sheet.boldRows == {0}
      invariant sheet.writes == writes0 + SpansOf(bs[..k])
      invariant status.log == log0 + ProgressOf(bs[..k])
    {
      var startRow := k * BATCH_SIZE;
      var endRow := if startRow + BATCH_SIZE < |rows| then startRow + BATCH_SIZE else |rows|;
      assert bs[k] == Batch(startRow, endRow);
      LoadBatch(sheet, headers, rows, bs[k], status, writes0, log0, bs[..k]);
      assert bs[..k + 1] == bs[..k] + [bs[k]];
      k := k + 1;
    }
    assert bs[..k] == bs;
    if k > 0 {
      assert rows[..bs[k - 1].end] == rows;
    }
    status.End();
  }
}
