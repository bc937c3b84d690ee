/**
 * The batched liquidity screen: the ticker list is cut into consecutive
 * batches, each batch is downloaded in one call, and every ticker of a
 * downloaded batch whose `Volume` column has a mean of at least
 * `min_volume` is recorded.  The download is an input function from a
 * batch to its outcome.
 */
module LiquidBatched {
  import opened Wrappers
  import opened Lists
  import opened Volume
  import opened Arith

  // ----- Batches --------------------------------------------------------------

  /** `tickers[i:i + batch_size]` for `i` in `range(0, len(tickers), batch_size)`. */
  function Batches(s: seq<string>, size: nat): seq<seq<string>>
    requires size > 0
    decreases |s|
  {
    if s == [] then []
    else if |s| <= size then [s]
    else [s[..size]] + Batches(s[size..], size)
  }

  function Flatten(bs: seq<seq<string>>): seq<string>
  {
    if bs == [] then [] else bs[0] + Flatten(bs[1..])
  }

  /**
   * The batches are consecutive slices of `size` tickers, the last one
   * possibly shorter but never empty, and together they are the input.
   */
  lemma {:induction false} BatchesSpec(s: seq<string>, size: nat)
    requires size > 0
    ensures Flatten(Batches(s, size)) == s
    ensures forall j :: 0 <= j < |Batches(s, size)| ==> 0 < |Batches(s, size)[j]| <= size
    ensures forall j :: 0 <= j < |Batches(s, size)| - 1 ==> |Batches(s, size)[j]| == size
    decreases |s|
  {
    if |s| > size {
      BatchesSpec(s[size..], size);
      var rest := Batches(s[size..], size);
      assert Batches(s, size)[1..] == rest;
      assert s == s[..size] + s[size..];
    }
  }

  /** The `j`-th batch is the slice starting at `j · size`. */
  lemma {:induction false} BatchAt(s: seq<string>, size: nat, j: nat)
    requires size > 0 && j < |Batches(s, size)|
    ensures j * size < |s|
    ensures Batches(s, size)[j] == s[j * size..MinNat(j * size + size, |s|)]
    decreases |s|
  {
    if j > 0 {
      assert |s| > size;
      var t := s[size..];
      assert Batches(s, size)[j] == Batches(t, size)[j - 1];
      BatchAt(t, size, j - 1);
      var lo := (j - 1) * size;
      MulStep(j, size);
      var hi := MinNat(lo + size, |t|);
      assert hi + size == MinNat(j * size + size, |s|);
      SliceOfDrop(s, size, lo, hi);
    }
  }

  lemma MulStep(j: nat, size: nat)
    requires j > 0
    ensures (j - 1) * size + size == j * size
  {
  }

  /** The batch count the screen reports, `(total - 1) // batch_size + 1`, is the number of batches. */
  lemma {:induction false} BatchCount(s: seq<string>, size: nat)
    requires size > 0 && |s| >= 1
    ensures |Batches(s, size)| == (|s| - 1) / size + 1
    decreases |s|
  {
    if |s| > size {
      BatchCount(s[size..], size);
      DivShift(|s| - 1, size);
    } else {
      DivSmall(|s| - 1, size);
    }
  }

  lemma DivSmall(a: nat, size: nat)
    requires size > 0 && a < size
    ensures a / size == 0
  {
  }

  /** Removing one `size` from the dividend removes one from the quotient. */
  lemma DivShift(a: nat, size: nat)
    requires size > 0 && a >= size
    ensures a / size == (a - size) / size + 1
  {
    var q, r := (a - size) / size, (a - size) % size;
    assert a - size == q * size + r && 0 <= r < size;
    DivUnique(a, size, q + 1, r);
  }

  // ----- One batch --------------------------------------------------------------

  /** One ticker's frame: its `Volume` column, `None` when the frame has no such column. */
  datatype Frame = Frame(volume: Option<seq<Option<real>>>)

  /**
   * A batch download: an exception, or the whole frame together with the
   * per-ticker sub-frames that `df[ticker]` can select.
   */
  datatype Download = Failed | Downloaded(whole: Frame, byTicker: map<string, Frame>)

  /** One liquid stock as recorded in the results. */
  datatype LiquidStock = LiquidStock(ticker: string, avgVolume: int)

  /**
   * The frame a ticker of a downloaded batch of `batchSize` tickers is
   * judged on: a one-ticker batch uses the whole frame; otherwise
   * `df[ticker]`, which raises when the ticker has no sub-frame.
   */
  function FrameOf(ticker: string, batchSize: nat, whole: Frame, byTicker: map<string, Frame>): Option<Frame>
  {
    if batchSize == 1 then Some(whole) else if ticker in byTicker then Some(byTicker[ticker]) else None
  }

  /** The threshold test on one frame: non-empty, with `Volume`, and a mean of at least `min_volume`. */
  function FrameRecord(ticker: string, frame: Frame, minVolume: int): (r: Option<LiquidStock>)
    ensures r.Some? <==> frame.volume.Some? && |frame.volume.value| > 0 && MeetsVolume(frame.volume.value, minVolume)
    ensures r.Some? ==> r.value.ticker == ticker && minVolume <= r.value.avgVolume
  {
    match frame.volume
    case None => None
    case Some(volumes) =>
      if |volumes| > 0 && MeetsVolume(volumes, minVolume) then
        Some(LiquidStock(ticker, AverageVolume(volumes, minVolume)))
      else None
  }

  /** One ticker of a downloaded batch; a missing sub-frame skips the ticker. */
  function TickerRecord(ticker: string, batchSize: nat, whole: Frame, byTicker: map<string, Frame>, minVolume: int): (r: Option<LiquidStock>)
    ensures r.Some? ==> r.value.ticker == ticker && minVolume <= r.value.avgVolume
  {
    match FrameOf(ticker, batchSize, whole, byTicker)
    case None => None
    case Some(frame) => FrameRecord(ticker, frame, minVolume)
  }

  /** The records of the tickers `ts` of a downloaded batch of `batchSize` tickers, in order. */
  function Records(ts: seq<string>, batchSize: nat, whole: Frame, byTicker: map<string, Frame>, minVolume: int): seq<LiquidStock>
  {
    if ts == [] then []
    else
      Records(ts[..|ts| - 1], batchSize, whole, byTicker, minVolume)
        + match TickerRecord(ts[|ts| - 1], batchSize, whole, byTicker, minVolume)
          case Some(x) => [x]
          case None => []
  }

  /** What one batch adds: nothing when its download raised. */
  function BatchRecords(batch: seq<string>, outcome: Download, minVolume: int): seq<LiquidStock>
  {
    match outcome
    case Failed => []
    case Downloaded(whole, byTicker) => Records(batch, |batch|, whole, byTicker, minVolume)
  }

  function BatchOutcome(download: seq<string> -> Download, minVolume: int): seq<string> -> seq<LiquidStock>
  {
    b => BatchRecords(b, download(b), minVolume)
  }

  /** The results of a sequence of batches, batch after batch. */
  function Concat(bs: seq<seq<string>>, f: seq<string> -> seq<LiquidStock>): seq<LiquidStock>
  {
    if bs == [] then [] else Concat(bs[..|bs| - 1], f) + f(bs[|bs| - 1])
  }

  /** What `filter_by_volume` returns. */
  function Screened(tickers: seq<string>, batchSize: nat, download: seq<string> -> Download, minVolume: int): seq<LiquidStock>
    requires batchSize > 0
  {
    Concat(Batches(tickers, batchSize), BatchOutcome(download, minVolume))
  }

  // ----- filter_by_volume ------------------------------------------------------

  /** The screen's two nested loops: over the batches, and over the tickers of each downloaded batch. */
  method FilterByVolume(tickers: seq<string>, minVolume: int, batchSize: nat, download: seq<string> -> Download)
    returns (liquid: seq<LiquidStock>)
    requires batchSize > 0
    ensures liquid == Screened(tickers, batchSize, download, minVolume)
  {
    ghost var bs := Batches(tickers, batchSize);
    ghost var f := BatchOutcome(download, minVolume);
    liquid := [];
    var total := |tickers|;
    var i := 0;
    ghost var j := 0;
    while i < total
      invariant 0 <= j <= |bs|
      invariant i == j * batchSize
      invariant i < total <==> j < |bs|
      invariant liquid == Concat(bs[..j], f)
      decreases total - i
    {
      BatchStep(tickers, batchSize, j, f);
      var batch := tickers[i..MinNat(i + batchSize, total)];
      var found := ScreenBatch(batch, download(batch), minVolume);
      assert batch == bs[j];
      assert found == f(bs[j]);
      liquid := liquid + found;
      i := i + batchSize;
      j := j + 1;
    }
    assert bs[..j] == bs;
  }

  /**
   * One turn of the batch loop: the `j`-th batch is the slice at `j · size`,
   * the next start is past the end exactly after the last batch, and the
   * results grow by the batch's own.
   */
  lemma BatchStep(s: seq<string>, size: nat, j: nat, f: seq<string> -> seq<LiquidStock>)
    requires size > 0 && j < |Batches(s, size)|
    ensures j * size < |s| && (j + 1) * size == j * size + size
    ensures Batches(s, size)[j] == s[j * size..MinNat(j * size + size, |s|)]
    ensures (j + 1) * size < |s| <==> j + 1 < |Batches(s, size)|
    ensures Concat(Batches(s, size)[..j + 1], f) == Concat(Batches(s, size)[..j], f) + f(Batches(s, size)[j])
  {
    var bs := Batches(s, size);
    BatchAt(s, size, j);
    NextBatch(s, size, j);
    assert bs[..j + 1][..j] == bs[..j];
  }

  /** The next slice start is past the end exactly when the batch was the last one. */
  lemma NextBatch(s: seq<string>, size: nat, j: nat)
    requires size > 0 && j < |Batches(s, size)|
    ensures (j + 1) * size < |s| <==> j + 1 < |Batches(s, size)|
  {
    if j + 1 < |Batches(s, size)| {
      BatchAt(s, size, j + 1);
    } else {
      BatchCount(s, size);
      var a := |s| - 1;
      assert a == (a / size) * size + a % size;
      assert (j + 1) * size == j * size + size;
    }
  }

  /** The inner loop over one batch, with its `try`/`continue` per ticker and per batch. */
  method ScreenBatch(batch: seq<string>, outcome: Download, minVolume: int) returns (found: seq<LiquidStock>)
    ensures found == BatchRecords(batch, outcome, minVolume)
  {
    found := [];
    if outcome.Failed? {
      return;
    }
    for k := 0 to |batch|
      invariant found == Records(batch[..k], |batch|, outcome.whole, outcome.byTicker, minVolume)
    {
      var ticker := batch[k];
      assert batch[..k + 1][..k] == batch[..k];
      var frame: Frame;
      if |batch| == 1 {
        frame := outcome.whole;
      } else if ticker in outcome.byTicker {
        frame := outcome.byTicker[ticker];
      } else {
        continue;
      }
      if frame.volume.Some? && |frame.volume.value| > 0 {
        var volumes := frame.volume.value;
        if MeetsVolume(volumes, minVolume) {
          var avg := AverageVolume(volumes, minVolume);
          found := found + [LiquidStock(ticker, avg)];
        }
      }
    }
    assert batch[..|batch|] == batch;
  }

  // ----- Properties ------------------------------------------------------------

  /** The results split over a concatenation of batch lists. */
  lemma {:induction false} ConcatAppend(a: seq<seq<string>>, b: seq<seq<string>>, f: seq<string> -> seq<LiquidStock>)
    ensures Concat(a + b, f) == Concat(a, f) + Concat(b, f)
    decreases |b|
  {
    if b == [] {
      assert a + b == a;
    } else {
      var b' := b[..|b| - 1];
      assert (a + b)[..|a + b| - 1] == a + b';
      ConcatAppend(a, b', f);
    }
  }

  /** A batch that adds nothing leaves the results of the batches around it as they were. */
  lemma ConcatSkips(before: seq<seq<string>>, batch: seq<string>, after: seq<seq<string>>, f: seq<string> -> seq<LiquidStock>)
    requires f(batch) == []
    ensures Concat(before + [batch] + after, f) == Concat(before, f) + Concat(after, f)
  {
    ConcatAppend(before + [batch], after, f);
    assert (before + [batch])[..|before|] == before;
  }

  /** A batch whose download raises adds nothing, and the batches after it are still screened. */
  lemma FailedBatchSkipped(before: seq<seq<string>>, batch: seq<string>, after: seq<seq<string>>,
                           download: seq<string> -> Download, minVolume: int)
    requires download(batch).Failed?
    ensures Concat(before + [batch] + after, BatchOutcome(download, minVolume))
            == Concat(before, BatchOutcome(download, minVolume)) + Concat(after, BatchOutcome(download, minVolume))
  {
    ConcatSkips(before, batch, after, BatchOutcome(download, minVolume));
  }

  /** A one-ticker batch is judged on the whole frame the download returned. */
  lemma SingleTickerBatch(ticker: string, whole: Frame, byTicker: map<string, Frame>, minVolume: int)
    ensures BatchRecords([ticker], Downloaded(whole, byTicker), minVolume)
            == match FrameRecord(ticker, whole, minVolume) case Some(x) => [x] case None => []
  {
    assert [ticker][..|[ticker]| - 1] == [];
    assert TickerRecord(ticker, 1, whole, byTicker, minVolume) == FrameRecord(ticker, whole, minVolume);
    assert Records([ticker], 1, whole, byTicker, minVolume)
        == match TickerRecord(ticker, 1, whole, byTicker, minVolume) case Some(x) => [x] case None => [];
  }

  function TickersOf(rs: seq<LiquidStock>): (ts: seq<string>)
    ensures |ts| == |rs|
    ensures forall i :: 0 <= i < |rs| ==> ts[i] == rs[i].ticker
  {
    MapEach(rs, (x: LiquidStock) => x.ticker)
  }

  function Recorded(batchSize: nat, whole: Frame, byTicker: map<string, Frame>, minVolume: int): string -> bool
  {
    t => TickerRecord(t, batchSize, whole, byTicker, minVolume).Some?
  }

  /**
   * A downloaded batch records exactly its passing tickers, in batch
   * order, each with the record its own check gives; a ticker whose
   * sub-frame is missing is skipped without affecting the others.
   */
  lemma {:induction false} RecordsSpec(ts: seq<string>, batchSize: nat, whole: Frame, byTicker: map<string, Frame>, minVolume: int)
    ensures TickersOf(Records(ts, batchSize, whole, byTicker, minVolume)) == Filter(ts, Recorded(batchSize, whole, byTicker, minVolume))
    ensures forall x :: x in Records(ts, batchSize, whole, byTicker, minVolume) ==>
      TickerRecord(x.ticker, batchSize, whole, byTicker, minVolume) == Some(x)
    decreases |ts|
  {
    if ts != [] {
      var init := ts[..|ts| - 1];
      RecordsSpec(init, batchSize, whole, byTicker, minVolume);
      var t := ts[|ts| - 1];
      var r0 := Records(init, batchSize, whole, byTicker, minVolume);
      match TickerRecord(t, batchSize, whole, byTicker, minVolume)
      case Some(x) =>
        assert TickersOf(r0 + [x]) == TickersOf(r0) + [t];
      case None =>
    }
  }

  /** One batch's recorded tickers appear in the batch's order. */
  lemma BatchInOrder(batch: seq<string>, download: seq<string> -> Download, minVolume: int)
    ensures IsSubsequence(TickersOf(BatchOutcome(download, minVolume)(batch)), batch)
  {
    match download(batch)
    case Failed =>
      assert TickersOf(BatchOutcome(download, minVolume)(batch)) == [];
    case Downloaded(whole, byTicker) =>
      RecordsSpec(batch, |batch|, whole, byTicker, minVolume);
      FilterIsSubsequence(batch, Recorded(|batch|, whole, byTicker, minVolume));
  }

  /** When each batch keeps its own order, the results keep the order of the flattened batches. */
  lemma {:induction false} ConcatInOrder(bs: seq<seq<string>>, f: seq<string> -> seq<LiquidStock>)
    requires forall i :: 0 <= i < |bs| ==> IsSubsequence(TickersOf(f(bs[i])), bs[i])
    ensures IsSubsequence(TickersOf(Concat(bs, f)), Flatten(bs))
    decreases |bs|
  {
    if bs != [] {
      var init, last := bs[..|bs| - 1], bs[|bs| - 1];
      assert forall i :: 0 <= i < |init| ==> init[i] == bs[i];
      ConcatInOrder(init, f);
      var head, tail := Concat(init, f), f(last);
      assert TickersOf(head + tail) == TickersOf(head) + TickersOf(tail);
      SubsequenceConcat(TickersOf(head), Flatten(init), TickersOf(tail), last);
      FlattenSnoc(init, last);
      assert init + [last] == bs;
    }
  }

  lemma {:induction false} FlattenSnoc(bs: seq<seq<string>>, b: seq<string>)
    ensures Flatten(bs + [b]) == Flatten(bs) + b
    decreases |bs|
  {
    if bs == [] {
      assert [] + [b] == [b];
    } else {
      assert (bs + [b])[1..] == bs[1..] + [b];
      FlattenSnoc(bs[1..], b);
    }
  }

  /** Every record in a sequence of batch results meets the threshold. */
  lemma {:induction false} ConcatBounds(bs: seq<seq<string>>, download: seq<string> -> Download, minVolume: int)
    ensures forall x :: x in Concat(bs, BatchOutcome(download, minVolume)) ==> minVolume <= x.avgVolume
    decreases |bs|
  {
    if bs != [] {
      var last := bs[|bs| - 1];
      ConcatBounds(bs[..|bs| - 1], download, minVolume);
      match download(last)
      case Failed =>
      case Downloaded(whole, byTicker) =>
        RecordsSpec(last, |last|, whole, byTicker, minVolume);
    }
  }

  /**
   * The records follow the input order, and each is the passing check of
   * its ticker within its batch, so its average is at least `min_volume`.
   */
  lemma FilterByVolumeSpec(tickers: seq<string>, batchSize: nat, download: seq<string> -> Download, minVolume: int)
    requires batchSize > 0
    ensures var liquid := Screened(tickers, batchSize, download, minVolume);
      && IsSubsequence(TickersOf(liquid), tickers)
      && forall i :: 0 <= i < |liquid| ==> minVolume <= liquid[i].avgVolume
  {
    var bs := Batches(tickers, batchSize);
    var f := BatchOutcome(download, minVolume);
    BatchesSpec(tickers, batchSize);
    forall i | 0 <= i < |bs| ensures IsSubsequence(TickersOf(f(bs[i])), bs[i]) {
      BatchInOrder(bs[i], download, minVolume);
    }
    ConcatInOrder(bs, f);
    ConcatBounds(bs, download, minVolume);
  }
}
