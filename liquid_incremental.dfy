/**
 * The resumable liquidity screen: one history download per ticker, a
 * processed set and a results list that persist in a progress file, a
 * checkpoint every `save_interval` tickers and a final one marked
 * completed.  The per-ticker download and the progress file's contents are
 * inputs; each write of the progress file is recorded as a `Checkpoint`.
 */
module LiquidIncremental {
  import opened Wrappers
  import opened Lists
  import opened Volume
  import opened Arith

  /** What `yf.Ticker(t).history(...)` gives: an exception, or the frame's `Volume` column. */
  datatype History = Raised | Frame(volumes: seq<Option<real>>)

  /** One liquid stock as recorded in the results. */
  datatype CheckedStock = CheckedStock(ticker: string, avgVolume: int, daysChecked: nat)

  // ----- check_single_stock ---------------------------------------------------

  /**
   * `check_single_stock`: no record for an exception, an empty frame or
   * fewer than 3 rows, or a mean volume below `min_volume`.
   */
  function CheckSingleStock(ticker: string, history: History, minVolume: int): (r: Option<CheckedStock>)
    ensures r.Some? ==> r.value.ticker == ticker && minVolume <= r.value.avgVolume && 3 <= r.value.daysChecked
    ensures r.Some? <==> history.Frame? && |history.volumes| >= 3 && MeetsVolume(history.volumes, minVolume)
  {
    match history
    case Raised => None
    case Frame(volumes) =>
      if |volumes| == 0 || |volumes| < 3 then None
      else if MeetsVolume(volumes, minVolume) then
        Some(CheckedStock(ticker, AverageVolume(volumes, minVolume), |volumes|))
      else None
  }

  // ----- The progress file ----------------------------------------------------

  /** The progress file: absent, unreadable as JSON, or holding the two lists. */
  datatype ProgressFile = NoFile | Unreadable | Stored(processed: seq<string>, results: seq<CheckedStock>)

  datatype Progress = Progress(processed: seq<string>, results: seq<CheckedStock>)

  /** `load_progress`: an absent or unreadable file loads as empty progress. */
  function LoadProgress(file: ProgressFile): (p: Progress)
    ensures !file.Stored? ==> p.processed == [] && p.results == []
    ensures file.Stored? ==> p.processed == file.processed && p.results == file.results
  {
    match file
    case Stored(processed, results) => Progress(processed, results)
    case _ => Progress([], [])
  }

  /** One write of the progress file: the processed set, the results so far and the `completed` flag. */
  datatype Checkpoint = Checkpoint(processed: set<string>, results: seq<CheckedStock>, completed: bool)

  // ----- filter_by_volume_incremental: specification ------------------------

  function Members(s: seq<string>): set<string>
  {
    set t | t in s
  }

  /** The progress a run starts from: the loaded file when resuming, nothing otherwise. */
  function Start(resume: bool, file: ProgressFile): Progress
  {
    if resume then LoadProgress(file) else Progress([], [])
  }

  function NotDone(done: set<string>): string -> bool
  {
    t => t !in done
  }

  /** `remaining`: the input tickers not yet processed, in input order. */
  function Remaining(tickers: seq<string>, done: set<string>): seq<string>
  {
    Filter(tickers, NotDone(done))
  }

  /** The records of the tickers of `ts` that pass, in processing order. */
  function Screened(ts: seq<string>, minVolume: int, history: string -> History): seq<CheckedStock>
  {
    if ts == [] then []
    else
      var t := ts[|ts| - 1];
      Screened(ts[..|ts| - 1], minVolume, history)
        + match CheckSingleStock(t, history(t), minVolume)
          case Some(x) => [x]
          case None => []
  }

  /** The state after the first `n` tickers of `todo`, as a periodic save writes it. */
  function StateAfter(start: Progress, todo: seq<string>, n: nat, minVolume: int, history: string -> History): Checkpoint
    requires n <= |todo|
  {
    Checkpoint(Members(start.processed) + Members(todo[..n]), start.results + Screened(todo[..n], minVolume, history), false)
  }

  /** The periodic saves among the first `n` tickers: after each one whose position is a multiple of the interval. */
  function Checkpoints(start: Progress, todo: seq<string>, n: nat, saveInterval: int, minVolume: int, history: string -> History): seq<Checkpoint>
    requires n <= |todo| && (n == 0 || saveInterval != 0)
  {
    if n == 0 then []
    else
      Checkpoints(start, todo, n - 1, saveInterval, minVolume, history)
        + if n % saveInterval == 0 then [StateAfter(start, todo, n, minVolume, history)] else []
  }

  /** The results list a run returns. */
  function FinalResults(start: Progress, tickers: seq<string>, minVolume: int, history: string -> History): seq<CheckedStock>
  {
    start.results + Screened(Remaining(tickers, Members(start.processed)), minVolume, history)
  }

  /** The processed set a run ends with. */
  function FinalProcessed(start: Progress, tickers: seq<string>): set<string>
  {
    Members(start.processed) + Members(Remaining(tickers, Members(start.processed)))
  }

  // ----- filter_by_volume_incremental: the loop -------------------------------

  /**
   * The screening loop: each remaining ticker is checked, recorded when it
   * passes and added to the processed set; progress is written after every
   * `save_interval`-th ticker and once more at the end.  The interval may
   * be 0 only when no ticker remains: the `%` in the loop raises on 0.
   */
  method FilterByVolumeIncremental(tickers: seq<string>, minVolume: int, resume: bool, saveInterval: int,
                                   file: ProgressFile, history: string -> History)
    returns (liquid: seq<CheckedStock>, saves: seq<Checkpoint>)
    requires saveInterval != 0 || Remaining(tickers, Members(Start(resume, file).processed)) == []
    ensures var start := Start(resume, file);
      var todo := Remaining(tickers, Members(start.processed));
      && liquid == FinalResults(start, tickers, minVolume, history)
      && saves == Checkpoints(start, todo, |todo|, saveInterval, minVolume, history)
                  + [Checkpoint(FinalProcessed(start, tickers), liquid, true)]
  {
    var progress := if resume then LoadProgress(file) else Progress([], []);
    var processed := set t | t in progress.processed;
    var remaining := Remaining(tickers, processed);
    processed, liquid, saves := ScreenRemaining(progress, remaining, minVolume, saveInterval, history);
    assert remaining[..|remaining|] == remaining;
    saves := saves + [Checkpoint(processed, liquid, true)];
  }

  /** The loop itself, from the loaded progress over the remaining tickers. */
  method ScreenRemaining(progress: Progress, remaining: seq<string>, minVolume: int, saveInterval: int,
                         history: string -> History)
    returns (processed: set<string>, liquid: seq<CheckedStock>, saves: seq<Checkpoint>)
    requires saveInterval != 0 || remaining == []
    ensures Checkpoint(processed, liquid, false) == StateAfter(progress, remaining, |remaining|, minVolume, history)
    ensures saves == Checkpoints(progress, remaining, |remaining|, saveInterval, minVolume, history)
  {
    processed := set t | t in progress.processed;
    liquid := progress.results;
    saves := [];
    for k := 0 to |remaining|
      invariant Checkpoint(processed, liquid, false) == StateAfter(progress, remaining, k, minVolume, history)
      invariant saves == Checkpoints(progress, remaining, k, saveInterval, minVolume, history)
    {
      var ticker := remaining[k];
      StateStep(progress, remaining, k, minVolume, history);
      SaveStep(progress, remaining, k, saveInterval, minVolume, history);
      var result := CheckSingleStock(ticker, history(ticker), minVolume);
      if result.Some? {
        liquid := liquid + [result.value];
      }
      processed := processed + {ticker};
      if (k + 1) % saveInterval == 0 {
        saves := saves + [Checkpoint(processed, liquid, false)];
      }
    }
  }

  /** Processing one more ticker adds it to the processed set and appends its record, if any. */
  lemma StateStep(start: Progress, todo: seq<string>, k: nat, minVolume: int, history: string -> History)
    requires k < |todo|
    ensures var before := StateAfter(start, todo, k, minVolume, history);
      var t := todo[k];
      StateAfter(start, todo, k + 1, minVolume, history) ==
        Checkpoint(before.processed + {t},
                   before.results + match CheckSingleStock(t, history(t), minVolume) case Some(x) => [x] case None => [],
                   false)
  {
    assert todo[..k + 1][..k] == todo[..k];
    assert todo[..k + 1] == todo[..k] + [todo[k]];
  }

  /** Processing ticker `k + 1` saves exactly when its position is a multiple of the interval. */
  lemma SaveStep(start: Progress, todo: seq<string>, k: nat, saveInterval: int, minVolume: int, history: string -> History)
    requires k < |todo| && saveInterval != 0
    ensures Checkpoints(start, todo, k + 1, saveInterval, minVolume, history) ==
      Checkpoints(start, todo, k, saveInterval, minVolume, history)
        + if (k + 1) % saveInterval == 0 then [StateAfter(start, todo, k + 1, minVolume, history)] else []
  {
  }

  // ----- Properties -----------------------------------------------------------

  /** `remaining` holds exactly the unprocessed input tickers, in input order. */
  lemma RemainingSpec(tickers: seq<string>, done: set<string>)
    ensures forall t :: t in Remaining(tickers, done) <==> t in tickers && t !in done
    ensures IsSubsequence(Remaining(tickers, done), tickers)
  {
    FilterMembers(tickers, NotDone(done));
    FilterIsSubsequence(tickers, NotDone(done));
  }

  /** A run that does not resume starts from nothing and screens every input ticker. */
  lemma FreshRunScreensAll(tickers: seq<string>, file: ProgressFile)
    ensures Start(false, file).results == []
    ensures Remaining(tickers, Members(Start(false, file).processed)) == tickers
  {
    assert Members(Start(false, file).processed) == {};
    FilterAll(tickers, NotDone({}));
  }

  /** After the loop every input ticker has been processed, and nothing else has been added. */
  lemma ProcessedCoversInput(start: Progress, tickers: seq<string>)
    ensures FinalProcessed(start, tickers) == Members(start.processed) + Members(tickers)
  {
    RemainingSpec(tickers, Members(start.processed));
  }

  /** Screening splits over concatenation. */
  lemma {:induction false} ScreenedAppend(a: seq<string>, b: seq<string>, minVolume: int, history: string -> History)
    ensures Screened(a + b, minVolume, history) == Screened(a, minVolume, history) + Screened(b, minVolume, history)
    decreases |b|
  {
    if b == [] {
      assert a + b == a;
    } else {
      var b' := b[..|b| - 1];
      assert (a + b)[..|a + b| - 1] == a + b';
      ScreenedAppend(a, b', minVolume, history);
    }
  }

  function Passing(minVolume: int, history: string -> History): string -> bool
  {
    t => CheckSingleStock(t, history(t), minVolume).Some?
  }

  function TickersOf(rs: seq<CheckedStock>): (ts: seq<string>)
    ensures |ts| == |rs|
    ensures forall i :: 0 <= i < |rs| ==> ts[i] == rs[i].ticker
  {
    MapEach(rs, (x: CheckedStock) => x.ticker)
  }

  /**
   * The new results are the check's records of exactly the passing
   * tickers, in processing order.
   */
  lemma {:induction false} ScreenedSpec(ts: seq<string>, minVolume: int, history: string -> History)
    ensures TickersOf(Screened(ts, minVolume, history)) == Filter(ts, Passing(minVolume, history))
    ensures forall i :: 0 <= i < |Screened(ts, minVolume, history)| ==>
      var x := Screened(ts, minVolume, history)[i];
      CheckSingleStock(x.ticker, history(x.ticker), minVolume) == Some(x)
    decreases |ts|
  {
    if ts != [] {
      var init := ts[..|ts| - 1];
      ScreenedSpec(init, minVolume, history);
      var t := ts[|ts| - 1];
      var r := Screened(ts, minVolume, history);
      var r0 := Screened(init, minVolume, history);
      match CheckSingleStock(t, history(t), minVolume)
      case Some(x) =>
        assert r == r0 + [x];
        assert TickersOf(r) == TickersOf(r0) + [t];
      case None =>
        assert r == r0;
    }
  }

  /** The period of the saves: Python's `idx % save_interval == 0` tests divisibility by `|save_interval|`. */
  function Period(saveInterval: int): (m: nat)
    requires saveInterval != 0
    ensures m > 0 && (m == saveInterval || m == -saveInterval)
  {
    if saveInterval > 0 then saveInterval else -saveInterval
  }

  /** During `n` tickers there are `n / |interval|` periodic saves. */
  lemma {:induction false} CheckpointsCount(start: Progress, todo: seq<string>, n: nat, saveInterval: int, minVolume: int, history: string -> History)
    requires n <= |todo| && saveInterval != 0
    ensures |Checkpoints(start, todo, n, saveInterval, minVolume, history)| == n / Period(saveInterval)
  {
    if n > 0 {
      CheckpointsCount(start, todo, n - 1, saveInterval, minVolume, history);
      DivisionStep(n, Period(saveInterval));
      SameRemainderZero(n, saveInterval, Period(saveInterval));
    }
  }

  /**
   * The `j`-th periodic save is written after ticker `(j + 1) · |interval|`
   * and holds the state at that point, not marked completed.
   */
  lemma {:induction false} CheckpointAt(start: Progress, todo: seq<string>, n: nat, saveInterval: int, minVolume: int, history: string -> History, j: nat)
    requires n <= |todo| && saveInterval != 0
    requires j < |Checkpoints(start, todo, n, saveInterval, minVolume, history)|
    ensures (j + 1) * Period(saveInterval) <= n
    ensures Checkpoints(start, todo, n, saveInterval, minVolume, history)[j]
            == StateAfter(start, todo, (j + 1) * Period(saveInterval), minVolume, history)
  {
    var m := Period(saveInterval);
    var c := Checkpoints(start, todo, n - 1, saveInterval, minVolume, history);
    if j < |c| {
      CheckpointAt(start, todo, n - 1, saveInterval, minVolume, history, j);
    } else {
      CheckpointsCount(start, todo, n - 1, saveInterval, minVolume, history);
      SameRemainderZero(n, saveInterval, m);
      DivisionStep(n, m);
      assert (|c| + 1) * m == n;
    }
  }

  /** Counting multiples of `m` up to `n` against up to `n - 1`. */
  lemma DivisionStep(n: nat, m: int)
    requires n > 0 && m > 0
    ensures n % m == 0 ==> n / m == (n - 1) / m + 1 && (n / m) * m == n
    ensures n % m != 0 ==> n / m == (n - 1) / m
  {
    var q := (n - 1) / m;
    var r := (n - 1) % m;
    assert n - 1 == q * m + r && 0 <= r < m;
    if r == m - 1 {
      assert n == (q + 1) * m + 0;
      DivUnique(n, m, q + 1, 0);
    } else {
      DivUnique(n, m, q, r + 1);
    }
  }

  /** A number is a multiple of a negative interval exactly when it is one of its absolute value. */
  lemma SameRemainderZero(n: nat, d: int, m: int)
    requires d != 0 && m == (if d > 0 then d else -d)
    ensures n % d == 0 <==> n % m == 0
  {
    if d < 0 {
      var q, r := n / d, n % d;
      assert n == q * d + r && 0 <= r < m;
      assert q * d == (-q) * m;
      DivUnique(n, m, -q, r);
    }
  }

  /** `s` holds every ticker at most once. */
  predicate NoRepeats(s: seq<string>)
  {
    forall i, j :: 0 <= i < j < |s| ==> s[i] != s[j]
  }

  /** Filtering out a further set of tickers is filtering the remaining list. */
  lemma {:induction false} RemainingShrinks(s: seq<string>, done: set<string>, more: set<string>)
    ensures Remaining(s, done + more) == Filter(Remaining(s, done), NotDone(more))
    decreases |s|
  {
    if s != [] {
      var init, x := s[..|s| - 1], s[|s| - 1];
      RemainingShrinks(init, done, more);
      FilterAppend(Remaining(init, done), if x !in done then [x] else [], NotDone(more));
    }
  }

  /** A list without repeats shares no element between its first `n` and the rest. */
  lemma SplitDisjoint(s: seq<string>, r: seq<string>, done: set<string>, n: nat, x: string)
    requires NoRepeats(s) && r == Remaining(s, done) && n <= |r|
    requires x in r[..n]
    ensures x !in r[n..]
  {
    if x in r[n..] {
      assert r == r[..n] + r[n..];
      assert Occurrences(r, x) >= 2 by {
        assert multiset(r) == multiset(r[..n]) + multiset(r[n..]);
      }
      FilterOccurrences(s, NotDone(done), x);
      RepeatedElement(s, x);
    }
  }

  /**
   * After the first `n` remaining tickers are processed, what remains of a
   * list without repeats is the rest of the first run's remaining list.
   */
  lemma RemainingAfterSave(tickers: seq<string>, done: set<string>, n: nat)
    requires NoRepeats(tickers)
    requires n <= |Remaining(tickers, done)|
    ensures var r := Remaining(tickers, done);
      Remaining(tickers, done + Members(r[..n])) == r[n..]
  {
    var r := Remaining(tickers, done);
    var p, q := r[..n], r[n..];
    SplitAt(r, n);
    var more := Members(p);
    RemainingShrinks(tickers, done, more);
    FilterAppend(p, q, NotDone(more));
    FilterNone(p, NotDone(more));
    forall i | 0 <= i < |q| ensures NotDone(more)(q[i]) {
      if q[i] in p {
        SplitDisjoint(tickers, r, done, n, q[i]);
      }
    }
    FilterAll(q, NotDone(more));
  }

  /**
   * Resuming from any save of a run over a list without repeats (the
   * progress file holding the saved processed set, in any order, and
   * results) ends with the same results as the run would have had
   * uninterrupted.
   */
  lemma ResumeAfterCheckpoint(tickers: seq<string>, start: Progress, n: nat, file: ProgressFile, minVolume: int, history: string -> History)
    requires NoRepeats(tickers)
    requires n <= |Remaining(tickers, Members(start.processed))|
    requires file.Stored?
    requires var saved := StateAfter(start, Remaining(tickers, Members(start.processed)), n, minVolume, history);
      Members(file.processed) == saved.processed && file.results == saved.results
    ensures FinalResults(Start(true, file), tickers, minVolume, history) == FinalResults(start, tickers, minVolume, history)
  {
    var done := Members(start.processed);
    var r := Remaining(tickers, done);
    var p, q := r[..n], r[n..];
    RemainingAfterSave(tickers, done, n);
    var resumed := Start(true, file);
    assert resumed.results == start.results + Screened(p, minVolume, history);
    assert Remaining(tickers, Members(resumed.processed)) == q;
    calc {
      FinalResults(resumed, tickers, minVolume, history);
      resumed.results + Screened(q, minVolume, history);
      start.results + (Screened(p, minVolume, history) + Screened(q, minVolume, history));
      { ScreenedAppend(p, q, minVolume, history); SplitAt(r, n); }
      start.results + Screened(r, minVolume, history);
    }
  }

  /** Resuming from any save ends with the same processed set as the run would have had uninterrupted. */
  lemma ResumeAfterCheckpointProcessed(tickers: seq<string>, start: Progress, n: nat, file: ProgressFile, minVolume: int, history: string -> History)
    requires n <= |Remaining(tickers, Members(start.processed))|
    requires file.Stored?
    requires var saved := StateAfter(start, Remaining(tickers, Members(start.processed)), n, minVolume, history);
      Members(file.processed) == saved.processed && file.results == saved.results
    ensures FinalProcessed(Start(true, file), tickers) == FinalProcessed(start, tickers)
  {
    var done := Members(start.processed);
    var r := Remaining(tickers, done);
    ProcessedCoversInput(Start(true, file), tickers);
    ProcessedCoversInput(start, tickers);
    RemainingSpec(tickers, done);
    forall x | x in Members(r[..n]) ensures x in Members(tickers) {
      assert x in r;
    }
  }
}
