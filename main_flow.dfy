/**
 * The decision part of `main()` (`main.py`): when the run stops early, the
 * split of the picks into the two reported code lists, and the update of the
 * run-history index `docs/history.json`.
 */
module MainFlow {
  import opened Strings
  import opened Sorting
  import opened Lists
  import opened PriceData
  import opened Features
  import opened StockData
  import opened Wrappers
  import StockCodes

  // ----- Early exits and the group split --------------------------------------

  /** The codes of `group1` (`0.8 <= slope < 2`), in pick order. */
  function Group1Codes(picked: seq<Candidate>): seq<string>
  {
    CodesOfRecords(Filter(picked, IsStrong))
  }

  /** The codes of `group2` (`slope < 0.8`), in pick order. */
  function Group2Codes(picked: seq<Candidate>): seq<string>
  {
    CodesOfRecords(Filter(picked, IsPotential))
  }

  function CodesOfRecords(g: seq<Candidate>): (r: seq<string>)
    ensures |r| == |g|
    ensures forall i :: 0 <= i < |g| ==> r[i] == g[i].code
  {
    MapEach(g, (x: Candidate) => x.code)
  }

  /** How a run of `main()` ends, as far as `TOP_K` and the picks decide it. */
  datatype RunOutcome =
    | TopKInvalid
    | NoHistory
    | NoPicks
    | Reported(picked: seq<Candidate>, strong: seq<string>, potential: seq<string>)

  /**
   * Steps 3 and 4 of `main()` with the `TOP_K` environment value `env` and
   * the loaded table `hist`. `get_picks_top_k()` runs before either early
   * exit, so a `TOP_K` that `int()` rejects raises first (`TopKInvalid`:
   * `main` logs the error and re-raises it).
   */
  function Run(env: Option<string>, hist: seq<PriceRow>): (r: RunOutcome)
  {
    if StockCodes.PicksTopK(env).None? then TopKInvalid
    else if hist == [] then NoHistory
    else
      var picked := Picks(hist);
      if picked == [] then NoPicks
      else Reported(picked, Group1Codes(picked), Group2Codes(picked))
  }

  /**
   * The run raises exactly when `TOP_K` does not parse. Otherwise it reports
   * exactly when the table and the picks are both non-empty, and then
   * reports the picks with their codes split into two disjoint lists that
   * together name every pick once.
   */
  lemma RunSpec(env: Option<string>, hist: seq<PriceRow>)
    ensures Run(env, hist).TopKInvalid? <==> StockCodes.PicksTopK(env).None?
    ensures Run(env, hist).NoHistory? <==> StockCodes.PicksTopK(env).Some? && hist == []
    ensures Run(env, hist).NoPicks? <==> StockCodes.PicksTopK(env).Some? && hist != [] && Picks(hist) == []
    ensures Run(env, hist).Reported? ==>
      && Run(env, hist).picked == Picks(hist) != []
      && (forall c :: c in Run(env, hist).strong ==> c !in Run(env, hist).potential)
      && |Run(env, hist).strong| + |Run(env, hist).potential| == |Run(env, hist).picked|
      && (forall x :: x in Run(env, hist).picked ==> x.code in Run(env, hist).strong || x.code in Run(env, hist).potential)
  {
    if StockCodes.PicksTopK(env).Some? && hist != [] && Picks(hist) != [] {
      PicksDistinct(hist);
      PicksFromCascade(hist);
      GroupCodesSplit(Picks(hist));
    }
  }

  /** With `TOP_K` unset the run goes on to the table; an empty `TOP_K` raises even on an empty table. */
  lemma TopKDecidesFirst(hist: seq<PriceRow>)
    ensures !Run(None, hist).TopKInvalid?
    ensures Run(Some(""), hist) == TopKInvalid
  {
    StockCodes.TopKDefault();
    assert StockCodes.PicksTopK(Some("")) == None by {
      StripUnchanged("");
    }
  }

  /**
   * With distinct codes the two code lists are disjoint; when every slope is
   * below 2 (as every pick's is) they name every record, and only records.
   */
  lemma GroupCodesSplit(picked: seq<Candidate>)
    requires DistinctCodes(picked)
    requires forall x :: x in picked ==> Admissible(x)
    ensures forall c :: c in Group1Codes(picked) ==> c !in Group2Codes(picked)
    ensures |Group1Codes(picked)| + |Group2Codes(picked)| == |picked|
    ensures forall x :: x in picked ==> x.code in Group1Codes(picked) || x.code in Group2Codes(picked)
  {
    var s := Filter(picked, IsStrong);
    var t := Filter(picked, IsPotential);
    FilterMembers(picked, IsStrong);
    FilterMembers(picked, IsPotential);
    forall c | c in Group1Codes(picked) ensures c !in Group2Codes(picked) {
      var i :| 0 <= i < |s| && s[i].code == c;
      assert s[i] in s;
      var g2 := Group2Codes(picked);
      forall j | 0 <= j < |t| ensures t[j].code != c {
        assert t[j] in t;
        SplitCodesDiffer(picked, s[i], t[j]);
      }
      assert forall j :: 0 <= j < |g2| ==> g2[j] != c;
    }
    forall x | x in picked ensures x.code in Group1Codes(picked) || x.code in Group2Codes(picked) {
      if IsStrong(x) {
        var i :| 0 <= i < |s| && s[i] == x;
        assert Group1Codes(picked)[i] == x.code;
      } else {
        var i :| 0 <= i < |t| && t[i] == x;
        assert Group2Codes(picked)[i] == x.code;
      }
    }
    SplitLength(picked);
  }

  /** Every record with slope below 2 is in exactly one of the groups, so the group sizes add up. */
  lemma {:induction false} SplitLength(picked: seq<Candidate>)
    requires forall x :: x in picked ==> Admissible(x)
    ensures |Filter(picked, IsStrong)| + |Filter(picked, IsPotential)| == |picked|
    decreases |picked|
  {
    if picked != [] {
      var init := picked[..|picked| - 1];
      assert forall x :: x in init ==> x in picked;
      SplitLength(init);
      assert picked[|picked| - 1] in picked;
    }
  }

  // ----- The history index ------------------------------------------------------

  /** One entry of `history.json`. */
  datatype Entry = Entry(date: string, strong: nat, potential: nat, total: nat)

  /** Entries kept in the index. */
  const HistoryLength: nat := 30

  function EntryDate(e: Entry): string
  {
    e.date
  }

  /** The position `next(item for item in history if item['date'] == date)` finds. */
  function FirstWithDate(history: seq<Entry>, date: string): (r: nat)
    ensures r <= |history|
    ensures forall j :: 0 <= j < r ==> history[j].date != date
    ensures r < |history| ==> history[r].date == date
    decreases |history|
  {
    if history == [] || history[0].date == date then 0
    else FirstWithDate(history[1..], date) + 1
  }

  /** The history after the update-or-append, before sorting. */
  function Updated(history: seq<Entry>, entry: Entry): seq<Entry>
  {
    var k := FirstWithDate(history, entry.date);
    if k < |history| then history[k := entry] else history + [entry]
  }

  /** What is written back: the updated history by date descending, first 30. */
  function Saved(history: seq<Entry>, entry: Entry): seq<Entry>
  {
    var sorted := SortBy(Updated(history, entry), EntryDate, true);
    if |sorted| <= HistoryLength then sorted else sorted[..HistoryLength]
  }

  /** Steps 7's history update of `main()` for the run on `date`. */
  method UpdateHistory(history: seq<Entry>, date: string, strong: seq<string>, potential: seq<string>, picked: seq<Candidate>)
    returns (saved: seq<Entry>)
    ensures saved == Saved(history, Entry(date, |strong|, |potential|, |picked|))
  {
    var entry := Entry(date, |strong|, |potential|, |picked|);
    var k := 0;
    while k < |history| && history[k].date != date
      invariant 0 <= k <= |history|
      invariant forall j :: 0 <= j < k ==> history[j].date != date
    {
      k := k + 1;
    }
    FirstWithDateUnique(history, date, k);
    var updated := if k < |history| then history[k := entry] else history + [entry];
    var sorted := SortBy(updated, EntryDate, true);
    saved := if |sorted| <= HistoryLength then sorted else sorted[..HistoryLength];
  }

  /** `FirstWithDate` is the only position before which no entry has the date and at which one has. */
  lemma {:induction false} FirstWithDateUnique(history: seq<Entry>, date: string, k: nat)
    requires k <= |history|
    requires forall j :: 0 <= j < k ==> history[j].date != date
    requires k < |history| ==> history[k].date == date
    ensures FirstWithDate(history, date) == k
    decreases k
  {
    if k > 0 {
      assert history[0].date != date;
      FirstWithDateUnique(history[1..], date, k - 1);
    }
  }

  /**
   * When the date is already in the history, its first entry is overwritten
   * with the new counts and nothing else changes.
   */
  lemma UpdatedPresent(history: seq<Entry>, entry: Entry)
    requires FirstWithDate(history, entry.date) < |history|
    ensures var k := FirstWithDate(history, entry.date);
      && |Updated(history, entry)| == |history|
      && history[k].date == entry.date && Updated(history, entry)[k] == entry
      && (forall j :: 0 <= j < |history| && j != k ==> Updated(history, entry)[j] == history[j])
      && multiset(Updated(history, entry)) == multiset(history) - multiset{history[k]} + multiset{entry}
  {
    var k := FirstWithDate(history, entry.date);
    var u := Updated(history, entry);
    assert history == history[..k] + [history[k]] + history[k + 1..];
    assert u == history[..k] + [entry] + history[k + 1..];
  }

  /** When no entry has the date, exactly the new entry is appended. */
  lemma UpdatedAbsent(history: seq<Entry>, entry: Entry)
    requires forall e :: e in history ==> e.date != entry.date
    ensures Updated(history, entry) == history + [entry]
  {
    FirstWithDateUnique(history, entry.date, |history|);
  }

  /**
   * The saved index is sorted by date, newest first, and holds the first 30
   * entries (or all of them) of the sorted update.
   */
  lemma SavedSorted(history: seq<Entry>, entry: Entry)
    ensures var s := Saved(history, entry);
      forall i, j :: 0 <= i < j < |s| ==> LexLe(s[j].date, s[i].date)
    ensures |Saved(history, entry)| <= HistoryLength
    ensures |Saved(history, entry)| == if |Updated(history, entry)| <= HistoryLength then |Updated(history, entry)| else HistoryLength
  {
    var sorted := SortBy(Updated(history, entry), EntryDate, true);
    var s := Saved(history, entry);
    forall i, j | 0 <= i < j < |s| ensures LexLe(s[j].date, s[i].date) {
      assert InOrder(EntryDate(sorted[i]), EntryDate(sorted[j]), true);
    }
  }

  /**
   * "Keep only last 30 days": the saved index loses no entry it keeps nor
   * repeats one, and every entry the cut drops is no newer than every
   * entry kept.
   */
  lemma SavedNewest(history: seq<Entry>, entry: Entry)
    ensures multiset(Saved(history, entry)) <= multiset(Updated(history, entry))
    ensures forall x: Entry, y: Entry ::
      (x in multiset(Updated(history, entry)) - multiset(Saved(history, entry)) && y in Saved(history, entry)) ==>
        LexLe(x.date, y.date)
  {
    var u := Updated(history, entry);
    var sorted := SortBy(u, EntryDate, true);
    var s := Saved(history, entry);
    var m := |s|;
    assert s == sorted[..m];
    assert sorted == sorted[..m] + sorted[m..];
    assert multiset(u) == multiset(s) + multiset(sorted[m..]);
    assert multiset(u) - multiset(s) == multiset(sorted[m..]);
    CutKeepsNewest(sorted, m);
  }

  /** In a newest-first list, nothing after position `m` is newer than anything before it. */
  lemma CutKeepsNewest(sorted: seq<Entry>, m: nat)
    requires SortedBy(sorted, EntryDate, true) && m <= |sorted|
    ensures forall x: Entry, y: Entry :: x in multiset(sorted[m..]) && y in sorted[..m] ==> LexLe(x.date, y.date)
  {
    forall x: Entry, y: Entry | x in multiset(sorted[m..]) && y in sorted[..m] ensures LexLe(x.date, y.date) {
      var j :| m <= j < |sorted| && sorted[j] == x by {
        assert x in sorted[m..];
        var j' :| 0 <= j' < |sorted[m..]| && sorted[m..][j'] == x;
        assert sorted[m + j'] == x;
      }
      var i :| 0 <= i < m && sorted[i] == y;
      assert InOrder(EntryDate(sorted[i]), EntryDate(sorted[j]), true);
    }
  }

  /** The saved index holds only the new entry and entries of the old history. */
  lemma SavedEntries(history: seq<Entry>, entry: Entry)
    ensures forall e :: e in Saved(history, entry) ==> e == entry || e in history
  {
    var u := Updated(history, entry);
    var sorted := SortBy(u, EntryDate, true);
    var s := Saved(history, entry);
    forall e | e in s ensures e == entry || e in history {
      assert e in sorted;
      assert e in multiset(u);
      UpdatedFrom(history, entry, e);
    }
  }

  lemma UpdatedFrom(history: seq<Entry>, entry: Entry, e: Entry)
    requires e in Updated(history, entry)
    ensures e == entry || e in history
  {
    var u := Updated(history, entry);
    var j :| 0 <= j < |u| && u[j] == e;
    if FirstWithDate(history, entry.date) < |history| && e != entry {
      assert u[j] == history[j];
    }
  }

  /**
   * A run dated after every entry of the history is the newest entry of the
   * saved index.
   */
  lemma SavedNewestFirst(history: seq<Entry>, entry: Entry)
    requires forall e :: e in history ==> LexLess(e.date, entry.date)
    ensures Saved(history, entry) != [] && Saved(history, entry)[0] == entry
  {
    var u := Updated(history, entry);
    var sorted := SortBy(u, EntryDate, true);
    forall e | e in history ensures e.date != entry.date {
      LexLessIrreflexive(entry.date);
    }
    UpdatedAbsent(history, entry);
    assert u == history + [entry];
    assert entry in multiset(sorted) by {
      assert u[|history|] == entry;
    }
    var p :| 0 <= p < |sorted| && sorted[p] == entry;
    assert sorted[0] in multiset(u);
    assert sorted[0] in u;
    if sorted[0] != entry {
      assert sorted[0] in history;
      if p > 0 {
        assert InOrder(EntryDate(sorted[0]), EntryDate(sorted[p]), true);
        LexLessAsymmetric(sorted[0].date, entry.date);
        LexLessIrreflexive(entry.date);
      }
    }
  }
}
