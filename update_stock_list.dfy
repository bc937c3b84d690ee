/**
 * The stock-list updater: cleaning the symbol columns of the two NASDAQ
 * directory files into a sorted list without repeats, and filtering that
 * list by symbol length and excluded substrings.  The HTTP downloads and
 * the CSV parsing are inputs: each file arrives as a map from column name
 * to a column of cells, `None` standing for NaN.
 */
module UpdateStockList {
  import opened Wrappers
  import opened Strings
  import opened Sorting
  import opened Lists

  // ----- filter_tickers -----------------------------------------------------

  /** `any(pattern in ticker for pattern in patterns)`. */
  predicate Excluded(ticker: string, patterns: seq<string>)
  {
    exists i :: 0 <= i < |patterns| && Contains(ticker, patterns[i])
  }

  predicate Passes(ticker: string, minLength: int, maxLength: int, patterns: seq<string>)
  {
    minLength <= |ticker| <= maxLength && !Excluded(ticker, patterns)
  }

  /** `exclude_patterns=None` stands for the empty list. */
  function PatternsOf(excludePatterns: Option<seq<string>>): seq<string>
  {
    if excludePatterns.None? then [] else excludePatterns.value
  }

  function TickerTest(minLength: int, maxLength: int, patterns: seq<string>): string -> bool
  {
    t => Passes(t, minLength, maxLength, patterns)
  }

  /** What `filter_tickers` returns. */
  function Filtered(tickers: seq<string>, minLength: int, maxLength: int, excludePatterns: Option<seq<string>>): seq<string>
  {
    Filter(tickers, TickerTest(minLength, maxLength, PatternsOf(excludePatterns)))
  }

  /** The append loop of `filter_tickers`, with its two `continue`s. */
  method FilterTickers(tickers: seq<string>, minLength: int, maxLength: int, excludePatterns: Option<seq<string>>)
    returns (filtered: seq<string>)
    ensures filtered == Filtered(tickers, minLength, maxLength, excludePatterns)
  {
    var patterns := if excludePatterns.None? then [] else excludePatterns.value;
    ghost var test := TickerTest(minLength, maxLength, patterns);
    filtered := [];
    for k := 0 to |tickers|
      invariant filtered == Filter(tickers[..k], test)
    {
      assert tickers[..k + 1][..k] == tickers[..k];
      var ticker := tickers[k];
      if |ticker| < minLength || |ticker| > maxLength {
        continue;
      }
      if exists i :: 0 <= i < |patterns| && Contains(ticker, patterns[i]) {
        continue;
      }
      filtered := filtered + [ticker];
    }
    assert tickers[..|tickers|] == tickers;
  }

  /** The kept tickers appear in the input's order. */
  lemma FilteredOrder(tickers: seq<string>, minLength: int, maxLength: int, excludePatterns: Option<seq<string>>)
    ensures IsSubsequence(Filtered(tickers, minLength, maxLength, excludePatterns), tickers)
  {
    FilterIsSubsequence(tickers, TickerTest(minLength, maxLength, PatternsOf(excludePatterns)));
  }

  /**
   * A ticker is kept exactly when it is in the input, its length is within
   * the bounds and it contains none of the patterns; `None` means no patterns.
   */
  lemma FilteredMembers(tickers: seq<string>, minLength: int, maxLength: int, excludePatterns: Option<seq<string>>, t: string)
    ensures t in Filtered(tickers, minLength, maxLength, excludePatterns) <==>
      && t in tickers
      && minLength <= |t| <= maxLength
      && (forall p :: p in PatternsOf(excludePatterns) ==> !Contains(t, p))
    ensures excludePatterns.None? ==>
      (t in Filtered(tickers, minLength, maxLength, excludePatterns) <==> t in tickers && minLength <= |t| <= maxLength)
  {
    var patterns := PatternsOf(excludePatterns);
    FilterMembers(tickers, TickerTest(minLength, maxLength, patterns));
    if Excluded(t, patterns) {
      var i :| 0 <= i < |patterns| && Contains(t, patterns[i]);
      assert patterns[i] in patterns;
    } else {
      forall p | p in patterns ensures !Contains(t, p) {
        var i :| 0 <= i < |patterns| && patterns[i] == p;
      }
    }
  }

  /** Every passing ticker is kept as often as it occurs: repeats are not removed. */
  lemma FilteredRepeats(tickers: seq<string>, minLength: int, maxLength: int, excludePatterns: Option<seq<string>>, t: string)
    requires Passes(t, minLength, maxLength, PatternsOf(excludePatterns))
    ensures Occurrences(Filtered(tickers, minLength, maxLength, excludePatterns), t) == Occurrences(tickers, t)
  {
    FilterOccurrences(tickers, TickerTest(minLength, maxLength, PatternsOf(excludePatterns)), t);
  }

  /** Every kept ticker satisfies both criteria. */
  lemma FilteredCriteria(tickers: seq<string>, minLength: int, maxLength: int, excludePatterns: Option<seq<string>>)
    ensures forall t :: t in Filtered(tickers, minLength, maxLength, excludePatterns) ==>
      minLength <= |t| <= maxLength && !Excluded(t, PatternsOf(excludePatterns))
  {
    forall t | t in Filtered(tickers, minLength, maxLength, excludePatterns)
      ensures minLength <= |t| <= maxLength && !Excluded(t, PatternsOf(excludePatterns))
    {
      FilterMembers(tickers, TickerTest(minLength, maxLength, PatternsOf(excludePatterns)));
    }
  }

  /** An empty exclude pattern occurs in every string, so nothing is kept. */
  lemma EmptyPatternKeepsNothing(tickers: seq<string>, minLength: int, maxLength: int, patterns: seq<string>)
    requires "" in patterns
    ensures Filtered(tickers, minLength, maxLength, Some(patterns)) == []
  {
    var r := Filtered(tickers, minLength, maxLength, Some(patterns));
    var i :| 0 <= i < |patterns| && patterns[i] == "";
    if r != [] {
      assert Contains(r[0], patterns[i]);
    }
  }

  // ----- Cleaning the symbol columns -----------------------------------------

  predicate IsCapital(c: char)
  {
    'A' <= c <= 'Z'
  }

  predicate AllCapitals(s: string)
  {
    forall i :: 0 <= i < |s| ==> IsCapital(s[i])
  }

  /**
   * `re.match(r'^[A-Z]+$', s)`: one or more capitals up to the end of the
   * string; Python's `$` also matches just before one final newline.
   */
  predicate IsSymbol(s: string)
  {
    || (|s| > 0 && AllCapitals(s))
    || (|s| > 1 && s[|s| - 1] == '\n' && AllCapitals(s[..|s| - 1]))
  }

  function SymbolTest(): string -> bool
  {
    s => IsSymbol(s)
  }

  /** `dropna()`: the present cells of a column, in order. */
  function Present(column: seq<Option<string>>): (r: seq<string>)
    ensures |r| <= |column|
    ensures forall s :: s in r <==> Some(s) in column
  {
    if column == [] then []
    else
      var init := Present(column[..|column| - 1]);
      assert column == column[..|column| - 1] + [column[|column| - 1]];
      match column[|column| - 1]
      case Some(s) => init + [s]
      case None => init
  }

  /**
   * The cleaning chain: both symbol columns concatenated, NaN dropped, only
   * symbols kept, then `sorted(unique())`.
   */
  function CleanSymbols(symbols: seq<Option<string>>, actSymbols: seq<Option<string>>): seq<string>
  {
    SortedUnique(Filter(Present(symbols + actSymbols), SymbolTest()))
  }

  /**
   * The cleaned list is strictly ascending (sorted, no repeats) and holds
   * exactly the symbols found in either column.
   */
  lemma CleanSymbolsSpec(symbols: seq<Option<string>>, actSymbols: seq<Option<string>>)
    ensures StrictlyAscending(CleanSymbols(symbols, actSymbols))
    ensures forall s :: s in CleanSymbols(symbols, actSymbols) <==>
      (Some(s) in symbols || Some(s) in actSymbols) && IsSymbol(s)
  {
    var cells := symbols + actSymbols;
    FilterMembers(Present(cells), SymbolTest());
    forall s ensures Some(s) in cells <==> Some(s) in symbols || Some(s) in actSymbols {
    }
  }

  /**
   * Every cleaned symbol is non-empty; one without a line break is made of
   * capitals `A`-`Z` only.
   */
  lemma CleanSymbolsCapitals(symbols: seq<Option<string>>, actSymbols: seq<Option<string>>, s: string)
    requires s in CleanSymbols(symbols, actSymbols)
    ensures |s| > 0
    ensures '\n' !in s ==> AllCapitals(s)
  {
    CleanSymbolsSpec(symbols, actSymbols);
    if |s| > 1 && s[|s| - 1] == '\n' {
      assert '\n' in s;
    }
  }

  // ----- fetch_all_tickers ----------------------------------------------------

  /** One downloaded directory file: a failed read, or its columns. */
  datatype Download = Failed | Table(columns: map<string, seq<Option<string>>>)

  /**
   * `fetch_all_tickers`: any failure (either download, or a missing
   * `Symbol` / `ACT Symbol` column) is caught and gives the empty list.
   */
  function FetchAllTickers(nasdaq: Download, other: Download): seq<string>
  {
    if nasdaq.Failed? || other.Failed? then []
    else if "Symbol" !in nasdaq.columns || "ACT Symbol" !in other.columns then []
    else CleanSymbols(nasdaq.columns["Symbol"], other.columns["ACT Symbol"])
  }

  /** A failure yields `[]`; otherwise the result is the sorted set of symbols of both files. */
  lemma FetchAllTickersSpec(nasdaq: Download, other: Download)
    ensures nasdaq.Failed? || other.Failed? ==> FetchAllTickers(nasdaq, other) == []
    ensures StrictlyAscending(FetchAllTickers(nasdaq, other))
    ensures nasdaq.Table? && other.Table? && "Symbol" in nasdaq.columns && "ACT Symbol" in other.columns ==>
      forall s :: s in FetchAllTickers(nasdaq, other) <==>
        (Some(s) in nasdaq.columns["Symbol"] || Some(s) in other.columns["ACT Symbol"]) && IsSymbol(s)
  {
    if nasdaq.Table? && other.Table? && "Symbol" in nasdaq.columns && "ACT Symbol" in other.columns {
      CleanSymbolsSpec(nasdaq.columns["Symbol"], other.columns["ACT Symbol"]);
    }
  }

  // ----- main ----------------------------------------------------------------

  /** The run's outcome: it stops when no ticker was fetched, otherwise it saves two lists. */
  datatype UpdateOutcome = NoTickers | Saved(filtered: seq<string>, all: seq<string>)

  /** `main` with the criteria it passes: 1 to 5 characters, no `TEST` or `ZZZZ`. */
  function UpdateList(nasdaq: Download, other: Download): UpdateOutcome
  {
    var all := FetchAllTickers(nasdaq, other);
    if all == [] then NoTickers
    else Saved(Filtered(all, 1, 5, Some(["TEST", "ZZZZ"])), all)
  }

  /**
   * When the update saves, the complete list is sorted without repeats and
   * the filtered list is an ordered selection of it with 1 to 5 characters
   * and neither excluded pattern.
   */
  lemma UpdateListSpec(nasdaq: Download, other: Download)
    ensures UpdateList(nasdaq, other).NoTickers? <==> FetchAllTickers(nasdaq, other) == []
    ensures UpdateList(nasdaq, other).Saved? ==>
      var u := UpdateList(nasdaq, other);
      && StrictlyAscending(u.all)
      && IsSubsequence(u.filtered, u.all)
      && forall t :: t in u.filtered <==>
           t in u.all && 1 <= |t| <= 5 && !Contains(t, "TEST") && !Contains(t, "ZZZZ")
  {
    var all := FetchAllTickers(nasdaq, other);
    FetchAllTickersSpec(nasdaq, other);
    if all != [] {
      var patterns := Some(["TEST", "ZZZZ"]);
      FilteredOrder(all, 1, 5, patterns);
      forall t ensures t in Filtered(all, 1, 5, patterns) <==>
        t in all && 1 <= |t| <= 5 && !Contains(t, "TEST") && !Contains(t, "ZZZZ")
      {
        FilteredMembers(all, 1, 5, patterns, t);
        assert "TEST" in PatternsOf(patterns) && "ZZZZ" in PatternsOf(patterns);
        assert forall p :: p in PatternsOf(patterns) ==> p == "TEST" || p == "ZZZZ";
      }
    }
  }
}
