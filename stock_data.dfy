/**
 * `modules/stock_data.py`: which tickers `fetch_prices_yf` downloads and how
 * it turns the download into table rows, and the whole of `pick_stocks`:
 * grouping a price table by ticker, running the per-ticker cascade of
 * `Features`, and splitting and trimming the survivors.
 */
module StockData {
  import opened Wrappers
  import opened Strings
  import opened Sorting
  import opened Lists
  import opened PriceData
  import opened Database
  import opened Features
  import opened Ranking
  import opened Arith

  // ===== fetch_prices_yf: the download list ===================================

  /**
   * A stripped, non-empty ticker must be downloaded: nothing is stored for
   * it, or its newest stored date sorts before today's ISO date.
   */
  predicate NeedsFetch(existing: map<string, DateRange>, today: string, c: string)
  {
    c != "" && (c !in existing || LexLess(existing[c].max, today))
  }

  function FetchTest(existing: map<string, DateRange>, today: string): string -> bool
  {
    c => NeedsFetch(existing, today, c)
  }

  /** `codes_to_fetch` as a value. */
  function FetchList(codes: seq<string>, existing: map<string, DateRange>, today: string): seq<string>
  {
    Filter(StripEach(codes), FetchTest(existing, today))
  }

  /** The first loop of `fetch_prices_yf`. */
  method CodesToFetch(codes: seq<string>, existing: map<string, DateRange>, today: string) returns (toFetch: seq<string>)
    ensures toFetch == FetchList(codes, existing, today)
  {
    toFetch := [];
    ghost var stripped := StripEach(codes);
    ghost var test := FetchTest(existing, today);
    for i := 0 to |codes|
      invariant toFetch == Filter(stripped[..i], test)
    {
      FilterStep(stripped, i, test);
      var c := Strip(codes[i]);
      assert stripped[i] == c && test(c) == NeedsFetch(existing, today, c);
      if c == "" {
        continue;
      }
      if c !in existing {
        toFetch := toFetch + [c];
      } else {
        var maxDate := existing[c].max;
        if LexLess(maxDate, today) {
          toFetch := toFetch + [c];
        }
      }
    }
    assert stripped[..|codes|] == stripped;
  }

  /**
   * A ticker is on the download list exactly when one of the input codes
   * strips to it and it needs fetching.
   */
  lemma FetchListMembers(codes: seq<string>, existing: map<string, DateRange>, today: string, c: string)
    ensures c in FetchList(codes, existing, today) <==>
      NeedsFetch(existing, today, c) && exists i :: 0 <= i < |codes| && Strip(codes[i]) == c
  {
    FilterMembers(StripEach(codes), FetchTest(existing, today));
    StripEachMember(codes, c);
  }

  lemma StripEachMember(codes: seq<string>, c: string)
    ensures c in StripEach(codes) <==> exists i :: 0 <= i < |codes| && Strip(codes[i]) == c
  {
    var s := StripEach(codes);
    if c in s {
      var i :| 0 <= i < |s| && s[i] == c;
      assert Strip(codes[i]) == c;
    }
    if exists i :: 0 <= i < |codes| && Strip(codes[i]) == c {
      var i :| 0 <= i < |codes| && Strip(codes[i]) == c;
      assert s[i] == c;
    }
  }

  /** Each ticker is listed once per input code that strips to it: repeats are kept. */
  lemma FetchListOccurrences(codes: seq<string>, existing: map<string, DateRange>, today: string, c: string)
    ensures Occurrences(FetchList(codes, existing, today), c) ==
      (if NeedsFetch(existing, today, c) then Occurrences(StripEach(codes), c) else 0)
  {
    FilterOccurrences(StripEach(codes), FetchTest(existing, today), c);
  }

  /** The list keeps input order. */
  lemma FetchListOrder(codes: seq<string>, existing: map<string, DateRange>, today: string)
    ensures IsSubsequence(FetchList(codes, existing, today), StripEach(codes))
  {
    FilterIsSubsequence(StripEach(codes), FetchTest(existing, today));
  }

  /** Each listed ticker is stripped and non-empty. */
  lemma FetchListStripEach(codes: seq<string>, existing: map<string, DateRange>, today: string, c: string)
    requires c in FetchList(codes, existing, today)
    ensures c != "" && Strip(c) == c
  {
    var s := StripEach(codes);
    FilterMembers(s, FetchTest(existing, today));
    assert c in s && FetchTest(existing, today)(c);
    var i :| 0 <= i < |s| && s[i] == c;
    StripTwice(codes[i], c);
  }

  lemma StripTwice(code: string, c: string)
    requires c == Strip(code)
    ensures Strip(c) == c
  {
    StripIdempotent(code);
  }

  /** The download list of a concatenation is the concatenation of the lists. */
  lemma FetchListAppend(a: seq<string>, b: seq<string>, existing: map<string, DateRange>, today: string)
    ensures FetchList(a + b, existing, today) == FetchList(a, existing, today) + FetchList(b, existing, today)
  {
    StripEachAppend(a, b);
    FilterAppend(StripEach(a), StripEach(b), FetchTest(existing, today));
  }

  // ===== fetch_prices_yf: normalising the download ============================

  /**
   * The frame `yf.download(..., group_by="ticker")` returns, reduced to what
   * is read of it: the bar series of each ticker column it holds.
   */
  type Response = map<string, seq<Bar>>

  /** `df[c]` with the `code` column set to `c`. */
  function Tagged(c: string, bars: seq<Bar>): (r: seq<PriceRow>)
    ensures |r| == |bars|
    ensures forall j :: 0 <= j < |bars| ==> r[j] == PriceRow(c, bars[j])
  {
    seq(|bars|, j requires 0 <= j < |bars| => PriceRow(c, bars[j]))
  }

  /** The rows for `c`, or none when the response has no column for it. */
  function RowsFor(c: string, response: Response): seq<PriceRow>
  {
    if c in response then Tagged(c, response[c]) else []
  }

  /** `pd.concat(out)`: the rows of every listed ticker present in the response, list order. */
  function Normalised(toFetch: seq<string>, response: Response): seq<PriceRow>
  {
    if toFetch == [] then []
    else Normalised(toFetch[..|toFetch| - 1], response) + RowsFor(toFetch[|toFetch| - 1], response)
  }

  /**
   * `fetch_prices_yf(codes)` against the stored ranges `existing`, today's
   * ISO date and the downloader `download`; `downloaded` tells whether the
   * downloader was called at all.
   */
  method FetchPrices(codes: seq<string>, existing: map<string, DateRange>, today: string, download: seq<string> -> Response)
    returns (downloaded: bool, out: seq<PriceRow>)
    ensures downloaded <==> FetchList(codes, existing, today) != []
    ensures !downloaded ==> out == []
    ensures downloaded ==> out == Normalised(FetchList(codes, existing, today), download(FetchList(codes, existing, today)))
  {
    var toFetch := CodesToFetch(codes, existing, today);
    if toFetch == [] {
      return false, [];
    }
    var response := download(toFetch);
    out := Normalise(toFetch, response);
    downloaded := true;
  }

  /** The second loop of `fetch_prices_yf`: one block of rows per listed ticker in the response. */
  method Normalise(toFetch: seq<string>, response: Response) returns (out: seq<PriceRow>)
    ensures out == Normalised(toFetch, response)
  {
    out := [];
    for i := 0 to |toFetch|
      invariant out == Normalised(toFetch[..i], response)
    {
      assert toFetch[..i + 1][..i] == toFetch[..i];
      var c := toFetch[i];
      if c in response {
        out := out + Tagged(c, response[c]);
      }
    }
    assert toFetch[..|toFetch|] == toFetch;
  }

  lemma {:induction false} NormalisedAppend(a: seq<string>, b: seq<string>, response: Response)
    ensures Normalised(a + b, response) == Normalised(a, response) + Normalised(b, response)
    decreases |b|
  {
    if b == [] {
      assert a + b == a;
    } else {
      var b' := b[..|b| - 1];
      var last := RowsFor(b[|b| - 1], response);
      assert (a + b)[..|a + b| - 1] == a + b';
      assert (a + b)[|a + b| - 1] == b[|b| - 1];
      assert Normalised(a + b, response) == Normalised(a + b', response) + last;
      assert Normalised(b, response) == Normalised(b', response) + last;
      NormalisedAppend(a, b', response);
    }
  }

  /**
   * Every normalised row is a bar the response holds for a listed ticker, and
   * every bar the response holds for a listed ticker is a row: tickers the
   * response lacks contribute nothing.
   */
  lemma {:induction false} NormalisedSpec(toFetch: seq<string>, response: Response)
    ensures forall r :: r in Normalised(toFetch, response) ==>
      r.code in toFetch && r.code in response && r.bar in response[r.code]
    ensures forall c, b :: c in toFetch && c in response && b in response[c] ==>
      PriceRow(c, b) in Normalised(toFetch, response)
    decreases |toFetch|
  {
    if toFetch != [] {
      var init := toFetch[..|toFetch| - 1];
      var c := toFetch[|toFetch| - 1];
      NormalisedSpec(init, response);
      assert toFetch == init + [c];
      forall r | r in RowsFor(c, response) ensures r.code == c && c in response && r.bar in response[c] {
        var j :| 0 <= j < |RowsFor(c, response)| && RowsFor(c, response)[j] == r;
        assert r.bar == response[c][j];
      }
      forall b | c in response && b in response[c] ensures PriceRow(c, b) in RowsFor(c, response) {
        var j :| 0 <= j < |response[c]| && response[c][j] == b;
        assert RowsFor(c, response)[j] == PriceRow(c, b);
      }
    }
  }

  // ----- Finding: a repeated ticker breaks the upsert --------------------------

  /**
   * As written: a ticker listed twice (the default universe lists several
   * twice) whose download is non-empty yields the same `(code, date)` twice,
   * which the `INSERT` of `upsert_prices` rejects.
   */
  lemma RepeatedTickerRepeatsKeys(toFetch: seq<string>, response: Response, i: nat, j: nat)
    requires i < j < |toFetch| && toFetch[i] == toFetch[j]
    requires toFetch[i] in response && response[toFetch[i]] != []
    ensures !DistinctKeys(Normalised(toFetch, response))
  {
    var c := toFetch[i];
    NormalisedAt(toFetch, response, i, 0);
    NormalisedAt(toFetch, response, j, 0);
    NormalisedAt(toFetch[..j], response, i, 0);
    assert toFetch[..j][..i] == toFetch[..i];
  }

  /** Row `k` of ticker `toFetch[i]` sits right after the rows of the tickers listed before it. */
  lemma NormalisedAt(toFetch: seq<string>, response: Response, i: nat, k: nat)
    requires i < |toFetch| && toFetch[i] in response && k < |response[toFetch[i]]|
    ensures |Normalised(toFetch[..i], response)| + k < |Normalised(toFetch, response)|
    ensures Normalised(toFetch, response)[|Normalised(toFetch[..i], response)| + k] ==
      PriceRow(toFetch[i], response[toFetch[i]][k])
  {
    var c := toFetch[i];
    NormalisedSplit(toFetch, response, i);
    var rows := RowsFor(c, response);
    assert rows[k] == PriceRow(c, response[c][k]);
  }

  /** The rows of a listing are those before position `i`, then those of `toFetch[i]`, then those after. */
  lemma NormalisedSplit(toFetch: seq<string>, response: Response, i: nat)
    requires i < |toFetch|
    ensures Normalised(toFetch, response) ==
      Normalised(toFetch[..i], response) + (RowsFor(toFetch[i], response) + Normalised(toFetch[i + 1..], response))
  {
    var c := toFetch[i];
    var post := toFetch[i + 1..];
    SplitAt(toFetch, i);
    assert toFetch[i..] == [c] + post;
    NormalisedAppend(toFetch[..i], toFetch[i..], response);
    NormalisedAppend([c], post, response);
    assert Normalised([c], response) == RowsFor(c, response) by {
      assert [c][..0] == [];
    }
  }

  /** One concrete instance: `"AMZN"` twice, fresh database, one bar downloaded. */
  lemma DuplicateAmznFailsUpsert()
    ensures var bar := Bar("2024-06-03", 1.0, 1.0, 1.0, 1.0, 1000);
      var toFetch := FetchList(["AMZN", "AMZN"], map[], "2024-06-04");
      toFetch == ["AMZN", "AMZN"] && !DistinctKeys(Normalised(toFetch, map["AMZN" := [bar]]))
  {
    var bar := Bar("2024-06-03", 1.0, 1.0, 1.0, 1.0, 1000);
    var amzn: string := "AMZN";
    StripUnchanged(amzn);
    FetchListSingle(amzn, map[], "2024-06-04");
    FetchListAppend([amzn], [amzn], map[], "2024-06-04");
    assert [amzn] + [amzn] == [amzn, amzn];
    RepeatedTickerRepeatsKeys([amzn, amzn], map[amzn := [bar]], 0, 1);
  }

  /** A single trimmed code that needs fetching is its own download list. */
  lemma FetchListSingle(c: string, existing: map<string, DateRange>, today: string)
    requires Strip(c) == c && NeedsFetch(existing, today, c)
    ensures FetchList([c], existing, today) == [c]
  {
    assert StripEach([c]) == [c];
    assert [c][..0] == [];
  }

  /** Corrected: each listed ticker is normalised once, at its first listing. */
  function NormalisedOnce(toFetch: seq<string>, response: Response): seq<PriceRow>
  {
    if toFetch == [] then []
    else
      var init := toFetch[..|toFetch| - 1];
      var c := toFetch[|toFetch| - 1];
      NormalisedOnce(init, response) + (if c in init then [] else RowsFor(c, response))
  }

  /** Every bar series the downloader returns has one bar per date. */
  predicate DatesDistinct(response: Response)
  {
    forall c, a, b :: c in response && 0 <= a < b < |response[c]| ==> response[c][a].date != response[c][b].date
  }

  /**
   * With one bar per date in each downloaded series, the corrected rows have
   * distinct keys, so the upsert accepts them; it keeps exactly the rows of
   * the original normalisation.
   */
  lemma {:induction false} NormalisedOnceDistinct(toFetch: seq<string>, response: Response)
    requires DatesDistinct(response)
    ensures DistinctKeys(NormalisedOnce(toFetch, response))
    ensures forall r :: r in NormalisedOnce(toFetch, response) <==> r in Normalised(toFetch, response)
    decreases |toFetch|
  {
    if toFetch != [] {
      var init := toFetch[..|toFetch| - 1];
      var c := toFetch[|toFetch| - 1];
      var before := NormalisedOnce(init, response);
      NormalisedOnceDistinct(init, response);
      NormalisedSpec(init, response);
      var add := if c in init then [] else RowsFor(c, response);
      var out := before + add;
      forall a, b | 0 <= a < b < |out| ensures KeyOf(out[a]) != KeyOf(out[b]) {
        if b >= |before| {
          assert out[b] == add[b - |before|];
          if a >= |before| {
            assert out[a] == add[a - |before|];
          } else {
            assert out[a] in Normalised(init, response) by {
              assert out[a] in before;
            }
          }
        }
      }
      forall r | r in Normalised(toFetch, response) ensures r in out {
        assert Normalised(toFetch, response) == Normalised(init, response) + RowsFor(c, response);
      }
    }
  }

  // ===== pick_stocks: grouping the table by ticker ============================

  function RowCodes(prices: seq<PriceRow>): (r: seq<string>)
    ensures |r| == |prices|
    ensures forall i :: 0 <= i < |prices| ==> r[i] == prices[i].code
  {
    MapEach(prices, (x: PriceRow) => x.code)
  }

  /** The tickers `groupby("code")` visits: ascending, once each. */
  function TableCodes(prices: seq<PriceRow>): (r: seq<string>)
    ensures StrictlyAscending(r)
    ensures forall c :: c in r <==> c in RowCodes(prices)
  {
    SortedUnique(RowCodes(prices))
  }

  function HasCode(c: string): PriceRow -> bool
  {
    (r: PriceRow) => r.code == c
  }

  function DateOf(r: PriceRow): string
  {
    r.bar.date
  }

  function BarsOf(rows: seq<PriceRow>): (r: seq<Bar>)
    ensures |r| == |rows|
    ensures forall i :: 0 <= i < |rows| ==> r[i] == rows[i].bar
  {
    seq(|rows|, i requires 0 <= i < |rows| => rows[i].bar)
  }

  /** The rows of ticker `c` in date order, as `sort_values(["code", "date"])` and `groupby` give them. */
  function SeriesOf(prices: seq<PriceRow>, c: string): seq<Bar>
  {
    BarsOf(SortBy(Filter(prices, HasCode(c)), DateOf, false))
  }

  /** A ticker's series holds exactly its rows of the table, once per row, by ascending date. */
  lemma SeriesSpec(prices: seq<PriceRow>, c: string)
    ensures var s := SeriesOf(prices, c);
      forall i, j :: 0 <= i < j < |s| ==> LexLe(s[i].date, s[j].date)
    ensures forall b :: b in SeriesOf(prices, c) <==> PriceRow(c, b) in prices
    ensures |SeriesOf(prices, c)| == |Filter(prices, HasCode(c))|
  {
    var f := Filter(prices, HasCode(c));
    var sorted := SortBy(f, DateOf, false);
    var s := SeriesOf(prices, c);
    FilterMembers(prices, HasCode(c));
    forall i, j | 0 <= i < j < |s| ensures LexLe(s[i].date, s[j].date) {
      assert InOrder(DateOf(sorted[i]), DateOf(sorted[j]), false);
    }
    forall b | b in s ensures PriceRow(c, b) in prices {
      var i :| 0 <= i < |s| && s[i] == b;
      assert sorted[i] in multiset(f);
      assert sorted[i] in f;
      assert sorted[i] == PriceRow(c, b);
    }
    forall b | PriceRow(c, b) in prices ensures b in s {
      assert PriceRow(c, b) in f;
      assert PriceRow(c, b) in multiset(sorted);
      var i :| 0 <= i < |sorted| && sorted[i] == PriceRow(c, b);
      assert s[i] == b;
    }
  }

  // ===== pick_stocks: the results list ========================================

  /** The cascade of `Features.Evaluate` run on each ticker's series of `prices`. */
  function Outcome(prices: seq<PriceRow>): string -> Option<Candidate>
  {
    c => Evaluate(c, SeriesOf(prices, c))
  }

  /** The records `eval` yields for `codes`, in `codes` order. */
  function Collect(codes: seq<string>, eval: string -> Option<Candidate>): seq<Candidate>
  {
    if codes == [] then []
    else
      var e := eval(codes[|codes| - 1]);
      Collect(codes[..|codes| - 1], eval) + (if e.Some? then [e.value] else [])
  }

  /** `results`: the record of every ticker that passes the cascade, in `groupby` order. */
  function CandidatesOf(prices: seq<PriceRow>, codes: seq<string>): seq<Candidate>
  {
    Collect(codes, Outcome(prices))
  }

  /** A record carries the code of the ticker it was made for. */
  ghost predicate KeepsCode(eval: string -> Option<Candidate>)
  {
    forall c :: eval(c).Some? ==> eval(c).value.code == c
  }

  /** Every record the cascade yields carries its ticker's code and shows the gates it passed. */
  lemma OutcomeSpec(prices: seq<PriceRow>)
    ensures KeepsCode(Outcome(prices))
    ensures forall c :: Outcome(prices)(c).Some? ==> Admissible(Outcome(prices)(c).value)
  {
    forall c ensures Outcome(prices)(c).Some? ==>
      Admissible(Outcome(prices)(c).value) && Outcome(prices)(c).value.code == c
    {
      EvaluateAdmissible(c, SeriesOf(prices, c));
    }
  }

  /** A record is collected exactly when `eval` yields it for one of the tickers. */
  lemma {:induction false} CollectMembers(codes: seq<string>, eval: string -> Option<Candidate>)
    ensures forall x :: x in Collect(codes, eval) <==> exists k :: 0 <= k < |codes| && eval(codes[k]) == Some(x)
    decreases |codes|
  {
    if codes != [] {
      var init := codes[..|codes| - 1];
      CollectMembers(init, eval);
      assert codes == init + [codes[|codes| - 1]];
      forall x | x in Collect(codes, eval) ensures exists k :: 0 <= k < |codes| && eval(codes[k]) == Some(x) {
        if x in Collect(init, eval) {
          var k :| 0 <= k < |init| && eval(init[k]) == Some(x);
          assert codes[k] == init[k];
        }
      }
      forall x | exists k :: 0 <= k < |codes| && eval(codes[k]) == Some(x) ensures x in Collect(codes, eval) {
        var k :| 0 <= k < |codes| && eval(codes[k]) == Some(x);
        if k < |init| {
          assert init[k] == codes[k];
        }
      }
    }
  }

  /** When records carry their ticker's code, each collected record is `eval` of its own code. */
  lemma CollectCodes(codes: seq<string>, eval: string -> Option<Candidate>)
    requires KeepsCode(eval)
    ensures forall x :: x in Collect(codes, eval) ==> x.code in codes && eval(x.code) == Some(x)
  {
    CollectMembers(codes, eval);
  }

  predicate DistinctCodes(g: seq<Candidate>)
  {
    forall i, j :: 0 <= i < j < |g| ==> g[i].code != g[j].code
  }

  /** Over ascending distinct tickers, no two collected records share a code. */
  lemma {:induction false} CollectDistinct(codes: seq<string>, eval: string -> Option<Candidate>)
    requires KeepsCode(eval) && StrictlyAscending(codes)
    ensures DistinctCodes(Collect(codes, eval))
    decreases |codes|
  {
    if codes != [] {
      var init := codes[..|codes| - 1];
      var c := codes[|codes| - 1];
      CollectDistinct(init, eval);
      CollectCodes(init, eval);
      var before := Collect(init, eval);
      forall i | 0 <= i < |before| ensures before[i].code != c {
        assert before[i] in before;
        var k :| 0 <= k < |init| && init[k] == before[i].code;
        assert LexLess(codes[k], codes[|codes| - 1]);
        if before[i].code == c {
          LexLessIrreflexive(c);
        }
      }
    }
  }

  /** Every collected record is one `eval` yields. */
  lemma {:induction false} CollectFrom(codes: seq<string>, eval: string -> Option<Candidate>, x: Candidate)
    requires x in Collect(codes, eval)
    ensures exists c :: c in codes && eval(c) == Some(x)
  {
    CollectMembers(codes, eval);
    var k :| 0 <= k < |codes| && eval(codes[k]) == Some(x);
    assert codes[k] in codes;
  }

  // ===== pick_stocks: groups and trimming =====================================

  const StrongSlope: real := 0.8
  const GroupSize: nat := 6

  /** `group1`: MA20 slope in [0.8, 2). */
  predicate IsStrong(c: Candidate)
  {
    StrongSlope <= c.ma20Slope < MaxSlope
  }

  /** `group2`: MA20 slope below 0.8. */
  predicate IsPotential(c: Candidate)
  {
    c.ma20Slope < StrongSlope
  }

  /** `is_lowest_close == False`. */
  predicate IsFresh(c: Candidate)
  {
    !c.isLowestClose
  }

  function DistanceKeys(g: seq<Candidate>): (keys: seq<real>)
    ensures |keys| == |g|
    ensures forall i :: 0 <= i < |g| ==> keys[i] == g[i].avgMa20Distance
  {
    seq(|g|, i requires 0 <= i < |g| => g[i].avgMa20Distance)
  }

  /** `g.nsmallest(k, "avg_ma20_distance")`. */
  function NSmallest(g: seq<Candidate>, k: nat): (r: seq<Candidate>)
    ensures |r| == MinNat(k, |g|)
  {
    var sel := Smallest(DistanceKeys(g), k);
    SmallestSpec(DistanceKeys(g), k);
    seq(|sel|, p requires 0 <= p < |sel| => g[sel[p]])
  }

  /** The cut of one group to at most six records. */
  function Trim(g: seq<Candidate>): seq<Candidate>
  {
    if |g| <= GroupSize then g
    else
      var notLowest := Filter(g, IsFresh);
      if |notLowest| > GroupSize then NSmallest(notLowest, GroupSize)
      else if |notLowest| > 0 then notLowest
      else NSmallest(g, GroupSize)
  }

  /** The table `pick_stocks` returns. */
  function Picks(prices: seq<PriceRow>): seq<Candidate>
  {
    if prices == [] then []
    else
      var results := CandidatesOf(prices, TableCodes(prices));
      if results == [] then []
      else Trim(Filter(results, IsStrong)) + Trim(Filter(results, IsPotential))
  }

  /** `pick_stocks(prices, top_k)`; `top_k` is not read. */
  method PickStocks(prices: seq<PriceRow>, topK: int) returns (picked: seq<Candidate>)
    ensures picked == Picks(prices)
  {
    if prices == [] {
      return [];
    }
    var results := CollectCandidates(prices, TableCodes(prices));
    if results == [] {
      return [];
    }
    picked := GroupAndTrim(results);
  }

  /** The loop of `pick_stocks` over the tickers, appending to `results`. */
  method CollectCandidates(prices: seq<PriceRow>, codes: seq<string>) returns (results: seq<Candidate>)
    ensures results == CandidatesOf(prices, codes)
  {
    results := [];
    for i := 0 to |codes|
      invariant results == Collect(codes[..i], Outcome(prices))
    {
      assert codes[..i + 1][..i] == codes[..i];
      var e := Evaluate(codes[i], SeriesOf(prices, codes[i]));
      assert e == Outcome(prices)(codes[i]);
      if e.Some? {
        results := results + [e.value];
      }
    }
    assert codes[..|codes|] == codes;
  }

  /** The grouping by slope and the reassignments of `group1` and `group2`. */
  method GroupAndTrim(results: seq<Candidate>) returns (picked: seq<Candidate>)
    ensures picked == Trim(Filter(results, IsStrong)) + Trim(Filter(results, IsPotential))
  {
    var group1 := Filter(results, IsStrong);
    var group2 := Filter(results, IsPotential);
    if |group1| > GroupSize {
      var notLowest := Filter(group1, IsFresh);
      if |notLowest| > GroupSize {
        group1 := NSmallest(notLowest, GroupSize);
      } else if |notLowest| > 0 {
        group1 := notLowest;
      } else {
        group1 := NSmallest(group1, GroupSize);
      }
    }
    if |group2| > GroupSize {
      var notLowest := Filter(group2, IsFresh);
      if |notLowest| > GroupSize {
        group2 := NSmallest(notLowest, GroupSize);
      } else if |notLowest| > 0 {
        group2 := notLowest;
      } else {
        group2 := NSmallest(group2, GroupSize);
      }
    }
    picked := group1 + group2;
  }

  // ----- Properties of the trim ---------------------------------------------

  /**
   * `nsmallest(k)` keeps `min(k, n)` records of `g`, in ascending distance,
   * no record twice, and each kept record is at least as close to its MA20
   * as every dropped one (on a tie, the kept one comes earlier in `g`): the
   * records are those at the rows `Ranking.Smallest` selects, in its order.
   */
  lemma NSmallestSpec(g: seq<Candidate>, k: nat)
    ensures var r := NSmallest(g, k);
      && (forall x :: x in r ==> x in g)
      && (forall p, q :: 0 <= p < q < |r| ==> r[p].avgMa20Distance <= r[q].avgMa20Distance)
    ensures var sel := Smallest(DistanceKeys(g), k);
      forall p :: 0 <= p < |sel| ==> sel[p] < |g| && NSmallest(g, k)[p] == g[sel[p]]
    ensures var sel := Smallest(DistanceKeys(g), k);
      forall p, j :: 0 <= p < |sel| && 0 <= j < |g| && j !in sel ==>
        NSmallest(g, k)[p].avgMa20Distance <= g[j].avgMa20Distance
    ensures DistinctCodes(g) ==> DistinctCodes(NSmallest(g, k))
  {
    var keys := DistanceKeys(g);
    var sel := Smallest(keys, k);
    var r := NSmallest(g, k);
    SmallestSpec(keys, k);
    forall x | x in r ensures x in g {
      var p :| 0 <= p < |r| && r[p] == x;
      assert r[p] == g[sel[p]];
    }
    forall p, q | 0 <= p < q < |r| ensures r[p].avgMa20Distance <= r[q].avgMa20Distance {
      assert Precedes(keys, sel[p], sel[q]);
    }
    forall p, j | 0 <= p < |sel| && 0 <= j < |g| && j !in sel ensures r[p].avgMa20Distance <= g[j].avgMa20Distance {
      assert sel[p] in sel;
      assert Precedes(keys, sel[p], j);
    }
    if DistinctCodes(g) {
      forall p, q | 0 <= p < q < |r| ensures r[p].code != r[q].code {
        assert Precedes(keys, sel[p], sel[q]);
        assert sel[p] != sel[q];
      }
    }
  }

  /** A group keeps at most six records, all from the group. */
  lemma TrimWithin(g: seq<Candidate>)
    ensures |Trim(g)| <= GroupSize
    ensures forall x :: x in Trim(g) ==> x in g
  {
    var notLowest := Filter(g, IsFresh);
    FilterMembers(g, IsFresh);
    NSmallestWithin(notLowest, GroupSize);
    NSmallestWithin(g, GroupSize);
  }

  lemma NSmallestWithin(g: seq<Candidate>, k: nat)
    ensures forall x :: x in NSmallest(g, k) ==> x in g
  {
    NSmallestSpec(g, k);
  }

  /**
   * A group of at most six is kept whole; when it is larger and some record's
   * latest close is not its 5-day low, only such records are kept, exactly
   * all of them if there are at most six, and the six nearest to their MA20
   * (`nsmallest`) if there are more; with no such record the whole group is
   * cut to its six nearest.
   */
  lemma TrimSpec(g: seq<Candidate>)
    ensures |g| <= GroupSize ==> Trim(g) == g
    ensures |g| > GroupSize && 0 < |Filter(g, IsFresh)| <= GroupSize ==> Trim(g) == Filter(g, IsFresh)
    ensures |g| > GroupSize && Filter(g, IsFresh) != [] ==> forall x :: x in Trim(g) ==> IsFresh(x)
    ensures |g| > GroupSize && (Filter(g, IsFresh) == [] || |Filter(g, IsFresh)| > GroupSize) ==> |Trim(g)| == GroupSize
    ensures |g| > GroupSize && |Filter(g, IsFresh)| > GroupSize ==> Trim(g) == NSmallest(Filter(g, IsFresh), GroupSize)
    ensures |g| > GroupSize && Filter(g, IsFresh) == [] ==> Trim(g) == NSmallest(g, GroupSize)
  {
    var notLowest := Filter(g, IsFresh);
    NSmallestWithin(notLowest, GroupSize);
  }

  /** Trimming keeps codes distinct. */
  lemma TrimDistinct(g: seq<Candidate>)
    requires DistinctCodes(g)
    ensures DistinctCodes(Trim(g))
  {
    FilterDistinct(g, IsFresh);
    NSmallestSpec(Filter(g, IsFresh), GroupSize);
    NSmallestSpec(g, GroupSize);
  }

  /** Filtering keeps codes distinct. */
  lemma {:induction false} FilterDistinct(g: seq<Candidate>, p: Candidate -> bool)
    ensures DistinctCodes(g) ==> DistinctCodes(Filter(g, p))
    decreases |g|
  {
    if g != [] && DistinctCodes(g) {
      var init := g[..|g| - 1];
      var last := g[|g| - 1];
      FilterDistinct(init, p);
      FilterMembers(init, p);
      var f := Filter(init, p);
      forall i | 0 <= i < |f| ensures f[i].code != last.code {
        assert f[i] in init;
        var k :| 0 <= k < |init| && init[k] == f[i];
        assert g[k] == f[i];
      }
    }
  }

  // ----- Properties of the picks ------------------------------------------------

  /** An empty table gives no picks. */
  lemma PicksEmpty()
    ensures Picks([]) == []
  {
  }

  /**
   * The picks are the trimmed strong group followed by the trimmed potential
   * group, at most six each: at most twelve, whatever `top_k` says.
   */
  lemma PicksShape(prices: seq<PriceRow>)
    ensures |Picks(prices)| <= 2 * GroupSize
    ensures prices != [] ==> var results := CandidatesOf(prices, TableCodes(prices));
      Picks(prices) == Trim(Filter(results, IsStrong)) + Trim(Filter(results, IsPotential))
  {
    if prices != [] {
      var results := CandidatesOf(prices, TableCodes(prices));
      if results == [] {
        assert Filter(results, IsStrong) == [] && Filter(results, IsPotential) == [];
      } else {
        TrimWithin(Filter(results, IsStrong));
        TrimWithin(Filter(results, IsPotential));
      }
    }
  }

  /** In the concatenated groups, the first `|Trim(strong)|` records are strong and the rest potential. */
  lemma GroupsInOrder(results: seq<Candidate>)
    ensures var a := Trim(Filter(results, IsStrong));
      var r := a + Trim(Filter(results, IsPotential));
      && (forall i :: 0 <= i < |a| ==> IsStrong(r[i]))
      && (forall i :: |a| <= i < |r| ==> IsPotential(r[i]))
  {
    var s := Filter(results, IsStrong);
    var t := Filter(results, IsPotential);
    TrimWithin(s);
    TrimWithin(t);
    var a := Trim(s);
    var b := Trim(t);
    forall i | 0 <= i < |a| ensures IsStrong(a[i]) {
      assert a[i] in s;
      var k :| 0 <= k < |s| && s[k] == a[i];
    }
    forall i | 0 <= i < |b| ensures IsPotential(b[i]) {
      assert b[i] in t;
      var k :| 0 <= k < |t| && t[k] == b[i];
    }
    var r := a + b;
    assert forall i :: |a| <= i < |r| ==> r[i] == b[i - |a|];
  }

  /**
   * Each pick is the record the cascade yields for its own ticker of the
   * table, so it passed every gate.
   */
  lemma PicksFromCascade(prices: seq<PriceRow>)
    ensures forall x :: x in Picks(prices) ==>
      x.code in RowCodes(prices) && Evaluate(x.code, SeriesOf(prices, x.code)) == Some(x) && Admissible(x)
  {
    if prices != [] {
      var codes := TableCodes(prices);
      var results := CandidatesOf(prices, codes);
      OutcomeSpec(prices);
      CollectCodes(codes, Outcome(prices));
      PicksFromResults(results, Picks(prices));
      forall x | x in Picks(prices)
        ensures x.code in RowCodes(prices) && Evaluate(x.code, SeriesOf(prices, x.code)) == Some(x) && Admissible(x)
      {
        assert x in results;
        assert Outcome(prices)(x.code) == Some(x);
      }
    }
  }

  /** Every pick is one of the results. */
  lemma PicksFromResults(results: seq<Candidate>, picked: seq<Candidate>)
    requires picked == Trim(Filter(results, IsStrong)) + Trim(Filter(results, IsPotential))
    ensures forall x :: x in picked ==> x in results
  {
    TrimWithin(Filter(results, IsStrong));
    TrimWithin(Filter(results, IsPotential));
    FilterMembers(results, IsStrong);
    FilterMembers(results, IsPotential);
  }

  /** No ticker is picked twice. */
  lemma PicksDistinct(prices: seq<PriceRow>)
    ensures DistinctCodes(Picks(prices))
  {
    if prices != [] {
      var codes := TableCodes(prices);
      var results := CandidatesOf(prices, codes);
      OutcomeSpec(prices);
      CollectDistinct(codes, Outcome(prices));
      if results != [] {
        TrimmedDistinct(results);
      }
    }
  }

  /** Trimming both groups of distinct-code results keeps all codes distinct. */
  lemma TrimmedDistinct(results: seq<Candidate>)
    requires DistinctCodes(results)
    ensures DistinctCodes(Trim(Filter(results, IsStrong)) + Trim(Filter(results, IsPotential)))
  {
    var s := Filter(results, IsStrong);
    var t := Filter(results, IsPotential);
    FilterDistinct(results, IsStrong);
    FilterDistinct(results, IsPotential);
    TrimDistinct(s);
    TrimDistinct(t);
    TrimAcross(results);
    var a := Trim(s);
    var b := Trim(t);
    var r := a + b;
    forall i, j | 0 <= i < j < |r| ensures r[i].code != r[j].code {
      if i < |a| && j >= |a| {
        assert r[i] in a && r[j] == b[j - |a|];
      } else if i >= |a| {
        assert r[i] == b[i - |a|] && r[j] == b[j - |a|];
      }
    }
  }

  /** A kept strong record and a kept potential record never share a code. */
  lemma TrimAcross(results: seq<Candidate>)
    requires DistinctCodes(results)
    ensures forall x, y :: x in Trim(Filter(results, IsStrong)) && y in Trim(Filter(results, IsPotential)) ==> x.code != y.code
  {
    var s := Filter(results, IsStrong);
    var t := Filter(results, IsPotential);
    TrimWithin(s);
    TrimWithin(t);
    FilterMembers(results, IsStrong);
    FilterMembers(results, IsPotential);
    forall x, y | x in Trim(s) && y in Trim(t) ensures x.code != y.code {
      SplitCodesDiffer(results, x, y);
    }
  }

  /** A strong and a potential record of distinct-code results carry different codes. */
  lemma SplitCodesDiffer(results: seq<Candidate>, x: Candidate, y: Candidate)
    requires DistinctCodes(results) && x in results && y in results
    requires IsStrong(x) && IsPotential(y)
    ensures x.code != y.code
  {
    var i :| 0 <= i < |results| && results[i] == x;
    var j :| 0 <= j < |results| && results[j] == y;
    assert i != j;
  }

  /**
   * The two groups partition the records: every slope is below 2, so each
   * record is in exactly one group, a slope of exactly 0.8 in the strong one.
   */
  lemma GroupsPartition(results: seq<Candidate>, x: Candidate)
    requires forall y :: y in results ==> Admissible(y)
    ensures Occurrences(Filter(results, IsStrong), x) + Occurrences(Filter(results, IsPotential), x) == Occurrences(results, x)
    ensures !(IsStrong(x) && IsPotential(x))
  {
    FilterOccurrences(results, IsStrong, x);
    FilterOccurrences(results, IsPotential, x);
    if x in results {
      assert Admissible(x);
    }
  }
}
