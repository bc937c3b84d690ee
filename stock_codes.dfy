/**
 * Where the ticker universe comes from (`modules/stock_codes.py`): the
 * `US_STOCK_CODES` environment variable, else the JSON ticker list, else the
 * built-in default list; the display-name lookup; and `TOP_K`.
 */
module StockCodes {
  import opened Wrappers
  import opened Strings
  import opened Lists
  import opened StockData
  import opened Database

  // ----- The comma list of US_STOCK_CODES ------------------------------------

  function NonBlank(): string -> bool
  {
    c => c != ""
  }

  /** `[c.strip() for c in custom.split(",") if c.strip()]`. */
  function ParseCodes(custom: string): seq<string>
  {
    Filter(StripEach(Split(custom, ',')), NonBlank())
  }

  /** Every parsed code is non-empty, trimmed and free of commas. */
  lemma ParseCodesClean(custom: string, c: string)
    requires c in ParseCodes(custom)
    ensures c != "" && Strip(c) == c && ',' !in c
  {
    var pieces := Split(custom, ',');
    var t := StripEach(pieces);
    FilterMembers(t, NonBlank());
    assert c in t && NonBlank()(c);
    var i :| 0 <= i < |t| && t[i] == c;
    SplitPiece(custom, i);
    PieceStripped(pieces[i], c);
  }

  lemma SplitPiece(custom: string, i: nat)
    requires i < |Split(custom, ',')|
    ensures ',' !in Split(custom, ',')[i]
  {
    var pieces := Split(custom, ',');
    assert pieces[i] in pieces;
  }

  lemma PieceStripped(piece: string, c: string)
    requires c == Strip(piece) && ',' !in piece
    ensures Strip(c) == c && ',' !in c
  {
    StripIdempotent(piece);
    StripKeepsOut(piece, ',');
  }

  /** Every piece that is not blank is among the parsed codes, trimmed. */
  lemma ParseCodesComplete(custom: string, p: string)
    requires p in Split(custom, ',') && Strip(p) != ""
    ensures Strip(p) in ParseCodes(custom)
  {
    PieceKept(Split(custom, ','), p);
  }

  lemma PieceKept(pieces: seq<string>, p: string)
    requires p in pieces && Strip(p) != ""
    ensures Strip(p) in Filter(StripEach(pieces), NonBlank())
  {
    var t := StripEach(pieces);
    var i :| 0 <= i < |pieces| && pieces[i] == p;
    assert t[i] == Strip(p);
    FilterMembers(t, NonBlank());
  }

  /** The parsed codes keep the order of the pieces. */
  lemma ParseCodesOrder(custom: string)
    ensures IsSubsequence(ParseCodes(custom), StripEach(Split(custom, ',')))
  {
    FilterIsSubsequence(StripEach(Split(custom, ',')), NonBlank());
  }

  /** A character missing from a string is missing from its `strip()`. */
  lemma StripKeepsOut(s: string, ch: char)
    requires ch !in s
    ensures ch !in Strip(s)
  {
    var r := Strip(s);
    var i := LeadingSpaces(s);
    forall k | 0 <= k < |r| ensures r[k] != ch {
      assert r[k] == s[i + k];
    }
  }

  // ----- The JSON ticker list --------------------------------------------------

  /** `data/us_stock_list.json` as the loader finds it. */
  datatype JsonFile =
    | Missing
    | Unreadable   // not JSON, not an object, or otherwise raising while read
    | Parsed(tickers: Option<seq<string>>)

  /** `load_stock_list_from_json`: `None` when missing or unreadable, else the `tickers` field or `[]`. */
  function LoadStockList(file: JsonFile): (r: Option<seq<string>>)
    ensures r.None? <==> !file.Parsed?
    ensures file.Parsed? && file.tickers.None? ==> r == Some([])
    ensures file.Parsed? && file.tickers.Some? ==> r == file.tickers
  {
    match file
    case Missing => None
    case Unreadable => None
    case Parsed(t) => Some(if t.Some? then t.value else [])
  }

  // ----- The priority chain ------------------------------------------------------

  // Sector blocks of `DEFAULT_US_STOCKS`, in listing order.
  const DefaultTechnology: seq<string> := [
    "AAPL", "MSFT", "GOOGL", "GOOG", "AMZN", "META", "NVDA", "TSLA", "AVGO", "ORCL",
    "ADBE", "CRM", "CSCO", "ACN", "AMD", "IBM", "INTC", "QCOM", "TXN", "INTU",
    "NOW", "PANW", "AMAT", "ADI", "MU", "LRCX", "KLAC", "SNPS", "CDNS", "MCHP"
  ]

  const DefaultHealthcare: seq<string> := [
    "UNH", "JNJ", "LLY", "ABBV", "MRK", "TMO", "ABT", "DHR", "PFE", "BMY",
    "AMGN", "MDT", "GILD", "ISRG", "VRTX", "CVS", "CI", "ELV", "ZTS", "REGN"
  ]

  const DefaultFinancialServices: seq<string> := [
    "BRK.B", "JPM", "V", "MA", "BAC", "WFC", "GS", "MS", "AXP", "BLK",
    "SPGI", "C", "CB", "SCHW", "MMC", "PGR", "AON", "TFC", "USB", "PNC"
  ]

  const DefaultConsumerCyclical: seq<string> := [
    "AMZN", "TSLA", "HD", "MCD", "NKE", "SBUX", "LOW", "TJX", "BKNG", "CMG",
    "F", "GM", "MAR", "ABNB", "HLT", "DHI", "LEN", "NVR", "PHM", "DRI"
  ]

  const DefaultConsumerDefensive: seq<string> := [
    "WMT", "PG", "KO", "PEP", "COST", "MDLZ", "PM", "MO", "CL", "KMB",
    "GIS", "HSY", "K", "SYY", "KHC", "MNST", "CLX", "CHD", "TSN", "CAG"
  ]

  const DefaultEnergy: seq<string> := [
    "XOM", "CVX", "COP", "SLB", "EOG", "MPC", "PSX", "VLO", "OXY", "HES",
    "WMB", "KMI", "HAL", "BKR", "FANG", "DVN", "PXD", "EQT", "CTRA", "MRO"
  ]

  const DefaultIndustrials: seq<string> := [
    "BA", "HON", "UNP", "RTX", "UPS", "CAT", "LMT", "GE", "DE", "GD",
    "NOC", "MMM", "ETN", "ITW", "EMR", "CSX", "NSC", "WM", "FDX", "CARR"
  ]

  const DefaultCommunicationServices: seq<string> := [
    "GOOGL", "META", "NFLX", "DIS", "CMCSA", "T", "VZ", "TMUS", "CHTR", "EA",
    "ATVI", "TTWO", "WBD", "PARA", "OMC", "IPG", "LYV", "NWSA", "FOX", "FOXA"
  ]

  const DefaultRealEstate: seq<string> := [
    "AMT", "PLD", "CCI", "EQIX", "PSA", "SPG", "O", "WELL", "DLR", "AVB",
    "EQR", "VICI", "VTR", "ARE", "INVH", "MAA", "ESS", "UDR", "EXR", "CPT"
  ]

  const DefaultUtilities: seq<string> := [
    "NEE", "DUK", "SO", "D", "AEP", "SRE", "EXC", "XEL", "ED", "PEG",
    "WEC", "ES", "DTE", "FE", "ETR", "AWK", "PPL", "EIX", "AEE", "CMS"
  ]

  const DefaultMaterials: seq<string> := [
    "LIN", "APD", "SHW", "ECL", "DD", "NEM", "FCX", "NUE", "DOW", "CTVA",
    "VMC", "MLM", "ALB", "PPG", "EMN", "IFF", "CE", "FMC", "MOS", "CF"
  ]

  /** `DEFAULT_US_STOCKS`, as listed (repeats included). */
  const DefaultUsStocks: seq<string> :=
    DefaultTechnology + DefaultHealthcare + DefaultFinancialServices + DefaultConsumerCyclical + DefaultConsumerDefensive + DefaultEnergy + DefaultIndustrials + DefaultCommunicationServices + DefaultRealEstate + DefaultUtilities + DefaultMaterials

  /** `get_stock_codes()` for the environment value `env` and the JSON file `file`. */
  function GetStockCodes(env: Option<string>, file: JsonFile): seq<string>
  {
    var custom := Strip(if env.Some? then env.value else "");
    if custom != "" then ParseCodes(custom) else FromFileOrDefault(file)
  }

  /** The second and third links of the chain: a non-empty JSON list, else the default list. */
  function FromFileOrDefault(file: JsonFile): seq<string>
  {
    var fromJson := LoadStockList(file);
    if fromJson.Some? && fromJson.value != [] then fromJson.value
    else DefaultUsStocks
  }

  /** A non-blank environment value decides alone. */
  lemma EnvFirst(env: string, file: JsonFile)
    requires !AllSpace(env)
    ensures GetStockCodes(Some(env), file) == ParseCodes(Strip(env))
  {
    StripEmptyIffBlank(env);
  }

  /** A blank or unset environment value strips to the empty string. */
  lemma BlankCustom(env: Option<string>)
    requires env.None? || AllSpace(env.value)
    ensures Strip(if env.Some? then env.value else "") == ""
  {
    if env.Some? {
      StripEmptyIffBlank(env.value);
    } else {
      StripUnchanged("");
    }
  }

  /** A blank or unset environment value defers to a non-empty JSON list. */
  lemma JsonSecond(env: Option<string>, file: JsonFile)
    requires env.None? || AllSpace(env.value)
    requires file.Parsed? && file.tickers.Some? && file.tickers.value != []
    ensures GetStockCodes(env, file) == file.tickers.value
  {
    BlankCustom(env);
  }

  /** A missing, unreadable or empty JSON list defers to the default list. */
  lemma DefaultLast(env: Option<string>, file: JsonFile)
    requires env.None? || AllSpace(env.value)
    requires !file.Parsed? || file.tickers.None? || file.tickers.value == []
    ensures GetStockCodes(env, file) == DefaultUsStocks
  {
    BlankCustom(env);
    var fromJson := LoadStockList(file);
    assert !(fromJson.Some? && fromJson.value != []);
  }

  /** Codes taken from a non-blank environment value are non-empty and trimmed. */
  lemma EnvCodesNonEmpty(env: string, file: JsonFile)
    requires !AllSpace(env)
    ensures forall c :: c in GetStockCodes(Some(env), file) ==> c != "" && Strip(c) == c
  {
    EnvFirst(env, file);
    forall c | c in GetStockCodes(Some(env), file) ensures c != "" && Strip(c) == c {
      ParseCodesClean(Strip(env), c);
    }
  }

  /** The default list repeats `"AMZN"`: at positions 4 and 70. */
  lemma DefaultRepeatsAmzn()
    ensures |DefaultUsStocks| == 230
    ensures DefaultUsStocks[4] == "AMZN" && DefaultUsStocks[70] == "AMZN"
  {
    assert DefaultTechnology[4] == "AMZN" && DefaultConsumerCyclical[0] == "AMZN";
  }

  /**
   * As written, with an empty database the default universe puts `"AMZN"` on
   * the download list twice, so any non-empty `"AMZN"` download makes the
   * normalised rows repeat a key and the upsert fail.
   */
  lemma DefaultUniverseFailsUpsert(today: string, response: Response)
    requires "AMZN" in response && response["AMZN"] != []
    ensures !DistinctKeys(Normalised(FetchList(DefaultUsStocks, map[], today), response))
  {
    DefaultRepeatsAmzn();
    StripUnchanged("AMZN");
    RepeatedCodeFailsUpsert(DefaultUsStocks, 4, 70, today, response);
  }

  /** A trimmed code listed twice is fetched twice on an empty database. */
  lemma RepeatedCodeFailsUpsert(codes: seq<string>, i: nat, j: nat, today: string, response: Response)
    requires i < j < |codes| && codes[i] == codes[j] && codes[i] != "" && Strip(codes[i]) == codes[i]
    requires codes[i] in response && response[codes[i]] != []
    ensures !DistinctKeys(Normalised(FetchList(codes, map[], today), response))
  {
    var c := codes[i];
    var s := StripEach(codes);
    var toFetch := FetchList(codes, map[], today);
    assert s[i] == c && s[j] == c;
    TwoPositions(s, i, j);
    FetchListOccurrences(codes, map[], today, c);
    assert NeedsFetch(map[], today, c);
    RepeatedElement(toFetch, c);
    var a, b :| 0 <= a < b < |toFetch| && toFetch[a] == c && toFetch[b] == c;
    RepeatedTickerRepeatsKeys(toFetch, response, a, b);
  }

  // ----- Names -------------------------------------------------------------------

  // Sector blocks of `STOCK_NAMES`.
  const TechnologyNames: map<string, string> := map[
    "AAPL" := "Apple Inc", "MSFT" := "Microsoft", "GOOGL" := "Alphabet A", "GOOG" := "Alphabet C",
    "AMZN" := "Amazon", "META" := "Meta Platforms", "NVDA" := "NVIDIA", "TSLA" := "Tesla",
    "AVGO" := "Broadcom", "ORCL" := "Oracle", "ADBE" := "Adobe", "CRM" := "Salesforce",
    "CSCO" := "Cisco", "ACN" := "Accenture", "AMD" := "AMD", "IBM" := "IBM",
    "INTC" := "Intel", "QCOM" := "Qualcomm", "TXN" := "Texas Instruments", "INTU" := "Intuit"
  ]

  const HealthcareNames: map<string, string> := map[
    "UNH" := "UnitedHealth", "JNJ" := "Johnson & Johnson", "LLY" := "Eli Lilly", "ABBV" := "AbbVie",
    "MRK" := "Merck", "TMO" := "Thermo Fisher", "ABT" := "Abbott Labs", "DHR" := "Danaher",
    "PFE" := "Pfizer", "BMY" := "Bristol Myers", "AMGN" := "Amgen", "MDT" := "Medtronic"
  ]

  const FinancialNames: map<string, string> := map[
    "BRK.B" := "Berkshire Hathaway", "JPM" := "JPMorgan Chase", "V" := "Visa", "MA" := "Mastercard",
    "BAC" := "Bank of America", "WFC" := "Wells Fargo", "GS" := "Goldman Sachs", "MS" := "Morgan Stanley",
    "AXP" := "American Express", "BLK" := "BlackRock", "SPGI" := "S&P Global", "C" := "Citigroup"
  ]

  const ConsumerCyclicalNames: map<string, string> := map[
    "HD" := "Home Depot", "MCD" := "McDonald's", "NKE" := "Nike", "SBUX" := "Starbucks",
    "LOW" := "Lowe's", "TJX" := "TJX Companies", "BKNG" := "Booking Holdings", "CMG" := "Chipotle",
    "F" := "Ford", "GM" := "General Motors", "MAR" := "Marriott", "ABNB" := "Airbnb"
  ]

  const ConsumerDefensiveNames: map<string, string> := map[
    "WMT" := "Walmart", "PG" := "Procter & Gamble", "KO" := "Coca-Cola", "PEP" := "PepsiCo",
    "COST" := "Costco", "MDLZ" := "Mondelez", "PM" := "Philip Morris", "MO" := "Altria"
  ]

  const EnergyNames: map<string, string> := map[
    "XOM" := "Exxon Mobil", "CVX" := "Chevron", "COP" := "ConocoPhillips", "SLB" := "Schlumberger",
    "EOG" := "EOG Resources", "MPC" := "Marathon Petroleum", "PSX" := "Phillips 66", "VLO" := "Valero"
  ]

  const IndustrialsNames: map<string, string> := map[
    "BA" := "Boeing", "HON" := "Honeywell", "UNP" := "Union Pacific", "RTX" := "Raytheon",
    "UPS" := "UPS", "CAT" := "Caterpillar", "LMT" := "Lockheed Martin", "GE" := "General Electric",
    "DE" := "Deere & Co", "GD" := "General Dynamics", "NOC" := "Northrop Grumman", "MMM" := "3M"
  ]

  const CommunicationNames: map<string, string> := map[
    "NFLX" := "Netflix", "DIS" := "Disney", "CMCSA" := "Comcast", "T" := "AT&T",
    "VZ" := "Verizon", "TMUS" := "T-Mobile", "CHTR" := "Charter Comm", "EA" := "Electronic Arts"
  ]

  const RealEstateNames: map<string, string> := map[
    "AMT" := "American Tower", "PLD" := "Prologis", "CCI" := "Crown Castle", "EQIX" := "Equinix",
    "PSA" := "Public Storage", "SPG" := "Simon Property", "O" := "Realty Income", "WELL" := "Welltower"
  ]

  const UtilitiesNames: map<string, string> := map[
    "NEE" := "NextEra Energy", "DUK" := "Duke Energy", "SO" := "Southern Co", "D" := "Dominion",
    "AEP" := "American Electric", "SRE" := "Sempra Energy", "EXC" := "Exelon", "XEL" := "Xcel Energy"
  ]

  const MaterialsNames: map<string, string> := map[
    "LIN" := "Linde", "APD" := "Air Products", "SHW" := "Sherwin-Williams", "ECL" := "Ecolab",
    "DD" := "DuPont", "NEM" := "Newmont", "FCX" := "Freeport-McMoRan", "NUE" := "Nucor"
  ]

  /** `STOCK_NAMES` (no code is in two blocks). */
  const StockNames: map<string, string> :=
    HealthcareNames + FinancialNames + ConsumerCyclicalNames + ConsumerDefensiveNames + EnergyNames + IndustrialsNames + CommunicationNames + RealEstateNames + UtilitiesNames + MaterialsNames + TechnologyNames

  /** `get_stock_name`: the display name, or the code itself when it has none. */
  function GetStockName(code: string): (name: string)
    ensures code in StockNames ==> name == StockNames[code]
    ensures code !in StockNames ==> name == code
  {
    if code in StockNames then StockNames[code] else code
  }

  // ----- TOP_K -------------------------------------------------------------------

  predicate IsDigit(ch: char)
  {
    '0' <= ch <= '9'
  }

  predicate AllDigits(s: string)
  {
    forall i :: 0 <= i < |s| ==> IsDigit(s[i])
  }

  function DigitValue(ch: char): nat
    requires IsDigit(ch)
  {
    ch as int - '0' as int
  }

  function DigitChar(d: nat): (ch: char)
    requires d < 10
    ensures IsDigit(ch) && DigitValue(ch) == d
  {
    ('0' as int + d) as char
  }

  /** The value of a string of decimal digits. */
  function DigitsValue(s: string): nat
    requires AllDigits(s)
  {
    if s == [] then 0 else DigitsValue(s[..|s| - 1]) * 10 + DigitValue(s[|s| - 1])
  }

  /** Python's `int(s)` on a base-10 string: `None` where it raises `ValueError`. */
  function ParseInt(s: string): Option<int>
  {
    ParseTrimmed(Strip(s))
  }

  /** `int` on the stripped text: an optional sign and at least one digit. */
  function ParseTrimmed(t: string): Option<int>
  {
    if t == "" then None
    else if t[0] == '-' || t[0] == '+' then
      var d := t[1..];
      if d != "" && AllDigits(d) then
        var v: int := DigitsValue(d);
        Some(if t[0] == '-' then -v else v)
      else None
    else if AllDigits(t) then Some(DigitsValue(t))
    else None
  }

  /** `get_picks_top_k()` for the value of `TOP_K`; `None` where it raises. */
  function PicksTopK(env: Option<string>): Option<int>
  {
    ParseInt(if env.Some? then env.value else "12")
  }

  /** The decimal numeral of `n`, as `str(n)` writes it. */
  function Decimal(n: nat): (s: string)
    ensures s != [] && AllDigits(s)
    decreases n
  {
    if n < 10 then [DigitChar(n)]
    else Decimal(n / 10) + [DigitChar(n % 10)]
  }

  /** `str(n)` for any integer. */
  function IntString(n: int): (s: string)
    ensures s != [] && !IsSpace(s[0]) && !IsSpace(s[|s| - 1])
  {
    var d := Decimal(if n < 0 then -n else n);
    assert IsDigit(d[0]) && IsDigit(d[|d| - 1]);
    if n < 0 then "-" + d else d
  }

  /** Unset `TOP_K` means twelve. */
  lemma TopKDefault()
    ensures PicksTopK(None) == Some(12)
  {
    StripUnchanged("12");
    assert AllDigits("12");
    assert DigitsValue("1") == 1 by {
      assert "1"[..0] == "";
    }
    assert DigitsValue("12") == 12 by {
      assert "12"[..1] == "1";
    }
    assert ParseTrimmed("12") == Some(12);
  }

  /** A decimal numeral reads back as its value. */
  lemma {:induction false} DecimalRoundTrip(n: nat)
    ensures DigitsValue(Decimal(n)) == n
    decreases n
  {
    if n >= 10 {
      var s := Decimal(n);
      DecimalRoundTrip(n / 10);
      assert s[..|s| - 1] == Decimal(n / 10);
    }
  }

  /** `int(str(n)) == n`, with or without surrounding whitespace, for every integer. */
  lemma ParseIntDecimal(n: int, pad: string)
    requires AllSpace(pad)
    ensures ParseInt(pad + IntString(n) + pad) == Some(n)
  {
    StripPadded(pad, IntString(n));
    ParseTrimmedDecimal(n);
  }

  lemma ParseTrimmedDecimal(n: int)
    ensures ParseTrimmed(IntString(n)) == Some(n)
  {
    var m := if n < 0 then -n else n;
    DecimalRoundTrip(m);
    var d := Decimal(m);
    assert IsDigit(d[0]);
    if n < 0 {
      assert IntString(n)[1..] == d;
    }
  }

  /** Whitespace around a string without whitespace at its ends is what `strip()` removes. */
  lemma StripPadded(pad: string, s: string)
    requires AllSpace(pad) && s != [] && !IsSpace(s[0]) && !IsSpace(s[|s| - 1])
    ensures Strip(pad + s + pad) == s
  {
    var t := pad + s + pad;
    LeadingSpacesPad(pad, s + pad);
    assert t == pad + (s + pad);
    assert t[|pad|..] == s + pad;
    TrailingSpacesPad(s, pad);
    assert (s + pad)[..|s|] == s;
  }

  lemma {:induction false} TrailingSpacesPad(rest: string, pad: string)
    requires AllSpace(pad) && rest != [] && !IsSpace(rest[|rest| - 1])
    ensures TrailingSpaces(rest + pad) == |pad|
    decreases |pad|
  {
    var u := rest + pad;
    if pad != [] {
      var shorter := pad[..|pad| - 1];
      assert u[..|u| - 1] == rest + shorter;
      assert u[|u| - 1] == pad[|pad| - 1];
      TrailingSpacesPad(rest, shorter);
    } else {
      assert u == rest;
    }
  }

  lemma {:induction false} LeadingSpacesPad(pad: string, rest: string)
    requires AllSpace(pad) && rest != [] && !IsSpace(rest[0])
    ensures LeadingSpaces(pad + rest) == |pad|
    decreases |pad|
  {
    if pad != [] {
      assert (pad + rest)[1..] == pad[1..] + rest;
      LeadingSpacesPad(pad[1..], rest);
    } else {
      assert pad + rest == rest;
    }
  }
}
