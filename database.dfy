/**
 * The SQLite price store (`modules/database.py`): one `prices` table with
 * primary key `(code, date)`, modelled as a map from key to row.
 */
module Database {
  import opened PriceData
  import opened Strings

  // ----- Specification of the table operations ------------------------------

  /** Every key names the row stored under it, so no two rows share a key. */
  predicate KeysConsistent(t: map<Key, PriceRow>)
  {
    forall k :: k in t ==> KeyOf(t[k]) == k
  }

  function CodesOf(keys: set<Key>): set<string>
  {
    set k | k in keys :: k.0
  }

  /** `r` holds the MIN and MAX of the dates stored for code `c` among `keys`. */
  predicate IsRangeOf(keys: set<Key>, c: string, r: DateRange)
  {
    && (c, r.min) in keys
    && (c, r.max) in keys
    && forall k :: k in keys && k.0 == c ==> LexLe(r.min, k.1) && LexLe(k.1, r.max)
  }

  /** No two input rows share a `(code, date)` key. */
  predicate DistinctKeys(input: seq<PriceRow>)
  {
    forall i, j :: 0 <= i < j < |input| ==> KeyOf(input[i]) != KeyOf(input[j])
  }

  function KeysOf(input: seq<PriceRow>): set<Key>
  {
    set i | 0 <= i < |input| :: KeyOf(input[i])
  }

  /** The input rows keyed by `(code, date)`, a later row replacing an earlier one. */
  function InputMap(input: seq<PriceRow>): (m: map<Key, PriceRow>)
    ensures m.Keys == KeysOf(input)
    ensures KeysConsistent(m)
  {
    if input == [] then map[]
    else
      var init := input[..|input| - 1];
      var last := input[|input| - 1];
      assert KeysOf(input) == KeysOf(init) + {KeyOf(last)} by {
        assert forall i :: 0 <= i < |init| ==> init[i] == input[i];
      }
      InputMap(init)[KeyOf(last) := last]
  }

  /** The table after `DELETE` of the input keys followed by `INSERT` of the input rows. */
  function Upserted(t: map<Key, PriceRow>, input: seq<PriceRow>): map<Key, PriceRow>
  {
    (t - KeysOf(input)) + InputMap(input)
  }

  /** With distinct keys, every input row is found under its own key. */
  lemma {:induction false} InputMapHolds(input: seq<PriceRow>)
    requires DistinctKeys(input)
    ensures forall i :: 0 <= i < |input| ==> InputMap(input)[KeyOf(input[i])] == input[i]
  {
    if input != [] {
      var init := input[..|input| - 1];
      assert DistinctKeys(init);
      InputMapHolds(init);
      forall i | 0 <= i < |input| ensures InputMap(input)[KeyOf(input[i])] == input[i] {
        if i < |input| - 1 {
          assert init[i] == input[i];
          assert KeyOf(input[i]) != KeyOf(input[|input| - 1]);
        }
      }
    }
  }

  /**
   * After an upsert whose input keys are distinct, each input key holds its
   * input row, every other key is as before, and the key invariant still holds.
   */
  lemma UpsertedSpec(t: map<Key, PriceRow>, input: seq<PriceRow>)
    requires KeysConsistent(t) && DistinctKeys(input)
    ensures forall i :: 0 <= i < |input| ==> Upserted(t, input)[KeyOf(input[i])] == input[i]
    ensures forall k :: k !in KeysOf(input) ==> (k in Upserted(t, input) <==> k in t)
    ensures forall k :: k in t && k !in KeysOf(input) ==> Upserted(t, input)[k] == t[k]
    ensures Upserted(t, input).Keys == t.Keys + KeysOf(input)
    ensures KeysConsistent(Upserted(t, input))
  {
    InputMapHolds(input);
  }

  /** Upserting the same rows twice leaves the table as upserting them once. */
  lemma UpsertIdempotent(t: map<Key, PriceRow>, input: seq<PriceRow>)
    ensures Upserted(Upserted(t, input), input) == Upserted(t, input)
  {
    var once := Upserted(t, input);
    assert (once - KeysOf(input)) == (t - KeysOf(input));
  }

  /** Upserting no rows changes nothing. */
  lemma UpsertEmpty(t: map<Key, PriceRow>)
    ensures Upserted(t, []) == t
  {
    assert KeysOf([]) == {};
  }

  /**
   * A moment in UTC: a calendar date and the whole seconds elapsed since its
   * midnight, any fraction of a second rounded up (00:00:00.5 is 1), so that
   * `secondOfDay == 0` holds exactly for a cutoff at midnight itself.
   */
  datatype Instant = Instant(date: string, secondOfDay: nat)

  /**
   * The stored date (read back as midnight of that day) is at or after
   * `cutoff`: a later day, or the cutoff's own day when the cutoff is midnight.
   */
  predicate OnOrAfter(date: string, cutoff: Instant)
  {
    LexLess(cutoff.date, date) || (date == cutoff.date && cutoff.secondOfDay == 0)
  }

  // ----- The stateful store --------------------------------------------------

  class PriceStore {
    /** Whether the database file exists. */
    var present: bool
    /** The `prices` table. */
    var rows: map<Key, PriceRow>

    ghost predicate Valid()
      reads this
    {
      (!present ==> rows == map[]) && KeysConsistent(rows)
    }

    /** No database file yet. */
    constructor ()
      ensures Valid() && !present && rows == map[]
    {
      present := false;
      rows := map[];
    }

    /** `ensure_db`: creates the file and the table if missing; stored rows stay. */
    method EnsureDb()
      requires Valid()
      modifies this
      ensures Valid() && present && rows == old(rows)
    {
      present := true;
    }

    /**
     * `get_existing_data_range`: for each stored code, the smallest and
     * largest date string among its rows; empty when there is no database.
     */
    method GetExistingDataRange() returns (ranges: map<string, DateRange>)
      requires Valid()
      ensures !present ==> ranges == map[]
      ensures ranges.Keys == CodesOf(rows.Keys)
      ensures forall c :: c in ranges ==> IsRangeOf(rows.Keys, c, ranges[c])
    {
      ranges := map[];
      if !present {
        return;
      }
      var todo := rows.Keys;
      ghost var done: set<Key> := {};
      while todo != {}
        invariant todo + done == rows.Keys && todo !! done
        invariant ranges.Keys == CodesOf(done)
        invariant forall c :: c in ranges ==> IsRangeOf(done, c, ranges[c])
        decreases |todo|
      {
        var k :| k in todo;
        var c := k.0;
        var d := k.1;
        var r: DateRange;
        if c in ranges {
          var lo := if LexLess(d, ranges[c].min) then d else ranges[c].min;
          var hi := if LexLess(ranges[c].max, d) then d else ranges[c].max;
          r := DateRange(lo, hi);
          ExtendRange(done, k, ranges[c], r);
        } else {
          r := DateRange(d, d);
          NewRange(done, k);
        }
        RangesStep(done, k, ranges, r, ranges[c := r]);
        MoveOne(todo, done, k, rows.Keys);
        ranges := ranges[c := r];
        todo := todo - {k};
        done := done + {k};
      }
    }

    /**
     * `upsert_prices`: in one transaction, delete the rows whose keys occur
     * in the input, then insert the input rows. An insert that meets a key
     * already present (two input rows with one key) violates the primary key
     * and rolls the whole transaction back. Empty input returns at once.
     */
    method UpsertPrices(input: seq<PriceRow>) returns (ok: bool)
      requires Valid()
      requires input != [] ==> present
      modifies this
      ensures Valid() && present == old(present)
      ensures ok <==> DistinctKeys(input)
      ensures rows == if ok then Upserted(old(rows), input) else old(rows)
    {
      if input == [] {
        UpsertEmpty(rows);
        return true;
      }
      var staged := rows - KeysOf(input);
      var i := 0;
      while i < |input|
        invariant 0 <= i <= |input|
        invariant staged == (rows - KeysOf(input)) + InputMap(input[..i])
        invariant DistinctKeys(input[..i])
        invariant rows == old(rows) && present == old(present)
      {
        var k := KeyOf(input[i]);
        InsertStep(rows, input, i, staged);
        if k in staged {
          PrefixNotDistinct(input, i + 1);
          return false;
        }
        staged := staged[k := input[i]];
        i := i + 1;
      }
      assert input[..i] == input;
      rows := staged;
      UpsertedSpec(old(rows), input);
      return true;
    }

    /**
     * `load_recent_prices`: the stored rows whose date is at or after the
     * cutoff instant `now - days`; an empty table when there is no database.
     */
    function LoadRecentPrices(cutoff: Instant): (r: map<Key, PriceRow>)
      reads this
      ensures forall k :: k in r <==> present && k in rows && OnOrAfter(k.1, cutoff)
      ensures forall k :: k in r ==> r[k] == rows[k]
    {
      if !present then map[]
      else map k | k in rows && OnOrAfter(k.1, cutoff) :: rows[k]
    }
  }

  // ----- Proof steps of GetExistingDataRange ----------------------------------

  /** Merging one more date into a range keeps it the MIN/MAX of the dates seen. */
  lemma ExtendRange(done: set<Key>, k: Key, r: DateRange, r': DateRange)
    requires IsRangeOf(done, k.0, r)
    requires r'.min == (if LexLess(k.1, r.min) then k.1 else r.min)
    requires r'.max == (if LexLess(r.max, k.1) then k.1 else r.max)
    ensures IsRangeOf(done + {k}, k.0, r')
  {
    var c := k.0;
    var d := k.1;
    if !LexLess(d, r.min) { NotLexLess(d, r.min); }
    if !LexLess(r.max, d) { NotLexLess(r.max, d); }
    forall k2 | k2 in done + {k} && k2.0 == c
      ensures LexLe(r'.min, k2.1) && LexLe(k2.1, r'.max)
    {
      if k2 != k {
        if LexLess(d, r.min) { LexLeTransitive(d, r.min, k2.1); }
        if LexLess(r.max, d) { LexLeTransitive(k2.1, r.max, d); }
      }
    }
  }

  lemma NewRange(done: set<Key>, k: Key)
    requires k.0 !in CodesOf(done)
    ensures IsRangeOf(done + {k}, k.0, DateRange(k.1, k.1))
  {
  }

  lemma OtherCode(done: set<Key>, k: Key, c: string, r: DateRange)
    requires c != k.0 && IsRangeOf(done, c, r)
    ensures IsRangeOf(done + {k}, c, r)
  {
  }

  /** Moving one key from the unvisited to the visited part keeps the two a partition. */
  lemma MoveOne(todo: set<Key>, done: set<Key>, k: Key, all: set<Key>)
    requires todo + done == all && todo !! done && k in todo
    ensures (todo - {k}) + (done + {k}) == all && (todo - {k}) !! (done + {k})
  {
  }

  lemma RangesStep(done: set<Key>, k: Key, ranges: map<string, DateRange>, r: DateRange, m: map<string, DateRange>)
    requires ranges.Keys == CodesOf(done)
    requires forall c :: c in ranges ==> IsRangeOf(done, c, ranges[c])
    requires IsRangeOf(done + {k}, k.0, r)
    requires m == ranges[k.0 := r]
    ensures m.Keys == CodesOf(done + {k})
    ensures forall c :: c in m ==> IsRangeOf(done + {k}, c, m[c])
  {
    assert CodesOf(done + {k}) == CodesOf(done) + {k.0};
    forall c | c in m ensures IsRangeOf(done + {k}, c, m[c]) {
      if c != k.0 {
        OtherCode(done, k, c, ranges[c]);
      }
    }
  }

  // ----- Proof steps of UpsertPrices ------------------------------------------

  /** One row of the INSERT: it collides exactly when an earlier input row had its key. */
  lemma InsertStep(rows: map<Key, PriceRow>, input: seq<PriceRow>, i: nat, staged: map<Key, PriceRow>)
    requires i < |input|
    requires staged == (rows - KeysOf(input)) + InputMap(input[..i])
    requires DistinctKeys(input[..i])
    ensures KeyOf(input[i]) in staged <==> !DistinctKeys(input[..i + 1])
    ensures KeyOf(input[i]) !in staged ==>
      && staged[KeyOf(input[i]) := input[i]] == (rows - KeysOf(input)) + InputMap(input[..i + 1])
      && DistinctKeys(input[..i + 1])
  {
    var k := KeyOf(input[i]);
    var kept := rows - KeysOf(input);
    assert k in KeysOf(input);
    assert k !in kept;
    PrefixExtend(input, i);
    EarlierKey(input, i);
    UpdateUnion(kept, InputMap(input[..i]), k, input[i]);
  }

  lemma UpdateUnion<K, V>(a: map<K, V>, b: map<K, V>, k: K, v: V)
    ensures (a + b)[k := v] == a + b[k := v]
  {
  }

  /** The map of one more input row is the previous map updated at that row's key. */
  lemma PrefixExtend(input: seq<PriceRow>, i: nat)
    requires i < |input|
    ensures InputMap(input[..i + 1]) == InputMap(input[..i])[KeyOf(input[i]) := input[i]]
  {
    var pre := input[..i + 1];
    assert pre[..i] == input[..i];
  }

  /** Row `i` repeats a key of the rows before it exactly when that prefix loses distinctness. */
  lemma EarlierKey(input: seq<PriceRow>, i: nat)
    requires i < |input| && DistinctKeys(input[..i])
    ensures KeyOf(input[i]) in KeysOf(input[..i]) <==> !DistinctKeys(input[..i + 1])
  {
    var k := KeyOf(input[i]);
    var pre := input[..i + 1];
    if k in KeysOf(input[..i]) {
      var j :| 0 <= j < i && KeyOf(input[..i][j]) == k;
      assert KeyOf(pre[j]) == KeyOf(pre[i]);
    } else {
      forall a, b | 0 <= a < b < |pre| ensures KeyOf(pre[a]) != KeyOf(pre[b]) {
        if b == i {
          assert KeyOf(input[..i][a]) in KeysOf(input[..i]);
        } else {
          assert pre[a] == input[..i][a] && pre[b] == input[..i][b];
        }
      }
    }
  }

  lemma PrefixNotDistinct(input: seq<PriceRow>, n: nat)
    requires n <= |input| && !DistinctKeys(input[..n])
    ensures !DistinctKeys(input)
  {
    var i, j :| 0 <= i < j < n && KeyOf(input[..n][i]) == KeyOf(input[..n][j]);
    assert KeyOf(input[i]) == KeyOf(input[j]);
  }
}
