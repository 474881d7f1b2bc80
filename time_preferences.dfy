/**
 * Activity patterns: per-activity, per-hour frequency tables built once from
 * historical records, and the two lookups the scheduling environment uses to
 * shape its reward.
 */
module TimePreferences {

  /** One historical observation: the hour it happened at, the encoded activity code and its display name. */
  datatype Record = Record(hour: int, activity: int, name: string)

  /** The historical table: which of the optional columns are present, and its rows. */
  datatype Dataset = Dataset(hasHour: bool, hasActivityCode: bool, hasActivityName: bool, records: seq<Record>)

  /** The patterns object: the data it was built from and the activity -> 24-hour frequency table. */
  datatype ActivityPatterns = ActivityPatterns(data: Dataset, timePrefs: map<int, seq<real>>)

  /** Number of hour-of-day buckets in a row of the table. */
  const Hours: nat := 24
  /** Score returned for an unknown activity or an hour outside the day. */
  const DefaultScore: real := 0.01
  /** The value the stubbed sequence score always returns. */
  const NeutralSequenceScore: real := 0.5

  // ---------------------------------------------------------------------------
  // Counting the records (the denominator and numerators of the frequencies)
  // ---------------------------------------------------------------------------

  /** Number of records of activity `a`, whatever their hour. */
  function ActivityCount(rs: seq<Record>, a: int): (n: nat)
    ensures n <= |rs|
  {
    if rs == [] then 0
    else (if rs[0].activity == a then 1 else 0) + ActivityCount(rs[1..], a)
  }

  /** Number of records of activity `a` at hour `h`. */
  function HourCount(rs: seq<Record>, a: int, h: int): (n: nat)
    ensures n <= ActivityCount(rs, a)
  {
    if rs == [] then 0
    else (if rs[0].activity == a && rs[0].hour == h then 1 else 0) + HourCount(rs[1..], a, h)
  }

  /** Number of records of activity `a` whose hour lies in `[0, k)`. */
  function CountBelow(rs: seq<Record>, a: int, k: int): (n: nat)
    ensures n <= ActivityCount(rs, a)
  {
    if rs == [] then 0
    else (if rs[0].activity == a && 0 <= rs[0].hour < k then 1 else 0) + CountBelow(rs[1..], a, k)
  }

  /** The set of activity codes that occur in the records. */
  function Activities(rs: seq<Record>): set<int>
  {
    set r | r in rs :: r.activity
  }

  /** Every record of activity `a` carries an hour inside the day. */
  predicate HoursInDay(rs: seq<Record>, a: int)
  {
    forall r :: r in rs && r.activity == a ==> 0 <= r.hour < Hours
  }

  // ---------------------------------------------------------------------------
  // The specification of the table
  // ---------------------------------------------------------------------------

  /**
   * Relative frequency of hour `h` among all records of activity `a`; the
   * denominator counts every record of `a`, including those with an hour
   * outside the day.
   */
  function Frequency(rs: seq<Record>, a: int, h: int): (f: real)
    ensures 0.0 <= f <= 1.0
    ensures HourCount(rs, a, h) == 0 ==> f == 0.0
  {
    if ActivityCount(rs, a) == 0 then 0.0
    else HourCount(rs, a, h) as real / ActivityCount(rs, a) as real
  }

  /** The 24-entry row of the table for activity `a`. */
  function HourFrequencies(rs: seq<Record>, a: int): seq<real>
  {
    seq(Hours, h => Frequency(rs, a, h))
  }

  /** The table the patterns object holds after construction. */
  function PreferenceTable(data: Dataset): map<int, seq<real>>
  {
    if data.hasHour && data.hasActivityCode then
      map a | a in Activities(data.records) :: HourFrequencies(data.records, a)
    else
      map[]
  }

  /** Every row of the table has one entry per hour. */
  predicate WellFormed(p: ActivityPatterns)
  {
    forall a :: a in p.timePrefs ==> |p.timePrefs[a]| == Hours
  }

  /** Every entry of the table is a frequency, in [0, 1]. */
  predicate ValuesInUnit(p: ActivityPatterns)
  {
    forall a, h :: a in p.timePrefs && 0 <= h < |p.timePrefs[a]| ==> 0.0 <= p.timePrefs[a][h] <= 1.0
  }

  // ---------------------------------------------------------------------------
  // Enumerations the construction loops over
  // ---------------------------------------------------------------------------

  /** The distinct activity codes, in order of first appearance. */
  function UniqueActivities(rs: seq<Record>): (u: seq<int>)
    ensures forall a :: a in u <==> a in Activities(rs)
    ensures forall i, j :: 0 <= i < j < |u| ==> u[i] != u[j]
  {
    if rs == [] then []
    else
      var prefix := rs[..|rs| - 1];
      var last := rs[|rs| - 1];
      assert rs == prefix + [last];
      var u := UniqueActivities(prefix);
      if last.activity in u then u else u + [last.activity]
  }

  /** The distinct hours at which activity `a` was observed (the keys of its hour histogram). */
  function DistinctHours(rs: seq<Record>, a: int): (hs: seq<int>)
    ensures forall h :: h in hs <==> HourCount(rs, a, h) > 0
    ensures forall i, j :: 0 <= i < j < |hs| ==> hs[i] != hs[j]
  {
    if rs == [] then []
    else
      var rest := DistinctHours(rs[1..], a);
      if rs[0].activity == a && rs[0].hour !in rest then [rs[0].hour] + rest else rest
  }

  // ---------------------------------------------------------------------------
  // Construction
  // ---------------------------------------------------------------------------

  /**
   * Builds the row of activity `a`: a 24-entry buffer of zeros into which the
   * frequency of every observed hour inside the day is written; observed
   * hours outside the day are skipped.
   */
  method HourDistribution(rs: seq<Record>, a: int) returns (row: seq<real>)
    ensures row == HourFrequencies(rs, a)
  {
    var hourDist := DistinctHours(rs, a);
    var allHours := new real[Hours](_ => 0.0);
    for j := 0 to |hourDist|
      invariant forall h :: 0 <= h < Hours ==> allHours[h] == if h in hourDist[..j] then Frequency(rs, a, h) else 0.0
    {
      var hour := hourDist[j];
      assert hourDist[..j + 1] == hourDist[..j] + [hour];
      if 0 <= hour < Hours {
        allHours[hour] := Frequency(rs, a, hour);
      }
    }
    assert hourDist[..|hourDist|] == hourDist;
    row := allHours[..];
  }

  /**
   * Builds the patterns object: when both the hour and the activity-code
   * columns are present, one row per distinct activity code; otherwise an
   * empty table.
   */
  method InitializePatterns(data: Dataset) returns (p: ActivityPatterns)
    ensures p.data == data
    ensures p.timePrefs == PreferenceTable(data)
    ensures p.timePrefs.Keys == if data.hasHour && data.hasActivityCode then Activities(data.records) else {}
  {
    var prefs: map<int, seq<real>> := map[];
    if data.hasHour && data.hasActivityCode {
      var activities := UniqueActivities(data.records);
      for i := 0 to |activities|
        invariant prefs == map a | a in activities[..i] :: HourFrequencies(data.records, a)
      {
        var activity := activities[i];
        assert activities[..i + 1] == activities[..i] + [activity];
        var row := HourDistribution(data.records, activity);
        prefs := prefs[activity := row];
      }
      assert activities[..|activities|] == activities;
    }
    p := ActivityPatterns(data, prefs);
  }

  // ---------------------------------------------------------------------------
  // Lookups
  // ---------------------------------------------------------------------------

  /**
   * The time-preference score of `activity` at `hour`: the stored frequency
   * when the activity has a row and the hour lies in the day, 0.01 otherwise.
   */
  function TimePreferenceScore(p: ActivityPatterns, activity: int, hour: int): (s: real)
    requires WellFormed(p)
    ensures activity !in p.timePrefs || hour < 0 || hour >= Hours ==> s == DefaultScore
    ensures activity in p.timePrefs && 0 <= hour < Hours ==> s == p.timePrefs[activity][hour]
    ensures ValuesInUnit(p) ==> 0.0 <= s <= 1.0
  {
    if activity in p.timePrefs && 0 <= hour < Hours then p.timePrefs[activity][hour]
    else DefaultScore
  }

  /** How well `second` follows `first`: a stub that is neutral for every pair. */
  function SequenceScore(p: ActivityPatterns, first: int, second: int): (s: real)
    ensures s == NeutralSequenceScore
  {
    NeutralSequenceScore
  }

  // ---------------------------------------------------------------------------
  // Properties of the table
  // ---------------------------------------------------------------------------

  /** The table built from any data has 24-entry rows whose entries are frequencies. */
  lemma BuiltTableIsWellFormed(data: Dataset)
    ensures WellFormed(ActivityPatterns(data, PreferenceTable(data)))
    ensures ValuesInUnit(ActivityPatterns(data, PreferenceTable(data)))
  {
  }

  /** A record witnesses its own activity count. */
  lemma {:induction false} RecordCounted(rs: seq<Record>, r: Record)
    requires r in rs
    ensures ActivityCount(rs, r.activity) > 0
    ensures HourCount(rs, r.activity, r.hour) > 0
  {
    if rs[0] != r {
      RecordCounted(rs[1..], r);
    }
  }

  /** Without a record of `a` at hour `h`, the hour count is zero. */
  lemma {:induction false} UnobservedHourCount(rs: seq<Record>, a: int, h: int)
    requires forall r :: r in rs ==> r.activity != a || r.hour != h
    ensures HourCount(rs, a, h) == 0
  {
    if rs != [] {
      assert rs[0] in rs;
      UnobservedHourCount(rs[1..], a, h);
    }
  }

  /**
   * The score looked up in the table built from the data: the observed
   * frequency for a known activity and an hour of the day, 0.01 otherwise.
   * A known activity at an hour it was never observed scores 0.
   */
  lemma ScoreFromHistory(data: Dataset, activity: int, hour: int)
    ensures
      var p := ActivityPatterns(data, PreferenceTable(data));
      var known := data.hasHour && data.hasActivityCode && activity in Activities(data.records);
      TimePreferenceScore(p, activity, hour) == if known && 0 <= hour < Hours then Frequency(data.records, activity, hour) else DefaultScore
  {
  }

  /** An activity in the table that was never observed at an hour of the day has 0 stored for it. */
  lemma UnobservedHourIsZero(data: Dataset, activity: int, hour: int)
    requires activity in PreferenceTable(data) && 0 <= hour < Hours
    requires forall r :: r in data.records ==> r.activity != activity || r.hour != hour
    ensures PreferenceTable(data)[activity][hour] == 0.0
  {
    UnobservedHourCount(data.records, activity, hour);
  }

  /** Extending the hour window `[0, k)` by one hour adds the count of hour `k`. */
  lemma {:induction false} CountBelowStep(rs: seq<Record>, a: int, k: int)
    requires 0 <= k
    ensures CountBelow(rs, a, k + 1) == CountBelow(rs, a, k) + HourCount(rs, a, k)
  {
    if rs != [] {
      CountBelowStep(rs[1..], a, k);
    }
  }

  /** When every record of `a` has an hour in the day, the day window counts all of them. */
  lemma {:induction false} CountBelowAll(rs: seq<Record>, a: int)
    requires HoursInDay(rs, a)
    ensures CountBelow(rs, a, Hours) == ActivityCount(rs, a)
  {
    if rs != [] {
      assert rs[0] in rs;
      assert HoursInDay(rs[1..], a) by {
        forall r | r in rs[1..] && r.activity == a ensures 0 <= r.hour < Hours {
          assert r in rs;
        }
      }
      CountBelowAll(rs[1..], a);
    }
  }

  /** Sum of a sequence of reals, accumulated from the end. */
  function Sum(s: seq<real>): real
  {
    if s == [] then 0.0 else Sum(s[..|s| - 1]) + s[|s| - 1]
  }

  /** Sum of a sequence of counts, accumulated from the end. */
  function Total(c: seq<nat>): nat
  {
    if c == [] then 0 else Total(c[..|c| - 1]) + c[|c| - 1]
  }

  /**
   * `x` scaled by the factor `n`: the product under a name of its own, so that
   * the solver treats scaled terms as opaque and does not match on the
   * product itself.
   */
  function Scaled(x: real, n: real): real
  {
    x * n
  }

  /** Scaling a two-part sum: if each part scales to a count, the sum scales to their total. */
  lemma ScaledSum(total: real, before: real, f: real, n: real, countBefore: real, countAt: real)
    requires total == before + f
    requires Scaled(before, n) == countBefore && Scaled(f, n) == countAt
    ensures Scaled(total, n) == countBefore + countAt
  {
    assert total * n == before * n + f * n;
  }

  /** If every entry of `s` scaled by `n` is the matching count, the sum of `s` scaled by `n` is the total count. */
  lemma {:induction false} ScaledTotal(s: seq<real>, c: seq<nat>, n: real)
    requires |s| == |c|
    requires forall i :: 0 <= i < |s| ==> Scaled(s[i], n) == c[i] as real
    ensures Scaled(Sum(s), n) == Total(c) as real
  {
    if s != [] {
      var m := |s| - 1;
      ScaledTotal(s[..m], c[..m], n);
      ScaledSum(Sum(s), Sum(s[..m]), s[m], n, Total(c[..m]) as real, c[m] as real);
    }
  }

  /** The hour counts of activity `a` for the hours `[0, k)`. */
  function HourCounts(rs: seq<Record>, a: int, k: nat): seq<nat>
  {
    seq(k, h => HourCount(rs, a, h))
  }

  /** The hour counts for `[0, k)` add up to the records whose hour lies in `[0, k)`. */
  lemma {:induction false} HourCountsTotal(rs: seq<Record>, a: int, k: nat)
    ensures Total(HourCounts(rs, a, k)) == CountBelow(rs, a, k)
  {
    if k == 0 {
      CountBelowEmptyWindow(rs, a);
    } else {
      var j: nat := k - 1;
      HourCountsTotal(rs, a, j);
      CountBelowStep(rs, a, j);
      assert HourCounts(rs, a, k)[..j] == HourCounts(rs, a, j);
    }
  }

  /** The window `[0, 0)` contains no hour. */
  lemma {:induction false} CountBelowEmptyWindow(rs: seq<Record>, a: int)
    ensures CountBelow(rs, a, 0) == 0
  {
    if rs != [] {
      CountBelowEmptyWindow(rs[1..], a);
    }
  }

  /** When the day window counts every record of `a`, every record of `a` has an hour inside the day. */
  lemma {:induction false} FullWindowMeansHoursInDay(rs: seq<Record>, a: int)
    requires CountBelow(rs, a, Hours) == ActivityCount(rs, a)
    ensures HoursInDay(rs, a)
  {
    if rs != [] {
      FullWindowMeansHoursInDay(rs[1..], a);
      forall r | r in rs && r.activity == a ensures 0 <= r.hour < Hours {
        if r != rs[0] {
          assert r in rs[1..];
        }
      }
    }
  }

  /**
   * Each row of the table sums to at most 1, and to exactly 1 if and only if
   * every record of that activity has an hour inside the day (records with
   * other hours count in the denominator but are dropped from the row).
   */
  lemma RowSum(data: Dataset, activity: int)
    requires activity in PreferenceTable(data)
    ensures Sum(PreferenceTable(data)[activity]) <= 1.0
    ensures Sum(PreferenceTable(data)[activity]) == 1.0 <==> HoursInDay(data.records, activity)
  {
    var rs := data.records;
    var row := HourFrequencies(rs, activity);
    assert PreferenceTable(data)[activity] == row;
    var r :| r in rs && r.activity == activity;
    RecordCounted(rs, r);
    RowTotal(rs, activity);
    if HoursInDay(rs, activity) {
      CountBelowAll(rs, activity);
    }
    FractionAtMostOne(Sum(row), ActivityCount(rs, activity) as real, CountBelow(rs, activity, Hours) as real);
    if Sum(row) == 1.0 {
      FullWindowMeansHoursInDay(rs, activity);
    }
  }

  /** A frequency scaled by its activity's record count is its hour count. */
  lemma FrequencyScaled(rs: seq<Record>, a: int, h: int)
    requires ActivityCount(rs, a) > 0
    ensures Scaled(Frequency(rs, a, h), ActivityCount(rs, a) as real) == HourCount(rs, a, h) as real
  {
    var c := HourCount(rs, a, h) as real;
    var n := ActivityCount(rs, a) as real;
    QuotientTimesDivisor(c, n);
    assert Frequency(rs, a, h) == c / n;
  }

  /** Dividing by a non-zero real and multiplying back gives the original value. */
  lemma QuotientTimesDivisor(c: real, n: real)
    requires n != 0.0
    ensures (c / n) * n == c
  {
  }

  /** A whole row scaled by its activity's record count is the number of that activity's records inside the day. */
  lemma RowTotal(rs: seq<Record>, a: int)
    requires ActivityCount(rs, a) > 0
    ensures Scaled(Sum(HourFrequencies(rs, a)), ActivityCount(rs, a) as real) == CountBelow(rs, a, Hours) as real
  {
    var row := HourFrequencies(rs, a);
    var counts := HourCounts(rs, a, Hours);
    var n := ActivityCount(rs, a) as real;
    forall i | 0 <= i < |row| ensures Scaled(row[i], n) == counts[i] as real {
      FrequencyScaled(rs, a, i);
    }
    ScaledTotal(row, counts, n);
    HourCountsTotal(rs, a, Hours);
  }

  /** A quantity that scales by a positive `n` to a count of at most `n` is at most 1, and exactly 1 when the count is `n`. */
  lemma FractionAtMostOne(x: real, n: real, count: real)
    requires n > 0.0 && Scaled(x, n) == count && count <= n
    ensures x <= 1.0
    ensures count == n <==> x == 1.0
  {
  }

  /** Without the hour or the activity-code column the table is empty and every lookup falls back to 0.01. */
  lemma MissingColumnGivesDefault(data: Dataset, activity: int, hour: int)
    requires !data.hasHour || !data.hasActivityCode
    ensures PreferenceTable(data) == map[]
    ensures TimePreferenceScore(ActivityPatterns(data, PreferenceTable(data)), activity, hour) == DefaultScore
  {
  }

  /**
   * One activity (code 7) observed once, at hour 9: it scores 1 at hour 9
   * and 0 at hour 10, and an unseen activity (code 8) scores 0.01.
   */
  lemma SingleObservationScenario()
    ensures
      var data := Dataset(true, true, false, [Record(9, 7, "")]);
      var p := ActivityPatterns(data, PreferenceTable(data));
      && TimePreferenceScore(p, 7, 9) == 1.0
      && TimePreferenceScore(p, 7, 10) == 0.0
      && TimePreferenceScore(p, 8, 9) == DefaultScore
  {
    var rs := [Record(9, 7, "")];
    assert rs[1..] == [];
    assert Activities(rs) == {7};
  }
}
