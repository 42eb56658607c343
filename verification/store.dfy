/**
 The append-if-new rule applied to each kept series after a successful
 fetch: the fresh reading is pushed, and the series file rewritten, only
 when its instant differs from that of the series' FIRST element.
 */
module Store {

  import opened Wrappers
  import opened Readings

  /** The series after the decision, and whether the series file would be rewritten. */
  datatype Appended = Appended(series: seq<Reading>, wrote: bool)

  /**
   The test `series[0]?.timestamp.getTime() !== r.timestamp.getTime()`: on an
   empty series the left side is `undefined`, which differs from every number
   and from NaN.
   */
  predicate IsNew(series: seq<Reading>, r: Reading)
  {
    |series| == 0 || !SameInstant(series[0].timestamp, r.timestamp)
  }

  /** The rule as the program applies it: push and rewrite together, or neither. */
  function AppendIfNew(series: seq<Reading>, r: Reading): (a: Appended)
    ensures a.wrote <==>
      || |series| == 0
      || series[0].timestamp.None?
      || r.timestamp != series[0].timestamp
    ensures a.wrote <==> a.series != series
    ensures |a.series| == |series| + (if a.wrote then 1 else 0)
    ensures a.series[..|series|] == series
    ensures a.wrote ==> a.series[|series|] == r
  {
    if IsNew(series, r) then Appended(series + [r], true) else Appended(series, false)
  }

  /** An empty series always receives the reading, and the file is written. */
  lemma EmptyAlwaysAppends(r: Reading)
    ensures AppendIfNew([], r) == Appended([r], true)
  {
  }

  /** A reading at the first element's valid instant changes nothing and writes nothing. */
  lemma SameAsFirstIsDropped(series: seq<Reading>, r: Reading)
    requires |series| > 0
    requires series[0].timestamp.Some?
    requires r.timestamp == series[0].timestamp
    ensures AppendIfNew(series, r) == Appended(series, false)
  {
  }

  /** The decision reads the first element and the candidate and nothing else. */
  lemma DecisionOnlyReadsFirst(s1: seq<Reading>, s2: seq<Reading>, r: Reading)
    requires |s1| == 0 <==> |s2| == 0
    requires |s1| > 0 ==> s1[0].timestamp == s2[0].timestamp
    ensures AppendIfNew(s1, r).wrote == AppendIfNew(s2, r).wrote
  {
  }

  /**
   What the rule does keep: no element after the first shares the first
   element's (valid) instant.
   */
  predicate FirstUnique(series: seq<Reading>)
  {
    forall i :: 0 < i < |series| ==> !SameInstant(series[0].timestamp, series[i].timestamp)
  }

  lemma AppendKeepsFirstUnique(series: seq<Reading>, r: Reading)
    requires FirstUnique(series)
    ensures FirstUnique(AppendIfNew(series, r).series)
  {
  }

  /** No two neighbouring elements share a valid instant. */
  predicate NoConsecutiveDuplicates(series: seq<Reading>)
  {
    forall i :: 0 < i < |series| ==> !SameInstant(series[i - 1].timestamp, series[i].timestamp)
  }

  /**
   The rule as written does not deduplicate neighbours: whenever the second
   of two readings has a valid instant different from the first's, the series
   of the two accepts the second reading again.
   */
  lemma AsWrittenAppendsConsecutiveDuplicate(a: Reading, b: Reading)
    requires b.timestamp.Some? && a.timestamp != b.timestamp
    ensures NoConsecutiveDuplicates([a, b])
    ensures AppendIfNew([a, b], b) == Appended([a, b, b], true)
    ensures !NoConsecutiveDuplicates([a, b, b])
  {
    assert [a, b] + [b] == [a, b, b];
    assert SameInstant([a, b, b][1].timestamp, [a, b, b][2].timestamp);
  }

  /**
   The rule as written is not idempotent on a non-empty series: re-offering
   the reading it has just appended appends it again and writes again.
   */
  lemma AsWrittenNotIdempotent(series: seq<Reading>, r: Reading)
    requires |series| > 0 && IsNew(series, r)
    ensures
      var once := AppendIfNew(series, r);
      var twice := AppendIfNew(once.series, r);
      && once.wrote && twice.wrote
      && twice.series == series + [r, r]
  {
  }

  /** On an empty series, by contrast, a valid-dated reading is taken once only. */
  lemma AsWrittenIdempotentFromEmpty(r: Reading)
    requires r.timestamp.Some?
    ensures AppendIfNew(AppendIfNew([], r).series, r) == Appended([r], false)
  {
  }

  /** The rule as evidently intended: compare with the LAST element, the most recent reading. */
  function AppendIfNewLast(series: seq<Reading>, r: Reading): (a: Appended)
    ensures a.wrote <==>
      || |series| == 0
      || series[|series| - 1].timestamp.None?
      || r.timestamp != series[|series| - 1].timestamp
    ensures a.wrote <==> a.series != series
    ensures |a.series| == |series| + (if a.wrote then 1 else 0)
    ensures a.series[..|series|] == series
    ensures a.wrote ==> a.series[|series|] == r
  {
    if |series| == 0 || !SameInstant(series[|series| - 1].timestamp, r.timestamp) then
      Appended(series + [r], true)
    else
      Appended(series, false)
  }

  /** The corrected rule keeps neighbouring readings apart. */
  lemma AppendLastKeepsNoConsecutiveDuplicates(series: seq<Reading>, r: Reading)
    requires NoConsecutiveDuplicates(series)
    ensures NoConsecutiveDuplicates(AppendIfNewLast(series, r).series)
  {
  }

  /**
   The corrected rule is idempotent for a reading with a valid date: offering
   it a second time leaves the series alone and writes nothing.
   */
  lemma AppendLastIdempotent(series: seq<Reading>, r: Reading)
    requires r.timestamp.Some?
    ensures
      var once := AppendIfNewLast(series, r);
      AppendIfNewLast(once.series, r) == Appended(once.series, false)
  {
  }
}
