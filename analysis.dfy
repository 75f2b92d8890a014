/** The reporting stage (analysis.py): read-only queries over a transformed
    table (largest trip, heaviest and lightest period, monthly totals), the
    labels the report prints, and the loop over the two fleets. */
module Analysis {
  import opened Store
  import opened Seqs
  import opened Sorting
  import opened Fleets

  // ---------------------------------------------------------------------
  // Ordering of nullable values
  // ---------------------------------------------------------------------

  /** `a` sorts no later than `b` under `ORDER BY ... DESC` with the store's
      default NULLS LAST. */
  predicate AtLeast(a: Option<real>, b: Option<real>)
  {
    b.None? || (a.Some? && a.value >= b.value)
  }

  // ---------------------------------------------------------------------
  // largest_trip
  // ---------------------------------------------------------------------

  datatype TripExtreme = TripExtreme(co2Kgs: Option<real>, distance: real)

  /** The first row whose CO2 sorts first under DESC NULLS LAST. */
  function LargestIndex(rows: seq<DerivedTrip>): (k: nat)
    requires |rows| > 0
    ensures k < |rows|
    ensures forall j :: 0 <= j < |rows| ==> AtLeast(rows[k].co2Kgs, rows[j].co2Kgs)
    ensures forall j :: 0 <= j < k ==> !AtLeast(rows[j].co2Kgs, rows[k].co2Kgs)
  {
    if |rows| == 1 then 0
    else
      var init := rows[..|rows| - 1];
      var k := LargestIndex(init);
      assert forall j :: 0 <= j < |init| ==> init[j] == rows[j];
      if AtLeast(rows[k].co2Kgs, rows[|rows| - 1].co2Kgs) then k else |rows| - 1
  }

  /** `SELECT trip_co2_kgs, trip_distance ... ORDER BY trip_co2_kgs DESC LIMIT 1`,
      None on an empty table. */
  function LargestTrip(rows: seq<DerivedTrip>): (r: Option<TripExtreme>)
    ensures r.None? <==> |rows| == 0
    ensures r.Some? ==>
      && (exists k :: 0 <= k < |rows| && r.value == TripExtreme(rows[k].co2Kgs, rows[k].trip.distance))
      && (forall j :: 0 <= j < |rows| ==> AtLeast(r.value.co2Kgs, rows[j].co2Kgs))
  {
    if |rows| == 0 then None
    else
      var k := LargestIndex(rows);
      Some(TripExtreme(rows[k].co2Kgs, rows[k].trip.distance))
  }

  /** When some row has a CO2 value, the largest trip has one, and it is at
      least every row's value. */
  lemma LargestTripIsMaximum(rows: seq<DerivedTrip>, j: nat)
    requires j < |rows| && rows[j].co2Kgs.Some?
    ensures LargestTrip(rows).Some? && LargestTrip(rows).value.co2Kgs.Some?
    ensures LargestTrip(rows).value.co2Kgs.value >= rows[j].co2Kgs.value
  {
  }

  /** Example: of two trips emitting 4 kg over 10 miles and
      2 kg over 5 miles, the largest is the first. */
  lemma LargestTripExample(d1: DerivedTrip, d2: DerivedTrip)
    requires d1.co2Kgs == Some(4.0) && d1.trip.distance == 10.0
    requires d2.co2Kgs == Some(2.0) && d2.trip.distance == 5.0
    ensures LargestTrip([d1, d2]) == Some(TripExtreme(Some(4.0), 10.0))
  {
    assert [d1, d2][..1] == [d1];
  }

  /** The table has rows and none of them has a CO2 value. */
  predicate AllCo2Null(rows: seq<DerivedTrip>)
  {
    |rows| > 0 && forall j :: 0 <= j < |rows| ==> rows[j].co2Kgs.None?
  }

  /** The largest trip is found but has no CO2 value exactly when every row's
      CO2 is NULL; printing it with a numeric format then raises. */
  lemma LargestTripNull(rows: seq<DerivedTrip>)
    ensures (LargestTrip(rows).Some? && LargestTrip(rows).value.co2Kgs.None?) <==> AllCo2Null(rows)
  {
    if |rows| > 0 && !AllCo2Null(rows) {
      var j :| 0 <= j < |rows| && rows[j].co2Kgs.Some?;
      LargestTripIsMaximum(rows, j);
    }
  }

  // ---------------------------------------------------------------------
  // Grouping
  // ---------------------------------------------------------------------

  /** The temporal column a report groups by. */
  datatype Period = HourOfDay | DayOfWeek | WeekOfYear | MonthOfYear

  function PeriodOf(d: DerivedTrip, p: Period): int
  {
    match p
    case HourOfDay => d.hourOfDay
    case DayOfWeek => d.dayOfWeek
    case WeekOfYear => d.weekOfYear
    case MonthOfYear => d.monthOfYear
  }

  /** The rows of one period value. */
  function InPeriod(rows: seq<DerivedTrip>, p: Period, key: int): seq<DerivedTrip>
  {
    Filter(rows, (d: DerivedTrip) => PeriodOf(d, p) == key)
  }

  /** The sum of the non-NULL CO2 values. */
  function SumCo2(rows: seq<DerivedTrip>): real
  {
    if |rows| == 0 then 0.0
    else SumCo2(rows[..|rows| - 1]) + Contribution(rows[|rows| - 1].co2Kgs)
  }

  /** The number of non-NULL CO2 values. */
  function NonNullCo2(rows: seq<DerivedTrip>): nat
  {
    if |rows| == 0 then 0
    else NonNullCo2(rows[..|rows| - 1]) + NonNullCount(rows[|rows| - 1].co2Kgs)
  }

  function Contribution(v: Option<real>): real
  {
    if v.Some? then v.value else 0.0
  }

  function NonNullCount(v: Option<real>): nat
  {
    if v.Some? then 1 else 0
  }

  /** SQL `SUM(trip_co2_kgs)`: NULLs are skipped, and the sum of no values is NULL. */
  function SqlSum(rows: seq<DerivedTrip>): Option<real>
  {
    if NonNullCo2(rows) == 0 then None else Some(SumCo2(rows))
  }

  /** SQL `AVG(trip_co2_kgs)`: the mean of the non-NULL values, NULL if none. */
  function SqlAvg(rows: seq<DerivedTrip>): Option<real>
  {
    if NonNullCo2(rows) == 0 then None else Some(SumCo2(rows) / NonNullCo2(rows) as real)
  }

  /** When no value is NULL, every row counts towards the mean. */
  lemma {:induction false} NonNullWhenAllPresent(rows: seq<DerivedTrip>)
    requires forall i :: 0 <= i < |rows| ==> rows[i].co2Kgs.Some?
    ensures NonNullCo2(rows) == |rows|
  {
    if |rows| > 0 {
      NonNullWhenAllPresent(rows[..|rows| - 1]);
    }
  }

  /** An accumulator of GROUP BY: the group's key, its row count, the sum
      and the number of its non-NULL CO2 values. */
  datatype Group = Group(key: int, n: nat, total: real, nonNull: nat)

  /** The position of the group with `key`, or |groups| when there is none. */
  function IndexOfKey(groups: seq<Group>, key: int): (i: nat)
    ensures i <= |groups|
    ensures i < |groups| ==> groups[i].key == key
    ensures forall j :: 0 <= j < i ==> groups[j].key != key
  {
    if |groups| == 0 then 0
    else if groups[0].key == key then 0
    else 1 + IndexOfKey(groups[1..], key)
  }

  /** The group `AddRow` writes: a new one, or the old one with the row added. */
  function Added(groups: seq<Group>, i: nat, key: int, v: Option<real>): Group
  {
    if i < |groups| then Group(key, groups[i].n + 1, groups[i].total + Contribution(v), groups[i].nonNull + NonNullCount(v))
    else Group(key, 1, Contribution(v), NonNullCount(v))
  }

  /** One more row, with period `key` and CO2 `v`, added to the groups. */
  function AddRow(groups: seq<Group>, key: int, v: Option<real>): (r: seq<Group>)
    ensures var i := IndexOfKey(groups, key);
      && |r| == (if i == |groups| then |groups| + 1 else |groups|)
      && r[i] == Added(groups, i, key, v)
      && (forall j :: 0 <= j < |groups| && j != i ==> r[j] == groups[j])
  {
    var i := IndexOfKey(groups, key);
    if i == |groups| then groups + [Added(groups, i, key, v)]
    else groups[i := Added(groups, i, key, v)]
  }

  /** `GROUP BY <period>`: one group per distinct period value, in order of
      first appearance. */
  function GroupBy(rows: seq<DerivedTrip>, p: Period): seq<Group>
  {
    if |rows| == 0 then []
    else
      var last := rows[|rows| - 1];
      AddRow(GroupBy(rows[..|rows| - 1], p), PeriodOf(last, p), last.co2Kgs)
  }

  function SumN(groups: seq<Group>): nat
  {
    if |groups| == 0 then 0 else SumN(groups[..|groups| - 1]) + groups[|groups| - 1].n
  }

  lemma {:induction false} SumNUpdate(groups: seq<Group>, i: nat, g: Group)
    requires i < |groups|
    ensures SumN(groups[i := g]) + groups[i].n == SumN(groups) + g.n
  {
    var n := |groups|;
    var u := groups[i := g];
    assert u[..n - 1] == if i == n - 1 then groups[..n - 1] else groups[..n - 1][i := g];
    if i < n - 1 {
      SumNUpdate(groups[..n - 1], i, g);
    }
  }

  lemma AddRowSum(groups: seq<Group>, key: int, v: Option<real>)
    ensures SumN(AddRow(groups, key, v)) == SumN(groups) + 1
  {
    var i := IndexOfKey(groups, key);
    var r := AddRow(groups, key, v);
    if i < |groups| {
      assert r == groups[i := Added(groups, i, key, v)];
      SumNUpdate(groups, i, Added(groups, i, key, v));
    } else {
      assert r[..|r| - 1] == groups;
    }
  }

  ghost predicate KeysDistinct(groups: seq<Group>)
  {
    forall i, j :: 0 <= i < j < |groups| ==> groups[i].key != groups[j].key
  }

  lemma AddRowKeysDistinct(groups: seq<Group>, key: int, v: Option<real>)
    requires KeysDistinct(groups)
    ensures KeysDistinct(AddRow(groups, key, v))
  {
  }

  /** Adding a row to the end extends its own period's rows by one and leaves
      the other periods' rows alone. */
  lemma InPeriodSnoc(rows: seq<DerivedTrip>, p: Period, key: int)
    requires |rows| > 0
    ensures var init := rows[..|rows| - 1]; var last := rows[|rows| - 1];
      InPeriod(rows, p, key) == if PeriodOf(last, p) == key then InPeriod(init, p, key) + [last]
                                 else InPeriod(init, p, key)
  {
  }

  lemma SumsSnoc(rows: seq<DerivedTrip>, last: DerivedTrip)
    ensures SumCo2(rows + [last]) == SumCo2(rows) + Contribution(last.co2Kgs)
    ensures NonNullCo2(rows + [last]) == NonNullCo2(rows) + NonNullCount(last.co2Kgs)
  {
    assert (rows + [last])[..|rows|] == rows;
  }

  /** A group's fields against the rows of its period. */
  ghost predicate GroupMatches(rows: seq<DerivedTrip>, p: Period, g: Group)
  {
    var members := InPeriod(rows, p, g.key);
    g.n == |members| && g.n > 0 && g.total == SumCo2(members) && g.nonNull == NonNullCo2(members)
  }

  /** A period without groups has no rows. */
  lemma {:induction false} NoGroupNoRows(rows: seq<DerivedTrip>, p: Period, key: int)
    requires IndexOfKey(GroupBy(rows, p), key) == |GroupBy(rows, p)|
    ensures InPeriod(rows, p, key) == []
  {
    if |rows| > 0 {
      var init := rows[..|rows| - 1];
      var last := rows[|rows| - 1];
      var g0 := GroupBy(init, p);
      var g := GroupBy(rows, p);
      assert g == AddRow(g0, PeriodOf(last, p), last.co2Kgs);
      InPeriodSnoc(rows, p, key);
      var gi := IndexOfKey(g0, PeriodOf(last, p));
      assert g[gi].key == PeriodOf(last, p);
      assert PeriodOf(last, p) != key;
      forall j | 0 <= j < |g0|
        ensures g0[j].key != key
      {
        if j != gi {
          assert g[j] == g0[j];
        }
      }
      NoGroupNoRows(init, p, key);
    }
  }

  /** One induction step of GroupByMatches: the group the last row falls in. */
  lemma GroupMatchesStepHit(rows: seq<DerivedTrip>, p: Period)
    requires |rows| > 0
    requires var init := rows[..|rows| - 1]; var g0 := GroupBy(init, p);
      forall i :: 0 <= i < |g0| ==> GroupMatches(init, p, g0[i])
    ensures var init := rows[..|rows| - 1]; var last := rows[|rows| - 1];
      var k := IndexOfKey(GroupBy(init, p), PeriodOf(last, p));
      GroupMatches(rows, p, GroupBy(rows, p)[k])
  {
    var init := rows[..|rows| - 1];
    var last := rows[|rows| - 1];
    var key := PeriodOf(last, p);
    var g0 := GroupBy(init, p);
    var k := IndexOfKey(g0, key);
    assert GroupBy(rows, p) == AddRow(g0, key, last.co2Kgs);
    InPeriodSnoc(rows, p, key);
    assert InPeriod(rows, p, key) == InPeriod(init, p, key) + [last];
    if k == |g0| {
      NoGroupNoRows(init, p, key);
      GroupStepNew(rows, p, key, last);
    } else {
      assert GroupMatches(init, p, g0[k]);
      GroupStepOld(rows, init, p, g0[k], last);
    }
  }

  /** A row whose period had no group starts a group of one. */
  lemma GroupStepNew(rows: seq<DerivedTrip>, p: Period, key: int, last: DerivedTrip)
    requires InPeriod(rows, p, key) == [] + [last]
    ensures GroupMatches(rows, p, Group(key, 1, Contribution(last.co2Kgs), NonNullCount(last.co2Kgs)))
  {
    SumsSnoc([], last);
    assert [] + [last] == [last];
  }

  /** A row whose period had a group adds itself to that group. */
  lemma GroupStepOld(rows: seq<DerivedTrip>, init: seq<DerivedTrip>, p: Period, g: Group, last: DerivedTrip)
    requires GroupMatches(init, p, g)
    requires InPeriod(rows, p, g.key) == InPeriod(init, p, g.key) + [last]
    ensures GroupMatches(rows, p, Group(g.key, g.n + 1, g.total + Contribution(last.co2Kgs), g.nonNull + NonNullCount(last.co2Kgs)))
  {
    SumsSnoc(InPeriod(init, p, g.key), last);
  }

  /** Each group's fields are those of its period's rows. */
  lemma {:induction false} GroupByMatches(rows: seq<DerivedTrip>, p: Period)
    ensures forall i :: 0 <= i < |GroupBy(rows, p)| ==> GroupMatches(rows, p, GroupBy(rows, p)[i])
  {
    if |rows| > 0 {
      var init := rows[..|rows| - 1];
      var last := rows[|rows| - 1];
      var key := PeriodOf(last, p);
      var g0 := GroupBy(init, p);
      var g := GroupBy(rows, p);
      GroupByMatches(init, p);
      GroupByKeysDistinct(init, p);
      GroupMatchesStepHit(rows, p);
      var k := IndexOfKey(g0, key);
      assert g == AddRow(g0, key, last.co2Kgs);
      forall i | 0 <= i < |g| && i != k
        ensures GroupMatches(rows, p, g[i])
      {
        assert g[i] == g0[i];
        assert g0[i].key != key;
        InPeriodSnoc(rows, p, g[i].key);
        assert GroupMatches(init, p, g0[i]);
      }
    }
  }

  /** No two groups share a key. */
  lemma {:induction false} GroupByKeysDistinct(rows: seq<DerivedTrip>, p: Period)
    ensures KeysDistinct(GroupBy(rows, p))
  {
    if |rows| > 0 {
      var init := rows[..|rows| - 1];
      var last := rows[|rows| - 1];
      GroupByKeysDistinct(init, p);
      assert GroupBy(rows, p) == AddRow(GroupBy(init, p), PeriodOf(last, p), last.co2Kgs);
      AddRowKeysDistinct(GroupBy(init, p), PeriodOf(last, p), last.co2Kgs);
    }
  }

  /** The group counts add up to the row count. */
  lemma {:induction false} GroupBySum(rows: seq<DerivedTrip>, p: Period)
    ensures SumN(GroupBy(rows, p)) == |rows|
  {
    if |rows| > 0 {
      var init := rows[..|rows| - 1];
      var last := rows[|rows| - 1];
      GroupBySum(init, p);
      assert GroupBy(rows, p) == AddRow(GroupBy(init, p), PeriodOf(last, p), last.co2Kgs);
      AddRowSum(GroupBy(init, p), PeriodOf(last, p), last.co2Kgs);
    }
  }

  /** Every row's period has a group. */
  lemma {:induction false} GroupByCovers(rows: seq<DerivedTrip>, p: Period)
    ensures forall j :: 0 <= j < |rows| ==> IndexOfKey(GroupBy(rows, p), PeriodOf(rows[j], p)) < |GroupBy(rows, p)|
  {
    if |rows| > 0 {
      var init := rows[..|rows| - 1];
      var last := rows[|rows| - 1];
      var key := PeriodOf(last, p);
      var g0 := GroupBy(init, p);
      var g := GroupBy(rows, p);
      GroupByCovers(init, p);
      assert g == AddRow(g0, key, last.co2Kgs);
      var k := IndexOfKey(g0, key);
      assert g[k].key == key;
      forall j | 0 <= j < |rows|
        ensures IndexOfKey(g, PeriodOf(rows[j], p)) < |g|
      {
        if j < |rows| - 1 {
          assert rows[j] == init[j];
          var a := IndexOfKey(g0, PeriodOf(init[j], p));
          assert g[a].key == g0[a].key;
        }
      }
    }
  }

  /** Keys are distinct, every row's period has a group, and the counts add
      up to the row count. */
  lemma GroupByShape(rows: seq<DerivedTrip>, p: Period)
    ensures KeysDistinct(GroupBy(rows, p))
    ensures forall j :: 0 <= j < |rows| ==> IndexOfKey(GroupBy(rows, p), PeriodOf(rows[j], p)) < |GroupBy(rows, p)|
    ensures SumN(GroupBy(rows, p)) == |rows|
  {
    GroupByKeysDistinct(rows, p);
    GroupByCovers(rows, p);
    GroupBySum(rows, p);
  }

  /** A group's rows all come from the table, so each group key is the period
      of some row. */
  lemma GroupKeyOccurs(rows: seq<DerivedTrip>, p: Period, i: nat)
    requires i < |GroupBy(rows, p)|
    ensures exists j :: 0 <= j < |rows| && PeriodOf(rows[j], p) == GroupBy(rows, p)[i].key
  {
    GroupByMatches(rows, p);
    var g := GroupBy(rows, p)[i];
    var members := InPeriod(rows, p, g.key);
    assert GroupMatches(rows, p, g);
    assert members[0] in members;
  }

  // ---------------------------------------------------------------------
  // heaviest_and_lightest
  // ---------------------------------------------------------------------

  /** One row of the grouped query: `period, AVG(trip_co2_kgs) AS avg_co2, COUNT(*) AS n`. */
  datatype PeriodRow = PeriodRow(period: int, avgCo2: Option<real>, n: nat)

  function ToPeriodRow(g: Group): PeriodRow
  {
    PeriodRow(g.key, if g.nonNull == 0 then None else Some(g.total / g.nonNull as real), g.n)
  }

  /** The grouped rows, before ordering. */
  function PeriodRows(rows: seq<DerivedTrip>, p: Period): seq<PeriodRow>
  {
    var g := GroupBy(rows, p);
    seq(|g|, i requires 0 <= i < |g| => ToPeriodRow(g[i]))
  }

  /** `ORDER BY avg_co2 DESC`. */
  predicate AvgFirst(a: PeriodRow, b: PeriodRow)
  {
    AtLeast(a.avgCo2, b.avgCo2)
  }

  lemma AvgFirstTotalPreorder()
    ensures TotalPreorder(AvgFirst)
  {
  }

  /** The grouped rows ordered by descending mean. */
  function RankedPeriods(rows: seq<DerivedTrip>, p: Period): seq<PeriodRow>
  {
    Sort(PeriodRows(rows, p), AvgFirst)
  }

  /** heaviest_and_lightest: the first and the last ordered row, or
      (None, None) when the query returns nothing. */
  function HeaviestAndLightest(rows: seq<DerivedTrip>, p: Period): (Option<PeriodRow>, Option<PeriodRow>)
  {
    var ranked := RankedPeriods(rows, p);
    if |ranked| == 0 then (None, None) else (Some(ranked[0]), Some(ranked[|ranked| - 1]))
  }

  /** Each grouped row is one distinct period value of the table, with n > 0
      rows and the SQL mean of their CO2; the n add up to the row count, and
      every row's period has its grouped row. */
  lemma PeriodRowsSpec(rows: seq<DerivedTrip>, p: Period)
    ensures var pr := PeriodRows(rows, p);
      && (forall i, j :: 0 <= i < j < |pr| ==> pr[i].period != pr[j].period)
      && (forall i :: 0 <= i < |pr| ==>
            var members := InPeriod(rows, p, pr[i].period);
            pr[i].n == |members| > 0 && pr[i].avgCo2 == SqlAvg(members))
      && (forall j :: 0 <= j < |rows| ==> exists i :: 0 <= i < |pr| && pr[i].period == PeriodOf(rows[j], p))
      && SumN(GroupBy(rows, p)) == |rows|
  {
    GroupByKeysDistinct(rows, p);
    GroupBySum(rows, p);
    PeriodRowsMatch(rows, p);
    PeriodRowsCover(rows, p);
  }

  /** Each grouped row has the count and the SQL mean of its period's rows. */
  lemma PeriodRowsMatch(rows: seq<DerivedTrip>, p: Period)
    ensures var pr := PeriodRows(rows, p);
      forall i :: 0 <= i < |pr| ==>
        var members := InPeriod(rows, p, pr[i].period);
        pr[i].n == |members| > 0 && pr[i].avgCo2 == SqlAvg(members)
  {
    GroupByMatches(rows, p);
    var g := GroupBy(rows, p);
    var pr := PeriodRows(rows, p);
    forall i | 0 <= i < |pr|
      ensures var members := InPeriod(rows, p, pr[i].period);
        pr[i].n == |members| > 0 && pr[i].avgCo2 == SqlAvg(members)
    {
      assert pr[i] == ToPeriodRow(g[i]);
      assert GroupMatches(rows, p, g[i]);
    }
  }

  /** Every row's period has its grouped row. */
  lemma PeriodRowsCover(rows: seq<DerivedTrip>, p: Period)
    ensures var pr := PeriodRows(rows, p);
      forall j :: 0 <= j < |rows| ==> exists i :: 0 <= i < |pr| && pr[i].period == PeriodOf(rows[j], p)
  {
    GroupByCovers(rows, p);
    var g := GroupBy(rows, p);
    var pr := PeriodRows(rows, p);
    forall j | 0 <= j < |rows|
      ensures exists i :: 0 <= i < |pr| && pr[i].period == PeriodOf(rows[j], p)
    {
      var i := IndexOfKey(g, PeriodOf(rows[j], p));
      assert pr[i].period == g[i].key;
    }
  }

  /** With no NULL CO2 values, a period's mean is its CO2 sum over its row count. */
  lemma PeriodMeanWithoutNulls(rows: seq<DerivedTrip>, p: Period, i: nat)
    requires forall j :: 0 <= j < |rows| ==> rows[j].co2Kgs.Some?
    requires i < |PeriodRows(rows, p)|
    ensures var r := PeriodRows(rows, p)[i]; var members := InPeriod(rows, p, r.period);
      r.n > 0 && r.avgCo2 == Some(SumCo2(members) / r.n as real)
  {
    PeriodRowsSpec(rows, p);
    var r := PeriodRows(rows, p)[i];
    var members := InPeriod(rows, p, r.period);
    forall k | 0 <= k < |members|
      ensures members[k].co2Kgs.Some?
    {
      assert members[k] in members;
    }
    NonNullWhenAllPresent(members);
  }

  /** An empty table gives (None, None); otherwise the first row returned has
      the largest mean and the last the smallest, both among the grouped rows. */
  lemma HeaviestAndLightestSpec(rows: seq<DerivedTrip>, p: Period)
    ensures var (hi, lo) := HeaviestAndLightest(rows, p);
      && (|rows| == 0 <==> hi.None?)
      && (hi.None? <==> lo.None?)
      && (hi.Some? ==>
            && hi.value in PeriodRows(rows, p) && lo.value in PeriodRows(rows, p)
            && (forall r :: r in PeriodRows(rows, p) ==> AtLeast(hi.value.avgCo2, r.avgCo2))
            && (forall r :: r in PeriodRows(rows, p) ==> AtLeast(r.avgCo2, lo.value.avgCo2)))
  {
    var pr := PeriodRows(rows, p);
    var ranked := RankedPeriods(rows, p);
    assert ranked == Sort(pr, AvgFirst);
    PeriodRowsEmpty(rows, p);
    if |pr| > 0 {
      RankedExtremes(pr);
    }
  }

  /** The grouped query returns nothing exactly on an empty table. */
  lemma PeriodRowsEmpty(rows: seq<DerivedTrip>, p: Period)
    ensures |PeriodRows(rows, p)| == 0 <==> |rows| == 0
  {
    var g := GroupBy(rows, p);
    assert |PeriodRows(rows, p)| == |g|;
    if |rows| > 0 {
      GroupByCovers(rows, p);
      assert IndexOfKey(g, PeriodOf(rows[0], p)) < |g|;
    }
  }

  /** Ordered by descending mean, the first grouped row has the largest mean
      and the last the smallest. */
  lemma RankedExtremes(pr: seq<PeriodRow>)
    requires |pr| > 0
    ensures var ranked := Sort(pr, AvgFirst);
      && ranked[0] in pr && ranked[|ranked| - 1] in pr
      && (forall r :: r in pr ==> AtLeast(ranked[0].avgCo2, r.avgCo2))
      && (forall r :: r in pr ==> AtLeast(r.avgCo2, ranked[|ranked| - 1].avgCo2))
  {
    var ranked := Sort(pr, AvgFirst);
    AvgFirstTotalPreorder();
    SortExtremes(pr, AvgFirst);
    forall r | r in pr
      ensures AtLeast(ranked[0].avgCo2, r.avgCo2) && AtLeast(r.avgCo2, ranked[|ranked| - 1].avgCo2)
    {
      assert AvgFirst(ranked[0], r) && AvgFirst(r, ranked[|ranked| - 1]);
    }
  }

  // ---------------------------------------------------------------------
  // monthly_totals
  // ---------------------------------------------------------------------

  datatype MonthTotal = MonthTotal(month: int, totalCo2Kg: Option<real>)

  /** `ORDER BY month_of_year`. */
  predicate KeyFirst(a: Group, b: Group)
  {
    a.key <= b.key
  }

  lemma KeyFirstTotalPreorder()
    ensures TotalPreorder(KeyFirst)
  {
  }

  function ToMonthTotal(g: Group): MonthTotal
  {
    MonthTotal(g.key, if g.nonNull == 0 then None else Some(g.total))
  }

  /** `SELECT month_of_year, SUM(trip_co2_kgs) ... GROUP BY month_of_year ORDER BY month_of_year`. */
  function MonthlyTotals(rows: seq<DerivedTrip>): seq<MonthTotal>
  {
    var sorted := Sort(GroupBy(rows, MonthOfYear), KeyFirst);
    seq(|sorted|, i requires 0 <= i < |sorted| => ToMonthTotal(sorted[i]))
  }

  lemma {:induction false} NoDupMultiplicity<T>(s: seq<T>, x: T)
    requires NoDup(s)
    ensures multiset(s)[x] <= 1
  {
    if |s| > 0 {
      var init := s[..|s| - 1];
      assert NoDup(init);
      NoDupMultiplicity(init, x);
      assert s == init + [s[|s| - 1]];
      assert s[|s| - 1] !in init;
    }
  }

  lemma DupMultiplicity<T>(s: seq<T>, i: nat, j: nat)
    requires i < j < |s| && s[i] == s[j]
    ensures multiset(s)[s[i]] >= 2
  {
    assert s == s[..j] + [s[j]] + s[j + 1..];
    assert s[i] in s[..j];
    assert multiset(s) == multiset(s[..j]) + multiset{s[j]} + multiset(s[j + 1..]);
  }

  /** A permutation of a sequence without duplicates has none. */
  lemma PermutationNoDup<T>(a: seq<T>, b: seq<T>)
    requires NoDup(a) && multiset(a) == multiset(b)
    ensures NoDup(b)
  {
    forall i, j | 0 <= i < j < |b|
      ensures b[i] != b[j]
    {
      if b[i] == b[j] {
        DupMultiplicity(b, i, j);
        NoDupMultiplicity(a, b[i]);
      }
    }
  }

  /** Sorting groups with distinct keys by key orders them strictly. */
  lemma SortedKeysStrict(g: seq<Group>)
    requires KeysDistinct(g)
    ensures var sorted := Sort(g, KeyFirst);
      forall i, j :: 0 <= i < j < |sorted| ==> sorted[i].key < sorted[j].key
  {
    var sorted := Sort(g, KeyFirst);
    KeyFirstTotalPreorder();
    SortSorts(g, KeyFirst);
    assert NoDup(g);
    PermutationNoDup(g, sorted);
    forall i, j | 0 <= i < j < |sorted|
      ensures sorted[i].key < sorted[j].key
    {
      assert KeyFirst(sorted[i], sorted[j]);
      assert sorted[i] in multiset(g) && sorted[j] in multiset(g);
      var a :| 0 <= a < |g| && g[a] == sorted[i];
      var b :| 0 <= b < |g| && g[b] == sorted[j];
      assert a != b;
      assert g[a].key != g[b].key by {
        if a < b { assert g[a].key != g[b].key; } else { assert g[b].key != g[a].key; }
      }
    }
  }

  /** The monthly totals are the sorted groups, each turned into a total. */
  lemma MonthlyTotalsAt(rows: seq<DerivedTrip>, i: nat)
    requires i < |MonthlyTotals(rows)|
    ensures var sorted := Sort(GroupBy(rows, MonthOfYear), KeyFirst);
      |sorted| == |MonthlyTotals(rows)| && MonthlyTotals(rows)[i] == ToMonthTotal(sorted[i])
  {
  }

  /** The months come in strictly ascending order. */
  lemma MonthlyTotalsAscending(rows: seq<DerivedTrip>)
    ensures var m := MonthlyTotals(rows);
      forall i, j :: 0 <= i < j < |m| ==> m[i].month < m[j].month
  {
    var m := MonthlyTotals(rows);
    GroupByKeysDistinct(rows, MonthOfYear);
    SortedKeysStrict(GroupBy(rows, MonthOfYear));
    forall i, j | 0 <= i < j < |m|
      ensures m[i].month < m[j].month
    {
      MonthlyTotalsAt(rows, i);
      MonthlyTotalsAt(rows, j);
    }
  }

  /** Each total is the SQL sum of its month's CO2 values, and the month has rows. */
  lemma MonthlyTotalIsSum(rows: seq<DerivedTrip>, i: nat)
    requires i < |MonthlyTotals(rows)|
    ensures var m := MonthlyTotals(rows)[i];
      |InPeriod(rows, MonthOfYear, m.month)| > 0
      && m.totalCo2Kg == SqlSum(InPeriod(rows, MonthOfYear, m.month))
  {
    var g := GroupBy(rows, MonthOfYear);
    var sorted := Sort(g, KeyFirst);
    MonthlyTotalsAt(rows, i);
    GroupByMatches(rows, MonthOfYear);
    assert sorted[i] in multiset(g);
    var a :| 0 <= a < |g| && g[a] == sorted[i];
    assert GroupMatches(rows, MonthOfYear, g[a]);
  }

  /** Every row's month has its total. */
  lemma MonthlyTotalsCover(rows: seq<DerivedTrip>, j: nat)
    requires j < |rows|
    ensures var m := MonthlyTotals(rows);
      exists i :: 0 <= i < |m| && m[i].month == rows[j].monthOfYear
  {
    var g := GroupBy(rows, MonthOfYear);
    var sorted := Sort(g, KeyFirst);
    GroupByCovers(rows, MonthOfYear);
    var a := IndexOfKey(g, PeriodOf(rows[j], MonthOfYear));
    assert g[a] in multiset(sorted);
    var i :| 0 <= i < |sorted| && sorted[i] == g[a];
    MonthlyTotalsAt(rows, i);
  }

  /** One total per distinct month of the table, strictly ascending by month;
      each is the SQL sum of that month's CO2 values. */
  lemma MonthlyTotalsSpec(rows: seq<DerivedTrip>)
    ensures var m := MonthlyTotals(rows);
      && (forall i, j :: 0 <= i < j < |m| ==> m[i].month < m[j].month)
      && (forall i :: 0 <= i < |m| ==>
            |InPeriod(rows, MonthOfYear, m[i].month)| > 0
            && m[i].totalCo2Kg == SqlSum(InPeriod(rows, MonthOfYear, m[i].month)))
      && (forall j :: 0 <= j < |rows| ==> exists i :: 0 <= i < |m| && m[i].month == rows[j].monthOfYear)
  {
    MonthlyTotalsAscending(rows);
    forall i | 0 <= i < |MonthlyTotals(rows)|
      ensures var m := MonthlyTotals(rows)[i];
        |InPeriod(rows, MonthOfYear, m.month)| > 0
        && m.totalCo2Kg == SqlSum(InPeriod(rows, MonthOfYear, m.month))
    {
      MonthlyTotalIsSum(rows, i);
    }
    forall j | 0 <= j < |rows|
      ensures exists i :: 0 <= i < |MonthlyTotals(rows)| && MonthlyTotals(rows)[i].month == rows[j].monthOfYear
    {
      MonthlyTotalsCover(rows, j);
    }
  }

  // ---------------------------------------------------------------------
  // Labels and print_heavy_light
  // ---------------------------------------------------------------------

  const DayNames: map<int, string> :=
    map[0 := "Sun", 1 := "Mon", 2 := "Tue", 3 := "Wed", 4 := "Thu", 5 := "Fri", 6 := "Sat"]

  const MonthNames: map<int, string> :=
    map[1 := "Jan", 2 := "Feb", 3 := "Mar", 4 := "Apr", 5 := "May", 6 := "Jun",
        7 := "Jul", 8 := "Aug", 9 := "Sep", 10 := "Oct", 11 := "Nov", 12 := "Dec"]

  /** What a report prints for a period: a number or a name. */
  datatype Label = Number(n: int) | Name(name: string)

  /** The `transform` passed to print_heavy_light, or none. */
  datatype Labeler = HourLabels | DayLabels | MonthLabels | NoLabels

  function LabelOf(l: Labeler, period: int): Label
  {
    match l
    case HourLabels => Number(period % 24 + 1)
    case DayLabels => if period in DayNames then Name(DayNames[period]) else Number(period)
    case MonthLabels => if period in MonthNames then Name(MonthNames[period]) else Number(period)
    case NoLabels => Number(period)
  }

  /** The hour label lies in 1-24 for every period value, and is the hour
      plus one for an hour in 0-23. */
  lemma HourLabelRange(period: int)
    ensures LabelOf(HourLabels, period).Number?
    ensures 1 <= LabelOf(HourLabels, period).n <= 24
    ensures 0 <= period < 24 ==> LabelOf(HourLabels, period).n == period + 1
  {
  }

  /** Day and month numbers in range get their names; any other number is
      printed as itself. */
  lemma NameLabels(period: int)
    ensures LabelOf(DayLabels, period).Name? <==> 0 <= period < 7
    ensures LabelOf(MonthLabels, period).Name? <==> 1 <= period <= 12
    ensures !(0 <= period < 7) ==> LabelOf(DayLabels, period) == Number(period)
    ensures !(1 <= period <= 12) ==> LabelOf(MonthLabels, period) == Number(period)
  {
  }

  /** What print_heavy_light reports. */
  datatype HeavyLight =
    | NoData
    | Extremes(mostLabel: Label, most: PeriodRow, leastLabel: Label, least: PeriodRow)

  /** print_heavy_light: "no data" when either row is missing, otherwise both
      rows with their labels. */
  function PrintHeavyLight(maxRow: Option<PeriodRow>, minRow: Option<PeriodRow>, l: Labeler): (r: HeavyLight)
    ensures r.NoData? <==> maxRow.None? || minRow.None?
    ensures r.Extremes? ==> r.most == maxRow.value && r.least == minRow.value
  {
    if maxRow.None? || minRow.None? then NoData
    else Extremes(LabelOf(l, maxRow.value.period), maxRow.value, LabelOf(l, minRow.value.period), minRow.value)
  }

  /** The report for one grouping column. */
  function PeriodReport(rows: seq<DerivedTrip>, p: Period, l: Labeler): HeavyLight
  {
    var (hi, lo) := HeaviestAndLightest(rows, p);
    PrintHeavyLight(hi, lo, l)
  }

  /** A non-empty table has both extremes, and each is the period of some row. */
  lemma ExtremesOccur(rows: seq<DerivedTrip>, p: Period)
    requires |rows| > 0
    ensures var (hi, lo) := HeaviestAndLightest(rows, p);
      && hi.Some? && lo.Some?
      && (exists j :: 0 <= j < |rows| && PeriodOf(rows[j], p) == hi.value.period)
      && (exists j :: 0 <= j < |rows| && PeriodOf(rows[j], p) == lo.value.period)
  {
    HeaviestAndLightestSpec(rows, p);
    var (hi, lo) := HeaviestAndLightest(rows, p);
    PeriodOccurs(rows, p, hi.value);
    PeriodOccurs(rows, p, lo.value);
  }

  /** A grouped row's period is the period of some row of the table. */
  lemma PeriodOccurs(rows: seq<DerivedTrip>, p: Period, r: PeriodRow)
    requires r in PeriodRows(rows, p)
    ensures exists j :: 0 <= j < |rows| && PeriodOf(rows[j], p) == r.period
  {
    var pr := PeriodRows(rows, p);
    var i :| 0 <= i < |pr| && pr[i] == r;
    GroupKeyOccurs(rows, p, i);
  }

  /** An empty table reports no data. */
  lemma EmptyReport(rows: seq<DerivedTrip>, p: Period, l: Labeler)
    requires |rows| == 0
    ensures PeriodReport(rows, p, l).NoData?
  {
    HeaviestAndLightestSpec(rows, p);
  }

  /** With days in range, the day report prints day names. */
  lemma DayReportLabels(rows: seq<DerivedTrip>)
    requires |rows| > 0 && forall j :: 0 <= j < |rows| ==> InRange(rows[j])
    ensures var day := PeriodReport(rows, DayOfWeek, DayLabels);
      day.Extremes? && day.mostLabel.Name? && day.leastLabel.Name?
  {
    ExtremesOccur(rows, DayOfWeek);
    var (hi, lo) := HeaviestAndLightest(rows, DayOfWeek);
    var a :| 0 <= a < |rows| && PeriodOf(rows[a], DayOfWeek) == hi.value.period;
    var b :| 0 <= b < |rows| && PeriodOf(rows[b], DayOfWeek) == lo.value.period;
    assert InRange(rows[a]) && InRange(rows[b]);
    NameLabels(hi.value.period);
    NameLabels(lo.value.period);
  }

  /** With months in range, the month report prints month names. */
  lemma MonthReportLabels(rows: seq<DerivedTrip>)
    requires |rows| > 0 && forall j :: 0 <= j < |rows| ==> InRange(rows[j])
    ensures var month := PeriodReport(rows, MonthOfYear, MonthLabels);
      month.Extremes? && month.mostLabel.Name? && month.leastLabel.Name?
  {
    ExtremesOccur(rows, MonthOfYear);
    var (hi, lo) := HeaviestAndLightest(rows, MonthOfYear);
    var a :| 0 <= a < |rows| && PeriodOf(rows[a], MonthOfYear) == hi.value.period;
    var b :| 0 <= b < |rows| && PeriodOf(rows[b], MonthOfYear) == lo.value.period;
    assert InRange(rows[a]) && InRange(rows[b]);
    NameLabels(hi.value.period);
    NameLabels(lo.value.period);
  }

  /** With hours in range, the hour report prints the hour plus one. */
  lemma HourReportLabels(rows: seq<DerivedTrip>)
    requires |rows| > 0 && forall j :: 0 <= j < |rows| ==> InRange(rows[j])
    ensures var hour := PeriodReport(rows, HourOfDay, HourLabels);
      && hour.Extremes?
      && hour.mostLabel == Number(hour.most.period + 1)
      && hour.leastLabel == Number(hour.least.period + 1)
  {
    ExtremesOccur(rows, HourOfDay);
    var (hi, lo) := HeaviestAndLightest(rows, HourOfDay);
    var a :| 0 <= a < |rows| && PeriodOf(rows[a], HourOfDay) == hi.value.period;
    var b :| 0 <= b < |rows| && PeriodOf(rows[b], HourOfDay) == lo.value.period;
    assert InRange(rows[a]) && InRange(rows[b]);
    HourLabelRange(hi.value.period);
    HourLabelRange(lo.value.period);
  }

  // ---------------------------------------------------------------------
  // main
  // ---------------------------------------------------------------------

  /** What main reports for one fleet: the table is missing, or the largest
      trip (reported only when there is one), the four period reports and the
      monthly totals handed to the chart. */
  datatype FleetReport =
    | TableMissing(cab: string, table: string)
    | Analysed(cab: string, largest: Option<TripExtreme>, byHour: HeavyLight, byDay: HeavyLight,
               byWeek: HeavyLight, byMonth: HeavyLight, monthly: seq<MonthTotal>)

  /** table_exists. */
  predicate TableExists(s: Catalog, name: string)
  {
    name in s
  }

  /** The body of main's loop for one fleet. The queries fail on a table that
      does not hold transformed rows. */
  function AnalyseFleet(s: Catalog, f: Fleet): Result<FleetReport>
  {
    var table := f.TransformedTable();
    if !TableExists(s, table) then Ok(TableMissing(f.Cab(), table))
    else if !s[table].DerivedTable? then Err(QueryFailed(table))
    else AnalyseRows(f, s[table].derived)
  }

  /** The queries and reports on the rows of a fleet's transformed table.
      Printing a largest trip whose CO2 is NULL raises. */
  function AnalyseRows(f: Fleet, rows: seq<DerivedTrip>): Result<FleetReport>
  {
    var largest := LargestTrip(rows);
    if largest.Some? && largest.value.co2Kgs.None? then Err(FormatFailed(f.TransformedTable()))
    else Ok(Analysed(f.Cab(), largest,
                     PeriodReport(rows, HourOfDay, HourLabels),
                     PeriodReport(rows, DayOfWeek, DayLabels),
                     PeriodReport(rows, WeekOfYear, NoLabels),
                     PeriodReport(rows, MonthOfYear, MonthLabels),
                     MonthlyTotals(rows)))
  }

  /** main's loop over `fleets`, running `body` on each; an exception ends it. */
  function RunFleets(body: Fleet -> Result<FleetReport>, fleets: seq<Fleet>): Result<seq<FleetReport>>
  {
    if |fleets| == 0 then Ok([])
    else match RunFleets(body, fleets[..|fleets| - 1])
      case Err(e) => Err(e)
      case Ok(reports) =>
        match body(fleets[|fleets| - 1])
        case Err(e) => Err(e)
        case Ok(r) => Ok(reports + [r])
  }

  /** main's loop over the fleets of database `s`. */
  function AnalysisRun(s: Catalog, fleets: seq<Fleet>): Result<seq<FleetReport>>
  {
    RunFleets(f => AnalyseFleet(s, f), fleets)
  }

  /** A fleet is reported as missing exactly when its table is absent. */
  lemma AnalyseFleetMissing(s: Catalog, f: Fleet)
    ensures AnalyseFleet(s, f).Ok? ==> (AnalyseFleet(s, f).value.TableMissing? <==> f.TransformedTable() !in s)
    ensures AnalyseFleet(s, f).Err? <==>
      f.TransformedTable() in s && (!s[f.TransformedTable()].DerivedTable? || AllCo2Null(s[f.TransformedTable()].derived))
  {
    if f.TransformedTable() in s && s[f.TransformedTable()].DerivedTable? {
      LargestTripNull(s[f.TransformedTable()].derived);
    }
  }

  /** The loop fails exactly when the body fails on one fleet. */
  lemma RunFleetsFails(body: Fleet -> Result<FleetReport>, fleets: seq<Fleet>)
    ensures RunFleets(body, fleets).Err? <==> exists i :: 0 <= i < |fleets| && body(fleets[i]).Err?
  {
    if RunFleets(body, fleets).Err? {
      RunFleetsFailure(body, fleets);
    }
    forall i | 0 <= i < |fleets| && body(fleets[i]).Err?
      ensures RunFleets(body, fleets).Err?
    {
      RunFleetsFailsAt(body, fleets, i);
    }
  }

  /** A fleet on which the body fails makes the loop fail. */
  lemma {:induction false} RunFleetsFailsAt(body: Fleet -> Result<FleetReport>, fleets: seq<Fleet>, i: nat)
    requires i < |fleets| && body(fleets[i]).Err?
    ensures RunFleets(body, fleets).Err?
  {
    var n := |fleets| - 1;
    if i < n {
      var init := fleets[..n];
      assert init[i] == fleets[i];
      RunFleetsFailsAt(body, init, i);
    }
  }

  /** A failed loop has a fleet on which the body failed. */
  lemma {:induction false} RunFleetsFailure(body: Fleet -> Result<FleetReport>, fleets: seq<Fleet>)
    requires RunFleets(body, fleets).Err?
    ensures exists i :: 0 <= i < |fleets| && body(fleets[i]).Err?
  {
    var n := |fleets| - 1;
    var init := fleets[..n];
    if RunFleets(body, init).Err? {
      RunFleetsFailure(body, init);
      var i :| 0 <= i < |init| && body(init[i]).Err?;
      assert init[i] == fleets[i];
    } else {
      assert body(fleets[n]).Err?;
    }
  }

  /** A completed loop has one report per fleet, in order. */
  lemma {:induction false} RunFleetsReports(body: Fleet -> Result<FleetReport>, fleets: seq<Fleet>)
    requires RunFleets(body, fleets).Ok?
    ensures var rs := RunFleets(body, fleets).value;
      |rs| == |fleets| && forall i :: 0 <= i < |fleets| ==> body(fleets[i]) == Ok(rs[i])
  {
    if |fleets| > 0 {
      var n := |fleets| - 1;
      var init := fleets[..n];
      RunFleetsReports(body, init);
      assert forall i :: 0 <= i < n ==> init[i] == fleets[i];
    }
  }

  /** The loop fails exactly when one fleet's queries fail; otherwise it has
      one report per fleet, in order, and a fleet whose table is missing is
      reported as such without stopping the others. */
  lemma AnalysisRunSpec(s: Catalog, fleets: seq<Fleet>)
    ensures AnalysisRun(s, fleets).Err? <==> exists i :: 0 <= i < |fleets| && AnalyseFleet(s, fleets[i]).Err?
    ensures AnalysisRun(s, fleets).Ok? ==>
      var rs := AnalysisRun(s, fleets).value;
      && |rs| == |fleets|
      && (forall i :: 0 <= i < |fleets| ==> AnalyseFleet(s, fleets[i]) == Ok(rs[i]))
      && (forall i :: 0 <= i < |fleets| ==> (rs[i].TableMissing? <==> fleets[i].TransformedTable() !in s))
  {
    var body := f => AnalyseFleet(s, f);
    RunFleetsFails(body, fleets);
    if AnalysisRun(s, fleets).Ok? {
      RunFleetsReports(body, fleets);
      forall i | 0 <= i < |fleets|
        ensures AnalysisRun(s, fleets).value[i].TableMissing? <==> fleets[i].TransformedTable() !in s
      {
        AnalyseFleetMissing(s, fleets[i]);
      }
    }
  }

  /** analysis.py's main, without the charts: a read-only connection, the
      fleets in order, a missing table skipped with a message. */
  method AnalysisMain(db: Catalog) returns (con: Connection, r: Result<seq<FleetReport>>)
    ensures con.readOnly && con.tables == db
    ensures r == AnalysisRun(db, FleetOrder)
    ensures con.open <==> r.Err?
  {
    con := new Connection.Connect(db, true);
    var reports: seq<FleetReport> := [];
    for i := 0 to |FleetOrder|
      invariant con.open && con.tables == db
      invariant AnalysisRun(db, FleetOrder[..i]) == Ok(reports)
    {
      var f := FleetOrder[i];
      assert FleetOrder[..i + 1][..i] == FleetOrder[..i];
      var table := f.TransformedTable();
      if !TableExists(con.tables, table) {
        reports := reports + [TableMissing(f.Cab(), table)];
        continue;
      }
      if !con.tables[table].DerivedTable? {
        return con, Err(QueryFailed(table));
      }
      var rows := con.tables[table].derived;
      var largest := LargestTrip(rows);
      if largest.Some? && largest.value.co2Kgs.None? {
        return con, Err(FormatFailed(table));
      }
      var byHour := PeriodReport(rows, HourOfDay, HourLabels);
      var byDay := PeriodReport(rows, DayOfWeek, DayLabels);
      var byWeek := PeriodReport(rows, WeekOfYear, NoLabels);
      var byMonth := PeriodReport(rows, MonthOfYear, MonthLabels);
      var monthly := MonthlyTotals(rows);
      reports := reports + [Analysed(f.Cab(), largest, byHour, byDay, byWeek, byMonth, monthly)];
    }
    assert FleetOrder[..|FleetOrder|] == FleetOrder;
    con.Close();
    return con, Ok(reports);
  }
}
