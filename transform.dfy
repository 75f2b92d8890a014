/** The derivation stage (transform.py): replace a fleet's transformed table
    by its clean rows, each extended with CO2 mass, average speed and the
    pickup's calendar fields. */
module Transform {
  import opened Store
  import opened Text
  import opened Fleets

  /** The columns the transform adds after `t.*`, in order. */
  const DerivedColumns: seq<string> :=
    ["trip_co2_kgs", "avg_mph", "hour_of_day", "day_of_week", "week_of_year", "month_of_year"]

  const GramsPerKilogram: real := 1000.0
  const SecondsPerHour: real := 3600.0

  /** The scalar subquery `SELECT co2_grams_per_mile FROM vehicle_emissions
      WHERE vehicle_type = tag`: the first matching factor, NULL when none. */
  function FactorFor(factors: seq<EmissionFactor>, tag: string): (r: Option<real>)
    ensures r.None? <==> forall i :: 0 <= i < |factors| ==> factors[i].vehicleType != tag
    ensures r.Some? ==> exists i :: 0 <= i < |factors| && factors[i].vehicleType == tag
                                  && factors[i].co2GramsPerMile == r.value
                                  && forall k :: 0 <= k < i ==> factors[k].vehicleType != tag
  {
    if |factors| == 0 then None
    else if factors[0].vehicleType == tag then Some(factors[0].co2GramsPerMile)
    else
      var r := FactorFor(factors[1..], tag);
      assert forall i :: 1 <= i < |factors| ==> factors[i] == factors[1..][i - 1];
      r
  }

  /** `trip_distance * factor / 1000.0`; NULL when the factor is NULL. */
  function Co2Kgs(distance: real, factor: Option<real>): Option<real>
  {
    match factor
    case None => None
    case Some(f) => Some(distance * f / GramsPerKilogram)
  }

  /** `CASE WHEN duration > 0 THEN trip_distance / (duration / 3600.0) ELSE NULL END`. */
  function AvgMph(t: Trip): Option<real>
  {
    var d := DurationSeconds(t);
    if d > 0 then Some(t.distance / (d as real / SecondsPerHour)) else None
  }

  /** One row of the transform's SELECT. */
  function Derive(t: Trip, factor: Option<real>): DerivedTrip
  {
    DerivedTrip(
      t,
      Co2Kgs(t.distance, factor),
      AvgMph(t),
      t.pickup.hour,
      t.pickup.dayOfWeek,
      t.pickup.week - 1,
      t.pickup.month)
  }

  /** The rows of the SELECT over the clean table, one per clean row. */
  function DeriveAll(rows: seq<Trip>, factor: Option<real>): seq<DerivedTrip>
  {
    seq(|rows|, i requires 0 <= i < |rows| => Derive(rows[i], factor))
  }

  /** The derived columns of one row: CO2 is distance times factor in
      kilograms, NULL without a factor; the speed is NULL exactly when the
      duration is not positive, and otherwise covers the distance in the
      duration; the calendar fields come from the pickup, the week shifted
      to start at 0. */
  lemma DeriveSpec(t: Trip, factor: Option<real>)
    ensures var d := Derive(t, factor);
      && d.trip == t
      && (d.co2Kgs.None? <==> factor.None?)
      && (factor.Some? ==> d.co2Kgs.value * GramsPerKilogram == t.distance * factor.value)
      && (d.avgMph.None? <==> DurationSeconds(t) <= 0)
      && (d.avgMph.Some? ==> d.avgMph.value * (DurationSeconds(t) as real / SecondsPerHour) == t.distance)
      && d.hourOfDay == t.pickup.hour
      && d.dayOfWeek == t.pickup.dayOfWeek
      && d.weekOfYear + 1 == t.pickup.week
      && d.monthOfYear == t.pickup.month
  {
  }

  /** With a non-negative factor, a clean trip (positive distance) emits a
      non-negative mass; the calendar fields of a well-formed pickup lie in
      0-23, 0-6, 0-52 and 1-12. */
  lemma DeriveRanges(t: Trip, factor: Option<real>)
    ensures t.distance > 0.0 && factor.Some? && factor.value >= 0.0 ==> Derive(t, factor).co2Kgs.value >= 0.0
    ensures WellFormedInstant(t.pickup) ==> InRange(Derive(t, factor))
  {
  }

  /** A clean table whose pickups are well formed derives rows whose calendar
      fields are all in range, as the period reports of the analysis expect. */
  lemma DeriveAllInRange(rows: seq<Trip>, factor: Option<real>)
    requires forall i :: 0 <= i < |rows| ==> WellFormedInstant(rows[i].pickup)
    ensures forall j :: 0 <= j < |DeriveAll(rows, factor)| ==> InRange(DeriveAll(rows, factor)[j])
  {
    forall j | 0 <= j < |rows|
      ensures InRange(DeriveAll(rows, factor)[j])
    {
      assert DeriveAll(rows, factor)[j] == Derive(rows[j], factor);
    }
  }

  /** transform_table as a function of the database: the drop always happens;
      the CREATE fails when the clean table, a column it names, or the
      emission lookup is missing. The result is the new table's row count. */
  function TransformStage(s: Catalog, clean: string, transformed: string, pickupCol: string,
                          dropoffCol: string, vehicleType: string): StageOutcome<nat>
  {
    var s1 := s - {transformed};
    if clean !in s1 then StageOutcome(s1, Err(MissingTable(clean)))
    else if !s1[clean].TripTable? then StageOutcome(s1, Err(QueryFailed(clean)))
    else if !HasColumn(s1[clean].columns, pickupCol) || !HasColumn(s1[clean].columns, dropoffCol)
         || !HasColumn(s1[clean].columns, "trip_distance")
    then StageOutcome(s1, Err(QueryFailed(clean)))
    else if EmissionsTable !in s1 then StageOutcome(s1, Err(MissingTable(EmissionsTable)))
    else if !s1[EmissionsTable].FactorTable? then StageOutcome(s1, Err(QueryFailed(EmissionsTable)))
    else
      var rows := DeriveAll(s1[clean].trips, FactorFor(s1[EmissionsTable].factors, vehicleType));
      var s2 := s1[transformed := DerivedTable(s1[clean].columns + DerivedColumns, rows)];
      StageOutcome(s2, Ok(RowCount(s2[transformed])))
  }

  /** After a successful transform, the transformed table has one row per
      clean row, in order, carrying the clean row and its derived columns
      for the fleet's factor; its columns are the clean columns followed by
      the six derived ones; the reported count is the clean count; no other
      table changed. */
  lemma TransformStageContents(s: Catalog, clean: string, transformed: string, pickupCol: string,
                               dropoffCol: string, vehicleType: string)
    requires TransformStage(s, clean, transformed, pickupCol, dropoffCol, vehicleType).result.Ok?
    ensures clean != transformed && clean in s && s[clean].TripTable?
    ensures EmissionsTable != transformed && EmissionsTable in s && s[EmissionsTable].FactorTable?
    ensures var o := TransformStage(s, clean, transformed, pickupCol, dropoffCol, vehicleType);
      var factor := FactorFor(s[EmissionsTable].factors, vehicleType);
      && transformed in o.tables && o.tables[transformed].DerivedTable?
      && o.tables[transformed].columns == s[clean].columns + DerivedColumns
      && |o.tables[transformed].derived| == |s[clean].trips| == o.result.value
      && (forall i :: 0 <= i < |s[clean].trips| ==>
            o.tables[transformed].derived[i] == Derive(s[clean].trips[i], factor))
      && (forall n :: n != transformed ==> (n in o.tables <==> n in s))
      && (forall n :: n in s && n != transformed ==> o.tables[n] == s[n])
  {
  }

  /** When the CREATE fails, the transformed table is gone and nothing else
      changed. */
  lemma TransformStageFailure(s: Catalog, clean: string, transformed: string, pickupCol: string,
                              dropoffCol: string, vehicleType: string)
    requires TransformStage(s, clean, transformed, pickupCol, dropoffCol, vehicleType).result.Err?
    ensures TransformStage(s, clean, transformed, pickupCol, dropoffCol, vehicleType).tables == s - {transformed}
  {
  }

  /** The transformed table is dropped before it is recreated, so a rerun on
      unchanged inputs leaves the database as the first run left it. */
  lemma TransformStageIdempotent(s: Catalog, clean: string, transformed: string, pickupCol: string,
                                 dropoffCol: string, vehicleType: string)
    requires transformed != clean && transformed != EmissionsTable
    ensures var o := TransformStage(s, clean, transformed, pickupCol, dropoffCol, vehicleType);
      TransformStage(o.tables, clean, transformed, pickupCol, dropoffCol, vehicleType) == o
  {
    var o := TransformStage(s, clean, transformed, pickupCol, dropoffCol, vehicleType);
    assert o.tables - {transformed} == s - {transformed};
  }

  /** transform_table, statement by statement. */
  method TransformTable(con: Connection, clean: string, transformed: string, pickupCol: string,
                        dropoffCol: string, vehicleType: string) returns (r: Result<nat>)
    requires con.open && !con.readOnly
    modifies con
    ensures con.open
    ensures con.tables == TransformStage(old(con.tables), clean, transformed, pickupCol, dropoffCol, vehicleType).tables
    ensures r == TransformStage(old(con.tables), clean, transformed, pickupCol, dropoffCol, vehicleType).result
  {
    con.DropIfExists(transformed);
    if clean !in con.tables {
      return Err(MissingTable(clean));
    }
    var source := con.tables[clean];
    if !source.TripTable? {
      return Err(QueryFailed(clean));
    }
    if !HasColumn(source.columns, pickupCol) || !HasColumn(source.columns, dropoffCol)
       || !HasColumn(source.columns, "trip_distance") {
      return Err(QueryFailed(clean));
    }
    if EmissionsTable !in con.tables {
      return Err(MissingTable(EmissionsTable));
    }
    if !con.tables[EmissionsTable].FactorTable? {
      return Err(QueryFailed(EmissionsTable));
    }
    var factor := FactorFor(con.tables[EmissionsTable].factors, vehicleType);
    con.Create(transformed, DerivedTable(source.columns + DerivedColumns, DeriveAll(source.trips, factor)));
    return Ok(RowCount(con.tables[transformed]));
  }

  /** transform_table with one fleet's configuration. */
  function TransformFleet(s: Catalog, f: Fleet): StageOutcome<nat>
  {
    TransformStage(s, f.CleanTable(), f.TransformedTable(), f.PickupColumn(), f.DropoffColumn(), f.VehicleType())
  }

  /** transform.py's main: yellow with `tpep_*` columns and `yellow_taxi`,
      then green with `lpep_*` columns and `green_taxi`; an exception ends
      the run. */
  function TransformMainStage(s: Catalog): StageOutcome<(nat, nat)>
  {
    var y := TransformFleet(s, Yellow);
    if y.result.Err? then StageOutcome(y.tables, Err(y.result.error))
    else
      var g := TransformFleet(y.tables, Green);
      if g.result.Err? then StageOutcome(g.tables, Err(g.result.error))
      else StageOutcome(g.tables, Ok((y.result.value, g.result.value)))
  }

  /** The yellow transform runs first and a failure there stops the run
      before green is touched; when both succeed, each fleet's transformed
      table holds its own clean rows derived with its own factor, and the
      two counts are the clean row counts. */
  lemma TransformMainSpec(s: Catalog)
    ensures TransformFleet(s, Yellow).result.Err? ==>
      TransformMainStage(s).tables == s - {Yellow.TransformedTable()} && TransformMainStage(s).result.Err?
    ensures TransformMainStage(s).result.Ok? ==>
      var o := TransformMainStage(s);
      && (forall f: Fleet :: f.CleanTable() in s && s[f.CleanTable()].TripTable?)
      && EmissionsTable in s && s[EmissionsTable].FactorTable?
      && (forall f: Fleet :: f.TransformedTable() in o.tables &&
            o.tables[f.TransformedTable()] ==
              DerivedTable(s[f.CleanTable()].columns + DerivedColumns,
                           DeriveAll(s[f.CleanTable()].trips, FactorFor(s[EmissionsTable].factors, f.VehicleType()))))
      && o.result.value == (|s[Yellow.CleanTable()].trips|, |s[Green.CleanTable()].trips|)
  {
    var y := TransformFleet(s, Yellow);
    if y.result.Err? {
      TransformStageFailure(s, Yellow.CleanTable(), Yellow.TransformedTable(), Yellow.PickupColumn(),
                            Yellow.DropoffColumn(), Yellow.VehicleType());
    } else {
      TransformStageContents(s, Yellow.CleanTable(), Yellow.TransformedTable(), Yellow.PickupColumn(),
                             Yellow.DropoffColumn(), Yellow.VehicleType());
      var g := TransformFleet(y.tables, Green);
      if g.result.Ok? {
        TransformStageContents(y.tables, Green.CleanTable(), Green.TransformedTable(), Green.PickupColumn(),
                               Green.DropoffColumn(), Green.VehicleType());
        forall f: Fleet
          ensures f.CleanTable() in s && s[f.CleanTable()].TripTable?
        {
          if f == Green {
            assert Green.CleanTable() != Yellow.TransformedTable();
          }
        }
      }
    }
  }

  method TransformMain(db: Catalog) returns (con: Connection, r: Result<(nat, nat)>)
    ensures con.tables == TransformMainStage(db).tables && r == TransformMainStage(db).result
    ensures con.open <==> r.Err?
  {
    con := new Connection.Connect(db, false);
    var y := TransformTable(con, "yellow_clean", "yellow_transformed",
                            "tpep_pickup_datetime", "tpep_dropoff_datetime", "yellow_taxi");
    if y.Err? { return con, Err(y.error); }
    var g := TransformTable(con, "green_clean", "green_transformed",
                            "lpep_pickup_datetime", "lpep_dropoff_datetime", "green_taxi");
    if g.Err? { return con, Err(g.error); }
    con.Close();
    return con, Ok((y.value, g.value));
  }

  /** Example: two yellow trips of 10 miles in an hour and 5
      miles in half an hour, at 400 g/mile, emit 4 kg and 2 kg, both at 10 mph. */
  lemma TwoYellowTripsExample(p1: Instant, p2: Instant, others: seq<int>)
    ensures var t1 := Trip(1, 10.0, p1, p1.(second := p1.second + 3600), others);
      var t2 := Trip(1, 5.0, p2, p2.(second := p2.second + 1800), others);
      var f := FactorFor([EmissionFactor("yellow_taxi", 400.0)], "yellow_taxi");
      && Derive(t1, f).co2Kgs == Some(4.0) && Derive(t1, f).avgMph == Some(10.0)
      && Derive(t2, f).co2Kgs == Some(2.0) && Derive(t2, f).avgMph == Some(10.0)
  {
  }
}
