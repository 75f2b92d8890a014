/** The cleaning stage (clean.py): resolve the four column roles of a raw
    trip table, then replace the clean table by the distinct raw rows that
    pass the validity filter, and count what the verification queries find. */
module Clean {
  import opened Store
  import opened Text
  import opened Seqs
  import opened Fleets

  // ---------------------------------------------------------------------
  // Column reconciliation (get_column_name)
  // ---------------------------------------------------------------------

  /** The first column, from index `j` on, equal to `cand` ignoring case. */
  function FindFrom(cols: seq<string>, cand: string, j: nat): Option<string>
    decreases |cols| - j
  {
    if j >= |cols| then None
    else if EqualsIgnoreCase(cols[j], cand) then Some(cols[j])
    else FindFrom(cols, cand, j + 1)
  }

  /** The outcome of the nested loop from candidate `i` on. */
  function ResolveFrom(cols: seq<string>, cands: seq<string>, i: nat): Option<string>
    decreases |cands| - i
  {
    if i >= |cands| then None
    else match FindFrom(cols, cands[i], 0)
      case Some(c) => Some(c)
      case None => ResolveFrom(cols, cands, i + 1)
  }

  /** The column `get_column_name` returns for a table with columns `cols`. */
  function ResolveColumn(cols: seq<string>, cands: seq<string>): Option<string>
  {
    ResolveFrom(cols, cands, 0)
  }

  /** Candidate `i` equals column `j` ignoring case. */
  ghost predicate IsMatch(cols: seq<string>, cands: seq<string>, i: int, j: int)
  {
    0 <= i < |cands| && 0 <= j < |cols| && EqualsIgnoreCase(cols[j], cands[i])
  }

  /** (i, j) is the first match: no earlier candidate matches any column, and
      no earlier column matches candidate `i`. */
  ghost predicate IsFirstMatch(cols: seq<string>, cands: seq<string>, i: int, j: int)
  {
    && IsMatch(cols, cands, i, j)
    && (forall i', j' :: 0 <= i' < i && 0 <= j' < |cols| ==> !IsMatch(cols, cands, i', j'))
    && (forall j' :: 0 <= j' < j ==> !IsMatch(cols, cands, i, j'))
  }

  lemma {:induction false} FindFromSpec(cols: seq<string>, cand: string, j: nat)
    ensures FindFrom(cols, cand, j).None? <==>
              forall k :: j <= k < |cols| ==> !EqualsIgnoreCase(cols[k], cand)
    ensures FindFrom(cols, cand, j).Some? ==>
              exists k :: j <= k < |cols| && FindFrom(cols, cand, j).value == cols[k]
                       && EqualsIgnoreCase(cols[k], cand)
                       && forall k' :: j <= k' < k ==> !EqualsIgnoreCase(cols[k'], cand)
    decreases |cols| - j
  {
    if j < |cols| && !EqualsIgnoreCase(cols[j], cand) {
      FindFromSpec(cols, cand, j + 1);
      if FindFrom(cols, cand, j + 1).Some? {
        var k :| j + 1 <= k < |cols| && FindFrom(cols, cand, j + 1).value == cols[k]
                 && EqualsIgnoreCase(cols[k], cand)
                 && forall k' :: j + 1 <= k' < k ==> !EqualsIgnoreCase(cols[k'], cand);
        assert forall k' :: j <= k' < k ==> !EqualsIgnoreCase(cols[k'], cand);
      }
    }
  }

  lemma {:induction false} ResolveFromSpec(cols: seq<string>, cands: seq<string>, i: nat)
    requires forall i', j' :: 0 <= i' < i && 0 <= j' < |cols| ==> !IsMatch(cols, cands, i', j')
    ensures ResolveFrom(cols, cands, i).None? <==>
              forall i', j' :: 0 <= i' < |cands| && 0 <= j' < |cols| ==> !IsMatch(cols, cands, i', j')
    ensures ResolveFrom(cols, cands, i).Some? ==>
              exists i', j' :: IsFirstMatch(cols, cands, i', j') && ResolveFrom(cols, cands, i).value == cols[j']
    decreases |cands| - i
  {
    if i < |cands| {
      FindFromSpec(cols, cands[i], 0);
      match FindFrom(cols, cands[i], 0)
      case Some(c) => {
        var k :| 0 <= k < |cols| && c == cols[k] && EqualsIgnoreCase(cols[k], cands[i])
                 && forall k' :: 0 <= k' < k ==> !EqualsIgnoreCase(cols[k'], cands[i]);
        assert IsMatch(cols, cands, i, k);
        assert IsFirstMatch(cols, cands, i, k);
      }
      case None => {
        assert forall j' :: 0 <= j' < |cols| ==> !IsMatch(cols, cands, i, j');
        ResolveFromSpec(cols, cands, i + 1);
      }
    }
  }

  /** `get_column_name` returns None exactly when no candidate equals any
      column ignoring case; otherwise it returns the table's own spelling of
      the first match, candidates taking precedence over columns. */
  lemma ResolveColumnSpec(cols: seq<string>, cands: seq<string>)
    ensures ResolveColumn(cols, cands).None? <==>
              forall i, j :: 0 <= i < |cands| && 0 <= j < |cols| ==> !IsMatch(cols, cands, i, j)
    ensures ResolveColumn(cols, cands).Some? ==>
              exists i, j :: IsFirstMatch(cols, cands, i, j) && ResolveColumn(cols, cands).value == cols[j]
  {
    ResolveFromSpec(cols, cands, 0);
  }

  /** A resolved column is one of the table's columns, and has the length of
      the candidate it matched, so it is never empty when no candidate is. */
  lemma ResolvedIsColumn(cols: seq<string>, cands: seq<string>)
    requires ResolveColumn(cols, cands).Some?
    requires forall i :: 0 <= i < |cands| ==> |cands[i]| > 0
    ensures ResolveColumn(cols, cands).value in cols
    ensures |ResolveColumn(cols, cands).value| > 0
  {
    ResolveColumnSpec(cols, cands);
    var i, j :| IsFirstMatch(cols, cands, i, j) && ResolveColumn(cols, cands).value == cols[j];
    EqualsIgnoreCaseLength(cols[j], cands[i]);
  }

  /** get_column_name: the nested loop with early return. Reading the column
      list of a table that does not exist fails. */
  method GetColumnName(con: Connection, table: string, candidates: seq<string>) returns (r: Result<Option<string>>)
    requires con.open
    ensures table !in con.tables ==> r == Err(MissingTable(table))
    ensures table in con.tables ==> r == Ok(ResolveColumn(Columns(con.tables[table]), candidates))
  {
    if table !in con.tables {
      return Err(MissingTable(table));
    }
    var cols := Columns(con.tables[table]);
    for i := 0 to |candidates|
      invariant ResolveFrom(cols, candidates, 0) == ResolveFrom(cols, candidates, i)
    {
      for j := 0 to |cols|
        invariant FindFrom(cols, candidates[i], 0) == FindFrom(cols, candidates[i], j)
      {
        if Lower(cols[j]) == Lower(candidates[i]) {
          return Ok(Some(cols[j]));
        }
      }
    }
    return Ok(None);
  }

  // ---------------------------------------------------------------------
  // The four column roles
  // ---------------------------------------------------------------------

  const PickupCandidates: seq<string> := ["tpep_pickup_datetime", "lpep_pickup_datetime"]
  const DropoffCandidates: seq<string> := ["tpep_dropoff_datetime", "lpep_dropoff_datetime"]
  const PassengerCandidates: seq<string> := ["passenger_count"]
  const DistanceCandidates: seq<string> := ["trip_distance"]

  datatype Roles = Roles(pickup: string, dropoff: string, passenger: string, distance: string)

  /** The four roles of a table with columns `cols`, or None when one of them
      does not resolve. */
  function ResolveRoles(cols: seq<string>): (r: Option<Roles>)
    ensures r.None? <==> (|| ResolveColumn(cols, PickupCandidates).None?
                           || ResolveColumn(cols, DropoffCandidates).None?
                           || ResolveColumn(cols, PassengerCandidates).None?
                           || ResolveColumn(cols, DistanceCandidates).None?)
    ensures r.Some? ==> r.value == Roles(ResolveColumn(cols, PickupCandidates).value,
                                         ResolveColumn(cols, DropoffCandidates).value,
                                         ResolveColumn(cols, PassengerCandidates).value,
                                         ResolveColumn(cols, DistanceCandidates).value)
    ensures r.Some? ==> && r.value.pickup in cols && r.value.dropoff in cols
                        && r.value.passenger in cols && r.value.distance in cols
  {
    var p := ResolveColumn(cols, PickupCandidates);
    var d := ResolveColumn(cols, DropoffCandidates);
    var n := ResolveColumn(cols, PassengerCandidates);
    var m := ResolveColumn(cols, DistanceCandidates);
    if p.None? || d.None? || n.None? || m.None? then None
    else
      ResolvedIsColumn(cols, PickupCandidates);
      ResolvedIsColumn(cols, DropoffCandidates);
      ResolvedIsColumn(cols, PassengerCandidates);
      ResolvedIsColumn(cols, DistanceCandidates);
      Some(Roles(p.value, d.value, n.value, m.value))
  }

  // ---------------------------------------------------------------------
  // The filter and the verification queries
  // ---------------------------------------------------------------------

  const MaxDistanceMiles: real := 100.0
  const MaxDurationSeconds: int := 86400
  const TargetYear: int := 2024

  /** The WHERE clause of the cleaning query. There is no lower bound on the
      duration. */
  predicate KeepTrip(t: Trip)
  {
    && t.passengers > 0
    && t.distance > 0.0
    && t.distance <= MaxDistanceMiles
    && DurationSeconds(t) <= MaxDurationSeconds
    && t.pickup.year == TargetYear
  }

  /** `SELECT DISTINCT * FROM raw WHERE ...`. */
  function CleanRows(rows: seq<Trip>): (r: seq<Trip>)
    ensures NoDup(r)
    ensures forall t :: t in r <==> t in rows && KeepTrip(t)
    ensures |r| <= |rows|
  {
    Distinct(Filter(rows, KeepTrip))
  }

  /** Cleaning rows that are already clean changes nothing. */
  lemma CleanRowsIdempotent(rows: seq<Trip>)
    ensures CleanRows(CleanRows(rows)) == CleanRows(rows)
  {
    var c := CleanRows(rows);
    FilterAll(c, KeepTrip);
    DistinctOfNoDup(c);
  }

  /** The four verification queries, in the order clean.py runs them. */
  datatype Check = ZeroPassengers | ZeroDistance | TooLongDistance | TooLongDuration

  const Checks: seq<Check> := [ZeroPassengers, ZeroDistance, TooLongDistance, TooLongDuration]

  /** The WHERE condition of a verification query. */
  predicate Violates(c: Check, t: Trip)
  {
    match c
    case ZeroPassengers => t.passengers == 0
    case ZeroDistance => t.distance == 0.0
    case TooLongDistance => t.distance > MaxDistanceMiles
    case TooLongDuration => DurationSeconds(t) > MaxDurationSeconds
  }

  /** `SELECT COUNT(*) FROM clean WHERE <condition of c>`. */
  function CheckCount(rows: seq<Trip>, c: Check): nat
  {
    CountIf(rows, t => Violates(c, t))
  }

  /** Every verification query finds nothing in a cleaned table. */
  lemma CheckCountsZero(rows: seq<Trip>, c: Check)
    ensures CheckCount(CleanRows(rows), c) == 0
  {
    var r := CleanRows(rows);
    forall i | 0 <= i < |r|
      ensures !Violates(c, r[i])
    {
      assert r[i] in r;
    }
  }

  // ---------------------------------------------------------------------
  // clean_table
  // ---------------------------------------------------------------------

  /** What clean_table reports: raw and clean row counts, and the four
      verification counts in order. */
  datatype CleanReport = CleanReport(before: nat, after: nat, checks: seq<nat>)

  /** clean_table as a function of the database. */
  function CleanStage(s: Catalog, raw: string, clean: string): StageOutcome<CleanReport>
  {
    if raw !in s then StageOutcome(s, Err(MissingTable(raw)))
    else if ResolveRoles(Columns(s[raw])).None? then StageOutcome(s, Err(MissingColumns(raw)))
    else
      var s1 := s - {clean};
      if raw !in s1 then StageOutcome(s1, Err(MissingTable(raw)))
      else if !s1[raw].TripTable? then StageOutcome(s1, Err(QueryFailed(raw)))
      else
        var rows := CleanRows(s1[raw].trips);
        var s2 := s1[clean := TripTable(s1[raw].columns, rows)];
        var counts := seq(|Checks|, i requires 0 <= i < |Checks| => CheckCount(rows, Checks[i]));
        StageOutcome(s2, Ok(CleanReport(RowCount(s2[raw]), |rows|, counts)))
  }

  /** When the raw table is missing or a role does not resolve, clean_table
      raises before the drop and the database is unchanged. */
  lemma CleanFailsBeforeDrop(s: Catalog, raw: string, clean: string)
    requires raw !in s || ResolveRoles(Columns(s[raw])).None?
    ensures CleanStage(s, raw, clean).tables == s
    ensures CleanStage(s, raw, clean).result.Err?
  {
  }

  /** After a successful clean_table, the clean table holds exactly the
      distinct raw rows that pass the filter, with the raw table's columns;
      every verification count is zero; no other table changed. */
  lemma CleanStageContents(s: Catalog, raw: string, clean: string)
    requires CleanStage(s, raw, clean).result.Ok?
    ensures raw != clean && raw in s && s[raw].TripTable?
    ensures var o := CleanStage(s, raw, clean);
      && clean in o.tables && o.tables[clean] == TripTable(s[raw].columns, CleanRows(s[raw].trips))
      && (forall t :: t in o.tables[clean].trips ==> KeepTrip(t))
      && NoDup(o.tables[clean].trips)
      && (forall t :: t in o.tables[clean].trips <==> t in s[raw].trips && KeepTrip(t))
      && o.result.value.before == |s[raw].trips|
      && o.result.value.after == |CleanRows(s[raw].trips)| <= o.result.value.before
      && o.result.value.checks == [0, 0, 0, 0]
      && (forall n :: n != clean ==> (n in o.tables <==> n in s))
      && (forall n :: n in s && n != clean ==> o.tables[n] == s[n])
  {
    var rows := CleanRows(s[raw].trips);
    var counts := seq(|Checks|, i requires 0 <= i < |Checks| => CheckCount(rows, Checks[i]));
    forall i | 0 <= i < |Checks|
      ensures counts[i] == 0
    {
      CheckCountsZero(s[raw].trips, Checks[i]);
    }
  }

  /** Running clean_table again on an unchanged raw table leaves the database
      as the first run left it and reports the same counts. */
  lemma CleanStageIdempotent(s: Catalog, raw: string, clean: string)
    requires raw != clean
    ensures CleanStage(CleanStage(s, raw, clean).tables, raw, clean) == CleanStage(s, raw, clean)
  {
    var o := CleanStage(s, raw, clean);
    if o.result.Ok? {
      var s2 := o.tables;
      assert (s2 - {clean})[clean := s2[clean]] == s2;
    }
  }

  /** The loop over the verification queries: one count per check, in order;
      on cleaned rows every count is zero. */
  method RunChecks(rows: seq<Trip>) returns (counts: seq<nat>)
    ensures |counts| == |Checks|
    ensures forall i :: 0 <= i < |Checks| ==> counts[i] == CheckCount(rows, Checks[i])
  {
    counts := [];
    for k := 0 to |Checks|
      invariant |counts| == k
      invariant forall i :: 0 <= i < k ==> counts[i] == CheckCount(rows, Checks[i])
    {
      counts := counts + [CheckCount(rows, Checks[k])];
    }
  }

  /** clean_table, statement by statement. */
  method CleanTable(con: Connection, raw: string, clean: string) returns (r: Result<CleanReport>)
    requires con.open && !con.readOnly
    modifies con
    ensures con.open
    ensures con.tables == CleanStage(old(con.tables), raw, clean).tables
    ensures r == CleanStage(old(con.tables), raw, clean).result
  {
    ghost var s0 := con.tables;
    var pickup := GetColumnName(con, raw, PickupCandidates);
    if pickup.Err? { return Err(pickup.error); }
    var dropoff := GetColumnName(con, raw, DropoffCandidates);
    var passenger := GetColumnName(con, raw, PassengerCandidates);
    var distance := GetColumnName(con, raw, DistanceCandidates);
    if pickup.value.None? || dropoff.value.None? || passenger.value.None? || distance.value.None? {
      return Err(MissingColumns(raw));
    }
    assert ResolveRoles(Columns(s0[raw])).Some?;

    con.DropIfExists(clean);

    if raw !in con.tables {
      return Err(MissingTable(raw));
    }
    if !con.tables[raw].TripTable? {
      return Err(QueryFailed(raw));
    }
    var rows := CleanRows(con.tables[raw].trips);
    con.Create(clean, TripTable(con.tables[raw].columns, rows));
    assert con.tables == CleanStage(s0, raw, clean).tables;

    var before := RowCount(con.tables[raw]);
    var after := RowCount(con.tables[clean]);
    var counts := RunChecks(con.tables[clean].trips);
    assert counts == seq(|Checks|, i requires 0 <= i < |Checks| => CheckCount(rows, Checks[i]));
    return Ok(CleanReport(before, after, counts));
  }

  // ---------------------------------------------------------------------
  // main
  // ---------------------------------------------------------------------

  /** clean.py's main: yellow, then green; an exception ends the run. */
  function CleanMainStage(s: Catalog): StageOutcome<(CleanReport, CleanReport)>
  {
    var y := CleanStage(s, Yellow.RawTable(), Yellow.CleanTable());
    if y.result.Err? then StageOutcome(y.tables, Err(y.result.error))
    else
      var g := CleanStage(y.tables, Green.RawTable(), Green.CleanTable());
      if g.result.Err? then StageOutcome(g.tables, Err(g.result.error))
      else StageOutcome(g.tables, Ok((y.result.value, g.result.value)))
  }

  /** Yellow is cleaned first, and a failure there stops the run before green
      is touched; when both succeed, each fleet's clean table holds the
      distinct rows of its own raw table that pass the filter. */
  lemma CleanMainSpec(s: Catalog)
    ensures CleanStage(s, Yellow.RawTable(), Yellow.CleanTable()).result.Err? ==>
      CleanMainStage(s).tables == CleanStage(s, Yellow.RawTable(), Yellow.CleanTable()).tables
      && CleanMainStage(s).result.Err?
    ensures CleanMainStage(s).result.Ok? ==>
      var o := CleanMainStage(s);
      && (forall f: Fleet :: f.RawTable() in s && s[f.RawTable()].TripTable?)
      && (forall f: Fleet :: f.CleanTable() in o.tables &&
            o.tables[f.CleanTable()] == TripTable(s[f.RawTable()].columns, CleanRows(s[f.RawTable()].trips)))
      && o.result.value.0.checks == [0, 0, 0, 0] && o.result.value.1.checks == [0, 0, 0, 0]
  {
    var y := CleanStage(s, Yellow.RawTable(), Yellow.CleanTable());
    if y.result.Ok? {
      CleanStageContents(s, Yellow.RawTable(), Yellow.CleanTable());
      var g := CleanStage(y.tables, Green.RawTable(), Green.CleanTable());
      if g.result.Ok? {
        CleanStageContents(y.tables, Green.RawTable(), Green.CleanTable());
        forall f: Fleet
          ensures f.RawTable() in s && s[f.RawTable()].TripTable?
        {
          if f == Green {
            assert Green.RawTable() != Yellow.CleanTable();
          }
        }
      }
    }
  }

  /** clean.py's main: yellow before green. The connection is closed only
      when both succeed; an exception leaves it to the interpreter. */
  method CleanMain(db: Catalog) returns (con: Connection, r: Result<(CleanReport, CleanReport)>)
    ensures con.tables == CleanMainStage(db).tables && r == CleanMainStage(db).result
    ensures con.open <==> r.Err?
  {
    con := new Connection.Connect(db, false);
    var y := CleanTable(con, Yellow.RawTable(), Yellow.CleanTable());
    if y.Err? { return con, Err(y.error); }
    var g := CleanTable(con, Green.RawTable(), Green.CleanTable());
    if g.Err? { return con, Err(g.error); }
    con.Close();
    return con, Ok((y.value, g.value));
  }
}
