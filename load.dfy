/** The ingestion stage (load.py): drop the three source tables, rebuild each
    fleet's raw table from its parquet files taken in sorted path order, load
    the emission-factor lookup, report the row counts, and close the
    connection whatever happened. */
module Load {
  import opened Store
  import opened Text
  import opened Sorting
  import opened Fleets

  /** One parquet file as the store reads it: its path, its column names and
      its rows. */
  datatype ParquetFile = ParquetFile(path: string, columns: seq<string>, rows: seq<Trip>)

  /** What the stage prints on success: the three `COUNT(*)` values. */
  datatype LoadReport = LoadReport(yellowCount: nat, greenCount: nat, emissionsCount: nat)

  const EmissionsCsv: string := "data/vehicle_emissions.csv"

  // ---------------------------------------------------------------------
  // sorted(glob(...))
  // ---------------------------------------------------------------------

  /** Files compare by path, as Python compares strings. */
  predicate PathLeq(a: ParquetFile, b: ParquetFile)
  {
    LexLeq(a.path, b.path)
  }

  lemma PathLeqTotalPreorder()
    ensures TotalPreorder(PathLeq)
  {
    forall a: ParquetFile, b: ParquetFile, c: ParquetFile
      ensures PathLeq(a, b) || PathLeq(b, a)
      ensures PathLeq(a, b) && PathLeq(b, c) ==> PathLeq(a, c)
    {
      LexLeqTotalOrder(a.path, b.path, c.path);
    }
  }

  /** `sorted(...)` of the matched files. */
  function SortByPath(files: seq<ParquetFile>): seq<ParquetFile>
  {
    Sort(files, PathLeq)
  }

  /** A directory listing names each file once. */
  ghost predicate DistinctPaths(files: seq<ParquetFile>)
  {
    forall i, j :: 0 <= i < |files| && 0 <= j < |files| && files[i].path == files[j].path ==> files[i] == files[j]
  }

  /** The sorted list is ordered by path and holds the same files. */
  lemma SortByPathSpec(files: seq<ParquetFile>)
    ensures var sorted := SortByPath(files);
      && multiset(sorted) == multiset(files)
      && forall i, j :: 0 <= i < j < |sorted| ==> LexLeq(sorted[i].path, sorted[j].path)
  {
    PathLeqTotalPreorder();
    SortSorts(files, PathLeq);
  }

  /** The order `glob` lists the files in does not matter: any two listings
      of the same files sort to the same sequence. */
  lemma SortByPathUnique(a: seq<ParquetFile>, b: seq<ParquetFile>)
    requires multiset(a) == multiset(b) && DistinctPaths(a)
    ensures SortByPath(a) == SortByPath(b)
  {
    var sa := SortByPath(a);
    var sb := SortByPath(b);
    PathLeqTotalPreorder();
    SortSorts(a, PathLeq);
    SortSorts(b, PathLeq);
    forall i, j | 0 <= i < |sa| && 0 <= j < |sa| && PathLeq(sa[i], sa[j]) && PathLeq(sa[j], sa[i])
      ensures sa[i] == sa[j]
    {
      LexLeqTotalOrder(sa[i].path, sa[j].path, sa[i].path);
      assert sa[i] in multiset(a) && sa[j] in multiset(a);
      var x :| 0 <= x < |a| && a[x] == sa[i];
      var y :| 0 <= y < |a| && a[y] == sa[j];
    }
    SortedUnique(sa, sb, PathLeq);
  }

  // ---------------------------------------------------------------------
  // The insert loops
  // ---------------------------------------------------------------------

  /** The rows of the files, one file after another. */
  function ConcatRows(files: seq<ParquetFile>): seq<Trip>
  {
    if |files| == 0 then [] else ConcatRows(files[..|files| - 1]) + files[|files| - 1].rows
  }

  /** The sum of the files' row counts. */
  function FileRowTotal(files: seq<ParquetFile>): nat
  {
    if |files| == 0 then 0 else |files[0].rows| + FileRowTotal(files[1..])
  }

  /** Each file's column count equals the table's. */
  predicate SameWidth(files: seq<ParquetFile>, columns: seq<string>)
  {
    forall i :: 0 <= i < |files| ==> |files[i].columns| == |columns|
  }

  /** The table's rows after the insert loop, and whether every insert ran. */
  datatype Appended = Appended(rows: seq<Trip>, ok: bool)

  /** `for f in files: INSERT INTO t SELECT * FROM read_parquet(f)` on a
      table with `columns` holding `rows`: each insert appends its file's
      rows, and the first file whose column count differs raises and ends
      the loop. */
  function InsertFiles(columns: seq<string>, rows: seq<Trip>, files: seq<ParquetFile>): Appended
  {
    if |files| == 0 then Appended(rows, true)
    else
      var before := InsertFiles(columns, rows, files[..|files| - 1]);
      var f := files[|files| - 1];
      if !before.ok then before
      else if |f.columns| == |columns| then Appended(before.rows + f.rows, true)
      else Appended(before.rows, false)
  }

  /** The loop runs to the end exactly when every file has the table's width,
      and then it has appended every file's rows in order. */
  lemma {:induction false} InsertFilesAll(columns: seq<string>, rows: seq<Trip>, files: seq<ParquetFile>)
    ensures InsertFiles(columns, rows, files).ok <==> SameWidth(files, columns)
    ensures InsertFiles(columns, rows, files).ok ==> InsertFiles(columns, rows, files).rows == rows + ConcatRows(files)
  {
    if |files| > 0 {
      var init := files[..|files| - 1];
      InsertFilesAll(columns, rows, init);
      assert forall i :: 0 <= i < |init| ==> init[i] == files[i];
    }
  }

  /** When the loop stops early, the files before the first one of another
      width have been appended, and nothing after it. */
  lemma {:induction false} InsertFilesStops(columns: seq<string>, rows: seq<Trip>, files: seq<ParquetFile>, k: nat)
    requires k < |files| && |files[k].columns| != |columns| && SameWidth(files[..k], columns)
    ensures InsertFiles(columns, rows, files) == Appended(rows + ConcatRows(files[..k]), false)
  {
    var init := files[..|files| - 1];
    if k == |files| - 1 {
      assert init == files[..k];
      InsertFilesAll(columns, rows, init);
    } else {
      assert init[..k] == files[..k];
      InsertFilesStops(columns, rows, init, k);
    }
  }

  /** An insert that fails ends the loop with the rows inserted so far. */
  lemma InsertFilesStopsHere(columns: seq<string>, files: seq<ParquetFile>, i: nat)
    requires i < |files| && InsertFiles(columns, [], files[..i]).ok && |files[i].columns| != |columns|
    ensures InsertFiles(columns, [], files) == Appended(InsertFiles(columns, [], files[..i]).rows, false)
  {
    InsertFilesAll(columns, [], files[..i]);
    InsertFilesStops(columns, [], files, i);
  }

  lemma {:induction false} FileRowTotalSnoc(files: seq<ParquetFile>)
    requires |files| > 0
    ensures FileRowTotal(files) == FileRowTotal(files[..|files| - 1]) + |files[|files| - 1].rows|
  {
    if |files| > 1 {
      assert files[1..][..|files[1..]| - 1] == files[..|files| - 1][1..];
      FileRowTotalSnoc(files[1..]);
    }
  }

  /** The concatenation has as many rows as the files together. */
  lemma {:induction false} ConcatRowsCount(files: seq<ParquetFile>)
    ensures |ConcatRows(files)| == FileRowTotal(files)
  {
    if |files| > 0 {
      ConcatRowsCount(files[..|files| - 1]);
      FileRowTotalSnoc(files);
    }
  }

  lemma {:induction false} FileRowTotalInsert(x: ParquetFile, s: seq<ParquetFile>)
    ensures FileRowTotal(Insert(x, s, PathLeq)) == |x.rows| + FileRowTotal(s)
  {
    if |s| > 0 && !PathLeq(x, s[0]) {
      FileRowTotalInsert(x, s[1..]);
      assert ([s[0]] + Insert(x, s[1..], PathLeq))[1..] == Insert(x, s[1..], PathLeq);
    } else if |s| > 0 {
      assert ([x] + s)[1..] == s;
    }
  }

  /** Sorting the files does not change their total row count. */
  lemma {:induction false} FileRowTotalSorted(files: seq<ParquetFile>)
    ensures FileRowTotal(SortByPath(files)) == FileRowTotal(files)
  {
    if |files| > 0 {
      FileRowTotalSorted(files[1..]);
      FileRowTotalInsert(files[0], SortByPath(files[1..]));
    }
  }

  // ---------------------------------------------------------------------
  // The stats loop
  // ---------------------------------------------------------------------

  /** The pickup column the stats query reads: `tpep_pickup_datetime` for a
      table whose name contains "yellow", `lpep_pickup_datetime` otherwise. */
  function StatsPickupColumn(table: string): string
  {
    if Contains(table, "yellow") then "tpep_pickup_datetime" else "lpep_pickup_datetime"
  }

  /** Each raw table gets its own fleet's pickup column. */
  lemma StatsPickupColumnOfFleet(f: Fleet)
    ensures StatsPickupColumn(f.RawTable()) == f.PickupColumn()
  {
    if f == Yellow {
      assert OccursAt(Yellow.RawTable(), "yellow", 0);
    } else {
      var t := Green.RawTable();
      assert 'y' !in t;
      forall i | 0 <= i <= |t| - |"yellow"|
        ensures !OccursAt(t, "yellow", i)
      {
        assert t[i] in t;
        assert t[i..i + 6][0] == t[i];
      }
    }
  }

  /** The columns the two stats queries of a table name. */
  function StatsColumns(table: string): seq<string>
  {
    ["trip_distance", "passenger_count", StatsPickupColumn(table)]
  }

  /** The stats queries of a table with `columns` run when every column they
      name is there. */
  predicate StatsRun(table: string, columns: seq<string>)
  {
    forall i :: 0 <= i < |StatsColumns(table)| ==> HasColumn(columns, StatsColumns(table)[i])
  }

  /** The stats loop over the two raw tables: the first one whose queries
      fail, if any. */
  function StatsFailure(s: Catalog, tables: seq<string>): (r: Option<string>)
    requires forall i :: 0 <= i < |tables| ==> tables[i] in s && s[tables[i]].TripTable?
    ensures r.None? <==> forall i :: 0 <= i < |tables| ==> StatsRun(tables[i], s[tables[i]].columns)
    ensures r.Some? ==> exists i :: 0 <= i < |tables| && r.value == tables[i] && !StatsRun(tables[i], s[tables[i]].columns)
  {
    if |tables| == 0 then None
    else if !StatsRun(tables[0], s[tables[0]].columns) then Some(tables[0])
    else
      var rest := StatsFailure(s, tables[1..]);
      assert forall i :: 0 <= i < |tables| - 1 ==> tables[1..][i] == tables[i + 1];
      rest
  }

  /** The loop reports the first table whose queries fail. */
  lemma {:induction false} StatsFailureFirst(s: Catalog, tables: seq<string>, k: nat)
    requires forall i :: 0 <= i < |tables| ==> tables[i] in s && s[tables[i]].TripTable?
    requires k < |tables| && !StatsRun(tables[k], s[tables[k]].columns)
    requires forall j :: 0 <= j < k ==> StatsRun(tables[j], s[tables[j]].columns)
    ensures StatsFailure(s, tables) == Some(tables[k])
  {
    if k > 0 {
      assert forall i :: 0 <= i < |tables| - 1 ==> tables[1..][i] == tables[i + 1];
      StatsFailureFirst(s, tables[1..], k - 1);
    }
  }

  // ---------------------------------------------------------------------
  // load_parquet_files
  // ---------------------------------------------------------------------

  const SourceTables: set<string> := {Yellow.RawTable(), Green.RawTable(), EmissionsTable}

  /** The body of the `try` block on a database holding `s`: what the store
      holds when the body ends, by finishing or by raising, and the counts
      it printed or the error it caught. `emissions` is None when the CSV
      cannot be read. */
  function LoadStage(s: Catalog, yellowFiles: seq<ParquetFile>, greenFiles: seq<ParquetFile>,
                     emissions: Option<seq<EmissionFactor>>): StageOutcome<LoadReport>
  {
    var s1 := s - SourceTables;
    var ys := SortByPath(yellowFiles);
    var gs := SortByPath(greenFiles);
    if |ys| == 0 || |gs| == 0 then StageOutcome(s1, Err(MissingInput))
    else LoadFiles(s1, ys, gs, emissions)
  }

  /** From the two `CREATE TABLE ... LIMIT 0` statements on: both raw tables
      created empty with their first file's columns, the yellow files
      inserted, then the green files, then the lookup. */
  function LoadFiles(s1: Catalog, ys: seq<ParquetFile>, gs: seq<ParquetFile>,
                     emissions: Option<seq<EmissionFactor>>): StageOutcome<LoadReport>
    requires |ys| > 0 && |gs| > 0
  {
    var yellow := Yellow.RawTable();
    var green := Green.RawTable();
    var s2 := s1[yellow := TripTable(ys[0].columns, [])][green := TripTable(gs[0].columns, [])];
    var y := InsertFiles(ys[0].columns, [], ys);
    var s3 := s2[yellow := TripTable(ys[0].columns, y.rows)];
    if !y.ok then StageOutcome(s3, Err(QueryFailed(yellow)))
    else
      var g := InsertFiles(gs[0].columns, [], gs);
      var s4 := s3[green := TripTable(gs[0].columns, g.rows)];
      if !g.ok then StageOutcome(s4, Err(QueryFailed(green)))
      else LoadLookup(s4, emissions)
  }

  /** The lookup table from the CSV, the three counts and the stats loop. */
  function LoadLookup(s4: Catalog, emissions: Option<seq<EmissionFactor>>): StageOutcome<LoadReport>
    requires Yellow.RawTable() in s4 && s4[Yellow.RawTable()].TripTable?
    requires Green.RawTable() in s4 && s4[Green.RawTable()].TripTable?
  {
    var yellow := Yellow.RawTable();
    var green := Green.RawTable();
    if emissions.None? then StageOutcome(s4, Err(ReadFailed(EmissionsCsv)))
    else
      var s5 := s4[EmissionsTable := FactorTable(emissions.value)];
      var report := LoadReport(RowCount(s5[yellow]), RowCount(s5[green]), RowCount(s5[EmissionsTable]));
      match StatsFailure(s5, [yellow, green])
      case Some(t) => StageOutcome(s5, Err(QueryFailed(t)))
      case None => StageOutcome(s5, Ok(report))
  }

  /** Tables other than the three source tables are left as they were. */
  lemma LoadStageFrame(s: Catalog, yellowFiles: seq<ParquetFile>, greenFiles: seq<ParquetFile>,
                       emissions: Option<seq<EmissionFactor>>)
    ensures var t := LoadStage(s, yellowFiles, greenFiles, emissions).tables;
      t - SourceTables == s - SourceTables
  {
    var ys := SortByPath(yellowFiles);
    var gs := SortByPath(greenFiles);
    if |ys| > 0 && |gs| > 0 {
      LoadFilesFrame(s - SourceTables, ys, gs, emissions);
    }
  }

  lemma LoadFilesFrame(s1: Catalog, ys: seq<ParquetFile>, gs: seq<ParquetFile>, emissions: Option<seq<EmissionFactor>>)
    requires |ys| > 0 && |gs| > 0
    ensures LoadFiles(s1, ys, gs, emissions).tables - SourceTables == s1 - SourceTables
  {
    var t := LoadFiles(s1, ys, gs, emissions).tables;
    assert forall n :: n in t && n !in SourceTables ==> n in s1 && t[n] == s1[n];
    assert forall n :: n in s1 && n !in SourceTables ==> n in t;
  }

  /** The outcome depends on the database only through the tables other than
      the three source tables. */
  lemma LoadStageIgnoresOldSources(s: Catalog, s': Catalog, yellowFiles: seq<ParquetFile>,
                                   greenFiles: seq<ParquetFile>, emissions: Option<seq<EmissionFactor>>)
    requires s - SourceTables == s' - SourceTables
    ensures LoadStage(s, yellowFiles, greenFiles, emissions) == LoadStage(s', yellowFiles, greenFiles, emissions)
  {
  }

  /** The tables are replaced, not appended to: running the stage a second
      time on the same files leaves the same database and report. */
  lemma LoadStageIdempotent(s: Catalog, yellowFiles: seq<ParquetFile>, greenFiles: seq<ParquetFile>,
                            emissions: Option<seq<EmissionFactor>>)
    ensures var first := LoadStage(s, yellowFiles, greenFiles, emissions);
      LoadStage(first.tables, yellowFiles, greenFiles, emissions) == first
  {
    var first := LoadStage(s, yellowFiles, greenFiles, emissions);
    LoadStageFrame(s, yellowFiles, greenFiles, emissions);
    LoadStageIgnoresOldSources(first.tables, s, yellowFiles, greenFiles, emissions);
  }

  /** Without files for either fleet the stage fails after the drop: none of
      the three tables exists and nothing else has changed. */
  lemma LoadStageMissingInput(s: Catalog, yellowFiles: seq<ParquetFile>, greenFiles: seq<ParquetFile>,
                              emissions: Option<seq<EmissionFactor>>)
    requires |yellowFiles| == 0 || |greenFiles| == 0
    ensures var out := LoadStage(s, yellowFiles, greenFiles, emissions);
      && out.result == Err(MissingInput)
      && out.tables == s - SourceTables
  {
  }

  /** The stage succeeds exactly when both fleets have files, every file has
      its first sorted file's width, the CSV can be read and the stats
      queries find their columns. */
  lemma LoadStageSucceedsWhen(s: Catalog, yellowFiles: seq<ParquetFile>, greenFiles: seq<ParquetFile>,
                              emissions: Option<seq<EmissionFactor>>)
    ensures var ys := SortByPath(yellowFiles);
      var gs := SortByPath(greenFiles);
      LoadStage(s, yellowFiles, greenFiles, emissions).result.Ok? <==>
        && |yellowFiles| > 0 && |greenFiles| > 0
        && SameWidth(ys, ys[0].columns) && SameWidth(gs, gs[0].columns)
        && emissions.Some?
        && StatsRun(Yellow.RawTable(), ys[0].columns) && StatsRun(Green.RawTable(), gs[0].columns)
  {
    var ys := SortByPath(yellowFiles);
    var gs := SortByPath(greenFiles);
    if |ys| > 0 && |gs| > 0 {
      InsertFilesAll(ys[0].columns, [], ys);
      InsertFilesAll(gs[0].columns, [], gs);
      var y := InsertFiles(ys[0].columns, [], ys);
      var g := InsertFiles(gs[0].columns, [], gs);
      if y.ok && g.ok && emissions.Some? {
        var s4 := (s - SourceTables)[Yellow.RawTable() := TripTable(ys[0].columns, [])]
                                    [Green.RawTable() := TripTable(gs[0].columns, [])]
                                    [Yellow.RawTable() := TripTable(ys[0].columns, y.rows)]
                                    [Green.RawTable() := TripTable(gs[0].columns, g.rows)];
        var s5 := s4[EmissionsTable := FactorTable(emissions.value)];
        assert s5[Yellow.RawTable()].columns == ys[0].columns;
        assert s5[Green.RawTable()].columns == gs[0].columns;
        assert LoadFiles(s - SourceTables, ys, gs, emissions) == LoadLookup(s4, emissions);
        var t := [Yellow.RawTable(), Green.RawTable()];
        assert StatsFailure(s5, t).None? <==> StatsRun(t[0], s5[t[0]].columns) && StatsRun(t[1], s5[t[1]].columns);
      }
    }
  }

  /** On success each raw table has its first sorted file's columns and the
      rows of all its files in sorted path order, the counts are the files'
      total row counts and the lookup holds the CSV's rows. */
  lemma LoadStageContents(s: Catalog, yellowFiles: seq<ParquetFile>, greenFiles: seq<ParquetFile>,
                          emissions: Option<seq<EmissionFactor>>)
    requires LoadStage(s, yellowFiles, greenFiles, emissions).result.Ok?
    ensures var out := LoadStage(s, yellowFiles, greenFiles, emissions);
      var ys := SortByPath(yellowFiles);
      var gs := SortByPath(greenFiles);
      && |ys| > 0 && |gs| > 0 && emissions.Some?
      && out.tables == (s - SourceTables)[Yellow.RawTable() := TripTable(ys[0].columns, ConcatRows(ys))]
                                         [Green.RawTable() := TripTable(gs[0].columns, ConcatRows(gs))]
                                         [EmissionsTable := FactorTable(emissions.value)]
      && out.result.value == LoadReport(FileRowTotal(yellowFiles), FileRowTotal(greenFiles), |emissions.value|)
  {
    var ys := SortByPath(yellowFiles);
    var gs := SortByPath(greenFiles);
    InsertFilesAll(ys[0].columns, [], ys);
    InsertFilesAll(gs[0].columns, [], gs);
    assert [] + ConcatRows(ys) == ConcatRows(ys);
    assert [] + ConcatRows(gs) == ConcatRows(gs);
    ConcatRowsCount(ys);
    ConcatRowsCount(gs);
    FileRowTotalSorted(yellowFiles);
    FileRowTotalSorted(greenFiles);
  }

  /** A yellow file of another width fails the stage at that file: the yellow
      table holds the rows of the files sorted before it, the green table
      exists but is empty, and the lookup is not loaded. */
  lemma LoadStageYellowFails(s: Catalog, yellowFiles: seq<ParquetFile>, greenFiles: seq<ParquetFile>,
                             emissions: Option<seq<EmissionFactor>>, k: nat)
    requires |greenFiles| > 0
    requires var ys := SortByPath(yellowFiles);
      k < |ys| && |ys[k].columns| != |ys[0].columns| && SameWidth(ys[..k], ys[0].columns)
    ensures var out := LoadStage(s, yellowFiles, greenFiles, emissions);
      var ys := SortByPath(yellowFiles);
      var gs := SortByPath(greenFiles);
      && out.result == Err(QueryFailed(Yellow.RawTable()))
      && out.tables == (s - SourceTables)[Yellow.RawTable() := TripTable(ys[0].columns, ConcatRows(ys[..k]))]
                                         [Green.RawTable() := TripTable(gs[0].columns, [])]
  {
    var ys := SortByPath(yellowFiles);
    var gs := SortByPath(greenFiles);
    InsertFilesStops(ys[0].columns, [], ys, k);
    assert [] + ConcatRows(ys[..k]) == ConcatRows(ys[..k]);
    var m := s - SourceTables;
    var y1 := TripTable(ys[0].columns, []);
    var y2 := TripTable(ys[0].columns, ConcatRows(ys[..k]));
    var g1 := TripTable(gs[0].columns, []);
    assert m[Yellow.RawTable() := y1][Green.RawTable() := g1][Yellow.RawTable() := y2]
        == m[Yellow.RawTable() := y2][Green.RawTable() := g1];
  }

  /** One insert loop: `for f in files: INSERT INTO name SELECT * FROM
      read_parquet(f)` on a table created empty with `columns`. */
  method InsertAll(con: Connection, name: string, columns: seq<string>, files: seq<ParquetFile>) returns (ok: bool)
    requires con.open && !con.readOnly && name in con.tables && con.tables[name] == TripTable(columns, [])
    modifies con
    ensures con.open
    ensures ok == InsertFiles(columns, [], files).ok
    ensures con.tables == old(con.tables)[name := TripTable(columns, InsertFiles(columns, [], files).rows)]
  {
    ghost var s := con.tables;
    for i := 0 to |files|
      invariant con.open
      invariant InsertFiles(columns, [], files[..i]).ok
      invariant con.tables == s[name := TripTable(columns, InsertFiles(columns, [], files[..i]).rows)]
    {
      assert files[..i + 1][..i] == files[..i];
      ok := con.InsertRows(name, files[i].columns, files[i].rows);
      if !ok {
        InsertFilesStopsHere(columns, files, i);
        return;
      }
    }
    assert files[..|files|] == files;
    ok := true;
  }

  /** The stats loop: run both queries on each table in turn; the first
      table whose queries fail, if any. */
  method RunStats(con: Connection, tables: seq<string>) returns (failed: Option<string>)
    requires forall i :: 0 <= i < |tables| ==> tables[i] in con.tables && con.tables[tables[i]].TripTable?
    ensures failed == StatsFailure(con.tables, tables)
  {
    for k := 0 to |tables|
      invariant forall j :: 0 <= j < k ==> StatsRun(tables[j], con.tables[tables[j]].columns)
    {
      var table := tables[k];
      if !StatsRun(table, con.tables[table].columns) {
        StatsFailureFirst(con.tables, tables, k);
        return Some(table);
      }
    }
    return None;
  }

  /** `load_parquet_files`'s `try` block, statement by statement, on an open
      writable connection. */
  method LoadBody(con: Connection, yellowFiles: seq<ParquetFile>, greenFiles: seq<ParquetFile>,
                  emissions: Option<seq<EmissionFactor>>) returns (r: Result<LoadReport>)
    requires con.open && !con.readOnly
    modifies con
    ensures con.open
    ensures con.tables == LoadStage(old(con.tables), yellowFiles, greenFiles, emissions).tables
    ensures r == LoadStage(old(con.tables), yellowFiles, greenFiles, emissions).result
  {
    con.DropIfExists(Yellow.RawTable());
    con.DropIfExists(Green.RawTable());
    con.DropIfExists(EmissionsTable);
    assert con.tables == old(con.tables) - SourceTables;
    var ys := SortByPath(yellowFiles);
    var gs := SortByPath(greenFiles);
    if |ys| == 0 || |gs| == 0 {
      return Err(MissingInput);
    }
    r := LoadFilesStep(con, ys, gs, emissions);
  }

  /** The statements from the two `CREATE TABLE ... LIMIT 0` on. */
  method LoadFilesStep(con: Connection, ys: seq<ParquetFile>, gs: seq<ParquetFile>,
                       emissions: Option<seq<EmissionFactor>>) returns (r: Result<LoadReport>)
    requires con.open && !con.readOnly && |ys| > 0 && |gs| > 0
    requires forall t :: t in SourceTables ==> t !in con.tables
    modifies con
    ensures con.open
    ensures con.tables == LoadFiles(old(con.tables), ys, gs, emissions).tables
    ensures r == LoadFiles(old(con.tables), ys, gs, emissions).result
  {
    var yellow := Yellow.RawTable();
    var green := Green.RawTable();
    con.Create(yellow, TripTable(ys[0].columns, []));
    con.Create(green, TripTable(gs[0].columns, []));
    var ok := InsertAll(con, yellow, ys[0].columns, ys);
    if !ok {
      return Err(QueryFailed(yellow));
    }
    ok := InsertAll(con, green, gs[0].columns, gs);
    if !ok {
      return Err(QueryFailed(green));
    }
    r := LoadLookupStep(con, emissions);
  }

  /** The `CREATE TABLE vehicle_emissions` statement, the count queries and
      the stats loop. */
  method LoadLookupStep(con: Connection, emissions: Option<seq<EmissionFactor>>) returns (r: Result<LoadReport>)
    requires con.open && !con.readOnly && EmissionsTable !in con.tables
    requires Yellow.RawTable() in con.tables && con.tables[Yellow.RawTable()].TripTable?
    requires Green.RawTable() in con.tables && con.tables[Green.RawTable()].TripTable?
    modifies con
    ensures con.open
    ensures con.tables == LoadLookup(old(con.tables), emissions).tables
    ensures r == LoadLookup(old(con.tables), emissions).result
  {
    var yellow := Yellow.RawTable();
    var green := Green.RawTable();
    if emissions.None? {
      return Err(ReadFailed(EmissionsCsv));
    }
    con.Create(EmissionsTable, FactorTable(emissions.value));
    var yellowCount := RowCount(con.tables[yellow]);
    var greenCount := RowCount(con.tables[green]);
    var emissionsCount := RowCount(con.tables[EmissionsTable]);
    var failed := RunStats(con, [yellow, green]);
    if failed.Some? {
      return Err(QueryFailed(failed.value));
    }
    r := Ok(LoadReport(yellowCount, greenCount, emissionsCount));
  }

  /** `load_parquet_files`: connect to the database holding `db`, run the
      body, and close the connection in `finally` whether the body finished
      or raised. The error is caught and reported, not raised again. */
  method LoadParquetFiles(db: Catalog, yellowFiles: seq<ParquetFile>, greenFiles: seq<ParquetFile>,
                          emissions: Option<seq<EmissionFactor>>) returns (con: Connection, r: Result<LoadReport>)
    ensures !con.open
    ensures con.tables == LoadStage(db, yellowFiles, greenFiles, emissions).tables
    ensures r == LoadStage(db, yellowFiles, greenFiles, emissions).result
  {
    con := new Connection.Connect(db, false);
    r := LoadBody(con, yellowFiles, greenFiles, emissions);
    con.Close();
  }
}
