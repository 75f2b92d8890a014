/** The embedded analytical store as the pipeline sees it: named tables of
    trip rows, derived trip rows or emission factors, reached through a
    connection whose statements replace whole tables or append to them. */
module Store {
  import opened Text

  datatype Option<T> = None | Some(value: T)

  /** A timestamp, with the calendar fields the store's date functions
      extract from it taken as given: whole seconds since an epoch, the
      year, hour (0-23), day of week (0 = Sunday), week number
      (`date_part('week', ...)`, 1-53) and month (1-12). */
  datatype Instant = Instant(second: int, year: int, hour: int, dayOfWeek: int, week: int, month: int)

  /** The calendar fields lie in the ranges the store's date functions produce. */
  predicate WellFormedInstant(t: Instant)
  {
    0 <= t.hour < 24 && 0 <= t.dayOfWeek < 7 && 1 <= t.week <= 53 && 1 <= t.month <= 12
  }

  /** One raw or clean trip row: the four columns the pipeline reads, and the
      values of every other column of the fleet's schema. */
  datatype Trip = Trip(passengers: int, distance: real, pickup: Instant, dropoff: Instant, others: seq<int>)

  /** `date_diff('second', pickup, dropoff)`. */
  function DurationSeconds(t: Trip): int
  {
    t.dropoff.second - t.pickup.second
  }

  /** One row of a transformed table: every clean column (`t.*`) plus the six
      derived columns. NULL is None. */
  datatype DerivedTrip = DerivedTrip(
    trip: Trip,
    co2Kgs: Option<real>,
    avgMph: Option<real>,
    hourOfDay: int,
    dayOfWeek: int,
    weekOfYear: int,
    monthOfYear: int)

  /** The calendar fields lie in the ranges a well-formed pickup gives them:
      hour 0-23, day 0-6, week 0-52, month 1-12. */
  predicate InRange(d: DerivedTrip)
  {
    0 <= d.hourOfDay < 24 && 0 <= d.dayOfWeek < 7 && 0 <= d.weekOfYear <= 52 && 1 <= d.monthOfYear <= 12
  }

  /** One row of the emission-factor lookup table. */
  datatype EmissionFactor = EmissionFactor(vehicleType: string, co2GramsPerMile: real)

  datatype Table =
    | TripTable(columns: seq<string>, trips: seq<Trip>)
    | DerivedTable(columns: seq<string>, derived: seq<DerivedTrip>)
    | FactorTable(factors: seq<EmissionFactor>)

  /** The column names `PRAGMA table_info` reports for a table. */
  function Columns(t: Table): seq<string>
  {
    match t
    case TripTable(cols, _) => cols
    case DerivedTable(cols, _) => cols
    case FactorTable(_) => ["vehicle_type", "co2_grams_per_mile"]
  }

  /** A query may name the column: identifiers match ignoring case. */
  predicate HasColumn(cols: seq<string>, name: string)
  {
    exists j :: 0 <= j < |cols| && EqualsIgnoreCase(cols[j], name)
  }

  /** `SELECT COUNT(*) FROM t`. */
  function RowCount(t: Table): nat
  {
    match t
    case TripTable(_, rows) => |rows|
    case DerivedTable(_, rows) => |rows|
    case FactorTable(rows) => |rows|
  }

  /** The database: table name to table. */
  type Catalog = map<string, Table>

  /** The errors a stage can end with. */
  datatype Error =
    | MissingTable(name: string)      // a statement names a table that does not exist
    | MissingColumns(table: string)   // a column role could not be resolved (ValueError)
    | QueryFailed(table: string)      // a query names a column or reads rows its table does not have
    | MissingInput                    // no trip files for a fleet (FileNotFoundError)
    | ReadFailed(path: string)        // a source file could not be read
    | FormatFailed(table: string)     // a NULL value printed with a numeric format (TypeError)

  datatype Result<T> = Ok(value: T) | Err(error: Error)

  /** What a stage leaves in the database, and what it returns or raises. */
  datatype StageOutcome<T> = StageOutcome(tables: Catalog, result: Result<T>)

  /** A connection to the database. Every statement is its own atomic step;
      there is no transaction spanning several of them. */
  class Connection {
    var tables: Catalog
    var open: bool
    const readOnly: bool

    /** `duckdb.connect(path, read_only=...)` on a database holding `tables`. */
    constructor Connect(tables: Catalog, readOnly: bool)
      ensures this.tables == tables && open && this.readOnly == readOnly
    {
      this.tables := tables;
      this.open := true;
      this.readOnly := readOnly;
    }

    /** `DROP TABLE IF EXISTS name`. */
    method DropIfExists(name: string)
      requires open && !readOnly
      modifies this
      ensures open && tables == old(tables) - {name}
    {
      tables := tables - {name};
    }

    /** `CREATE TABLE name AS <query>`, the query's result being `t`. */
    method Create(name: string, t: Table)
      requires open && !readOnly && name !in tables
      modifies this
      ensures open && tables == old(tables)[name := t]
    {
      tables := tables[name := t];
    }

    /** `INSERT INTO name SELECT * FROM read_parquet(...)`: the rows are
        appended when the file has as many columns as the table, and the
        statement fails, changing nothing, otherwise. */
    method InsertRows(name: string, columns: seq<string>, rows: seq<Trip>) returns (ok: bool)
      requires open && !readOnly && name in tables && tables[name].TripTable?
      modifies this
      ensures open
      ensures ok <==> |columns| == |old(tables)[name].columns|
      ensures tables == if ok then old(tables)[name := TripTable(old(tables)[name].columns, old(tables)[name].trips + rows)]
                        else old(tables)
    {
      ok := |columns| == |tables[name].columns|;
      if ok {
        tables := tables[name := TripTable(tables[name].columns, tables[name].trips + rows)];
      }
    }

    /** `con.close()`; the database keeps its tables. */
    method Close()
      modifies this
      ensures !open && tables == old(tables)
    {
      open := false;
    }
  }
}
