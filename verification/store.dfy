/** The write path of `insert_cryptocurrencies`: a decoded market record is
    mapped to the 25 parameters of one `INSERT ... ON CONFLICT (id) DO UPDATE`
    statement against the `cryptocurrencies` table, and that statement is
    executed against a table modelled as a map from primary key to row. */
module Store {
  import opened Wrappers
  import opened Errors
  import opened Json

  /** The columns of the INSERT column list, in order. */
  datatype Column =
    | Id | Symbol | Name | CurrentPrice | MarketCap | MarketCapRank
    | FullyDilutedValuation | TotalVolume | High24h | Low24h | PriceChange24h
    | PriceChangePercentage24h | MarketCapChange24h | MarketCapChangePercentage24h
    | CirculatingSupply | TotalSupply | MaxSupply | Ath | AthChangePercentage
    | AthDate | Atl | AtlChangePercentage | AtlDate | Roi | LastUpdated

  /** The SQL column name, which is also the key the record is read under. */
  function ColumnName(c: Column): string {
    match c
    case Id => "id"
    case Symbol => "symbol"
    case Name => "name"
    case CurrentPrice => "current_price"
    case MarketCap => "market_cap"
    case MarketCapRank => "market_cap_rank"
    case FullyDilutedValuation => "fully_diluted_valuation"
    case TotalVolume => "total_volume"
    case High24h => "high_24h"
    case Low24h => "low_24h"
    case PriceChange24h => "price_change_24h"
    case PriceChangePercentage24h => "price_change_percentage_24h"
    case MarketCapChange24h => "market_cap_change_24h"
    case MarketCapChangePercentage24h => "market_cap_change_percentage_24h"
    case CirculatingSupply => "circulating_supply"
    case TotalSupply => "total_supply"
    case MaxSupply => "max_supply"
    case Ath => "ath"
    case AthChangePercentage => "ath_change_percentage"
    case AthDate => "ath_date"
    case Atl => "atl"
    case AtlChangePercentage => "atl_change_percentage"
    case AtlDate => "atl_date"
    case Roi => "roi"
    case LastUpdated => "last_updated"
  }

  /** The assignments of the `DO UPDATE SET` clause, in the order written:
      `c = EXCLUDED.c` for each `c`. */
  const UpdateColumns: seq<Column> := [
    Symbol, Name, CurrentPrice, MarketCap, MarketCapRank, FullyDilutedValuation,
    TotalVolume, High24h, Low24h, PriceChange24h, PriceChangePercentage24h,
    MarketCapChange24h, MarketCapChangePercentage24h, CirculatingSupply,
    TotalSupply, MaxSupply, Ath, AthChangePercentage, AthDate, Atl,
    AtlChangePercentage, AtlDate, Roi, LastUpdated
  ]

  /** Every column but the primary key. */
  predicate NonKey(c: Column) {
    c != Id
  }

  /** One stored row: its primary key and the values of the other columns.
      `Null` is SQL NULL; the `Roi` cell holds the JSON text as a `Str`. */
  datatype Row = Row(id: string, cells: map<Column, Value>)

  /** A row has a value, possibly NULL, for exactly the non-key columns. */
  predicate WellFormed(row: Row) {
    forall c :: c in row.cells <==> NonKey(c)
  }

  /** The `cryptocurrencies` table, keyed by `id`. */
  type Table = map<string, Row>

  /** The table's schema: each row sits under its own key and has every column. */
  predicate Schema(t: Table) {
    forall k :: k in t ==> t[k].id == k && WellFormed(t[k])
  }

  /** The `roi` parameter: the JSON text of the value when it is truthy, NULL otherwise. */
  function RoiParam(fields: map<string, Value>, dumps: Value -> string): Value {
    var roi := Get(fields, ColumnName(Roi));
    if Truthy(roi) then Str(dumps(roi)) else Null
  }

  /** The parameters bound to the non-key columns: each column receives the
      record's field of the same name, `roi` after encoding. */
  function Cells(fields: map<string, Value>, dumps: Value -> string): map<Column, Value> {
    map c | NonKey(c) :: if c == Roi then RoiParam(fields, dumps) else Get(fields, ColumnName(c))
  }

  /** The row one call of `insert_cryptocurrencies` writes, or the exception it
      raises before anything is written: `.get` on a value that is not a JSON
      object, or a primary key that is null or not text. */
  function RowOf(record: Value, dumps: Value -> string): (r: Result<Row, Error>)
    ensures r.Success? <==> record.Obj? && Get(record.fields, ColumnName(Id)).Str?
    ensures !record.Obj? ==> r == Failure(NotAMapping)
    ensures record.Obj? && Get(record.fields, ColumnName(Id)) == Null ==> r == Failure(NullId)
    ensures r.Success? ==> WellFormed(r.value)
    ensures r.Success? ==> r.value.id == record.fields[ColumnName(Id)].s
    ensures r.Success? ==>
              forall c :: c in r.value.cells && c != Roi ==> r.value.cells[c] == Get(record.fields, ColumnName(c))
    ensures r.Success? ==>
              var roi := Get(record.fields, ColumnName(Roi));
              && (r.value.cells[Roi] == Null <==> !Truthy(roi))
              && (Truthy(roi) ==> r.value.cells[Roi] == Str(dumps(roi)))
              && (roi == Obj(map[]) ==> r.value.cells[Roi] == Null)
  {
    match record
    case Obj(fields) =>
      var key := Get(fields, ColumnName(Id));
      if key.Str? then Success(Row(key.s, Cells(fields, dumps)))
      else if key == Null then Failure(NullId)
      else Failure(UnsupportedId)
    case _ => Failure(NotAMapping)
  }

  /** The value a row holds in a column; a column the row lacks reads as NULL. */
  function CellOf(cells: map<Column, Value>, c: Column): Value {
    if c in cells then cells[c] else Null
  }

  /** The `DO UPDATE SET` clause applied to the existing row's cells: each listed
      column takes the value the INSERT proposed (`EXCLUDED`), the others keep
      theirs. */
  function ApplySet(cells: map<Column, Value>, excluded: map<Column, Value>, targets: seq<Column>): (r: map<Column, Value>)
    ensures forall c :: c in r <==> c in cells || c in targets
    ensures forall c :: c in targets ==> r[c] == CellOf(excluded, c)
    ensures forall c :: c in cells && c !in targets ==> r[c] == cells[c]
    decreases |targets|
  {
    if targets == [] then cells
    else ApplySet(cells[targets[0] := CellOf(excluded, targets[0])], excluded, targets[1..])
  }

  /** The SET clause names every non-key column. */
  lemma UpdateCoversNonKey()
    ensures forall c :: NonKey(c) <==> c in UpdateColumns
  {
    forall c | NonKey(c) ensures c in UpdateColumns {
      match c
      case Symbol => assert UpdateColumns[0] == Symbol;
      case Name => assert UpdateColumns[1] == Name;
      case CurrentPrice => assert UpdateColumns[2] == CurrentPrice;
      case MarketCap => assert UpdateColumns[3] == MarketCap;
      case MarketCapRank => assert UpdateColumns[4] == MarketCapRank;
      case FullyDilutedValuation => assert UpdateColumns[5] == FullyDilutedValuation;
      case TotalVolume => assert UpdateColumns[6] == TotalVolume;
      case High24h => assert UpdateColumns[7] == High24h;
      case Low24h => assert UpdateColumns[8] == Low24h;
      case PriceChange24h => assert UpdateColumns[9] == PriceChange24h;
      case PriceChangePercentage24h => assert UpdateColumns[10] == PriceChangePercentage24h;
      case MarketCapChange24h => assert UpdateColumns[11] == MarketCapChange24h;
      case MarketCapChangePercentage24h => assert UpdateColumns[12] == MarketCapChangePercentage24h;
      case CirculatingSupply => assert UpdateColumns[13] == CirculatingSupply;
      case TotalSupply => assert UpdateColumns[14] == TotalSupply;
      case MaxSupply => assert UpdateColumns[15] == MaxSupply;
      case Ath => assert UpdateColumns[16] == Ath;
      case AthChangePercentage => assert UpdateColumns[17] == AthChangePercentage;
      case AthDate => assert UpdateColumns[18] == AthDate;
      case Atl => assert UpdateColumns[19] == Atl;
      case AtlChangePercentage => assert UpdateColumns[20] == AtlChangePercentage;
      case AtlDate => assert UpdateColumns[21] == AtlDate;
      case Roi => assert UpdateColumns[22] == Roi;
      case LastUpdated => assert UpdateColumns[23] == LastUpdated;
    }
    assert forall j :: 0 <= j < |UpdateColumns| ==> NonKey(UpdateColumns[j]);
  }

  /** A SET clause that names every non-key column replaces a complete row by
      the proposed one. */
  lemma SetClauseOverwrites(cells: map<Column, Value>, excluded: map<Column, Value>, targets: seq<Column>)
    requires forall c :: NonKey(c) <==> c in targets
    ensures (forall c :: c in cells <==> NonKey(c)) && (forall c :: c in excluded <==> NonKey(c)) ==>
              ApplySet(cells, excluded, targets) == excluded
  {
    if (forall c :: c in cells <==> NonKey(c)) && (forall c :: c in excluded <==> NonKey(c)) {
      var r := ApplySet(cells, excluded, targets);
      assert forall c :: c in r <==> c in excluded;
    }
  }

  /** The upsert statement: a new key inserts the row; an existing key runs the
      `DO UPDATE SET` clause on the stored row. Because the SET clause covers
      every non-key column, on a table that keeps its schema the result is plain
      map overwrite: afterwards the key holds the new row in every column, and
      no other key changes. */
  function Upsert(t: Table, row: Row): (r: Table)
    ensures Schema(t) && WellFormed(row) ==> r == t[row.id := row] && Schema(r)
  {
    if row.id in t then t[row.id := ConflictUpdate(t[row.id], row)]
    else t[row.id := row]
  }

  /** The `ON CONFLICT (id) DO UPDATE` branch: the stored row keeps its key and
      the SET clause runs on its cells. When both rows are complete, the clause
      names every column the stored row has, so nothing of it survives. */
  function ConflictUpdate(stored: Row, excluded: Row): (r: Row)
    ensures r.id == stored.id
    ensures WellFormed(stored) && WellFormed(excluded) && stored.id == excluded.id ==> r == excluded
  {
    UpdateCoversNonKey();
    SetClauseOverwrites(stored.cells, excluded.cells, UpdateColumns);
    Row(stored.id, ApplySet(stored.cells, excluded.cells, UpdateColumns))
  }

  /** Upserting the same row twice leaves the table of upserting it once. */
  lemma UpsertIdempotent(t: Table, row: Row)
    requires Schema(t) && WellFormed(row)
    ensures Upsert(Upsert(t, row), row) == Upsert(t, row)
  {
    UpsertLastWriteWins(t, row, row);
  }

  /** Of two upserts under one key, the second row's values remain: no field of
      the first survives. */
  lemma UpsertLastWriteWins(t: Table, first: Row, second: Row)
    requires Schema(t) && WellFormed(first) && WellFormed(second)
    requires first.id == second.id
    ensures Upsert(Upsert(t, first), second) == Upsert(t, second)
  {
    OverwriteTwice(t, first.id, first, second);
  }

  /** Two updates of one key in a map: the second wins. */
  lemma OverwriteTwice<K, V>(m: map<K, V>, k: K, a: V, b: V)
    ensures m[k := a][k := b] == m[k := b]
  {
  }

  /** All rows are well formed: the precondition of a run of upserts. */
  predicate AllWellFormed(rows: seq<Row>) {
    forall j :: 0 <= j < |rows| ==> WellFormed(rows[j])
  }

  /** The rows upserted one after the other, in order. */
  function UpsertAll(t: Table, rows: seq<Row>): (r: Table)
    ensures Schema(t) && AllWellFormed(rows) ==> Schema(r)
    decreases |rows|
  {
    if rows == [] then t
    else Upsert(UpsertAll(t, rows[..|rows| - 1]), rows[|rows| - 1])
  }

  /** Upserting one more row continues from the table the earlier rows left. */
  lemma UpsertAllSnoc(t: Table, rows: seq<Row>, row: Row)
    ensures UpsertAll(t, rows + [row]) == Upsert(UpsertAll(t, rows), row)
  {
    assert (rows + [row])[..|rows|] == rows;
  }

  /** A key no upserted row carries keeps its stored row, or stays absent. */
  lemma {:induction false} UpsertAllUntouched(t: Table, rows: seq<Row>, k: string)
    requires Schema(t) && AllWellFormed(rows)
    requires forall j :: 0 <= j < |rows| ==> rows[j].id != k
    ensures k in UpsertAll(t, rows) <==> k in t
    ensures k in t ==> UpsertAll(t, rows)[k] == t[k]
    decreases |rows|
  {
    if rows != [] {
      UpsertAllUntouched(t, rows[..|rows| - 1], k);
    }
  }

  /** A key that some upserted row carries holds the LAST such row, whatever
      was stored under it before. */
  lemma {:induction false} UpsertAllLastWins(t: Table, rows: seq<Row>, j: nat)
    requires Schema(t) && AllWellFormed(rows)
    requires j < |rows|
    requires forall i :: j < i < |rows| ==> rows[i].id != rows[j].id
    ensures rows[j].id in UpsertAll(t, rows) && UpsertAll(t, rows)[rows[j].id] == rows[j]
    decreases |rows|
  {
    var before := rows[..|rows| - 1];
    assert AllWellFormed(before) && WellFormed(rows[|rows| - 1]);
    if j < |rows| - 1 {
      UpsertAllLastWins(t, before, j);
    }
  }
}
