/// The five tables of the local FIPE price cache (`fipe_brands`,
/// `fipe_models`, `fipe_years`, `fipe_values`, `fipe_updates`) and the one
/// write the refresh makes to the first four: an upsert on the row's code.
///
/// A row of the hierarchy is identified by its path of upstream codes: a brand
/// by `[brand]`, a model by `[brand, model]`, a model year and its priced value
/// by `[brand, model, year]`. The path stands for the SQL surrogate ids and the
/// parent id the sub-selects of the inserts look up; it is what the unique
/// constraints `(codigo)`, `(brand_id, codigo)`, `(model_id, codigo)` and
/// `(year_id)` make unique.
module FipeTables {
  import opened Common

  /** One row of a hierarchy table: its code path and its payload. */
  datatype Row<P> = Row(key: seq<string>, data: P)

  /** A brand, model or model-year row; the payload is its `nome`. */
  type NameRow = Row<string>

  /** The priced vehicle an upstream value lookup returns (`Valor`, `Marca`,
      `Modelo`, `AnoModelo`, `Combustivel`, `CodigoFipe`, `MesReferencia`,
      `TipoVeiculo`, `SiglaCombustivel`). */
  datatype PricedValue = PricedValue(
    price: string,
    brandName: string,
    modelName: string,
    modelYear: int,
    fuel: string,
    fipeCode: string,
    referenceMonth: string,
    vehicleType: int,
    fuelAbbrev: string)

  /** Counters a refresh reports and records. */
  datatype Stats = Stats(brands: nat, models: nat, years: nat, values: nat)

  datatype RunStatus = Running | Completed | Failed

  /** A row of `fipe_updates`; rows are kept in creation order. */
  datatype RefreshRun = RefreshRun(status: RunStatus, lastUpdate: int, totals: Stats, errorMessage: Option<string>)

  datatype Tables = Tables(
    brands: seq<NameRow>,
    models: seq<NameRow>,
    years: seq<NameRow>,
    values: seq<Row<PricedValue>>,
    updates: seq<RefreshRun>)

  /** The last code of a row's path: the `codigo` column. */
  function Code<P>(r: Row<P>): string {
    if r.key == [] then "" else r.key[|r.key| - 1]
  }

  predicate HasKey<P(==)>(rows: seq<Row<P>>, key: seq<string>) {
    exists r :: r in rows && r.key == key
  }

  /** The row is a direct child of the row with path `parent`. */
  predicate IsChildOf<P(==)>(r: Row<P>, parent: seq<string>) {
    |r.key| == |parent| + 1 && r.key[..|parent|] == parent
  }

  ghost predicate UniqueKeys<P>(rows: seq<Row<P>>) {
    forall i, j :: 0 <= i < j < |rows| ==> rows[i].key != rows[j].key
  }

  /** `INSERT ... ON CONFLICT (<key>) DO UPDATE`: the row with the same key is
      replaced in place, otherwise the row is appended. */
  function UpsertRow<P(==)>(rows: seq<Row<P>>, r: Row<P>): (out: seq<Row<P>>)
    ensures r in out
    decreases |rows|
  {
    if rows == [] then [r]
    else if rows[0].key == r.key then [r] + rows[1..]
    else [rows[0]] + UpsertRow(rows[1..], r)
  }

  /** An upsert adds only the new row, and keeps every row with another key. */
  lemma {:induction false} UpsertRowMembers<P>(rows: seq<Row<P>>, r: Row<P>)
    ensures forall x :: x in UpsertRow(rows, r) ==> x == r || x in rows
    ensures forall x :: x in rows && x.key != r.key ==> x in UpsertRow(rows, r)
    decreases |rows|
  {
    if rows != [] {
      assert rows == [rows[0]] + rows[1..];
      if rows[0].key != r.key {
        UpsertRowMembers(rows[1..], r);
      }
    }
  }

  /** An upsert keeps every key and adds the new row's. */
  lemma UpsertRowKeys<P>(rows: seq<Row<P>>, r: Row<P>)
    ensures forall k :: HasKey(UpsertRow(rows, r), k) <==> HasKey(rows, k) || k == r.key
  {
    UpsertRowMembers(rows, r);
  }

  /** An upsert keeps the key unique. */
  lemma {:induction false} UpsertRowUnique<P>(rows: seq<Row<P>>, r: Row<P>)
    requires UniqueKeys(rows)
    ensures UniqueKeys(UpsertRow(rows, r))
    decreases |rows|
  {
    if rows != [] && rows[0].key != r.key {
      UpsertRowUnique(rows[1..], r);
      UpsertRowMembers(rows[1..], r);
      var out := UpsertRow(rows, r);
      forall i, j | 0 <= i < j < |out|
        ensures out[i].key != out[j].key
      {
        if i == 0 {
          assert out[j] in UpsertRow(rows[1..], r);
          if out[j] != r {
            assert out[j] in rows[1..];
            var k :| 0 <= k < |rows[1..]| && rows[1..][k] == out[j];
            assert rows[k + 1] == out[j];
          }
        }
      }
    }
  }

  /** The payload stored under `key`, if any. */
  function Lookup<P(==)>(rows: seq<Row<P>>, key: seq<string>): (found: Option<P>)
    ensures found.Some? <==> HasKey(rows, key)
    ensures found.Some? ==> Row(key, found.value) in rows
    decreases |rows|
  {
    if rows == [] then None
    else if rows[0].key == key then Some(rows[0].data)
    else
      assert rows == [rows[0]] + rows[1..];
      Lookup(rows[1..], key)
  }

  /** After an upsert, the key holds the new payload and every other key its old one. */
  lemma {:induction false} LookupUpsert<P>(rows: seq<Row<P>>, r: Row<P>, key: seq<string>)
    ensures Lookup(UpsertRow(rows, r), key) == if key == r.key then Some(r.data) else Lookup(rows, key)
    decreases |rows|
  {
    if rows != [] && rows[0].key != r.key {
      LookupUpsert(rows[1..], r, key);
    }
  }

  /** Upserting twice on one key leaves what the second upsert alone leaves:
      one row, holding the last payload written. */
  lemma {:induction false} UpsertSameKeyTwice<P>(rows: seq<Row<P>>, r1: Row<P>, r2: Row<P>)
    requires r1.key == r2.key
    ensures UpsertRow(UpsertRow(rows, r1), r2) == UpsertRow(rows, r2)
    decreases |rows|
  {
    if rows != [] && rows[0].key != r1.key {
      UpsertSameKeyTwice(rows[1..], r1, r2);
    }
  }

  /** The referential shape of the cache: each table's key is unique, every
      path has its table's length, and every model, year and value row hangs
      under an existing parent row. */
  ghost predicate Valid(t: Tables) {
    && UniqueKeys(t.brands) && UniqueKeys(t.models) && UniqueKeys(t.years) && UniqueKeys(t.values)
    && (forall r :: r in t.brands ==> |r.key| == 1)
    && (forall r :: r in t.models ==> |r.key| == 2 && HasKey(t.brands, r.key[..1]))
    && (forall r :: r in t.years ==> |r.key| == 3 && HasKey(t.models, r.key[..2]))
    && (forall r :: r in t.values ==> |r.key| == 3 && HasKey(t.years, r.key))
  }
}
