/// The daily refresh of the local FIPE price cache (`FipeCacheService` in
/// `server/utils/fipeCache.js`): decide whether a refresh is due, record its
/// start, wipe the four hierarchy tables, re-download brands, then walk the
/// first ten brands by name, five models of each and three years of each
/// model, saving a priced value per year, and record how it ended.
///
/// Each step is a function on the tables (the specification) and a method of
/// `FipeCacheService` that performs it statement by statement on its `db`
/// field and is proved to leave exactly what the function describes.
///
/// The database and the upstream API are the environment `Env`: the lists and
/// prices the API answers, and for every SQL statement whether it fails and
/// with which message.
module FipeCache {
  import opened Common
  import opened Sorting
  import opened FipeTables

  /** A refresh is due once the newest start is 24 hours old, in milliseconds. */
  const RefreshInterval: int := 24 * 60 * 60 * 1000

  /** How many brands, models per brand and years per model the walk visits. */
  const BrandCap: nat := 10
  const ModelCap: nat := 5
  const YearCap: nat := 3

  /** What the database answers when an insert's parent sub-select finds no row. */
  const MissingParent: string := "null value in parent column"

  datatype TableName = FipeBrands | FipeModels | FipeYears | FipeValues

  /** The SQL statements of the refresh, by what they touch. */
  datatype Stmt =
    | ReadLastUpdate
    | InsertRun
    | FinishRun
    | DeleteAll(table: TableName)
    | Upsert(table: TableName, key: seq<string>)
    | SelectChildren(table: TableName, parent: seq<string>)

  /** An element of an upstream list: its `codigo` and `nome`. */
  datatype Item = Item(code: string, name: string)

  /** The world outside the process: upstream answers per URL, and per
      statement the error message the database raises, if it does. */
  datatype Env = Env(
    brandList: Fetch<seq<Item>>,
    modelList: string -> Fetch<seq<Item>>,
    yearList: (string, string) -> Fetch<seq<Item>>,
    price: (string, string, string) -> Fetch<PricedValue>,
    fault: Stmt -> Option<string>)

  /** The three levels whose rows are a code and a name. */
  datatype Level = BrandLevel | ModelLevel | YearLevel

  function TableOf(level: Level): TableName {
    match level
    case BrandLevel => FipeBrands
    case ModelLevel => FipeModels
    case YearLevel => FipeYears
  }

  function NameRows(t: Tables, level: Level): seq<NameRow> {
    match level
    case BrandLevel => t.brands
    case ModelLevel => t.models
    case YearLevel => t.years
  }

  function WithNameRows(t: Tables, level: Level, rows: seq<NameRow>): Tables {
    match level
    case BrandLevel => t.(brands := rows)
    case ModelLevel => t.(models := rows)
    case YearLevel => t.(years := rows)
  }

  /** The parent row an insert at `level` looks up by its codes exists. */
  predicate ParentExists(t: Tables, level: Level, parent: seq<string>) {
    match level
    case BrandLevel => true
    case ModelLevel => HasKey(t.brands, parent)
    case YearLevel => HasKey(t.models, parent)
  }

  // ---------------------------------------------------------------------------
  // Whether a refresh is due

  /** The newest `last_update` of the run log (`ORDER BY last_update DESC LIMIT 1`). */
  function LatestUpdate(runs: seq<RefreshRun>): (latest: Option<int>)
    ensures latest.None? <==> runs == []
    ensures latest.Some? ==> exists r :: r in runs && r.lastUpdate == latest.value
    ensures latest.Some? ==> forall r :: r in runs ==> r.lastUpdate <= latest.value
    decreases |runs|
  {
    if runs == [] then None
    else
      assert runs == [runs[0]] + runs[1..];
      match LatestUpdate(runs[1..])
      case None => Some(runs[0].lastUpdate)
      case Some(m) => Some(if runs[0].lastUpdate >= m then runs[0].lastUpdate else m)
  }

  /** needsUpdate: due when the log is empty, when it cannot be read, or when
      every recorded start is at least 24 hours before `now`. */
  function NeedsUpdate(env: Env, t: Tables, now: int): (due: bool)
    ensures env.fault(ReadLastUpdate).Some? ==> due
    ensures t.updates == [] ==> due
    ensures env.fault(ReadLastUpdate).None? && t.updates != [] ==>
      (due <==> forall r :: r in t.updates ==> now - r.lastUpdate >= RefreshInterval)
  {
    if env.fault(ReadLastUpdate).Some? then true
    else
      match LatestUpdate(t.updates)
      case None => true
      case Some(last) => now - last >= RefreshInterval
  }

  // ---------------------------------------------------------------------------
  // The steps of a refresh, as functions on the tables

  /** startUpdate: appends a running run stamped `now`; a failing insert is
      swallowed and leaves the log as it was. */
  function Started(env: Env, t: Tables, now: int): Tables {
    if env.fault(InsertRun).Some? then t
    else t.(updates := t.updates + [RefreshRun(Running, now, Stats(0, 0, 0, 0), None)])
  }

  /** finishUpdate: rewrites the most recently created run with the totals, the
      error text and a status that is failed exactly when that text is
      non-empty; a failing update is swallowed. */
  function Finished(env: Env, t: Tables, stats: Stats, error: Option<string>): Tables {
    if env.fault(FinishRun).Some? || t.updates == [] then t
    else
      var last := |t.updates| - 1;
      var status := if error.Some? && error.value != "" then Failed else Completed;
      t.(updates := t.updates[last := RefreshRun(status, t.updates[last].lastUpdate, stats, error)])
  }

  /** The order clearOldData deletes in: children before their parents. */
  const ClearOrder: seq<TableName> := [FipeValues, FipeYears, FipeModels, FipeBrands]

  /** The first `n` deletes of clearOldData succeed. */
  predicate DeletesBefore(env: Env, n: nat)
    requires n <= |ClearOrder|
  {
    forall k :: 0 <= k < n ==> env.fault(DeleteAll(ClearOrder[k])).None?
  }

  /** The first deletes succeed exactly when each of them does. */
  lemma DeletesInOrder(env: Env)
    ensures DeletesBefore(env, 0)
    ensures DeletesBefore(env, 1) <==> env.fault(DeleteAll(FipeValues)).None?
    ensures DeletesBefore(env, 2) <==> DeletesBefore(env, 1) && env.fault(DeleteAll(FipeYears)).None?
    ensures DeletesBefore(env, 3) <==> DeletesBefore(env, 2) && env.fault(DeleteAll(FipeModels)).None?
    ensures DeletesBefore(env, 4) <==> DeletesBefore(env, 3) && env.fault(DeleteAll(FipeBrands)).None?
  {
    assert ClearOrder[0] == FipeValues && ClearOrder[1] == FipeYears;
    assert ClearOrder[2] == FipeModels && ClearOrder[3] == FipeBrands;
  }

  /** clearOldData: deletes values, years, models and brands in that order and
      stops at the first delete that fails, returning its error. A table is
      emptied exactly when its own delete and every earlier one succeed; the
      deletes already run stay applied. */
  function Cleared(env: Env, t: Tables): (r: (Tables, Option<string>))
    ensures r.0.updates == t.updates
    ensures r.1.None? ==> r.0 == t.(brands := [], models := [], years := [], values := [])
    ensures r.1.None? <==> DeletesBefore(env, 4)
    ensures forall k :: 0 <= k < 4 && DeletesBefore(env, k) && env.fault(DeleteAll(ClearOrder[k])).Some? ==>
      r.1 == env.fault(DeleteAll(ClearOrder[k]))
    ensures r.0.values == if DeletesBefore(env, 1) then [] else t.values
    ensures r.0.years == if DeletesBefore(env, 2) then [] else t.years
    ensures r.0.models == if DeletesBefore(env, 3) then [] else t.models
    ensures r.0.brands == if DeletesBefore(env, 4) then [] else t.brands
    ensures Valid(t) ==> Valid(r.0)
  {
    var t1 := t.(values := []);
    var t2 := t1.(years := []);
    var t3 := t2.(models := []);
    var t4 := t3.(brands := []);
    DeletesInOrder(env);
    if env.fault(DeleteAll(FipeValues)).Some? then (t, env.fault(DeleteAll(FipeValues)))
    else if env.fault(DeleteAll(FipeYears)).Some? then (t1, env.fault(DeleteAll(FipeYears)))
    else if env.fault(DeleteAll(FipeModels)).Some? then (t2, env.fault(DeleteAll(FipeModels)))
    else if env.fault(DeleteAll(FipeBrands)).Some? then (t3, env.fault(DeleteAll(FipeBrands)))
    else (t4, None)
  }

  /** The upsert loop of the three list savers on the rows of one table: one
      insert per upstream item, in order, stopping at the first statement that
      fails. `parentOk` says whether the parent row the insert looks up exists. */
  function SaveRows(fault: Stmt -> Option<string>, table: TableName, rows: seq<NameRow>,
                    parent: seq<string>, parentOk: bool, items: seq<Item>): (seq<NameRow>, Option<string>)
    decreases |items|
  {
    if items == [] then (rows, None)
    else if !parentOk then (rows, Some(MissingParent))
    else
      var key := parent + [items[0].code];
      match fault(Upsert(table, key))
      case Some(msg) => (rows, Some(msg))
      case None => SaveRows(fault, table, UpsertRow(rows, Row(key, items[0].name)), parent, parentOk, items[1..])
  }

  /** The same loop on the tables: only the level's table changes. */
  function SaveItems(env: Env, level: Level, t: Tables, parent: seq<string>, items: seq<Item>): (Tables, Option<string>) {
    var saved := SaveRows(env.fault, TableOf(level), NameRows(t, level), parent, ParentExists(t, level, parent), items);
    (WithNameRows(t, level, saved.0), saved.1)
  }

  /** fetchAndSaveBrands: the number of brands listed, or the error of the
      fetch or of an upsert, which is thrown on. */
  function BrandsSaved(env: Env, t: Tables): (Tables, Result<nat>) {
    match env.brandList
    case FetchFailed(msg) => (t, Err(msg))
    case Fetched(items) =>
      var saved := SaveRows(env.fault, FipeBrands, t.brands, [], true, items);
      (t.(brands := saved.0), if saved.1.Some? then Err(saved.1.value) else Ok(|items|))
  }

  /** fetchAndSaveModels: the number of models listed for the brand; any
      failure is swallowed and counts 0. */
  function ModelsSaved(env: Env, t: Tables, brand: string): (Tables, nat) {
    match env.modelList(brand)
    case FetchFailed(_) => (t, 0)
    case Fetched(items) =>
      var saved := SaveRows(env.fault, FipeModels, t.models, [brand], HasKey(t.brands, [brand]), items);
      (t.(models := saved.0), if saved.1.Some? then 0 else |items|)
  }

  /** fetchAndSaveYears: the number of years listed for the model; any
      failure is swallowed and counts 0. */
  function YearsSaved(env: Env, t: Tables, brand: string, model: string): (Tables, nat) {
    match env.yearList(brand, model)
    case FetchFailed(_) => (t, 0)
    case Fetched(items) =>
      var saved := SaveRows(env.fault, FipeYears, t.years, [brand, model], HasKey(t.models, [brand, model]), items);
      (t.(years := saved.0), if saved.1.Some? then 0 else |items|)
  }

  /** fetchAndSaveValue: one priced value upserted on its year row, counting
      1; a failed fetch, a missing year row or a failing insert counts 0. */
  function ValueSaved(env: Env, t: Tables, brand: string, model: string, year: string): (Tables, nat) {
    var key := [brand, model, year];
    match env.price(brand, model, year)
    case FetchFailed(_) => (t, 0)
    case Fetched(v) =>
      if !HasKey(t.years, key) || env.fault(Upsert(FipeValues, key)).Some? then (t, 0)
      else (t.(values := UpsertRow(t.values, Row(key, v))), 1)
  }

  function ByName(a: NameRow, b: NameRow): bool {
    LexLeq(a.data, b.data)
  }

  /** The rows directly under `parent`, in table order. */
  function Children(rows: seq<NameRow>, parent: seq<string>): (r: seq<NameRow>)
    ensures |r| <= |rows|
    decreases |rows|
  {
    if rows == [] then []
    else (if IsChildOf(rows[0], parent) then [rows[0]] else []) + Children(rows[1..], parent)
  }

  /** The children are exactly the rows under `parent`. */
  lemma {:induction false} ChildrenMembers(rows: seq<NameRow>, parent: seq<string>)
    ensures forall x :: x in Children(rows, parent) <==> x in rows && IsChildOf(x, parent)
    decreases |rows|
  {
    if rows != [] {
      ChildrenMembers(rows[1..], parent);
      assert rows == [rows[0]] + rows[1..];
    }
  }

  /** `SELECT codigo, nome ... WHERE <parent> ORDER BY nome LIMIT n`. */
  function Select(rows: seq<NameRow>, parent: seq<string>, limit: nat): seq<NameRow> {
    var sorted := SortBy(Children(rows, parent), ByName);
    sorted[..Min(|sorted|, limit)]
  }

  /** The brands the walk visits: `SELECT ... FROM fipe_brands ORDER BY nome`,
      of which the loop takes the first ten. */
  function CrawlList(t: Tables): seq<NameRow> {
    var sorted := SortBy(t.brands, ByName);
    sorted[..Min(|sorted|, BrandCap)]
  }

  /** What a refresh has done so far: the tables, the counters, and the error
      that stopped it, if any. */
  datatype Run = Run(db: Tables, stats: Stats, error: Option<string>)

  /** The innermost loop: one value per listed year. */
  function CrawlYears(env: Env, t: Tables, brand: string, model: string, years: seq<NameRow>, stats: Stats): (Tables, Stats)
    decreases |years|
  {
    if years == [] then (t, stats)
    else
      var saved := ValueSaved(env, t, brand, model, Code(years[0]));
      CrawlYears(env, saved.0, brand, model, years[1..], stats.(values := stats.values + saved.1))
  }

  /** The rest of a pass of the middle loop, once the model's years are
      saved: read three back and price them. Only the read-back can fail. */
  function ModelWalk(env: Env, t: Tables, brand: string, model: string, stats: Stats): Run {
    var fault := env.fault(SelectChildren(FipeYears, [brand, model]));
    if fault.Some? then Run(t, stats, fault)
    else
      var priced := CrawlYears(env, t, brand, model, Select(t.years, [brand, model], YearCap), stats);
      Run(priced.0, priced.1, None)
  }

  /** One pass of the middle loop: save the model's years, then price them. */
  function ModelStep(env: Env, t: Tables, brand: string, model: string, stats: Stats): Run {
    var saved := YearsSaved(env, t, brand, model);
    ModelWalk(env, saved.0, brand, model, stats.(years := stats.years + saved.1))
  }

  /** The middle loop: one step per model; an error ends the whole refresh. */
  function CrawlModels(env: Env, t: Tables, brand: string, models: seq<NameRow>, stats: Stats): Run
    decreases |models|
  {
    if models == [] then Run(t, stats, None)
    else
      var r := ModelStep(env, t, brand, Code(models[0]), stats);
      if r.error.Some? then r else CrawlModels(env, r.db, brand, models[1..], r.stats)
  }

  /** The rest of a pass of the outer loop, once the brand's models are saved:
      read five back and walk them. */
  function BrandWalk(env: Env, t: Tables, brand: string, stats: Stats): Run {
    var fault := env.fault(SelectChildren(FipeModels, [brand]));
    if fault.Some? then Run(t, stats, fault)
    else CrawlModels(env, t, brand, Select(t.models, [brand], ModelCap), stats)
  }

  /** One pass of the outer loop: save the brand's models, then walk them. */
  function BrandStep(env: Env, t: Tables, brand: string, stats: Stats): Run {
    var saved := ModelsSaved(env, t, brand);
    BrandWalk(env, saved.0, brand, stats.(models := stats.models + saved.1))
  }

  /** The outer loop: one step per brand, stopping at the first error. */
  function CrawlBrands(env: Env, t: Tables, brands: seq<NameRow>, stats: Stats): Run
    decreases |brands|
  {
    if brands == [] then Run(t, stats, None)
    else
      var r := BrandStep(env, t, Code(brands[0]), stats);
      if r.error.Some? then r else CrawlBrands(env, r.db, brands[1..], r.stats)
  }

  /** One pass of the middle loop, as WalkModels takes it. */
  lemma CrawlModelsStep(env: Env, t: Tables, brand: string, models: seq<NameRow>, stats: Stats)
    requires models != []
    ensures var r := ModelStep(env, t, brand, Code(models[0]), stats);
      CrawlModels(env, t, brand, models, stats) == if r.error.Some? then r else CrawlModels(env, r.db, brand, models[1..], r.stats)
  {
  }

  /** One pass of the outer loop, as WalkBrands takes it. */
  lemma CrawlBrandsStep(env: Env, t: Tables, brands: seq<NameRow>, stats: Stats)
    requires brands != []
    ensures var r := BrandStep(env, t, Code(brands[0]), stats);
      CrawlBrands(env, t, brands, stats) == if r.error.Some? then r else CrawlBrands(env, r.db, brands[1..], r.stats)
  {
  }

  /** Everything performFullUpdate does between recording its start and its end. */
  function Crawled(env: Env, t: Tables): Run {
    var zero := Stats(0, 0, 0, 0);
    var cleared := Cleared(env, t);
    if cleared.1.Some? then Run(cleared.0, zero, cleared.1)
    else
      var saved := BrandsSaved(env, cleared.0);
      if saved.1.Err? then Run(saved.0, zero, Some(saved.1.error))
      else
        var stats := zero.(brands := saved.1.value);
        var fault := env.fault(SelectChildren(FipeBrands, []));
        if fault.Some? then Run(saved.0, stats, fault)
        else CrawlBrands(env, saved.0, CrawlList(saved.0), stats)
  }

  /** performFullUpdate: start, crawl, and record the end with the error, if any. */
  function Refreshed(env: Env, t: Tables, now: int): Run {
    var r := Crawled(env, Started(env, t, now));
    Run(Finished(env, r.db, r.stats, r.error), r.stats, r.error)
  }

  /** What the caller of performFullUpdate sees: the counters, or the error rethrown. */
  function Outcome(r: Run): Result<Stats> {
    if r.error.Some? then Err(r.error.value) else Ok(r.stats)
  }

  // ---------------------------------------------------------------------------
  // The service, statement by statement

  class FipeCacheService {
    /** The five cache tables. */
    var db: Tables
    /** The upstream API and the database's failures. */
    const env: Env

    constructor (tables: Tables, world: Env)
      ensures db == tables
    {
      db := tables;
      env := world;
    }

    method StartUpdate(now: int)
      modifies this
      ensures db == Started(env, old(db), now)
    {
      if env.fault(InsertRun).None? {
        db := db.(updates := db.updates + [RefreshRun(Running, now, Stats(0, 0, 0, 0), None)]);
      }
    }

    method FinishUpdate(stats: Stats, error: Option<string>)
      modifies this
      ensures db == Finished(env, old(db), stats, error)
    {
      if env.fault(FinishRun).None? && db.updates != [] {
        var last := |db.updates| - 1;
        var status := if error.Some? && error.value != "" then Failed else Completed;
        db := db.(updates := db.updates[last := RefreshRun(status, db.updates[last].lastUpdate, stats, error)]);
      }
    }

    method ClearOldData() returns (error: Option<string>)
      modifies this
      ensures (db, error) == Cleared(env, old(db))
    {
      error := env.fault(DeleteAll(FipeValues));
      if error.Some? { return; }
      db := db.(values := []);
      error := env.fault(DeleteAll(FipeYears));
      if error.Some? { return; }
      db := db.(years := []);
      error := env.fault(DeleteAll(FipeModels));
      if error.Some? { return; }
      db := db.(models := []);
      error := env.fault(DeleteAll(FipeBrands));
      if error.Some? { return; }
      db := db.(brands := []);
    }

    /** The `for (const item of list)` upsert loop shared by the list savers. */
    method UpsertItems(level: Level, parent: seq<string>, items: seq<Item>) returns (error: Option<string>)
      modifies this
      ensures (db, error) == SaveItems(env, level, old(db), parent, items)
    {
      var table := TableOf(level);
      var parentOk := ParentExists(db, level, parent);
      var rows := NameRows(db, level);
      ghost var target := SaveRows(env.fault, table, rows, parent, parentOk, items);
      var i := 0;
      while i < |items|
        invariant 0 <= i <= |items|
        invariant db == WithNameRows(old(db), level, rows)
        invariant SaveRows(env.fault, table, rows, parent, parentOk, items[i..]) == target
      {
        assert items[i..][0] == items[i] && items[i..][1..] == items[i + 1..];
        if !parentOk {
          return Some(MissingParent);
        }
        var key := parent + [items[i].code];
        error := env.fault(Upsert(table, key));
        if error.Some? {
          return;
        }
        rows := UpsertRow(rows, Row(key, items[i].name));
        db := WithNameRows(db, level, rows);
        i := i + 1;
      }
      return None;
    }

    method FetchAndSaveBrands() returns (count: Result<nat>)
      modifies this
      ensures (db, count) == BrandsSaved(env, old(db))
    {
      match env.brandList {
        case FetchFailed(msg) =>
          count := Err(msg);
        case Fetched(items) =>
          var error := UpsertItems(BrandLevel, [], items);
          count := if error.Some? then Err(error.value) else Ok(|items|);
      }
    }

    method FetchAndSaveModels(brand: string) returns (count: nat)
      modifies this
      ensures (db, count) == ModelsSaved(env, old(db), brand)
    {
      match env.modelList(brand) {
        case FetchFailed(_) =>
          count := 0;
        case Fetched(items) =>
          var error := UpsertItems(ModelLevel, [brand], items);
          count := if error.Some? then 0 else |items|;
      }
    }

    method FetchAndSaveYears(brand: string, model: string) returns (count: nat)
      modifies this
      ensures (db, count) == YearsSaved(env, old(db), brand, model)
    {
      match env.yearList(brand, model) {
        case FetchFailed(_) =>
          count := 0;
        case Fetched(items) =>
          var error := UpsertItems(YearLevel, [brand, model], items);
          count := if error.Some? then 0 else |items|;
      }
    }

    method FetchAndSaveValue(brand: string, model: string, year: string) returns (count: nat)
      modifies this
      ensures (db, count) == ValueSaved(env, old(db), brand, model, year)
    {
      var key := [brand, model, year];
      count := 0;
      match env.price(brand, model, year) {
        case FetchFailed(_) =>
        case Fetched(v) =>
          if HasKey(db.years, key) && env.fault(Upsert(FipeValues, key)).None? {
            db := db.(values := UpsertRow(db.values, Row(key, v)));
            count := 1;
          }
      }
    }

    /** The innermost loop of performFullUpdate: price each listed year. */
    method PriceYears(brand: string, model: string, years: seq<NameRow>, start: Stats) returns (stats: Stats)
      modifies this
      ensures (db, stats) == CrawlYears(env, old(db), brand, model, years, start)
    {
      stats := start;
      var k := 0;
      while k < |years|
        invariant 0 <= k <= |years|
        invariant CrawlYears(env, db, brand, model, years[k..], stats) == CrawlYears(env, old(db), brand, model, years, start)
      {
        assert years[k..][0] == years[k] && years[k..][1..] == years[k + 1..];
        var valueCount := FetchAndSaveValue(brand, model, Code(years[k]));
        stats := stats.(values := stats.values + valueCount);
        k := k + 1;
      }
    }

    /** One pass of the middle loop: save the model's years, read three back
        and price them. */
    method WalkModel(brand: string, model: string, start: Stats) returns (stats: Stats, error: Option<string>)
      modifies this
      ensures Run(db, stats, error) == ModelStep(env, old(db), brand, model, start)
    {
      var yearCount := FetchAndSaveYears(brand, model);
      stats := start.(years := start.years + yearCount);
      error := env.fault(SelectChildren(FipeYears, [brand, model]));
      if error.None? {
        var years := Select(db.years, [brand, model], YearCap);
        stats := PriceYears(brand, model, years, stats);
      }
    }

    /** The middle loop of performFullUpdate, for one brand; a failing read
        ends the walk. */
    method WalkModels(brand: string, models: seq<NameRow>, start: Stats) returns (stats: Stats, error: Option<string>)
      modifies this
      ensures Run(db, stats, error) == CrawlModels(env, old(db), brand, models, start)
    {
      stats, error := start, None;
      var j := 0;
      while j < |models|
        invariant 0 <= j <= |models|
        invariant error.None?
        invariant CrawlModels(env, db, brand, models[j..], stats) == CrawlModels(env, old(db), brand, models, start)
      {
        assert models[j..][0] == models[j] && models[j..][1..] == models[j + 1..];
        CrawlModelsStep(env, db, brand, models[j..], stats);
        stats, error := WalkModel(brand, Code(models[j]), stats);
        if error.Some? {
          return;
        }
        j := j + 1;
      }
    }

    /** One pass of the outer loop: save the brand's models, read five back
        and walk them. */
    method WalkBrand(brand: string, start: Stats) returns (stats: Stats, error: Option<string>)
      modifies this
      ensures Run(db, stats, error) == BrandStep(env, old(db), brand, start)
    {
      var modelCount := FetchAndSaveModels(brand);
      stats := start.(models := start.models + modelCount);
      error := env.fault(SelectChildren(FipeModels, [brand]));
      if error.None? {
        var models := Select(db.models, [brand], ModelCap);
        stats, error := WalkModels(brand, models, stats);
      }
    }

    /** The outer loop of performFullUpdate: one pass per listed brand; a
        failing read ends the walk. */
    method WalkBrands(brands: seq<NameRow>, start: Stats) returns (stats: Stats, error: Option<string>)
      modifies this
      ensures Run(db, stats, error) == CrawlBrands(env, old(db), brands, start)
    {
      stats, error := start, None;
      var i := 0;
      while i < |brands|
        invariant 0 <= i <= |brands|
        invariant error.None?
        invariant CrawlBrands(env, db, brands[i..], stats) == CrawlBrands(env, old(db), brands, start)
      {
        assert brands[i..][0] == brands[i] && brands[i..][1..] == brands[i + 1..];
        CrawlBrandsStep(env, db, brands[i..], stats);
        stats, error := WalkBrand(Code(brands[i]), stats);
        if error.Some? {
          return;
        }
        i := i + 1;
      }
    }

    method PerformFullUpdate(now: int) returns (result: Result<Stats>)
      modifies this
      ensures db == Refreshed(env, old(db), now).db
      ensures result == Outcome(Refreshed(env, old(db), now))
    {
      var stats := Stats(0, 0, 0, 0);
      StartUpdate(now);
      var error := ClearOldData();
      if error.None? {
        var saved := FetchAndSaveBrands();
        if saved.Err? {
          error := Some(saved.error);
        } else {
          stats := stats.(brands := saved.value);
          error := env.fault(SelectChildren(FipeBrands, []));
          if error.None? {
            stats, error := WalkBrands(CrawlList(db), stats);
          }
        }
      }
      FinishUpdate(stats, error);
      result := if error.Some? then Err(error.value) else Ok(stats);
    }
  }
}
