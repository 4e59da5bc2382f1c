/// What a refresh of the FIPE cache guarantees, proved about the functions
/// that specify `performFullUpdate` and its steps: the walk is bounded, it
/// visits the first brands by name, a brand whose model list fails leaves
/// nothing under it, the tables never hold an orphan row, only the outer steps
/// can fail the refresh, and how the run log records each outcome.
module FipeCacheProperties {
  import opened Common
  import opened Sorting
  import opened FipeTables
  import opened FipeCache

  /** The row belongs to the brand with code `b`. */
  predicate OfBrand<P>(x: Row<P>, b: string) {
    |x.key| >= 1 && x.key[0] == b
  }

  /** From `t` to `u` the log and the brands stay, and every model, year and
      value row that appears belongs to brand `b`. */
  ghost predicate AddsUnder(t: Tables, u: Tables, b: string) {
    && u.updates == t.updates
    && u.brands == t.brands
    && (forall x :: x in u.models ==> x in t.models || OfBrand(x, b))
    && (forall x :: x in u.years ==> x in t.years || OfBrand(x, b))
    && (forall x :: x in u.values ==> x in t.values || OfBrand(x, b))
  }

  /** No model, year or value row of brand `c` is cached. */
  ghost predicate NoRowsOf(t: Tables, c: string) {
    && (forall x :: x in t.models ==> !OfBrand(x, c))
    && (forall x :: x in t.years ==> !OfBrand(x, c))
    && (forall x :: x in t.values ==> !OfBrand(x, c))
  }

  /** The read-backs of the walk never fail. */
  ghost predicate ReadsSucceed(env: Env) {
    forall table, parent :: env.fault(SelectChildren(table, parent)).None?
  }

  /** None of the four deletes fails. */
  ghost predicate DeletesSucceed(env: Env) {
    forall table :: env.fault(DeleteAll(table)).None?
  }

  // ---------------------------------------------------------------------------
  // One upsert loop

  /** The upsert loop only adds children of `parent`, and only when the parent
      exists; it loses no key and keeps keys unique; without failing
      statements it completes. */
  lemma {:induction false} SaveRowsFacts(fault: Stmt -> Option<string>, table: TableName, rows: seq<NameRow>,
                                         parent: seq<string>, parentOk: bool, items: seq<Item>)
    ensures forall x :: x in SaveRows(fault, table, rows, parent, parentOk, items).0 ==>
      x in rows || (parentOk && IsChildOf(x, parent))
    ensures forall k :: HasKey(rows, k) ==> HasKey(SaveRows(fault, table, rows, parent, parentOk, items).0, k)
    ensures UniqueKeys(rows) ==> UniqueKeys(SaveRows(fault, table, rows, parent, parentOk, items).0)
    ensures (parentOk || items == []) && (forall k :: fault(Upsert(table, k)).None?) ==>
      SaveRows(fault, table, rows, parent, parentOk, items).1.None?
    decreases |items|
  {
    if items != [] && parentOk {
      var key := parent + [items[0].code];
      if fault(Upsert(table, key)).None? {
        var row := Row(key, items[0].name);
        var next := UpsertRow(rows, row);
        SaveRowsFacts(fault, table, next, parent, parentOk, items[1..]);
        UpsertRowMembers(rows, row);
        UpsertRowKeys(rows, row);
        if UniqueKeys(rows) {
          UpsertRowUnique(rows, row);
        }
        assert IsChildOf(row, parent);
      }
    }
  }

  lemma AddsUnderTransitive(t: Tables, u: Tables, v: Tables, b: string)
    requires AddsUnder(t, u, b) && AddsUnder(u, v, b)
    ensures AddsUnder(t, v, b)
  {
  }

  lemma AddsUnderKeepsNoRows(t: Tables, u: Tables, b: string, c: string)
    requires AddsUnder(t, u, b) && NoRowsOf(t, c) && b != c
    ensures NoRowsOf(u, c)
  {
  }

  /** Replacing the year table keeps the shape when the new rows hang under
      existing models and no year key is lost. */
  lemma ValidWithYears(t: Tables, ys: seq<NameRow>)
    requires Valid(t)
    requires UniqueKeys(ys)
    requires forall x :: x in ys ==> x in t.years || (|x.key| == 3 && HasKey(t.models, x.key[..2]))
    requires forall k :: HasKey(t.years, k) ==> HasKey(ys, k)
    ensures Valid(t.(years := ys))
  {
  }

  lemma ValidWithModels(t: Tables, ms: seq<NameRow>)
    requires Valid(t)
    requires UniqueKeys(ms)
    requires forall x :: x in ms ==> x in t.models || (|x.key| == 2 && HasKey(t.brands, x.key[..1]))
    requires forall k :: HasKey(t.models, k) ==> HasKey(ms, k)
    ensures Valid(t.(models := ms))
  {
  }

  lemma ValidWithBrands(t: Tables, bs: seq<NameRow>)
    requires Valid(t)
    requires UniqueKeys(bs)
    requires forall x :: x in bs ==> x in t.brands || |x.key| == 1
    requires forall k :: HasKey(t.brands, k) ==> HasKey(bs, k)
    ensures Valid(t.(brands := bs))
  {
  }

  // ---------------------------------------------------------------------------
  // The steps below the brand list

  lemma ValueSavedFacts(env: Env, t: Tables, brand: string, model: string, year: string)
    ensures var r := ValueSaved(env, t, brand, model, year);
      && AddsUnder(t, r.0, brand) && r.0.models == t.models && r.0.years == t.years && r.1 <= 1
      && (Valid(t) ==> Valid(r.0))
  {
    var key := [brand, model, year];
    match env.price(brand, model, year)
    case FetchFailed(_) =>
    case Fetched(v) =>
      if HasKey(t.years, key) && env.fault(Upsert(FipeValues, key)).None? {
        UpsertRowMembers(t.values, Row(key, v));
        if Valid(t) {
          UpsertRowUnique(t.values, Row(key, v));
        }
      }
  }

  lemma YearsSavedFacts(env: Env, t: Tables, brand: string, model: string)
    ensures var r := YearsSaved(env, t, brand, model);
      && AddsUnder(t, r.0, brand) && r.0.models == t.models && r.0.values == t.values
      && (Valid(t) ==> Valid(r.0))
  {
    match env.yearList(brand, model)
    case FetchFailed(_) =>
    case Fetched(items) =>
      var parentOk := HasKey(t.models, [brand, model]);
      var ys := SaveRows(env.fault, FipeYears, t.years, [brand, model], parentOk, items).0;
      SaveRowsFacts(env.fault, FipeYears, t.years, [brand, model], parentOk, items);
      assert YearsSaved(env, t, brand, model).0 == t.(years := ys);
      forall x | x in ys
        ensures x in t.years || (OfBrand(x, brand) && |x.key| == 3 && HasKey(t.models, x.key[..2]))
      {
        if x !in t.years {
          assert x.key[..2] == [brand, model];
          assert x.key[0] == x.key[..2][0];
        }
      }
      if Valid(t) {
        ValidWithYears(t, ys);
      }
  }

  lemma ModelsSavedFacts(env: Env, t: Tables, brand: string)
    ensures var r := ModelsSaved(env, t, brand);
      && AddsUnder(t, r.0, brand) && r.0.years == t.years && r.0.values == t.values
      && (Valid(t) ==> Valid(r.0))
      && (env.modelList(brand).FetchFailed? ==> r == (t, 0))
  {
    match env.modelList(brand)
    case FetchFailed(_) =>
    case Fetched(items) =>
      var parentOk := HasKey(t.brands, [brand]);
      var ms := SaveRows(env.fault, FipeModels, t.models, [brand], parentOk, items).0;
      SaveRowsFacts(env.fault, FipeModels, t.models, [brand], parentOk, items);
      assert ModelsSaved(env, t, brand).0 == t.(models := ms);
      forall x | x in ms
        ensures x in t.models || (OfBrand(x, brand) && |x.key| == 2 && HasKey(t.brands, x.key[..1]))
      {
        if x !in t.models {
          assert x.key[..1] == [brand];
          assert x.key[0] == x.key[..1][0];
        }
      }
      if Valid(t) {
        ValidWithModels(t, ms);
      }
  }

  /** The brand save keeps the tables well formed; without a failing insert it
      saves every listed brand. */
  lemma BrandsSavedFacts(env: Env, t: Tables)
    ensures var r := BrandsSaved(env, t);
      && r.0.updates == t.updates && r.0.models == t.models && r.0.years == t.years && r.0.values == t.values
      && (Valid(t) ==> Valid(r.0))
      && (env.brandList.Fetched? && (forall k :: env.fault(Upsert(FipeBrands, k)).None?) ==> r.1 == Ok(|env.brandList.data|))
      && (env.brandList.FetchFailed? ==> r == (t, Err(env.brandList.message)))
  {
    match env.brandList
    case FetchFailed(_) =>
    case Fetched(items) =>
      var bs := SaveRows(env.fault, FipeBrands, t.brands, [], true, items).0;
      SaveRowsFacts(env.fault, FipeBrands, t.brands, [], true, items);
      assert BrandsSaved(env, t).0 == t.(brands := bs);
      if Valid(t) {
        ValidWithBrands(t, bs);
      }
  }

  // ---------------------------------------------------------------------------
  // The three loops

  lemma {:induction false} CrawlYearsFacts(env: Env, t: Tables, brand: string, model: string, years: seq<NameRow>, stats: Stats)
    ensures var r := CrawlYears(env, t, brand, model, years, stats);
      && AddsUnder(t, r.0, brand) && r.0.models == t.models && r.0.years == t.years
      && r.1.brands == stats.brands && r.1.models == stats.models && r.1.years == stats.years
      && r.1.values <= stats.values + |years|
      && (Valid(t) ==> Valid(r.0))
    decreases |years|
  {
    if years != [] {
      var saved := ValueSaved(env, t, brand, model, Code(years[0]));
      ValueSavedFacts(env, t, brand, model, Code(years[0]));
      var r := CrawlYears(env, saved.0, brand, model, years[1..], stats.(values := stats.values + saved.1));
      CrawlYearsFacts(env, saved.0, brand, model, years[1..], stats.(values := stats.values + saved.1));
      AddsUnderTransitive(t, saved.0, r.0, brand);
    }
  }

  /** Pricing the years read back adds values of the brand only, at most three. */
  lemma ModelWalkFacts(env: Env, t: Tables, u: Tables, brand: string, model: string, stats: Stats)
    requires AddsUnder(t, u, brand)
    requires Valid(t) ==> Valid(u)
    ensures var r := ModelWalk(env, u, brand, model, stats);
      && AddsUnder(t, r.db, brand)
      && r.stats.brands == stats.brands
      && r.stats.values <= stats.values + YearCap
      && (Valid(t) ==> Valid(r.db))
  {
    if env.fault(SelectChildren(FipeYears, [brand, model])).None? {
      var years := Select(u.years, [brand, model], YearCap);
      CrawlYearsFacts(env, u, brand, model, years, stats);
      AddsUnderTransitive(t, u, CrawlYears(env, u, brand, model, years, stats).0, brand);
    }
  }

  lemma ModelStepFacts(env: Env, t: Tables, brand: string, model: string, stats: Stats)
    ensures var r := ModelStep(env, t, brand, model, stats);
      && AddsUnder(t, r.db, brand)
      && r.stats.brands == stats.brands
      && r.stats.values <= stats.values + YearCap
      && (Valid(t) ==> Valid(r.db))
  {
    var saved := YearsSaved(env, t, brand, model);
    YearsSavedFacts(env, t, brand, model);
    ModelWalkFacts(env, t, saved.0, brand, model, stats.(years := stats.years + saved.1));
  }

  lemma {:induction false} CrawlModelsFacts(env: Env, t: Tables, brand: string, models: seq<NameRow>, stats: Stats)
    ensures var r := CrawlModels(env, t, brand, models, stats);
      && AddsUnder(t, r.db, brand)
      && r.stats.brands == stats.brands
      && r.stats.values <= stats.values + 3 * |models|  // YearCap values per model
      && (Valid(t) ==> Valid(r.db))
    decreases |models|
  {
    if models != [] {
      var step := ModelStep(env, t, brand, Code(models[0]), stats);
      ModelStepFacts(env, t, brand, Code(models[0]), stats);
      if step.error.None? {
        CrawlModelsFacts(env, step.db, brand, models[1..], step.stats);
        AddsUnderTransitive(t, step.db, CrawlModels(env, step.db, brand, models[1..], step.stats).db, brand);
      }
    }
  }

  /** The model loop completes when no read-back fails. */
  lemma {:induction false} CrawlModelsCompletes(env: Env, t: Tables, brand: string, models: seq<NameRow>, stats: Stats)
    requires ReadsSucceed(env)
    ensures CrawlModels(env, t, brand, models, stats).error.None?
    decreases |models|
  {
    if models != [] {
      var model := Code(models[0]);
      var saved := YearsSaved(env, t, brand, model);
      assert env.fault(SelectChildren(FipeYears, [brand, model])).None?;
      assert ModelWalk(env, saved.0, brand, model, stats.(years := stats.years + saved.1)).error.None?;
      var step := ModelStep(env, t, brand, model, stats);
      CrawlModelsCompletes(env, step.db, brand, models[1..], step.stats);
    }
  }

  /** Walking the models read back adds rows of the brand only, and at most
      fifteen values. */
  lemma BrandWalkFacts(env: Env, t: Tables, u: Tables, brand: string, stats: Stats)
    requires AddsUnder(t, u, brand)
    requires Valid(t) ==> Valid(u)
    ensures var r := BrandWalk(env, u, brand, stats);
      && AddsUnder(t, r.db, brand)
      && r.stats.brands == stats.brands
      && r.stats.values <= stats.values + 15  // ModelCap * YearCap
      && (Valid(t) ==> Valid(r.db))
  {
    if env.fault(SelectChildren(FipeModels, [brand])).None? {
      var models := Select(u.models, [brand], ModelCap);
      assert |models| <= 5;
      CrawlModelsFacts(env, u, brand, models, stats);
      AddsUnderTransitive(t, u, CrawlModels(env, u, brand, models, stats).db, brand);
    }
  }

  lemma BrandStepFacts(env: Env, t: Tables, brand: string, stats: Stats)
    ensures var r := BrandStep(env, t, brand, stats);
      && AddsUnder(t, r.db, brand)
      && r.stats.brands == stats.brands
      && r.stats.values <= stats.values + 15  // ModelCap * YearCap
      && (Valid(t) ==> Valid(r.db))
  {
    var saved := ModelsSaved(env, t, brand);
    ModelsSavedFacts(env, t, brand);
    BrandWalkFacts(env, t, saved.0, brand, stats.(models := stats.models + saved.1));
  }

  lemma {:induction false} CrawlBrandsFacts(env: Env, t: Tables, brands: seq<NameRow>, stats: Stats)
    ensures var r := CrawlBrands(env, t, brands, stats);
      && r.db.updates == t.updates && r.db.brands == t.brands
      && r.stats.brands == stats.brands
      && r.stats.values <= stats.values + 15 * |brands|  // ModelCap * YearCap values per brand
      && (Valid(t) ==> Valid(r.db))
    decreases |brands|
  {
    if brands != [] {
      var step := BrandStep(env, t, Code(brands[0]), stats);
      BrandStepFacts(env, t, Code(brands[0]), stats);
      if step.error.None? {
        CrawlBrandsFacts(env, step.db, brands[1..], step.stats);
      }
    }
  }

  lemma BrandWalkCompletes(env: Env, u: Tables, brand: string, stats: Stats)
    requires ReadsSucceed(env)
    ensures BrandWalk(env, u, brand, stats).error.None?
  {
    assert env.fault(SelectChildren(FipeModels, [brand])).None?;
    CrawlModelsCompletes(env, u, brand, Select(u.models, [brand], ModelCap), stats);
  }

  lemma BrandStepCompletes(env: Env, t: Tables, brand: string, stats: Stats)
    requires ReadsSucceed(env)
    ensures BrandStep(env, t, brand, stats).error.None?
  {
    var saved := ModelsSaved(env, t, brand);
    BrandWalkCompletes(env, saved.0, brand, stats.(models := stats.models + saved.1));
  }

  /** The brand loop completes when no read-back fails. */
  lemma {:induction false} CrawlBrandsCompletes(env: Env, t: Tables, brands: seq<NameRow>, stats: Stats)
    requires ReadsSucceed(env)
    ensures CrawlBrands(env, t, brands, stats).error.None?
    decreases |brands|
  {
    if brands != [] {
      var brand := Code(brands[0]);
      BrandStepCompletes(env, t, brand, stats);
      var step := BrandStep(env, t, brand, stats);
      CrawlBrandsCompletes(env, step.db, brands[1..], step.stats);
    }
  }

  /** A child of `[b]` belongs to brand `b`. */
  lemma ChildOfBrand<P>(x: Row<P>, b: string)
    ensures IsChildOf(x, [b]) ==> OfBrand(x, b)
  {
    if IsChildOf(x, [b]) {
      assert x.key[0] == x.key[..1][0];
    }
  }

  lemma {:induction false} NoChildren(rows: seq<NameRow>, parent: seq<string>)
    requires forall x :: x in rows ==> !IsChildOf(x, parent)
    ensures Children(rows, parent) == []
    decreases |rows|
  {
    if rows != [] {
      NoChildren(rows[1..], parent);
    }
  }

  /** A brand whose model list fails, and which has no model cached, has a
      step that changes no table and adds 0 models, 0 years and 0 values to
      the counters; it fails only if its model read-back does. */
  lemma FailedBrandStepIsEmpty(env: Env, t: Tables, c: string, stats: Stats)
    requires env.modelList(c).FetchFailed?
    requires NoRowsOf(t, c)
    ensures BrandStep(env, t, c, stats).db == t
    ensures BrandStep(env, t, c, stats).stats == stats
    ensures BrandStep(env, t, c, stats).error == env.fault(SelectChildren(FipeModels, [c]))
  {
    forall x | x in t.models
      ensures !IsChildOf(x, [c])
    {
      ChildOfBrand(x, c);
    }
    NoChildren(t.models, [c]);
  }

  /** The step of another brand adds no row of `c`. */
  lemma OtherBrandStepKeepsNoRows(env: Env, t: Tables, brand: string, c: string, stats: Stats)
    requires brand != c
    requires NoRowsOf(t, c)
    ensures NoRowsOf(BrandStep(env, t, brand, stats).db, c)
  {
    BrandStepFacts(env, t, brand, stats);
    AddsUnderKeepsNoRows(t, BrandStep(env, t, brand, stats).db, brand, c);
  }

  /** A brand whose model list cannot be fetched gains no model, year or value
      row in the walk, whatever the other brands do. */
  lemma {:induction false} CrawlBrandsSkipsFailedBrand(env: Env, t: Tables, brands: seq<NameRow>, stats: Stats, c: string)
    requires env.modelList(c).FetchFailed?
    requires NoRowsOf(t, c)
    ensures NoRowsOf(CrawlBrands(env, t, brands, stats).db, c)
    decreases |brands|
  {
    if brands != [] {
      var brand := Code(brands[0]);
      var step := BrandStep(env, t, brand, stats);
      if brand == c {
        FailedBrandStepIsEmpty(env, t, c, stats);
      } else {
        OtherBrandStepKeepsNoRows(env, t, brand, c, stats);
      }
      if step.error.None? {
        CrawlBrandsSkipsFailedBrand(env, step.db, brands[1..], step.stats, c);
      }
    }
  }

  // ---------------------------------------------------------------------------
  // The whole refresh

  lemma CrawledFacts(env: Env, t: Tables)
    ensures var r := Crawled(env, t);
      && r.db.updates == t.updates
      && r.stats.values <= BrandCap * ModelCap * YearCap
      && (Valid(t) ==> Valid(r.db))
  {
    var zero := Stats(0, 0, 0, 0);
    var cleared := Cleared(env, t);
    if cleared.1.None? {
      var saved := BrandsSaved(env, cleared.0);
      BrandsSavedFacts(env, cleared.0);
      if saved.1.Ok? && env.fault(SelectChildren(FipeBrands, [])).None? {
        CrawlBrandsFacts(env, saved.0, CrawlList(saved.0), zero.(brands := saved.1.value));
      }
    }
  }

  /** With the wipe, the brand list, the brand inserts and the read-backs
      succeeding, the crawl succeeds and counts every listed brand. */
  lemma CrawledSucceeds(env: Env, t: Tables)
    requires DeletesSucceed(env) && ReadsSucceed(env)
    requires env.brandList.Fetched?
    requires forall k :: env.fault(Upsert(FipeBrands, k)).None?
    ensures Crawled(env, t).error.None?
    ensures Crawled(env, t).stats.brands == |env.brandList.data|
  {
    var zero := Stats(0, 0, 0, 0);
    assert env.fault(DeleteAll(FipeValues)).None? && env.fault(DeleteAll(FipeYears)).None?;
    assert env.fault(DeleteAll(FipeModels)).None? && env.fault(DeleteAll(FipeBrands)).None?;
    var cleared := Cleared(env, t);
    var saved := BrandsSaved(env, cleared.0);
    BrandsSavedFacts(env, cleared.0);
    assert env.fault(SelectChildren(FipeBrands, [])).None?;
    var stats := zero.(brands := saved.1.value);
    CrawlBrandsFacts(env, saved.0, CrawlList(saved.0), stats);
    CrawlBrandsCompletes(env, saved.0, CrawlList(saved.0), stats);
  }

  /** A refresh prices at most ten brands times five models times three years,
      150 values, and never leaves an orphan row. */
  lemma RefreshIsBoundedAndKeepsShape(env: Env, t: Tables, now: int)
    ensures Refreshed(env, t, now).stats.values <= 150
    ensures Valid(t) ==> Valid(Refreshed(env, t, now).db)
  {
    CrawledFacts(env, Started(env, t, now));
  }

  /** The brands walked are the first ten of the brand table by name, in that
      order; every brand left out sorts no earlier than every brand walked. */
  lemma CrawlListIsFirstByName(t: Tables)
    ensures |CrawlList(t)| == Min(|t.brands|, BrandCap)
    ensures SortedBy(CrawlList(t), ByName)
    ensures forall b :: b in CrawlList(t) ==> b in t.brands
    ensures forall b, w :: b in t.brands && b !in CrawlList(t) && w in CrawlList(t) ==> LexLeq(w.data, b.data)
  {
    ByNameTotalPreorder();
    var sorted := SortBy(t.brands, ByName);
    SortBySorted(t.brands, ByName);
    var walked := CrawlList(t);
    forall b | b in walked
      ensures b in t.brands
    {
      SortBySameElements(t.brands, ByName, b);
    }
    forall b, w | b in t.brands && b !in walked && w in walked
      ensures LexLeq(w.data, b.data)
    {
      SortBySameElements(t.brands, ByName, b);
      var j :| 0 <= j < |sorted| && sorted[j] == b;
      var i :| 0 <= i < |walked| && walked[i] == w;
      assert j >= |walked|;
      assert ByName(sorted[i], sorted[j]);
    }
  }

  lemma ByNameTotalPreorder()
    ensures TotalPreorder(ByName)
  {
    forall a: NameRow, b: NameRow
      ensures ByName(a, b) || ByName(b, a)
    {
      LexLeqTotal(a.data, b.data);
    }
    forall a: NameRow, b: NameRow, c: NameRow | ByName(a, b) && ByName(b, c)
      ensures ByName(a, c)
    {
      LexLeqTransitive(a.data, b.data, c.data);
    }
  }

  /** Once the wipe succeeds, a brand whose model list fails has no model,
      year or value in the cache after the refresh. */
  lemma FailedBrandLeavesNoRows(env: Env, t: Tables, now: int, c: string)
    requires DeletesSucceed(env)
    requires env.modelList(c).FetchFailed?
    ensures NoRowsOf(Refreshed(env, t, now).db, c)
  {
    var t0 := Started(env, t, now);
    assert env.fault(DeleteAll(FipeValues)).None? && env.fault(DeleteAll(FipeYears)).None?;
    assert env.fault(DeleteAll(FipeModels)).None? && env.fault(DeleteAll(FipeBrands)).None?;
    var cleared := Cleared(env, t0);
    var saved := BrandsSaved(env, cleared.0);
    BrandsSavedFacts(env, cleared.0);
    if saved.1.Ok? && env.fault(SelectChildren(FipeBrands, [])).None? {
      CrawlBrandsSkipsFailedBrand(env, saved.0, CrawlList(saved.0), Stats(0, 0, 0, 0).(brands := saved.1.value), c);
    }
  }

  /** Model, year and value failures never fail a refresh: when the wipe, the
      brand list, the brand inserts and the read-backs succeed, the refresh
      succeeds with every listed brand counted, and a recorded run ends
      completed with the returned counters. */
  lemma OnlyOuterFailuresAreFatal(env: Env, t: Tables, now: int)
    requires DeletesSucceed(env) && ReadsSucceed(env)
    requires env.brandList.Fetched?
    requires forall k :: env.fault(Upsert(FipeBrands, k)).None?
    ensures Refreshed(env, t, now).error.None?
    ensures Refreshed(env, t, now).stats.brands == |env.brandList.data|
    ensures env.fault(InsertRun).None? && env.fault(FinishRun).None? ==>
      var r := Refreshed(env, t, now);
      r.db.updates == t.updates + [RefreshRun(Completed, now, r.stats, None)]
  {
    var t0 := Started(env, t, now);
    CrawledFacts(env, t0);
    CrawledSucceeds(env, t0);
  }

  /** A failing brand list is fatal: the refresh rethrows its message with all
      counters at zero, the wiped cache stays empty, and a recorded run is
      marked failed with that message (when the message is not empty). */
  lemma BrandListFailureIsFatal(env: Env, t: Tables, now: int)
    requires DeletesSucceed(env)
    requires env.brandList.FetchFailed?
    ensures var r := Refreshed(env, t, now);
      && r.error == Some(env.brandList.message)
      && r.stats == Stats(0, 0, 0, 0)
      && r.db.brands == [] && r.db.models == [] && r.db.years == [] && r.db.values == []
    ensures env.fault(InsertRun).None? && env.fault(FinishRun).None? && env.brandList.message != "" ==>
      Refreshed(env, t, now).db.updates
        == t.updates + [RefreshRun(Failed, now, Stats(0, 0, 0, 0), Some(env.brandList.message))]
  {
    assert env.fault(DeleteAll(FipeValues)).None? && env.fault(DeleteAll(FipeYears)).None?;
    assert env.fault(DeleteAll(FipeModels)).None? && env.fault(DeleteAll(FipeBrands)).None?;
  }

  /** A failing delete is fatal: the refresh rethrows the message of the
      first delete that fails, with all counters at zero; the deletes before
      it stay applied, the later tables keep their rows, and a recorded run is
      marked failed with that message (when the message is not empty). */
  lemma ClearFailureIsFatal(env: Env, t: Tables, now: int, k: nat)
    requires k < |ClearOrder| && DeletesBefore(env, k) && env.fault(DeleteAll(ClearOrder[k])).Some?
    ensures var r := Refreshed(env, t, now);
      && r.error == env.fault(DeleteAll(ClearOrder[k]))
      && Outcome(r) == Err(env.fault(DeleteAll(ClearOrder[k])).value)
      && r.stats == Stats(0, 0, 0, 0)
      && r.db.values == (if 0 < k then [] else t.values)
      && r.db.years == (if 1 < k then [] else t.years)
      && r.db.models == (if 2 < k then [] else t.models)
      && r.db.brands == t.brands
    ensures var msg := env.fault(DeleteAll(ClearOrder[k])).value;
      env.fault(InsertRun).None? && env.fault(FinishRun).None? && msg != "" ==>
        Refreshed(env, t, now).db.updates == t.updates + [RefreshRun(Failed, now, Stats(0, 0, 0, 0), Some(msg))]
  {
    DeletesInOrder(env);
    assert !DeletesBefore(env, k + 1);
    if k < 3 {
      assert !DeletesBefore(env, 4) by {
        assert ClearOrder[k] == ClearOrder[..4][k];
      }
    }
  }

  /** A failed read-back of a brand's saved models is not caught: the
      brand's step ends with that error, keeping what its model fetch saved
      and counted. */
  lemma BrandReadBackFailureIsFatal(env: Env, t: Tables, brand: string, stats: Stats)
    requires env.fault(SelectChildren(FipeModels, [brand])).Some?
    ensures var r := BrandStep(env, t, brand, stats);
      && r.error == env.fault(SelectChildren(FipeModels, [brand]))
      && r.db == ModelsSaved(env, t, brand).0
      && r.stats.models == stats.models + ModelsSaved(env, t, brand).1
      && r.stats.years == stats.years && r.stats.values == stats.values
  {
  }

  /** A failed read-back of a model's saved years is not caught either: the
      model's step ends with that error, and so does the brand's model loop
      when that model comes first. */
  lemma ModelReadBackFailureIsFatal(env: Env, t: Tables, brand: string, models: seq<NameRow>, stats: Stats)
    requires models != []
    requires env.fault(SelectChildren(FipeYears, [brand, Code(models[0])])).Some?
    ensures var r := CrawlModels(env, t, brand, models, stats);
      && r.error == env.fault(SelectChildren(FipeYears, [brand, Code(models[0])]))
      && r.db == YearsSaved(env, t, brand, Code(models[0])).0
      && r.stats.values == stats.values
  {
    CrawlModelsStep(env, t, brand, models, stats);
  }

  /** The read-backs end the whole refresh: when the wipe, the brand list
      (with at least one brand), the brand inserts and the brand read-back
      succeed, a model read-back failing with `msg` makes the refresh rethrow
      `msg`, and a recorded run is marked failed with it (when not empty). */
  lemma ReadBackFailureIsFatal(env: Env, t: Tables, now: int, msg: string)
    requires DeletesSucceed(env)
    requires env.brandList.Fetched? && env.brandList.data != []
    requires forall k :: env.fault(Upsert(FipeBrands, k)).None?
    requires env.fault(SelectChildren(FipeBrands, [])).None?
    requires forall b :: env.fault(SelectChildren(FipeModels, [b])) == Some(msg)
    ensures Outcome(Refreshed(env, t, now)) == Err(msg)
    ensures env.fault(InsertRun).None? && env.fault(FinishRun).None? && msg != "" ==>
      var r := Refreshed(env, t, now);
      && |r.db.updates| == |t.updates| + 1
      && r.db.updates[|t.updates|] == RefreshRun(Failed, now, r.stats, Some(msg))
  {
    CrawledReadBackFails(env, Started(env, t, now), msg);
    if env.fault(InsertRun).None? && env.fault(FinishRun).None? {
      RecordedTotalsMatchOutcome(env, t, now);
    }
  }

  /** The crawl part of ReadBackFailureIsFatal: the first listed brand's
      read-back fails, and nothing before it does. */
  lemma CrawledReadBackFails(env: Env, t: Tables, msg: string)
    requires DeletesSucceed(env)
    requires env.brandList.Fetched? && env.brandList.data != []
    requires forall k :: env.fault(Upsert(FipeBrands, k)).None?
    requires env.fault(SelectChildren(FipeBrands, [])).None?
    requires forall b :: env.fault(SelectChildren(FipeModels, [b])) == Some(msg)
    ensures Crawled(env, t).error == Some(msg)
  {
    DeletesInOrder(env);
    assert env.fault(DeleteAll(FipeValues)).None? && env.fault(DeleteAll(FipeYears)).None?;
    assert env.fault(DeleteAll(FipeModels)).None? && env.fault(DeleteAll(FipeBrands)).None?;
    var cleared := Cleared(env, t);
    var saved := BrandsSaved(env, cleared.0);
    BrandsSavedFacts(env, cleared.0);
    SavedBrandsNotEmpty(env, cleared.0);
    CrawlListIsFirstByName(saved.0);
    var brands := CrawlList(saved.0);
    var stats := Stats(0, 0, 0, 0).(brands := |env.brandList.data|);
    CrawlBrandsStep(env, saved.0, brands, stats);
    BrandReadBackFailureIsFatal(env, saved.0, Code(brands[0]), stats);
  }

  /** A non-empty brand list saved without a failing insert leaves at least
      one brand. */
  lemma SavedBrandsNotEmpty(env: Env, t: Tables)
    requires env.brandList.Fetched? && env.brandList.data != []
    requires forall k :: env.fault(Upsert(FipeBrands, k)).None?
    ensures BrandsSaved(env, t).0.brands != []
  {
    var items := env.brandList.data;
    var row := Row([] + [items[0].code], items[0].name);
    var first := UpsertRow(t.brands, row);
    SaveRowsFacts(env.fault, FipeBrands, first, [], true, items[1..]);
    assert HasKey(first, row.key);
    assert BrandsSaved(env, t).0.brands == SaveRows(env.fault, FipeBrands, first, [], true, items[1..]).0;
  }

  /** When the start record cannot be inserted, the end record overwrites the
      previous run's row: the log keeps its length, the previous start time
      stays, and the totals and status are this refresh's. */
  lemma LostStartOverwritesPreviousRun(env: Env, t: Tables, now: int)
    requires env.fault(InsertRun).Some? && env.fault(FinishRun).None?
    requires t.updates != []
    ensures var r := Refreshed(env, t, now);
      var last := |t.updates| - 1;
      && |r.db.updates| == |t.updates|
      && r.db.updates[..last] == t.updates[..last]
      && r.db.updates[last].lastUpdate == t.updates[last].lastUpdate
      && r.db.updates[last].totals == r.stats
  {
    CrawledFacts(env, t);
  }

  /** A refresh that returns its counters recorded the same counters. */
  lemma RecordedTotalsMatchOutcome(env: Env, t: Tables, now: int)
    requires env.fault(InsertRun).None? && env.fault(FinishRun).None?
    ensures var r := Refreshed(env, t, now);
      && |r.db.updates| == |t.updates| + 1
      && r.db.updates[|t.updates|].lastUpdate == now
      && r.db.updates[|t.updates|].totals == r.stats
      && r.db.updates[|t.updates|].errorMessage == r.error
      && (Outcome(r).Ok? ==> r.db.updates[|t.updates|].status == Completed)
      && (Outcome(r).Err? && r.error.value != "" ==> r.db.updates[|t.updates|].status == Failed)
      && (r.error == Some("") ==> r.db.updates[|t.updates|].status == Completed)
  {
    CrawledFacts(env, Started(env, t, now));
  }

  /** The boundary of the refresh interval: with one recorded start, a refresh
      is not due one millisecond before 24 hours and is due at 24 hours. */
  lemma RefreshDueAfterOneDay(env: Env, t: Tables, start: int)
    requires env.fault(ReadLastUpdate).None?
    requires t.updates == [RefreshRun(Completed, start, Stats(0, 0, 0, 0), None)]
    ensures !NeedsUpdate(env, t, start + RefreshInterval - 1)
    ensures NeedsUpdate(env, t, start + RefreshInterval)
  {
    assert t.updates[0] in t.updates;
  }
}
