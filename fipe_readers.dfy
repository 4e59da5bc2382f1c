/// The read side of the local FIPE cache (`getYears`, `getBrandsByYear`,
/// `getModelsByYearAndBrand`, `getValueByYearBrandModel` and `getCacheStats`
/// of `FipeCacheService`): each is one SQL query over the tables, and a query
/// that fails is rethrown. `failure` is the error the database raises for
/// the query, if it does.
module FipeReaders {
  import opened Common
  import opened Sorting
  import opened FipeTables
  import opened FipeCache
  import opened FipeCacheProperties

  const ValueNotFound: string := "Valor não encontrado"

  /** The value row survives the inner joins to its year, model and brand rows. */
  predicate Joined(t: Tables, v: Row<PricedValue>) {
    |v.key| == 3 && HasKey(t.years, v.key) && HasKey(t.models, v.key[..2]) && HasKey(t.brands, v.key[..1])
  }

  /** Some joined value row of model year `year` lies under the row with path `prefix`. */
  predicate PricedIn(t: Tables, prefix: seq<string>, year: int) {
    exists v :: v in t.values && Joined(t, v) && v.data.modelYear == year
      && |prefix| <= 3 && v.key[..|prefix|] == prefix
  }

  /** The `ano_modelo` column of the value rows. */
  function ModelYears(values: seq<Row<PricedValue>>): (years: seq<int>)
    ensures |years| == |values|
    ensures forall i :: 0 <= i < |values| ==> years[i] == values[i].data.modelYear
  {
    seq(|values|, i requires 0 <= i < |values| => values[i].data.modelYear)
  }

  /** getYears: `SELECT DISTINCT ano_modelo ... ORDER BY ano_modelo DESC`. */
  function GetYears(t: Tables, failure: Option<string>): (r: Result<seq<int>>)
    ensures r.Err? <==> failure.Some?
  {
    if failure.Some? then Err(failure.value)
    else Ok(Dedup(SortBy(ModelYears(t.values), Newer)))
  }

  /** getBrandsByYear: the brands with a priced value of model year `year`, by name. */
  function GetBrandsByYear(t: Tables, year: int, failure: Option<string>): (r: Result<seq<NameRow>>)
    ensures r.Err? <==> failure.Some?
  {
    if failure.Some? then Err(failure.value)
    else Ok(SortBy(Filter(t.brands, (b: NameRow) => PricedIn(t, b.key, year)), ByName))
  }

  /** getModelsByYearAndBrand: the models of the brand with code `brand` that
      have a priced value of model year `year`, by name. */
  function GetModelsByYearAndBrand(t: Tables, year: int, brand: string, failure: Option<string>): (r: Result<seq<NameRow>>)
    ensures r.Err? <==> failure.Some?
  {
    if failure.Some? then Err(failure.value)
    else Ok(SortBy(Filter(t.models, (m: NameRow) => |m.key| == 2 && m.key[0] == brand && PricedIn(t, m.key, year)), ByName))
  }

  /** The value rows `getValueByYearBrandModel` selects, in table order. */
  function ValueMatches(t: Tables, year: int, brand: string, model: string): seq<Row<PricedValue>> {
    Filter(t.values, (v: Row<PricedValue>) => Joined(t, v) && v.data.modelYear == year && v.key[0] == brand && v.key[1] == model)
  }

  /** getValueByYearBrandModel: the first matching row, or "Valor não encontrado". */
  function GetValueByYearBrandModel(t: Tables, year: int, brand: string, model: string, failure: Option<string>): (r: Result<PricedValue>)
    ensures failure.Some? ==> r == Err(failure.value)
  {
    if failure.Some? then Err(failure.value)
    else
      var matches := ValueMatches(t, year, brand, model);
      if matches == [] then Err(ValueNotFound) else Ok(matches[0].data)
  }

  datatype CacheStats = CacheStats(totalBrands: nat, totalModels: nat, totalYears: nat, totalValues: nat, lastUpdate: Option<int>)

  /** getCacheStats: the four row counts and the newest run start. */
  function GetCacheStats(t: Tables, failure: Option<string>): (r: Result<CacheStats>)
    ensures r.Err? <==> failure.Some?
  {
    if failure.Some? then Err(failure.value)
    else Ok(CacheStats(|t.brands|, |t.models|, |t.years|, |t.values|, LatestUpdate(t.updates)))
  }

  // ---------------------------------------------------------------------------
  // What the readers answer

  /** getYears lists every model year that has a value row, once each, newest first. */
  lemma GetYearsDistinctDescending(t: Tables)
    ensures forall y :: y in GetYears(t, None).value <==> exists v :: v in t.values && v.data.modelYear == y
    ensures var r := GetYears(t, None).value;
      forall i, j :: 0 <= i < j < |r| ==> r[i] > r[j]
  {
    var years := ModelYears(t.values);
    var sorted := SortBy(years, Newer);
    NewerTotalPreorder();
    SortBySorted(years, Newer);
    DedupStrictlyDescending(sorted);
    forall y
      ensures y in Dedup(sorted) <==> exists v :: v in t.values && v.data.modelYear == y
    {
      SortBySameElements(years, Newer, y);
      if y in years {
        var i :| 0 <= i < |years| && years[i] == y;
        assert t.values[i] in t.values;
      }
      if exists v :: v in t.values && v.data.modelYear == y {
        var v :| v in t.values && v.data.modelYear == y;
        var i :| 0 <= i < |t.values| && t.values[i] == v;
        assert years[i] == y;
      }
    }
  }

  /** getBrandsByYear answers exactly the brands priced in `year`, sorted by name. */
  lemma GetBrandsByYearExact(t: Tables, year: int)
    ensures forall b :: b in GetBrandsByYear(t, year, None).value <==> b in t.brands && PricedIn(t, b.key, year)
    ensures SortedBy(GetBrandsByYear(t, year, None).value, ByName)
  {
    var kept := Filter(t.brands, (b: NameRow) => PricedIn(t, b.key, year));
    ByNameTotalPreorder();
    SortBySorted(kept, ByName);
    forall b
      ensures b in SortBy(kept, ByName) <==> b in kept
    {
      SortBySameElements(kept, ByName, b);
    }
  }

  /** getModelsByYearAndBrand answers exactly the brand's models priced in
      `year`, sorted by name. */
  lemma GetModelsByYearAndBrandExact(t: Tables, year: int, brand: string)
    ensures forall m :: m in GetModelsByYearAndBrand(t, year, brand, None).value <==>
      m in t.models && |m.key| == 2 && m.key[0] == brand && PricedIn(t, m.key, year)
    ensures SortedBy(GetModelsByYearAndBrand(t, year, brand, None).value, ByName)
  {
    var kept := Filter(t.models, (m: NameRow) => |m.key| == 2 && m.key[0] == brand && PricedIn(t, m.key, year));
    ByNameTotalPreorder();
    SortBySorted(kept, ByName);
    forall m
      ensures m in SortBy(kept, ByName) <==> m in kept
    {
      SortBySameElements(kept, ByName, m);
    }
  }

  /** getValueByYearBrandModel fails with "Valor não encontrado" exactly when
      no joined value row of that year lies under the brand and model, and
      otherwise answers the payload of such a row. */
  lemma GetValueNotFoundExactly(t: Tables, year: int, brand: string, model: string)
    ensures var r := GetValueByYearBrandModel(t, year, brand, model, None);
      && (r == Err(ValueNotFound) <==> !exists v :: v in t.values && Joined(t, v) && v.data.modelYear == year && v.key[..2] == [brand, model])
      && (r.Ok? ==> exists v :: v in t.values && Joined(t, v) && v.data.modelYear == year && v.key[..2] == [brand, model] && v.data == r.value)
  {
    var matches := ValueMatches(t, year, brand, model);
    forall v | v in t.values && Joined(t, v)
      ensures v.key[..2] == [brand, model] <==> v.key[0] == brand && v.key[1] == model
    {
      assert v.key[0] == v.key[..2][0] && v.key[1] == v.key[..2][1];
    }
    if matches != [] {
      assert matches[0] in matches;
    }
  }

  /** In tables of the cache's shape every value row survives the joins. */
  lemma ValidValuesJoined(t: Tables, v: Row<PricedValue>)
    requires Valid(t)
    requires v in t.values
    ensures Joined(t, v)
  {
    var y :| y in t.years && y.key == v.key;
    var m :| m in t.models && m.key == y.key[..2];
    assert m.key[..1] == v.key[..1];
  }

  /** A value fetchAndSaveValue reports saved can be read back by its model
      year, brand and model, and its model year is listed by getYears. */
  lemma SavedValueIsReadable(env: Env, t: Tables, brand: string, model: string, year: string)
    requires Valid(t)
    requires ValueSaved(env, t, brand, model, year).1 == 1
    ensures var u := ValueSaved(env, t, brand, model, year).0;
      var v := env.price(brand, model, year).data;
      && GetValueByYearBrandModel(u, v.modelYear, brand, model, None).Ok?
      && v.modelYear in GetYears(u, None).value
  {
    var u := ValueSaved(env, t, brand, model, year).0;
    var v := env.price(brand, model, year).data;
    var row := Row([brand, model, year], v);
    assert u.years == t.years && u.models == t.models && u.brands == t.brands;
    UpsertRowMembers(t.values, row);
    assert row in u.values;
    var y :| y in t.years && y.key == row.key;
    var m :| m in t.models && m.key == y.key[..2];
    assert m.key[..1] == row.key[..1];
    assert Joined(u, row);
    GetValueNotFoundExactly(u, v.modelYear, brand, model);
    GetYearsDistinctDescending(u);
  }

  /** Right after a successful clearOldData the statistics count no rows and
      still show the newest run start. */
  lemma ClearedStatsAreEmpty(env: Env, t: Tables)
    requires Cleared(env, t).1.None?
    ensures GetCacheStats(Cleared(env, t).0, None) == Ok(CacheStats(0, 0, 0, 0, LatestUpdate(t.updates)))
  {
  }
}
