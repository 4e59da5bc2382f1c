/// GET /mechanics of `server/routes/maintenance.js`: the public search over
/// verified mechanic profiles, filtered by city, state, service and minimum
/// rating, best rated first, one page at a time.
///
/// The filters the query string asks for are a list of Conditions. The
/// handler's builder turns that list into SQL text with consecutive
/// placeholders (`BuildSearch`), and `Holds` says what each condition asks of
/// a row; the search result is stated through `Holds`.
module MechanicSearch {
  import opened Common
  import opened Sorting
  import opened Store
  import opened Pagination

  /** One filter of the search. The rating is `parseFloat` of the query
      value, read as an ordered value in the unit of `averageRating`. */
  datatype Condition = CityIs(city: string) | StateIs(state: string) | Offers(service: string) | RatedAtLeast(rating: int)

  /** The query-string values the handler reads. */
  datatype Search = Search(city: Option<string>, state: Option<string>, service: Option<string>, rating: Option<string>)

  /** The filters in the order the handler appends them: each truthy value
      adds one. */
  function Conditions(s: Search, parseRating: string -> int): (r: seq<Condition>)
    ensures |r| <= 4
  {
    CityPart(s) + StatePart(s) + ServicePart(s) + RatingPart(s, parseRating)
  }

  function CityPart(s: Search): seq<Condition> {
    if Given(s.city) then [CityIs(s.city.value)] else []
  }

  function StatePart(s: Search): seq<Condition> {
    if Given(s.state) then [StateIs(s.state.value)] else []
  }

  function ServicePart(s: Search): seq<Condition> {
    if Given(s.service) then [Offers(s.service.value)] else []
  }

  function RatingPart(s: Search, parseRating: string -> int): seq<Condition> {
    if Given(s.rating) then [RatedAtLeast(parseRating(s.rating.value))] else []
  }

  // ---------------------------------------------------------------------------
  // The SQL the builder writes

  const VerifiedOnly: string := " WHERE mp.is_verified = TRUE"

  /** The clause for one condition, bound to placeholder `$n`. */
  function ConditionSql(c: Condition, n: nat): string {
    match c
    case CityIs(_) => " AND LOWER(mp.city) = LOWER(" + Placeholder(n) + ")"
    case StateIs(_) => " AND LOWER(mp.state) = LOWER(" + Placeholder(n) + ")"
    case Offers(_) => " AND " + Placeholder(n) + " = ANY(mp.services_offered)"
    case RatedAtLeast(_) => " AND mp.average_rating >= " + Placeholder(n)
  }

  /** The value bound to a condition's placeholder. */
  function ConditionParam(c: Condition): Json {
    match c
    case CityIs(x) => JStr(x)
    case StateIs(x) => JStr(x)
    case Offers(x) => JStr(x)
    case RatedAtLeast(r) => JNum(r)
  }

  /** The clauses of the conditions, numbered from `first`. */
  function WhereSql(conds: seq<Condition>, first: nat): string
    decreases |conds|
  {
    if conds == [] then "" else ConditionSql(conds[0], first) + WhereSql(conds[1..], first + 1)
  }

  /** The parameters of the conditions, in order. */
  function Params(conds: seq<Condition>): (r: seq<Json>)
    ensures |r| == |conds|
  {
    seq(|conds|, k requires 0 <= k < |conds| => ConditionParam(conds[k]))
  }

  /** Ordering, LIMIT and OFFSET after `n` filters. */
  function Tail(n: nat): string {
    " ORDER BY mp.average_rating DESC, mp.total_ratings DESC LIMIT " + Placeholder(n + 1) + " OFFSET " + Placeholder(n + 2)
  }

  datatype SearchQuery = SearchQuery(query: string, params: seq<Json>, countQuery: string, countParams: seq<Json>)

  /** The clauses of two runs of conditions, the second numbered after the
      first. */
  lemma {:induction false} WhereSqlAppend(a: seq<Condition>, b: seq<Condition>, first: nat)
    ensures WhereSql(a + b, first) == WhereSql(a, first) + WhereSql(b, first + |a|)
    decreases |a|
  {
    if a == [] {
      assert a + b == b;
    } else {
      assert (a + b)[1..] == a[1..] + b;
      WhereSqlAppend(a[1..], b, first + 1);
    }
  }

  /** One more condition appends its clause, numbered after the others. */
  lemma WhereSqlSnoc(conds: seq<Condition>, c: Condition, first: nat)
    ensures WhereSql(conds + [c], first) == WhereSql(conds, first) + ConditionSql(c, first + |conds|)
  {
    WhereSqlAppend(conds, [c], first);
    assert [c][1..] == [];
  }

  /** Each filter takes the next placeholder: the k-th clause of the text is
      the k-th condition's, bound to `$(first+k)`, between the clauses of the
      conditions before and after it. */
  lemma WhereSqlNumbersConsecutively(conds: seq<Condition>, first: nat, k: nat)
    requires k < |conds|
    ensures WhereSql(conds, first)
         == WhereSql(conds[..k], first) + ConditionSql(conds[k], first + k) + WhereSql(conds[k + 1..], first + k + 1)
  {
    assert conds == conds[..k] + ([conds[k]] + conds[k + 1..]);
    WhereSqlAppend(conds[..k], [conds[k]] + conds[k + 1..], first);
    WhereSqlAppend([conds[k]], conds[k + 1..], first + k);
    assert [conds[k]][1..] == [];
  }

  /** One more condition, one more parameter. */
  lemma ParamsSnoc(conds: seq<Condition>, c: Condition)
    ensures Params(conds + [c]) == Params(conds) + [ConditionParam(c)]
  {
  }

  /** The handler's two passes: the search, whose LIMIT and OFFSET take the
      two placeholders after the filters', and the count, which restarts the
      numbering and rebuilds the same filters without LIMIT and OFFSET. */
  method BuildSearch(s: Search, parseRating: string -> int, limit: int, offset: int) returns (q: SearchQuery)
    ensures var conds := Conditions(s, parseRating);
      && q.query == VerifiedOnly + WhereSql(conds, 1) + Tail(|conds|)
      && q.params == Params(conds) + [JNum(limit), JNum(offset)]
      && q.countQuery == VerifiedOnly + WhereSql(conds, 1)
      && q.countParams == Params(conds)
  {
    var query, queryParams := Filters(s, parseRating);
    var paramCount := |queryParams|;
    query := query + " ORDER BY mp.average_rating DESC, mp.total_ratings DESC LIMIT " + Placeholder(paramCount + 1)
             + " OFFSET " + Placeholder(paramCount + 2);
    queryParams := queryParams + [JNum(limit), JNum(offset)];
    var countQuery, countParams := Filters(s, parseRating);
    q := SearchQuery(query, queryParams, countQuery, countParams);
  }

  /** One `if` block of the builder: `paramCount` goes up by one and the
      condition's clause, bound to the new count, and its value are appended. */
  method AppendFilter(query: string, params: seq<Json>, ghost start: string, ghost conds: seq<Condition>, c: Condition)
    returns (query': string, params': seq<Json>)
    requires query == start + WhereSql(conds, 1) && params == Params(conds)
    ensures query' == start + WhereSql(conds + [c], 1) && params' == Params(conds + [c])
  {
    var paramCount := |params| + 1;
    query' := query + ConditionSql(c, paramCount);
    params' := params + [ConditionParam(c)];
    WhereSqlSnoc(conds, c, 1);
    ParamsSnoc(conds, c);
    Regroup(start, WhereSql(conds, 1), ConditionSql(c, paramCount));
  }

  /** Concatenation regrouped; stated apart so the solver does not unfold the
      literal clauses to regroup them. */
  lemma Regroup(a: string, b: string, c: string)
    ensures a + b + c == a + (b + c)
  {
  }

  /** One pass of the `if (city) ... if (rating)` blocks. */
  method Filters(s: Search, parseRating: string -> int) returns (query: string, params: seq<Json>)
    ensures query == VerifiedOnly + WhereSql(Conditions(s, parseRating), 1)
    ensures params == Params(Conditions(s, parseRating))
  {
    query := VerifiedOnly;
    params := [];
    ghost var start, conds := query, [];
    NoFilters(start);
    if Given(s.city) {
      query, params := AppendFilter(query, params, start, conds, CityIs(s.city.value));
      conds := conds + [CityIs(s.city.value)];
    }
    assert conds == CityPart(s);
    if Given(s.state) {
      query, params := AppendFilter(query, params, start, conds, StateIs(s.state.value));
      conds := conds + [StateIs(s.state.value)];
    }
    assert conds == CityPart(s) + StatePart(s);
    if Given(s.service) {
      query, params := AppendFilter(query, params, start, conds, Offers(s.service.value));
      conds := conds + [Offers(s.service.value)];
    }
    assert conds == CityPart(s) + StatePart(s) + ServicePart(s);
    if Given(s.rating) {
      query, params := AppendFilter(query, params, start, conds, RatedAtLeast(parseRating(s.rating.value)));
      conds := conds + [RatedAtLeast(parseRating(s.rating.value))];
    }
    assert conds == Conditions(s, parseRating);
  }

  lemma NoFilters(start: string)
    ensures start == start + WhereSql([], 1)
  {
  }

  // ---------------------------------------------------------------------------
  // What the SQL selects

  /** What a condition asks of a profile; a NULL column fails the test. */
  predicate Holds(c: Condition, p: Profile) {
    match c
    case CityIs(x) => p.form.city.Some? && ToLower(p.form.city.value) == ToLower(x)
    case StateIs(x) => p.form.state.Some? && ToLower(p.form.state.value) == ToLower(x)
    case Offers(x) => p.form.servicesOffered.Some? && x in p.form.servicesOffered.value
    case RatedAtLeast(r) => p.averageRating >= r
  }

  /** A verified profile meeting every condition. */
  predicate Selected(p: Profile, conds: seq<Condition>) {
    p.isVerified && forall c :: c in conds ==> Holds(c, p)
  }

  /** The JOIN with `users` keeps the profiles whose user exists. */
  predicate HasUser(db: Db, p: Profile) {
    Find(db.users, (u: User) => u.id == p.userId).Some?
  }

  /** `ORDER BY mp.average_rating DESC, mp.total_ratings DESC`. */
  predicate BetterRated(a: Profile, b: Profile) {
    a.averageRating > b.averageRating || (a.averageRating == b.averageRating && a.totalRatings >= b.totalRatings)
  }

  lemma BetterRatedTotalPreorder()
    ensures TotalPreorder(BetterRated)
  {
  }

  /** The rows of the search before LIMIT and OFFSET. */
  function Results(db: Db, conds: seq<Condition>): seq<Profile> {
    SortBy(Filter(db.profiles, (p: Profile) => Selected(p, conds) && HasUser(db, p)), BetterRated)
  }

  /** The count query: the same filters, without the JOIN. */
  function Total(db: Db, conds: seq<Condition>): nat {
    |Filter(db.profiles, (p: Profile) => Selected(p, conds))|
  }

  /** GET /mechanics: None is the 500 a negative LIMIT or OFFSET draws. */
  function SearchOutcome(db: Db, s: Search, parseRating: string -> int, page: Option<int>, limit: Option<int>)
    : Option<Page<Profile>>
  {
    var conds := Conditions(s, parseRating);
    Paginate(Results(db, conds), Total(db, conds), PageOrDefault(page), LimitOrDefault(limit))
  }

  method SearchMechanics(store: Database, s: Search, parseRating: string -> int, page: Option<int>, limit: Option<int>)
    returns (r: Option<Page<Profile>>)
    ensures r == SearchOutcome(store.data, s, parseRating, page, limit)
  {
    var p := PageOrDefault(page);
    var l := LimitOrDefault(limit);
    var offset := Offset(p, l);
    var q := BuildSearch(s, parseRating, l, offset);
    if l < 0 || offset < 0 {
      return None;
    }
    var conds := Conditions(s, parseRating);
    var rows := Window(Results(store.data, conds), offset, l);
    var total := Total(store.data, conds);
    r := Some(Page(rows, p, l, total, Pages(total, l)));
  }

  // ---------------------------------------------------------------------------
  // What the search guarantees

  /** The search lists exactly the verified profiles with a user that meet
      every filter, each once, best rated first. */
  lemma ResultsExact(db: Db, conds: seq<Condition>)
    ensures var rows := Results(db, conds);
      && (forall p :: p in rows <==> p in db.profiles && Selected(p, conds) && HasUser(db, p))
      && (forall p :: p in rows ==> p.isVerified)
      && multiset(rows) == multiset(Filter(db.profiles, (p: Profile) => Selected(p, conds) && HasUser(db, p)))
      && SortedBy(rows, BetterRated)
  {
    var kept := Filter(db.profiles, (p: Profile) => Selected(p, conds) && HasUser(db, p));
    forall p ensures p in SortBy(kept, BetterRated) <==> p in kept {
      SortBySameElements(kept, BetterRated, p);
    }
    SortByPermutes(kept, BetterRated);
    BetterRatedTotalPreorder();
    SortBySorted(kept, BetterRated);
  }

  /** Each filter only narrows the search: a profile listed with one more
      condition is listed without it. */
  lemma FiltersOnlyNarrow(db: Db, conds: seq<Condition>, c: Condition, p: Profile)
    requires p in Results(db, conds + [c])
    ensures p in Results(db, conds) && Holds(c, p)
  {
    ResultsExact(db, conds + [c]);
    ResultsExact(db, conds);
  }

  /** Lower-casing is idempotent. */
  lemma ToLowerIdempotent(s: string)
    ensures ToLower(ToLower(s)) == ToLower(s)
  {
  }

  function LowerOption(o: Option<string>): Option<string> {
    if o.Some? then Some(ToLower(o.value)) else None
  }

  /** The condition with its city or state lower-cased. */
  function LowerCondition(c: Condition): Condition {
    match c
    case CityIs(x) => CityIs(ToLower(x))
    case StateIs(x) => StateIs(ToLower(x))
    case _ => c
  }

  function LowerAll(conds: seq<Condition>): (r: seq<Condition>)
    ensures |r| == |conds| && forall k :: 0 <= k < |conds| ==> r[k] == LowerCondition(conds[k])
  {
    seq(|conds|, k requires 0 <= k < |conds| => LowerCondition(conds[k]))
  }

  /** Lower-casing city and state in the query string lower-cases them in
      the conditions and changes nothing else. */
  lemma ConditionsLowered(s: Search, parseRating: string -> int)
    ensures Conditions(s.(city := LowerOption(s.city), state := LowerOption(s.state)), parseRating) == LowerAll(Conditions(s, parseRating))
  {
    var s' := s.(city := LowerOption(s.city), state := LowerOption(s.state));
    var conds := Conditions(s, parseRating);
    assert CityPart(s') == LowerAll(CityPart(s));
    assert StatePart(s') == LowerAll(StatePart(s));
    assert ServicePart(s') == ServicePart(s) == LowerAll(ServicePart(s));
    assert RatingPart(s', parseRating) == RatingPart(s, parseRating) == LowerAll(RatingPart(s, parseRating));
    LowerAllAppend(CityPart(s), StatePart(s));
    LowerAllAppend(CityPart(s) + StatePart(s), ServicePart(s));
    LowerAllAppend(CityPart(s) + StatePart(s) + ServicePart(s), RatingPart(s, parseRating));
  }

  lemma LowerAllAppend(a: seq<Condition>, b: seq<Condition>)
    ensures LowerAll(a + b) == LowerAll(a) + LowerAll(b)
  {
  }

  /** A lower-cased condition holds of the same profiles. */
  lemma LowerConditionHolds(c: Condition, p: Profile)
    ensures Holds(LowerCondition(c), p) == Holds(c, p)
  {
    match c
    case CityIs(x) => ToLowerIdempotent(x);
    case StateIs(x) => ToLowerIdempotent(x);
    case _ =>
  }

  /** City and state are compared case-insensitively: lower-casing them in
      the query string changes neither the rows nor the total. */
  lemma SearchIgnoresCase(db: Db, s: Search, parseRating: string -> int, page: Option<int>, limit: Option<int>)
    ensures SearchOutcome(db, s.(city := LowerOption(s.city), state := LowerOption(s.state)), parseRating, page, limit)
         == SearchOutcome(db, s, parseRating, page, limit)
  {
    var conds := Conditions(s, parseRating);
    var conds' := LowerAll(conds);
    ConditionsLowered(s, parseRating);
    forall p ensures Selected(p, conds') == Selected(p, conds) {
      forall c | c in conds ensures Holds(LowerCondition(c), p) == Holds(c, p) {
        LowerConditionHolds(c, p);
      }
      assert (forall c :: c in conds' ==> Holds(c, p)) <==> (forall k :: 0 <= k < |conds| ==> Holds(LowerCondition(conds[k]), p));
      assert (forall c :: c in conds ==> Holds(c, p)) <==> (forall k :: 0 <= k < |conds| ==> Holds(conds[k], p));
    }
    FilterAgreeing(db.profiles, (p: Profile) => Selected(p, conds') && HasUser(db, p), (p: Profile) => Selected(p, conds) && HasUser(db, p));
    FilterAgreeing(db.profiles, (p: Profile) => Selected(p, conds'), (p: Profile) => Selected(p, conds));
  }

  /** When every profile's user exists, the total is the number of rows the
      search pages through. */
  lemma TotalCountsResults(db: Db, conds: seq<Condition>)
    requires forall p :: p in db.profiles ==> HasUser(db, p)
    ensures |Results(db, conds)| == Total(db, conds)
  {
    FilterAgreeing(db.profiles, (p: Profile) => Selected(p, conds) && HasUser(db, p), (p: Profile) => Selected(p, conds));
  }
}
