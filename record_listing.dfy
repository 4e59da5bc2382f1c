/// GET /maintenance, which `server/routes/clients.js` and
/// `server/routes/mechanics.js` each implement for their own side: the
/// caller's records, optionally of one status, newest first, one page at a
/// time, with the total from a separate count query.
module RecordListing {
  import opened Common
  import opened Sorting
  import opened Store
  import opened Pagination

  /** Whose records are listed: a client's (the JOIN brings the mechanic) or
      a mechanic's (the JOIN brings the client). */
  datatype Side = ClientSide | MechanicSide

  function OwnerColumn(side: Side): string {
    if side == ClientSide then "mr.client_id" else "mr.mechanic_id"
  }

  function OwnerOf(m: Maintenance, side: Side): nat {
    if side == ClientSide then m.clientId else m.mechanicId
  }

  /** The other party the listing JOINs with `users`. */
  function PartyOf(m: Maintenance, side: Side): nat {
    if side == ClientSide then m.mechanicId else m.clientId
  }

  /** The filter clauses and parameters as the handler builds them. */
  datatype Query = Query(filter: string, tail: string, params: seq<Json>, countFilter: string, countParams: seq<Json>)

  /** `$1` is the caller, an optional status takes `$2`, and LIMIT and OFFSET
      take the two placeholders after the last one used; the count query
      hard-codes `$2` for the status, which is the same placeholder. */
  method BuildQuery(side: Side, ownerId: nat, status: Option<string>, limit: int, offset: int) returns (q: Query)
    ensures q.filter == " WHERE " + OwnerColumn(side) + " = $1" + (if Given(status) then " AND mr.status = " + Placeholder(2) else "")
    ensures var n := if Given(status) then 2 else 1;
      && q.tail == " ORDER BY mr.created_at DESC LIMIT " + Placeholder(n + 1) + " OFFSET " + Placeholder(n + 2)
      && |q.params| == n + 2
      && q.params[0] == JNum(ownerId) && (Given(status) ==> q.params[1] == JStr(status.value))
      && q.params[n] == JNum(limit) && q.params[n + 1] == JNum(offset)
    ensures q.countFilter == q.filter && q.countParams == q.params[..|q.params| - 2]
  {
    var query := " WHERE " + OwnerColumn(side) + " = $1";
    var queryParams := [JNum(ownerId)];
    var paramCount := 1;
    if Given(status) {
      paramCount := paramCount + 1;
      query := query + " AND mr.status = " + Placeholder(paramCount);
      queryParams := queryParams + [JStr(status.value)];
    }
    var tail := " ORDER BY mr.created_at DESC LIMIT " + Placeholder(paramCount + 1) + " OFFSET " + Placeholder(paramCount + 2);
    queryParams := queryParams + [JNum(limit), JNum(offset)];
    var countQuery := " WHERE " + OwnerColumn(side) + " = $1";
    var countParams := [JNum(ownerId)];
    if Given(status) {
      countQuery := countQuery + " AND mr.status = $2";
      countParams := countParams + [JStr(status.value)];
    }
    assert Placeholder(2) == "$2";
    q := Query(query, tail, queryParams, countQuery, countParams);
  }

  /** `ORDER BY mr.created_at DESC`. */
  predicate LaterFirst(a: Maintenance, b: Maintenance) {
    a.createdAt >= b.createdAt
  }

  lemma LaterFirstTotalPreorder()
    ensures TotalPreorder(LaterFirst)
  {
  }

  predicate Matches(m: Maintenance, side: Side, ownerId: nat, status: Option<string>) {
    OwnerOf(m, side) == ownerId && (Given(status) ==> m.status == status.value)
  }

  /** The record's vehicle and other party exist: the inner JOINs keep it. */
  predicate Joined(db: Db, m: Maintenance, side: Side) {
    && Find(db.vehicles, (v: Vehicle) => v.id == m.vehicleId).Some?
    && Find(db.users, (u: User) => u.id == PartyOf(m, side)).Some?
  }

  /** The rows of the listing query before LIMIT and OFFSET. */
  function Records(db: Db, side: Side, ownerId: nat, status: Option<string>): seq<Maintenance> {
    SortBy(Filter(db.records, (m: Maintenance) => Matches(m, side, ownerId, status) && Joined(db, m, side)), LaterFirst)
  }

  /** The count query: the same filter, without the JOINs. */
  function Total(db: Db, side: Side, ownerId: nat, status: Option<string>): nat {
    |Filter(db.records, (m: Maintenance) => Matches(m, side, ownerId, status))|
  }

  /** One page of the caller's records, newest first; None is the 500 a
      negative LIMIT or OFFSET draws. */
  function ListOutcome(db: Db, side: Side, ownerId: nat, status: Option<string>, page: Option<int>, limit: Option<int>)
    : Option<Page<Maintenance>>
  {
    Paginate(Records(db, side, ownerId, status), Total(db, side, ownerId, status), PageOrDefault(page), LimitOrDefault(limit))
  }

  method ListMaintenance(store: Database, side: Side, ownerId: nat, status: Option<string>, page: Option<int>, limit: Option<int>)
    returns (r: Option<Page<Maintenance>>)
    ensures r == ListOutcome(store.data, side, ownerId, status, page, limit)
  {
    var p := PageOrDefault(page);
    var l := LimitOrDefault(limit);
    var offset := Offset(p, l);
    var q := BuildQuery(side, ownerId, status, l, offset);
    if l < 0 || offset < 0 {
      return None;
    }
    var rows := Window(Records(store.data, side, ownerId, status), offset, l);
    var total := Total(store.data, side, ownerId, status);
    r := Some(Page(rows, p, l, total, Pages(total, l)));
  }

  /** The listing holds exactly the caller's joined records with the
      requested status, each once, newest first. */
  lemma RecordsExact(db: Db, side: Side, ownerId: nat, status: Option<string>)
    ensures var rows := Records(db, side, ownerId, status);
      var keep := (m: Maintenance) => Matches(m, side, ownerId, status) && Joined(db, m, side);
      && (forall m :: m in rows <==> m in db.records && keep(m))
      && multiset(rows) == multiset(Filter(db.records, keep))
      && SortedBy(rows, LaterFirst)
  {
    var kept := Filter(db.records, (m: Maintenance) => Matches(m, side, ownerId, status) && Joined(db, m, side));
    forall m ensures m in SortBy(kept, LaterFirst) <==> m in kept {
      SortBySameElements(kept, LaterFirst, m);
    }
    SortByPermutes(kept, LaterFirst);
    LaterFirstTotalPreorder();
    SortBySorted(kept, LaterFirst);
  }

  /** When every record's vehicle and parties exist, the count query's total
      is the number of rows the listing pages through. */
  lemma TotalCountsListedRows(db: Db, side: Side, ownerId: nat, status: Option<string>)
    requires forall m :: m in db.records ==> Joined(db, m, side)
    ensures |Records(db, side, ownerId, status)| == Total(db, side, ownerId, status)
  {
    FilterAgreeing(db.records, (m: Maintenance) => Matches(m, side, ownerId, status) && Joined(db, m, side),
                   (m: Maintenance) => Matches(m, side, ownerId, status));
  }

  /** Row `k` of the listing shows on page `k / limit + 1`. */
  lemma EveryRecordOnItsPage(db: Db, side: Side, ownerId: nat, status: Option<string>, limit: nat, k: nat)
    requires limit > 0 && k < |Records(db, side, ownerId, status)|
    ensures var rows := Records(db, side, ownerId, status);
      var page := ListOutcome(db, side, ownerId, status, Some(k / limit + 1), Some(limit));
      page.Some? && rows[k] in page.value.items
  {
    var rows := Records(db, side, ownerId, status);
    RowOnItsPage(rows, limit, k);
    var w := Window(rows, Offset(k / limit + 1, limit), limit);
    assert w[k % limit] in w;
  }
}
