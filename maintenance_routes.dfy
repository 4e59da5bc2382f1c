/// The public routes of `server/routes/maintenance.js`: the page a client
/// opens from the approval email (GET /maintenance/approve/:token) and a
/// mechanic's public reviews (GET /maintenance/mechanics/:id/reviews). The
/// search over mechanics, also in that file, is the MechanicSearch module.
module MaintenanceRoutes {
  import opened Common
  import opened Sorting
  import opened Store
  import opened Pagination
  import ClientMaintenance

  const NotFoundOrProcessed: string := "Manutenção não encontrada ou já processada"
  const MechanicNotFound: string := "Mecânico não encontrado"

  /** What a public route answers: the value it shows, or the status and
      error it refuses with. */
  datatype Shown<T> = Shown(value: T) | NotShown(status: nat, error: string)

  function UserById(db: Db, id: nat): Option<User> {
    Find(db.users, (u: User) => u.id == id)
  }

  function VehicleById(db: Db, id: nat): Option<Vehicle> {
    Find(db.vehicles, (v: Vehicle) => v.id == id)
  }

  function RecordById(db: Db, id: nat): Option<Maintenance> {
    Find(db.records, (m: Maintenance) => m.id == id)
  }

  /** `LEFT JOIN mechanic_profiles mp ON m.id = mp.user_id`. */
  function ProfileOfUser(db: Db, userId: nat): Option<Profile> {
    Find(db.profiles, (p: Profile) => p.userId == userId)
  }

  // ---------------------------------------------------------------------------
  // The approval page

  /** The record, its vehicle and client, the mechanic's name and profile,
      and the record's evidence. */
  datatype ApprovalView = ApprovalView(
    record: Maintenance,
    vehicle: Vehicle,
    client: User,
    mechanicName: string,
    mechanicProfile: Option<Profile>,
    evidence: seq<Evidence>)

  /** A record the approval query returns: pending, and its vehicle, client
      and mechanic rows exist for the inner JOINs. */
  predicate Approvable(db: Db, m: Maintenance) {
    && m.status == "pending"
    && VehicleById(db, m.vehicleId).Some?
    && UserById(db, m.clientId).Some?
    && UserById(db, m.mechanicId).Some?
  }

  /** `mp.business_name || first_name + ' ' + last_name`: a missing profile
      or an empty business name falls back to the mechanic's full name. */
  function DisplayName(profile: Option<Profile>, mechanic: User): string {
    if profile.Some? && profile.value.form.businessName != "" then profile.value.form.businessName
    else mechanic.firstName + " " + mechanic.lastName
  }

  function EvidenceOf(db: Db, id: nat): seq<Evidence> {
    Filter(db.evidence, (e: Evidence) => e.maintenanceId == id)
  }

  /** GET /approve/:token: the token is the record id. A token Postgres cannot
      read as an integer makes the query throw (500). */
  function ApprovalLookup(db: Db, token: string): Shown<ApprovalView> {
    match IdParam(token)
    case None => NotShown(500, ServerError)
    case Some(id) =>
      match Find(db.records, (m: Maintenance) => m.id == id && Approvable(db, m))
      case None => NotShown(404, NotFoundOrProcessed)
      case Some(m) =>
        var mechanic := UserById(db, m.mechanicId).value;
        var profile := ProfileOfUser(db, m.mechanicId);
        Shown(ApprovalView(m, VehicleById(db, m.vehicleId).value, UserById(db, m.clientId).value,
                           DisplayName(profile, mechanic), profile, EvidenceOf(db, id)))
  }

  method GetApproval(store: Database, token: string) returns (r: Shown<ApprovalView>)
    ensures r == ApprovalLookup(store.data, token)
  {
    var id := IdParam(token);
    if id.None? {
      return NotShown(500, ServerError);
    }
    var db := store.data;
    var found := Find(db.records, (m: Maintenance) => m.id == id.value && Approvable(db, m));
    if found.None? {
      return NotShown(404, NotFoundOrProcessed);
    }
    var m := found.value;
    var mechanic := UserById(db, m.mechanicId).value;
    var profile := ProfileOfUser(db, m.mechanicId);
    var evidence := EvidenceOf(db, id.value);
    r := Shown(ApprovalView(m, VehicleById(db, m.vehicleId).value, UserById(db, m.clientId).value,
                            DisplayName(profile, mechanic), profile, evidence));
  }

  /** The page shows a record exactly when a pending record with that id has
      its vehicle, client and mechanic; it is then that record, with that
      vehicle and client, named after the business when the profile has a
      name, with exactly the evidence filed for it. */
  lemma ApprovalShownIffPending(db: Db, id: nat)
    requires id <= MaxId
    ensures var r := ApprovalLookup(db, NatToString(id));
      && (r.Shown? <==> exists m :: m in db.records && m.id == id && Approvable(db, m))
      && (r.NotShown? ==> r == NotShown(404, NotFoundOrProcessed))
      && (r.Shown? ==>
            && r.value.record in db.records && r.value.record.id == id && r.value.record.status == "pending"
            && r.value.vehicle in db.vehicles && r.value.vehicle.id == r.value.record.vehicleId
            && r.value.client in db.users && r.value.client.id == r.value.record.clientId
            && (forall e :: e in r.value.evidence <==> e in db.evidence && e.maintenanceId == id)
            && ((r.value.mechanicProfile.Some? && r.value.mechanicProfile.value.form.businessName != "")
                  ==> r.value.mechanicName == r.value.mechanicProfile.value.form.businessName))
  {
    IdParamOfId(id);
  }

  /** Once the client approves or rejects a record, its approval page is gone:
      the lookup answers 404. */
  lemma DecidedNoLongerShown(db: Db, clientId: nat, id: nat, notes: Option<string>, reason: string, now: int)
    requires id <= MaxId
    requires Valid(db)
    ensures var (approved, reply) := ClientMaintenance.ApproveOutcome(db, clientId, NatToString(id), notes, now);
      reply == Done(200, ClientMaintenance.MaintenanceApproved) ==>
        ApprovalLookup(approved, NatToString(id)) == NotShown(404, NotFoundOrProcessed)
    ensures var (rejected, reply) := ClientMaintenance.RejectOutcome(db, clientId, NatToString(id), reason, now);
      reply == Done(200, ClientMaintenance.MaintenanceRejected) ==>
        ApprovalLookup(rejected, NatToString(id)) == NotShown(404, NotFoundOrProcessed)
  {
    IdParamOfId(id);
    var found := ClientMaintenance.ClientRecord(db, id, clientId);
    if found.Some? {
      var notes' := ClientMaintenance.TrimmedOption(notes);
      DecidedLeavesNonePending(db, id, clientId, ClientMaintenance.Approve(notes', now));
      DecidedLeavesNonePending(db, id, clientId, ClientMaintenance.Reject(Trim(reason), now));
    }
  }

  /** After a decision that moves the client's record off `pending`, no
      record with that id is pending any more: ids are unique, so the one
      record with that id is the decided one. */
  lemma DecidedLeavesNonePending(db: Db, id: nat, clientId: nat, decide: Maintenance -> Maintenance)
    requires Valid(db) && ClientMaintenance.ClientRecord(db, id, clientId).Some?
    requires forall x :: decide(x).id == x.id && decide(x).clientId == x.clientId && decide(x).status != "pending"
    ensures var after := db.(records := ClientMaintenance.Decide(db.records, id, clientId, decide));
      forall m :: m in after.records && m.id == id ==> m.status != "pending"
  {
    var m := ClientMaintenance.ClientRecord(db, id, clientId).value;
    var records := ClientMaintenance.Decide(db.records, id, clientId, decide);
    forall x | x in records && x.id == id ensures x.status != "pending" {
      var k :| 0 <= k < |records| && records[k] == x;
      assert db.records[k] in db.records && db.records[k].id == id;
      SameIdSameRow(db.records, (y: Maintenance) => y.id, db.records[k], m);
    }
  }

  // ---------------------------------------------------------------------------
  // A mechanic's public reviews

  /** One review as the listing shows it, with the client's name and the
      reviewed record's title from the JOINs. */
  datatype ReviewCard = ReviewCard(
    id: nat,
    rating: int,
    comment: Option<string>,
    clientName: string,
    maintenanceTitle: string,
    createdAt: int)

  /** `r.mechanic_id = <the profile's user> AND r.is_public = TRUE`. */
  predicate Public(r: Review, mechanicUserId: nat) {
    r.mechanicId == mechanicUserId && r.isPublic
  }

  /** The inner JOINs with the client and the record: a review whose client
      or record is missing yields no row. */
  function JoinReviews(db: Db, reviews: seq<Review>): (cards: seq<ReviewCard>)
    ensures |cards| <= |reviews|
    decreases |reviews|
  {
    if reviews == [] then []
    else
      var r := reviews[0];
      var rest := JoinReviews(db, reviews[1..]);
      match (UserById(db, r.clientId), RecordById(db, r.maintenanceId))
      case (Some(u), Some(m)) => [ReviewCard(r.id, r.rating, r.comment, u.firstName + " " + u.lastName, m.title, r.createdAt)] + rest
      case _ => rest
  }

  /** `ORDER BY r.created_at DESC`. */
  predicate NewerCard(a: ReviewCard, b: ReviewCard) {
    a.createdAt >= b.createdAt
  }

  lemma NewerCardTotalPreorder()
    ensures TotalPreorder(NewerCard)
  {
  }

  /** The listing's rows before LIMIT and OFFSET. */
  function ReviewRows(db: Db, mechanicUserId: nat): seq<ReviewCard> {
    SortBy(JoinReviews(db, Filter(db.reviews, (r: Review) => Public(r, mechanicUserId))), NewerCard)
  }

  /** The count query: the same filter, without the JOINs. */
  function PublicTotal(db: Db, mechanicUserId: nat): nat {
    |Filter(db.reviews, (r: Review) => Public(r, mechanicUserId))|
  }

  /** GET /mechanics/:id/reviews, `:id` being the profile id. */
  function ReviewsOutcome(db: Db, idParam: string, page: Option<int>, limit: Option<int>): Shown<Page<ReviewCard>> {
    match IdParam(idParam)
    case None => NotShown(500, ServerError)
    case Some(id) =>
      match Find(db.profiles, (p: Profile) => p.id == id)
      case None => NotShown(404, MechanicNotFound)
      case Some(p) =>
        match Paginate(ReviewRows(db, p.userId), PublicTotal(db, p.userId), PageOrDefault(page), LimitOrDefault(limit))
        case None => NotShown(500, ServerError)
        case Some(listed) => Shown(listed)
  }

  method ListReviews(store: Database, idParam: string, page: Option<int>, limit: Option<int>) returns (r: Shown<Page<ReviewCard>>)
    ensures r == ReviewsOutcome(store.data, idParam, page, limit)
  {
    var p := PageOrDefault(page);
    var l := LimitOrDefault(limit);
    var offset := Offset(p, l);
    var id := IdParam(idParam);
    if id.None? {
      return NotShown(500, ServerError);
    }
    var db := store.data;
    var profile := Find(db.profiles, (x: Profile) => x.id == id.value);
    if profile.None? {
      return NotShown(404, MechanicNotFound);
    }
    if !WindowAccepted(p, l) {
      return NotShown(500, ServerError);
    }
    var rows := Window(ReviewRows(db, profile.value.userId), offset, l);
    var total := PublicTotal(db, profile.value.userId);
    r := Shown(Page(rows, p, l, total, Pages(total, l)));
  }

  /** Each joined card comes from one of the reviews, with that review's id,
      rating, comment and date, and the name of its client. */
  lemma {:induction false} JoinedCardsComeFromReviews(db: Db, reviews: seq<Review>, c: ReviewCard)
    requires c in JoinReviews(db, reviews)
    ensures exists r, u :: (r in reviews && u in db.users && u.id == r.clientId
      && c == ReviewCard(r.id, r.rating, r.comment, u.firstName + " " + u.lastName, c.maintenanceTitle, r.createdAt))
    decreases |reviews|
  {
    var r := reviews[0];
    var rest := JoinReviews(db, reviews[1..]);
    if c in rest {
      JoinedCardsComeFromReviews(db, reviews[1..], c);
      var r', u' :| r' in reviews[1..] && u' in db.users && u'.id == r'.clientId
        && c == ReviewCard(r'.id, r'.rating, r'.comment, u'.firstName + " " + u'.lastName, c.maintenanceTitle, r'.createdAt);
      assert r' in reviews;
    } else {
      var u := UserById(db, r.clientId).value;
      assert r in reviews;
    }
  }

  /** Every review whose client and record exist yields a card. */
  lemma {:induction false} JoinedReviewsListed(db: Db, reviews: seq<Review>, r: Review)
    requires r in reviews && UserById(db, r.clientId).Some? && RecordById(db, r.maintenanceId).Some?
    ensures exists c :: c in JoinReviews(db, reviews) && c.id == r.id && c.rating == r.rating && c.createdAt == r.createdAt
    decreases |reviews|
  {
    if reviews[0] != r {
      JoinedReviewsListed(db, reviews[1..], r);
      var c :| c in JoinReviews(db, reviews[1..]) && c.id == r.id && c.rating == r.rating && c.createdAt == r.createdAt;
      var s := reviews[0];
      match (UserById(db, s.clientId), RecordById(db, s.maintenanceId))
      case (Some(u), Some(m)) =>
        assert JoinReviews(db, reviews) == [ReviewCard(s.id, s.rating, s.comment, u.firstName + " " + u.lastName, m.title, s.createdAt)]
          + JoinReviews(db, reviews[1..]);
      case _ =>
    } else {
      var u := UserById(db, r.clientId).value;
      var m := RecordById(db, r.maintenanceId).value;
      assert JoinReviews(db, reviews)[0] == ReviewCard(r.id, r.rating, r.comment, u.firstName + " " + u.lastName, m.title, r.createdAt);
    }
  }

  /** The listing shows only the mechanic's public reviews, every one of them
      whose client and record exist, newest first. */
  lemma ReviewRowsExact(db: Db, mechanicUserId: nat)
    ensures var rows := ReviewRows(db, mechanicUserId);
      && (forall c :: c in rows ==> exists r :: r in db.reviews && Public(r, mechanicUserId) && r.id == c.id && r.rating == c.rating)
      && (forall r :: r in db.reviews && Public(r, mechanicUserId)
            && UserById(db, r.clientId).Some? && RecordById(db, r.maintenanceId).Some?
            ==> exists c :: c in rows && c.id == r.id && c.rating == r.rating)
      && SortedBy(rows, NewerCard)
  {
    var public := Filter(db.reviews, (r: Review) => Public(r, mechanicUserId));
    var joined := JoinReviews(db, public);
    forall c ensures c in ReviewRows(db, mechanicUserId) <==> c in joined {
      SortBySameElements(joined, NewerCard, c);
    }
    forall c | c in joined ensures exists r :: r in db.reviews && Public(r, mechanicUserId) && r.id == c.id && r.rating == c.rating {
      JoinedCardsComeFromReviews(db, public, c);
    }
    forall r | r in db.reviews && Public(r, mechanicUserId)
        && UserById(db, r.clientId).Some? && RecordById(db, r.maintenanceId).Some?
      ensures exists c :: c in joined && c.id == r.id && c.rating == r.rating
    {
      JoinedReviewsListed(db, public, r);
    }
    NewerCardTotalPreorder();
    SortBySorted(joined, NewerCard);
  }

  /** The route refuses exactly a bad id (500), an unknown profile (404) and
      a window Postgres rejects (500); otherwise it lists the profile's
      reviews with the count of its public reviews. */
  lemma ReviewsShownIffProfile(db: Db, id: nat, page: Option<int>, limit: Option<int>)
    requires id <= MaxId
    ensures var r := ReviewsOutcome(db, NatToString(id), page, limit);
      && (r == NotShown(404, MechanicNotFound) <==> forall p :: p in db.profiles ==> p.id != id)
      && (r.Shown? <==> (exists p :: p in db.profiles && p.id == id) && WindowAccepted(PageOrDefault(page), LimitOrDefault(limit)))
      && (r.Shown? ==> exists p :: p in db.profiles && p.id == id && r.value.total == PublicTotal(db, p.userId))
  {
    IdParamOfId(id);
  }

  /** A review the client sends is public and counts towards the reviewed
      mechanic's total at once. */
  lemma SentReviewCounts(db: Db, clientId: nat, idParam: string, rating: int, comment: Option<string>, now: int, mechanicUserId: nat)
    ensures var (after, reply) := ClientMaintenance.ReviewOutcome(db, clientId, idParam, rating, comment, now);
      reply == Done(201, ClientMaintenance.ReviewSent) ==>
        var reviewed := ClientMaintenance.ClientRecord(db, IdParam(idParam).value, clientId).value;
        PublicTotal(after, mechanicUserId)
          == PublicTotal(db, mechanicUserId) + (if mechanicUserId == reviewed.mechanicId then 1 else 0)
  {
    var (after, reply) := ClientMaintenance.ReviewOutcome(db, clientId, idParam, rating, comment, now);
    if reply == Done(201, ClientMaintenance.ReviewSent) {
      var review := after.reviews[|after.reviews| - 1];
      assert after.reviews == db.reviews + [review];
      FilterConcat(db.reviews, [review], (r: Review) => Public(r, mechanicUserId));
      assert [review][1..] == [];
    }
  }

  /** When every public review's client and record exist, the total is the
      number of rows the listing pages through. */
  lemma {:induction false} JoinKeepsAll(db: Db, reviews: seq<Review>)
    requires forall r :: r in reviews ==> UserById(db, r.clientId).Some? && RecordById(db, r.maintenanceId).Some?
    ensures |JoinReviews(db, reviews)| == |reviews|
    decreases |reviews|
  {
    if reviews != [] {
      JoinKeepsAll(db, reviews[1..]);
    }
  }

  lemma TotalCountsReviewRows(db: Db, mechanicUserId: nat)
    requires forall r :: r in db.reviews ==> UserById(db, r.clientId).Some? && RecordById(db, r.maintenanceId).Some?
    ensures |ReviewRows(db, mechanicUserId)| == PublicTotal(db, mechanicUserId)
  {
    var public := Filter(db.reviews, (r: Review) => Public(r, mechanicUserId));
    JoinKeepsAll(db, public);
    SortByPermutes(JoinReviews(db, public), NewerCard);
    assert |multiset(ReviewRows(db, mechanicUserId))| == |multiset(JoinReviews(db, public))|;
  }
}
