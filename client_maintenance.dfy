/// The maintenance handlers of `server/routes/clients.js` on the client's
/// side: approval and rejection of a pending record, and the one review a
/// client may leave on an approved record. The listing is in RecordListing.
///
/// The notification emails these handlers send are left out: their failure
/// is caught and ignored, so they change neither the tables nor the reply.
module ClientMaintenance {
  import opened Common
  import opened Store

  const MaintenanceNotFound: string := "Manutenção não encontrada"
  const OnlyPendingApproved: string := "Apenas manutenções pendentes podem ser aprovadas"
  const OnlyPendingRejected: string := "Apenas manutenções pendentes podem ser rejeitadas"
  const MaintenanceApproved: string := "Manutenção aprovada com sucesso"
  const MaintenanceRejected: string := "Manutenção rejeitada com sucesso"
  const OnlyApprovedReviewed: string := "Apenas manutenções aprovadas podem ser avaliadas"
  const AlreadyReviewed: string := "Esta manutenção já foi avaliada"
  const ReviewSent: string := "Avaliação enviada com sucesso"

  // ---------------------------------------------------------------------------
  // Approval, rejection and review

  function ClientRecord(db: Db, id: nat, userId: nat): Option<Maintenance> {
    Find(db.records, (m: Maintenance) => m.id == id && m.clientId == userId)
  }

  /** `UPDATE maintenance_records SET ... WHERE id = $2 AND client_id = $3`. */
  function Decide(records: seq<Maintenance>, id: nat, userId: nat, decide: Maintenance -> Maintenance): (r: seq<Maintenance>)
    ensures |r| == |records|
  {
    seq(|records|, k requires 0 <= k < |records| =>
      if records[k].id == id && records[k].clientId == userId then decide(records[k]) else records[k])
  }

  function Approve(notes: Option<string>, now: int): Maintenance -> Maintenance {
    (m: Maintenance) => m.(status := "approved", approvalDate := Some(now), clientNotes := notes)
  }

  function Reject(reason: string, now: int): Maintenance -> Maintenance {
    (m: Maintenance) => m.(status := "rejected", rejectionDate := Some(now), rejectionReason := Some(reason))
  }

  /** `clientNotes` trimmed by the sanitizer; a missing one binds NULL. */
  function TrimmedOption(s: Option<string>): Option<string> {
    if s.Some? then Some(Trim(s.value)) else None
  }

  /** PUT /maintenance/:id/approve. */
  function ApproveOutcome(db: Db, userId: nat, idParam: string, clientNotes: Option<string>, now: int): (Db, Reply) {
    match IdParam(idParam)
    case None => (db, Refused(500, ServerError))
    case Some(id) =>
      match ClientRecord(db, id, userId)
      case None => (db, Refused(404, MaintenanceNotFound))
      case Some(m) =>
        if m.status != "pending" then (db, Refused(400, OnlyPendingApproved))
        else (db.(records := Decide(db.records, id, userId, Approve(TrimmedOption(clientNotes), now))), Done(200, MaintenanceApproved))
  }

  /** PUT /maintenance/:id/reject: the reason must hold five characters once
      trimmed. */
  function RejectOutcome(db: Db, userId: nat, idParam: string, reason: string, now: int): (Db, Reply) {
    if |Trim(reason)| < 5 then (db, InvalidBody)
    else
      match IdParam(idParam)
      case None => (db, Refused(500, ServerError))
      case Some(id) =>
        match ClientRecord(db, id, userId)
        case None => (db, Refused(404, MaintenanceNotFound))
        case Some(m) =>
          if m.status != "pending" then (db, Refused(400, OnlyPendingRejected))
          else (db.(records := Decide(db.records, id, userId, Reject(Trim(reason), now))), Done(200, MaintenanceRejected))
  }

  /** POST /maintenance/:id/review: a rating from 1 to 5 on an approved
      record not reviewed yet by this client. */
  function ReviewOutcome(db: Db, userId: nat, idParam: string, rating: int, comment: Option<string>, now: int): (Db, Reply) {
    if !(1 <= rating <= 5) then (db, InvalidBody)
    else
      match IdParam(idParam)
      case None => (db, Refused(500, ServerError))
      case Some(id) =>
        match ClientRecord(db, id, userId)
        case None => (db, Refused(404, MaintenanceNotFound))
        case Some(m) =>
          if m.status != "approved" then (db, Refused(400, OnlyApprovedReviewed))
          else if Find(db.reviews, (r: Review) => r.maintenanceId == id && r.clientId == userId).Some? then
            (db, Refused(400, AlreadyReviewed))
          else
            var review := Review(db.serial, id, userId, m.mechanicId, rating, TrimmedOption(comment), true, now);
            (db.(reviews := db.reviews + [review], serial := db.serial + 1), Done(201, ReviewSent))
  }

  method ApproveMaintenance(store: Database, userId: nat, idParam: string, clientNotes: Option<string>, now: int) returns (reply: Reply)
    modifies store
    ensures (store.data, reply) == ApproveOutcome(old(store.data), userId, idParam, clientNotes, now)
  {
    var id := IdParam(idParam);
    if id.None? {
      return Refused(500, ServerError);
    }
    var check := ClientRecord(store.data, id.value, userId);
    if check.None? {
      return Refused(404, MaintenanceNotFound);
    }
    if check.value.status != "pending" {
      return Refused(400, OnlyPendingApproved);
    }
    var notes := TrimmedOption(clientNotes);
    store.data := store.data.(records := Decide(store.data.records, id.value, userId, Approve(notes, now)));
    reply := Done(200, MaintenanceApproved);
  }

  method RejectMaintenance(store: Database, userId: nat, idParam: string, reason: string, now: int) returns (reply: Reply)
    modifies store
    ensures (store.data, reply) == RejectOutcome(old(store.data), userId, idParam, reason, now)
  {
    if |Trim(reason)| < 5 {
      return InvalidBody;
    }
    var id := IdParam(idParam);
    if id.None? {
      return Refused(500, ServerError);
    }
    var check := ClientRecord(store.data, id.value, userId);
    if check.None? {
      return Refused(404, MaintenanceNotFound);
    }
    if check.value.status != "pending" {
      return Refused(400, OnlyPendingRejected);
    }
    store.data := store.data.(records := Decide(store.data.records, id.value, userId, Reject(Trim(reason), now)));
    reply := Done(200, MaintenanceRejected);
  }

  method ReviewMaintenance(store: Database, userId: nat, idParam: string, rating: int, comment: Option<string>, now: int) returns (reply: Reply)
    modifies store
    ensures (store.data, reply) == ReviewOutcome(old(store.data), userId, idParam, rating, comment, now)
  {
    if !(1 <= rating <= 5) {
      return InvalidBody;
    }
    var id := IdParam(idParam);
    if id.None? {
      return Refused(500, ServerError);
    }
    var check := ClientRecord(store.data, id.value, userId);
    if check.None? {
      return Refused(404, MaintenanceNotFound);
    }
    if check.value.status != "approved" {
      return Refused(400, OnlyApprovedReviewed);
    }
    var existing := Find(store.data.reviews, (r: Review) => r.maintenanceId == id.value && r.clientId == userId);
    if existing.Some? {
      return Refused(400, AlreadyReviewed);
    }
    var review := Review(store.data.serial, id.value, userId, check.value.mechanicId, rating, TrimmedOption(comment), true, now);
    store.data := store.data.(reviews := store.data.reviews + [review], serial := store.data.serial + 1);
    reply := Done(201, ReviewSent);
  }

  // ---------------------------------------------------------------------------
  // What the handlers guarantee

  /** Rewriting records in place without changing their ids keeps the
      database's guarantees. */
  lemma SameRecordIdsKeepValid(db: Db, records: seq<Maintenance>)
    requires Valid(db)
    requires |records| == |db.records| && forall k :: 0 <= k < |records| ==> records[k].id == db.records[k].id
    ensures Valid(db.(records := records))
  {
    assert UniqueIds(records, (m: Maintenance) => m.id) by {
      forall i, j | 0 <= i < j < |records| ensures records[i].id != records[j].id {
        assert db.records[i].id != db.records[j].id;
      }
    }
    forall m | m in records ensures m.id < db.serial {
      var k :| 0 <= k < |records| && records[k] == m;
      assert db.records[k] in db.records;
    }
  }

  /** With unique ids, the record a client names is the only one the UPDATE
      touches. */
  lemma DecideTouchesOne(records: seq<Maintenance>, id: nat, userId: nat, decide: Maintenance -> Maintenance, m: Maintenance)
    requires UniqueIds(records, (x: Maintenance) => x.id)
    requires m in records && m.id == id && m.clientId == userId
    ensures forall k :: 0 <= k < |records| ==>
      Decide(records, id, userId, decide)[k] == if records[k] == m then decide(m) else records[k]
  {
    forall k | 0 <= k < |records| && records[k].id == id
      ensures records[k] == m
    {
      SameIdSameRow(records, (x: Maintenance) => x.id, records[k], m);
    }
  }

  /** Approval succeeds exactly on the client's pending record; it marks that
      record approved at `now` and leaves every other record as it was. */
  lemma ApproveOnlyPending(db: Db, userId: nat, id: nat, notes: Option<string>, now: int)
    requires id <= MaxId
    requires Valid(db)
    ensures var (after, reply) := ApproveOutcome(db, userId, NatToString(id), notes, now);
      && (reply == Done(200, MaintenanceApproved) <==>
            exists m :: m in db.records && m.id == id && m.clientId == userId && m.status == "pending")
      && Valid(after) && |after.records| == |db.records|
      && forall k :: 0 <= k < |db.records| ==>
           after.records[k] == db.records[k]
           || (db.records[k].status == "pending" && after.records[k].status == "approved"
               && after.records[k].approvalDate == Some(now) && after.records[k].id == id)
  {
    IdParamOfId(id);
    var found := ClientRecord(db, id, userId);
    forall m | m in db.records && m.id == id && m.clientId == userId ensures found == Some(m) {
      SameIdSameRow(db.records, (x: Maintenance) => x.id, found.value, m);
    }
    if found.Some? && found.value.status == "pending" {
      var decide := Approve(TrimmedOption(notes), now);
      DecideTouchesOne(db.records, id, userId, decide, found.value);
      SameRecordIdsKeepValid(db, Decide(db.records, id, userId, decide));
    }
  }

  /** Rejection mirrors approval: only the client's pending record, marked
      rejected at `now` with the trimmed reason. */
  lemma RejectOnlyPending(db: Db, userId: nat, id: nat, reason: string, now: int)
    requires id <= MaxId
    requires Valid(db) && |Trim(reason)| >= 5
    ensures var (after, reply) := RejectOutcome(db, userId, NatToString(id), reason, now);
      && (reply == Done(200, MaintenanceRejected) <==>
            exists m :: m in db.records && m.id == id && m.clientId == userId && m.status == "pending")
      && Valid(after) && |after.records| == |db.records|
      && forall k :: 0 <= k < |db.records| ==>
           after.records[k] == db.records[k]
           || (db.records[k].status == "pending" && after.records[k].status == "rejected"
               && after.records[k].rejectionReason == Some(Trim(reason)) && after.records[k].id == id)
  {
    IdParamOfId(id);
    var found := ClientRecord(db, id, userId);
    forall m | m in db.records && m.id == id && m.clientId == userId ensures found == Some(m) {
      SameIdSameRow(db.records, (x: Maintenance) => x.id, found.value, m);
    }
    if found.Some? && found.value.status == "pending" {
      var decide := Reject(Trim(reason), now);
      DecideTouchesOne(db.records, id, userId, decide, found.value);
      SameRecordIdsKeepValid(db, Decide(db.records, id, userId, decide));
    }
  }

  /** A decided record stays decided: once approved, neither approval nor
      rejection accepts it again. */
  lemma ApprovedIsFinal(db: Db, userId: nat, id: nat, notes: Option<string>, now: int,
                        notes': Option<string>, reason: string, later: int)
    requires id <= MaxId
    requires Valid(db) && |Trim(reason)| >= 5
    requires ApproveOutcome(db, userId, NatToString(id), notes, now).1 == Done(200, MaintenanceApproved)
    ensures var after := ApproveOutcome(db, userId, NatToString(id), notes, now).0;
      && ApproveOutcome(after, userId, NatToString(id), notes', later) == (after, Refused(400, OnlyPendingApproved))
      && RejectOutcome(after, userId, NatToString(id), reason, later) == (after, Refused(400, OnlyPendingRejected))
  {
    IdParamOfId(id);
    DecidedRecord(db, id, userId, Approve(TrimmedOption(notes), now));
  }

  /** After the UPDATE, the client's lookup finds the decided record. */
  lemma DecidedRecord(db: Db, id: nat, userId: nat, decide: Maintenance -> Maintenance)
    requires Valid(db) && ClientRecord(db, id, userId).Some?
    requires forall x :: decide(x).id == x.id && decide(x).clientId == x.clientId
    ensures var records := Decide(db.records, id, userId, decide);
      Valid(db.(records := records))
      && ClientRecord(db.(records := records), id, userId) == Some(decide(ClientRecord(db, id, userId).value))
  {
    var m := ClientRecord(db, id, userId).value;
    var records := Decide(db.records, id, userId, decide);
    DecideTouchesOne(db.records, id, userId, decide, m);
    SameRecordIdsKeepValid(db, records);
    var k :| 0 <= k < |db.records| && db.records[k] == m;
    assert records[k] == decide(m) && records[k] in records;
    var m' := ClientRecord(db.(records := records), id, userId).value;
    SameIdSameRow(records, (x: Maintenance) => x.id, m', decide(m));
  }

  /** A review is accepted exactly for a valid rating on the client's
      approved record that the client has not reviewed; it is then the only
      review of that record by that client, so a second one is refused. */
  lemma ReviewOnceOnApproved(db: Db, userId: nat, id: nat, rating: int, comment: Option<string>, now: int)
    requires id <= MaxId
    requires Valid(db)
    ensures var (after, reply) := ReviewOutcome(db, userId, NatToString(id), rating, comment, now);
      && (reply == Done(201, ReviewSent) <==>
            && 1 <= rating <= 5
            && (exists m :: m in db.records && m.id == id && m.clientId == userId && m.status == "approved")
            && (forall r :: r in db.reviews ==> !(r.maintenanceId == id && r.clientId == userId)))
      && Valid(after)
      && (reply == Done(201, ReviewSent) ==>
            ReviewOutcome(after, userId, NatToString(id), rating, comment, now).1 == Refused(400, AlreadyReviewed))
  {
    IdParamOfId(id);
    var found := ClientRecord(db, id, userId);
    forall m | m in db.records && m.id == id && m.clientId == userId ensures found == Some(m) {
      SameIdSameRow(db.records, (x: Maintenance) => x.id, found.value, m);
    }
    var (after, reply) := ReviewOutcome(db, userId, NatToString(id), rating, comment, now);
    if reply == Done(201, ReviewSent) {
      var review := Review(db.serial, id, userId, found.value.mechanicId, rating, TrimmedOption(comment), true, now);
      AppendFreshId(db.reviews, (r: Review) => r.id, review, db.serial);
      forall i, j | 0 <= i < j < |after.reviews|
        ensures (after.reviews[i].maintenanceId, after.reviews[i].clientId) != (after.reviews[j].maintenanceId, after.reviews[j].clientId)
      {
        if j == |db.reviews| {
          assert db.reviews[i] in db.reviews;
        }
      }
      BumpKeepsValid(db, db.serial + 1);
      assert review in after.reviews;
    }
  }
}
