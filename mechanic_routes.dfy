/// The mechanic's handlers of `server/routes/mechanics.js` other than the
/// evidence upload (EvidenceUpload) and the listing (RecordListing on the
/// mechanic's side): reading and saving the mechanic's profile, and
/// registering a maintenance for a client who may not have an account yet.
///
/// The approval email sent after a registration is returned as a Notice
/// rather than sent: its failure is caught and ignored, so it changes neither
/// the tables nor the reply.
module MechanicRoutes {
  import opened Common
  import opened Store
  import AuthRoutes
  import ClientVehicles

  const ProfileNotFound: string := "Perfil não encontrado"
  const ProfileUpdated: string := "Perfil atualizado com sucesso"
  const ProfileCreated: string := "Perfil criado com sucesso"
  const MaintenanceRegistered: string := "Manutenção registrada com sucesso. Email de notificação enviado."
  const DefaultMechanicName: string := "Mecânico"

  // ---------------------------------------------------------------------------
  // The profile

  function ProfileOf(profiles: seq<Profile>, userId: nat): Option<Profile> {
    Find(profiles, (p: Profile) => p.userId == userId)
  }

  /** GET /profile: the profile joined with its user row; None is the 404
      `ProfileNotFound`. */
  function ProfileView(db: Db, userId: nat): (r: Option<(Profile, User)>)
    ensures r.Some? ==> r.value.0 in db.profiles && r.value.0.userId == userId && r.value.1 in db.users && r.value.1.id == userId
    ensures r.None? <==> (forall p :: p in db.profiles ==> p.userId != userId) || (forall u :: u in db.users ==> u.id != userId)
  {
    match ProfileOf(db.profiles, userId)
    case None => None
    case Some(p) =>
      match Find(db.users, (u: User) => u.id == userId)
      case None => None
      case Some(u) => Some((p, u))
  }

  method GetProfile(store: Database, userId: nat) returns (r: Option<(Profile, User)>)
    ensures r == ProfileView(store.data, userId)
  {
    var p := ProfileOf(store.data.profiles, userId);
    if p.None? {
      return None;
    }
    var u := Find(store.data.users, (u: User) => u.id == userId);
    if u.None? {
      return None;
    }
    r := Some((p.value, u.value));
  }

  /** `UPDATE mechanic_profiles SET <the form's columns> WHERE user_id = $12`. */
  function RewriteForm(profiles: seq<Profile>, userId: nat, form: ProfileForm): (r: seq<Profile>)
    ensures |r| == |profiles|
  {
    seq(|profiles|, k requires 0 <= k < |profiles| =>
      if profiles[k].userId == userId then profiles[k].(form := form) else profiles[k])
  }

  /** PUT /profile: rewrites the form of the caller's profile (200), or
      creates the profile with no ratings, no services and not verified
      (201). */
  function SaveProfileOutcome(db: Db, userId: nat, valid: bool, form: ProfileForm): (Db, Reply) {
    if !valid then (db, InvalidBody)
    else if ProfileOf(db.profiles, userId).Some? then
      (db.(profiles := RewriteForm(db.profiles, userId, form)), Done(200, ProfileUpdated))
    else
      (db.(profiles := db.profiles + [Profile(db.serial, userId, form, 0, 0, 0, false)], serial := db.serial + 1),
       Done(201, ProfileCreated))
  }

  method SaveProfile(store: Database, userId: nat, valid: bool, form: ProfileForm) returns (reply: Reply)
    modifies store
    ensures (store.data, reply) == SaveProfileOutcome(old(store.data), userId, valid, form)
  {
    if !valid {
      return InvalidBody;
    }
    var existing := ProfileOf(store.data.profiles, userId);
    if existing.Some? {
      store.data := store.data.(profiles := RewriteForm(store.data.profiles, userId, form));
      return Done(200, ProfileUpdated);
    }
    var profile := Profile(store.data.serial, userId, form, 0, 0, 0, false);
    store.data := store.data.(profiles := store.data.profiles + [profile], serial := store.data.serial + 1);
    reply := Done(201, ProfileCreated);
  }

  /** Saving a profile creates one exactly when the mechanic has none, and
      keeps one profile per mechanic. */
  lemma SaveProfileKeepsOne(db: Db, userId: nat, form: ProfileForm)
    requires Valid(db)
    ensures var r := SaveProfileOutcome(db, userId, true, form);
      && Valid(r.0)
      && (r.1 == Done(201, ProfileCreated) <==> forall p :: p in db.profiles ==> p.userId != userId)
      && (r.1 == Done(201, ProfileCreated) || r.1 == Done(200, ProfileUpdated))
  {
    if ProfileOf(db.profiles, userId).Some? {
      RewriteKeepsValid(db, userId, form);
    } else {
      var after := SaveProfileOutcome(db, userId, true, form).0;
      var profile := Profile(db.serial, userId, form, 0, 0, 0, false);
      AppendFreshId(db.profiles, (p: Profile) => p.id, profile, db.serial);
      forall i, j | 0 <= i < j < |after.profiles| ensures after.profiles[i].userId != after.profiles[j].userId {
        if j == |db.profiles| {
          assert db.profiles[i] in db.profiles;
        }
      }
      BumpKeepsValid(db, db.serial + 1);
    }
  }

  /** After a save, the mechanic's profile holds the saved form. */
  lemma SaveProfileHoldsForm(db: Db, userId: nat, form: ProfileForm)
    ensures var after := SaveProfileOutcome(db, userId, true, form).0;
      ProfileOf(after.profiles, userId).Some? && ProfileOf(after.profiles, userId).value.form == form
  {
    var after := SaveProfileOutcome(db, userId, true, form).0;
    var existing := ProfileOf(db.profiles, userId);
    if existing.Some? {
      var k :| 0 <= k < |db.profiles| && db.profiles[k] == existing.value;
      assert after.profiles[k].userId == userId && after.profiles[k] in after.profiles;
      var v := ProfileOf(after.profiles, userId).value;
      var i :| 0 <= i < |after.profiles| && after.profiles[i] == v;
    } else {
      assert after.profiles[|db.profiles|] in after.profiles;
      var v := ProfileOf(after.profiles, userId).value;
      assert v in db.profiles + [Profile(db.serial, userId, form, 0, 0, 0, false)];
    }
  }

  /** A save leaves every other mechanic's profile as it was and never
      touches the rating and service counters or the verified flag: an
      existing profile only gets the new form, a new one starts at zero and
      unverified. */
  lemma SaveProfileKeepsOthers(db: Db, userId: nat, form: ProfileForm)
    ensures var after := SaveProfileOutcome(db, userId, true, form).0;
      && (forall p :: p in after.profiles && p.userId != userId ==> p in db.profiles)
      && (forall p :: p in db.profiles && p.userId != userId ==> p in after.profiles)
      && forall p :: p in after.profiles && p.userId == userId ==>
           || (p.averageRating == 0 && p.totalRatings == 0 && p.totalServices == 0 && !p.isVerified)
           || (exists q :: q in db.profiles && q.userId == userId && p == q.(form := form))
  {
    var after := SaveProfileOutcome(db, userId, true, form).0;
    if ProfileOf(db.profiles, userId).Some? {
      forall p | p in after.profiles
        ensures p.userId != userId ==> p in db.profiles
        ensures p.userId == userId ==> exists q :: q in db.profiles && q.userId == userId && p == q.(form := form)
      {
        var i :| 0 <= i < |after.profiles| && after.profiles[i] == p;
        assert db.profiles[i] in db.profiles;
      }
      forall p | p in db.profiles && p.userId != userId ensures p in after.profiles {
        var i :| 0 <= i < |db.profiles| && db.profiles[i] == p;
        assert after.profiles[i] == p;
      }
    }
  }

  /** Rewriting forms keeps the profiles' ids and owners, hence validity. */
  lemma RewriteKeepsValid(db: Db, userId: nat, form: ProfileForm)
    requires Valid(db)
    ensures Valid(db.(profiles := RewriteForm(db.profiles, userId, form)))
  {
    var r := RewriteForm(db.profiles, userId, form);
    forall i, j | 0 <= i < j < |r| ensures r[i].id != r[j].id && r[i].userId != r[j].userId {
      assert db.profiles[i].id != db.profiles[j].id;
    }
    forall p | p in r ensures p.id < db.serial {
      var i :| 0 <= i < |r| && r[i] == p;
      assert db.profiles[i] in db.profiles;
    }
  }

  /** Saving the same form again changes nothing more: the second save
      rewrites the profile with what it already holds. */
  lemma SaveProfileIdempotent(db: Db, userId: nat, form: ProfileForm)
    requires Valid(db)
    ensures var once := SaveProfileOutcome(db, userId, true, form).0;
      SaveProfileOutcome(once, userId, true, form) == (once, Done(200, ProfileUpdated))
  {
    var once := SaveProfileOutcome(db, userId, true, form).0;
    SaveProfileKeepsOne(db, userId, form);
    SaveProfileHoldsForm(db, userId, form);
    var q := ProfileOf(once.profiles, userId).value;
    var r := RewriteForm(once.profiles, userId, form);
    assert UniqueIds(once.profiles, (p: Profile) => p.userId);
    forall k | 0 <= k < |r| ensures r[k] == once.profiles[k] {
      if once.profiles[k].userId == userId {
        SameIdSameRow(once.profiles, (p: Profile) => p.userId, once.profiles[k], q);
      }
    }
    assert r == once.profiles;
  }

  /** Once the mechanic has a user row, the profile read back is the one
      just saved. */
  lemma SaveThenView(db: Db, userId: nat, form: ProfileForm)
    requires Valid(db) && exists u :: u in db.users && u.id == userId
    ensures var after := SaveProfileOutcome(db, userId, true, form).0;
      ProfileView(after, userId).Some? && ProfileView(after, userId).value.0.form == form
  {
    SaveProfileHoldsForm(db, userId, form);
  }

  // ---------------------------------------------------------------------------
  // Registering a maintenance

  /** The request body after the sanitizers ran (the trimmed fields are
      trimmed, the email normalised). */
  datatype RecordForm = RecordForm(
    licensePlate: string,
    brand: string,
    model: string,
    year: Json,
    clientName: string,
    clientEmail: string,
    clientPhone: Option<string>,
    serviceType: string,
    description: string,
    totalAmount: Json,
    maintenanceDate: string,
    mechanicNotes: Option<string>)

  /** `clientName.split(' ')[0]`. */
  function FirstName(name: string): string {
    Split(name, ' ')[0]
  }

  /** `clientName.split(' ').slice(1).join(' ') || ''`. */
  function LastName(name: string): string {
    Join(Split(name, ' ')[1..], " ")
  }

  /** The two halves give the name back: a name with a space is the first
      name, a space, and the rest; a name without one is all first name. */
  lemma NameSplitRoundTrip(name: string)
    ensures ' ' !in FirstName(name)
    ensures ' ' in name ==> FirstName(name) + " " + LastName(name) == name
    ensures ' ' !in name ==> FirstName(name) == name && LastName(name) == ""
  {
    var parts := Split(name, ' ');
    JoinSplit(name, ' ');
    SplitCountsSeparators(name, ' ');
    if |parts| >= 2 {
      assert Join(parts, [' ']) == parts[0] + [' '] + Join(parts[1..], [' ']);
    } else {
      assert Join(parts, [' ']) == parts[0];
    }
  }

  /** `${serviceType} - ${brand} ${model}`. */
  function Title(form: RecordForm): string {
    form.serviceType + " - " + form.brand + " " + form.model
  }

  /** The client an unknown email gets: no password, already verified. */
  function NewClient(id: nat, form: RecordForm): User {
    User(id, form.clientEmail, None, FirstName(form.clientName), LastName(form.clientName), "client",
         form.clientPhone, true, None, None, None)
  }

  /** The user with the form's email, created when there is none; whatever
      its role, that user becomes the record's client. */
  function ClientFor(db: Db, form: RecordForm): (r: (Db, nat))
    ensures r.0 == db || r.0 == db.(users := db.users + [NewClient(db.serial, form)], serial := db.serial + 1)
    ensures exists u :: u in r.0.users && u.id == r.1 && u.email == form.clientEmail
  {
    match AuthRoutes.UserWithEmail(db.users, form.clientEmail)
    case Some(u) => (db, u.id)
    case None =>
      var after := db.(users := db.users + [NewClient(db.serial, form)], serial := db.serial + 1);
      assert after.users[|db.users|] == NewClient(db.serial, form);
      (after, db.serial)
  }

  /** The columns a new vehicle gets from the form. */
  function NewVehicleColumns(form: RecordForm): map<string, Json> {
    map["brand" := JStr(form.brand), "model" := JStr(form.model), "year" := form.year]
  }

  /** The client's vehicle with the form's plate, created when there is none. */
  function VehicleFor(db: Db, clientId: nat, form: RecordForm): (r: (Db, nat))
    ensures r.0 == db || r.0 == db.(vehicles := db.vehicles + [Vehicle(db.serial, clientId, form.licensePlate, NewVehicleColumns(form))],
                                    serial := db.serial + 1)
    ensures exists v :: v in r.0.vehicles && v.id == r.1 && v.userId == clientId && v.licensePlate == form.licensePlate
  {
    match Find(db.vehicles, (v: Vehicle) => v.licensePlate == form.licensePlate && v.userId == clientId)
    case Some(v) => (db, v.id)
    case None =>
      var v := Vehicle(db.serial, clientId, form.licensePlate, NewVehicleColumns(form));
      var after := db.(vehicles := db.vehicles + [v], serial := db.serial + 1);
      assert after.vehicles[|db.vehicles|] == v;
      (after, db.serial)
  }

  /** The new record, pending, with the next id. */
  function NewRecord(id: nat, vehicleId: nat, mechanicId: nat, clientId: nat, form: RecordForm, now: int): Maintenance {
    Maintenance(id, vehicleId, mechanicId, clientId, Title(form), form.description, form.serviceType, form.totalAmount,
                form.maintenanceDate, form.mechanicNotes, "pending", None, None, None, None, now)
  }

  /** The name the email gives the mechanic: the profile's business name, or
      `Mecânico` without a profile. */
  function MechanicName(db: Db, mechanicId: nat): string {
    match ProfileOf(db.profiles, mechanicId)
    case Some(p) => p.form.businessName
    case None => DefaultMechanicName
  }

  /** The approval email the handler asks for. */
  datatype Notice = Notice(to: string, mechanicName: string, maintenanceId: nat)

  /** POST /maintenance. */
  function RegisterOutcome(db: Db, mechanicId: nat, valid: bool, form: RecordForm, now: int): (Db, Reply, Option<Notice>) {
    if !valid then (db, InvalidBody, None)
    else
      var withClient := ClientFor(db, form);
      var withVehicle := VehicleFor(withClient.0, withClient.1, form);
      var d := withVehicle.0;
      var record := NewRecord(d.serial, withVehicle.1, mechanicId, withClient.1, form, now);
      var after := d.(records := d.records + [record], serial := d.serial + 1);
      (after, Done(201, MaintenanceRegistered), Some(Notice(form.clientEmail, MechanicName(after, mechanicId), record.id)))
  }

  /** `SELECT id FROM users WHERE email = $1`, then the INSERT when none. */
  method FindOrCreateClient(store: Database, form: RecordForm) returns (clientId: nat)
    modifies store
    ensures (store.data, clientId) == ClientFor(old(store.data), form)
  {
    var existingClient := AuthRoutes.UserWithEmail(store.data.users, form.clientEmail);
    if existingClient.Some? {
      return existingClient.value.id;
    }
    clientId := store.data.serial;
    store.data := store.data.(users := store.data.users + [NewClient(clientId, form)], serial := store.data.serial + 1);
  }

  /** `SELECT id FROM vehicles WHERE license_plate = $1 AND user_id = $2`,
      then the INSERT when none. */
  method FindOrCreateVehicle(store: Database, clientId: nat, form: RecordForm) returns (vehicleId: nat)
    modifies store
    ensures (store.data, vehicleId) == VehicleFor(old(store.data), clientId, form)
  {
    var existingVehicle := Find(store.data.vehicles, (v: Vehicle) => v.licensePlate == form.licensePlate && v.userId == clientId);
    if existingVehicle.Some? {
      return existingVehicle.value.id;
    }
    vehicleId := store.data.serial;
    var vehicle := Vehicle(vehicleId, clientId, form.licensePlate, NewVehicleColumns(form));
    store.data := store.data.(vehicles := store.data.vehicles + [vehicle], serial := store.data.serial + 1);
  }

  method RegisterMaintenance(store: Database, mechanicId: nat, valid: bool, form: RecordForm, now: int)
    returns (reply: Reply, notice: Option<Notice>)
    modifies store
    ensures (store.data, reply, notice) == RegisterOutcome(old(store.data), mechanicId, valid, form, now)
  {
    if !valid {
      return InvalidBody, None;
    }
    var clientId := FindOrCreateClient(store, form);
    var vehicleId := FindOrCreateVehicle(store, clientId, form);
    var record := NewRecord(store.data.serial, vehicleId, mechanicId, clientId, form, now);
    store.data := store.data.(records := store.data.records + [record], serial := store.data.serial + 1);
    var mechanicName := MechanicName(store.data, mechanicId);
    notice := Some(Notice(form.clientEmail, mechanicName, record.id));
    reply := Done(201, MaintenanceRegistered);
  }

  // ---------------------------------------------------------------------------
  // What the registration guarantees

  /** Finding or creating the client keeps the database's guarantees: a
      created client's email is new. */
  lemma ClientForKeepsValid(db: Db, form: RecordForm)
    requires Valid(db)
    ensures Valid(ClientFor(db, form).0)
  {
    if AuthRoutes.UserWithEmail(db.users, form.clientEmail).None? {
      var after := ClientFor(db, form).0;
      var u := NewClient(db.serial, form);
      AppendFreshId(db.users, (x: User) => x.id, u, db.serial);
      forall i, j | 0 <= i < j < |after.users| ensures after.users[i].email != after.users[j].email {
        if j == |db.users| {
          assert db.users[i] in db.users;
        }
      }
      BumpKeepsValid(db, db.serial + 1);
    }
  }

  /** Finding or creating the vehicle keeps the database's guarantees, one
      vehicle per plate and owner, and every record's vehicle. */
  lemma VehicleForKeepsValid(db: Db, clientId: nat, form: RecordForm)
    requires Valid(db) && ClientVehicles.PlatesUniquePerOwner(db.vehicles) && ClientVehicles.RecordsReferenceVehicles(db)
    ensures var after := VehicleFor(db, clientId, form).0;
      Valid(after) && ClientVehicles.PlatesUniquePerOwner(after.vehicles) && ClientVehicles.RecordsReferenceVehicles(after)
  {
    var after := VehicleFor(db, clientId, form).0;
    if after != db {
      var v := Vehicle(db.serial, clientId, form.licensePlate, NewVehicleColumns(form));
      AppendFreshId(db.vehicles, (w: Vehicle) => w.id, v, db.serial);
      BumpKeepsValid(db, db.serial + 1);
      forall i, j | 0 <= i < j < |after.vehicles|
        ensures (after.vehicles[i].licensePlate, after.vehicles[i].userId) != (after.vehicles[j].licensePlate, after.vehicles[j].userId)
      {
        if j == |db.vehicles| {
          assert db.vehicles[i] in db.vehicles;
        }
      }
      forall m | m in after.records ensures exists w :: w in after.vehicles && w.id == m.vehicleId {
        var w :| w in db.vehicles && w.id == m.vehicleId;
        assert w in after.vehicles;
      }
    }
  }

  /** A registration keeps the database's guarantees, one vehicle per plate
      and owner, and every record's vehicle. */
  lemma RegisterKeepsInvariants(db: Db, mechanicId: nat, valid: bool, form: RecordForm, now: int)
    requires Valid(db) && ClientVehicles.PlatesUniquePerOwner(db.vehicles) && ClientVehicles.RecordsReferenceVehicles(db)
    ensures var after := RegisterOutcome(db, mechanicId, valid, form, now).0;
      Valid(after) && ClientVehicles.PlatesUniquePerOwner(after.vehicles) && ClientVehicles.RecordsReferenceVehicles(after)
  {
    if valid {
      var (d1, clientId) := ClientFor(db, form);
      ClientForKeepsValid(db, form);
      assert ClientVehicles.RecordsReferenceVehicles(d1);
      var (d2, vehicleId) := VehicleFor(d1, clientId, form);
      VehicleForKeepsValid(d1, clientId, form);
      var record := NewRecord(d2.serial, vehicleId, mechanicId, clientId, form, now);
      var after := d2.(records := d2.records + [record], serial := d2.serial + 1);
      AppendFreshId(d2.records, (m: Maintenance) => m.id, record, d2.serial);
      BumpKeepsValid(d2, d2.serial + 1);
      forall m | m in after.records ensures exists w :: w in after.vehicles && w.id == m.vehicleId {
        if m in d2.records {
          var w :| w in d2.vehicles && w.id == m.vehicleId;
        }
      }
    }
  }

  /** A registration adds at most one user and one vehicle, appends one
      record, and keeps every existing row and every other table. */
  lemma RegisterKeepsRows(db: Db, mechanicId: nat, form: RecordForm, now: int)
    ensures var after := RegisterOutcome(db, mechanicId, true, form, now).0;
      && |after.records| == |db.records| + 1 && after.records[..|db.records|] == db.records
      && |db.users| <= |after.users| <= |db.users| + 1 && after.users[..|db.users|] == db.users
      && |db.vehicles| <= |after.vehicles| <= |db.vehicles| + 1 && after.vehicles[..|db.vehicles|] == db.vehicles
      && after.reviews == db.reviews && after.profiles == db.profiles && after.evidence == db.evidence
  {
    var (d1, clientId) := ClientFor(db, form);
    var (d2, vehicleId) := VehicleFor(d1, clientId, form);
    assert d2.users[..|db.users|] == db.users;
    assert d2.vehicles[..|db.vehicles|] == db.vehicles;
    assert d2.records == db.records;
  }

  /** A registration answers 201 and appends one pending record by the
      mechanic, for the user holding the form's email and that user's vehicle
      with the form's plate; the email goes to that address about that
      record. */
  lemma RegisterAddsRecord(db: Db, mechanicId: nat, form: RecordForm, now: int)
    ensures var (after, reply, notice) := RegisterOutcome(db, mechanicId, true, form, now);
      && reply == Done(201, MaintenanceRegistered)
      && |after.records| == |db.records| + 1
      && var m := after.records[|db.records|];
         && m.status == "pending" && m.mechanicId == mechanicId && m.title == Title(form) && m.createdAt == now
         && (exists u :: u in after.users && u.id == m.clientId && u.email == form.clientEmail)
         && (exists v :: v in after.vehicles && v.id == m.vehicleId && v.userId == m.clientId && v.licensePlate == form.licensePlate)
         && notice == Some(Notice(form.clientEmail, MechanicName(db, mechanicId), m.id))
  {
    var (d1, clientId) := ClientFor(db, form);
    var (d2, vehicleId) := VehicleFor(d1, clientId, form);
    assert d2.records == db.records && d2.profiles == db.profiles;
  }

  /** The client is looked up by email alone: when a user already holds the
      email, whatever its role, no user is created and the record is that
      user's; otherwise the new user is a verified client without a
      password. */
  lemma RegisterFindsClientByEmail(db: Db, mechanicId: nat, form: RecordForm, now: int)
    requires Valid(db)
    ensures var after := RegisterOutcome(db, mechanicId, true, form, now).0;
      var m := after.records[|after.records| - 1];
      && ((exists u :: u in db.users && u.email == form.clientEmail) ==>
            after.users == db.users && exists u :: u in db.users && u.email == form.clientEmail && u.id == m.clientId)
      && ((forall u :: u in db.users ==> u.email != form.clientEmail) ==>
            after.users == db.users + [NewClient(m.clientId, form)])
  {
    var (d1, clientId) := ClientFor(db, form);
    RegisterAddsRecord(db, mechanicId, form, now);
    RegisterKeepsRows(db, mechanicId, form, now);
  }

  /** A client created by a registration has no password, so logging in with
      that email fails inside the password check, which answers 500, until a
      password reset sets one. */
  lemma CreatedClientCannotLogIn(db: Db, mechanicId: nat, form: RecordForm, now: int, password: string, svc: AuthRoutes.Services)
    requires Valid(db) && forall u :: u in db.users ==> u.email != form.clientEmail
    ensures var after := RegisterOutcome(db, mechanicId, true, form, now).0;
      AuthRoutes.LoginOutcome(after, form.clientEmail, password, svc) ==
        if password == "" then (InvalidBody, None) else (Refused(500, ServerError), None)
  {
    var (d1, clientId) := ClientFor(db, form);
    var after := RegisterOutcome(db, mechanicId, true, form, now).0;
    var u := NewClient(db.serial, form);
    assert d1.users == db.users + [u];
    var found := AuthRoutes.UserWithEmail(after.users, form.clientEmail).value;
    assert found == u by {
      assert found in db.users + [u];
    }
  }

  /** Registering the same form twice creates the client and the vehicle at
      most once: the second registration only adds its record. */
  lemma RegisterTwiceReusesClientAndVehicle(db: Db, mechanicId: nat, form: RecordForm, now: int, later: int)
    ensures var once := RegisterOutcome(db, mechanicId, true, form, now).0;
      var twice := RegisterOutcome(once, mechanicId, true, form, later).0;
      && twice.users == once.users && twice.vehicles == once.vehicles
      && twice.records[|once.records|].clientId == once.records[|db.records|].clientId
      && twice.records[|once.records|].vehicleId == once.records[|db.records|].vehicleId
  {
    var (d1, clientId) := ClientFor(db, form);
    var (d2, vehicleId) := VehicleFor(d1, clientId, form);
    var once := RegisterOutcome(db, mechanicId, true, form, now).0;
    assert once.users == d1.users && once.vehicles == d2.vehicles;
    if AuthRoutes.UserWithEmail(db.users, form.clientEmail).None? {
      FindAfterNoMatch(db.users, NewClient(db.serial, form), (u: User) => u.email == form.clientEmail);
    }
    assert ClientFor(once, form) == (once, clientId);
    var plateOf := (v: Vehicle) => v.licensePlate == form.licensePlate && v.userId == clientId;
    if Find(d1.vehicles, plateOf).None? {
      FindAfterNoMatch(d1.vehicles, Vehicle(d1.serial, clientId, form.licensePlate, NewVehicleColumns(form)), plateOf);
    }
    assert VehicleFor(once, clientId, form) == (once, vehicleId);
  }

}
