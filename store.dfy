/// The application tables the route handlers and the middleware read and
/// write (`users`, `vehicles`, `maintenance_records`, `reviews`,
/// `mechanic_profiles`, `maintenance_evidence`), the replies the handlers send,
/// and the `Database` object whose state the handlers change.
///
/// Rows carry the columns the handlers read or write. Serial ids are drawn
/// from one counter, so every inserted row gets an id no row has held before.
module Store {
  import opened Common

  datatype User = User(
    id: nat,
    email: string,
    passwordHash: Option<string>,
    firstName: string,
    lastName: string,
    userType: string,
    phone: Option<string>,
    emailVerified: bool,
    verificationToken: Option<string>,
    resetToken: Option<string>,
    resetExpires: Option<int>)

  /** A vehicle; `columns` holds the columns other than the id, the owner and
      the plate, by their SQL names (`brand`, `model`, `year`, `color`, ...). */
  datatype Vehicle = Vehicle(id: nat, userId: nat, licensePlate: string, columns: map<string, Json>)

  datatype Maintenance = Maintenance(
    id: nat,
    vehicleId: nat,
    mechanicId: nat,
    clientId: nat,
    title: string,
    description: string,
    serviceType: string,
    totalAmount: Json,
    maintenanceDate: string,
    mechanicNotes: Option<string>,
    status: string,
    clientNotes: Option<string>,
    approvalDate: Option<int>,
    rejectionDate: Option<int>,
    rejectionReason: Option<string>,
    createdAt: int)

  datatype Review = Review(
    id: nat,
    maintenanceId: nat,
    clientId: nat,
    mechanicId: nat,
    rating: int,
    comment: Option<string>,
    isPublic: bool,
    createdAt: int)

  /** The columns of a mechanic profile the profile form writes. */
  datatype ProfileForm = ProfileForm(
    businessName: string,
    cnpj: Option<string>,
    address: Option<string>,
    city: Option<string>,
    state: Option<string>,
    zipCode: Option<string>,
    phone: Option<string>,
    website: Option<string>,
    description: Option<string>,
    workingHours: Option<Json>,
    servicesOffered: Option<seq<string>>)

  /** A mechanic profile; `averageRating` is in hundredths of a star. */
  datatype Profile = Profile(
    id: nat,
    userId: nat,
    form: ProfileForm,
    averageRating: int,
    totalRatings: nat,
    totalServices: nat,
    isVerified: bool)

  datatype Evidence = Evidence(
    id: nat,
    maintenanceId: nat,
    fileName: string,
    filePath: string,
    fileType: string,
    fileSize: nat,
    uploadedBy: nat)

  datatype Db = Db(
    users: seq<User>,
    vehicles: seq<Vehicle>,
    records: seq<Maintenance>,
    reviews: seq<Review>,
    profiles: seq<Profile>,
    evidence: seq<Evidence>,
    serial: nat)

  /** The status and JSON body a handler sends. */
  datatype Reply =
    | Done(status: nat, message: string)   // `{ message, ... }`
    | Refused(status: nat, error: string)  // `{ error }`
    | InvalidBody                          // 400 `{ errors }` from the request validators
    | NeedsVerification                    // 401 `{ error: 'Email não verificado', needsVerification: true }`

  const ServerError: string := "Erro interno do servidor"

  /** The largest value of a Postgres `integer` column. */
  const MaxId: nat := 2147483647

  /** How Postgres reads a route parameter bound to an integer column: a
      string of decimal digits whose value fits the column; anything else
      (including "value out of range for type integer") makes the query
      throw. */
  function IdParam(s: string): (id: Option<nat>)
    ensures id.Some? ==> s != [] && forall i :: 0 <= i < |s| ==> '0' <= s[i] <= '9'
    ensures id.Some? ==> id.value <= MaxId
  {
    if s != [] && (forall i :: 0 <= i < |s| ==> '0' <= s[i] <= '9') && ParseNat(s) <= MaxId then Some(ParseNat(s))
    else None
  }

  /** Route ids are the decimal rendering of row ids, and read back as
      written when they fit an `integer`; larger ones are refused. */
  lemma IdParamOfId(n: nat)
    ensures IdParam(NatToString(n)) == if n <= MaxId then Some(n) else None
  {
    ParseNatToString(n);
  }

  ghost predicate UniqueIds<T>(s: seq<T>, id: T -> nat) {
    forall i, j :: 0 <= i < j < |s| ==> id(s[i]) != id(s[j])
  }

  ghost predicate IdsBelow<T>(s: seq<T>, id: T -> nat, bound: nat) {
    forall x :: x in s ==> id(x) < bound
  }

  /** No two users share an id or an email, and every id is below `bound`. */
  ghost predicate UsersValid(users: seq<User>, bound: nat) {
    && UniqueIds(users, (u: User) => u.id) && IdsBelow(users, (u: User) => u.id, bound)
    && (forall i, j :: 0 <= i < j < |users| ==> users[i].email != users[j].email)
  }

  /** A mechanic has at most one profile. */
  ghost predicate ProfilesValid(profiles: seq<Profile>, bound: nat) {
    && UniqueIds(profiles, (p: Profile) => p.id) && IdsBelow(profiles, (p: Profile) => p.id, bound)
    && (forall i, j :: 0 <= i < j < |profiles| ==> profiles[i].userId != profiles[j].userId)
  }

  /** A client reviews a maintenance at most once. */
  ghost predicate ReviewsValid(reviews: seq<Review>, bound: nat) {
    && UniqueIds(reviews, (r: Review) => r.id) && IdsBelow(reviews, (r: Review) => r.id, bound)
    && (forall i, j :: 0 <= i < j < |reviews| ==>
          (reviews[i].maintenanceId, reviews[i].clientId) != (reviews[j].maintenanceId, reviews[j].clientId))
  }

  /** The database's standing guarantees: ids are unique and older than the
      counter, and the per-table constraints above hold. */
  ghost predicate Valid(db: Db) {
    && UsersValid(db.users, db.serial)
    && UniqueIds(db.vehicles, (v: Vehicle) => v.id) && IdsBelow(db.vehicles, (v: Vehicle) => v.id, db.serial)
    && UniqueIds(db.records, (m: Maintenance) => m.id) && IdsBelow(db.records, (m: Maintenance) => m.id, db.serial)
    && ReviewsValid(db.reviews, db.serial)
    && ProfilesValid(db.profiles, db.serial)
    && UniqueIds(db.evidence, (e: Evidence) => e.id) && IdsBelow(db.evidence, (e: Evidence) => e.id, db.serial)
  }

  /** Advancing the id counter keeps every table below it. */
  lemma BumpKeepsValid(db: Db, serial: nat)
    requires Valid(db) && db.serial <= serial
    ensures Valid(db.(serial := serial))
  {
  }

  /** Appending a row whose id is the counter, then advancing the counter,
      keeps a table's ids unique and below the counter. */
  lemma AppendFreshId<T>(s: seq<T>, id: T -> nat, x: T, bound: nat)
    requires UniqueIds(s, id) && IdsBelow(s, id, bound) && id(x) == bound
    ensures UniqueIds(s + [x], id) && IdsBelow(s + [x], id, bound + 1)
  {
    forall y | y in s + [x] ensures id(y) < bound + 1 {
      if y in s {}
    }
  }

  /** With unique ids, a row is determined by its id. */
  lemma SameIdSameRow<T>(s: seq<T>, id: T -> nat, a: T, b: T)
    requires UniqueIds(s, id) && a in s && b in s && id(a) == id(b)
    ensures a == b
  {
    var i :| 0 <= i < |s| && s[i] == a;
    var j :| 0 <= j < |s| && s[j] == b;
    assert !(i < j) && !(j < i);
  }

  /** Rewriting users without touching ids and emails keeps them valid. */
  lemma SameKeysKeepUsersValid(users: seq<User>, users': seq<User>, bound: nat)
    requires UsersValid(users, bound) && |users'| == |users|
    requires forall i :: 0 <= i < |users| ==> users'[i].id == users[i].id && users'[i].email == users[i].email
    ensures UsersValid(users', bound)
  {
    forall u | u in users' ensures u.id < bound {
      var i :| 0 <= i < |users'| && users'[i] == u;
      assert users[i] in users;
    }
  }

  /** The connection pool's view of the database: one mutable state. */
  class Database {
    var data: Db

    constructor (initial: Db)
      ensures data == initial
    {
      data := initial;
    }
  }
}
