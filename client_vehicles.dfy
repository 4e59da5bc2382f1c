/// The vehicle handlers of `server/routes/clients.js`: create with the
/// per-owner plate check, update through the dynamic `SET` builder, and delete
/// behind the maintenance-record guard.
///
/// The request validators (plate and name lengths, year and mileage ranges)
/// are the parameter `valid`; the body is the one they leave behind, with
/// their `trim()` sanitizers applied. Which column a value may be written to,
/// and whether its type fits, is the parameter `accepts`: the table's schema
/// is not part of this model.
module ClientVehicles {
  import opened Common
  import opened Store

  const VehicleCreated: string := "Veículo cadastrado com sucesso"
  const PlateTaken: string := "Já existe um veículo cadastrado com esta placa"
  const VehicleNotFound: string := "Veículo não encontrado"
  const NothingToUpdate: string := "Nenhum campo fornecido para atualização"
  const VehicleUpdated: string := "Veículo atualizado com sucesso"
  const VehicleHasRecords: string := "Não é possível excluir um veículo que possui manutenções registradas"
  const VehicleDeleted: string := "Veículo excluído com sucesso"

  // ---------------------------------------------------------------------------
  // Column names

  /** `key.replace(/([A-Z])/g, '_$1').toLowerCase()`: an underscore before
      each upper-case letter, then everything in lower case. */
  function SnakeCase(key: string): (r: string)
    ensures forall i :: 0 <= i < |r| ==> !IsUpper(r[i])
    ensures |r| >= |key|
    decreases |key|
  {
    if key == [] then []
    else (if IsUpper(key[0]) then ['_', LowerChar(key[0])] else [key[0]]) + SnakeCase(key[1..])
  }

  predicate IsLower(c: char) {
    'a' <= c <= 'z'
  }

  function UpperChar(c: char): char {
    if IsLower(c) then (c as int - 32) as char else c
  }

  /** The inverse reading: `_x` becomes `X`. */
  function CamelCase(column: string): string
    decreases |column|
  {
    if column == [] then []
    else if |column| >= 2 && column[0] == '_' && IsLower(column[1]) then [UpperChar(column[1])] + CamelCase(column[2..])
    else [column[0]] + CamelCase(column[1..])
  }

  /** A key with no upper-case letter is already its column name. */
  lemma {:induction false} SnakeCaseKeepsLowerKeys(key: string)
    requires forall i :: 0 <= i < |key| ==> !IsUpper(key[i])
    ensures SnakeCase(key) == key
    decreases |key|
  {
    if key != [] {
      SnakeCaseKeepsLowerKeys(key[1..]);
    }
  }

  /** A key without underscores reads back from its column name, so distinct
      such keys name distinct columns. */
  lemma {:induction false} CamelOfSnake(key: string)
    requires '_' !in key
    ensures CamelCase(SnakeCase(key)) == key
    decreases |key|
  {
    if key != [] {
      CamelOfSnake(key[1..]);
      var head := if IsUpper(key[0]) then ['_', LowerChar(key[0])] else [key[0]];
      assert SnakeCase(key) == head + SnakeCase(key[1..]);
      if IsUpper(key[0]) {
        assert SnakeCase(key)[2..] == SnakeCase(key[1..]);
      } else {
        assert SnakeCase(key)[1..] == SnakeCase(key[1..]);
      }
    }
  }

  lemma SnakeCaseInjective(a: string, b: string)
    requires '_' !in a && '_' !in b && SnakeCase(a) == SnakeCase(b)
    ensures a == b
  {
    CamelOfSnake(a);
    CamelOfSnake(b);
  }

  // ---------------------------------------------------------------------------
  // The SET builder

  /** The body's keys whose value is neither undefined nor null, in
      `Object.keys` order. */
  function Kept(body: seq<(string, Json)>): (r: seq<(string, Json)>)
    ensures |r| <= |body|
    ensures forall p :: p in r ==> p in body && p.1 != JNull
    decreases |body|
  {
    if body == [] then []
    else Kept(body[..|body| - 1]) + (if body[|body| - 1].1 != JNull then [body[|body| - 1]] else [])
  }

  /** The column each kept key assigns, with its value. */
  function Assignments(body: seq<(string, Json)>): (a: seq<(string, Json)>)
    ensures |a| == |Kept(body)|
  {
    var kept := Kept(body);
    seq(|kept|, k requires 0 <= k < |kept| => (SnakeCase(kept[k].0), kept[k].1))
  }

  function SetClause(key: string, n: nat): string {
    SnakeCase(key) + " = " + Placeholder(n)
  }

  /** The `SET` clauses the builder should produce: the k-th kept key,
      counting from zero, takes placeholder `$(k+1)` and the k-th value. */
  function Clauses(body: seq<(string, Json)>): (seq<string>, seq<Json>) {
    var kept := Kept(body);
    (seq(|kept|, k requires 0 <= k < |kept| => SetClause(kept[k].0, k + 1)),
     seq(|kept|, k requires 0 <= k < |kept| => kept[k].1))
  }

  /** The `forEach` over the body's keys. */
  method BuildSet(body: seq<(string, Json)>) returns (updateFields: seq<string>, values: seq<Json>, paramCount: nat)
    ensures (updateFields, values) == Clauses(body)
    ensures paramCount == |updateFields| == |values|
  {
    updateFields, values, paramCount := [], [], 0;
    var i := 0;
    assert body[..0] == [] && Kept([]) == [];
    assert Clauses([]).0 == [] && Clauses([]).1 == [];
    while i < |body|
      invariant 0 <= i <= |body|
      invariant (updateFields, values) == Clauses(body[..i])
      invariant paramCount == |updateFields|
    {
      assert body[..i + 1] == body[..i] + [body[i]];
      ClausesSnoc(body[..i], body[i].0, body[i].1);
      var (key, value) := body[i];
      if value != JNull {
        paramCount := paramCount + 1;
        updateFields := updateFields + [SetClause(key, paramCount)];
        values := values + [value];
      }
      i := i + 1;
    }
    assert body[..|body|] == body;
  }

  /** The statement's placeholders after the `SET` list: the vehicle's id and
      the owner, as `$(n+1)` and `$(n+2)`. */
  function WhereClause(n: nat): string {
    " WHERE id = " + Placeholder(n + 1) + " AND user_id = " + Placeholder(n + 2)
  }

  /** The statement binds what the body says: clause k assigns the k-th
      column to the value at its placeholder, and the WHERE placeholders that
      follow hold the vehicle and the owner. */
  lemma StatementBindsAssignments(body: seq<(string, Json)>, vehicleId: Json, userId: Json)
    ensures |Clauses(body).0| == |Clauses(body).1| == |Assignments(body)|
    ensures var params := Clauses(body).1 + [vehicleId, userId];
      var n := |Assignments(body)|;
      && |params| == n + 2
      && (forall k :: 0 <= k < n ==>
            Clauses(body).0[k] == Assignments(body)[k].0 + " = " + Placeholder(k + 1)
            && params[(k + 1) - 1] == Assignments(body)[k].1)
      && params[(n + 1) - 1] == vehicleId && params[(n + 2) - 1] == userId
  {
  }

  /** Every placeholder of the statement, `$1` to `$(n+2)`, is written once. */
  lemma PlaceholdersDistinct(n: nat)
    ensures forall k, m :: 1 <= k < m <= n + 2 ==> Placeholder(k) != Placeholder(m)
  {
    forall k, m | 1 <= k < m <= n + 2 && Placeholder(k) == Placeholder(m) ensures false {
      PlaceholderInjective(k, m);
    }
  }

  /** Appending one key to the body appends its clause, numbered after the
      clauses before it, when its value is not null. */
  lemma ClausesSnoc(body: seq<(string, Json)>, key: string, value: Json)
    ensures var before := Clauses(body);
      Clauses(body + [(key, value)]) ==
        if value == JNull then before
        else (before.0 + [SetClause(key, |before.0| + 1)], before.1 + [value])
  {
    assert (body + [(key, value)])[..|body|] == body;
    var kept := Kept(body);
    var kept' := Kept(body + [(key, value)]);
    if value != JNull {
      assert kept' == kept + [(key, value)];
      var before := Clauses(body);
      var after := Clauses(body + [(key, value)]);
      assert after.0 == before.0 + [SetClause(key, |before.0| + 1)];
      assert after.1 == before.1 + [value];
    } else {
      assert kept' == kept;
    }
  }

  // ---------------------------------------------------------------------------
  // Running the UPDATE

  /** The value Postgres stores from a parameter bound to an `integer`
      column. node-postgres sends a number as its decimal text and a string
      as it is, and Postgres converts the text. */
  function IntColumn(value: Json): (r: Option<nat>)
    ensures value.JNum? ==> (r.Some? <==> 0 <= value.n <= MaxId)
    ensures value.JStr? ==> r == IdParam(value.s)
    ensures r.Some? ==> r.value <= MaxId
  {
    match value
    case JNum(n) => if 0 <= n <= MaxId then Some(n) else None
    case JStr(s) => IdParam(s)
    case _ => None
  }

  /** The text Postgres stores from a parameter bound to a text column: a
      string as it is, a number or a boolean as the text JavaScript gives it. */
  function TextColumn(value: Json): (r: Option<string>)
    ensures value.JStr? ==> r == Some(value.s)
    ensures value.JNum? && value.n >= 0 ==> r == Some(NatToString(value.n))
  {
    match value
    case JStr(s) => Some(s)
    case JNum(n) => Some(if n >= 0 then NatToString(n) else "-" + NatToString(-n))
    case JFloat(text) => Some(text)
    case JBool(b) => Some(if b then "true" else "false")
    case _ => None
  }

  /** One assignment on the row; the id and the owner take what Postgres
      reads as a non-negative integer, the plate what it reads as text. */
  function Assign(v: Vehicle, column: string, value: Json, accepts: (string, Json) -> bool): Option<Vehicle> {
    if column == "id" then (if IntColumn(value).Some? then Some(v.(id := IntColumn(value).value)) else None)
    else if column == "user_id" then (if IntColumn(value).Some? then Some(v.(userId := IntColumn(value).value)) else None)
    else if column == "license_plate" then (if TextColumn(value).Some? then Some(v.(licensePlate := TextColumn(value).value)) else None)
    else if accepts(column, value) then Some(v.(columns := v.columns[column := value]))
    else None
  }

  function AssignAll(v: Vehicle, assignments: seq<(string, Json)>, accepts: (string, Json) -> bool): Option<Vehicle>
    decreases |assignments|
  {
    if assignments == [] then Some(v)
    else
      match Assign(v, assignments[0].0, assignments[0].1, accepts)
      case None => None
      case Some(v') => AssignAll(v', assignments[1..], accepts)
  }

  predicate DistinctColumns(columns: seq<string>) {
    forall i, j :: 0 <= i < j < |columns| ==> columns[i] != columns[j]
  }

  function ColumnsOf(assignments: seq<(string, Json)>): (r: seq<string>)
    ensures |r| == |assignments|
  {
    seq(|assignments|, k requires 0 <= k < |assignments| => assignments[k].0)
  }

  /** What Postgres does with the statement on the matched row: a column
      assigned twice (`updated_at` included) or a value the column refuses
      fails; a new id must be free and not referenced by a maintenance
      record, and a new owner must be a user. */
  function Execute(db: Db, v: Vehicle, assignments: seq<(string, Json)>, accepts: (string, Json) -> bool, now: int): Option<Vehicle> {
    if !DistinctColumns(ColumnsOf(assignments) + ["updated_at"]) then None
    else
      match AssignAll(v, assignments, accepts)
      case None => None
      case Some(v') =>
        if v'.id != v.id && (Find(db.vehicles, (w: Vehicle) => w.id == v'.id).Some?
                             || Find(db.records, (m: Maintenance) => m.vehicleId == v.id).Some?) then None
        else if v'.userId != v.userId && Find(db.users, (u: User) => u.id == v'.userId).None? then None
        else Some(v'.(columns := v'.columns["updated_at" := JNum(now)]))
  }

  /** The row `WHERE id = $n+1 AND user_id = $n+2` replaced by its update. */
  function ReplaceVehicle(vehicles: seq<Vehicle>, id: nat, userId: nat, v': Vehicle): (r: seq<Vehicle>)
    ensures |r| == |vehicles|
  {
    seq(|vehicles|, k requires 0 <= k < |vehicles| =>
      if vehicles[k].id == id && vehicles[k].userId == userId then v' else vehicles[k])
  }

  function OwnedVehicle(db: Db, id: nat, userId: nat): Option<Vehicle> {
    Find(db.vehicles, (v: Vehicle) => v.id == id && v.userId == userId)
  }

  // ---------------------------------------------------------------------------
  // The handlers, as functions on the tables

  /** POST /vehicles. */
  function CreateOutcome(db: Db, userId: nat, valid: bool, plate: string, columns: map<string, Json>): (Db, Reply) {
    if !valid then (db, InvalidBody)
    else if Find(db.vehicles, (v: Vehicle) => v.licensePlate == plate && v.userId == userId).Some? then
      (db, Refused(400, PlateTaken))
    else
      (db.(vehicles := db.vehicles + [Vehicle(db.serial, userId, plate, columns)], serial := db.serial + 1),
       Done(201, VehicleCreated))
  }

  /** PUT /vehicles/:id. */
  function UpdateOutcome(db: Db, userId: nat, idParam: string, valid: bool, body: seq<(string, Json)>,
                         accepts: (string, Json) -> bool, now: int): (Db, Reply) {
    if !valid then (db, InvalidBody)
    else
      match IdParam(idParam)
      case None => (db, Refused(500, ServerError))
      case Some(id) =>
        match OwnedVehicle(db, id, userId)
        case None => (db, Refused(404, VehicleNotFound))
        case Some(v) =>
          if Assignments(body) == [] then (db, Refused(400, NothingToUpdate))
          else
            match Execute(db, v, Assignments(body), accepts, now)
            case None => (db, Refused(500, ServerError))
            case Some(v') => (db.(vehicles := ReplaceVehicle(db.vehicles, id, userId, v')), Done(200, VehicleUpdated))
  }

  /** DELETE /vehicles/:id. */
  function DeleteOutcome(db: Db, userId: nat, idParam: string): (Db, Reply) {
    match IdParam(idParam)
    case None => (db, Refused(500, ServerError))
    case Some(id) =>
      if OwnedVehicle(db, id, userId).None? then (db, Refused(404, VehicleNotFound))
      else if Find(db.records, (m: Maintenance) => m.vehicleId == id).Some? then (db, Refused(400, VehicleHasRecords))
      else (db.(vehicles := Filter(db.vehicles, (v: Vehicle) => !(v.id == id && v.userId == userId))), Done(200, VehicleDeleted))
  }

  // ---------------------------------------------------------------------------
  // The handlers, statement by statement

  method CreateVehicle(store: Database, userId: nat, valid: bool, plate: string, columns: map<string, Json>) returns (reply: Reply)
    modifies store
    ensures (store.data, reply) == CreateOutcome(old(store.data), userId, valid, plate, columns)
  {
    if !valid {
      return InvalidBody;
    }
    var existing := Find(store.data.vehicles, (v: Vehicle) => v.licensePlate == plate && v.userId == userId);
    if existing.Some? {
      return Refused(400, PlateTaken);
    }
    var vehicle := Vehicle(store.data.serial, userId, plate, columns);
    store.data := store.data.(vehicles := store.data.vehicles + [vehicle], serial := store.data.serial + 1);
    reply := Done(201, VehicleCreated);
  }

  method UpdateVehicle(store: Database, userId: nat, idParam: string, valid: bool, body: seq<(string, Json)>,
                       accepts: (string, Json) -> bool, now: int) returns (reply: Reply)
    modifies store
    ensures (store.data, reply) == UpdateOutcome(old(store.data), userId, idParam, valid, body, accepts, now)
  {
    if !valid {
      return InvalidBody;
    }
    var id := IdParam(idParam);
    if id.None? {
      return Refused(500, ServerError);
    }
    var vehicle := OwnedVehicle(store.data, id.value, userId);
    if vehicle.None? {
      return Refused(404, VehicleNotFound);
    }
    var updateFields, values, paramCount := BuildSet(body);
    if |updateFields| == 0 {
      return Refused(400, NothingToUpdate);
    }
    // Postgres runs the statement; StatementBindsAssignments says it assigns
    // exactly Assignments(body).
    var updated := Execute(store.data, vehicle.value, Assignments(body), accepts, now);
    if updated.None? {
      return Refused(500, ServerError);
    }
    store.data := store.data.(vehicles := ReplaceVehicle(store.data.vehicles, id.value, userId, updated.value));
    reply := Done(200, VehicleUpdated);
  }

  method DeleteVehicle(store: Database, userId: nat, idParam: string) returns (reply: Reply)
    modifies store
    ensures (store.data, reply) == DeleteOutcome(old(store.data), userId, idParam)
  {
    var id := IdParam(idParam);
    if id.None? {
      return Refused(500, ServerError);
    }
    var vehicle := OwnedVehicle(store.data, id.value, userId);
    if vehicle.None? {
      return Refused(404, VehicleNotFound);
    }
    var records := Find(store.data.records, (m: Maintenance) => m.vehicleId == id.value);
    if records.Some? {
      return Refused(400, VehicleHasRecords);
    }
    store.data := store.data.(vehicles := Filter(store.data.vehicles, (v: Vehicle) => !(v.id == id.value && v.userId == userId)));
    reply := Done(200, VehicleDeleted);
  }

  // ---------------------------------------------------------------------------
  // What the handlers guarantee

  /** No owner has two vehicles with the same plate. */
  ghost predicate PlatesUniquePerOwner(vehicles: seq<Vehicle>) {
    forall i, j :: 0 <= i < j < |vehicles| ==>
      (vehicles[i].licensePlate, vehicles[i].userId) != (vehicles[j].licensePlate, vehicles[j].userId)
  }

  /** Every maintenance record names a vehicle that exists. */
  ghost predicate RecordsReferenceVehicles(db: Db) {
    forall m :: m in db.records ==> exists v :: v in db.vehicles && v.id == m.vehicleId
  }

  /** Creation is refused exactly when the owner already has the plate. */
  lemma CreateRefusesOwnersPlate(db: Db, userId: nat, plate: string, columns: map<string, Json>)
    ensures CreateOutcome(db, userId, true, plate, columns).1 == Refused(400, PlateTaken) <==>
      exists v :: v in db.vehicles && v.licensePlate == plate && v.userId == userId
  {
  }

  lemma CreateKeepsInvariants(db: Db, userId: nat, valid: bool, plate: string, columns: map<string, Json>)
    requires Valid(db) && PlatesUniquePerOwner(db.vehicles) && RecordsReferenceVehicles(db)
    ensures var after := CreateOutcome(db, userId, valid, plate, columns).0;
      Valid(after) && PlatesUniquePerOwner(after.vehicles) && RecordsReferenceVehicles(after)
  {
    var after := CreateOutcome(db, userId, valid, plate, columns).0;
    if after != db {
      var v := Vehicle(db.serial, userId, plate, columns);
      AppendFreshId(db.vehicles, (w: Vehicle) => w.id, v, db.serial);
      BumpKeepsValid(db, db.serial + 1);
      forall i, j | 0 <= i < j < |after.vehicles|
        ensures (after.vehicles[i].licensePlate, after.vehicles[i].userId) != (after.vehicles[j].licensePlate, after.vehicles[j].userId)
      {
        if j == |db.vehicles| {
          assert db.vehicles[i] in db.vehicles;
        }
      }
      forall m | m in after.records ensures exists w :: w in after.vehicles && w.id == m.vehicleId {
        var w :| w in db.vehicles && w.id == m.vehicleId;
        assert w in after.vehicles;
      }
    }
  }

  lemma AssignmentsEmpty(body: seq<(string, Json)>)
    ensures Assignments(body) == [] <==> forall p :: p in body ==> p.1 == JNull
    decreases |body|
  {
    if body != [] {
      var init := body[..|body| - 1];
      AssignmentsEmpty(init);
      assert body == init + [body[|body| - 1]];
      if Kept(body) == [] {
        forall p | p in body ensures p.1 == JNull {
          if p in init {} else { assert p == body[|body| - 1]; }
        }
      }
    }
  }

  /** An update reaches the table only for the caller's own vehicle and with
      at least one non-null field. */
  lemma UpdateGuards(db: Db, userId: nat, id: nat, body: seq<(string, Json)>, accepts: (string, Json) -> bool, now: int)
    requires id <= MaxId
    ensures var reply := UpdateOutcome(db, userId, NatToString(id), true, body, accepts, now).1;
      && (reply == Refused(404, VehicleNotFound) <==> forall v :: v in db.vehicles ==> !(v.id == id && v.userId == userId))
      && (reply == Refused(400, NothingToUpdate) <==>
            (exists v :: v in db.vehicles && v.id == id && v.userId == userId) && forall p :: p in body ==> p.1 == JNull)
  {
    IdParamOfId(id);
    AssignmentsEmpty(body);
  }

  /** An update of the caller's own vehicle with something to set is the
      statement's outcome on that row. */
  lemma OwnedUpdate(db: Db, userId: nat, id: nat, body: seq<(string, Json)>, accepts: (string, Json) -> bool, now: int)
    requires id <= MaxId
    requires OwnedVehicle(db, id, userId).Some? && Assignments(body) != []
    ensures UpdateOutcome(db, userId, NatToString(id), true, body, accepts, now) ==
      match Execute(db, OwnedVehicle(db, id, userId).value, Assignments(body), accepts, now)
      case None => (db, Refused(500, ServerError))
      case Some(v') => (db.(vehicles := ReplaceVehicle(db.vehicles, id, userId, v')), Done(200, VehicleUpdated))
  {
    IdParamOfId(id);
  }

  lemma SingleAssignment(key: string, value: Json)
    requires value != JNull
    ensures Assignments([(key, value)]) == [(SnakeCase(key), value)]
  {
    var body := [(key, value)];
    assert body[..0] == [];
    assert Kept(body) == body;
  }

  /** As written, the builder takes every key of the body, so an update
      whose key names `user_id` (`userId`, say) hands the vehicle to another
      user, whether the new owner's id comes as a number or as its text. */
  lemma UpdateCanReassignOwner(db: Db, userId: nat, id: nat, key: string, value: Json, other: nat,
                               accepts: (string, Json) -> bool, now: int)
    requires id <= MaxId
    requires SnakeCase(key) == "user_id" && IntColumn(value) == Some(other)
    requires exists v :: v in db.vehicles && v.id == id && v.userId == userId
    requires exists u :: u in db.users && u.id == other
    ensures var (after, reply) := UpdateOutcome(db, userId, NatToString(id), true, [(key, value)], accepts, now);
      reply == Done(200, VehicleUpdated) && exists v :: v in after.vehicles && v.id == id && v.userId == other
  {
    var body := [(key, value)];
    SingleAssignment(key, value);
    var v := OwnedVehicle(db, id, userId).value;
    var v' := v.(userId := other);
    assert AssignAll(v, Assignments(body), accepts) == Some(v');
    assert DistinctColumns(ColumnsOf(Assignments(body)) + ["updated_at"]);
    assert Execute(db, v, Assignments(body), accepts, now) == Some(v'.(columns := v'.columns["updated_at" := JNum(now)]));
    OwnedUpdate(db, userId, id, body, accepts, now);
    var k :| 0 <= k < |db.vehicles| && db.vehicles[k] == v;
    var after := UpdateOutcome(db, userId, NatToString(id), true, body, accepts, now).0;
    assert after.vehicles[k] in after.vehicles;
  }

  /** As written, an update does not repeat the plate check of creation: a
      key naming `license_plate` can give an owner two vehicles with the
      same plate, sent as a string or as a number. */
  lemma UpdateSkipsPlateCheck(db: Db, userId: nat, id: nat, key: string, value: Json, plate: string,
                              accepts: (string, Json) -> bool, now: int)
    requires id <= MaxId
    requires SnakeCase(key) == "license_plate" && TextColumn(value) == Some(plate)
    requires exists v :: v in db.vehicles && v.id == id && v.userId == userId
    requires exists w :: w in db.vehicles && w.id != id && w.userId == userId && w.licensePlate == plate
    ensures var (after, reply) := UpdateOutcome(db, userId, NatToString(id), true, [(key, value)], accepts, now);
      reply == Done(200, VehicleUpdated) && !PlatesUniquePerOwner(after.vehicles)
  {
    var body := [(key, value)];
    SingleAssignment(key, value);
    var v := OwnedVehicle(db, id, userId).value;
    var v' := v.(licensePlate := plate);
    assert AssignAll(v, Assignments(body), accepts) == Some(v');
    assert DistinctColumns(ColumnsOf(Assignments(body)) + ["updated_at"]);
    var v'' := v'.(columns := v'.columns["updated_at" := JNum(now)]);
    assert Execute(db, v, Assignments(body), accepts, now) == Some(v'');
    OwnedUpdate(db, userId, id, body, accepts, now);
    var w :| w in db.vehicles && w.id != id && w.userId == userId && w.licensePlate == plate;
    var i :| 0 <= i < |db.vehicles| && db.vehicles[i] == v;
    var j :| 0 <= j < |db.vehicles| && db.vehicles[j] == w;
    var after := ReplaceVehicle(db.vehicles, id, userId, v'');
    assert after[i] == v'' && after[j] == w;
    if i < j {
      assert (after[i].licensePlate, after[i].userId) == (after[j].licensePlate, after[j].userId);
    } else {
      assert (after[j].licensePlate, after[j].userId) == (after[i].licensePlate, after[i].userId);
    }
  }

  /** Two keys with the same column name (`licensePlate` and
      `license_plate`; by CamelOfSnake one of them holds an underscore) make
      Postgres refuse a column assigned twice. */
  lemma SameColumnTwiceFails(db: Db, userId: nat, id: nat, key1: string, key2: string, a: Json, b: Json,
                             accepts: (string, Json) -> bool, now: int)
    requires id <= MaxId
    requires SnakeCase(key1) == SnakeCase(key2) && a != JNull && b != JNull
    requires exists v :: v in db.vehicles && v.id == id && v.userId == userId
    ensures UpdateOutcome(db, userId, NatToString(id), true, [(key1, a), (key2, b)], accepts, now).1
      == Refused(500, ServerError)
  {
    var body := [(key1, a), (key2, b)];
    assert body[..1] == [body[0]] && body[..1][..0] == [];
    assert Kept(body) == body;
    var columns := ColumnsOf(Assignments(body)) + ["updated_at"];
    assert columns[0] == columns[1];
    OwnedUpdate(db, userId, id, body, accepts, now);
  }

  /** Updates that leave the id alone keep the database's guarantees and the
      records' references. */
  lemma UpdateKeepsInvariants(db: Db, userId: nat, idParam: string, valid: bool, body: seq<(string, Json)>,
                              accepts: (string, Json) -> bool, now: int)
    requires Valid(db) && RecordsReferenceVehicles(db)
    requires forall a :: a in Assignments(body) ==> a.0 != "id"
    ensures var after := UpdateOutcome(db, userId, idParam, valid, body, accepts, now).0;
      Valid(after) && RecordsReferenceVehicles(after)
  {
    var after := UpdateOutcome(db, userId, idParam, valid, body, accepts, now).0;
    if after != db {
      var id := IdParam(idParam).value;
      var v := OwnedVehicle(db, id, userId).value;
      var v' := Execute(db, v, Assignments(body), accepts, now).value;
      AssignAllKeepsId(v, Assignments(body), accepts);
      forall k | 0 <= k < |db.vehicles| ensures after.vehicles[k].id == db.vehicles[k].id {
        if db.vehicles[k].id == id && db.vehicles[k].userId == userId {
          assert v.id == id;
        }
      }
      SameIdsKeepInvariants(db, after.vehicles);
    }
  }

  /** Rewriting vehicles in place without changing their ids keeps the
      guarantees and the records' references. */
  lemma SameIdsKeepInvariants(db: Db, vehicles: seq<Vehicle>)
    requires Valid(db) && RecordsReferenceVehicles(db)
    requires |vehicles| == |db.vehicles| && forall k :: 0 <= k < |vehicles| ==> vehicles[k].id == db.vehicles[k].id
    ensures Valid(db.(vehicles := vehicles)) && RecordsReferenceVehicles(db.(vehicles := vehicles))
  {
    assert UniqueIds(vehicles, (w: Vehicle) => w.id) by {
      forall i, j | 0 <= i < j < |vehicles| ensures vehicles[i].id != vehicles[j].id {
        assert db.vehicles[i].id != db.vehicles[j].id;
      }
    }
    forall w | w in vehicles ensures w.id < db.serial {
      var k :| 0 <= k < |vehicles| && vehicles[k] == w;
      assert db.vehicles[k] in db.vehicles;
    }
    forall m | m in db.records ensures exists w :: w in vehicles && w.id == m.vehicleId {
      var w :| w in db.vehicles && w.id == m.vehicleId;
      var k :| 0 <= k < |db.vehicles| && db.vehicles[k] == w;
      assert vehicles[k] in vehicles;
    }
  }

  lemma {:induction false} AssignAllKeepsId(v: Vehicle, assignments: seq<(string, Json)>, accepts: (string, Json) -> bool)
    requires forall a :: a in assignments ==> a.0 != "id"
    ensures AssignAll(v, assignments, accepts).Some? ==> AssignAll(v, assignments, accepts).value.id == v.id
    decreases |assignments|
  {
    if assignments != [] {
      match Assign(v, assignments[0].0, assignments[0].1, accepts)
      case None =>
      case Some(v') =>
        assert assignments[0] in assignments;
        AssignAllKeepsId(v', assignments[1..], accepts);
    }
  }

  /** Deletion succeeds exactly for the caller's own vehicle with no
      maintenance records, removes it, and leaves every record pointing at
      an existing vehicle. */
  lemma DeleteGuard(db: Db, userId: nat, id: nat)
    requires id <= MaxId
    requires Valid(db) && RecordsReferenceVehicles(db)
    ensures var (after, reply) := DeleteOutcome(db, userId, NatToString(id));
      && (reply == Done(200, VehicleDeleted) <==>
            (exists v :: v in db.vehicles && v.id == id && v.userId == userId)
            && forall m :: m in db.records ==> m.vehicleId != id)
      && (reply.Done? ==> forall v :: v in after.vehicles ==> !(v.id == id && v.userId == userId))
      && Valid(after) && RecordsReferenceVehicles(after)
  {
    IdParamOfId(id);
    var after := DeleteOutcome(db, userId, NatToString(id)).0;
    if after != db {
      var keep := (v: Vehicle) => !(v.id == id && v.userId == userId);
      forall m | m in after.records ensures exists w :: w in after.vehicles && w.id == m.vehicleId {
        var w :| w in db.vehicles && w.id == m.vehicleId;
        assert keep(w);
      }
      FilterKeepsUniqueIds(db.vehicles, keep);
    }
  }

  lemma {:induction false} FilterKeepsUniqueIds(vehicles: seq<Vehicle>, keep: Vehicle -> bool)
    requires UniqueIds(vehicles, (v: Vehicle) => v.id)
    ensures UniqueIds(Filter(vehicles, keep), (v: Vehicle) => v.id)
    decreases |vehicles|
  {
    if vehicles != [] {
      var rest := vehicles[1..];
      assert UniqueIds(rest, (v: Vehicle) => v.id) by {
        forall i, j | 0 <= i < j < |rest| ensures rest[i].id != rest[j].id {
          assert vehicles[i + 1].id != vehicles[j + 1].id;
        }
      }
      FilterKeepsUniqueIds(rest, keep);
      var r := Filter(vehicles, keep);
      var tail := Filter(rest, keep);
      forall x | x in tail ensures x.id != vehicles[0].id {
        var j :| 0 <= j < |rest| && rest[j] == x;
        assert vehicles[0].id != vehicles[j + 1].id;
      }
    }
  }
}
