/// The Express middleware of `server/middleware/auth.js`: bearer-token
/// authentication, the two role gates, and the ownership check of a resource
/// named by the route's `:id`. Each middleware is a decision on the request,
/// the verified token and the looked-up row: continue, or answer with a status.
///
/// `jwt.verify` with the server's secret is the parameter `verify`.
module AuthMiddleware {
  import opened Common
  import opened Store

  /** The JWT payload the handlers sign: `{ userId, userType }`. */
  datatype Claims = Claims(userId: nat, userType: string)

  /** What a middleware decides: call `next()` with the request's user, or answer. */
  datatype Gate = Pass(user: Claims) | Stop(status: nat, error: string)

  const TokenRequired: string := "Token de acesso necessário"
  const TokenInvalid: string := "Token inválido ou expirado"
  const MechanicsOnly: string := "Acesso restrito a mecânicos"
  const ClientsOnly: string := "Acesso restrito a clientes"
  const BadResourceType: string := "Tipo de recurso inválido"
  const ResourceNotFound: string := "Recurso não encontrado"
  const AccessDenied: string := "Acesso negado"

  /** `authHeader && authHeader.split(' ')[1]`: the second space-separated
      field of a non-empty header, when that field is not empty. */
  function BearerToken(header: Option<string>): Option<string> {
    if !Given(header) then None
    else
      var fields := Split(header.value, ' ');
      if |fields| >= 2 && fields[1] != "" then Some(fields[1]) else None
  }

  /** authenticateToken: 401 without a token, 403 when verification fails,
      otherwise continue with the token's claims as `req.user`. */
  function Authenticate(header: Option<string>, verify: string -> Option<Claims>): (g: Gate)
    ensures BearerToken(header).None? <==> g == Stop(401, TokenRequired)
  {
    match BearerToken(header)
    case None => Stop(401, TokenRequired)
    case Some(token) =>
      match verify(token)
      case None => Stop(403, TokenInvalid)
      case Some(claims) => Pass(claims)
  }

  function RequireMechanic(user: Claims): Gate {
    if user.userType != "mechanic" then Stop(403, MechanicsOnly) else Pass(user)
  }

  function RequireClient(user: Claims): Gate {
    if user.userType != "client" then Stop(403, ClientsOnly) else Pass(user)
  }

  /** The row requireOwnership reads: its owner, or its client and mechanic. */
  datatype Owners = Owner(userId: nat) | Parties(clientId: nat, mechanicId: nat)

  /** The `SELECT ... WHERE id = $1` of each resource type, on the tables. */
  function OwnersOf(db: Db, resourceType: string, id: nat): Option<Owners>
    requires resourceType in {"vehicle", "maintenance", "profile"}
  {
    if resourceType == "vehicle" then
      match Find(db.vehicles, (v: Vehicle) => v.id == id)
      case None => None
      case Some(v) => Some(Owner(v.userId))
    else if resourceType == "maintenance" then
      match Find(db.records, (m: Maintenance) => m.id == id)
      case None => None
      case Some(m) => Some(Parties(m.clientId, m.mechanicId))
    else
      match Find(db.profiles, (p: Profile) => p.id == id)
      case None => None
      case Some(p) => Some(Owner(p.userId))
  }

  /** Maintenance is open to its client and its mechanic; the other resources
      to their owner only. */
  predicate HasAccess(owners: Owners, userId: nat) {
    match owners
    case Parties(c, m) => c == userId || m == userId
    case Owner(u) => u == userId
  }

  /** requireOwnership(resourceType): 400 for an unknown type, 500 when the
      query throws (`failure`, or an `:id` that is not an integer), 404 without
      the row, 403 without access, otherwise continue. */
  function RequireOwnership(resourceType: string, user: Claims, resourceId: string, db: Db, failure: bool): Gate {
    if resourceType !in {"vehicle", "maintenance", "profile"} then Stop(400, BadResourceType)
    else if failure || IdParam(resourceId).None? then Stop(500, ServerError)
    else
      match OwnersOf(db, resourceType, IdParam(resourceId).value)
      case None => Stop(404, ResourceNotFound)
      case Some(owners) => if HasAccess(owners, user.userId) then Pass(user) else Stop(403, AccessDenied)
  }

  // ---------------------------------------------------------------------------
  // What the middleware guarantees

  /** `Bearer <token>` yields the token, whatever follows a further space. */
  lemma BearerTokenOfHeader(scheme: string, token: string, rest: Option<string>)
    requires ' ' !in scheme && ' ' !in token && token != ""
    ensures var header := scheme + " " + token + (if rest.Some? then " " + rest.value else "");
      BearerToken(Some(header)) == Some(token)
  {
    var tail := if rest.Some? then " " + rest.value else "";
    var header := scheme + " " + token + tail;
    if rest.Some? {
      SplitAtSeparator(token, rest.value, ' ');
      assert header == scheme + [' '] + (token + [' '] + rest.value);
    } else {
      SplitWithoutSeparator(token, ' ');
      assert header == scheme + [' '] + token;
    }
    SplitAtSeparator(scheme, header[|scheme| + 1..], ' ');
    assert header == scheme + [' '] + header[|scheme| + 1..];
  }

  /** A header without a space carries no token, so the request gets 401. */
  lemma HeaderWithoutSpaceIsRejected(header: string, verify: string -> Option<Claims>)
    requires ' ' !in header
    ensures Authenticate(Some(header), verify) == Stop(401, TokenRequired)
  {
    SplitCountsSeparators(header, ' ');
  }

  /** With a token present, the request continues exactly when it verifies,
      and then as the user the token names; otherwise it gets 403. */
  lemma AuthenticateFollowsVerify(header: Option<string>, verify: string -> Option<Claims>)
    requires BearerToken(header).Some?
    ensures var v := verify(BearerToken(header).value);
      && (v.None? <==> Authenticate(header, verify) == Stop(403, TokenInvalid))
      && (v.Some? ==> Authenticate(header, verify) == Pass(v.value))
  {
  }

  /** No user passes both role gates, and a user passes one of them exactly
      when its type is client or mechanic. */
  lemma RoleGatesAreExclusive(user: Claims)
    ensures !(RequireMechanic(user).Pass? && RequireClient(user).Pass?)
    ensures RequireMechanic(user).Pass? || RequireClient(user).Pass? <==> user.userType in {"client", "mechanic"}
  {
  }

  /** Under unique ids, the first row with the id is the row with the id. */
  lemma FindById<T(!new)>(s: seq<T>, idOf: T -> nat, id: nat, x: T)
    requires UniqueIds(s, idOf)
    requires x in s && idOf(x) == id
    ensures Find(s, (y: T) => idOf(y) == id) == Some(x)
    decreases |s|
  {
    if s[0] != x {
      assert s == [s[0]] + s[1..];
      FindById(s[1..], idOf, id, x);
    }
  }

  /** The owners of the row with id `id` in a resource type's table. */
  ghost predicate RowOwnedBy(db: Db, resourceType: string, id: nat, owners: Owners) {
    || (resourceType == "vehicle" && exists v :: v in db.vehicles && v.id == id && owners == Owner(v.userId))
    || (resourceType == "maintenance" && exists m :: m in db.records && m.id == id && owners == Parties(m.clientId, m.mechanicId))
    || (resourceType == "profile" && exists p :: p in db.profiles && p.id == id && owners == Owner(p.userId))
  }

  /** In a valid database, requireOwnership lets a request through exactly
      when the row with that id exists and grants the user access. */
  lemma OwnershipGrantedExactly(resourceType: string, user: Claims, id: nat, db: Db)
    requires id <= MaxId
    requires Valid(db)
    ensures RequireOwnership(resourceType, user, NatToString(id), db, false).Pass? <==>
      exists owners :: RowOwnedBy(db, resourceType, id, owners) && HasAccess(owners, user.userId)
  {
    IdParamOfId(id);
    if resourceType == "vehicle" {
      VehicleOwners(db, id);
    } else if resourceType == "maintenance" {
      MaintenanceOwners(db, id);
    } else if resourceType == "profile" {
      ProfileOwners(db, id);
    }
  }

  lemma VehicleOwners(db: Db, id: nat)
    requires UniqueIds(db.vehicles, (v: Vehicle) => v.id)
    ensures forall owners :: RowOwnedBy(db, "vehicle", id, owners) <==> OwnersOf(db, "vehicle", id) == Some(owners)
  {
    forall owners | RowOwnedBy(db, "vehicle", id, owners)
      ensures OwnersOf(db, "vehicle", id) == Some(owners)
    {
      var v :| v in db.vehicles && v.id == id && owners == Owner(v.userId);
      FindById(db.vehicles, (x: Vehicle) => x.id, id, v);
    }
  }

  lemma MaintenanceOwners(db: Db, id: nat)
    requires UniqueIds(db.records, (m: Maintenance) => m.id)
    ensures forall owners :: RowOwnedBy(db, "maintenance", id, owners) <==> OwnersOf(db, "maintenance", id) == Some(owners)
  {
    forall owners | RowOwnedBy(db, "maintenance", id, owners)
      ensures OwnersOf(db, "maintenance", id) == Some(owners)
    {
      var m :| m in db.records && m.id == id && owners == Parties(m.clientId, m.mechanicId);
      FindById(db.records, (x: Maintenance) => x.id, id, m);
    }
  }

  lemma ProfileOwners(db: Db, id: nat)
    requires UniqueIds(db.profiles, (p: Profile) => p.id)
    ensures forall owners :: RowOwnedBy(db, "profile", id, owners) <==> OwnersOf(db, "profile", id) == Some(owners)
  {
    forall owners | RowOwnedBy(db, "profile", id, owners)
      ensures OwnersOf(db, "profile", id) == Some(owners)
    {
      var p :| p in db.profiles && p.id == id && owners == Owner(p.userId);
      FindById(db.profiles, (x: Profile) => x.id, id, p);
    }
  }

  /** A missing row answers 404, before any access decision. */
  lemma MissingResourceIsNotFound(resourceType: string, user: Claims, id: nat, db: Db)
    requires id <= MaxId
    requires resourceType in {"vehicle", "maintenance", "profile"}
    requires forall owners :: !RowOwnedBy(db, resourceType, id, owners)
    ensures RequireOwnership(resourceType, user, NatToString(id), db, false) == Stop(404, ResourceNotFound)
  {
    IdParamOfId(id);
    match OwnersOf(db, resourceType, id)
    case None =>
    case Some(owners) =>
      if resourceType == "vehicle" {
        var v := Find(db.vehicles, (x: Vehicle) => x.id == id).value;
        assert RowOwnedBy(db, resourceType, id, Owner(v.userId));
      } else if resourceType == "maintenance" {
        var m := Find(db.records, (x: Maintenance) => x.id == id).value;
        assert RowOwnedBy(db, resourceType, id, Parties(m.clientId, m.mechanicId));
      } else {
        var p := Find(db.profiles, (x: Profile) => x.id == id).value;
        assert RowOwnedBy(db, resourceType, id, Owner(p.userId));
      }
  }

  /** An `:id` above the `integer` range makes the ownership query throw:
      500, whether or not the user could see a row of that number. */
  /** An unknown resource type answers 400 before any query, whatever the id
      and whether or not the database would fail. */
  lemma UnknownResourceTypeIsBadRequest(resourceType: string, user: Claims, resourceId: string, db: Db, failure: bool)
    requires resourceType !in {"vehicle", "maintenance", "profile"}
    ensures RequireOwnership(resourceType, user, resourceId, db, failure) == Stop(400, BadResourceType)
  {
  }

  /** In a valid database, a row that exists but does not grant the user
      access answers 403, not 404 or 500. */
  lemma ExistingRowWithoutAccessIsForbidden(resourceType: string, user: Claims, id: nat, db: Db, owners: Owners)
    requires id <= MaxId
    requires Valid(db)
    requires RowOwnedBy(db, resourceType, id, owners) && !HasAccess(owners, user.userId)
    ensures RequireOwnership(resourceType, user, NatToString(id), db, false) == Stop(403, AccessDenied)
  {
    IdParamOfId(id);
    if resourceType == "vehicle" {
      VehicleOwners(db, id);
    } else if resourceType == "maintenance" {
      MaintenanceOwners(db, id);
    } else {
      ProfileOwners(db, id);
    }
  }

  lemma OutOfRangeIdIsServerError(resourceType: string, user: Claims, id: nat, db: Db)
    requires resourceType in {"vehicle", "maintenance", "profile"}
    requires id > MaxId
    ensures RequireOwnership(resourceType, user, NatToString(id), db, false) == Stop(500, ServerError)
  {
    IdParamOfId(id);
  }
}
