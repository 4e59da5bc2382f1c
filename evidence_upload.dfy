/// POST /maintenance/:id/evidence of `server/routes/mechanics.js`: multer's
/// checks on the uploaded files (at most ten, at most 5 MB each, under the
/// field `files`, passing the extension-and-mimetype filter), then the
/// handler's own checks and one `maintenance_evidence` row per file.
///
/// The file bodies and their place on disk are left out: the storage's chosen
/// path arrives with each file, as multer hands it to the handler.
module EvidenceUpload {
  import opened Common
  import opened Store

  const MaxFiles: nat := 10
  const MaxFileSize: nat := 5 * 1024 * 1024
  const UploadField: string := "files"
  const MaintenanceNotFound: string := "Manutenção não encontrada"
  const NoFiles: string := "Nenhum arquivo enviado"
  const EvidenceSent: string := "Evidências enviadas com sucesso"

  /** One file of the multipart request, as multer describes it. */
  datatype Upload = Upload(field: string, originalName: string, mimetype: string, size: nat, path: string)

  // ---------------------------------------------------------------------------
  // path.extname

  function LastIndex(s: string, c: char): (r: Option<nat>)
    ensures r.Some? ==> r.value < |s| && s[r.value] == c && c !in s[r.value + 1..]
    ensures r.None? ==> c !in s
    decreases |s|
  {
    if s == [] then None
    else if s[|s| - 1] == c then Some(|s| - 1)
    else
      var r := LastIndex(s[..|s| - 1], c);
      assert r.Some? ==> s[r.value + 1..] == s[..|s| - 1][r.value + 1..] + [s[|s| - 1]];
      assert r.None? ==> s == s[..|s| - 1] + [s[|s| - 1]];
      r
  }

  /** The path without its trailing slashes. */
  function TrimSlashes(p: string): (r: string)
    ensures |r| <= |p| && r == p[..|r|]
    ensures r == [] || r[|r| - 1] != '/'
    decreases |p|
  {
    if p != [] && p[|p| - 1] == '/' then TrimSlashes(p[..|p| - 1]) else p
  }

  /** The last component of the path. */
  function BaseName(p: string): (r: string)
    ensures '/' !in r
  {
    var q := TrimSlashes(p);
    match LastIndex(q, '/')
    case None => q
    case Some(i) => q[i + 1..]
  }

  /** `path.extname`: the base name from its last dot, except when the name
      has no dot, when that dot is its first character, or when the name is
      `..` (a dot at index 1, last, after a leading dot). */
  function ExtName(p: string): (r: string)
    ensures r == [] || (r[0] == '.' && '.' !in r[1..] && '/' !in r)
  {
    var b := BaseName(p);
    match LastIndex(b, '.')
    case None => ""
    case Some(d) =>
      if d == 0 || (d == 1 && |b| == 2 && b[0] == '.') then ""
      else Suffix(b, d)
  }

  /** The base name from one of its characters on. */
  function Suffix(b: string, d: nat): (r: string)
    requires d < |b| && b[d] == '.' && '.' !in b[d + 1..] && '/' !in b
    ensures r == b[d..] && r[0] == '.' && '.' !in r[1..] && '/' !in r
  {
    assert b[d..][1..] == b[d + 1..];
    assert forall i :: 0 <= i < |b[d..]| ==> b[d..][i] == b[d + i];
    b[d..]
  }

  /** The characters of `stem + "." + e` that ExtName looks at. */
  lemma StemNameCharacters(stem: string, e: string)
    requires '/' !in stem && '/' !in e && '.' !in e
    ensures var n := stem + "." + e;
      && n[|n| - 1] != '/' && '/' !in n && n[|stem|] == '.'
      && forall j :: |stem| < j < |n| ==> n[j] != '.'
  {
    var n := stem + "." + e;
    if e == [] { assert n[|n| - 1] == '.'; } else { assert n[|n| - 1] == e[|e| - 1]; }
    forall i | 0 <= i < |n| ensures n[i] != '/' {
      if i < |stem| { assert n[i] == stem[i]; }
      else if i > |stem| { assert n[i] == e[i - |stem| - 1]; }
    }
    forall j | |stem| < j < |n| ensures n[j] != '.' {
      assert n[j] == e[j - |stem| - 1];
    }
  }

  /** A name made of a stem, a dot and a dot-free extension has that
      extension, unless the stem is empty or the name is `..`. */
  lemma ExtNameOfStem(stem: string, e: string)
    requires stem != [] && '/' !in stem && '/' !in e && '.' !in e && !(stem == "." && e == [])
    ensures ExtName(stem + "." + e) == "." + e
  {
    var n := stem + "." + e;
    StemNameCharacters(stem, e);
    assert TrimSlashes(n) == n;
    assert BaseName(n) == n;
    var d := LastIndex(n, '.').value;
    forall j | d < j < |n| ensures n[j] != '.' {
      assert n[d + 1..][j - d - 1] == n[j];
    }
    assert d == |stem|;
    assert !(d == 1 && |n| == 2 && n[0] == '.') by {
      if d == 1 && |n| == 2 {
        assert e == [] && stem == [n[0]];
      }
    }
    assert n[d..] == "." + e;
  }

  // ---------------------------------------------------------------------------
  // multer's checks

  /** `/jpeg|jpg|png|gif|pdf|doc|docx/.test(s)`: some alternative occurs
      anywhere in `s`. */
  predicate AllowedType(s: string) {
    || Contains(s, "jpeg") || Contains(s, "jpg") || Contains(s, "png") || Contains(s, "gif")
    || Contains(s, "pdf") || Contains(s, "doc") || Contains(s, "docx")
  }

  /** The file filter: the lower-cased extension and the mimetype must both
      match the pattern. */
  predicate FileFilter(f: Upload) {
    AllowedType(ToLower(ExtName(f.originalName))) && AllowedType(f.mimetype)
  }

  /** multer lets the request through: at most ten files, all under the field
      `files`, none over 5 MB, each passing the filter. Any failure is an
      error that the application's error handler turns into a 500. */
  predicate UploadAccepted(files: seq<Upload>) {
    && |files| <= MaxFiles
    && forall f :: f in files ==> f.field == UploadField && f.size <= MaxFileSize && FileFilter(f)
  }

  /** A part that does not start with `c` is contained in `[c] + x` only if
      it is contained in `x`. */
  lemma ContainsPastChar(c: char, x: string, part: string)
    requires part != [] && part[0] != c
    ensures Contains([c] + x, part) <==> Contains(x, part)
  {
    if |part| <= |[c] + x| {
      assert ([c] + x)[..|part|][0] == c;
    }
    assert ([c] + x)[1..] == x;
  }

  /** The filter looks at the extension only through its lower-cased text:
      a file named `stem.e` passes exactly when `e` lower-cased and the
      mimetype both match the pattern. */
  lemma FilterByExtension(f: Upload, stem: string, e: string)
    requires stem != [] && '/' !in stem && '/' !in e && '.' !in e && !(stem == "." && e == [])
    requires f.originalName == stem + "." + e
    ensures FileFilter(f) <==> AllowedType(ToLower(e)) && AllowedType(f.mimetype)
  {
    ExtNameOfStem(stem, e);
    LowerPastDot(e);
    AllowedPastDot(ToLower(e));
  }

  /** Lower-casing keeps a leading dot. */
  lemma LowerPastDot(e: string)
    ensures ToLower("." + e) == ['.'] + ToLower(e)
  {
    assert forall i :: 0 <= i < |e| ==> ("." + e)[i + 1] == e[i];
  }

  /** A leading dot changes nothing: no alternative starts with one. */
  lemma AllowedPastDot(x: string)
    ensures AllowedType(['.'] + x) <==> AllowedType(x)
  {
    ContainsPastChar('.', x, "jpeg");
    ContainsPastChar('.', x, "jpg");
    ContainsPastChar('.', x, "png");
    ContainsPastChar('.', x, "gif");
    ContainsPastChar('.', x, "pdf");
    ContainsPastChar('.', x, "doc");
    ContainsPastChar('.', x, "docx");
  }

  /** `docx` adds nothing to the pattern: whatever contains it contains
      `doc`. */
  lemma DocxAlternativeRedundant(s: string)
    ensures AllowedType(s) <==>
      (|| Contains(s, "jpeg") || Contains(s, "jpg") || Contains(s, "png") || Contains(s, "gif")
       || Contains(s, "pdf") || Contains(s, "doc"))
  {
    if Contains(s, "docx") {
      assert "docx" == "doc" + "x";
      ContainsPrefix(s, "doc", "x");
    }
  }

  lemma MsWordCharacters(m: string)
    requires m == "application/msword"
    ensures 'j' !in m && 'g' !in m && 'f' !in m && 'x' !in m && 'd' !in m[..|m| - 1]
  {
    assert m[..|m| - 1] == "application/mswor";
  }

  /** Word's own mimetype for `.doc` files, `application/msword`, holds none
      of the alternatives, so the filter refuses every such file whatever its
      name. */
  lemma MsWordRefused(f: Upload)
    requires f.mimetype == "application/msword"
    ensures !FileFilter(f)
  {
    var m := f.mimetype;
    MsWordCharacters(m);
    ContainsNeedsChar(m, "jpeg", 0);
    ContainsNeedsChar(m, "jpg", 0);
    ContainsNeedsChar(m, "png", 2);
    ContainsNeedsChar(m, "gif", 0);
    ContainsNeedsChar(m, "pdf", 2);
    ContainsNeedsChar(m, "docx", 3);
    forall i | 0 <= i && i + 1 < |m| ensures m[i] != 'd' {
      assert m[..|m| - 1][i] == m[i];
    }
    ContainsNeedsPair(m, "doc");
  }

  // ---------------------------------------------------------------------------
  // The handler

  /** `SELECT id FROM maintenance_records WHERE id = $1 AND mechanic_id = $2`. */
  function MechanicRecord(db: Db, id: nat, mechanicId: nat): Option<Maintenance> {
    Find(db.records, (m: Maintenance) => m.id == id && m.mechanicId == mechanicId)
  }

  /** The row the INSERT writes for one file. */
  function EvidenceRow(f: Upload, id: nat, maintenanceId: nat, mechanicId: nat): Evidence {
    Evidence(id, maintenanceId, f.originalName, f.path, f.mimetype, f.size, mechanicId)
  }

  /** The rows for the files, with ids drawn in file order from `first`. */
  function EvidenceRows(files: seq<Upload>, maintenanceId: nat, mechanicId: nat, first: nat): (r: seq<Evidence>)
    ensures |r| == |files|
  {
    seq(|files|, k requires 0 <= k < |files| => EvidenceRow(files[k], first + k, maintenanceId, mechanicId))
  }

  /** The whole request: multer, then the parameter, the ownership check and
      the file count. */
  function EvidenceOutcome(db: Db, mechanicId: nat, idParam: string, files: seq<Upload>): (Db, Reply) {
    if !UploadAccepted(files) then (db, Refused(500, ServerError))
    else
      match IdParam(idParam)
      case None => (db, Refused(500, ServerError))
      case Some(id) =>
        if MechanicRecord(db, id, mechanicId).None? then (db, Refused(404, MaintenanceNotFound))
        else if files == [] then (db, Refused(400, NoFiles))
        else
          (db.(evidence := db.evidence + EvidenceRows(files, id, mechanicId, db.serial), serial := db.serial + |files|),
           Done(201, EvidenceSent))
  }

  /** The rows for one more file extend the rows for the files before it. */
  lemma EvidenceRowsSnoc(files: seq<Upload>, i: nat, maintenanceId: nat, mechanicId: nat, first: nat)
    requires i < |files|
    ensures EvidenceRows(files[..i + 1], maintenanceId, mechanicId, first)
         == EvidenceRows(files[..i], maintenanceId, mechanicId, first) + [EvidenceRow(files[i], first + i, maintenanceId, mechanicId)]
  {
  }

  /** `req.files.map(file => db.query(INSERT ...))`: one row per file, in
      file order, each with the next id. */
  method InsertEvidence(store: Database, files: seq<Upload>, maintenanceId: nat, mechanicId: nat)
    modifies store
    ensures store.data == old(store.data).(evidence := old(store.data).evidence + EvidenceRows(files, maintenanceId, mechanicId, old(store.data).serial),
                                           serial := old(store.data).serial + |files|)
  {
    ghost var before := store.data;
    var i := 0;
    while i < |files|
      invariant 0 <= i <= |files|
      invariant store.data == before.(evidence := before.evidence + EvidenceRows(files[..i], maintenanceId, mechanicId, before.serial),
                                      serial := before.serial + i)
    {
      var row := EvidenceRow(files[i], store.data.serial, maintenanceId, mechanicId);
      EvidenceRowsSnoc(files, i, maintenanceId, mechanicId, before.serial);
      store.data := store.data.(evidence := store.data.evidence + [row], serial := store.data.serial + 1);
      i := i + 1;
    }
    assert files[..i] == files;
  }

  /** The handler: multer has run before it. */
  method UploadEvidence(store: Database, mechanicId: nat, idParam: string, files: seq<Upload>) returns (reply: Reply)
    modifies store
    ensures (store.data, reply) == EvidenceOutcome(old(store.data), mechanicId, idParam, files)
  {
    if !UploadAccepted(files) {
      return Refused(500, ServerError);
    }
    var id := IdParam(idParam);
    if id.None? {
      return Refused(500, ServerError);
    }
    var check := MechanicRecord(store.data, id.value, mechanicId);
    if check.None? {
      return Refused(404, MaintenanceNotFound);
    }
    if |files| == 0 {
      return Refused(400, NoFiles);
    }
    InsertEvidence(store, files, id.value, mechanicId);
    reply := Done(201, EvidenceSent);
  }

  // ---------------------------------------------------------------------------
  // What the handler guarantees

  /** Evidence is stored exactly when multer lets the files through, there is
      at least one, and the record is the mechanic's own. A refused upload
      changes nothing; an accepted one keeps the database's guarantees. */
  lemma EvidenceOnlyOnOwnRecord(db: Db, mechanicId: nat, id: nat, files: seq<Upload>)
    requires id <= MaxId
    requires Valid(db)
    ensures var r := EvidenceOutcome(db, mechanicId, NatToString(id), files);
      && (r.1 == Done(201, EvidenceSent) <==>
            && UploadAccepted(files) && files != []
            && exists m :: m in db.records && m.id == id && m.mechanicId == mechanicId)
      && (r.1 != Done(201, EvidenceSent) ==> r.0 == db)
      && Valid(r.0)
  {
    IdParamOfId(id);
    if UploadAccepted(files) && MechanicRecord(db, id, mechanicId).Some? && files != [] {
      EvidenceRowsKeepValid(db, files, id, mechanicId);
    }
  }

  /** An accepted upload adds one row per file after the existing ones, in
      file order, naming the record, the uploader and the file, and changes
      no other table. */
  lemma EvidenceRowsDescribeFiles(db: Db, mechanicId: nat, idParam: string, files: seq<Upload>)
    ensures var r := EvidenceOutcome(db, mechanicId, idParam, files);
      r.1 == Done(201, EvidenceSent) ==>
        && r.0 == db.(evidence := r.0.evidence, serial := r.0.serial)
        && |r.0.evidence| == |db.evidence| + |files| && r.0.evidence[..|db.evidence|] == db.evidence
        && forall k :: 0 <= k < |files| ==>
             var e := r.0.evidence[|db.evidence| + k];
             && e.maintenanceId == ParseNat(idParam) && e.uploadedBy == mechanicId
             && e.fileName == files[k].originalName && e.fileType == files[k].mimetype
             && e.fileSize == files[k].size && e.filePath == files[k].path
  {
    var r := EvidenceOutcome(db, mechanicId, idParam, files);
    if r.1 == Done(201, EvidenceSent) {
      AcceptedUploadAppends(db, mechanicId, idParam, files);
      AppendedRowsDescribeFiles(db.evidence, files, ParseNat(idParam), mechanicId, db.serial);
    }
  }

  /** The rows appended after `prior` describe the files one by one. */
  lemma AppendedRowsDescribeFiles(prior: seq<Evidence>, files: seq<Upload>, id: nat, mechanicId: nat, first: nat)
    ensures var all := prior + EvidenceRows(files, id, mechanicId, first);
      && |all| == |prior| + |files| && all[..|prior|] == prior
      && forall k :: 0 <= k < |files| ==>
           var e := all[|prior| + k];
           && e.maintenanceId == id && e.uploadedBy == mechanicId
           && e.fileName == files[k].originalName && e.fileType == files[k].mimetype
           && e.fileSize == files[k].size && e.filePath == files[k].path
  {
    var rows := EvidenceRows(files, id, mechanicId, first);
    var all := prior + rows;
    assert all[..|prior|] == prior;
    forall k | 0 <= k < |files|
      ensures var e := all[|prior| + k];
        && e.maintenanceId == id && e.uploadedBy == mechanicId
        && e.fileName == files[k].originalName && e.fileType == files[k].mimetype
        && e.fileSize == files[k].size && e.filePath == files[k].path
    {
      assert all[|prior| + k] == rows[k];
    }
  }

  /** The only outcome with 201 is the one that appends the rows. */
  lemma AcceptedUploadAppends(db: Db, mechanicId: nat, idParam: string, files: seq<Upload>)
    ensures var r := EvidenceOutcome(db, mechanicId, idParam, files);
      r.1 == Done(201, EvidenceSent) ==>
        r.0 == db.(evidence := db.evidence + EvidenceRows(files, ParseNat(idParam), mechanicId, db.serial),
                   serial := db.serial + |files|)
  {
  }

  /** Appending the rows with ids from the counter, then advancing it past
      them, keeps the database's guarantees. */
  lemma EvidenceRowsKeepValid(db: Db, files: seq<Upload>, id: nat, mechanicId: nat)
    requires Valid(db)
    ensures Valid(db.(evidence := db.evidence + EvidenceRows(files, id, mechanicId, db.serial), serial := db.serial + |files|))
  {
    var rows := EvidenceRows(files, id, mechanicId, db.serial);
    var all := db.evidence + rows;
    forall i, j | 0 <= i < j < |all| ensures all[i].id != all[j].id {
      if j >= |db.evidence| {
        if i < |db.evidence| {
          assert db.evidence[i] in db.evidence;
        }
      }
    }
    forall e | e in all ensures e.id < db.serial + |files| {
      if e in db.evidence {
      } else {
        var k :| 0 <= k < |rows| && rows[k] == e;
      }
    }
    BumpKeepsValid(db, db.serial + |files|);
  }
}
