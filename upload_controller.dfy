/** The image-column handlers of the upload controller: the validation chain
    shared by all five, the list computations on an image-array column, and
    the value each handler writes back into the entity's column. Files on
    disk and the multipart parsing are inputs: the handlers receive the
    names the uploader stored, or the uploader's failure. */
module UploadController {
  import opened Schema

  /** What `entityRecord.get(column)` holds, classified by what `JSON.parse`
      makes of it: SQL NULL, a JSON array of paths, a text that parses to a
      number, boolean or object, or a text that is not JSON at all (such as
      the bare path the single-file upload stores). */
  datatype ColumnValue = Null | Array(items: seq<string>) | Scalar(text: string) | PlainText(text: string)

  /** A memory or profile row: its owner (`user_id`) and its image columns;
      a column absent from the map is NULL. */
  datatype ImageRow = ImageRow(owner: Id, columns: map<string, ColumnValue>)

  function Column(row: ImageRow, name: string): ColumnValue {
    if name in row.columns then row.columns[name] else Null
  }

  /** The two tables with image columns, keyed by the id text of the route. */
  datatype Tables = Tables(memories: map<string, ImageRow>, profiles: map<string, ImageRow>)

  /** The route parameters the handlers read (`name`, `entity`, `id`; an
      absent parameter is the empty string, which is falsy) and the caller's
      user id from the token. */
  datatype Request = Request(name: string, entity: string, id: string, caller: Option<Id>)

  /** The values of the image-type enum. */
  const ImageTypes: set<string> := {"images", "wallImage", "avatar"}

  /** The entities the handlers' switch accepts. */
  const Entities: set<string> := {"memory", "profile"}

  /** `Memory.getAttributes()` and `Profile.getAttributes()`, with the
      timestamps the ORM adds. */
  const MemoryAttributes: set<string> :=
    {"id", "title", "description", "images", "wallImage", "user_id", "location_id", "createdAt", "updatedAt"}
  const ProfileAttributes: set<string> :=
    {"id", "user_id", "firstName", "lastName", "bio", "avatarImage", "wallImage", "address", "gender", "birthday",
     "createdAt", "updatedAt"}

  function Attributes(entity: string): set<string> {
    if entity == "memory" then MemoryAttributes else if entity == "profile" then ProfileAttributes else {}
  }

  function Table(t: Tables, entity: string): map<string, ImageRow> {
    if entity == "memory" then t.memories else t.profiles
  }

  /** The sender owns the row: a truthy user id equal to the row's `user_id`. */
  predicate IsOwner(caller: Option<Id>, row: ImageRow) {
    caller.Some? && caller.value != 0 && caller.value == row.owner
  }

  /** Outcome of the checks every handler runs before touching files. */
  datatype Checked = Rejected(status: int) | Found(row: ImageRow)

  /** The validation chain: missing parameter, unknown image type, unknown
      entity and a column the entity lacks are 400; a missing row is 404; a
      sender who does not own the row is 403. */
  function Check(t: Tables, req: Request): (r: Checked)
    ensures r.Found? <==>
              && req.name != "" && req.entity != "" && req.id != ""
              && req.name in ImageTypes && req.entity in Entities && req.name in Attributes(req.entity)
              && req.id in Table(t, req.entity) && IsOwner(req.caller, Table(t, req.entity)[req.id])
    ensures r.Found? ==> r.row == Table(t, req.entity)[req.id]
    ensures r.Rejected? ==> r.status in {BadRequest, NotFound, Forbidden}
    ensures r == Rejected(BadRequest) <==>
              || req.name == "" || req.entity == "" || req.id == ""
              || req.name !in ImageTypes || req.entity !in Entities || req.name !in Attributes(req.entity)
    ensures (r == Rejected(NotFound) <==>
               && req.name != "" && req.entity != "" && req.id != ""
               && req.name in ImageTypes && req.entity in Entities && req.name in Attributes(req.entity)
               && req.id !in Table(t, req.entity))
  {
    if req.name == "" || req.entity == "" || req.id == "" then Rejected(BadRequest)
    else if req.name !in ImageTypes then Rejected(BadRequest)
    else if req.entity !in Entities then Rejected(BadRequest)
    else if req.name !in Attributes(req.entity) then Rejected(BadRequest)
    else if req.id !in Table(t, req.entity) then Rejected(NotFound)
    else if !IsOwner(req.caller, Table(t, req.entity)[req.id]) then Rejected(Forbidden)
    else Found(Table(t, req.entity)[req.id])
  }

  /** The image column / entity pairs that pass the type, entity and
      attribute checks: exactly three. */
  lemma AcceptedColumns(name: string, entity: string)
    ensures (name in ImageTypes && entity in Entities && name in Attributes(entity)) <==>
            (name, entity) in {("images", "memory"), ("wallImage", "memory"), ("wallImage", "profile")}
  {
    if name == "avatar" {
      assert name !in MemoryAttributes by { assert "avatar" != "avatarImage"; }
    }
  }

  /** The route patterns bind `:column`, never `:name`, so every request the
      router delivers has an empty `name` and is refused with 400. */
  lemma RoutedRequestsAreRejected(t: Tables, entity: string, id: string, caller: Option<Id>)
    ensures Check(t, Request("", entity, id, caller)) == Rejected(BadRequest)
  {
  }

  /** "avatar" is an image type, but neither entity has such a column. */
  lemma AvatarIsNeverAccepted(t: Tables, req: Request)
    requires req.name == "avatar"
    ensures Check(t, req) == Rejected(BadRequest)
  {
    AcceptedColumns(req.name, req.entity);
  }

  // ---------------------------------------------------------------------
  // Paths

  /** The directory the uploader writes to: `uploads/<entity>/<id>/<column>`. */
  function UploadPath(req: Request): (r: string)
    ensures |r| == |"uploads/"| + |req.entity| + 1 + |req.id| + 1 + |req.name|
    ensures r[..|"uploads/"|] == "uploads/"
  {
    "uploads/" + req.entity + "/" + req.id + "/" + req.name
  }

  /** The stored path of an uploaded file. */
  function FilePath(req: Request, filename: string): string {
    UploadPath(req) + "/" + filename
  }

  /** `p` without its trailing slashes. */
  function StripTrailingSlashes(p: string): (r: string)
    ensures |r| <= |p| && r == p[..|r|]
    ensures r == [] || r[|r| - 1] != '/'
    ensures forall i :: |r| <= i < |p| ==> p[i] == '/'
  {
    if p == [] || p[|p| - 1] != '/' then p else StripTrailingSlashes(p[..|p| - 1])
  }

  /** What follows the last slash of `p`. */
  function LastSegment(p: string): (r: string)
    ensures |r| <= |p| && r == p[|p| - |r|..]
    ensures '/' !in r
    ensures |r| < |p| ==> p[|p| - |r| - 1] == '/'
  {
    if p == [] || p[|p| - 1] == '/' then [] else LastSegment(p[..|p| - 1]) + [p[|p| - 1]]
  }

  /** POSIX `path.basename`: the last segment once trailing slashes are dropped. */
  function Basename(p: string): (r: string)
    ensures '/' !in r
  {
    LastSegment(StripTrailingSlashes(p))
  }

  lemma {:induction false} LastSegmentAfterSlash(dir: string, f: string)
    requires '/' !in f
    ensures LastSegment(dir + "/" + f) == f
    decreases |f|
  {
    if f == [] {
    } else {
      var p := dir + "/" + f;
      var front := f[..|f| - 1];
      assert p[..|p| - 1] == dir + "/" + front;
      assert p[|p| - 1] == f[|f| - 1];
      LastSegmentAfterSlash(dir, front);
      assert front + [f[|f| - 1]] == f;
    }
  }

  /** The base name of a stored upload path is the stored filename. */
  lemma BasenameOfFilePath(req: Request, filename: string)
    requires filename != [] && '/' !in filename
    ensures Basename(FilePath(req, filename)) == filename
  {
    var p := FilePath(req, filename);
    assert p[|p| - 1] == filename[|filename| - 1];
    assert StripTrailingSlashes(p) == p;
    LastSegmentAfterSlash(UploadPath(req), filename);
  }

  // ---------------------------------------------------------------------
  // Lists

  /** The predicate of both `findIndex` calls: same base name, or same path. */
  predicate Matches(file: string, target: string) {
    Basename(file) == target || file == target
  }

  /** The first true position at or after `from`, or -1. */
  function FirstTrue(flags: seq<bool>, from: nat): (r: int)
    requires from <= |flags|
    ensures -1 <= r < |flags|
    ensures r == -1 <==> forall i :: from <= i < |flags| ==> !flags[i]
    ensures r >= 0 ==> from <= r && flags[r] && forall i :: from <= i < r ==> !flags[i]
    decreases |flags| - from
  {
    if from == |flags| then -1
    else if flags[from] then from
    else FirstTrue(flags, from + 1)
  }

  /** The outcome of the `findIndex` predicate on each entry. */
  function MatchFlags(files: seq<string>, target: string): (r: seq<bool>)
    ensures |r| == |files|
    ensures forall i :: 0 <= i < |files| ==> r[i] == Matches(files[i], target)
  {
    seq(|files|, i requires 0 <= i < |files| => Matches(files[i], target))
  }

  /** `Array.prototype.findIndex`: the first matching position, or -1. */
  function FindIndex(files: seq<string>, target: string): (r: int)
    ensures -1 <= r < |files|
    ensures r == -1 <==> forall i :: 0 <= i < |files| ==> !Matches(files[i], target)
    ensures r >= 0 ==> Matches(files[r], target) && forall i :: 0 <= i < r ==> !Matches(files[i], target)
  {
    FirstTrue(MatchFlags(files, target), 0)
  }

  /** The paths of the uploaded files, in upload order. */
  function FilePaths(req: Request, filenames: seq<string>): (r: seq<string>)
    ensures |r| == |filenames|
    ensures forall i :: 0 <= i < |r| ==> r[i] == FilePath(req, filenames[i])
  {
    seq(|filenames|, i requires 0 <= i < |filenames| => FilePath(req, filenames[i]))
  }

  /** `[...existing.slice(0, i), ...existing.slice(i + 1)]`. */
  function RemoveAt(files: seq<string>, i: nat): (r: seq<string>)
    requires i < |files|
    ensures |r| == |files| - 1
    ensures r[..i] == files[..i] && r[i..] == files[i + 1..]
    ensures multiset(r) + multiset{files[i]} == multiset(files)
  {
    assert files == files[..i] + [files[i]] + files[i + 1..];
    files[..i] + files[i + 1..]
  }

  // ---------------------------------------------------------------------
  // Handlers

  /** A handler's answer, and the value it writes into the column, if any. */
  datatype Reply = Reply(status: int, write: Option<ColumnValue>)

  /** What the multi-file uploader left: its own error, or the stored names. */
  datatype MultiUpload = MultiFailed | StoredAll(filenames: seq<string>)

  /** What the single-file uploader left: its error, nothing, or one name. */
  datatype SingleUpload = SingleFailed | NoFile | Stored(filename: string)

  /** The list `JSON.parse(value) ?? []` yields when it is an array. */
  function ParsedOrEmpty(v: ColumnValue): Option<seq<string>> {
    match v
    case Null => Some([])
    case Array(items) => Some(items)
    case _ => None
  }

  /** `uploadMultiFilesController`: appends the new paths to the column's
      array (a NULL column counts as empty). A column holding anything else
      makes the parse or the spread throw, answered with 500. */
  function UploadMulti(t: Tables, req: Request, upload: MultiUpload): (r: Reply)
    ensures Check(t, req).Rejected? ==> r == Reply(Check(t, req).status, None)
    ensures r.write.Some? <==> r.status == Ok
    ensures (r.status == Ok <==>
               && Check(t, req).Found? && upload.StoredAll? && upload.filenames != []
               && ParsedOrEmpty(Column(Check(t, req).row, req.name)).Some?)
    ensures r.status == Ok ==>
              var old_ := ParsedOrEmpty(Column(Check(t, req).row, req.name)).value;
              r.write == Some(Array(old_ + FilePaths(req, upload.filenames)))
    ensures Check(t, req).Found? && (upload.MultiFailed? || upload.filenames == []) ==> r == Reply(BadRequest, None)
    ensures (Check(t, req).Found? && upload.StoredAll? && upload.filenames != []
             && ParsedOrEmpty(Column(Check(t, req).row, req.name)).None?) ==> r == Reply(ServerError, None)
  {
    match Check(t, req)
    case Rejected(s) => Reply(s, None)
    case Found(row) =>
      match upload
      case MultiFailed => Reply(BadRequest, None)
      case StoredAll(filenames) =>
        if filenames == [] then Reply(BadRequest, None)
        else
          match ParsedOrEmpty(Column(row, req.name))
          case None => Reply(ServerError, None)
          case Some(existing) => Reply(Ok, Some(Array(existing + FilePaths(req, filenames))))
  }

  /** `uploadSingleFileController`: overwrites the column with the bare path
      of the new file, whatever it held before. */
  function UploadSingle(t: Tables, req: Request, upload: SingleUpload): (r: Reply)
    ensures Check(t, req).Rejected? ==> r == Reply(Check(t, req).status, None)
    ensures r.write.Some? <==> r.status == Ok
    ensures r.status == Ok <==> Check(t, req).Found? && upload.Stored?
    ensures r.status == Ok ==> r.write == Some(PlainText(FilePath(req, upload.filename)))
    ensures Check(t, req).Found? && !upload.Stored? ==> r == Reply(BadRequest, None)
  {
    match Check(t, req)
    case Rejected(s) => Reply(s, None)
    case Found(_) =>
      match upload
      case Stored(filename) => Reply(Ok, Some(PlainText(FilePath(req, filename))))
      case _ => Reply(BadRequest, None)
  }

  /** `replaceSingleFileController`: puts the new path at the position of the
      first entry matching `oldFilename`, other entries untouched. A column
      that parses to a non-array is 400; one that does not parse is handed
      to the error handler (500). */
  function ReplaceFile(t: Tables, req: Request, upload: SingleUpload, oldFilename: string): (r: Reply)
    ensures Check(t, req).Rejected? ==> r == Reply(Check(t, req).status, None)
    ensures r.write.Some? <==> r.status == Ok
    ensures (Check(t, req).Found? && Column(Check(t, req).row, req.name).Scalar?) ==> r == Reply(BadRequest, None)
    ensures (Check(t, req).Found? && Column(Check(t, req).row, req.name).PlainText?) ==> r == Reply(ServerError, None)
    ensures (r.status == Ok <==>
               && Check(t, req).Found? && upload.Stored? && oldFilename != ""
               && ParsedOrEmpty(Column(Check(t, req).row, req.name)).Some?
               && FindIndex(ParsedOrEmpty(Column(Check(t, req).row, req.name)).value, oldFilename) >= 0)
    ensures r.status == Ok ==>
              var existing := ParsedOrEmpty(Column(Check(t, req).row, req.name)).value;
              var i := FindIndex(existing, oldFilename);
              && r.write.value.Array?
              && |r.write.value.items| == |existing|
              && r.write.value.items[i] == FilePath(req, upload.filename)
              && (forall j :: 0 <= j < |existing| && j != i ==> r.write.value.items[j] == existing[j])
    ensures (Check(t, req).Found? && ParsedOrEmpty(Column(Check(t, req).row, req.name)).Some?
             && (!upload.Stored? || oldFilename == "")) ==> r == Reply(BadRequest, None)
    ensures (&& Check(t, req).Found? && ParsedOrEmpty(Column(Check(t, req).row, req.name)).Some?
             && upload.Stored? && oldFilename != ""
             && FindIndex(ParsedOrEmpty(Column(Check(t, req).row, req.name)).value, oldFilename) == -1)
            ==> r == Reply(NotFound, None)
  {
    match Check(t, req)
    case Rejected(s) => Reply(s, None)
    case Found(row) =>
      var v := Column(row, req.name);
      if v.Scalar? then Reply(BadRequest, None)
      else if v.PlainText? then Reply(ServerError, None)
      else
        var existing := if v.Array? then v.items else [];
        if !upload.Stored? then Reply(BadRequest, None)
        else if oldFilename == "" then Reply(BadRequest, None)
        else
          var i := FindIndex(existing, oldFilename);
          if i == -1 then Reply(NotFound, None)
          else Reply(Ok, Some(Array(existing[i := FilePath(req, upload.filename)])))
  }

  /** `deleteFileController`: an empty column is 404; an array column is
      emptied; a column parsing to a non-array is set to NULL; a column that
      does not parse (a bare path) makes the parse throw, answered with 500. */
  function DeleteAll(t: Tables, req: Request): (r: Reply)
    ensures Check(t, req).Rejected? ==> r == Reply(Check(t, req).status, None)
    ensures r.write.Some? <==> r.status == Ok
    ensures Check(t, req).Found? ==>
              var v := Column(Check(t, req).row, req.name);
              && (v.Null? || v == PlainText("") <==> r == Reply(NotFound, None))
              && (v.Array? <==> r == Reply(Ok, Some(Array([]))))
              && (v.Scalar? <==> r == Reply(Ok, Some(Null)))
              && (v.PlainText? && v.text != "" <==> r == Reply(ServerError, None))
  {
    match Check(t, req)
    case Rejected(s) => Reply(s, None)
    case Found(row) =>
      match Column(row, req.name)
      case Null => Reply(NotFound, None)
      case PlainText(text) => if text == "" then Reply(NotFound, None) else Reply(ServerError, None)
      case Array(_) => Reply(Ok, Some(Array([])))
      case Scalar(_) => Reply(Ok, Some(Null))
  }

  /** `deleteSpecificFileController`: removes the first entry matching
      `filename`, keeping the order of the rest. The filename is required
      before any other check but the parameters. */
  function DeleteSpecific(t: Tables, req: Request, filename: string): (r: Reply)
    ensures (req.name == "" || req.entity == "" || req.id == "" || filename == "") ==> r == Reply(BadRequest, None)
    ensures filename != "" && Check(t, req).Rejected? ==> r == Reply(Check(t, req).status, None)
    ensures r.write.Some? <==> r.status == Ok
    ensures (r.status == Ok <==>
               && filename != "" && Check(t, req).Found?
               && Column(Check(t, req).row, req.name).Array?
               && FindIndex(Column(Check(t, req).row, req.name).items, filename) >= 0)
    ensures r.status == Ok ==>
              var existing := Column(Check(t, req).row, req.name).items;
              var i := FindIndex(existing, filename);
              && r.write.value.Array?
              && |r.write.value.items| == |existing| - 1
              && r.write.value.items[..i] == existing[..i]
              && r.write.value.items[i..] == existing[i + 1..]
              && multiset(r.write.value.items) + multiset{existing[i]} == multiset(existing)
    ensures filename != "" && Check(t, req).Found? ==>
              var v := Column(Check(t, req).row, req.name);
              && (v.Null? || v.Scalar? ==> r == Reply(BadRequest, None))
              && (v.PlainText? ==> r == Reply(ServerError, None))
              && (v.Array? && FindIndex(v.items, filename) == -1 ==> r == Reply(NotFound, None))
  {
    if req.name == "" || req.entity == "" || req.id == "" then Reply(BadRequest, None)
    else if filename == "" then Reply(BadRequest, None)
    else
      match Check(t, req)
      case Rejected(s) => Reply(s, None)
      case Found(row) =>
        match Column(row, req.name)
        case PlainText(_) => Reply(ServerError, None)
        case Array(existing) =>
          var i := FindIndex(existing, filename);
          if i == -1 then Reply(NotFound, None)
          else Reply(Ok, Some(Array(RemoveAt(existing, i))))
        case _ => Reply(BadRequest, None)
  }

  /** The tables after a handler's write into the requested row's column. */
  function Written(t: Tables, req: Request, write: Option<ColumnValue>): (r: Tables)
    ensures write.None? ==> r == t
    ensures write.Some? && req.id in Table(t, req.entity) ==>
              var row := Table(t, req.entity)[req.id];
              && Table(r, req.entity) == Table(t, req.entity)[req.id := row.(columns := row.columns[req.name := write.value])]
              && Column(Table(r, req.entity)[req.id], req.name) == write.value
  {
    match write
    case None => t
    case Some(v) =>
      var table := Table(t, req.entity);
      if req.id !in table then t
      else
        var row := table[req.id];
        var table' := table[req.id := row.(columns := row.columns[req.name := v])];
        if req.entity == "memory" then t.(memories := table') else t.(profiles := table')
  }

  // ---------------------------------------------------------------------
  // Properties across handlers

  /** A file appended to a list none of whose entries match its name is
      found at the end. */
  lemma AppendedFileIsFound(items: seq<string>, req: Request, filename: string)
    requires filename != "" && '/' !in filename
    requires forall j :: 0 <= j < |items| ==> !Matches(items[j], filename)
    ensures FindIndex(items + [FilePath(req, filename)], filename) == |items|
  {
    var grown := items + [FilePath(req, filename)];
    BasenameOfFilePath(req, filename);
    assert Matches(grown[|items|], filename);
    assert forall j :: 0 <= j < |items| ==> grown[j] == items[j];
  }

  /** Overwriting a column and then writing its former value back leaves
      the tables as they were. */
  lemma WriteBackIsIdentity(t: Tables, req: Request, v: ColumnValue, former: ColumnValue)
    requires req.id in Table(t, req.entity) && req.name in Table(t, req.entity)[req.id].columns
    requires Table(t, req.entity)[req.id].columns[req.name] == former
    ensures Written(Written(t, req, Some(v)), req, Some(former)) == t
  {
    var row := Table(t, req.entity)[req.id];
    assert row.columns[req.name := v][req.name := former] == row.columns;
    if req.entity == "memory" {
      assert Written(Written(t, req, Some(v)), req, Some(former)).memories == t.memories;
    } else {
      assert Written(Written(t, req, Some(v)), req, Some(former)).profiles == t.profiles;
    }
  }

  /** Uploading one file to an array column and then deleting it by its file
      name restores the column, when no earlier entry bore that name. */
  lemma UploadThenDeleteRestores(t: Tables, req: Request, filename: string)
    requires Check(t, req).Found? && Column(Check(t, req).row, req.name).Array?
    requires filename != "" && '/' !in filename
    requires forall j :: 0 <= j < |Column(Check(t, req).row, req.name).items| ==>
               !Matches(Column(Check(t, req).row, req.name).items[j], filename)
    ensures var up := UploadMulti(t, req, StoredAll([filename]));
            var t1 := Written(t, req, up.write);
            var del := DeleteSpecific(t1, req, filename);
            && up.status == Ok && del.status == Ok
            && Written(t1, req, del.write) == t
  {
    var row := Check(t, req).row;
    var items := Column(row, req.name).items;
    var grown := items + [FilePath(req, filename)];
    assert FilePaths(req, [filename]) == [FilePath(req, filename)];
    var up := UploadMulti(t, req, StoredAll([filename]));
    assert up.write == Some(Array(grown));
    var t1 := Written(t, req, up.write);
    AppendedFileIsFound(items, req, filename);
    assert Check(t1, req) == Found(Table(t1, req.entity)[req.id]);
    var del := DeleteSpecific(t1, req, filename);
    assert RemoveAt(grown, |items|) == items;
    assert del.write == Some(Array(items));
    WriteBackIsIdentity(t, req, Array(grown), Array(items));
  }

  /** After a successful replace the new file can be looked up by its name
      in the column, at the replaced position or before it. */
  lemma ReplacedFileIsFound(t: Tables, req: Request, filename: string, oldFilename: string)
    requires filename != "" && '/' !in filename
    requires ReplaceFile(t, req, Stored(filename), oldFilename).status == Ok
    ensures var r := ReplaceFile(t, req, Stored(filename), oldFilename);
            var i := FindIndex(ParsedOrEmpty(Column(Check(t, req).row, req.name)).value, oldFilename);
            0 <= FindIndex(r.write.value.items, filename) <= i
  {
    var r := ReplaceFile(t, req, Stored(filename), oldFilename);
    var i := FindIndex(ParsedOrEmpty(Column(Check(t, req).row, req.name)).value, oldFilename);
    BasenameOfFilePath(req, filename);
    assert Matches(r.write.value.items[i], filename);
  }

  /** A single-file upload stores a bare path, which `JSON.parse` rejects:
      afterwards the multi-file upload into that column answers 500 and the
      delete-all handler answers 500 instead of clearing it. */
  lemma SingleUploadBreaksArrayHandlers(t: Tables, req: Request, filename: string, more: seq<string>)
    requires UploadSingle(t, req, Stored(filename)).status == Ok
    requires more != []
    ensures var t1 := Written(t, req, UploadSingle(t, req, Stored(filename)).write);
            && UploadMulti(t1, req, StoredAll(more)) == Reply(ServerError, None)
            && DeleteAll(t1, req) == Reply(ServerError, None)
  {
    var t1 := Written(t, req, UploadSingle(t, req, Stored(filename)).write);
    var path := FilePath(req, filename);
    assert Check(t1, req) == Found(Table(t1, req.entity)[req.id]);
    assert Column(Check(t1, req).row, req.name) == PlainText(path);
    assert path != "" by { assert |path| > 0; }
  }
}
