/** The memory and profile tables as mutable state, and the five upload
    handlers as methods that write their result into the row in place. */
module ImageStorage {
  import opened Schema
  import opened UploadController

  /** The memory and profile tables; each handler runs its checks and list
      computation, then updates the one column of the one row in place. */
  class ImageStore {
    var memories: map<string, ImageRow>
    var profiles: map<string, ImageRow>

    function Contents(): Tables
      reads this
    {
      Tables(memories, profiles)
    }

    constructor (t: Tables)
      ensures Contents() == t
    {
      memories := t.memories;
      profiles := t.profiles;
    }

    /** `entityRecord.update({ [column]: v })` on the requested row. */
    method Update(req: Request, v: ColumnValue)
      requires req.id in Table(Contents(), req.entity)
      modifies this
      ensures Contents() == Written(old(Contents()), req, Some(v))
    {
      if req.entity == "memory" {
        var row := memories[req.id];
        memories := memories[req.id := row.(columns := row.columns[req.name := v])];
      } else {
        var row := profiles[req.id];
        profiles := profiles[req.id := row.(columns := row.columns[req.name := v])];
      }
    }

    /** `uploadMultiFilesController`. */
    method UploadMulti(req: Request, upload: MultiUpload) returns (status: int)
      modifies this
      ensures var r := UploadController.UploadMulti(old(Contents()), req, upload);
              status == r.status && Contents() == Written(old(Contents()), req, r.write)
    {
      var checked := Check(Contents(), req);
      if checked.Rejected? {
        return checked.status;
      }
      if upload.MultiFailed? || upload.filenames == [] {
        return BadRequest;
      }
      var existing := ParsedOrEmpty(Column(checked.row, req.name));
      if existing.None? {
        return ServerError;
      }
      Update(req, Array(existing.value + FilePaths(req, upload.filenames)));
      status := Ok;
    }

    /** `uploadSingleFileController`. */
    method UploadSingle(req: Request, upload: SingleUpload) returns (status: int)
      modifies this
      ensures var r := UploadController.UploadSingle(old(Contents()), req, upload);
              status == r.status && Contents() == Written(old(Contents()), req, r.write)
    {
      var checked := Check(Contents(), req);
      if checked.Rejected? {
        return checked.status;
      }
      if !upload.Stored? {
        return BadRequest;
      }
      Update(req, PlainText(FilePath(req, upload.filename)));
      status := Ok;
    }

    /** `replaceSingleFileController`. */
    method ReplaceFile(req: Request, upload: SingleUpload, oldFilename: string) returns (status: int)
      modifies this
      ensures var r := UploadController.ReplaceFile(old(Contents()), req, upload, oldFilename);
              status == r.status && Contents() == Written(old(Contents()), req, r.write)
    {
      var checked := Check(Contents(), req);
      if checked.Rejected? {
        return checked.status;
      }
      var v := Column(checked.row, req.name);
      if v.Scalar? {
        return BadRequest;
      }
      if v.PlainText? {
        return ServerError;
      }
      var existing := if v.Array? then v.items else [];
      if !upload.Stored? || oldFilename == "" {
        return BadRequest;
      }
      var i := FindIndex(existing, oldFilename);
      if i == -1 {
        return NotFound;
      }
      Update(req, Array(existing[i := FilePath(req, upload.filename)]));
      status := Ok;
    }

    /** `deleteFileController`. */
    method DeleteAll(req: Request) returns (status: int)
      modifies this
      ensures var r := UploadController.DeleteAll(old(Contents()), req);
              status == r.status && Contents() == Written(old(Contents()), req, r.write)
    {
      var checked := Check(Contents(), req);
      if checked.Rejected? {
        return checked.status;
      }
      var v := Column(checked.row, req.name);
      if v.Null? || v == PlainText("") {
        return NotFound;
      }
      if v.PlainText? {
        return ServerError;
      }
      Update(req, if v.Array? then Array([]) else Null);
      status := Ok;
    }

    /** `deleteSpecificFileController`. */
    method DeleteSpecific(req: Request, filename: string) returns (status: int)
      modifies this
      ensures var r := UploadController.DeleteSpecific(old(Contents()), req, filename);
              status == r.status && Contents() == Written(old(Contents()), req, r.write)
    {
      if req.name == "" || req.entity == "" || req.id == "" || filename == "" {
        return BadRequest;
      }
      var checked := Check(Contents(), req);
      if checked.Rejected? {
        return checked.status;
      }
      var v := Column(checked.row, req.name);
      if v.PlainText? {
        return ServerError;
      }
      if !v.Array? {
        return BadRequest;
      }
      var i := FindIndex(v.items, filename);
      if i == -1 {
        return NotFound;
      }
      Update(req, Array(RemoveAt(v.items, i)));
      status := Ok;
    }
  }
}
