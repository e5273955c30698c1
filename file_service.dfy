/**
 * The file service (pkg/service/file_service.go) over the in-memory file table.
 * `updateField` and `updateSize` write through a pointer to a field of the fetched
 * copy of the file; here each returns the field's new value, and `PatchFile` applies
 * the four updates one after the other to its copy.
 */
module FileService {
  import opened Numeric
  import opened Wrappers
  import opened Entity
  import opened Repository

  /** `updateField`: a nil argument leaves the field as it is, otherwise overwrites it. */
  function UpdateField(field: string, value: Option<string>): (r: string)
    ensures value.None? ==> r == field
    ensures value.Some? ==> r == value.value
  {
    match value
    case None => field
    case Some(v) => v
  }

  /** `updateSize`: the same rule for the size. */
  function UpdateSize(field: uint64, value: Option<uint64>): (r: uint64)
    ensures value.None? ==> r == field
    ensures value.Some? ==> r == value.value
  {
    match value
    case None => field
    case Some(v) => v
  }

  /** The four updates of `PatchFile`, in the source's order, applied to the fetched file. */
  function Patched(file: File, name: Option<string>, fileType: Option<string>,
                   extension: Option<string>, size: Option<uint64>): (r: File)
  {
    var f1 := file.(name := UpdateField(file.name, name));
    var f2 := f1.(fileType := UpdateField(f1.fileType, fileType));
    var f3 := f2.(extension := UpdateField(f2.extension, extension));
    f3.(size := UpdateSize(f3.size, size))
  }

  /** `PatchFile`. The repository reports a missing file as no file and no error. */
  function PatchFile(t: FileTable, userId: uint64, id: uint64, name: Option<string>, fileType: Option<string>,
                     extension: Option<string>, size: Option<uint64>): (r: (FileTable, Result<File>))
    ensures Repository.GetFile(t, userId, id).Err? ==> r == (t, Err(Repository.GetFile(t, userId, id).error))
    ensures Repository.GetFile(t, userId, id) == Ok(None) ==> r == (t, Err(FileNotFound(id)))
    ensures Repository.GetFile(t, userId, id).Ok? && Repository.GetFile(t, userId, id).value.Some? ==>
              var patched := Patched(Repository.GetFile(t, userId, id).value.value, name, fileType, extension, size);
              (UpdateFileQ in t.failing ==> r == (t, Err(DbFailure(t.failing[UpdateFileQ])))) &&
              (UpdateFileQ !in t.failing ==> r == (Repository.UpdateFile(t, userId, patched).0, Ok(patched)))
    ensures r.1.Err? ==> r.0 == t
  {
    match Repository.GetFile(t, userId, id)
    case Err(e) => (t, Err(e))
    case Ok(None) => (t, Err(FileNotFound(id)))
    case Ok(Some(file)) =>
      var patched := Patched(file, name, fileType, extension, size);
      var (t', err) := Repository.UpdateFile(t, userId, patched);
      if err.Some? then (t, Err(err.value)) else (t', Ok(patched))
  }

  /** `CreateFile`: refused when the folder already holds a file of that name; lookup errors are passed on. */
  function CreateFile(t: FileTable, userId: uint64, name: string, folderId: uint64): (r: (FileTable, Result<File>))
    ensures GetFileByNameAndFolderIdQ in t.failing ==>
              r == (t, Err(DbFailure(t.failing[GetFileByNameAndFolderIdQ])))
    ensures GetFileByNameAndFolderIdQ !in t.failing ==>
              ((exists k :: 0 <= k < |t.rows| && NamedFileIn(t.rows[k], userId, name, folderId)) ==>
                 r == (t, Err(FileNameExists(name, folderId))))
    ensures GetFileByNameAndFolderIdQ !in t.failing ==>
              ((forall k :: 0 <= k < |t.rows| ==> !NamedFileIn(t.rows[k], userId, name, folderId)) ==>
                 r == Repository.CreateFile(t, userId, name, folderId))
  {
    match Repository.GetFileByNameAndFolderId(t, userId, name, folderId)
    case Err(e) => (t, Err(e))
    case Ok(Some(_)) => (t, Err(FileNameExists(name, folderId)))
    case Ok(None) => Repository.CreateFile(t, userId, name, folderId)
  }

  /** `GetFile`: the repository's answer. */
  function GetFile(t: FileTable, userId: uint64, id: uint64): (r: Result<Option<File>>)
    ensures r == Repository.GetFile(t, userId, id)
  {
    Repository.GetFile(t, userId, id)
  }

  /** `GetChildren`: the files of a folder; the repository never reports an error here. */
  function GetChildren(t: FileTable, userId: uint64, folderId: uint64): (r: Result<seq<File>>)
    ensures r == Ok(Repository.GetFilesByFolderId(t, userId, folderId))
  {
    Ok(Repository.GetFilesByFolderId(t, userId, folderId))
  }

  /** `DeleteFile`: the repository's answer and table. */
  function DeleteFile(t: FileTable, userId: uint64, id: uint64): (r: (FileTable, Result<bool>))
    ensures r == Repository.DeleteFile(t, userId, id)
  {
    Repository.DeleteFile(t, userId, id)
  }

  /** `PatchFile` touches exactly the name, type, extension and size, each only when its argument is given. */
  lemma PatchedFields(file: File, name: Option<string>, fileType: Option<string>,
                      extension: Option<string>, size: Option<uint64>)
    ensures var p := Patched(file, name, fileType, extension, size);
            p == file.(name := p.name, fileType := p.fileType, extension := p.extension, size := p.size) &&
            p.name == (if name.Some? then name.value else file.name) &&
            p.fileType == (if fileType.Some? then fileType.value else file.fileType) &&
            p.extension == (if extension.Some? then extension.value else file.extension) &&
            p.size == (if size.Some? then size.value else file.size)
  {
  }

  /** Patching twice with the same arguments stores the same table and returns the same file as patching once. */
  lemma PatchFileTwice(t: FileTable, userId: uint64, id: uint64, name: Option<string>, fileType: Option<string>,
                       extension: Option<string>, size: Option<uint64>)
    requires PatchFile(t, userId, id, name, fileType, extension, size).1.Ok?
    ensures var (t1, r1) := PatchFile(t, userId, id, name, fileType, extension, size);
            PatchFile(t1, userId, id, name, fileType, extension, size) == (t1, r1)
  {
    var (t1, r1) := PatchFile(t, userId, id, name, fileType, extension, size);
    var file := Repository.GetFile(t, userId, id).value.value;
    var patched := Patched(file, name, fileType, extension, size);
    assert r1 == Ok(patched) && t1.rows == ReplaceById(t.rows, (f: File) => f.id, patched);
    var k :| 0 <= k < |t.rows| && t.rows[k] == file;
    PatchedFields(file, name, fileType, extension, size);
    ReplacedFileFound(t.rows, userId, id, patched, k);
    assert Repository.GetFile(t1, userId, id) == Ok(Some(patched));
    assert Patched(patched, name, fileType, extension, size) == patched;
    ReplaceByIdTwice(t.rows, patched);
  }

  /** After a file replaces the rows with its ID, it is the user's first file with that ID. */
  lemma ReplacedFileFound(rows: seq<File>, userId: uint64, id: uint64, patched: File, k: nat)
    requires OwnedFile(patched, userId, id) && k < |rows| && rows[k].id == id
    ensures FirstWhere(ReplaceById(rows, (f: File) => f.id, patched), f => OwnedFile(f, userId, id)) == Some(patched)
  {
    var replaced := ReplaceById(rows, (f: File) => f.id, patched);
    var found := FirstWhere(replaced, f => OwnedFile(f, userId, id));
    assert replaced[k] == patched;
    if found.Some? {
      var j :| 0 <= j < |replaced| && replaced[j] == found.value;
    }
  }

  /** Replacing by a file's ID a second time changes nothing. */
  lemma ReplaceByIdTwice(rows: seq<File>, file: File)
    ensures ReplaceById(ReplaceById(rows, (f: File) => f.id, file), (f: File) => f.id, file) ==
            ReplaceById(rows, (f: File) => f.id, file)
  {
  }

  /** A file name is unique within a user's folder: the invariant `CreateFile` guards. */
  ghost predicate UniqueFileNames(t: FileTable)
  {
    forall i, j :: 0 <= i < j < |t.rows| && t.rows[i].userId == t.rows[j].userId && t.rows[i].folderId == t.rows[j].folderId ==>
      t.rows[i].name != t.rows[j].name
  }

  /** `CreateFile` keeps file names unique within a user's folder. */
  lemma CreateFileKeepsNamesUnique(t: FileTable, userId: uint64, name: string, folderId: uint64)
    requires UniqueFileNames(t)
    ensures UniqueFileNames(CreateFile(t, userId, name, folderId).0)
  {
    var (t', r) := CreateFile(t, userId, name, folderId);
    if r.Ok? {
      assert Repository.GetFileByNameAndFolderId(t, userId, name, folderId) == Ok(None);
      forall i, j | 0 <= i < j < |t'.rows| && t'.rows[i].userId == t'.rows[j].userId && t'.rows[i].folderId == t'.rows[j].folderId
        ensures t'.rows[i].name != t'.rows[j].name
      {
        if j == |t.rows| {
          assert !NamedFileIn(t.rows[i], userId, name, folderId);
        }
      }
    }
  }
}
