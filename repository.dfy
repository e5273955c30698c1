/**
 * An in-memory stand-in for the gorm repositories (pkg/repository/folder_repository.go and file_repository.go).
 *
 * A table is its rows in insertion order, so gorm's `First` is the first matching
 * row. Database failures are injected per query: a query named in `failing` returns
 * that database error instead of touching the rows. What is kept from the real
 * repositories is their shape of results:
 *  - every folder lookup reports a missing row as the error `RecordNotFound`;
 *  - `GetFile` and `GetFileByNameAndFolderId` report a missing row as no file and no error;
 *  - `GetFolder` and `DeleteFolder` match the ID only, ignoring the user.
 */
module Repository {
  import opened Numeric
  import opened Wrappers
  import opened Entity

  /** The errors the services can return. */
  datatype Error =
    | RecordNotFound                                    // gorm.ErrRecordNotFound
    | DbFailure(code: nat)                              // any other database error
    | IdsExhausted                                      // the ID sequence has no value left
    | RootFolderExists(userId: uint64)                  // "root folder already exists for user %v"
    | FolderNameExists(name: string)                    // "folder with name %v already exists"
    | FileNotFound(id: uint64)                          // "file with id %v not found"
    | FileNameExists(name: string, folderId: uint64)    // "file with name %v already exists in folder %v"

  datatype Result<+T> = Ok(value: T) | Err(error: Error)

  datatype FolderQuery =
    | GetRootFolderQ | GetFolderQ | GetChildrenQ | GetFolderByNameAndParentIdQ
    | CreateRootFolderQ | CreateFolderQ | UpdateFolderQ | DeleteFolderQ

  datatype FileQuery =
    | CreateFileQ | UpdateFileQ | DeleteFileQ | GetFileQ | GetFileByNameAndFolderIdQ | GetFilesByFolderIdQ

  datatype FolderTable = FolderTable(rows: seq<Folder>, nextId: uint64, failing: map<FolderQuery, nat>)

  datatype FileTable = FileTable(rows: seq<File>, nextId: uint64, failing: map<FileQuery, nat>)

  /**
   * The first row satisfying `p`, as gorm's `First` finds it. `First` orders by the
   * primary key; on a table whose rows are in ascending ID order (`FolderKeysOrdered`,
   * `FileKeysOrdered`) that is the first row in table order (`FirstWhereLowestKey`).
   */
  function FirstWhere<T>(rows: seq<T>, p: T -> bool): (r: Option<T>)
    ensures r.Some? ==> r.value in rows && p(r.value)
    ensures r.Some? ==> exists k :: 0 <= k < |rows| && rows[k] == r.value && forall j :: 0 <= j < k ==> !p(rows[j])
    ensures r.None? ==> forall k :: 0 <= k < |rows| ==> !p(rows[k])
  {
    if rows == [] then None
    else if p(rows[0]) then Some(rows[0])
    else
      var rest := FirstWhere(rows[1..], p);
      assert rest.Some? ==>
               exists k :: 0 <= k < |rows| && rows[k] == rest.value && forall j :: 0 <= j < k ==> !p(rows[j]) by {
        if rest.Some? {
          var k :| 0 <= k < |rows[1..]| && rows[1..][k] == rest.value && forall j :: 0 <= j < k ==> !p(rows[1..][j]);
          assert rows[k + 1] == rest.value && forall j :: 0 <= j < k + 1 ==> !p(rows[j]);
        }
      }
      rest
  }

  function Filter<T(!new)>(rows: seq<T>, p: T -> bool): (r: seq<T>)
    ensures forall x :: x in r <==> x in rows && p(x)
    ensures |r| <= |rows|
    ensures |r| == |rows| <==> forall k :: 0 <= k < |rows| ==> p(rows[k])
  {
    if rows == [] then [] else (if p(rows[0]) then [rows[0]] else []) + Filter(rows[1..], p)
  }

  /** `Find` keeps every matching row as often as it occurs, and no other: the result is the matching rows, counted. */
  lemma {:induction false} FilterCounts<T(!new)>(rows: seq<T>, p: T -> bool)
    ensures forall x :: multiset(Filter(rows, p))[x] == if p(x) then multiset(rows)[x] else 0
  {
    if rows != [] {
      FilterCounts(rows[1..], p);
      assert rows == [rows[0]] + rows[1..];
    }
  }

  /** Every row with ID `id` replaced by `row`. */
  function ReplaceById<T>(rows: seq<T>, id: T -> uint64, row: T): (r: seq<T>)
    ensures |r| == |rows|
    ensures forall k :: 0 <= k < |rows| ==> r[k] == if id(rows[k]) == id(row) then row else rows[k]
  {
    if rows == [] then [] else [if id(rows[0]) == id(row) then row else rows[0]] + ReplaceById(rows[1..], id, row)
  }

  /** The primary key of a row. */
  function FolderKey(f: Folder): uint64 { f.id }

  function FileKey(f: File): uint64 { f.id }

  /** Rows in strictly ascending order of their key: in particular no key occurs twice. */
  ghost predicate Ascending<T>(rows: seq<T>, key: T -> uint64)
  {
    forall i, j :: 0 <= i < j < |rows| ==> key(rows[i]) < key(rows[j])
  }

  /** On rows in ascending key order, the first row satisfying `p` is the one with the lowest key, as `First` picks it. */
  lemma FirstWhereLowestKey<T>(rows: seq<T>, key: T -> uint64, p: T -> bool)
    requires Ascending(rows, key)
    ensures FirstWhere(rows, p).Some? ==>
              forall k :: 0 <= k < |rows| && p(rows[k]) ==> key(FirstWhere(rows, p).value) <= key(rows[k])
  {
    var r := FirstWhere(rows, p);
    if r.Some? {
      var i :| 0 <= i < |rows| && rows[i] == r.value && forall j :: 0 <= j < i ==> !p(rows[j]);
      forall k | 0 <= k < |rows| && p(rows[k])
        ensures key(r.value) <= key(rows[k])
      {
        assert i <= k;
      }
    }
  }

  /** Filtering keeps the rows in ascending key order. */
  lemma {:induction false} FilterKeepsAscending<T(!new)>(rows: seq<T>, key: T -> uint64, p: T -> bool)
    requires Ascending(rows, key)
    ensures Ascending(Filter(rows, p), key)
  {
    if rows != [] {
      var rest := Filter(rows[1..], p);
      FilterKeepsAscending(rows[1..], key, p);
      if p(rows[0]) {
        var r := Filter(rows, p);
        assert r == [rows[0]] + rest;
        forall i, j | 0 <= i < j < |r|
          ensures key(r[i]) < key(r[j])
        {
          if i == 0 {
            assert r[j] == rest[j - 1] && rest[j - 1] in rows[1..];
            var m :| 0 <= m < |rows[1..]| && rows[1..][m] == rest[j - 1];
            assert rows[m + 1] == r[j];
          } else {
            assert r[i] == rest[i - 1] && r[j] == rest[j - 1];
          }
        }
      }
    }
  }

  // ---------------------------------------------------------------- folders

  /**
   * The primary-key invariant of the folder table: rows are in ascending ID order,
   * so that table order is `First`'s order, and every ID is below the next one handed out.
   */
  ghost predicate FolderKeysOrdered(t: FolderTable)
  {
    Ascending(t.rows, FolderKey) && forall k :: 0 <= k < |t.rows| ==> t.rows[k].id < t.nextId
  }

  predicate IsRootOf(f: Folder, userId: uint64) { f.userId == Some(userId) && f.parentId.None? }

  function GetRootFolder(t: FolderTable, userId: uint64): (r: Result<Folder>)
    ensures r.Ok? ==> IsRootOf(r.value, userId) && r.value in t.rows
    ensures r == Err(RecordNotFound) <==>
              GetRootFolderQ !in t.failing && forall k :: 0 <= k < |t.rows| ==> !IsRootOf(t.rows[k], userId)
  {
    if GetRootFolderQ in t.failing then Err(DbFailure(t.failing[GetRootFolderQ]))
    else match FirstWhere(t.rows, f => IsRootOf(f, userId))
      case None => Err(RecordNotFound)
      case Some(f) => Ok(f)
  }

  function GetFolder(t: FolderTable, userId: uint64, id: uint64): (r: Result<Folder>)
    ensures r.Ok? ==> r.value.id == id && r.value in t.rows
    ensures r == Err(RecordNotFound) <==>
              GetFolderQ !in t.failing && forall k :: 0 <= k < |t.rows| ==> t.rows[k].id != id
  {
    if GetFolderQ in t.failing then Err(DbFailure(t.failing[GetFolderQ]))
    else match FirstWhere(t.rows, (f: Folder) => f.id == id)
      case None => Err(RecordNotFound)
      case Some(f) => Ok(f)
  }

  predicate NamedChildOf(f: Folder, userId: uint64, name: string, parentId: uint64)
  {
    f.userId == Some(userId) && f.name == name && f.parentId == Some(parentId)
  }

  function GetFolderByNameAndParentId(t: FolderTable, userId: uint64, name: string, parentId: uint64): (r: Result<Folder>)
    ensures r.Ok? ==> NamedChildOf(r.value, userId, name, parentId) && r.value in t.rows
    ensures r == Err(RecordNotFound) <==>
              GetFolderByNameAndParentIdQ !in t.failing &&
              forall k :: 0 <= k < |t.rows| ==> !NamedChildOf(t.rows[k], userId, name, parentId)
  {
    if GetFolderByNameAndParentIdQ in t.failing then Err(DbFailure(t.failing[GetFolderByNameAndParentIdQ]))
    else match FirstWhere(t.rows, f => NamedChildOf(f, userId, name, parentId))
      case None => Err(RecordNotFound)
      case Some(f) => Ok(f)
  }

  /**
   * The children of a folder: every row of the user below it, each with its path set
   * below the parent's path. The query's own failure comes first, then a missing parent.
   */
  function GetChildren(t: FolderTable, userId: uint64, id: uint64): (r: Result<seq<Folder>>)
    ensures GetChildrenQ in t.failing ==> r == Err(DbFailure(t.failing[GetChildrenQ]))
    ensures GetChildrenQ !in t.failing && GetFolder(t, userId, id).Err? ==> r == Err(GetFolder(t, userId, id).error)
    ensures r.Ok? <==> GetChildrenQ !in t.failing && GetFolder(t, userId, id).Ok?
    ensures r.Ok? ==> forall k :: 0 <= k < |r.value| ==>
              r.value[k].userId == Some(userId) && r.value[k].parentId == Some(id) &&
              r.value[k].path == GetFolder(t, userId, id).value.path + "/" + r.value[k].name &&
              exists j :: 0 <= j < |t.rows| && r.value[k] == t.rows[j].(path := r.value[k].path)
    ensures r.Ok? ==> forall f :: f in t.rows && f.userId == Some(userId) && f.parentId == Some(id) ==>
              f.(path := GetFolder(t, userId, id).value.path + "/" + f.name) in r.value
  {
    if GetChildrenQ in t.failing then Err(DbFailure(t.failing[GetChildrenQ]))
    else
      var children := Filter(t.rows, (f: Folder) => f.userId == Some(userId) && f.parentId == Some(id));
      match GetFolder(t, userId, id)
      case Err(e) => Err(e)
      case Ok(parent) =>
        var found := BelowPath(children, parent.path);
        assert forall k :: 0 <= k < |children| ==> children[k] in t.rows && found[k] == children[k].(path := found[k].path);
        Ok(found)
  }

  /** Each row with its path set below `parentPath`, as `GetChildren` fills it in. */
  function BelowPath(rows: seq<Folder>, parentPath: string): (r: seq<Folder>)
    ensures |r| == |rows|
    ensures forall k :: 0 <= k < |rows| ==> r[k] == rows[k].(path := parentPath + "/" + rows[k].name)
    ensures forall f :: f in rows ==> f.(path := parentPath + "/" + f.name) in r
  {
    var r := seq(|rows|, k requires 0 <= k < |rows| => rows[k].(path := parentPath + "/" + rows[k].name));
    assert forall f :: f in rows ==> f.(path := parentPath + "/" + f.name) in r by {
      forall f | f in rows ensures f.(path := parentPath + "/" + f.name) in r {
        var k :| 0 <= k < |rows| && rows[k] == f;
        assert r[k] == f.(path := parentPath + "/" + f.name);
      }
    }
    r
  }

  /** Appends a new row with the next ID. */
  function InsertFolder(t: FolderTable, row: Folder): (r: (FolderTable, Result<Folder>))
    ensures r.1.Ok? ==> r.0.rows == t.rows + [r.1.value] && r.1.value == row.(id := t.nextId)
    ensures r.1.Err? ==> r.0 == t
  {
    if t.nextId == MAX_UINT64 then (t, Err(IdsExhausted))
    else
      var created := row.(id := t.nextId);
      (t.(rows := t.rows + [created], nextId := t.nextId + 1), Ok(created))
  }

  /** A root folder: empty name, no parent. */
  function CreateRootFolder(t: FolderTable, userId: uint64): (r: (FolderTable, Result<Folder>))
    ensures r.1.Ok? ==> r.0.rows == t.rows + [r.1.value] && IsRootOf(r.1.value, userId) && r.1.value.name == ""
    ensures r.1.Err? ==> r.0 == t
  {
    if CreateRootFolderQ in t.failing then (t, Err(DbFailure(t.failing[CreateRootFolderQ])))
    else InsertFolder(t, Folder(0, "", None, Some(userId), ""))
  }

  function CreateFolder(t: FolderTable, userId: uint64, name: string, parentId: uint64): (r: (FolderTable, Result<Folder>))
    ensures r.1.Ok? ==> r.0.rows == t.rows + [r.1.value] && NamedChildOf(r.1.value, userId, name, parentId)
    ensures r.1.Err? ==> r.0 == t
  {
    if CreateFolderQ in t.failing then (t, Err(DbFailure(t.failing[CreateFolderQ])))
    else InsertFolder(t, Folder(0, name, Some(parentId), Some(userId), ""))
  }

  /**
   * gorm's `Updates` with a struct writes only its non-zero fields: an empty name and
   * a nil parent or user leave the stored value. The path is no column, and the ID
   * is the one the row is selected by.
   */
  function Merged(stored: Folder, folder: Folder): Folder
  {
    stored.(name := if folder.name == "" then stored.name else folder.name,
            parentId := if folder.parentId.None? then stored.parentId else folder.parentId,
            userId := if folder.userId.None? then stored.userId else folder.userId)
  }

  /** `Updates` on the rows with the folder's ID; nothing else changes, and no error if there is no such row. */
  function UpdateFolder(t: FolderTable, userId: uint64, folder: Folder): (r: (FolderTable, Option<Error>))
    ensures r.1.None? ==> r.0.nextId == t.nextId && |r.0.rows| == |t.rows|
    ensures r.1.None? ==> forall k :: 0 <= k < |t.rows| ==>
              r.0.rows[k].id == t.rows[k].id && r.0.rows[k].path == t.rows[k].path &&
              (t.rows[k].id != folder.id ==> r.0.rows[k] == t.rows[k]) &&
              (t.rows[k].id == folder.id ==>
                 r.0.rows[k].name == (if folder.name == "" then t.rows[k].name else folder.name) &&
                 r.0.rows[k].parentId == (if folder.parentId.None? then t.rows[k].parentId else folder.parentId) &&
                 r.0.rows[k].userId == (if folder.userId.None? then t.rows[k].userId else folder.userId))
    ensures r.1.Some? ==> r.0 == t
  {
    if UpdateFolderQ in t.failing then (t, Some(DbFailure(t.failing[UpdateFolderQ])))
    else
      var rows := seq(|t.rows|, k requires 0 <= k < |t.rows| =>
                        if t.rows[k].id == folder.id then Merged(t.rows[k], folder) else t.rows[k]);
      (t.(rows := rows), None)
  }

  /** Writing a folder with an empty name changes no stored name. */
  lemma UpdateFolderKeepsNameOnEmpty(t: FolderTable, userId: uint64, folder: Folder)
    requires folder.name == ""
    ensures var t' := UpdateFolder(t, userId, folder).0;
            |t'.rows| == |t.rows| && forall k :: 0 <= k < |t.rows| ==> t'.rows[k].name == t.rows[k].name
  {
  }

  /** An insert takes the next ID, above every stored one, so the primary-key invariant holds after it. */
  lemma InsertFolderKeepsKeysOrdered(t: FolderTable, row: Folder)
    requires FolderKeysOrdered(t)
    ensures FolderKeysOrdered(InsertFolder(t, row).0)
  {
    var (t', r) := InsertFolder(t, row);
    if r.Ok? {
      assert forall k :: 0 <= k < |t.rows| ==> t'.rows[k] == t.rows[k];
      assert t'.rows[|t.rows|].id == t.nextId;
    }
  }

  /** `Updates` changes no ID, so the primary-key invariant holds after it. */
  lemma UpdateFolderKeepsKeysOrdered(t: FolderTable, userId: uint64, folder: Folder)
    requires FolderKeysOrdered(t)
    ensures FolderKeysOrdered(UpdateFolder(t, userId, folder).0)
  {
    var (updated, err) := UpdateFolder(t, userId, folder);
    if err.None? {
      assert forall k :: 0 <= k < |t.rows| ==> FolderKey(updated.rows[k]) == FolderKey(t.rows[k]);
    }
  }

  /** A delete keeps a subsequence of the rows, so the primary-key invariant holds after it. */
  lemma DeleteFolderKeepsKeysOrdered(t: FolderTable, userId: uint64, id: uint64)
    requires FolderKeysOrdered(t)
    ensures FolderKeysOrdered(DeleteFolder(t, userId, id).0)
  {
    var p := (f: Folder) => f.id != id;
    var (deleted, res) := DeleteFolder(t, userId, id);
    if res.Ok? {
      assert deleted.rows == Filter(t.rows, p);
      FilterKeepsAscending(t.rows, FolderKey, p);
      assert forall k :: 0 <= k < |deleted.rows| ==> deleted.rows[k] in t.rows;
    }
  }

  /** Every write to the folder table keeps its primary-key invariant. */
  lemma FolderWritesKeepKeysOrdered(t: FolderTable, userId: uint64, name: string, parentId: uint64, folder: Folder, id: uint64)
    requires FolderKeysOrdered(t)
    ensures FolderKeysOrdered(CreateRootFolder(t, userId).0)
    ensures FolderKeysOrdered(CreateFolder(t, userId, name, parentId).0)
    ensures FolderKeysOrdered(UpdateFolder(t, userId, folder).0)
    ensures FolderKeysOrdered(DeleteFolder(t, userId, id).0)
  {
    InsertFolderKeepsKeysOrdered(t, Folder(0, "", None, Some(userId), ""));
    InsertFolderKeepsKeysOrdered(t, Folder(0, name, Some(parentId), Some(userId), ""));
    UpdateFolderKeepsKeysOrdered(t, userId, folder);
    DeleteFolderKeepsKeysOrdered(t, userId, id);
  }

  /** Removes the rows with ID `id`; reports whether any row was removed. */
  function DeleteFolder(t: FolderTable, userId: uint64, id: uint64): (r: (FolderTable, Result<bool>))
    ensures r.1.Ok? ==> (r.1.value <==> exists k :: 0 <= k < |t.rows| && t.rows[k].id == id)
    ensures r.1.Ok? ==> forall f :: f in r.0.rows <==> f in t.rows && f.id != id
    ensures r.1.Err? ==> r.0 == t
  {
    if DeleteFolderQ in t.failing then (t, Err(DbFailure(t.failing[DeleteFolderQ])))
    else
      var kept := Filter(t.rows, (f: Folder) => f.id != id);
      (t.(rows := kept), Ok(|kept| < |t.rows|))
  }

  // ---------------------------------------------------------------- files

  /** The primary-key invariant of the file table, as for folders. */
  ghost predicate FileKeysOrdered(t: FileTable)
  {
    Ascending(t.rows, FileKey) && forall k :: 0 <= k < |t.rows| ==> t.rows[k].id < t.nextId
  }

  predicate OwnedFile(f: File, userId: uint64, id: uint64) { f.userId == Some(userId) && f.id == id }

  predicate NamedFileIn(f: File, userId: uint64, name: string, folderId: uint64)
  {
    f.userId == Some(userId) && f.name == name && f.folderId == folderId
  }

  /** Not found is no file and no error. */
  function GetFile(t: FileTable, userId: uint64, id: uint64): (r: Result<Option<File>>)
    ensures r.Ok? && r.value.Some? ==> OwnedFile(r.value.value, userId, id) && r.value.value in t.rows
    ensures r == Ok(None) <==>
              GetFileQ !in t.failing && forall k :: 0 <= k < |t.rows| ==> !OwnedFile(t.rows[k], userId, id)
  {
    if GetFileQ in t.failing then Err(DbFailure(t.failing[GetFileQ]))
    else Ok(FirstWhere(t.rows, f => OwnedFile(f, userId, id)))
  }

  /** Not found is no file and no error. */
  function GetFileByNameAndFolderId(t: FileTable, userId: uint64, name: string, folderId: uint64): (r: Result<Option<File>>)
    ensures r.Ok? && r.value.Some? ==> NamedFileIn(r.value.value, userId, name, folderId) && r.value.value in t.rows
    ensures r == Ok(None) <==>
              GetFileByNameAndFolderIdQ !in t.failing &&
              forall k :: 0 <= k < |t.rows| ==> !NamedFileIn(t.rows[k], userId, name, folderId)
  {
    if GetFileByNameAndFolderIdQ in t.failing then Err(DbFailure(t.failing[GetFileByNameAndFolderIdQ]))
    else Ok(FirstWhere(t.rows, f => NamedFileIn(f, userId, name, folderId)))
  }

  /** Every file of the user in the folder. The query's own error is dropped: a failure yields an empty list and no error. */
  function GetFilesByFolderId(t: FileTable, userId: uint64, folderId: uint64): (r: seq<File>)
    ensures forall f :: f in r ==> f in t.rows && f.userId == Some(userId) && f.folderId == folderId
    ensures GetFilesByFolderIdQ !in t.failing ==>
              forall f :: f in t.rows && f.userId == Some(userId) && f.folderId == folderId ==> f in r
    ensures GetFilesByFolderIdQ in t.failing ==> r == []
  {
    if GetFilesByFolderIdQ in t.failing then []
    else Filter(t.rows, (f: File) => f.userId == Some(userId) && f.folderId == folderId)
  }

  /** A new file: the given name, folder and user, every other field empty. */
  function CreateFile(t: FileTable, userId: uint64, name: string, folderId: uint64): (r: (FileTable, Result<File>))
    ensures r.1.Ok? ==> r.0.rows == t.rows + [r.1.value] && NamedFileIn(r.1.value, userId, name, folderId)
    ensures r.1.Err? ==> r.0 == t
  {
    if CreateFileQ in t.failing then (t, Err(DbFailure(t.failing[CreateFileQ])))
    else if t.nextId == MAX_UINT64 then (t, Err(IdsExhausted))
    else
      var created := File(t.nextId, name, folderId, "", "", 0, "", Some(userId), "");
      (t.(rows := t.rows + [created], nextId := t.nextId + 1), Ok(created))
  }

  /** `Save`: writes `file` over the row with its ID. */
  function UpdateFile(t: FileTable, userId: uint64, file: File): (r: (FileTable, Option<Error>))
    ensures r.1.None? ==> r.0.rows == ReplaceById(t.rows, (f: File) => f.id, file)
    ensures r.1.Some? ==> r.0 == t
  {
    if UpdateFileQ in t.failing then (t, Some(DbFailure(t.failing[UpdateFileQ])))
    else (t.(rows := ReplaceById(t.rows, (f: File) => f.id, file)), None)
  }

  /** Removes the user's file with ID `id`; reports whether a row was removed. */
  function DeleteFile(t: FileTable, userId: uint64, id: uint64): (r: (FileTable, Result<bool>))
    ensures r.1.Ok? ==> (r.1.value <==> exists k :: 0 <= k < |t.rows| && OwnedFile(t.rows[k], userId, id))
    ensures r.1.Ok? ==> forall f :: f in r.0.rows <==> f in t.rows && !OwnedFile(f, userId, id)
    ensures r.1.Err? ==> r.0 == t
  {
    if DeleteFileQ in t.failing then (t, Err(DbFailure(t.failing[DeleteFileQ])))
    else
      var kept := Filter(t.rows, (f: File) => !OwnedFile(f, userId, id));
      (t.(rows := kept), Ok(|kept| < |t.rows|))
  }

  /** A new file takes the next ID, above every stored one, so the primary-key invariant holds after it. */
  lemma CreateFileKeepsKeysOrdered(t: FileTable, userId: uint64, name: string, folderId: uint64)
    requires FileKeysOrdered(t)
    ensures FileKeysOrdered(CreateFile(t, userId, name, folderId).0)
  {
    var (t', r) := CreateFile(t, userId, name, folderId);
    if r.Ok? {
      assert forall k :: 0 <= k < |t.rows| ==> t'.rows[k] == t.rows[k];
      assert t'.rows[|t.rows|].id == t.nextId;
    }
  }

  /** `Save` changes no ID, so the primary-key invariant holds after it. */
  lemma UpdateFileKeepsKeysOrdered(t: FileTable, userId: uint64, file: File)
    requires FileKeysOrdered(t)
    ensures FileKeysOrdered(UpdateFile(t, userId, file).0)
  {
    var (updated, err) := UpdateFile(t, userId, file);
    if err.None? {
      assert forall k :: 0 <= k < |t.rows| ==> FileKey(updated.rows[k]) == FileKey(t.rows[k]);
    }
  }

  /** A delete keeps a subsequence of the rows, so the primary-key invariant holds after it. */
  lemma DeleteFileKeepsKeysOrdered(t: FileTable, userId: uint64, id: uint64)
    requires FileKeysOrdered(t)
    ensures FileKeysOrdered(DeleteFile(t, userId, id).0)
  {
    var p := (f: File) => !OwnedFile(f, userId, id);
    var (deleted, res) := DeleteFile(t, userId, id);
    if res.Ok? {
      assert deleted.rows == Filter(t.rows, p);
      FilterKeepsAscending(t.rows, FileKey, p);
      assert forall k :: 0 <= k < |deleted.rows| ==> deleted.rows[k] in t.rows;
    }
  }

  /** Every write to the file table keeps its primary-key invariant. */
  lemma FileWritesKeepKeysOrdered(t: FileTable, userId: uint64, name: string, folderId: uint64, file: File, id: uint64)
    requires FileKeysOrdered(t)
    ensures FileKeysOrdered(CreateFile(t, userId, name, folderId).0)
    ensures FileKeysOrdered(UpdateFile(t, userId, file).0)
    ensures FileKeysOrdered(DeleteFile(t, userId, id).0)
  {
    CreateFileKeepsKeysOrdered(t, userId, name, folderId);
    UpdateFileKeepsKeysOrdered(t, userId, file);
    DeleteFileKeepsKeysOrdered(t, userId, id);
  }
}
