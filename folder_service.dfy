/**
 * The folder service (pkg/service/folder_service.go) over the in-memory folder table.
 * A call that writes returns the new table beside its result; calls into the
 * repository are written `Repository.X` to set them apart from the service's own `X`.
 */
module FolderService {
  import opened Numeric
  import opened Wrappers
  import opened Entity
  import opened Repository

  /** At most one root folder per user: the invariant `CreateRootFolder` guards. */
  ghost predicate OneRootPerUser(t: FolderTable)
  {
    forall i, j :: 0 <= i < j < |t.rows| && t.rows[i].parentId.None? && t.rows[j].parentId.None? ==>
      t.rows[i].userId != t.rows[j].userId
  }

  /** Sibling folders of one user have distinct names: the invariant `CreateFolder` guards. */
  ghost predicate UniqueSiblingNames(t: FolderTable)
  {
    forall i, j :: 0 <= i < j < |t.rows| && t.rows[i].parentId.Some? && t.rows[i].parentId == t.rows[j].parentId ==>
      t.rows[i].userId != t.rows[j].userId || t.rows[i].name != t.rows[j].name
  }

  predicate HasRoot(t: FolderTable, userId: uint64)
  {
    exists k :: 0 <= k < |t.rows| && IsRootOf(t.rows[k], userId)
  }

  /** `GetRootFolder`: the repository's answer. */
  function GetRootFolder(t: FolderTable, userId: uint64): (r: Result<Folder>)
    ensures r == Repository.GetRootFolder(t, userId)
  {
    Repository.GetRootFolder(t, userId)
  }

  /** `GetFolder`: the repository's answer. */
  function GetFolder(t: FolderTable, userId: uint64, id: uint64): (r: Result<Folder>)
    ensures r == Repository.GetFolder(t, userId, id)
  {
    Repository.GetFolder(t, userId, id)
  }

  /** `GetChildren`: the repository's answer. */
  function GetChildren(t: FolderTable, userId: uint64, parentId: uint64): (r: Result<seq<Folder>>)
    ensures r == Repository.GetChildren(t, userId, parentId)
  {
    Repository.GetChildren(t, userId, parentId)
  }

  /** `DeleteFolder`: the repository's answer and table. */
  function DeleteFolder(t: FolderTable, userId: uint64, id: uint64): (r: (FolderTable, Result<bool>))
    ensures r == Repository.DeleteFolder(t, userId, id)
  {
    Repository.DeleteFolder(t, userId, id)
  }

  /**
   * `RenameFolder`: fetch the folder, set its name on the fetched copy, write it back.
   * A failed fetch or write returns the error and no folder.
   */
  function RenameFolder(t: FolderTable, userId: uint64, id: uint64, newName: string): (r: (FolderTable, Result<Folder>))
    ensures Repository.GetFolder(t, userId, id).Err? ==>
              r == (t, Err(Repository.GetFolder(t, userId, id).error))
    ensures Repository.GetFolder(t, userId, id).Ok? && UpdateFolderQ in t.failing ==>
              r == (t, Err(DbFailure(t.failing[UpdateFolderQ])))
    ensures r.1.Err? ==> r.0 == t
    ensures r.1.Ok? ==> Repository.GetFolder(t, userId, id).Ok?
    ensures r.1.Ok? ==> r.1.value == Repository.GetFolder(t, userId, id).value.(name := newName)
    ensures r.1.Ok? ==> r.0 == Repository.UpdateFolder(t, userId, r.1.value).0
  {
    match Repository.GetFolder(t, userId, id)
    case Err(e) => (t, Err(e))
    case Ok(folder) =>
      var renamed := folder.(name := newName);
      var (t', err) := Repository.UpdateFolder(t, userId, renamed);
      if err.Some? then (t, Err(err.value)) else (t', Ok(renamed))
  }

  /**
   * `CreateRootFolder`: refused when the user already has a root folder; a lookup
   * error other than record-not-found is passed on; otherwise the repository creates it.
   */
  function CreateRootFolder(t: FolderTable, userId: uint64): (r: (FolderTable, Result<Folder>))
    ensures GetRootFolderQ in t.failing ==> r == (t, Err(DbFailure(t.failing[GetRootFolderQ])))
    ensures GetRootFolderQ !in t.failing && HasRoot(t, userId) ==> r == (t, Err(RootFolderExists(userId)))
    ensures GetRootFolderQ !in t.failing && !HasRoot(t, userId) ==> r == Repository.CreateRootFolder(t, userId)
  {
    match Repository.GetRootFolder(t, userId)
    case Err(e) =>
      if e != RecordNotFound then (t, Err(e)) else Repository.CreateRootFolder(t, userId)
    case Ok(_) => (t, Err(RootFolderExists(userId)))
  }

  /**
   * `CreateFolder`: the parent must be found; then a folder is created only when the
   * same-name lookup under the parent reports record-not-found. An existing sibling
   * of that name is refused, any other lookup error passed on.
   */
  function CreateFolder(t: FolderTable, userId: uint64, name: string, parentId: uint64): (r: (FolderTable, Result<Folder>))
    ensures Repository.GetFolder(t, userId, parentId).Err? ==>
              r == (t, Err(Repository.GetFolder(t, userId, parentId).error))
    ensures Repository.GetFolder(t, userId, parentId).Ok? ==>
              var sibling := Repository.GetFolderByNameAndParentId(t, userId, name, parentId);
              (sibling == Err(RecordNotFound) ==> r == Repository.CreateFolder(t, userId, name, parentId)) &&
              (sibling.Ok? ==> r == (t, Err(FolderNameExists(name)))) &&
              (sibling.Err? && sibling.error != RecordNotFound ==> r == (t, Err(sibling.error)))
  {
    match Repository.GetFolder(t, userId, parentId)
    case Err(e) => (t, Err(e))
    case Ok(parent) =>
      match Repository.GetFolderByNameAndParentId(t, userId, name, parent.id)
      case Err(e) =>
        if e != RecordNotFound then (t, Err(e)) else Repository.CreateFolder(t, userId, name, parentId)
      case Ok(_) => (t, Err(FolderNameExists(name)))
  }

  /** `CreateRootFolder` never gives a user a second root folder. */
  lemma CreateRootFolderKeepsOneRoot(t: FolderTable, userId: uint64)
    requires OneRootPerUser(t)
    ensures OneRootPerUser(CreateRootFolder(t, userId).0)
  {
    var (t', r) := CreateRootFolder(t, userId);
    if r.Ok? {
      assert !HasRoot(t, userId);
      forall i, j | 0 <= i < j < |t'.rows| && t'.rows[i].parentId.None? && t'.rows[j].parentId.None?
        ensures t'.rows[i].userId != t'.rows[j].userId
      {
        if j == |t.rows| {
          assert !IsRootOf(t.rows[i], userId);
        }
      }
    }
  }

  /** `CreateFolder` never creates a second sibling of the same name for a user. */
  lemma CreateFolderKeepsNamesUnique(t: FolderTable, userId: uint64, name: string, parentId: uint64)
    requires UniqueSiblingNames(t)
    ensures UniqueSiblingNames(CreateFolder(t, userId, name, parentId).0)
  {
    var (t', r) := CreateFolder(t, userId, name, parentId);
    if r.Ok? {
      assert Repository.GetFolderByNameAndParentId(t, userId, name, parentId) == Err(RecordNotFound);
      forall i, j | 0 <= i < j < |t'.rows| && t'.rows[i].parentId.Some? && t'.rows[i].parentId == t'.rows[j].parentId
        ensures t'.rows[i].userId != t'.rows[j].userId || t'.rows[i].name != t'.rows[j].name
      {
        if j == |t.rows| {
          assert !NamedChildOf(t.rows[i], userId, name, parentId);
        }
      }
    }
  }

  /**
   * On a table with unique IDs, a successful rename changes the name of the renamed row
   * and nothing else. An empty new name is a zero value, so `Updates` does not write it.
   */
  lemma RenameFolderChangesOnlyName(t: FolderTable, userId: uint64, id: uint64, newName: string, k: nat)
    requires FolderKeysOrdered(t)
    requires k < |t.rows|
    requires Repository.GetFolder(t, userId, id).Ok? && UpdateFolderQ !in t.failing
    ensures RenameFolder(t, userId, id, newName).1.Ok?
    ensures var t' := RenameFolder(t, userId, id, newName).0;
            |t'.rows| == |t.rows| &&
            (t.rows[k].id != id ==> t'.rows[k] == t.rows[k]) &&
            (t.rows[k].id == id ==> t'.rows[k] == t.rows[k].(name := if newName == "" then t.rows[k].name else newName))
  {
    var fetched := Repository.GetFolder(t, userId, id).value;
    if t.rows[k].id == id {
      var j :| 0 <= j < |t.rows| && t.rows[j] == fetched;
      assert FolderKey(t.rows[j]) == FolderKey(t.rows[k]);
      assert j == k;
    }
  }

  /**
   * Renaming to the empty name returns the folder named "" while the stored row keeps
   * its old name: the returned folder and the table disagree.
   */
  lemma RenameToEmptyName(t: FolderTable, userId: uint64, id: uint64)
    requires RenameFolder(t, userId, id, "").1.Ok?
    ensures RenameFolder(t, userId, id, "").1.value.name == ""
    ensures var t' := RenameFolder(t, userId, id, "").0;
            |t'.rows| == |t.rows| && forall k :: 0 <= k < |t.rows| ==> t'.rows[k].name == t.rows[k].name
  {
  }
}
