/**
 * The stored records (pkg/repository/entity/entity.go): only the field shapes.
 * `ID` is the `uint` primary key that gorm's model supplies; pointer fields are `Option`s.
 */
module Entity {
  import opened Numeric
  import opened Wrappers

  /** A folder row; the root folder of a user is the one without a parent. */
  datatype Folder = Folder(
    id: uint64,
    name: string,
    parentId: Option<uint64>,
    userId: Option<uint64>,
    path: string)

  /** A file row; `size` is a bounded natural number (see README). */
  datatype File = File(
    id: uint64,
    name: string,
    folderId: uint64,
    fileType: string,
    extension: string,
    size: uint64,
    modified: string,
    userId: Option<uint64>,
    path: string)
}
