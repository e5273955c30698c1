/** Mapping stored records to the GraphQL transfer objects (pkg/util/entityDtoUtil.go). */
module Dto {
  import opened Numeric
  import opened Wrappers
  import opened Decimal
  import opened Conv
  import opened Entity

  /** The GraphQL `Folder`: IDs are decimal strings, `parentID` is nullable. */
  datatype FolderDto = FolderDto(
    id: string,
    name: string,
    parentId: Option<string>,
    userId: string,
    path: string)

  /** The GraphQL `File`. */
  datatype FileDto = FileDto(
    id: string,
    name: string,
    folderId: string,
    fileType: string,
    extension: string,
    size: uint64,
    modified: string,
    userId: string,
    path: string)

  /**
   * `ToFolderDto`. The user ID pointer is dereferenced, so it must not be nil.
   * An ID above 2^63 - 1 comes out as a negative decimal (the `int` cast in `UItoAOrNil`).
   */
  function ToFolderDto(folder: Folder): (dto: FolderDto)
    requires folder.userId.Some?
    ensures folder.id <= MAX_INT64 ==> dto.id == NatToDigits(folder.id)
    ensures dto.parentId.None? <==> folder.parentId.None?
    ensures folder.parentId.Some? && folder.parentId.value <= MAX_INT64 ==>
              dto.parentId == Some(NatToDigits(folder.parentId.value))
    ensures folder.userId.value <= MAX_INT64 ==> dto.userId == NatToDigits(folder.userId.value)
    ensures dto.name == folder.name && dto.path == folder.path
  {
    FolderDto(
      UItoAOrNil(Some(folder.id)).value,
      folder.name,
      UItoAOrNil(folder.parentId),
      UItoAOrNil(folder.userId).value,
      folder.path)
  }

  /** `ToFileDto`. The user ID pointer is dereferenced, so it must not be nil. */
  function ToFileDto(file: File): (dto: FileDto)
    requires file.userId.Some?
    ensures file.id <= MAX_INT64 ==> dto.id == NatToDigits(file.id)
    ensures file.folderId <= MAX_INT64 ==> dto.folderId == NatToDigits(file.folderId)
    ensures file.userId.value <= MAX_INT64 ==> dto.userId == NatToDigits(file.userId.value)
    ensures dto.name == file.name && dto.fileType == file.fileType && dto.extension == file.extension
    ensures dto.size == file.size && dto.modified == file.modified && dto.path == file.path
  {
    FileDto(
      UItoAOrNil(Some(file.id)).value,
      file.name,
      UItoAOrNil(Some(file.folderId)).value,
      file.fileType,
      file.extension,
      file.size,
      file.modified,
      UItoAOrNil(file.userId).value,
      file.path)
  }

  /** Parsing the IDs of a folder DTO with `AtoUIOrNil` recovers the folder's IDs, for every 64-bit value. */
  lemma FolderDtoIdsRoundTrip(folder: Folder)
    requires folder.userId.Some?
    ensures AtoUIOrNil(Some(ToFolderDto(folder).id)) == Some(folder.id)
    ensures AtoUIOrNil(Some(ToFolderDto(folder).userId)) == folder.userId
    ensures folder.parentId.Some? ==> AtoUIOrNil(ToFolderDto(folder).parentId) == folder.parentId
  {
    AtoUIUItoARoundTrip(folder.id);
    AtoUIUItoARoundTrip(folder.userId.value);
    if folder.parentId.Some? {
      AtoUIUItoARoundTrip(folder.parentId.value);
    }
  }

  /** Parsing the IDs of a file DTO with `AtoUIOrNil` recovers the file's IDs, for every 64-bit value. */
  lemma FileDtoIdsRoundTrip(file: File)
    requires file.userId.Some?
    ensures AtoUIOrNil(Some(ToFileDto(file).id)) == Some(file.id)
    ensures AtoUIOrNil(Some(ToFileDto(file).folderId)) == Some(file.folderId)
    ensures AtoUIOrNil(Some(ToFileDto(file).userId)) == file.userId
  {
    AtoUIUItoARoundTrip(file.id);
    AtoUIUItoARoundTrip(file.folderId);
    AtoUIUItoARoundTrip(file.userId.value);
  }
}
