/**
 * The exceptions the document-management core throws, one constructor per kind.
 * Only the kind and the identifying data are modelled, not messages or HTTP statuses.
 */
module Errors {
  import opened Wrappers

  /** Error codes carried by a ValidationException raised on a strict folder delete. */
  datatype ValidationCode =
    | ChildrenFolder   // VAL_CHILDREN_FOLDER: the folder still has subfolders
    | FolderNotEmpty   // FOLDER_NOT_EMPTY: the folder still has documents

  /** Which object-store call failed. */
  datatype StorageOp = GetObject | SetObject | DeleteObject

  datatype Error =
    | InvalidUuid(value: Option<string>)           // ValidationException VAL_INVALID_UUID
    | RootFolderNotFound                            // FolderNotFoundException("Root folder not found")
    | FolderNotFound(id: string)                    // FolderNotFoundException(id)
    | DocumentNotFound(id: string)                  // DocumentNotFoundException(id)
    | Validation(code: ValidationCode, count: nat)  // ValidationException with a blocking-children count
    | UploadFailed(fileName: Option<string>)        // DocumentUploadException, naming the original file name
    | Conflict                                      // ResponseStatusException(CONFLICT)
    | NotFound                                      // ResponseStatusException(NOT_FOUND)
    | TagNotFound(id: string)                       // TagNotFoundException(id)
    | StorageFailure(op: StorageOp, key: string)    // MinIO{Get,Set,Delete}ObjectDataException
    | MissingId                                     // IllegalStateException / IllegalArgumentException on a null id
    | NonUniqueResult                               // a single-result query matched several rows
    | ConstraintViolation                           // bean validation rejected the entity on save

  /**
   * UuidValidator.validateOrThrow: UUID.fromString decides well-formedness (supplied
   * as isUuid); a null id fails like a malformed one.
   */
  function ValidateOrThrow(isUuid: string -> bool, id: Option<string>): (o: Outcome<Error>)
    ensures o.Pass? <==> id.Some? && isUuid(id.value)
    ensures o.Fail? ==> o.error == InvalidUuid(id)
  {
    if id.Some? && isUuid(id.value) then Pass else Fail(InvalidUuid(id))
  }
}
