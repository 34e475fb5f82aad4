/**
 * DocumentServiceImpl: uploading, reading, updating and deleting documents. A document's
 * metadata lives in the document table; its payload lives in the object store under the
 * document's id (and, as written, also in the row's data column).
 */
module DocumentService {
  import opened Wrappers
  import opened Errors
  import opened Entities
  import opened NameIncrement
  import opened Repositories
  import opened ObjectStore
  import opened DocumentDto
  import opened UserInformation

  /** The parts of a MultipartFile the service reads; bytes is None when getBytes() fails. */
  datatype UploadedFile = UploadedFile(
    originalFilename: Option<string>,
    contentType: Option<string>,
    size: int,
    bytes: Option<seq<byte>>)

  /**
   * The download URL: the current request's context URL followed by
   * /v1/documents/{id}/download, or the relative /dms/v1/documents/{id}/download when
   * there is no request context.
   */
  function DownloadUrl(requestContextUrl: Option<string>, id: string): (url: string)
    ensures requestContextUrl.None? ==> url == "/dms/v1/documents/" + id + "/download"
    ensures requestContextUrl.Some? ==> url == requestContextUrl.value + "/v1/documents/" + id + "/download"
  {
    match requestContextUrl
    case None => "/dms/v1/documents/" + id + "/download"
    case Some(base) => base + "/v1/documents/" + id + "/download"
  }

  /** A folder's documents (folder.getDocuments()), as the objects collectSiblingNames receives. */
  function DocumentItems(rows: set<DocumentRow>): set<Entity> {
    set d | d in rows :: DocumentItem(d)
  }

  /** collectSiblingNames over a folder's documents never dereferences null and yields DocumentNames. */
  lemma DocumentSiblingNames(repo: DocumentRepository, folderId: string, excludeId: Option<string>)
    requires repo.Valid()
    ensures forall e :: e in DocumentItems(repo.FindByFolderId(folderId)) ==> NoNullDereference(e, Some(folderId))
    ensures SiblingNames(DocumentItems(repo.FindByFolderId(folderId)), Some(folderId), excludeId) ==
            repo.DocumentNames(folderId, excludeId)
  {
    var items := DocumentItems(repo.FindByFolderId(folderId));
    forall e | e in items ensures NoNullDereference(e, Some(folderId)) {
      var k := e.document.id.value;
      assert k in repo.rows;
    }
    var left := SiblingNames(items, Some(folderId), excludeId);
    var right := repo.DocumentNames(folderId, excludeId);
    forall n | n in left ensures n in right {
      var e :| e in items && IsSibling(e, Some(folderId), excludeId) && NameOf(e) == n;
      var k := e.document.id.value;
      assert k in repo.rows && repo.rows[k] == e.document;
    }
    forall n | n in right ensures n in left {
      var k :| k in repo.rows && repo.rows[k].folderId == Some(folderId) && repo.rows[k].id != excludeId &&
               repo.rows[k].name == n;
      assert DocumentItem(repo.rows[k]) in items;
    }
  }

  class DocumentServiceImpl {
    const documents: DocumentRepository
    const folders: FolderRepository
    const minioService: MinioStore
    const isUuid: string -> bool

    ghost predicate Valid()
      reads this, documents, folders
    {
      documents.Valid() && folders.Valid()
    }

    constructor (documents: DocumentRepository, folders: FolderRepository, minioService: MinioStore, isUuid: string -> bool)
      ensures this.documents == documents && this.folders == folders
      ensures this.minioService == minioService && this.isUuid == isUuid
    {
      this.documents := documents;
      this.folders := folders;
      this.minioService := minioService;
      this.isUuid := isUuid;
    }

    /**
     * The name-conflict step: collectSiblingNames over the target folder's documents,
     * then getIncrementedName. The result is free among the folder's other documents.
     */
    method ResolveName(name: Option<string>, folderId: string, excludeId: Option<string>)
      returns (unique: Option<string>)
      requires Valid()
      ensures unique == IncrementedNameOrNull(name, documents.DocumentNames(folderId, excludeId))
      ensures unique.Some? ==> unique.value !in documents.DocumentNames(folderId, excludeId)
    {
      var siblings := DocumentItems(documents.FindByFolderId(folderId));
      DocumentSiblingNames(documents, folderId, excludeId);
      var siblingNames := CollectSiblingNames(siblings, Some(folderId), excludeId);
      unique := None;
      if name.Some? {
        var n := GetIncrementedName(name.value, siblingNames);
        unique := Some(n);
      }
    }

    /** The row an upload stores: everything but the name comes from the file, the caller and the request. */
    function UploadedRow(file: UploadedFile, name: string, folderId: string, newId: string, now: Timestamp,
                         jwt: Option<Jwt>, requestContextUrl: Option<string>): DocumentRow
      requires file.bytes.Some?
    {
      DocumentRow(Some(newId), name, file.contentType, |file.bytes.value|, GetUserId(jwt), Some(now),
                  Some(DownloadUrl(requestContextUrl, newId)), file.bytes, Some(folderId))
    }

    /** The fields createDocument sets on the new entity before its payload is written. */
    method NewDocument(file: UploadedFile, folder: FolderRow, name: Option<string>, newId: string, now: Timestamp,
                       jwt: Option<Jwt>, requestContextUrl: Option<string>) returns (doc: DocumentEntity)
      requires file.bytes.Some?
      ensures fresh(doc) && doc.folder != null && fresh(doc.folder)
      ensures doc.id == Some(newId) && doc.name == name && doc.mediaType == file.contentType && doc.size == file.size
      ensures doc.ownerId == GetUserId(jwt) && doc.createdDate == Some(now)
      ensures doc.downloadUrl == Some(DownloadUrl(requestContextUrl, newId)) && doc.data == file.bytes
      ensures doc.GetFolderId() == folder.id
    {
      var f := new FolderEntity.FromRow(folder);
      doc := new DocumentEntity();
      doc.id := Some(newId);
      doc.SetFolder(f);
      doc.name := name;
      doc.mediaType := file.contentType;
      doc.size := file.size;
      doc.ownerId := GetUserId(jwt);
      doc.createdDate := Some(now);
      doc.downloadUrl := Some(DownloadUrl(requestContextUrl, newId));
      doc.data := file.bytes;
    }

    /**
     * The tail of createDocument: the DTO writes the payload under the document's id and
     * stamps the size; a failed write is an upload failure; otherwise the entity is saved.
     */
    method StoreAndSave(doc: DocumentEntity, bytes: seq<byte>, fileName: Option<string>) returns (r: Result<DocumentRow, Error>)
      requires Valid() && doc.id.Some?
      modifies documents, minioService, doc
      ensures Valid()
      ensures doc.id == old(doc.id) && doc.name == old(doc.name) && doc.mediaType == old(doc.mediaType)
      ensures doc.ownerId == old(doc.ownerId) && doc.createdDate == old(doc.createdDate)
      ensures doc.downloadUrl == old(doc.downloadUrl) && doc.data == old(doc.data) && doc.folder == old(doc.folder)
      ensures r == Failure(UploadFailed(fileName)) || r == Failure(ConstraintViolation) || r.Success?
      ensures r == Failure(UploadFailed(fileName)) ==>
                documents.rows == old(documents.rows) && minioService.objects == old(minioService.objects)
      ensures r != Failure(UploadFailed(fileName)) ==>
                doc.size == |bytes| && minioService.objects == old(minioService.objects)[doc.id.value := bytes] &&
                (r.Success? <==> doc.name.Some? && IsValidDocumentRow(doc.Row()))
      ensures r == Failure(ConstraintViolation) ==> documents.rows == old(documents.rows)
      ensures r.Success? ==> doc.name.Some? && r.value == doc.Row() && documents.rows == old(documents.rows)[doc.id.value := r.value]
    {
      var dto := new DocumentEntityDto(doc, minioService);
      var written := dto.SetData(bytes);
      if written.Fail? {
        return Failure(UploadFailed(fileName));
      }
      r := documents.Save(dto.documentEntity);
    }

    /**
     * createDocument. The folder id is validated and looked up before the guarded block,
     * so those failures surface as they are. Inside the block the document gets the fresh
     * id, the folder, a name unique among the folder's documents, the file's type, the
     * caller as owner, the timestamp and the download URL; the payload is written to the
     * object store under the id, which stamps the size; any failure there is an upload
     * failure and nothing is saved. The row is then saved; its bean validation runs when
     * the transaction flushes, so a violation surfaces as such, after the payload was written.
     */
    method CreateDocument(file: UploadedFile, folderId: string, newId: string, now: Timestamp,
                          jwt: Option<Jwt>, requestContextUrl: Option<string>)
      returns (r: Result<DocumentRow, Error>)
      requires Valid()
      modifies documents, minioService
      ensures Valid()
      ensures !isUuid(folderId) ==> r == Failure(InvalidUuid(Some(folderId)))
      ensures isUuid(folderId) && folderId !in folders.rows ==> r == Failure(FolderNotFound(folderId))
      ensures isUuid(folderId) && folderId in folders.rows && file.bytes.None? ==>
                r == Failure(UploadFailed(file.originalFilename))
      ensures r.Failure? ==> r.error in {InvalidUuid(Some(folderId)), FolderNotFound(folderId),
                                         UploadFailed(file.originalFilename), ConstraintViolation}
      ensures r.Failure? && r.error != ConstraintViolation ==>
                documents.rows == old(documents.rows) && minioService.objects == old(minioService.objects)
      ensures r.Success? || r == Failure(ConstraintViolation) ==>
                isUuid(folderId) && folderId in folders.rows && file.bytes.Some? &&
                minioService.objects == old(minioService.objects)[newId := file.bytes.value]
      ensures r == Failure(ConstraintViolation) ==> documents.rows == old(documents.rows)
      ensures r.Success? || r == Failure(ConstraintViolation) ==>
                (r.Success? <==> (file.originalFilename.Some? &&
                   IsValidDocumentRow(UploadedRow(file,
                     IncrementedName(file.originalFilename.value, old(documents.DocumentNames(folderId, None))),
                     folderId, newId, now, jwt, requestContextUrl))))
      ensures r.Success? ==>
                file.originalFilename.Some? && file.bytes.Some? &&
                r.value == UploadedRow(file,
                  IncrementedName(file.originalFilename.value, old(documents.DocumentNames(folderId, None))),
                  folderId, newId, now, jwt, requestContextUrl) &&
                documents.rows == old(documents.rows)[newId := r.value]
      ensures r.Success? ==> r.value.name !in old(documents.DocumentNames(folderId, None))
    {
      var valid := ValidateOrThrow(isUuid, Some(folderId));
      if valid.Fail? {
        return Failure(valid.error);
      }
      var found := folders.FindById(folderId);
      if found.None? {
        return Failure(FolderNotFound(folderId));
      }
      var name := ResolveName(file.originalFilename, folderId, None);
      if file.bytes.None? {
        return Failure(UploadFailed(file.originalFilename));
      }
      var doc := NewDocument(file, found.value, name, newId, now, jwt, requestContextUrl);
      ghost var planned := if name.Some? then UploadedRow(file, name.value, folderId, newId, now, jwt, requestContextUrl)
                           else UploadedRow(file, "", folderId, newId, now, jwt, requestContextUrl);
      r := StoreAndSave(doc, file.bytes.value, file.originalFilename);
      if r != Failure(UploadFailed(file.originalFilename)) && name.Some? {
        assert doc.Row() == planned;
      }
    }

    /** getDocument: a well-formed id of an existing document yields its row. */
    method GetDocument(id: string) returns (r: Result<DocumentRow, Error>)
      requires Valid()
      ensures !isUuid(id) ==> r == Failure(InvalidUuid(Some(id)))
      ensures isUuid(id) && id !in documents.rows ==> r == Failure(DocumentNotFound(id))
      ensures r.Success? <==> isUuid(id) && id in documents.rows
      ensures r.Success? ==> r.value == documents.rows[id] && r.value.id == Some(id)
    {
      var valid := ValidateOrThrow(isUuid, Some(id));
      if valid.Fail? {
        return Failure(valid.error);
      }
      var found := documents.FindById(id);
      if found.None? {
        return Failure(DocumentNotFound(id));
      }
      return Success(found.value);
    }

    /**
     * The name updateDocument gives a document: unchanged when no name is requested;
     * otherwise the requested name made unique among the other documents of the target
     * folder (the requested folder, else the current one), which must exist.
     */
    function UpdateName(existing: DocumentRow, name: Option<string>, folderId: Option<string>): (r: Result<string, Error>)
      requires Valid()
      reads this, documents, folders
      ensures name.None? ==> r == Success(existing.name)
      ensures name.Some? ==>
                var target := if folderId.Some? then folderId else existing.folderId;
                && (target.None? ==> r == Failure(MissingId))
                && (target.Some? && target.value !in folders.rows ==> r == Failure(FolderNotFound(target.value)))
                && (target.Some? && target.value in folders.rows ==>
                      r.Success? && r.value !in documents.DocumentNames(target.value, existing.id) &&
                      (name.value !in documents.DocumentNames(target.value, existing.id) ==> r.value == name.value))
    {
      if name.None? then Success(existing.name)
      else
        var target := if folderId.Some? then folderId else existing.folderId;
        if target.None? then Failure(MissingId)
        else if target.value !in folders.rows then Failure(FolderNotFound(target.value))
        else Success(IncrementedName(name.value, documents.DocumentNames(target.value, existing.id)))
    }

    /** The name step of updateDocument, through collectSiblingNames and getIncrementedName. */
    method ResolveUpdateName(existing: DocumentRow, name: Option<string>, folderId: Option<string>)
      returns (r: Result<string, Error>)
      requires Valid()
      ensures r == UpdateName(existing, name, folderId)
    {
      if name.None? {
        return Success(existing.name);
      }
      var target := if folderId.Some? then folderId else existing.folderId;
      if target.None? {
        return Failure(MissingId);
      }
      var found := folders.FindById(target.value);
      if found.None? {
        return Failure(FolderNotFound(target.value));
      }
      var n := ResolveName(name, target.value, existing.id);
      return Success(n.value);
    }

    /**
     * updateDocument, field by field: the name as UpdateName gives it; a type replaces the
     * stored one; a requested folder must exist and becomes the document's folder. A move
     * without a new name keeps the old name, even when the target folder already holds it.
     */
    method UpdateDocument(id: string, incoming: DocumentEntity) returns (r: Result<DocumentRow, Error>)
      requires Valid()
      modifies documents
      ensures Valid()
      ensures r.Failure? ==> documents.rows == old(documents.rows)
      ensures !isUuid(id) ==> r == Failure(InvalidUuid(Some(id)))
      ensures isUuid(id) && id !in old(documents.rows) ==> r == Failure(DocumentNotFound(id))
      ensures isUuid(id) && id in old(documents.rows) ==>
                var existing := old(documents.rows)[id];
                var folderId := incoming.GetFolderId();
                var n := old(UpdateName(existing, incoming.name, folderId));
                && (n.Failure? ==> r == Failure(n.error))
                && (n.Success? && folderId.Some? && folderId.value !in folders.rows ==>
                      r == Failure(FolderNotFound(folderId.value)))
                && (n.Success? && (folderId.Some? ==> folderId.value in folders.rows) ==>
                      var row := existing.(
                        name := n.value,
                        mediaType := if incoming.mediaType.Some? then incoming.mediaType else existing.mediaType,
                        folderId := if folderId.Some? then folderId else existing.folderId);
                      && (r.Success? <==> IsValidDocumentRow(row))
                      && (r.Failure? ==> r == Failure(ConstraintViolation))
                      && (r.Success? ==> r.value == row && documents.rows == old(documents.rows)[id := row]))
    {
      var found := GetDocument(id);
      if found.Failure? {
        return Failure(found.error);
      }
      var folderId := incoming.GetFolderId();
      var n := ResolveUpdateName(found.value, incoming.name, folderId);
      if n.Failure? {
        return Failure(n.error);
      }
      r := ApplyUpdate(found.value, n.value, incoming.mediaType, folderId);
    }

    /** The rest of updateDocument once the name is settled: the type, the folder, then save. */
    method ApplyUpdate(existing: DocumentRow, name: string, mediaType: Option<string>, folderId: Option<string>)
      returns (r: Result<DocumentRow, Error>)
      requires Valid() && existing.id.Some?
      modifies documents
      ensures Valid()
      ensures r.Failure? ==> documents.rows == old(documents.rows)
      ensures folderId.Some? && folderId.value !in folders.rows ==> r == Failure(FolderNotFound(folderId.value))
      ensures (folderId.Some? ==> folderId.value in folders.rows) ==>
                var row := existing.(
                  name := name,
                  mediaType := if mediaType.Some? then mediaType else existing.mediaType,
                  folderId := if folderId.Some? then folderId else existing.folderId);
                && (r.Success? <==> IsValidDocumentRow(row))
                && (r.Failure? ==> r == Failure(ConstraintViolation))
                && (r.Success? ==> r.value == row && documents.rows == old(documents.rows)[existing.id.value := row])
    {
      ghost var planned := existing.(
        name := name,
        mediaType := if mediaType.Some? then mediaType else existing.mediaType,
        folderId := if folderId.Some? then folderId else existing.folderId);
      var entity := new DocumentEntity.FromRow(existing);
      entity.name := Some(name);
      if mediaType.Some? {
        entity.mediaType := mediaType;
      }
      if folderId.Some? {
        var newFolder := folders.FindById(folderId.value);
        if newFolder.None? {
          return Failure(FolderNotFound(folderId.value));
        }
        var f := new FolderEntity.FromRow(newFolder.value);
        entity.SetFolder(f);
      }
      assert entity.Row() == planned;
      r := documents.Save(entity);
    }

    /**
     * deleteDocument: a well-formed id of an existing document; the payload is removed
     * from the object store first and the row only when that succeeded.
     */
    method DeleteDocument(id: string) returns (r: Outcome<Error>)
      requires Valid()
      modifies documents, minioService
      ensures Valid()
      ensures !isUuid(id) ==> r == Fail(InvalidUuid(Some(id)))
      ensures isUuid(id) && id !in old(documents.rows) ==> r == Fail(DocumentNotFound(id))
      ensures isUuid(id) && id in old(documents.rows) && r.Fail? ==> r == Fail(StorageFailure(StorageOp.DeleteObject, id))
      ensures r.Fail? ==> documents.rows == old(documents.rows) && minioService.objects == old(minioService.objects)
      ensures r.Pass? ==> isUuid(id) && id in old(documents.rows)
      ensures r.Pass? ==> minioService.objects == old(minioService.objects) - {id} &&
                          documents.rows == old(documents.rows) - {id}
    {
      var valid := ValidateOrThrow(isUuid, Some(id));
      if valid.Fail? {
        return Fail(valid.error);
      }
      if !documents.ExistsById(id) {
        return Fail(DocumentNotFound(id));
      }
      r := minioService.DeleteObject(id);
      if r.Fail? {
        return;
      }
      documents.DeleteById(id);
    }
  }
}
