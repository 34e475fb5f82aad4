/**
 * DocumentEntityDTO: pairs a document entity with the object store, so that the
 * document's payload is read from and written to the store under the document's id.
 */
module DocumentDto {
  import opened Wrappers
  import opened Errors
  import opened Entities
  import opened ObjectStore

  class DocumentEntityDto {
    const documentEntity: DocumentEntity
    const minioService: MinioStore

    constructor (documentEntity: DocumentEntity, minioService: MinioStore)
      ensures this.documentEntity == documentEntity && this.minioService == minioService
    {
      this.documentEntity := documentEntity;
      this.minioService := minioService;
    }

    /** getData: the payload stored under the document's id; a document without an id cannot have one. */
    method GetData() returns (r: Result<seq<byte>, Error>)
      ensures documentEntity.id.None? ==> r == Failure(MissingId)
      ensures documentEntity.id.Some? && documentEntity.id.value in minioService.objects ==>
                r == Success(minioService.objects[documentEntity.id.value])
      ensures documentEntity.id.Some? && documentEntity.id.value !in minioService.objects ==>
                r == Failure(StorageFailure(GetObject, documentEntity.id.value))
    {
      if documentEntity.id.None? {
        return Failure(MissingId);
      }
      r := minioService.GetObjectData(documentEntity.id.value);
    }

    /**
     * setData: stores the payload under the document's id and then stamps the
     * document's size with the payload length. Without an id nothing is written;
     * when the store rejects the write the size keeps its old value.
     */
    method SetData(data: seq<byte>) returns (r: Outcome<Error>)
      modifies minioService, documentEntity
      ensures documentEntity.id == old(documentEntity.id) && documentEntity.name == old(documentEntity.name)
      ensures documentEntity.mediaType == old(documentEntity.mediaType) && documentEntity.ownerId == old(documentEntity.ownerId)
      ensures documentEntity.createdDate == old(documentEntity.createdDate)
      ensures documentEntity.downloadUrl == old(documentEntity.downloadUrl)
      ensures documentEntity.data == old(documentEntity.data) && documentEntity.folder == old(documentEntity.folder)
      ensures documentEntity.id.None? ==> r == Fail(MissingId)
      ensures r.Fail? ==> minioService.objects == old(minioService.objects) && documentEntity.size == old(documentEntity.size)
      ensures documentEntity.id.Some? && r.Fail? ==> r.error == StorageFailure(StorageOp.SetObject, documentEntity.id.value)
      ensures r.Pass? ==> documentEntity.id.Some? && documentEntity.size == |data| &&
                          minioService.objects == old(minioService.objects)[documentEntity.id.value := data]
    {
      if documentEntity.id.None? {
        return Fail(MissingId);
      }
      r := minioService.SetObject(documentEntity.id.value, data);
      if r.Fail? {
        return;
      }
      documentEntity.size := |data|;
    }
  }

  /** Writing a payload and reading it back: the bytes come back unchanged and the size matches. */
  method SetThenGet(document: DocumentEntity, store: MinioStore, data: seq<byte>)
    returns (written: Outcome<Error>, read: Result<seq<byte>, Error>)
    modifies document, store
    ensures written.Pass? ==> read == Success(data) && document.size == |data|
    ensures document.id.None? ==> written == Fail(MissingId) && read == Failure(MissingId)
  {
    var dto := new DocumentEntityDto(document, store);
    written := dto.SetData(data);
    read := dto.GetData();
  }
}
