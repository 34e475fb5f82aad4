/**
 * The MinIO bucket behind MinIOService: binary payloads keyed by object name.
 * A put or remove can fail for reasons outside the program (network, server), so
 * each call may fail; a failed call leaves the bucket as it was.
 */
module ObjectStore {
  import opened Wrappers
  import opened Errors
  import opened Entities

  class MinioStore {
    var objects: map<string, seq<byte>>

    constructor ()
      ensures objects == map[]
    {
      objects := map[];
    }

    /** getObjectData: the stored bytes, or MinIOGetObjectDataException when the object is absent. */
    function GetObjectData(fileId: string): (r: Result<seq<byte>, Error>)
      reads this
      ensures r.Success? <==> fileId in objects
      ensures r.Success? ==> r.value == objects[fileId]
      ensures r.Failure? ==> r.error == StorageFailure(GetObject, fileId)
    {
      if fileId in objects then Success(objects[fileId]) else Failure(StorageFailure(GetObject, fileId))
    }

    /** setObject: stores the bytes under the name, replacing any earlier object, or fails. */
    method SetObject(objectName: string, data: seq<byte>) returns (r: Outcome<Error>)
      modifies this
      ensures r.Pass? ==> objects == old(objects)[objectName := data]
      ensures r.Fail? ==> objects == old(objects) && r.error == StorageFailure(StorageOp.SetObject, objectName)
    {
      var ok: bool :| true;
      if ok {
        objects := objects[objectName := data];
        return Pass;
      }
      return Fail(StorageFailure(StorageOp.SetObject, objectName));
    }

    /** deleteObject: removes the object (an absent one is not an error), or fails. */
    method DeleteObject(objectName: string) returns (r: Outcome<Error>)
      modifies this
      ensures r.Pass? ==> objects == old(objects) - {objectName}
      ensures r.Fail? ==> objects == old(objects) && r.error == StorageFailure(StorageOp.DeleteObject, objectName)
    {
      var ok: bool :| true;
      if ok {
        objects := objects - {objectName};
        return Pass;
      }
      return Fail(StorageFailure(StorageOp.DeleteObject, objectName));
    }
  }
}
