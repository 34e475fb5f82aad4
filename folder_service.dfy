/**
 * FolderServiceImpl: reading a folder's contents, and creating, updating and (strictly)
 * deleting folders over the folder and document tables.
 */
module FolderService {
  import opened Wrappers
  import opened Errors
  import opened Entities
  import opened NameIncrement
  import opened Repositories

  /** The special id that getFolderContents resolves to the parentless folder named "root". */
  const ROOT_ID: string := "root"

  /** FolderResponseDTO: the folder, its direct subfolders and its direct documents. */
  datatype FolderContents = FolderContents(folder: FolderRow, subfolders: set<FolderRow>, documents: set<DocumentRow>)

  /** The folders of a findByParentId result, as the objects collectSiblingNames receives. */
  function FolderItems(rows: set<FolderRow>): set<Entity> {
    set f | f in rows :: FolderItem(f)
  }

  /** collectSiblingNames over findByParentId(parentId) yields the names ChildNames describes. */
  lemma FolderSiblingNames(repo: FolderRepository, parentId: Option<string>, excludeId: Option<string>)
    requires repo.Valid()
    ensures SiblingNames(FolderItems(repo.FindByParentId(parentId)), parentId, excludeId) ==
            repo.ChildNames(parentId, excludeId)
  {
    var left := SiblingNames(FolderItems(repo.FindByParentId(parentId)), parentId, excludeId);
    var right := repo.ChildNames(parentId, excludeId);
    forall n | n in left ensures n in right {
      var e :| e in FolderItems(repo.FindByParentId(parentId)) && IsSibling(e, parentId, excludeId) && NameOf(e) == n;
      var k := e.folder.id.value;
      assert k in repo.rows && repo.rows[k] == e.folder;
    }
    forall n | n in right ensures n in left {
      var k :| k in repo.rows && repo.rows[k].parentId.Some? && repo.rows[k].parentId == parentId &&
               repo.rows[k].id.Some? && repo.rows[k].id != excludeId && repo.rows[k].name == n;
      var e := FolderItem(repo.rows[k]);
      assert e in FolderItems(repo.FindByParentId(parentId));
    }
  }

  class FolderServiceImpl {
    const folders: FolderRepository
    const documents: DocumentRepository
    const isUuid: string -> bool

    ghost predicate Valid()
      reads this, folders, documents
    {
      folders.Valid() && documents.Valid()
    }

    constructor (folders: FolderRepository, documents: DocumentRepository, isUuid: string -> bool)
      ensures this.folders == folders && this.documents == documents && this.isUuid == isUuid
    {
      this.folders := folders;
      this.documents := documents;
      this.isUuid := isUuid;
    }

    /**
     * getFolderContents: "root" names the unique parentless folder called "root"; any
     * other id must be a well-formed UUID of an existing folder. The contents are the
     * folders whose parent is that folder and the documents whose folder it is.
     */
    method GetFolderContents(id: string) returns (r: Result<FolderContents, Error>)
      requires Valid()
      ensures id == ROOT_ID && |folders.RootMatches(ROOT_ID)| == 0 ==> r == Failure(RootFolderNotFound)
      ensures id == ROOT_ID && |folders.RootMatches(ROOT_ID)| > 1 ==> r == Failure(NonUniqueResult)
      ensures id == ROOT_ID && r.Success? ==> folders.RootMatches(ROOT_ID) == {r.value.folder}
      ensures id != ROOT_ID && !isUuid(id) ==> r == Failure(InvalidUuid(Some(id)))
      ensures id != ROOT_ID && isUuid(id) ==> (r.Success? <==> id in folders.rows)
      ensures id != ROOT_ID && isUuid(id) && id !in folders.rows ==> r == Failure(FolderNotFound(id))
      ensures id != ROOT_ID && r.Success? ==> r.value.folder == folders.rows[id]
      ensures r.Success? ==> r.value.folder in folders.rows.Values && r.value.folder.id.Some?
      ensures r.Success? ==> forall f :: f in r.value.subfolders <==> f in folders.rows.Values && f.parentId == r.value.folder.id
      ensures r.Success? ==> forall d :: d in r.value.documents <==> d in documents.rows.Values && d.folderId == r.value.folder.id
    {
      var folder: FolderRow;
      if id == ROOT_ID {
        var found := folders.FindByNameAndParentIdIsNull(ROOT_ID);
        if found.Failure? {
          return Failure(found.error);
        }
        if found.value.None? {
          return Failure(RootFolderNotFound);
        }
        folder := found.value.value;
        assert folder in folders.RootMatches(ROOT_ID);
      } else {
        var valid := ValidateOrThrow(isUuid, Some(id));
        if valid.Fail? {
          return Failure(valid.error);
        }
        var found := folders.FindById(id);
        if found.None? {
          return Failure(FolderNotFound(id));
        }
        folder := found.value;
      }
      var folderId := folder.id.value;
      var subfolders := folders.FindByParentId(folder.id);
      var docs := documents.FindByFolderId(folderId);
      return Success(FolderContents(folder, subfolders, docs));
    }

    /**
     * The name-conflict step of createFolder and updateFolder: collectSiblingNames over
     * findByParentId(parentId), then getIncrementedName. The result is the requested
     * name when no other child of the parent has it, otherwise its least free variant.
     */
    method ResolveName(name: Option<string>, parentId: Option<string>, excludeId: Option<string>)
      returns (unique: Option<string>)
      requires Valid()
      ensures unique == IncrementedNameOrNull(name, folders.ChildNames(parentId, excludeId))
      ensures unique.Some? ==> unique.value !in folders.ChildNames(parentId, excludeId)
    {
      var siblings := folders.FindByParentId(parentId);
      var siblingNames := CollectSiblingNames(FolderItems(siblings), parentId, excludeId);
      FolderSiblingNames(folders, parentId, excludeId);
      unique := None;
      if name.Some? {
        var n := GetIncrementedName(name.value, siblingNames);
        unique := Some(n);
      }
    }

    /**
     * createFolder: the parent id must be a well-formed UUID of an existing folder. The
     * entity receives the fresh id and the timestamp, its name is made unique among the
     * parent's children, and it is saved.
     */
    method CreateFolder(folder: FolderEntity, newId: string, now: Timestamp) returns (r: Result<FolderRow, Error>)
      requires Valid()
      requires folder.parent != folder
      modifies folders, folder
      ensures Valid()
      ensures folder.parent == old(folder.parent) && folder.studyGroupIds == old(folder.studyGroupIds)
      ensures var parentId := old(folder.GetParentId());
              (parentId.None? || !isUuid(parentId.value)) ==>
                r == Failure(InvalidUuid(parentId)) && folders.rows == old(folders.rows) &&
                folder.id == old(folder.id) && folder.name == old(folder.name) && folder.createdDate == old(folder.createdDate)
      ensures var parentId := old(folder.GetParentId());
              parentId.Some? && isUuid(parentId.value) && parentId.value !in old(folders.rows) ==>
                r == Failure(FolderNotFound(parentId.value)) && folders.rows == old(folders.rows) &&
                folder.id == old(folder.id) && folder.name == old(folder.name) && folder.createdDate == old(folder.createdDate)
      ensures var parentId := old(folder.GetParentId());
              parentId.Some? && isUuid(parentId.value) && parentId.value in old(folders.rows) ==>
                && folder.id == Some(newId) && folder.createdDate == Some(now)
                && folder.name == IncrementedNameOrNull(old(folder.name), old(folders.ChildNames(parentId, None)))
                && (r.Success? <==> folder.name.Some? && IsValidName(folder.name.value))
                && (r.Failure? ==> r == Failure(ConstraintViolation) && folders.rows == old(folders.rows))
                && (r.Success? ==>
                      && r.value == FolderRow(Some(newId), folder.name.value, Some(now), parentId, old(folder.studyGroupIds))
                      && folders.rows == old(folders.rows)[newId := r.value])
      ensures r.Success? ==> r.value.parentId.Some? && r.value.parentId.value in old(folders.rows) &&
                             r.value.name !in old(folders.ChildNames(r.value.parentId, None))
    {
      var parentId := folder.GetParentId();
      var valid := ValidateOrThrow(isUuid, parentId);
      if valid.Fail? {
        return Failure(valid.error);
      }
      if folders.FindById(parentId.value).None? {
        return Failure(FolderNotFound(parentId.value));
      }
      folder.SetId(Some(newId));
      folder.SetCreatedDate(Some(now));

      var uniqueName := ResolveName(folder.name, parentId, None);
      folder.SetName(uniqueName);
      r := folders.Save(folder);
    }

    /**
     * updateFolder: a parent that differs from the current one must be a well-formed UUID
     * of an existing folder and becomes the new parent; a name is made unique among the
     * target parent's other children. Everything else keeps its stored value.
     */
    method UpdateFolder(id: string, incoming: FolderEntity) returns (r: Result<FolderRow, Error>)
      requires Valid()
      modifies folders
      ensures Valid()
      ensures !isUuid(id) ==> r == Failure(InvalidUuid(Some(id))) && folders.rows == old(folders.rows)
      ensures isUuid(id) && id !in old(folders.rows) ==> r == Failure(FolderNotFound(id)) && folders.rows == old(folders.rows)
      ensures isUuid(id) && id in old(folders.rows) ==>
                var existing := old(folders.rows)[id];
                var parentId := incoming.GetParentId();
                var moving := parentId.Some? && parentId != existing.parentId;
                && (moving && !isUuid(parentId.value) ==>
                      r == Failure(InvalidUuid(parentId)) && folders.rows == old(folders.rows))
                && (moving && isUuid(parentId.value) && parentId.value !in old(folders.rows) ==>
                      r == Failure(FolderNotFound(parentId.value)) && folders.rows == old(folders.rows))
                && (!moving || (isUuid(parentId.value) && parentId.value in old(folders.rows)) ==>
                      var newParent := if parentId.Some? then parentId else existing.parentId;
                      var newName := if incoming.name.Some?
                                     then IncrementedName(incoming.name.value, old(folders.ChildNames(newParent, Some(id))))
                                     else existing.name;
                      && (r.Success? <==> IsValidName(newName))
                      && (r.Failure? ==> r == Failure(ConstraintViolation) && folders.rows == old(folders.rows))
                      && (r.Success? ==>
                            && r.value == FolderRow(Some(id), newName, existing.createdDate, newParent, existing.studyGroupIds)
                            && folders.rows == old(folders.rows)[id := r.value]))
    {
      var valid := ValidateOrThrow(isUuid, Some(id));
      if valid.Fail? {
        return Failure(valid.error);
      }
      var found := folders.FindById(id);
      if found.None? {
        return Failure(FolderNotFound(id));
      }
      r := MoveAndRename(found.value, incoming.GetParentId(), incoming.name);
    }

    /** The body of updateFolder once the folder is loaded: the parent step, the name step, then save. */
    method MoveAndRename(existing: FolderRow, parentId: Option<string>, name: Option<string>)
      returns (r: Result<FolderRow, Error>)
      requires Valid() && existing.id.Some?
      modifies folders
      ensures Valid()
      ensures var moving := parentId.Some? && parentId != existing.parentId;
              && (moving && !isUuid(parentId.value) ==>
                    r == Failure(InvalidUuid(parentId)) && folders.rows == old(folders.rows))
              && (moving && isUuid(parentId.value) && parentId.value !in old(folders.rows) ==>
                    r == Failure(FolderNotFound(parentId.value)) && folders.rows == old(folders.rows))
              && (!moving || (isUuid(parentId.value) && parentId.value in old(folders.rows)) ==>
                    var newParent := if parentId.Some? then parentId else existing.parentId;
                    var newName := if name.Some?
                                   then IncrementedName(name.value, old(folders.ChildNames(newParent, existing.id)))
                                   else existing.name;
                    && (r.Success? <==> IsValidName(newName))
                    && (r.Failure? ==> r == Failure(ConstraintViolation) && folders.rows == old(folders.rows))
                    && (r.Success? ==>
                          && r.value == existing.(name := newName, parentId := newParent)
                          && folders.rows == old(folders.rows)[existing.id.value := r.value]))
    {
      var entity := new FolderEntity.FromRow(existing);
      if parentId.Some? && parentId != entity.GetParentId() {
        var validParent := ValidateOrThrow(isUuid, parentId);
        if validParent.Fail? {
          return Failure(validParent.error);
        }
        if folders.FindById(parentId.value).None? {
          return Failure(FolderNotFound(parentId.value));
        }
        entity.SetParentId(parentId);
      }
      if name.Some? {
        var targetParentId := if parentId.Some? then parentId else entity.GetParentId();
        var n := ResolveName(name, targetParentId, entity.id);
        entity.SetName(n);
      }
      r := folders.Save(entity);
    }

    /**
     * deleteFolder, strict variant: checks in order a well-formed id, an existing folder,
     * no subfolders and no documents; only a folder that passes all four is removed.
     */
    method DeleteFolder(id: string) returns (r: Outcome<Error>)
      requires Valid()
      modifies folders
      ensures Valid()
      ensures documents.rows == old(documents.rows)
      ensures !isUuid(id) ==> r == Fail(InvalidUuid(Some(id)))
      ensures isUuid(id) && id !in old(folders.rows) ==> r == Fail(FolderNotFound(id))
      ensures isUuid(id) && id in old(folders.rows) && old(folders.FindByParentId(Some(id))) != {} ==>
                r == Fail(Validation(ChildrenFolder, |old(folders.FindByParentId(Some(id)))|))
      ensures isUuid(id) && id in old(folders.rows) && old(folders.FindByParentId(Some(id))) == {} &&
              documents.FindByFolderId(id) != {} ==>
                r == Fail(Validation(FolderNotEmpty, |documents.FindByFolderId(id)|))
      ensures r.Fail? ==> folders.rows == old(folders.rows)
      ensures r.Pass? <==> isUuid(id) && id in old(folders.rows) && old(folders.FindByParentId(Some(id))) == {} &&
                           documents.FindByFolderId(id) == {}
      ensures r.Pass? ==> folders.rows == old(folders.rows) - {id}
    {
      var valid := ValidateOrThrow(isUuid, Some(id));
      if valid.Fail? {
        return Fail(valid.error);
      }
      if !folders.ExistsById(id) {
        return Fail(FolderNotFound(id));
      }
      var subfolders := folders.FindByParentId(Some(id));
      if subfolders != {} {
        return Fail(Validation(ChildrenFolder, |subfolders|));
      }
      var docs := documents.FindByFolderId(id);
      if docs != {} {
        return Fail(Validation(FolderNotEmpty, |docs|));
      }
      folders.DeleteById(id);
      return Pass;
    }
  }
}
