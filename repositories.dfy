/**
 * The relational store behind FolderRepository, DocumentRepository and TagRepository:
 * one table per entity, keyed by id, with the derived queries the services use.
 *
 * save() follows JPA merge: an assigned id that is present is overwritten, an absent
 * one is inserted. Bean validation of the entity's constraints runs when the row is
 * written; a violation rejects the write and leaves the table as it was.
 */
module Repositories {
  import opened Wrappers
  import opened Errors
  import opened Entities

  /** A set with one element is that element's singleton. */
  lemma SingletonSet<T>(s: set<T>, x: T)
    requires |s| == 1 && x in s
    ensures s == {x}
  {
    assert |s - {x}| == 0;
  }

  class FolderRepository {
    var rows: map<string, FolderRow>

    /** Every row is stored under its own id and satisfies the name constraints. */
    ghost predicate Valid()
      reads this
    {
      forall k :: k in rows ==> rows[k].id == Some(k) && IsValidFolderRow(rows[k])
    }

    constructor ()
      ensures Valid() && rows == map[]
    {
      rows := map[];
    }

    function FindById(id: string): (r: Option<FolderRow>)
      reads this
      ensures r.Some? <==> id in rows
      ensures r.Some? ==> r.value == rows[id]
    {
      if id in rows then Some(rows[id]) else None
    }

    function ExistsById(id: string): (b: bool)
      reads this
      ensures b <==> id in rows
    {
      id in rows
    }

    /** findByParentId: the folders whose parent id equals the argument; null selects the parentless ones. */
    function FindByParentId(parentId: Option<string>): (r: set<FolderRow>)
      reads this
      ensures forall f :: f in r <==> f in rows.Values && f.parentId == parentId
    {
      set k | k in rows && rows[k].parentId == parentId :: rows[k]
    }

    /** The parentless folders of the given name. */
    function RootMatches(name: string): (r: set<FolderRow>)
      reads this
      ensures forall f :: f in r <==> f in rows.Values && f.name == name && f.parentId.None?
    {
      set k | k in rows && rows[k].name == name && rows[k].parentId.None? :: rows[k]
    }

    /**
     * findByNameAndParentIdIsNull: empty when no parentless folder has the name, the
     * folder when exactly one has it, and an IncorrectResultSize failure otherwise.
     */
    method FindByNameAndParentIdIsNull(name: string) returns (r: Result<Option<FolderRow>, Error>)
      ensures |RootMatches(name)| == 0 <==> r == Success(None)
      ensures |RootMatches(name)| > 1 <==> r == Failure(NonUniqueResult)
      ensures r.Failure? ==> r == Failure(NonUniqueResult)
      ensures r.Success? && r.value.Some? ==> RootMatches(name) == {r.value.value}
    {
      var matches := RootMatches(name);
      if |matches| == 0 {
        return Success(None);
      } else if |matches| > 1 {
        return Failure(NonUniqueResult);
      }
      var f :| f in matches;
      SingletonSet(matches, f);
      return Success(Some(f));
    }

    /**
     * The names collectSiblingNames gathers from findByParentId(parentId): folders with a
     * non-null parent equal to parentId and a non-null id other than excludeId.
     */
    function ChildNames(parentId: Option<string>, excludeId: Option<string>): (names: set<string>)
      reads this
      ensures parentId.None? ==> names == {}
      ensures forall n :: n in names <==>
                exists k :: k in rows && rows[k].parentId.Some? && rows[k].parentId == parentId &&
                            rows[k].id.Some? && rows[k].id != excludeId && rows[k].name == n
    {
      set k | k in rows && rows[k].parentId.Some? && rows[k].parentId == parentId &&
              rows[k].id.Some? && rows[k].id != excludeId :: rows[k].name
    }

    /**
     * save(entity). A null id cannot be persisted (the id is assigned, not generated);
     * a name that is null, blank or outside 1..255 characters is a constraint violation.
     */
    method Save(e: FolderEntity) returns (r: Result<FolderRow, Error>)
      requires Valid()
      modifies this
      ensures Valid()
      ensures e.id.None? ==> r == Failure(MissingId)
      ensures e.id.Some? && (e.name.None? || !IsValidName(e.name.value)) ==> r == Failure(ConstraintViolation)
      ensures r.Failure? ==> rows == old(rows)
      ensures r.Success? <==> e.id.Some? && e.name.Some? && IsValidName(e.name.value)
      ensures r.Success? ==> r.value == e.Row() && rows == old(rows)[e.id.value := r.value]
    {
      if e.id.None? {
        return Failure(MissingId);
      }
      if e.name.None? || !IsValidName(e.name.value) {
        return Failure(ConstraintViolation);
      }
      var row := e.Row();
      rows := rows[e.id.value := row];
      return Success(row);
    }

    /** deleteById: removes the row; a missing id is a no-op. */
    method DeleteById(id: string)
      requires Valid()
      modifies this
      ensures Valid()
      ensures rows == old(rows) - {id}
    {
      rows := rows - {id};
    }
  }

  class DocumentRepository {
    var rows: map<string, DocumentRow>

    /** Every row is stored under its own id and satisfies the name and type constraints. */
    ghost predicate Valid()
      reads this
    {
      forall k :: k in rows ==> rows[k].id == Some(k) && IsValidDocumentRow(rows[k])
    }

    constructor ()
      ensures Valid() && rows == map[]
    {
      rows := map[];
    }

    function FindById(id: string): (r: Option<DocumentRow>)
      reads this
      ensures r.Some? <==> id in rows
      ensures r.Some? ==> r.value == rows[id]
    {
      if id in rows then Some(rows[id]) else None
    }

    function ExistsById(id: string): (b: bool)
      reads this
      ensures b <==> id in rows
    {
      id in rows
    }

    /** findByFolderId (d.folder.id = :folderId): the documents of that folder. */
    function FindByFolderId(folderId: string): (r: set<DocumentRow>)
      reads this
      ensures forall d :: d in r <==> d in rows.Values && d.folderId == Some(folderId)
    {
      set k | k in rows && rows[k].folderId == Some(folderId) :: rows[k]
    }

    /** The names collectSiblingNames gathers from a folder's documents, excluding one id. */
    function DocumentNames(folderId: string, excludeId: Option<string>): (names: set<string>)
      reads this
      ensures forall n :: n in names <==>
                exists k :: k in rows && rows[k].folderId == Some(folderId) &&
                            rows[k].id != excludeId && rows[k].name == n
    {
      set k | k in rows && rows[k].folderId == Some(folderId) && rows[k].id != excludeId :: rows[k].name
    }

    /** save(entity): a null id cannot be persisted; a bad name or type is a constraint violation. */
    method Save(e: DocumentEntity) returns (r: Result<DocumentRow, Error>)
      requires Valid()
      modifies this
      ensures Valid()
      ensures e.id.None? ==> r == Failure(MissingId)
      ensures e.id.Some? && r.Failure? ==> r == Failure(ConstraintViolation)
      ensures r.Failure? ==> rows == old(rows)
      ensures r.Success? <==> e.id.Some? && e.name.Some? && IsValidDocumentRow(e.Row())
      ensures r.Success? ==> r.value == e.Row() && rows == old(rows)[e.id.value := r.value]
    {
      if e.id.None? {
        return Failure(MissingId);
      }
      if e.name.None? || !IsValidDocumentRow(e.Row()) {
        return Failure(ConstraintViolation);
      }
      var row := e.Row();
      rows := rows[e.id.value := row];
      return Success(row);
    }

    /** deleteById: removes the row; a missing id is a no-op. */
    method DeleteById(id: string)
      requires Valid()
      modifies this
      ensures Valid()
      ensures rows == old(rows) - {id}
    {
      rows := rows - {id};
    }
  }

  /** The persisted columns of a tag. */
  datatype TagRow = TagRow(uuid: Option<string>, name: string)

  class TagRepository {
    var rows: map<string, TagRow>

    ghost predicate Valid()
      reads this
    {
      forall k :: k in rows ==> rows[k].uuid == Some(k)
    }

    constructor ()
      ensures Valid() && rows == map[]
    {
      rows := map[];
    }

    /** No two tags share a name. */
    ghost predicate UniqueNames()
      reads this
    {
      forall a, b :: a in rows && b in rows && rows[a].name == rows[b].name ==> a == b
    }

    function ExistsByName(name: string): (b: bool)
      reads this
      ensures b <==> exists k :: k in rows && rows[k].name == name
    {
      exists k :: k in rows && rows[k].name == name
    }

    function ExistsById(id: string): (b: bool)
      reads this
      ensures b <==> id in rows
    {
      id in rows
    }

    function FindById(id: string): (r: Option<TagRow>)
      reads this
      ensures r.Some? <==> id in rows
      ensures r.Some? ==> r.value == rows[id]
    {
      if id in rows then Some(rows[id]) else None
    }

    function FindAll(): (r: set<TagRow>)
      reads this
      ensures forall t :: t in r <==> exists k :: k in rows && rows[k] == t
    {
      rows.Values
    }

    /** save(tag): a tag without a uuid is inserted under the generated id, one with a uuid is merged. */
    method Save(tag: TagRow, generatedId: string) returns (saved: TagRow)
      requires Valid()
      modifies this
      ensures Valid()
      ensures saved.name == tag.name
      ensures saved.uuid == if tag.uuid.Some? then tag.uuid else Some(generatedId)
      ensures rows == old(rows)[saved.uuid.value := saved]
    {
      var id := if tag.uuid.Some? then tag.uuid.value else generatedId;
      saved := TagRow(Some(id), tag.name);
      rows := rows[id := saved];
    }

    /** deleteById: removes the row; a missing id is a no-op. */
    method DeleteById(id: string)
      requires Valid()
      modifies this
      ensures Valid()
      ensures rows == old(rows) - {id}
    {
      rows := rows - {id};
    }
  }
}
