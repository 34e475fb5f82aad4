/**
 * FolderEntity and DocumentEntity: the mutable in-memory entity objects, and the
 * rows the relational store keeps for them.
 *
 * A repository stores rows (value snapshots of an entity's persisted columns); a
 * service that changes an entity loads it as an object, calls its setters and saves
 * its snapshot back.
 */
module Entities {
  import opened Wrappers
  import opened JavaLang

  /** LocalDateTime, left opaque. */
  type Timestamp = int

  newtype byte = b: int | 0 <= b < 256

  /** The persisted columns of a folder. */
  datatype FolderRow = FolderRow(
    id: Option<string>,
    name: string,
    createdDate: Option<Timestamp>,
    parentId: Option<string>,
    studyGroupIds: set<string>)

  /** The persisted columns of a document, including its @Lob data column. */
  datatype DocumentRow = DocumentRow(
    id: Option<string>,
    name: string,
    mediaType: Option<string>,
    size: int,
    ownerId: Option<string>,
    createdDate: Option<Timestamp>,
    downloadUrl: Option<string>,
    data: Option<seq<byte>>,
    folderId: Option<string>)

  /** Size(min = 1, max = 255) on String.length, counted in UTF-16 code units, together with NotBlank. */
  predicate IsValidName(name: string) {
    1 <= Utf16Length(name) <= 255 && !IsBlank(name)
  }

  /** 128 chars outside the Basic Multilingual Plane are 256 code units: too long for @Size(max = 255). */
  lemma WideNameTooLong(name: string)
    requires |name| == 128 && forall i :: 0 <= i < |name| ==> IsSupplementary(name[i])
    ensures !IsValidName(name)
  {
    SupplementaryIsTwiceAsLong(name);
  }

  /** The bean-validation constraints FolderEntity declares on its name. */
  predicate IsValidFolderRow(row: FolderRow) {
    IsValidName(row.name)
  }

  /** The bean-validation constraints DocumentEntity declares on its name and type. */
  predicate IsValidDocumentRow(row: DocumentRow) {
    IsValidName(row.name) && row.mediaType.Some? && !IsBlank(row.mediaType.value)
  }

  /** Lombok's hashCode over the single included field id (PRIME 59, 43 for null). */
  function IdHashCode(id: Option<string>): (h: int)
    ensures IsInt32(h)
    ensures id.None? ==> h == 59 + 43
  {
    Wrap32(1 * 59 + (if id.None? then 43 else StringHashCode(id.value)))
  }

  class FolderEntity {
    var id: Option<string>
    var name: Option<string>
    var createdDate: Option<Timestamp>
    var parent: FolderEntity?
    var subfolders: seq<FolderEntity>
    var documents: seq<DocumentEntity>
    var studyGroupIds: set<string>

    /** The no-argument constructor: every field null, every collection empty. */
    constructor ()
      ensures id.None? && name.None? && createdDate.None? && parent == null
      ensures subfolders == [] && documents == [] && studyGroupIds == {}
    {
      id, name, createdDate, parent := None, None, None, null;
      subfolders, documents, studyGroupIds := [], [], {};
    }

    /** The object JPA materialises for a stored row, its parent as a reference carrying only the id. */
    constructor FromRow(row: FolderRow)
      ensures id == row.id && name == Some(row.name) && createdDate == row.createdDate
      ensures GetParentId() == row.parentId && studyGroupIds == row.studyGroupIds
      ensures parent != null ==> fresh(parent)
      ensures Row() == row
    {
      var p: FolderEntity? := null;
      if row.parentId.Some? {
        p := new FolderEntity();
        p.id := row.parentId;
      }
      id, name, createdDate, parent := row.id, Some(row.name), row.createdDate, p;
      subfolders, documents, studyGroupIds := [], [], row.studyGroupIds;
    }

    /** getParentId: the id of the parent reference, or null when there is none. */
    function GetParentId(): (p: Option<string>)
      reads this, parent
      ensures parent == null ==> p.None?
      ensures parent != null ==> p == parent.id
    {
      if parent != null then parent.id else None
    }

    /** setParentId: a non-null id becomes a fresh parent reference carrying it; null clears the parent. */
    method SetParentId(parentId: Option<string>)
      modifies this
      ensures GetParentId() == parentId
      ensures parentId.Some? ==> parent != null && fresh(parent)
      ensures parentId.None? ==> parent == null
      ensures id == old(id) && name == old(name) && createdDate == old(createdDate)
      ensures subfolders == old(subfolders) && documents == old(documents) && studyGroupIds == old(studyGroupIds)
    {
      if parentId.Some? {
        var p := new FolderEntity();
        p.SetId(parentId);
        parent := p;
      } else {
        parent := null;
      }
    }

    method SetId(newId: Option<string>)
      modifies this
      ensures id == newId && name == old(name) && createdDate == old(createdDate) && parent == old(parent)
      ensures subfolders == old(subfolders) && documents == old(documents) && studyGroupIds == old(studyGroupIds)
    {
      id := newId;
    }

    method SetName(newName: Option<string>)
      modifies this
      ensures name == newName && id == old(id) && createdDate == old(createdDate) && parent == old(parent)
      ensures subfolders == old(subfolders) && documents == old(documents) && studyGroupIds == old(studyGroupIds)
    {
      name := newName;
    }

    method SetCreatedDate(date: Option<Timestamp>)
      modifies this
      ensures createdDate == date && id == old(id) && name == old(name) && parent == old(parent)
      ensures subfolders == old(subfolders) && documents == old(documents) && studyGroupIds == old(studyGroupIds)
    {
      createdDate := date;
    }

    /** Lombok equals with onlyExplicitlyIncluded: two folders are equal when their ids are. */
    predicate Equals(other: FolderEntity?)
      reads this, other
    {
      other == this || (other != null && id == other.id)
    }

    function HashCode(): int
      reads this
    {
      IdHashCode(id)
    }

    /** The columns save() writes for this entity. */
    function Row(): FolderRow
      reads this, parent
      requires name.Some?
    {
      FolderRow(id, name.value, createdDate, GetParentId(), studyGroupIds)
    }
  }

  class DocumentEntity {
    var id: Option<string>
    var name: Option<string>
    var mediaType: Option<string>
    var size: int
    var ownerId: Option<string>
    var createdDate: Option<Timestamp>
    var downloadUrl: Option<string>
    var data: Option<seq<byte>>
    var folder: FolderEntity?

    /** The no-argument constructor: references null, the primitive size 0. */
    constructor ()
      ensures id.None? && name.None? && mediaType.None? && size == 0 && ownerId.None?
      ensures createdDate.None? && downloadUrl.None? && data.None? && folder == null
    {
      id, name, mediaType, size, ownerId := None, None, None, 0, None;
      createdDate, downloadUrl, data, folder := None, None, None, null;
    }

    /** The object JPA materialises for a stored row, its folder as a reference carrying only the id. */
    constructor FromRow(row: DocumentRow)
      ensures id == row.id && name == Some(row.name) && mediaType == row.mediaType && size == row.size
      ensures ownerId == row.ownerId && createdDate == row.createdDate && downloadUrl == row.downloadUrl
      ensures data == row.data && GetFolderId() == row.folderId
      ensures folder != null ==> fresh(folder)
      ensures Row() == row
    {
      var f: FolderEntity? := null;
      if row.folderId.Some? {
        f := new FolderEntity();
        f.id := row.folderId;
      }
      id, name, mediaType, size, ownerId := row.id, Some(row.name), row.mediaType, row.size, row.ownerId;
      createdDate, downloadUrl, data, folder := row.createdDate, row.downloadUrl, row.data, f;
    }

    /** getFolderId: the id of the folder reference, or null when there is none. */
    function GetFolderId(): (f: Option<string>)
      reads this, folder
      ensures folder == null ==> f.None?
      ensures folder != null ==> f == folder.id
    {
      if folder != null then folder.id else None
    }

    /** setFolderId: a non-null id becomes a fresh folder reference carrying it; null clears the folder. */
    method SetFolderId(folderId: Option<string>)
      modifies this
      ensures GetFolderId() == folderId
      ensures folderId.Some? ==> folder != null && fresh(folder)
      ensures folderId.None? ==> folder == null
      ensures id == old(id) && name == old(name) && mediaType == old(mediaType) && size == old(size)
      ensures ownerId == old(ownerId) && createdDate == old(createdDate) && downloadUrl == old(downloadUrl)
      ensures data == old(data)
    {
      if folderId.Some? {
        var f := new FolderEntity();
        f.SetId(folderId);
        folder := f;
      } else {
        folder := null;
      }
    }

    /** setFolder, the Lombok setter of the relationship itself. */
    method SetFolder(f: FolderEntity?)
      modifies this
      ensures folder == f
      ensures id == old(id) && name == old(name) && mediaType == old(mediaType) && size == old(size)
      ensures ownerId == old(ownerId) && createdDate == old(createdDate) && downloadUrl == old(downloadUrl)
      ensures data == old(data)
    {
      folder := f;
    }

    /** Lombok equals with onlyExplicitlyIncluded: two documents are equal when their ids are. */
    predicate Equals(other: DocumentEntity?)
      reads this, other
    {
      other == this || (other != null && id == other.id)
    }

    function HashCode(): int
      reads this
    {
      IdHashCode(id)
    }

    /** The columns save() writes for this entity. */
    function Row(): DocumentRow
      reads this, folder
      requires name.Some?
    {
      DocumentRow(id, name.value, mediaType, size, ownerId, createdDate, downloadUrl, data, GetFolderId())
    }
  }

  /** Equality of folders ignores every field but id, and equal folders hash alike. */
  lemma FolderEqualityIsById(a: FolderEntity, b: FolderEntity)
    ensures a.Equals(b) <==> a.id == b.id
    ensures a.Equals(b) ==> a.HashCode() == b.HashCode()
    ensures a.Equals(b) <==> b.Equals(a)
  {
  }

  /** Equality of documents ignores every field but id, and equal documents hash alike. */
  lemma DocumentEqualityIsById(a: DocumentEntity, b: DocumentEntity)
    ensures a.Equals(b) <==> a.id == b.id
    ensures a.Equals(b) ==> a.HashCode() == b.HashCode()
    ensures a.Equals(b) <==> b.Equals(a)
  {
  }
}
