/**
 * TagServiceImpl: tags are named labels with a generated UUID; the service keeps tag
 * names unique on create and on rename.
 */
module TagService {
  import opened Wrappers
  import opened Errors
  import opened Repositories

  /** TagEntity as the service sees it: the generated uuid and the name. */
  class TagEntity {
    var uuid: Option<string>
    var name: string

    /** TagEntity.builder().name(name).build(): no uuid yet. */
    constructor (name: string)
      ensures uuid.None? && this.name == name
    {
      uuid := None;
      this.name := name;
    }

    method SetUuid(id: string)
      modifies this
      ensures uuid == Some(id) && name == old(name)
    {
      uuid := Some(id);
    }

    /** The columns save() writes for this tag. */
    function Row(): TagRow
      reads this
    {
      TagRow(uuid, name)
    }
  }

  class TagServiceImpl {
    const tagRepository: TagRepository

    constructor (tagRepository: TagRepository)
      ensures this.tagRepository == tagRepository
    {
      this.tagRepository := tagRepository;
    }

    /**
     * createTag: a name already in use is a conflict and stores nothing; otherwise a new
     * tag with that name is stored under the generated id. Unique names stay unique.
     */
    method CreateTag(tagName: string, generatedId: string) returns (r: Result<TagRow, Error>)
      requires tagRepository.Valid() && generatedId !in tagRepository.rows
      modifies tagRepository
      ensures tagRepository.Valid()
      ensures old(tagRepository.ExistsByName(tagName)) ==> r == Failure(Conflict) && tagRepository.rows == old(tagRepository.rows)
      ensures !old(tagRepository.ExistsByName(tagName)) ==>
                r == Success(TagRow(Some(generatedId), tagName)) &&
                tagRepository.rows == old(tagRepository.rows)[generatedId := r.value]
      ensures old(tagRepository.UniqueNames()) ==> tagRepository.UniqueNames()
      ensures r.Success? ==> tagRepository.ExistsByName(tagName)
    {
      if tagRepository.ExistsByName(tagName) {
        return Failure(Conflict);
      }
      var tag := new TagEntity(tagName);
      var saved := tagRepository.Save(tag.Row(), generatedId);
      assert saved.uuid.value in tagRepository.rows;
      return Success(saved);
    }

    /**
     * updateTag: the id must name a stored tag; the new name must not be in use by any
     * tag, the renamed one included; the tag is then stored under the id. Unique names stay unique.
     */
    method UpdateTag(id: string, tag: TagEntity) returns (r: Result<TagRow, Error>)
      requires tagRepository.Valid()
      modifies tagRepository, tag
      ensures tagRepository.Valid()
      ensures r.Failure? ==> tagRepository.rows == old(tagRepository.rows)
      ensures id !in old(tagRepository.rows) ==> r == Failure(NotFound)
      ensures id in old(tagRepository.rows) && old(tagRepository.ExistsByName(tag.name)) ==> r == Failure(Conflict)
      ensures id in old(tagRepository.rows) && old(tagRepository.rows)[id].name == tag.name ==> r == Failure(Conflict)
      ensures id in old(tagRepository.rows) && !old(tagRepository.ExistsByName(tag.name)) ==>
                r == Success(TagRow(Some(id), old(tag.name))) &&
                tagRepository.rows == old(tagRepository.rows)[id := r.value]
      ensures old(tagRepository.UniqueNames()) ==> tagRepository.UniqueNames()
    {
      if !tagRepository.ExistsById(id) {
        return Failure(NotFound);
      }
      if tagRepository.ExistsByName(tag.name) {
        return Failure(Conflict);
      }
      tag.SetUuid(id);
      var saved := tagRepository.Save(tag.Row(), id);
      return Success(saved);
    }

    /** deleteTag: removes the tag; an unknown id is not an error. */
    method DeleteTag(id: string)
      requires tagRepository.Valid()
      modifies tagRepository
      ensures tagRepository.Valid()
      ensures tagRepository.rows == old(tagRepository.rows) - {id}
      ensures !tagRepository.ExistsById(id)
      ensures old(tagRepository.UniqueNames()) ==> tagRepository.UniqueNames()
    {
      tagRepository.DeleteById(id);
    }

    /** getTag: the stored tag, or TagNotFoundException carrying the id. */
    method GetTag(id: string) returns (r: Result<TagRow, Error>)
      requires tagRepository.Valid()
      ensures r.Success? <==> id in tagRepository.rows
      ensures r.Success? ==> r.value == tagRepository.rows[id] && r.value.uuid == Some(id)
      ensures r.Failure? ==> r.error == TagNotFound(id)
    {
      var found := tagRepository.FindById(id);
      if found.None? {
        return Failure(TagNotFound(id));
      }
      return Success(found.value);
    }

    /** getAllTags: every stored tag, each under its own id. */
    method GetAllTags() returns (tags: set<TagRow>)
      requires tagRepository.Valid()
      ensures forall t :: t in tags <==> exists k :: k in tagRepository.rows && tagRepository.rows[k] == t
      ensures forall t :: t in tags ==> t.uuid.Some? && t.uuid.value in tagRepository.rows
    {
      tags := tagRepository.FindAll();
    }
  }
}
