/**
 * DatabaseInitializer: when the application is ready, a parentless folder named "root"
 * is created unless one already exists.
 */
module DatabaseInitializer {
  import opened Wrappers
  import opened Errors
  import opened Entities
  import opened Repositories

  const ROOT_NAME: string := "root"

  /** The folder the initializer stores: the generated id, the name, no parent, the current time. */
  function RootRow(newId: string, now: Timestamp): FolderRow {
    FolderRow(Some(newId), ROOT_NAME, Some(now), None, {})
  }

  /** "root" is a valid folder name. */
  lemma RootNameValid()
    ensures IsValidName(ROOT_NAME)
  {
    assert ROOT_NAME[0] == 'r';
  }

  class DatabaseInitializer {
    const folderRepository: FolderRepository

    constructor (folderRepository: FolderRepository)
      ensures this.folderRepository == folderRepository
    {
      this.folderRepository := folderRepository;
    }

    /**
     * createRootFolderIfNotExists: with no root, a root is stored under the generated id;
     * with one root, nothing changes; with several, the uniqueness failure of the lookup
     * propagates. Whenever it succeeds there is exactly one root afterwards.
     */
    method CreateRootFolderIfNotExists(newId: string, now: Timestamp) returns (r: Outcome<Error>)
      requires folderRepository.Valid()
      modifies folderRepository
      ensures folderRepository.Valid()
      ensures old(|folderRepository.RootMatches(ROOT_NAME)|) > 1 ==>
                r == Fail(NonUniqueResult) && folderRepository.rows == old(folderRepository.rows)
      ensures old(|folderRepository.RootMatches(ROOT_NAME)|) == 1 ==>
                r == Pass && folderRepository.rows == old(folderRepository.rows)
      ensures old(|folderRepository.RootMatches(ROOT_NAME)|) == 0 ==>
                r == Pass && folderRepository.rows == old(folderRepository.rows)[newId := RootRow(newId, now)]
      ensures r.Pass? ==> |folderRepository.RootMatches(ROOT_NAME)| == 1
    {
      var found := folderRepository.FindByNameAndParentIdIsNull(ROOT_NAME);
      if found.Failure? {
        return Fail(found.error);
      }
      if found.value.Some? {
        return Pass;
      }
      ghost var before := folderRepository.rows;
      var root := new FolderEntity();
      root.SetId(Some(newId));
      root.SetName(Some(ROOT_NAME));
      root.SetParentId(None);
      root.SetCreatedDate(Some(now));
      var saved := folderRepository.Save(root);
      RootNameValid();
      assert saved.Success?;
      RootAfterInsert(before, folderRepository.rows, newId, now);
      return Pass;
    }
  }

  /** Inserting a root into a table without one leaves exactly that root. */
  lemma RootAfterInsert(before: map<string, FolderRow>, after: map<string, FolderRow>, newId: string, now: Timestamp)
    requires forall k :: k in before ==> !(before[k].name == ROOT_NAME && before[k].parentId.None?)
    requires after == before[newId := RootRow(newId, now)]
    ensures (set k | k in after && after[k].name == ROOT_NAME && after[k].parentId.None? :: after[k]) == {RootRow(newId, now)}
  {
    var roots := set k | k in after && after[k].name == ROOT_NAME && after[k].parentId.None? :: after[k];
    forall f | f in roots ensures f == RootRow(newId, now) {
      var k :| k in after && after[k].name == ROOT_NAME && after[k].parentId.None? && after[k] == f;
      assert k == newId;
    }
    assert after[newId] == RootRow(newId, now);
  }

  /** Running the initializer on every start: the second run finds the root the first one made and changes nothing. */
  method InitializeTwice(initializer: DatabaseInitializer, firstId: string, secondId: string, now: Timestamp)
    returns (first: Outcome<Error>, second: Outcome<Error>)
    requires initializer.folderRepository.Valid()
    modifies initializer.folderRepository
    ensures first.Pass? ==> second == Pass && |initializer.folderRepository.RootMatches(ROOT_NAME)| == 1
    ensures first.Pass? ==> exists k :: k in initializer.folderRepository.rows &&
                                        initializer.folderRepository.rows[k].name == ROOT_NAME &&
                                        initializer.folderRepository.rows[k].parentId.None?
  {
    first := initializer.CreateRootFolderIfNotExists(firstId, now);
    if first.Fail? {
      second := first;
      return;
    }
    second := initializer.CreateRootFolderIfNotExists(secondId, now);
    ghost var root :| root in initializer.folderRepository.RootMatches(ROOT_NAME);
  }
}
