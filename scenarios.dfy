/**
 * Concrete runs of the model: the name-resolution cases the repository's unit tests
 * exercise, and service calls showing what the update and delete operations accept
 * and refuse.
 */
module Scenarios {
  import opened Wrappers
  import opened JavaLang
  import opened NameIncrement
  import opened Errors
  import opened Entities
  import opened Repositories
  import opened ObjectStore
  import opened FolderService
  import opened DocumentService

  /** Three taken variants of "file": the next free one is "file (3)". */
  lemma ConflictResolvesToNextCounter()
    ensures IncrementedName("file", {"file", "file (1)", "file (2)"}) == "file (3)"
  {
    var base := "file";
    assert LastIndexOf(base, '.') == -1;
    assert SplitName(base) == (base, "");
    assert Candidate(base, 1) == "file (1)";
    assert Candidate(base, 2) == "file (2)";
    assert Candidate(base, 3) == "file (3)";
    assert Candidates(base, 2) == {"file (1)", "file (2)"};
    NextUploadName(base, 3);
  }

  /** A leading dot does not start an extension: ".cfg" becomes ".cfg (1)". */
  lemma LeadingDotIsPartOfStem()
    ensures IncrementedName(".cfg", {".cfg"}) == ".cfg (1)"
  {
    var base := ".cfg";
    var dot := LastIndexOf(base, '.');
    assert base[0] == '.' && base[1] == 'c' && base[2] == 'f' && base[3] == 'g';
    assert dot >= 0;
    assert dot == 0;
    assert SplitName(base) == (base, "");
    assert Candidate(base, 1) == ".cfg (1)";
    IncrementedNameIsLeastFree(base, {base}, 1);
  }

  /** Only the last dot separates the extension: the counter goes before ".pdf". */
  lemma LastDotSeparatesExtension()
    ensures IncrementedName("report.final.pdf", {"report.final.pdf"}) == "report.final (1).pdf"
  {
    var base := "report.final.pdf";
    var dot := LastIndexOf(base, '.');
    assert base[12] == '.' && base[13] == 'p' && base[14] == 'd' && base[15] == 'f';
    assert dot >= 12;
    assert dot == 12;
    assert base[..12] == "report.final" && base[12..] == ".pdf";
    assert SplitName(base) == ("report.final", ".pdf");
    assert Candidate(base, 1) == "report.final (1).pdf";
    IncrementedNameIsLeastFree(base, {base}, 1);
  }

  /** A name that already carries a counter gets a second one rather than a higher first one. */
  lemma CounterIsAppendedNotIncremented()
    ensures IncrementedName("update (1).txt", {"update (1).txt"}) == "update (1) (1).txt"
  {
    var base := "update (1).txt";
    var dot := LastIndexOf(base, '.');
    assert base[10] == '.' && base[11] == 't' && base[12] == 'x' && base[13] == 't';
    assert dot >= 10;
    assert dot == 10;
    assert base[..10] == "update (1)" && base[10..] == ".txt";
    assert SplitName(base) == ("update (1)", ".txt");
    assert Candidate(base, 1) == "update (1) (1).txt";
    IncrementedNameIsLeastFree(base, {base}, 1);
  }

  /** The names and the media type the fixtures below store are valid column values. */
  lemma FixtureNamesValid()
    ensures IsValidName("top") && IsValidName("sub") && IsValidName("a") && IsValidName("b")
    ensures IsValidName("x.txt") && !IsBlank("text/plain")
  {
    assert "top"[0] == 't' && "sub"[0] == 's' && "a"[0] == 'a' && "b"[0] == 'b';
    assert "x.txt"[0] == 'x' && "text/plain"[0] == 't';
  }

  /**
   * updateFolder does not look at descendants: moving a folder under its own child is
   * accepted, and afterwards each of the two is the other's parent.
   */
  method ReparentUnderOwnChild() returns (moved: Result<FolderRow, Error>, after: map<string, FolderRow>)
    ensures moved == Success(FolderRow(Some("p"), "top", None, Some("c"), {}))
    ensures "p" in after && "c" in after
    ensures after["p"].parentId == Some("c") && after["c"].parentId == Some("p")
  {
    var folders := new FolderRepository();
    var documents := new DocumentRepository();
    FixtureNamesValid();
    folders.rows := map["p" := FolderRow(Some("p"), "top", None, None, {}),
                        "c" := FolderRow(Some("c"), "sub", None, Some("p"), {})];
    var service := new FolderServiceImpl(folders, documents, s => true);
    var incoming := new FolderEntity();
    incoming.SetParentId(Some("c"));
    moved := service.UpdateFolder("p", incoming);
    after := folders.rows;
  }

  /**
   * updateDocument resolves names only when a name is given: a document moved into a
   * folder that already holds a document of the same name keeps its name there.
   */
  method MoveKeepsDuplicateName() returns (moved: Result<DocumentRow, Error>, after: map<string, DocumentRow>)
    ensures moved.Success?
    ensures "d1" in after && "d2" in after
    ensures after["d1"].folderId == Some("b") && after["d2"].folderId == Some("b")
    ensures after["d1"].name == "x.txt" && after["d2"].name == "x.txt"
  {
    var folders := new FolderRepository();
    var documents := new DocumentRepository();
    var store := new MinioStore();
    FixtureNamesValid();
    folders.rows := map["a" := FolderRow(Some("a"), "a", None, None, {}),
                        "b" := FolderRow(Some("b"), "b", None, None, {})];
    var d1 := DocumentRow(Some("d1"), "x.txt", Some("text/plain"), 0, None, None, None, None, Some("a"));
    var d2 := DocumentRow(Some("d2"), "x.txt", Some("text/plain"), 0, None, None, None, None, Some("b"));
    documents.rows := map["d1" := d1, "d2" := d2];
    var service := new DocumentServiceImpl(documents, folders, store, s => true);
    var incoming := new DocumentEntity();
    incoming.SetFolderId(Some("b"));
    moved := service.UpdateDocument("d1", incoming);
    after := documents.rows;
  }

  /** The strict delete refuses a folder holding a document, reporting the count, and keeps it. */
  method StrictDeleteRefusesNonEmpty() returns (r: Outcome<Error>, after: map<string, FolderRow>)
    ensures r == Fail(Validation(FolderNotEmpty, 1))
    ensures "a" in after
  {
    var folders := new FolderRepository();
    var documents := new DocumentRepository();
    FixtureNamesValid();
    folders.rows := map["a" := FolderRow(Some("a"), "a", None, None, {})];
    var d := DocumentRow(Some("d"), "x.txt", Some("text/plain"), 0, None, None, None, None, Some("a"));
    documents.rows := map["d" := d];
    assert folders.FindByParentId(Some("a")) == {};
    assert documents.FindByFolderId("a") == {d};
    var service := new FolderServiceImpl(folders, documents, s => true);
    r := service.DeleteFolder("a");
    after := folders.rows;
  }
}
