# Document management backend: folders, documents, names, tags and caller roles

This project models the service core of a document-management backend written in Java
with Spring. Users keep documents in a tree of folders:

- a document's metadata is a row in a relational table;
- its payload is an object in a MinIO bucket, stored under the document's id;
- tags are a separate table of unique names;
- a JSON Web Token supplies the caller's identity and roles.

The model covers these parts:

- `NameIncrement` models `NameIncrementHelper`. Its first operation gives a new or renamed
  entity a name that is free among its siblings: `name (k)` with the least free `k`, inserted
  before the extension at the last dot. Its second collects the sibling names.
- `FolderService` models `FolderServiceImpl`: reading a folder's contents, and creating,
  updating and deleting folders. Deletion is the strict variant, which refuses a folder
  that still has children.
- `DocumentService` and `DocumentDto` model `DocumentServiceImpl` and `DocumentEntityDTO`:
  uploading, reading, updating and deleting documents across the table and the bucket.
- `TagService` models `TagServiceImpl`: a tag table whose names are unique.
- `DatabaseInitializer` models the start-up step that creates the root folder.
- `Entities` models `FolderEntity` and `DocumentEntity`. They are classes whose setters
  change fields. Their id-accessors replace the parent or folder reference.
- `UserInformation` models `UserInformationJWT`. It merges roles from three claims,
  removes duplicates and checks a role ignoring case.
- `Repositories` and `ObjectStore` are the state the services work on:
  - each table is a `map` from id to row;
  - the derived queries are functions over that map;
  - the bucket is a `map` from object name to bytes.
- `Scenarios` holds concrete runs. Some are cases from the repository's unit tests. Others
  show behaviour a reader may not expect.

Some inputs are parameters rather than being computed:

- a fresh id (`UUID.randomUUID`);
- the current time (`LocalDateTime.now`);
- the request's context URL, or its absence;
- the caller's token.

UUID well-formedness (`UUID.fromString`) is an opaque predicate `isUuid` held by each service.

Errors are a datatype, `Errors.Error`. An operation that throws returns `Failure(e)` or
`Fail(e)`. Each such member's contract states which error comes first and what a failure
leaves behind. Usually that is no change at all, with two exceptions:

- `CreateDocument` fails with a constraint violation after the payload is already in the
  bucket, because bean validation runs when the transaction flushes;
- `CreateFolder` has already set the argument entity's id, creation date and resolved name when the
  save fails; the tables are unchanged.

Two behaviours of the code are worth noting:

- `updateFolder` and `updateDocument` re-resolve the name only when a new name is given. A
  move without a rename keeps the name, even when the target already holds it.
  `Scenarios.MoveKeepsDuplicateName` shows this.
- `updateFolder` has no cycle check. `Scenarios.ReparentUnderOwnChild` moves a folder under
  its own child.

## Model

| member | source | states |
|---|---|---|
| Errors.ValidateOrThrow | src/main/java/com/ase/dms/helpers/UuidValidator.java:13-21 | passes exactly for a non-null well-formed UUID; otherwise the invalid-UUID error carrying the value (null included) |
| JavaLang.NatToString | src/main/java/com/ase/dms/helpers/NameIncrementHelper.java:27 | the decimal rendering of the counter is non-empty, all digits, and a single digit exactly below 10 |
| JavaLang.NatToStringInjective | src/main/java/com/ase/dms/helpers/NameIncrementHelper.java:26-29 | two counters with the same rendering are equal |
| JavaLang.LastIndexOf | src/main/java/com/ase/dms/helpers/NameIncrementHelper.java:23 | -1 or an index of the character, with no occurrence after it |
| JavaLang.Wrap32 | src/main/java/com/ase/dms/entities/FolderEntity.java:23 | the result is a 32-bit int congruent to the input modulo 2^32, and equal to it when it already fits |
| JavaLang.CodeUnits | src/main/java/com/ase/dms/entities/FolderEntity.java:37 | a char is one UTF-16 code unit, or a high then a low surrogate when it lies outside the Basic Multilingual Plane |
| JavaLang.Utf16Length | src/main/java/com/ase/dms/entities/FolderEntity.java:37 | String.length counts code units: between the number of chars and twice it |
| JavaLang.Utf16LengthIsEncodingLength | src/main/java/com/ase/dms/entities/FolderEntity.java:37 | String.length is the length of the UTF-16 encoding |
| JavaLang.BmpIsOwnUtf16 | src/main/java/com/ase/dms/entities/FolderEntity.java:37 | a string without supplementary chars is its own encoding, so its Java length is its char count |
| JavaLang.SupplementaryIsTwiceAsLong | src/main/java/com/ase/dms/entities/FolderEntity.java:37 | a string made only of supplementary chars has Java length twice its char count |
| JavaLang.SupplementaryCountsTwice | src/main/java/com/ase/dms/entities/FolderEntity.java:37 | one supplementary char has Java length 2 |
| JavaLang.HashUnits | src/main/java/com/ase/dms/entities/FolderEntity.java:23 | the hashCode loop over code units gives a 32-bit int congruent modulo 2^32 to the exact polynomial u[0]*31^(n-1) + ... + u[n-1] |
| JavaLang.StringHashCode | src/main/java/com/ase/dms/entities/FolderEntity.java:23 | String.hashCode is a 32-bit int congruent modulo 2^32 to the polynomial over the string's UTF-16 code units |
| Entities.WideNameTooLong | src/main/java/com/ase/dms/entities/FolderEntity.java:36-37 | a name of 128 supplementary chars is 256 code units long and so fails @Size(max = 255) |
| Entities.IdHashCode | src/main/java/com/ase/dms/entities/FolderEntity.java:23-30 | Lombok's id-only hashCode is a 32-bit int, 59 + 43 for a null id |
| Entities.FolderEntity.constructor | src/main/java/com/ase/dms/entities/FolderEntity.java:60-77 | a new folder has null fields and empty subfolders, documents and study groups |
| Entities.FolderEntity.FromRow | src/main/java/com/ase/dms/entities/FolderEntity.java:45-53 | the loaded entity carries the row's columns, its parent a fresh reference holding only the parent id; its snapshot is the row |
| Entities.FolderEntity.GetParentId | src/main/java/com/ase/dms/entities/FolderEntity.java:81-83 | null without a parent, otherwise the parent's id |
| Entities.FolderEntity.SetParentId | src/main/java/com/ase/dms/entities/FolderEntity.java:88-96 | afterwards getParentId returns the argument (a fresh reference for non-null, no parent for null); no other field changes |
| Entities.FolderEntity.SetId | src/main/java/com/ase/dms/entities/FolderEntity.java:22 | sets the id and nothing else |
| Entities.FolderEntity.SetName | src/main/java/com/ase/dms/entities/FolderEntity.java:22 | sets the name and nothing else |
| Entities.FolderEntity.SetCreatedDate | src/main/java/com/ase/dms/entities/FolderEntity.java:22 | sets the creation date and nothing else |
| Entities.DocumentEntity.constructor | src/main/java/com/ase/dms/entities/DocumentEntity.java:19-38 | a new document has null references and size 0 |
| Entities.DocumentEntity.FromRow | src/main/java/com/ase/dms/entities/DocumentEntity.java:57-63 | the loaded entity carries the row's columns, its folder a fresh reference holding only the folder id; its snapshot is the row |
| Entities.DocumentEntity.GetFolderId | src/main/java/com/ase/dms/entities/DocumentEntity.java:66-68 | null without a folder, otherwise the folder's id |
| Entities.DocumentEntity.SetFolderId | src/main/java/com/ase/dms/entities/DocumentEntity.java:71-78 | afterwards getFolderId returns the argument; no other field changes |
| Entities.DocumentEntity.SetFolder | src/main/java/com/ase/dms/entities/DocumentEntity.java:16 | replaces the folder reference and nothing else |
| Entities.FolderEqualityIsById | src/main/java/com/ase/dms/entities/FolderEntity.java:23-34 | two folders are equal exactly when their ids are; equality is symmetric and equal folders hash alike |
| Entities.DocumentEqualityIsById | src/main/java/com/ase/dms/entities/DocumentEntity.java:17-26 | two documents are equal exactly when their ids are; equality is symmetric and equal documents hash alike |
| NameIncrement.SplitName | src/main/java/com/ase/dms/helpers/NameIncrementHelper.java:23-25 | stem and extension concatenate to the name; with a dot after index 0 the extension starts at the last dot and holds no other, otherwise it is empty |
| NameIncrement.CandidateInjective | src/main/java/com/ase/dms/helpers/NameIncrementHelper.java:27 | different counters give different candidate names |
| NameIncrement.CandidateIsLonger | src/main/java/com/ase/dms/helpers/NameIncrementHelper.java:27 | a candidate is at least four characters longer than the base name, so never equal to it |
| NameIncrement.CandidateNotEarlier | src/main/java/com/ase/dms/helpers/NameIncrementHelper.java:26-29 | the n-th candidate is not among the first n-1 |
| NameIncrement.BaseNotCandidate | src/main/java/com/ase/dms/helpers/NameIncrementHelper.java:26-29 | the base name is never one of its candidates |
| NameIncrement.CandidatesSize | src/main/java/com/ase/dms/helpers/NameIncrementHelper.java:26-29 | the first n candidates are n distinct names, each of them present |
| NameIncrement.CandidatesTaken | src/main/java/com/ase/dms/helpers/NameIncrementHelper.java:26-29 | when the first n candidates are taken they form a subset of the taken names |
| NameIncrement.TakenCandidatesBound | src/main/java/com/ase/dms/helpers/NameIncrementHelper.java:26-29 | if the base and the first n candidates are all taken then n < \|S\|: the do-while loop ends |
| NameIncrement.FirstFreeFrom | src/main/java/com/ase/dms/helpers/NameIncrementHelper.java:26-29 | the least counter from k on whose candidate is free, bounded by \|S\|+1 |
| NameIncrement.IncrementedName | src/main/java/com/ase/dms/helpers/NameIncrementHelper.java:17-31 | the result is never taken; a free base name comes back unchanged; otherwise it is the candidate for the least free k, with 1 <= k <= \|S\| |
| NameIncrement.IncrementedNameIsLeastFree | src/main/java/com/ase/dms/helpers/NameIncrementHelper.java:21-29 | a free candidate k whose predecessors are all taken is the result, so the counter is exactly the least free one |
| NameIncrement.IncrementedNameOrNull | src/main/java/com/ase/dms/helpers/NameIncrementHelper.java:17-20 | a null name comes back null; a non-null result is free; a free name is unchanged |
| NameIncrement.GetIncrementedName | src/main/java/com/ase/dms/helpers/NameIncrementHelper.java:17-31 | the do-while loop returns the least free name `IncrementedName` describes |
| NameIncrement.ResolvedNameShape | src/main/java/com/ase/dms/helpers/NameIncrementHelper.java:27 | a renamed collision is at least four characters longer; a non-blank name stays non-blank |
| NameIncrement.CandidatesContain | src/main/java/com/ase/dms/helpers/NameIncrementHelper.java:26-29 | every counter from 1 to n has its candidate among the first n |
| NameIncrement.UploadedNamesShape | src/test/java/com/ase/dms/services/DocumentServiceImplTest.java:100-135 | after base, base (1) .. base (n-1) the base and every earlier counter are taken and base (n) is free |
| NameIncrement.NextUploadName | src/test/java/com/ase/dms/services/DocumentServiceImplTest.java:100-135 | after base, base (1) .. base (n-1) the next name is base (n) |
| NameIncrement.SequentialCollisions | src/test/java/com/ase/dms/services/DocumentServiceImplTest.java:100-135 | n uploads of one name into an empty folder give base, base (1) .. base (n-1): no gaps |
| NameIncrement.CollectSiblingNames | src/main/java/com/ase/dms/helpers/NameIncrementHelper.java:43-59 | exactly the names of folders with a non-null matching parent and non-null id other than the excluded one, and of documents in the folder other than the excluded one; requires the documents' null checks Java would fail on |
| Repositories.FolderRepository.FindById | src/main/java/com/ase/dms/repositories/FolderRepository.java:8 | the row stored under the id, or nothing when absent |
| Repositories.FolderRepository.ExistsById | src/main/java/com/ase/dms/repositories/FolderRepository.java:8 | true exactly when a row is stored under the id |
| Repositories.FolderRepository.FindByParentId | src/main/java/com/ase/dms/repositories/FolderRepository.java:9 | exactly the stored folders whose parent id equals the argument (null selects the parentless) |
| Repositories.FolderRepository.RootMatches | src/main/java/com/ase/dms/repositories/FolderRepository.java:10 | exactly the parentless stored folders of the name |
| Repositories.FolderRepository.FindByNameAndParentIdIsNull | src/main/java/com/ase/dms/repositories/FolderRepository.java:10 | empty for no match, the single match for one, a non-unique-result failure for several |
| Repositories.FolderRepository.ChildNames | src/main/java/com/ase/dms/services/FolderServiceImpl.java:82-84 | exactly the names of the parent's children with non-null id other than the excluded one; none for a null parent |
| Repositories.FolderRepository.Save | src/main/java/com/ase/dms/entities/FolderEntity.java:36-37 | a null id fails; a null, blank, or over-long name (more than 255 UTF-16 code units) is a constraint violation and stores nothing; otherwise the snapshot is stored under the id |
| Repositories.FolderRepository.DeleteById | src/main/java/com/ase/dms/repositories/FolderRepository.java:8 | removes the id's row; an absent id changes nothing |
| Repositories.DocumentRepository.FindById | src/main/java/com/ase/dms/repositories/DocumentRepository.java:10 | the row stored under the id, or nothing when absent |
| Repositories.DocumentRepository.ExistsById | src/main/java/com/ase/dms/repositories/DocumentRepository.java:10 | true exactly when a row is stored under the id |
| Repositories.DocumentRepository.FindByFolderId | src/main/java/com/ase/dms/repositories/DocumentRepository.java:15-16 | exactly the stored documents whose folder id is the argument |
| Repositories.DocumentRepository.DocumentNames | src/main/java/com/ase/dms/services/DocumentServiceImpl.java:45-46 | exactly the names of the folder's documents other than the excluded id |
| Repositories.DocumentRepository.Save | src/main/java/com/ase/dms/entities/DocumentEntity.java:28-35 | succeeds exactly for an id, a valid name (1 to 255 UTF-16 code units, not blank) and a non-blank type, storing the snapshot under the id; otherwise the table is unchanged |
| Repositories.DocumentRepository.DeleteById | src/main/java/com/ase/dms/repositories/DocumentRepository.java:10 | removes the id's row; an absent id changes nothing |
| Repositories.TagRepository.ExistsByName | src/main/java/com/ase/dms/repositories/TagRepository.java:7 | true exactly when some stored tag has the name |
| Repositories.TagRepository.ExistsById | src/main/java/com/ase/dms/repositories/TagRepository.java:6 | true exactly when a tag is stored under the id |
| Repositories.TagRepository.FindById | src/main/java/com/ase/dms/repositories/TagRepository.java:6 | the tag stored under the id, or nothing when absent |
| Repositories.TagRepository.FindAll | src/main/java/com/ase/dms/repositories/TagRepository.java:6 | exactly the stored tags |
| Repositories.TagRepository.Save | src/main/java/com/ase/dms/repositories/TagRepository.java:6 | a tag without uuid gets the generated one, a tag with one keeps it; the tag is stored under its uuid |
| Repositories.TagRepository.DeleteById | src/main/java/com/ase/dms/repositories/TagRepository.java:6 | removes the id's row; an absent id changes nothing |
| ObjectStore.MinioStore.GetObjectData | src/main/java/com/ase/dms/services/MinIOServiceImpl.java:34-71 | the stored bytes when the object exists, otherwise the get-object failure naming it |
| ObjectStore.MinioStore.SetObject | src/main/java/com/ase/dms/services/MinIOServiceImpl.java:108-147 | on success the object holds exactly the bytes; on failure the bucket is unchanged and the set-object error names it |
| ObjectStore.MinioStore.DeleteObject | src/main/java/com/ase/dms/services/MinIOServiceImpl.java:74-105 | on success the object is gone; on failure the bucket is unchanged and the delete-object error names it |
| DocumentDto.DocumentEntityDto.GetData | src/main/java/com/ase/dms/dtos/DocumentEntityDTO.java:17-22 | no id fails; otherwise the bytes stored under the id, or the get failure |
| DocumentDto.DocumentEntityDto.SetData | src/main/java/com/ase/dms/dtos/DocumentEntityDTO.java:24-30 | no id fails and writes nothing; a failed write leaves bucket and size unchanged; a successful one stores the bytes under the id and sets size to their length; no other field changes |
| DocumentDto.SetThenGet | src/main/java/com/ase/dms/dtos/DocumentEntityDTO.java:17-30 | after a successful setData, getData returns the same bytes and size is their length |
| FolderService.FolderSiblingNames | src/main/java/com/ase/dms/services/FolderServiceImpl.java:82-84 | collectSiblingNames over findByParentId yields exactly ChildNames |
| FolderService.FolderServiceImpl.GetFolderContents | src/main/java/com/ase/dms/services/FolderServiceImpl.java:49-65 | "root" gives the unique parentless root or fails when there is none (or several); other ids fail as invalid or missing in that order; the contents are exactly the folder's child folders and documents |
| FolderService.FolderServiceImpl.ResolveName | src/main/java/com/ase/dms/services/FolderServiceImpl.java:82-86 | the requested name made free among the parent's other children |
| FolderService.FolderServiceImpl.CreateFolder | src/main/java/com/ase/dms/services/FolderServiceImpl.java:74-88 | an invalid or missing parent fails with nothing changed; otherwise the entity gets the fresh id, the time and the least free name; it is stored exactly when that name is valid, and the stored name is not among the parent's other children |
| FolderService.FolderServiceImpl.UpdateFolder | src/main/java/com/ase/dms/services/FolderServiceImpl.java:98-118 | invalid or missing id, then invalid or missing new parent, fail with nothing changed; otherwise the parent is replaced, a given name is made free among the target parent's other children, other fields keep their stored values |
| FolderService.FolderServiceImpl.MoveAndRename | src/main/java/com/ase/dms/services/FolderServiceImpl.java:103-117 | a new parent must be well-formed and exist, else nothing changes; the stored row gets the new parent (or keeps its own) and the given name made free among that parent's other children (or keeps its own) |
| FolderService.FolderServiceImpl.DeleteFolder | src/main/java/com/ase/dms/services/FolderServiceImpl.java:127-147 | checks in order: valid id, existing folder, no subfolders (with the count), no documents (with the count); only a folder passing all is removed, and nothing else changes |
| DocumentService.DownloadUrl | src/main/java/com/ase/dms/services/DocumentServiceImpl.java:55-70 | the context URL plus /v1/documents/{id}/download, or /dms/v1/documents/{id}/download without a request |
| DocumentService.DocumentSiblingNames | src/main/java/com/ase/dms/services/DocumentServiceImpl.java:45-46 | collectSiblingNames over the folder's documents never hits a null and yields exactly DocumentNames |
| DocumentService.DocumentServiceImpl.ResolveName | src/main/java/com/ase/dms/services/DocumentServiceImpl.java:45-48 | the requested name made free among the folder's other documents |
| DocumentService.DocumentServiceImpl.NewDocument | src/main/java/com/ase/dms/services/DocumentServiceImpl.java:41-72 | the new entity carries the id, folder, name, type, size, owner, date, URL and data createDocument assigns |
| DocumentService.DocumentServiceImpl.StoreAndSave | src/main/java/com/ase/dms/services/DocumentServiceImpl.java:75-79 | a failed payload write is an upload failure with nothing changed; otherwise the payload is stored under the id, size is its length, and the row is saved exactly when valid |
| DocumentService.DocumentServiceImpl.CreateDocument | src/main/java/com/ase/dms/services/DocumentServiceImpl.java:34-84 | invalid or missing folder fail as such, before the upload block; any failure but a constraint violation leaves both stores unchanged; a saved row has the fresh id, the folder, the least free name, the payload length as size and the URL, and its payload is in the bucket |
| DocumentService.DocumentServiceImpl.GetDocument | src/main/java/com/ase/dms/services/DocumentServiceImpl.java:87-91 | invalid id, then missing document, fail; otherwise the stored row |
| DocumentService.DocumentServiceImpl.UpdateName | src/main/java/com/ase/dms/services/DocumentServiceImpl.java:100-110 | no name keeps the old one; otherwise the target folder (requested, else current) must exist and the result is free among its other documents |
| DocumentService.DocumentServiceImpl.UpdateDocument | src/main/java/com/ase/dms/services/DocumentServiceImpl.java:95-123 | invalid or missing id, then the name's target folder, then a missing requested folder, fail with nothing changed; otherwise name, type and folder change only as given and the row is stored exactly when valid |
| DocumentService.DocumentServiceImpl.ApplyUpdate | src/main/java/com/ase/dms/services/DocumentServiceImpl.java:112-122 | the type is replaced only when given, the folder only when given and existing, then the row is saved |
| DocumentService.DocumentServiceImpl.DeleteDocument | src/main/java/com/ase/dms/services/DocumentServiceImpl.java:127-139 | invalid or missing id fail with nothing changed; the payload is deleted first, and the row is deleted exactly when that succeeded |
| TagService.TagEntity.SetUuid | src/main/java/com/ase/dms/services/TagServiceImpl.java:34 | sets the uuid and keeps the name |
| TagService.TagServiceImpl.CreateTag | src/main/java/com/ase/dms/services/TagServiceImpl.java:19-24 | a name in use is a conflict with nothing stored; otherwise exactly one tag with that name is added under the generated id; unique names stay unique |
| TagService.TagServiceImpl.UpdateTag | src/main/java/com/ase/dms/services/TagServiceImpl.java:27-36 | an unknown id is not-found, a name in use (its own included) a conflict, with nothing changed; otherwise only that id's tag changes, to the new name; unique names stay unique |
| TagService.TagServiceImpl.DeleteTag | src/main/java/com/ase/dms/services/TagServiceImpl.java:39-41 | removes the id's tag without an existence check; unique names stay unique |
| TagService.TagServiceImpl.GetTag | src/main/java/com/ase/dms/services/TagServiceImpl.java:44-46 | the stored tag, or the tag-not-found error carrying the id |
| TagService.TagServiceImpl.GetAllTags | src/main/java/com/ase/dms/services/TagServiceImpl.java:49-51 | exactly the stored tags |
| DatabaseInitializer.DatabaseInitializer.CreateRootFolderIfNotExists | src/main/java/com/ase/dms/components/DatabaseInitializer.java:21-31 | with no root stores one (fresh id, "root", no parent, now); with one changes nothing; with several fails; after success exactly one root exists |
| DatabaseInitializer.RootAfterInsert | src/main/java/com/ase/dms/components/DatabaseInitializer.java:24-29 | inserting the root into a table without one leaves exactly that root |
| DatabaseInitializer.InitializeTwice | src/main/java/com/ase/dms/components/DatabaseInitializer.java:22-30 | a second run after a successful first one succeeds and still leaves exactly one root |
| UserInformation.Groups | src/main/java/com/ase/dms/security/UserInformationJWT.java:91-94 | no groups claim contributes nothing; a list claim contributes its entries |
| UserInformation.RealmRoles | src/main/java/com/ase/dms/security/UserInformationJWT.java:97-108 | contributes only when realm_access is an object; a roles list inside it is contributed as is, and no roles list contributes nothing |
| UserInformation.AccountRoles | src/main/java/com/ase/dms/security/UserInformationJWT.java:110-125 | contributes only when resource_access is an object; the account object's roles list is contributed as is, and no account object contributes nothing |
| UserInformation.Distinct | src/main/java/com/ase/dms/security/UserInformationJWT.java:128 | the same elements, none twice, in the order of their first occurrences |
| UserInformation.DistinctSnoc | src/main/java/com/ase/dms/security/UserInformationJWT.java:128 | one more element is appended exactly when not seen before |
| UserInformation.DistinctOfDistinct | src/main/java/com/ase/dms/security/UserInformationJWT.java:128 | a list without duplicates is unchanged |
| UserInformation.DistinctOfSeen | src/main/java/com/ase/dms/security/UserInformationJWT.java:128 | entries already seen add nothing |
| UserInformation.DistinctOfFresh | src/main/java/com/ase/dms/security/UserInformationJWT.java:128 | new distinct entries are appended as they are |
| UserInformation.Roles | src/main/java/com/ase/dms/security/UserInformationJWT.java:81-129 | no token gives none; otherwise exactly the entries of the three sources, without duplicates |
| UserInformation.GetRoles | src/main/java/com/ase/dms/security/UserInformationJWT.java:81-129 | the ArrayList built by addAll and distinct is `Roles`, in first-occurrence order |
| UserInformation.HasRole | src/main/java/com/ase/dms/security/UserInformationJWT.java:138-146 | false for a null role or no token; otherwise true exactly when some source entry equals the role ignoring case |
| UserInformation.HasRoleByWitness | src/main/java/com/ase/dms/security/UserInformationJWT.java:143-145 | one role of the caller that equals the requested role ignoring case is enough for a match |
| UserInformation.NoRoleOfSameLength | src/main/java/com/ase/dms/security/UserInformationJWT.java:143-145 | a requested role whose length differs from every role of the caller never matches |
| UserInformation.GetUserId | src/main/java/com/ase/dms/security/UserInformationJWT.java:36-39 | the token's subject, null without a token |
| UserInformation.IsAuthenticated | src/main/java/com/ase/dms/security/UserInformationJWT.java:173-175 | true exactly when a token is present |
| UserInformation.AnonymousCaller | src/test/java/com/ase/dms/security/UserInformationJWTTest.java:192-209 | without a token: no roles, no user id, not authenticated, no role matches |
| UserInformation.MalformedSourcesContributeNothing | src/main/java/com/ase/dms/security/UserInformationJWT.java:97-125 | absent or wrongly shaped sources give no roles |
| UserInformation.KeycloakListsDistinct | src/test/java/com/ase/dms/security/UserInformationJWTTest.java:38-66 | the test token's group and account lists have no duplicates and no entries in common |
| UserInformation.KeycloakTokenRoles | src/test/java/com/ase/dms/security/UserInformationJWTTest.java:121-136 | the test token's roles are its five groups then its three account roles: eight, realm roles adding nothing |
| UserInformation.KeycloakTokenHasRole | src/test/java/com/ase/dms/security/UserInformationJWTTest.java:157-162 | "LECTURER" and "Manage-Account" match ignoring case |
| UserInformation.KeycloakTokenLacksRole | src/test/java/com/ase/dms/security/UserInformationJWTTest.java:164-168 | "admin" and "superuser" match nothing |
| Scenarios.ConflictResolvesToNextCounter | src/test/java/com/ase/dms/helpers/NameIncrementHelperTest.java:23-28 | {file, file (1), file (2)} resolves "file" to "file (3)" |
| Scenarios.LeadingDotIsPartOfStem | src/main/java/com/ase/dms/helpers/NameIncrementHelper.java:23-25 | ".cfg" becomes ".cfg (1)" |
| Scenarios.LastDotSeparatesExtension | src/main/java/com/ase/dms/helpers/NameIncrementHelper.java:23-25 | "report.final.pdf" becomes "report.final (1).pdf" |
| Scenarios.CounterIsAppendedNotIncremented | src/test/java/com/ase/dms/services/DocumentServiceImplTest.java:138-169 | "update (1).txt" becomes "update (1) (1).txt" |
| Scenarios.ReparentUnderOwnChild | src/main/java/com/ase/dms/services/FolderServiceImpl.java:103-108 | moving a folder under its own child succeeds, leaving each the other's parent |
| Scenarios.MoveKeepsDuplicateName | src/main/java/com/ase/dms/services/DocumentServiceImpl.java:100-120 | moving a document without a new name into a folder holding its name succeeds with two documents of that name there |
| Scenarios.StrictDeleteRefusesNonEmpty | src/main/java/com/ase/dms/services/FolderServiceImpl.java:139-143 | deleting a folder holding one document fails with the not-empty error and count 1, and the folder stays |

## Left out

- HTTP layer: the controllers, the exception handler and its mapping of errors to HTTP status codes, and the configuration classes. These do routing and wiring. The model keeps error kinds only.
- MinIO client I/O, the stream copy and `calculatePartSize` (floating point). The bucket is a map whose put and delete may fail for reasons outside the program.
- ObjectStore.MinioStore.GetObjectData: a read fails only when the object is absent. A transport failure while reading an existing object is not modelled.
- `UUID.fromString`, `UUID.randomUUID`, `LocalDateTime.now` and the servlet request context are foreign or ambient. They become the `isUuid` predicate and method parameters.
- The security context lookup of the token is ambient state. The token is an optional argument instead.
- `@Transactional` boundaries and concurrency: each operation is one atomic step. Name-collision races between concurrent requests are not modelled.
- Cascading delete through `CascadeType.REMOVE` is a persistence concern. The service implements the strict delete, which is what is modelled.
- Cycle prevention on reparenting does not exist in the code. The model does not claim the folder tree stays acyclic.
- Visibility filtering by study group: the code has none in these operations. `studyGroupIds` is only carried along.
- Document tag binding, PDF conversion and the three-argument upload are called by the controller but are not part of the service. TagEntity.java is not part of this model, so a tag is its uuid and name.
- `getEmail`, `getUsername`, `getFirstName`, `getLastName`, `getClaim` and `getClaimAsString` are plain claim reads with no logic. They are not modelled.
- Lists returned by repositories are sets in the model. Their order is not modelled.
- The `DocumentEntityDTO` that `updateDocument` constructs and never uses is left out.
- The `long` size and the `int` counter are unbounded integers. The counter never exceeds the sibling count plus one.
- Groups: a `groups` claim that is a JSON object contributes nothing in the model. Spring's claim conversion would contribute its string form.
- HasRole: compares ignoring case with ASCII case mapping only. Java's `equalsIgnoreCase` also folds non-ASCII letters.
- CreateDocument: a constraint violation of the new row is reported as a constraint violation, not an upload failure. Bean validation runs when the transaction flushes, after the method's try block. The payload is already in the bucket by then.
- CreateFolder: requires that the entity is not its own parent object. A request entity gets its parent only through `setParentId`, which always makes a fresh object.
- NameIncrement.CollectSiblingNames: requires that every document has a folder, and an id when it is in the folder. Java would throw a `NullPointerException` otherwise. Documents read from a folder's collection always satisfy this.
- Repositories.TagRepository.ExistsByName: tag names are non-null strings. A null tag name is not modelled.
- Reading a folder's documents through the lazy `folder.getDocuments()` collection is modelled as the document-table query for that folder id.
