# Medical-Consultation backend core in Dafny

This project models the core of the clinic backend. It keeps patients, their consultations and the files attached to
consultations. The model follows the services and repositories of the C# source.

- **Consultation lifecycle** (`Consultations`, `consultation_service.dfy`).
  - `ConsultationService` is a class over an in-memory database and a blob store.
  - `CreateConsultation` does its checks in the source's order: first the patient must exist, then the date must parse.
    On either failure nothing is stored.
  - Otherwise the row is stored as `Pending` with the parsed date. Then each file is saved in turn, and a file whose
    save fails is skipped. The rows of the saved files are added in one update.
  - The per-file attachment loop is a `for` loop with invariants. Its specification is the recursive function
    `Collected` over the per-file outcomes.
  - `UpdateStatus` is the three-label check: a missing key wins over a bad label, and any label may move to any label.
- **Store semantics** (`Schema`, `ConsultationRepo`, `PatientRepo`).
  - The EF model is a `Database` class holding a `Tables` value: maps from keys to patients, consultations and
    attachment rows, plus a fresh-key counter.
  - `Consistent` states the EF configuration:
    - every key agrees with its row's id and lies below the counter;
    - every foreign key resolves;
    - e-mail and phone are unique.
  - Deletes cascade from patient to consultations to attachments.
  - The repositories are classes over the database. Listings are specified as sorted permutations: consultations are
    ordered by date descending then time ascending, and patients by name.
- **File rules** (`Blobs`, `Files`, `FilesApi`).
  - The blob store is a set of (container, name) pairs.
  - Upload validation: a non-empty file of at most 10 MiB, with an extension from a case-insensitive allow-list.
  - Sanitising a blob name replaces nine characters with `_`.
  - The extension to MIME lookup, and the exists-before-download rule.
- **Mapping** (`Mapping`).
  - The declared AutoMapper projections: the forced `Pending` status, the `yyyy-MM-dd` date text, the attachment field
    renames, and the patient form copy.
  - The entity annotations (required, max length, range, e-mail shape) are `Valid` predicates on the entity datatypes; a max length counts UTF-16 code units, as `string.Length` and an `nvarchar(n)` column do
    in `Entities`. They are declared but not checked by the services, so nothing enforces them.

Abstractions:
- A Guid key is a natural number drawn from the counter, and `Guid.Empty` is 0.
- `DateTime.UtcNow` is a `now` parameter, read once per call.
- Each Guid that names a blob is a string parameter.
- Whether getting or creating a container succeeds, whether a blob transfer succeeds, whether a blob call throws,
  and whether a download succeeds are boolean parameters.
- The model's `Dates.Parse` accepts exactly the `yyyy-MM-dd` text that the front end sends and the DTO mapping prints.
  It is proved to round-trip with `Dates.Format` in both directions.

## Model

| member | source | states |
|---|---|---|
| Text.ToLower | Backend/MedicalConsultation.Service/Service/FileService.cs:40 | ToLowerInvariant keeps the length, leaves no upper-case letter and keeps every other character in place |
| Text.ToLowerIdempotent | Backend/MedicalConsultation.API/Controllers/FilesController.cs:61 | lower-casing twice is lower-casing once |
| Text.GetExtension | Backend/MedicalConsultation.Service/Service/FileService.cs:40 | Path.GetExtension gives either "" or a suffix that starts at the last '.', with no separator after that dot and the dot not last; and whenever such a dot exists, the result is exactly the suffix from it |
| Text.ExtensionOfLower | Backend/MedicalConsultation.Service/Service/FileService.cs:40 | taking the extension commutes with lower-casing, so the file-name case cannot change the extension check |
| Text.LessEqTotal | Backend/MedicalConsultation.Repository/Repository/PatientRepository.cs:19-21 | the ordinal string order used for names and times compares any two strings |
| Text.LessEqTransitive | Backend/MedicalConsultation.Repository/Repository/ConsultationRepository.cs:23 | the ordinal string order is transitive |
| Text.LessEqAntisymmetric | Backend/MedicalConsultation.Repository/Repository/ConsultationRepository.cs:23 | two strings ordered both ways are equal |
| Dates.Format | Backend/MedicalConsultation.Service/Profiles/MappingProfile.cs:19 | a date rendered yyyy-MM-dd is 10 characters with '-' at positions 4 and 7 and digits elsewhere |
| Dates.Parse | Backend/MedicalConsultation.Service/Service/ConsultationService.cs:59 | only yyyy-MM-dd shaped text parses, and only to a valid calendar date |
| Dates.ParseFormat | Backend/MedicalConsultation.Service/Profiles/MappingProfile.cs:19 | parsing a rendered date gives the date back |
| Dates.FormatParse | Backend/MedicalConsultation.Service/Service/ConsultationService.cs:59-62 | rendering a parsed date gives the accepted text back |
| Dates.BeforeIsStrictTotalOrder | Backend/MedicalConsultation.Repository/Repository/ConsultationRepository.cs:22 | the date order is irreflexive, total and transitive |
| Entities.IsStatus | Backend/MedicalConsultation.Service/Service/ConsultationService.cs:120-123 | the three labels Pending, Completed and Canceled, compared case-sensitively |
| Entities.Utf16Length | Backend/MedicalConsultation.Model/Entities/Patient.cs:10 | the length MaxLength measures is the string's UTF-16 code units, between one and two per character |
| Entities.LengthInBasicPlane | Backend/MedicalConsultation.Model/Entities/Patient.cs:10 | the code-unit length equals the character count exactly when no character lies outside the Basic Multilingual Plane |
| Entities.LengthOutsideBasicPlane | Backend/MedicalConsultation.Model/Entities/Patient.cs:10 | characters outside the Basic Multilingual Plane count two each, so 51 of them exceed MaxLength(100) |
| Entities.Patient.Valid | Backend/MedicalConsultation.Model/Entities/Patient.cs:9-35 | the Required, MaxLength (in UTF-16 code units), Range and EmailAddress annotations of Patient |
| Entities.Consultation.Valid | Backend/MedicalConsultation.Model/Entities/Consultation.cs:9-25 | the Required and MaxLength (in UTF-16 code units) annotations of Consultation's Time, Status and Notes |
| Entities.Attachment.Valid | Backend/MedicalConsultation.Model/Entities/ConsultationAttachment.cs:9-22 | the Required and MaxLength (in UTF-16 code units) annotations of FileName, FilePath and ContentType |
| Entities.NewConsultation | Backend/MedicalConsultation.Model/Entities/Consultation.cs:19-31 | a new Consultation has status Pending, one of the three labels, and no UpdatedAt |
| Sorting.InsertBy | Backend/MedicalConsultation.Repository/Repository/ConsultationRepository.cs:22-23 | inserting into a sorted list keeps it sorted and adds exactly the new element |
| Sorting.SortBy | Backend/MedicalConsultation.Repository/Repository/ConsultationRepository.cs:22-23 | ordering a query's rows gives a sorted permutation of them |
| Sorting.PermutationNoDuplicates | Backend/MedicalConsultation.Repository/Repository/ConsultationRepository.cs:19-24 | reordering a list without repeats cannot create one |
| Schema.Consistent | Backend/MedicalConsultation.Repository/Data/MedicalConsultationContext.cs:24-54 | primary keys, the two foreign keys and the unique e-mail and phone indexes |
| Schema.SavePatient | Backend/MedicalConsultation.Repository/Repository/PatientRepository.cs:36-37 | adding or replacing a patient that clashes with no other's e-mail or phone keeps the store consistent and changes only that key |
| Schema.SaveConsultation | Backend/MedicalConsultation.Repository/Repository/ConsultationRepository.cs:51-52 | storing a consultation whose patient exists keeps the store consistent and changes only that key |
| Schema.DeletePatient | Backend/MedicalConsultation.Repository/Data/MedicalConsultationContext.cs:38-54 | deleting a patient removes exactly the patient, the consultations with its PatientId and their attachments, and the store stays consistent |
| Schema.DeleteConsultation | Backend/MedicalConsultation.Repository/Data/MedicalConsultationContext.cs:51-54 | deleting a consultation removes exactly it and its attachments |
| Schema.AddAttachments | Backend/MedicalConsultation.Service/Service/ConsultationService.cs:97-98 | the i-th added attachment row is stored under the fresh key nextId + i, and every other row is kept |
| Schema.AddAttachmentsConsistent | Backend/MedicalConsultation.Repository/Data/MedicalConsultationContext.cs:51-54 | rows added for stored consultations keep every foreign key resolving |
| Schema.AttachmentsOf | Backend/MedicalConsultation.Model/Entities/Consultation.cs:31 | a consultation's Attachments collection holds stored rows of that consultation, in key order |
| Schema.AttachmentsOfComplete | Backend/MedicalConsultation.Repository/Data/MedicalConsultationContext.cs:51-53 | every stored row of a consultation is in its Attachments collection |
| Schema.AttachmentsOfUnusedKey | Backend/MedicalConsultation.Model/Entities/Consultation.cs:31 | a consultation that is not stored yet has an empty Attachments collection |
| Schema.AttachmentsOfAfterAdd | Backend/MedicalConsultation.Service/Service/ConsultationService.cs:97-98 | after rows are added, the collection is the old one followed by the added rows with their new keys |
| Schema.IdsBelow | Backend/MedicalConsultation.Repository/Repository/ConsultationRepository.cs:19 | the stored keys below the counter, ascending and each once |
| Schema.InKeyOrderExact | Backend/MedicalConsultation.Repository/Repository/ConsultationRepository.cs:19 | enumerating a table yields each stored row exactly once |
| Schema.Seed | Backend/MedicalConsultation.Repository/Data/MedicalConsultationContext.cs:61-127 | the three seeded patients and the two seeded consultations |
| Schema.SeedIsConsistent | Backend/MedicalConsultation.Repository/Data/MedicalConsultationContext.cs:67-127 | the seed data satisfies the key, foreign-key and unique-contact rules |
| Schema.SeedContactsDiffer | Backend/MedicalConsultation.Repository/Data/MedicalConsultationContext.cs:27-28 | the three seeded patients have pairwise different e-mails and phones |
| Schema.SeedRowsValid | Backend/MedicalConsultation.Repository/Data/MedicalConsultationContext.cs:67-127 | every seeded row meets its entity's annotations, and both seeded statuses are allowed labels |
| Schema.SeedPatient1Valid | Backend/MedicalConsultation.Repository/Data/MedicalConsultationContext.cs:68-79 | the first seeded patient meets the Patient annotations |
| Schema.SeedPatient2Valid | Backend/MedicalConsultation.Repository/Data/MedicalConsultationContext.cs:80-91 | the second seeded patient meets the Patient annotations |
| Schema.SeedPatient3Valid | Backend/MedicalConsultation.Repository/Data/MedicalConsultationContext.cs:92-103 | the third seeded patient meets the Patient annotations |
| Schema.EmailWithSingleAt | Backend/MedicalConsultation.Model/Entities/Patient.cs:24-27 | text with exactly one '@', neither first nor last, and no line break passes the EmailAddress check |
| Schema.Database.Seeded | Backend/MedicalConsultation.Repository/Data/MedicalConsultationContext.cs:57-58 | a freshly created database holds the seed data and is consistent |
| Schema.Database.Commit | Backend/MedicalConsultation.Repository/Repository/ConsultationRepository.cs:52 | SaveChanges stores a consistent state as given |
| Schema.Database.FreshId | Backend/MedicalConsultation.Repository/Repository/ConsultationRepository.cs:48 | Guid.NewGuid gives a key used by no table and changes nothing else |
| ConsultationRepo.ListedNoLaterThan | Backend/MedicalConsultation.Repository/Repository/ConsultationRepository.cs:22-23 | the later date first and, on the same date, the earlier time first |
| ConsultationRepo.ListingOrderIsTotalPreorder | Backend/MedicalConsultation.Repository/Repository/ConsultationRepository.cs:22-23 | "date descending, then time ascending" is a total preorder, so it can sort |
| ConsultationRepo.RowsExact | Backend/MedicalConsultation.Repository/Repository/ConsultationRepository.cs:19 | the table's rows, each stored consultation once |
| ConsultationRepo.OfPatient | Backend/MedicalConsultation.Repository/Repository/ConsultationRepository.cs:40 | the filter keeps exactly the rows with that PatientId |
| ConsultationRepo.Listing | Backend/MedicalConsultation.Repository/Repository/ConsultationRepository.cs:19-24 | the listing is sorted by date descending then time, and is a permutation of the rows |
| ConsultationRepo.PatientListing | Backend/MedicalConsultation.Repository/Repository/ConsultationRepository.cs:37-43 | the patient listing is sorted the same way and is a permutation of that patient's rows |
| ConsultationRepo.ListingHoldsEachRowOnce | Backend/MedicalConsultation.Repository/Repository/ConsultationRepository.cs:19-24 | the listing holds every stored consultation exactly once and nothing else |
| ConsultationRepo.PatientListingHoldsItsRowsOnce | Backend/MedicalConsultation.Repository/Repository/ConsultationRepository.cs:37-43 | the patient listing holds exactly that patient's consultations, each once |
| ConsultationRepo.ConsultationRepository.constructor | Backend/MedicalConsultation.Repository/Repository/ConsultationRepository.cs:12-15 | the repository works on the given database |
| ConsultationRepo.ConsultationRepository.GetAll | Backend/MedicalConsultation.Repository/Repository/ConsultationRepository.cs:17-25 | GetAllAsync is the sorted permutation of the stored rows |
| ConsultationRepo.ConsultationRepository.GetById | Backend/MedicalConsultation.Repository/Repository/ConsultationRepository.cs:27-33 | the row under the key, or None when there is none |
| ConsultationRepo.ConsultationRepository.GetByPatientId | Backend/MedicalConsultation.Repository/Repository/ConsultationRepository.cs:35-44 | the patient's rows, sorted like the full listing |
| ConsultationRepo.ConsultationRepository.Create | Backend/MedicalConsultation.Repository/Repository/ConsultationRepository.cs:46-55 | a row for a missing patient is refused with nothing changed; otherwise it gets a fresh key and CreatedAt, is retrievable by that key, and has no attachments yet |
| ConsultationRepo.ConsultationRepository.Update | Backend/MedicalConsultation.Repository/Repository/ConsultationRepository.cs:57-64 | UpdatedAt is set and the row's fields are persisted; new attachment rows get fresh keys and are appended to its collection |
| ConsultationRepo.ConsultationRepository.Delete | Backend/MedicalConsultation.Repository/Repository/ConsultationRepository.cs:66-75 | false with no change for an absent key; otherwise true, and the row is deleted with the cascade |
| PatientRepo.NameNoLaterThan | Backend/MedicalConsultation.Repository/Repository/PatientRepository.cs:21 | ordering by Name |
| PatientRepo.NameOrderIsTotalPreorder | Backend/MedicalConsultation.Repository/Repository/PatientRepository.cs:19-21 | ordering by Name is a total preorder |
| PatientRepo.Listing | Backend/MedicalConsultation.Repository/Repository/PatientRepository.cs:19-21 | the patients, sorted by name, as a permutation of the table |
| PatientRepo.ListingHoldsEachPatientOnce | Backend/MedicalConsultation.Repository/Repository/PatientRepository.cs:19-21 | the listing holds every stored patient exactly once and nothing else |
| PatientRepo.PatientRepository.constructor | Backend/MedicalConsultation.Repository/Repository/PatientRepository.cs:12-15 | the repository works on the given database |
| PatientRepo.PatientRepository.GetAll | Backend/MedicalConsultation.Repository/Repository/PatientRepository.cs:17-22 | GetAllAsync is the name-sorted permutation of the patients |
| PatientRepo.PatientRepository.GetById | Backend/MedicalConsultation.Repository/Repository/PatientRepository.cs:24-29 | the patient under the key, or None when there is none |
| PatientRepo.PatientRepository.Exists | Backend/MedicalConsultation.Repository/Repository/PatientRepository.cs:60-63 | ExistsAsync is true iff a patient has that key |
| PatientRepo.PatientRepository.Create | Backend/MedicalConsultation.Repository/Repository/PatientRepository.cs:31-39 | a patient that clashes on e-mail or phone is refused with nothing changed; otherwise it gets a fresh key and CreatedAt and is retrievable |
| PatientRepo.PatientRepository.Update | Backend/MedicalConsultation.Repository/Repository/PatientRepository.cs:41-47 | UpdatedAt is set and the fields are persisted, unless they clash with another patient |
| PatientRepo.PatientRepository.Delete | Backend/MedicalConsultation.Repository/Repository/PatientRepository.cs:49-58 | false with no change for an absent key; otherwise true, and the patient is deleted with the cascade |
| Blobs.Replace | Backend/MedicalConsultation.Service/Service/AzureBlobStorageService.cs:143 | string.Replace changes every occurrence of one character and nothing else |
| Blobs.ReplaceEachPointwise | Backend/MedicalConsultation.Service/Service/AzureBlobStorageService.cs:141-144 | the replacement loop maps each character independently |
| Blobs.SanitizeFileName | Backend/MedicalConsultation.Service/Service/AzureBlobStorageService.cs:136-147 | the length is kept, each of the nine characters becomes '_', every other character stays in place, and none of the nine remains |
| Blobs.SanitizeIsIdempotent | Backend/MedicalConsultation.Service/Service/AzureBlobStorageService.cs:136-147 | sanitising a sanitised name changes nothing |
| Blobs.SanitizedHasNoSlash | Backend/MedicalConsultation.Service/Service/AzureBlobStorageService.cs:34 | a stored blob name contains no '/' |
| Blobs.BlobName | Backend/MedicalConsultation.Service/Service/AzureBlobStorageService.cs:31-34 | the given name, else guid_FileName, sanitised |
| Blobs.UploadOutcome | Backend/MedicalConsultation.Service/Service/AzureBlobStorageService.cs:24-53 | an empty file is refused first, then a failed container request; otherwise the upload succeeds iff the transfer does, returning the given or guid_FileName name sanitised |
| Blobs.BlobStorage.constructor | Backend/MedicalConsultation.Service/Service/AzureBlobStorageService.cs:14-18 | the store starts from the containers and blobs the account already holds |
| Blobs.BlobStorage.UploadFile | Backend/MedicalConsultation.Service/Service/AzureBlobStorageService.cs:20-60 | an empty file or a failed container request touches nothing; otherwise the container exists afterwards, and exactly the returned blob is added iff the upload succeeded |
| Blobs.BlobStorage.DeleteFile | Backend/MedicalConsultation.Service/Service/AzureBlobStorageService.cs:62-83 | true iff the store was reachable and held the blob, which is then gone; a failing call is false and changes nothing |
| Blobs.BlobStorage.FileExists | Backend/MedicalConsultation.Service/Service/AzureBlobStorageService.cs:109-124 | true iff the store is reachable and holds the blob; a failing call is false |
| Files.CheckFile | Backend/MedicalConsultation.Service/Service/FileService.cs:30-43 | a file passes iff 0 < length <= 10 MiB and its lower-cased extension is allowed; empty is reported before too large |
| Files.SizeLimitIsInclusive | Backend/MedicalConsultation.Service/Service/FileService.cs:34-36 | exactly 10 MiB with an allowed name passes, one byte more is TooLarge |
| Files.NoExtensionIsRefused | Backend/MedicalConsultation.Service/Service/FileService.cs:39-43 | a non-empty file of allowed size whose name has no extension is refused as type "" |
| Files.CheckIgnoresCase | Backend/MedicalConsultation.Service/Service/FileService.cs:40 | lower-casing the file name does not change the verdict |
| Files.UniqueFileName | Backend/MedicalConsultation.Service/Service/FileService.cs:46 | folder/guid_FileName |
| Files.SaveOutcome | Backend/MedicalConsultation.Service/Service/FileService.cs:26-60 | a failed check is reported as such; otherwise the save succeeds iff both the container request and the transfer do, returning sanitised folder/guid_FileName, which has no '/' |
| Files.FileService.constructor | Backend/MedicalConsultation.Service/Service/FileService.cs:16-24 | the service works on the given blob store |
| Files.FileService.SaveFile | Backend/MedicalConsultation.Service/Service/FileService.cs:26-60 | the result is SaveOutcome; a refused file leaves the store unchanged; the container is created iff the checks pass and the container request succeeds; exactly the returned blob is added on success |
| Files.FileService.DeleteFile | Backend/MedicalConsultation.Service/Service/FileService.cs:62-83 | an empty path is false without a store call; otherwise true iff the blob existed and the call did not fail; only that blob goes, and a false answer leaves every blob in place |
| Files.FileService.GetFileUrl | Backend/MedicalConsultation.Service/Service/FileService.cs:85-91 | an empty path gives ""; otherwise the blob's URL in the attachments container |
| FilesApi.ContentType | Backend/MedicalConsultation.API/Controllers/FilesController.cs:59-73 | never empty; application/octet-stream iff the lower-cased extension is not one the upload accepts |
| FilesApi.MimeOf | Backend/MedicalConsultation.API/Controllers/FilesController.cs:62-72 | the switch gives a specific type for exactly the eight allowed extensions |
| FilesApi.ContentTypeIgnoresCase | Backend/MedicalConsultation.API/Controllers/FilesController.cs:61 | the file name's case does not change the content type |
| FilesApi.JpegExtensionsAgree | Backend/MedicalConsultation.API/Controllers/FilesController.cs:67 | .jpg and .jpeg both give image/jpeg |
| FilesApi.FilesController.constructor | Backend/MedicalConsultation.API/Controllers/FilesController.cs:13-17 | the controller works on the given blob store |
| FilesApi.FilesController.DownloadFile | Backend/MedicalConsultation.API/Controllers/FilesController.cs:20-42 | NotFound (404) when the store does not report the file, without a download; ServerError (500) when it exists but the download fails; otherwise the file with ContentType(fileName) and its name as download name |
| FilesApi.FilesController.MissingFileIsNotFound | Backend/MedicalConsultation.API/Controllers/FilesController.cs:24-28 | a blob that is not stored gives NotFound |
| Mapping.PatientToDto | Backend/MedicalConsultation.Service/Profiles/MappingProfile.cs:12 | Patient to PatientDto by same-named fields |
| Mapping.PatientFromForm | Backend/MedicalConsultation.Service/Profiles/MappingProfile.cs:13 | CreatePatientDto to a new Patient with the seven fields |
| Mapping.ApplyForm | Backend/MedicalConsultation.Service/Profiles/MappingProfile.cs:14 | UpdatePatientDto written over an existing Patient |
| Mapping.PatientDtoCarriesForm | Backend/MedicalConsultation.Service/Profiles/MappingProfile.cs:12 | the PatientDto carries the seven form fields, the id and CreatedAt |
| Mapping.PatientFormRoundTrip | Backend/MedicalConsultation.Service/Profiles/MappingProfile.cs:13 | a patient made from a create form gives that form back, and has no UpdatedAt |
| Mapping.ApplyFormOverwrites | Backend/MedicalConsultation.Service/Profiles/MappingProfile.cs:14 | mapping an update form onto a patient overwrites the seven fields, keeps Id, CreatedAt and UpdatedAt, and is idempotent |
| Mapping.ConsultationFromCreate | Backend/MedicalConsultation.Service/Profiles/MappingProfile.cs:22-24 | the created entity is Pending, keeps the default date and copies PatientId, Time and Notes |
| Mapping.CreateMappingDependsOnlyOnFields | Backend/MedicalConsultation.Service/Profiles/MappingProfile.cs:23-24 | two requests that agree on PatientId, Time and Notes map to the same entity |
| Mapping.AttachmentToDto | Backend/MedicalConsultation.Service/Profiles/MappingProfile.cs:27-31 | Name from FileName, Url from FilePath, Type from ContentType, Size from FileSize |
| Mapping.AttachmentsToDtos | Backend/MedicalConsultation.Service/Profiles/MappingProfile.cs:27-31 | one DTO per row, in order, with Name, Url, Type and Size taken from FileName, FilePath, ContentType and FileSize |
| Mapping.AttachmentsToDtosAppend | Backend/MedicalConsultation.Service/Profiles/MappingProfile.cs:20 | mapping a concatenation is concatenating the mappings |
| Mapping.ConsultationToDto | Backend/MedicalConsultation.Service/Profiles/MappingProfile.cs:17-20 | PatientName is the patient's name, Date is the yyyy-MM-dd text that parses back to the date, and the other fields and the attachments are copied |
| Patients.PatientService.constructor | Backend/MedicalConsultation.Service/Service/PatientService.cs:14-17 | the service works on the given repository |
| Patients.PatientService.GetAll | Backend/MedicalConsultation.Service/Service/PatientService.cs:20-25 | the patient DTOs, ordered by name |
| Patients.PatientService.GetAllListsEveryPatient | Backend/MedicalConsultation.Service/Service/PatientService.cs:20-25 | every stored patient's DTO is listed, every listed DTO is a stored patient's, and no patient is listed twice |
| Patients.PatientService.GetById | Backend/MedicalConsultation.Service/Service/PatientService.cs:27-33 | None iff the key is absent; otherwise that patient's DTO |
| Patients.PatientService.CreatePatient | Backend/MedicalConsultation.Service/Service/PatientService.cs:35-40 | refused with no change iff the e-mail or phone clashes; otherwise a fresh key whose GetById gives back the submitted seven fields, with every other patient, both other tables and all other keys unchanged |
| Patients.PatientService.UpdatePatient | Backend/MedicalConsultation.Service/Service/PatientService.cs:42-50 | false with no write for an absent key; a clash on e-mail or phone is refused with no write; otherwise the seven fields are overwritten, Id and CreatedAt kept, UpdatedAt set, and true |
| Patients.PatientService.DeletePatient | Backend/MedicalConsultation.Service/Service/PatientService.cs:52-55 | exactly the repository's delete |
| Consultations.Outcomes | Backend/MedicalConsultation.Service/Service/ConsultationService.cs:72-76 | the save result of each file, in input order, under the "consultations" folder |
| Consultations.RowFor | Backend/MedicalConsultation.Service/Service/ConsultationService.cs:78-86 | the attachment row for a saved file: the new consultation's key, the file's name, type and size, and the returned path |
| Consultations.Collected | Backend/MedicalConsultation.Service/Service/ConsultationService.cs:70-93 | the loop's list after n files: at most n rows, each for the new consultation, with the empty key and CreatedAt now |
| Consultations.SavedIndices | Backend/MedicalConsultation.Service/Service/ConsultationService.cs:72-93 | the positions of the files whose save succeeded, ascending |
| Consultations.CollectedFollowsSavedIndices | Backend/MedicalConsultation.Service/Service/ConsultationService.cs:72-93 | the list has one row per successful save, in input order, built from that file and the path its save returned |
| Consultations.CollectedRowsPassedChecks | Backend/MedicalConsultation.Service/Service/ConsultationService.cs:78-86 | every row has 0 < FileSize <= 10 MiB and a path with no '/' |
| Consultations.CollectedEmptyWhenNothingSaved | Backend/MedicalConsultation.Service/Service/ConsultationService.cs:95-99 | when no save succeeds, or there is no file, the list is empty |
| Consultations.SavedBlobsAreRowPaths | Backend/MedicalConsultation.Service/Service/ConsultationService.cs:76-82 | the blobs added are exactly the rows' paths, in the attachments container |
| Consultations.AnyCreatesContainer | Backend/MedicalConsultation.Service/Service/ConsultationService.cs:76 | true iff some file passed the checks and its container request succeeded, which is when the container is created |
| Consultations.DtoOf | Backend/MedicalConsultation.Service/Service/ConsultationService.cs:25 | a stored row mapped with its patient's name and its attachment rows |
| Consultations.CreatedRow | Backend/MedicalConsultation.Service/Service/ConsultationService.cs:56-62 | the stored row is Pending, has the parsed date and new key, copies the request, and has UpdatedAt iff a file was saved |
| Consultations.DtosOf | Backend/MedicalConsultation.Service/Service/ConsultationService.cs:25 | one DTO per row, in order |
| Consultations.DtosOfStoredRows | Backend/MedicalConsultation.Service/Service/ConsultationService.cs:22-27 | mapping distinct stored rows lists each row's DTO, only DTOs of stored rows, and no key twice |
| Consultations.DtosListedInOrder | Backend/MedicalConsultation.Service/Service/ConsultationService.cs:22-27 | mapping the rows to DTOs keeps the listing order |
| Consultations.ConsultationService.constructor | Backend/MedicalConsultation.Service/Service/ConsultationService.cs:15-19 | the service works on the given repositories, which share one database, and file service |
| Consultations.ConsultationService.CreateConsultation | Backend/MedicalConsultation.Service/Service/ConsultationService.cs:48-103 | PatientNotFound before InvalidDateFormat, each with nothing stored; otherwise one new row, attachments exactly the saved files in input order with fresh keys, the blobs added, and the returned DTO is the stored row's |
| Consultations.ConsultationService.StoreConsultation | Backend/MedicalConsultation.Service/Service/ConsultationService.cs:65-99 | the row gets the next key, UpdatedAt is set iff a file was saved, and its collection is the saved rows |
| Consultations.ConsultationService.AttachFiles | Backend/MedicalConsultation.Service/Service/ConsultationService.cs:67-99 | with no saved file there is no update; otherwise one update adds the saved rows and sets UpdatedAt |
| Consultations.ConsultationService.SaveAttachments | Backend/MedicalConsultation.Service/Service/ConsultationService.cs:70-93 | the loop builds Collected over all files, and the store gains exactly the saved blobs |
| Consultations.ConsultationService.UpdateStatus | Backend/MedicalConsultation.Service/Service/ConsultationService.cs:115-128 | NotFound for an absent key, then InvalidStatus for any other label, both unchanged; otherwise Success with only that row's Status and UpdatedAt changed |
| Consultations.ConsultationService.DeleteConsultation | Backend/MedicalConsultation.Service/Service/ConsultationService.cs:130-133 | exactly the repository's delete |
| Consultations.ConsultationService.GetConsultations | Backend/MedicalConsultation.Service/Service/ConsultationService.cs:22-27 | the DTO of every stored consultation is listed, every listed DTO is the DTO of the row under its key, no key is listed twice, and the list is ordered by date descending then time |
| Consultations.ConsultationService.GetById | Backend/MedicalConsultation.Service/Service/ConsultationService.cs:29-39 | None iff the key is absent; otherwise the row's DTO |
| Consultations.ConsultationService.GetConsultationsByPatient | Backend/MedicalConsultation.Service/Service/ConsultationService.cs:41-46 | the DTO of every consultation of that patient is listed, every listed DTO is one of that patient's stored rows, no key is listed twice, and the list is in the listing order |

## Left out

- Azure SDK calls, `Uri`, streams and HTTP headers are foreign I/O. The blob store is a set of (container, name) pairs. Whether getting or creating a container succeeds, whether a transfer succeeds, and whether the account can be reached are parameters.
- Logging, the HTTP status codes of the controllers, dependency wiring, CORS and Swagger are left out. Async calls are taken as sequential.
- There is no atomicity across the two stores. A blob whose metadata row is never written stays in the blob store, as in the source; the model records it but states no rule about it.
- Consultations.ConsultationService.GetConsultations and GetConsultationsByPatient do not fix the order of two rows with the same date and time, because the SQL query leaves it open.
- Schema.Clashes and Schema.UniqueContacts compare e-mail and phone with exact string equality. The unique indexes live in SQL Server, whose default collation ignores letter case and trailing spaces, so "John@x.com" and "john@x.com" clash in the database but not in the model.
- Text.LessEq is the ordinal character order. A SQL Server collation (case-insensitive ordering of names) is not modelled.
- Dates.Parse: `DateTime.TryParse` also accepts culture-dependent forms; only `yyyy-MM-dd` is modelled, and the time of day is dropped.
- Text.ToLower and Text.GetExtension cover ASCII letters only; culture-invariant lower-casing of other letters is not modelled.
- Text.GetExtension stops at both `/` and `\`, as .NET does on Windows. On Linux only `/` is a separator, so for a name whose last `.` comes before a `\` the model reports the type as "" where .NET reports the suffix. Either way the file is refused, and only the reported type in `TypeNotAllowed` differs.
- Mapping.ConsultationFromCreate models only the declared member rules. How AutoMapper would treat `CreateConsultationDto.Attachments`, a list of uploaded files for which no map to `ConsultationAttachment` is declared, is library behaviour and is not modelled; the service builds the attachment rows itself.
- Each call reads the clock once. In the source, the attachment rows' CreatedAt and the UpdatedAt of the follow-up update are separate clock readings.
- A null file is not distinguished from an empty one, and a null attachment list is the empty sequence.
- The Attachments collection is read in key order; EF gives no order for an included collection.
- The controller's `UpdateConsultationStatus` calls an update method that is commented out in the service; `UpdateStatusAsync` is modelled instead. ConsultationsController.cs and PatientsController.cs are not part of this model.
- `FilesController.GetFileUrl` and `AzureBlobStorageService.GetFileUrl` build a URL with the SDK; the URL is a parameter function of (container, name).
- A download's stream content is not modelled, only which result kind is returned.
- The declared column lengths and ranges are `Valid` predicates, not enforced by the operations, because the services do not check them. SQL Server rejects over-long strings on save; that error path is not modelled.
- The front end (React components and the HTTP client) is not part of this model.
