/**
 * ConsultationService: creating a consultation (the patient must exist, then
 * the date must parse; the row is stored as Pending; then each file is saved
 * on its own, a file whose save fails is skipped, and the rows of the saved
 * files are added in one update), the three-label status update, delete, and
 * the DTO reads.
 */
module Consultations {
  import opened Wrappers
  import opened Dates
  import opened Text
  import opened Entities
  import opened Dtos
  import opened Schema
  import opened Sorting
  import opened Mapping
  import opened Blobs
  import opened Files
  import opened ConsultationRepo
  import opened PatientRepo

  /** The folder CreateConsultation passes to SaveFileAsync. */
  const AttachmentFolder := "consultations"

  /** Why CreateConsultation threw. */
  datatype CreateError = PatientNotFound | InvalidDateFormat

  datatype UpdateStatusResult = Success | NotFound | InvalidStatus

  /**
   * What the outside world decides for one file: the Guid its blob name gets,
   * whether getting or creating the container succeeds, and whether the
   * transfer succeeds.
   */
  datatype Upload = Upload(guid: string, containerOk: bool, transferOk: bool)

  /** What SaveFileAsync gives for each file, in input order. */
  function Outcomes(files: seq<FormFile>, uploads: seq<Upload>): (r: seq<Result<string, FileError>>)
    requires |uploads| == |files|
    ensures |r| == |files|
    ensures forall i :: 0 <= i < |files| ==>
      r[i] == SaveOutcome(files[i], AttachmentFolder, uploads[i].guid, uploads[i].containerOk, uploads[i].transferOk)
  {
    seq(|files|, i requires 0 <= i < |files| =>
      SaveOutcome(files[i], AttachmentFolder, uploads[i].guid, uploads[i].containerOk, uploads[i].transferOk))
  }

  /** The attachment row the loop builds for a saved file. */
  function RowFor(file: FormFile, path: string, cid: Id, now: Timestamp): Attachment
  {
    Attachment(EmptyId, cid, file.fileName, path, file.contentType, file.length, now)
  }

  /** The list the loop has built after the first `n` files: one row per saved file, in input order. */
  function Collected(files: seq<FormFile>, outcomes: seq<Result<string, FileError>>, n: nat, cid: Id, now: Timestamp): (r: seq<Attachment>)
    requires |outcomes| == |files| && n <= |files|
    ensures |r| <= n
    ensures forall j :: 0 <= j < |r| ==> r[j].id == EmptyId && r[j].consultationId == cid && r[j].createdAt == now
  {
    if n == 0 then []
    else
      var before := Collected(files, outcomes, n - 1, cid, now);
      if outcomes[n - 1].Success? then before + [RowFor(files[n - 1], outcomes[n - 1].value, cid, now)] else before
  }

  /** The positions, among the first `n`, of the files whose save succeeded, ascending. */
  function SavedIndices(outcomes: seq<Result<string, FileError>>, n: nat): (r: seq<nat>)
    requires n <= |outcomes|
    ensures forall j :: 0 <= j < |r| ==> r[j] < n
    ensures forall j, k :: 0 <= j < k < |r| ==> r[j] < r[k]
    ensures forall i :: 0 <= i < n ==> (i in r <==> outcomes[i].Success?)
  {
    if n == 0 then []
    else SavedIndices(outcomes, n - 1) + (if outcomes[n - 1].Success? then [n - 1] else [])
  }

  /**
   * The list holds exactly the saved files, in input order: its j-th row is
   * built from the j-th saved file and the path its save returned.
   */
  lemma {:induction false} CollectedFollowsSavedIndices(files: seq<FormFile>, outcomes: seq<Result<string, FileError>>, n: nat, cid: Id, now: Timestamp)
    requires |outcomes| == |files| && n <= |files|
    ensures |Collected(files, outcomes, n, cid, now)| == |SavedIndices(outcomes, n)|
    ensures forall j :: 0 <= j < |SavedIndices(outcomes, n)| ==>
      var i := SavedIndices(outcomes, n)[j];
      outcomes[i].Success? && Collected(files, outcomes, n, cid, now)[j] == RowFor(files[i], outcomes[i].value, cid, now)
  {
    if n > 0 {
      CollectedFollowsSavedIndices(files, outcomes, n - 1, cid, now);
    }
  }

  /** Every row comes from a file that passed the size checks, and its path names a blob at the container root. */
  lemma CollectedRowsPassedChecks(files: seq<FormFile>, uploads: seq<Upload>, cid: Id, now: Timestamp)
    requires |uploads| == |files|
    ensures forall a :: a in Collected(files, Outcomes(files, uploads), |files|, cid, now) ==>
      0 < a.fileSize <= MaxFileSize && '/' !in a.filePath
  {
    var outcomes := Outcomes(files, uploads);
    var r := Collected(files, outcomes, |files|, cid, now);
    CollectedFollowsSavedIndices(files, outcomes, |files|, cid, now);
    forall a | a in r ensures 0 < a.fileSize <= MaxFileSize && '/' !in a.filePath {
      var j :| 0 <= j < |r| && r[j] == a;
      var i := SavedIndices(outcomes, |files|)[j];
      assert outcomes[i] == SaveOutcome(files[i], AttachmentFolder, uploads[i].guid, uploads[i].containerOk, uploads[i].transferOk);
    }
  }

  /** When no save succeeds, or there is no file, the list is empty. */
  lemma {:induction false} CollectedEmptyWhenNothingSaved(files: seq<FormFile>, outcomes: seq<Result<string, FileError>>, n: nat, cid: Id, now: Timestamp)
    requires |outcomes| == |files| && n <= |files|
    requires forall i :: 0 <= i < n ==> outcomes[i].Failure?
    ensures Collected(files, outcomes, n, cid, now) == []
  {
    if n > 0 {
      CollectedEmptyWhenNothingSaved(files, outcomes, n - 1, cid, now);
    }
  }

  /** The blobs the saves of the first `n` files add. */
  function SavedBlobs(outcomes: seq<Result<string, FileError>>, n: nat): set<(string, string)>
    requires n <= |outcomes|
  {
    if n == 0 then {}
    else SavedBlobs(outcomes, n - 1) + (if outcomes[n - 1].Success? then {(ConsultationContainer, outcomes[n - 1].value)} else {})
  }

  /** Every added blob is the path of one of the rows, and every row's path is an added blob. */
  lemma {:induction false} SavedBlobsAreRowPaths(files: seq<FormFile>, outcomes: seq<Result<string, FileError>>, n: nat, cid: Id, now: Timestamp)
    requires |outcomes| == |files| && n <= |files|
    ensures forall a :: a in Collected(files, outcomes, n, cid, now) ==> (ConsultationContainer, a.filePath) in SavedBlobs(outcomes, n)
    ensures forall b :: b in SavedBlobs(outcomes, n) ==>
      b.0 == ConsultationContainer && exists a :: a in Collected(files, outcomes, n, cid, now) && a.filePath == b.1
  {
    if n > 0 {
      SavedBlobsAreRowPaths(files, outcomes, n - 1, cid, now);
      if outcomes[n - 1].Success? {
        var row := RowFor(files[n - 1], outcomes[n - 1].value, cid, now);
        assert row in Collected(files, outcomes, n, cid, now);
      }
    }
  }

  /** One of the first `n` files passed the checks and its request for the container succeeded, so the container exists. */
  function AnyCreatesContainer(files: seq<FormFile>, uploads: seq<Upload>, n: nat): (r: bool)
    requires |uploads| == |files| && n <= |files|
    ensures r <==> exists i :: 0 <= i < n && CreatesContainer(files[i], uploads[i])
  {
    n > 0 && (AnyCreatesContainer(files, uploads, n - 1) || CreatesContainer(files[n - 1], uploads[n - 1]))
  }

  /** Saving `file` reaches the blob store and its request for the container succeeds. */
  predicate CreatesContainer(file: FormFile, upload: Upload)
  {
    CheckFile(file).None? && upload.containerOk
  }

  /** The blob set after file `i`: it gains that file's blob exactly when its save succeeded. */
  lemma BlobsAfterFile(base: set<(string, string)>, outcomes: seq<Result<string, FileError>>, i: nat)
    requires i < |outcomes|
    ensures base + SavedBlobs(outcomes, i)
                 + (if outcomes[i].Success? then {(ConsultationContainer, outcomes[i].value)} else {})
         == base + SavedBlobs(outcomes, i + 1)
  {
  }

  /** The container set after file `i`: it gains the container exactly when that file passed the checks and its request for the container succeeded. */
  lemma ContainersAfterFile(base: set<string>, files: seq<FormFile>, uploads: seq<Upload>, i: nat)
    requires |uploads| == |files| && i < |files|
    ensures base + (if AnyCreatesContainer(files, uploads, i) then {ConsultationContainer} else {})
                 + (if CreatesContainer(files[i], uploads[i]) then {ConsultationContainer} else {})
         == base + (if AnyCreatesContainer(files, uploads, i + 1) then {ConsultationContainer} else {})
  {
  }

  /** The DTO of a stored row: its patient's name and its attachment rows. */
  function DtoOf(t: Tables, c: Consultation): ConsultationDto
    requires Consistent(t) && c.patientId in t.patients
  {
    ConsultationToDto(c, t.patients[c.patientId].name, AttachmentsOf(t, c.id))
  }

  /** The row CreateConsultation stores: the request's fields, Pending, the parsed date, and UpdatedAt set iff a file was saved. */
  function CreatedRow(dto: CreateConsultationDto, cid: Id, date: CalendarDate, now: Timestamp, saved: seq<Attachment>): (c: Consultation)
    ensures c.status == Pending && c.date == date && c.id == cid
    ensures c.patientId == dto.patientId && c.time == dto.time && c.notes == dto.notes
    ensures c.updatedAt.Some? <==> saved != []
  {
    ConsultationFromCreate(dto).(id := cid, date := date, createdAt := now,
                                 updatedAt := if saved == [] then None else Some(now))
  }

  class ConsultationService {
    const consultations: ConsultationRepository
    const patients: PatientRepository
    const files: FileService

    /** Both repositories work on the same database, which is consistent. */
    ghost predicate Valid()
      reads consultations.db
    {
      patients.db == consultations.db && consultations.db.Valid()
    }

    constructor (consultations: ConsultationRepository, patients: PatientRepository, files: FileService)
      requires consultations.db == patients.db
      ensures this.consultations == consultations && this.patients == patients && this.files == files
    {
      this.consultations := consultations;
      this.patients := patients;
      this.files := files;
    }

    /**
     * CreateConsultation: PatientNotFound, then InvalidDateFormat, with
     * nothing stored on either; otherwise the row is stored and each file's
     * save is tried in turn, a failing one skipped.
     */
    method CreateConsultation(dto: CreateConsultationDto, now: Timestamp, uploads: seq<Upload>)
      returns (r: Result<ConsultationDto, CreateError>)
      requires Valid() && |uploads| == |dto.attachments|
      modifies consultations.db, files.blobs
      ensures Valid()
      ensures dto.patientId !in old(consultations.db.patients) ==>
        && r == Failure(PatientNotFound)
        && consultations.db.Snapshot() == old(consultations.db.Snapshot())
        && files.blobs.blobs == old(files.blobs.blobs) && files.blobs.containers == old(files.blobs.containers)
      ensures dto.patientId in old(consultations.db.patients) && Parse(dto.date).None? ==>
        && r == Failure(InvalidDateFormat)
        && consultations.db.Snapshot() == old(consultations.db.Snapshot())
        && files.blobs.blobs == old(files.blobs.blobs) && files.blobs.containers == old(files.blobs.containers)
      ensures dto.patientId in old(consultations.db.patients) && Parse(dto.date).Some? ==>
        var cid := old(consultations.db.nextId);
        var outcomes := Outcomes(dto.attachments, uploads);
        var saved := Collected(dto.attachments, outcomes, |dto.attachments|, cid, now);
        && cid !in old(consultations.db.consultations)
        && consultations.db.patients == old(consultations.db.patients)
        && consultations.db.consultations ==
             old(consultations.db.consultations)[cid := CreatedRow(dto, cid, Parse(dto.date).value, now, saved)]
        && (forall k :: k in old(consultations.db.attachments) ==>
             k in consultations.db.attachments && consultations.db.attachments[k] == old(consultations.db.attachments)[k])
        && AttachmentsOf(consultations.db.Snapshot(), cid) == Stamped(saved, cid + 1)
        && consultations.db.nextId == cid + 1 + |saved|
        && OnlyNewKeys(old(consultations.db.attachments), consultations.db.attachments, cid + 1, consultations.db.nextId)
        && r == Wrappers.Success(DtoOf(consultations.db.Snapshot(), consultations.db.consultations[cid]))
        && files.blobs.blobs == old(files.blobs.blobs) + SavedBlobs(outcomes, |dto.attachments|)
        && files.blobs.containers ==
             old(files.blobs.containers) + (if AnyCreatesContainer(dto.attachments, uploads, |dto.attachments|) then {ConsultationContainer} else {})
    {
      if !patients.Exists(dto.patientId) {
        return Failure(PatientNotFound);
      }
      var consultation := ConsultationFromCreate(dto);
      var parsed := Parse(dto.date);
      if parsed.None? {
        return Failure(InvalidDateFormat);
      }
      consultation := consultation.(date := parsed.value);
      var row := StoreConsultation(consultation, dto.attachments, uploads, now);
      assert row == CreatedRow(dto, row.id, parsed.value, now,
                               Collected(dto.attachments, Outcomes(dto.attachments, uploads), |dto.attachments|, row.id, now));
      r := Wrappers.Success(DtoOf(consultations.db.Snapshot(), row));
    }

    /**
     * The part of CreateConsultation once the request has been checked: the
     * row is saved, the files are saved in turn, and when any was, the row is
     * updated once with their attachment rows and UpdatedAt set.
     */
    method StoreConsultation(consultation: Consultation, attachmentFiles: seq<FormFile>, uploads: seq<Upload>, now: Timestamp)
      returns (stored: Consultation)
      requires Valid() && |uploads| == |attachmentFiles|
      requires consultation.patientId in consultations.db.patients
      modifies consultations.db, files.blobs
      ensures Valid()
      ensures var cid := old(consultations.db.nextId);
        var saved := Collected(attachmentFiles, Outcomes(attachmentFiles, uploads), |attachmentFiles|, cid, now);
        var inserted := consultation.(id := cid, createdAt := now);
        stored == (if saved == [] then inserted else inserted.(updatedAt := Some(now)))
      ensures old(consultations.db.nextId) !in old(consultations.db.consultations)
      ensures consultations.db.consultations == old(consultations.db.consultations)[old(consultations.db.nextId) := stored]
      ensures consultations.db.patients == old(consultations.db.patients)
      ensures forall k :: k in old(consultations.db.attachments) ==>
        k in consultations.db.attachments && consultations.db.attachments[k] == old(consultations.db.attachments)[k]
      ensures var cid := old(consultations.db.nextId);
        var saved := Collected(attachmentFiles, Outcomes(attachmentFiles, uploads), |attachmentFiles|, cid, now);
        && AttachmentsOf(consultations.db.Snapshot(), cid) == Stamped(saved, cid + 1)
        && consultations.db.nextId == cid + 1 + |saved|
      ensures OnlyNewKeys(old(consultations.db.attachments), consultations.db.attachments,
        old(consultations.db.nextId) + 1, consultations.db.nextId)
      ensures files.blobs.blobs ==
        old(files.blobs.blobs) + SavedBlobs(Outcomes(attachmentFiles, uploads), |attachmentFiles|)
      ensures files.blobs.containers ==
        old(files.blobs.containers) + (if AnyCreatesContainer(attachmentFiles, uploads, |attachmentFiles|) then {ConsultationContainer} else {})
    {
      var created := consultations.Create(consultation, now);
      assert created.value.id == old(consultations.db.nextId) && consultations.db.nextId == created.value.id + 1;
      assert consultations.db.attachments == old(consultations.db.attachments);
      stored := AttachFiles(created.value, attachmentFiles, uploads, now);
      RowOverwritten(old(consultations.db.consultations), created.value.id, created.value, stored);
    }

    /** StoreConsultation after the row is first saved. */
    method AttachFiles(row: Consultation, attachmentFiles: seq<FormFile>, uploads: seq<Upload>, now: Timestamp)
      returns (stored: Consultation)
      requires Valid() && |uploads| == |attachmentFiles|
      requires row.id in consultations.db.consultations && consultations.db.consultations[row.id] == row
      requires row.patientId in consultations.db.patients
      requires AttachmentsOf(consultations.db.Snapshot(), row.id) == []
      modifies consultations.db, files.blobs
      ensures Valid()
      ensures var saved := Collected(attachmentFiles, Outcomes(attachmentFiles, uploads), |attachmentFiles|, row.id, now);
        && stored == (if saved == [] then row else row.(updatedAt := Some(now)))
        && consultations.db.consultations == old(consultations.db.consultations)[row.id := stored]
        && consultations.db.patients == old(consultations.db.patients)
        && (forall k :: k in old(consultations.db.attachments) ==>
             k in consultations.db.attachments && consultations.db.attachments[k] == old(consultations.db.attachments)[k])
        && AttachmentsOf(consultations.db.Snapshot(), row.id) == Stamped(saved, old(consultations.db.nextId))
        && consultations.db.nextId == old(consultations.db.nextId) + |saved|
        && OnlyNewKeys(old(consultations.db.attachments), consultations.db.attachments, old(consultations.db.nextId), consultations.db.nextId)
      ensures files.blobs.blobs ==
        old(files.blobs.blobs) + SavedBlobs(Outcomes(attachmentFiles, uploads), |attachmentFiles|)
      ensures files.blobs.containers ==
        old(files.blobs.containers) + (if AnyCreatesContainer(attachmentFiles, uploads, |attachmentFiles|) then {ConsultationContainer} else {})
    {
      var attachments := SaveAttachments(attachmentFiles, uploads, row.id, now);
      stored := row;
      if attachments != [] {
        stored := consultations.Update(row, attachments, now);
        assert [] + Stamped(attachments, old(consultations.db.nextId)) == Stamped(attachments, old(consultations.db.nextId));
      } else {
        assert consultations.db.consultations == old(consultations.db.consultations)[row.id := stored];
      }
    }

    /**
     * The foreach loop of CreateConsultation: each file is saved in turn; a
     * file whose save fails is skipped, and the others each give one row.
     */
    method SaveAttachments(attachmentFiles: seq<FormFile>, uploads: seq<Upload>, cid: Id, now: Timestamp)
      returns (attachments: seq<Attachment>)
      requires |uploads| == |attachmentFiles|
      modifies files.blobs
      ensures attachments == Collected(attachmentFiles, Outcomes(attachmentFiles, uploads), |attachmentFiles|, cid, now)
      ensures files.blobs.blobs ==
        old(files.blobs.blobs) + SavedBlobs(Outcomes(attachmentFiles, uploads), |attachmentFiles|)
      ensures files.blobs.containers ==
        old(files.blobs.containers) +
          (if AnyCreatesContainer(attachmentFiles, uploads, |attachmentFiles|) then {ConsultationContainer} else {})
    {
      ghost var outcomes := Outcomes(attachmentFiles, uploads);
      attachments := [];
      for i := 0 to |attachmentFiles|
        invariant attachments == Collected(attachmentFiles, outcomes, i, cid, now)
        invariant files.blobs.blobs == old(files.blobs.blobs) + SavedBlobs(outcomes, i)
        invariant files.blobs.containers ==
          old(files.blobs.containers) + (if AnyCreatesContainer(attachmentFiles, uploads, i) then {ConsultationContainer} else {})
      {
        var file := attachmentFiles[i];
        var saved := files.SaveFile(file, AttachmentFolder, uploads[i].guid, uploads[i].containerOk, uploads[i].transferOk);
        assert saved == outcomes[i];
        BlobsAfterFile(old(files.blobs.blobs), outcomes, i);
        ContainersAfterFile(old(files.blobs.containers), attachmentFiles, uploads, i);
        if saved.Success? {
          attachments := attachments + [RowFor(file, saved.value, cid, now)];
        }
      }
    }

    /**
     * UpdateStatusAsync: NotFound for an absent key, checked first; then
     * InvalidStatus for any label other than the three; otherwise the status
     * is written whatever it was before.
     */
    method UpdateStatus(id: Id, newStatus: string, now: Timestamp) returns (r: UpdateStatusResult)
      requires Valid()
      modifies consultations.db
      ensures Valid()
      ensures id !in old(consultations.db.consultations) ==>
        r == NotFound && consultations.db.Snapshot() == old(consultations.db.Snapshot())
      ensures id in old(consultations.db.consultations) && !IsStatus(newStatus) ==>
        r == InvalidStatus && consultations.db.Snapshot() == old(consultations.db.Snapshot())
      ensures id in old(consultations.db.consultations) && IsStatus(newStatus) ==>
        && r == UpdateStatusResult.Success
        && consultations.db.consultations == old(consultations.db.consultations)[id :=
             old(consultations.db.consultations)[id].(status := newStatus, updatedAt := Some(now))]
        && consultations.db.patients == old(consultations.db.patients)
        && consultations.db.attachments == old(consultations.db.attachments)
        && consultations.db.nextId == old(consultations.db.nextId)
    {
      var found := consultations.GetById(id);
      if found.None? {
        return NotFound;
      }
      if !IsStatus(newStatus) {
        return InvalidStatus;
      }
      assert AddAttachments(consultations.db.Snapshot(), []).attachments == consultations.db.attachments;
      var updated := consultations.Update(found.value.(status := newStatus), [], now);
      r := UpdateStatusResult.Success;
    }

    /** DeleteConsultation: exactly the repository's answer. */
    method DeleteConsultation(id: Id) returns (deleted: bool)
      requires Valid()
      modifies consultations.db
      ensures Valid()
      ensures deleted <==> id in old(consultations.db.consultations)
      ensures !deleted ==> consultations.db.Snapshot() == old(consultations.db.Snapshot())
      ensures deleted ==> consultations.db.Snapshot() == Schema.DeleteConsultation(old(consultations.db.Snapshot()), id)
    {
      deleted := consultations.Delete(id);
    }

    /** GetConsultations: every row's DTO, each once, newest date first, then by time. */
    function GetConsultations(): (r: seq<ConsultationDto>)
      reads consultations.db
      requires consultations.db.Valid()
      ensures SortedBy(r, DtoListedNoLaterThan)
      ensures forall k :: k in consultations.db.consultations ==>
        DtoOf(consultations.db.Snapshot(), consultations.db.consultations[k]) in r
      ensures forall d :: d in r ==>
        d.id in consultations.db.consultations && d == DtoOf(consultations.db.Snapshot(), consultations.db.consultations[d.id])
      ensures forall i, j :: 0 <= i < j < |r| ==> r[i].id != r[j].id
    {
      var t := consultations.db.Snapshot();
      var rows := consultations.GetAll();
      ListingHoldsEachRowOnce(t);
      RowsResolve(t, rows);
      DtosListedInOrder(t, rows);
      DtosOfStoredRows(t, rows);
      DtosOf(t, rows)
    }

    /** GetByIdAsync: None for an absent key. */
    function GetById(id: Id): (r: Option<ConsultationDto>)
      reads consultations.db
      requires consultations.db.Valid()
      ensures r.None? <==> id !in consultations.db.consultations
      ensures r.Some? ==> r.value.id == id && r.value == DtoOf(consultations.db.Snapshot(), consultations.db.consultations[id])
    {
      match consultations.GetById(id)
      case None => None
      case Some(c) => Some(DtoOf(consultations.db.Snapshot(), c))
    }

    /** GetConsultationsByPatient: the DTO of each of the patient's rows, each once, in the listing order. */
    function GetConsultationsByPatient(pid: Id): (r: seq<ConsultationDto>)
      reads consultations.db
      requires consultations.db.Valid()
      ensures SortedBy(r, DtoListedNoLaterThan)
      ensures forall k :: k in consultations.db.consultations && consultations.db.consultations[k].patientId == pid ==>
        DtoOf(consultations.db.Snapshot(), consultations.db.consultations[k]) in r
      ensures forall d :: d in r ==>
        && d.patientId == pid && d.id in consultations.db.consultations
        && d == DtoOf(consultations.db.Snapshot(), consultations.db.consultations[d.id])
      ensures forall i, j :: 0 <= i < j < |r| ==> r[i].id != r[j].id
    {
      var t := consultations.db.Snapshot();
      var rows := consultations.GetByPatientId(pid);
      PatientListingHoldsItsRowsOnce(t, pid);
      RowsResolve(t, rows);
      DtosListedInOrder(t, rows);
      DtosOfStoredRows(t, rows);
      DtosOf(t, rows)
    }
  }

  /** The listing order read off two DTOs: the later date first, then the earlier time. */
  predicate DtoListedNoLaterThan(a: ConsultationDto, b: ConsultationDto)
  {
    && Parse(a.date).Some? && Parse(b.date).Some?
    && (Before(Parse(b.date).value, Parse(a.date).value) || (a.date == b.date && LessEq(a.time, b.time)))
  }

  /** Rows drawn from the consultation table have a stored patient. */
  lemma RowsResolve(t: Tables, rows: seq<Consultation>)
    requires Consistent(t)
    requires forall c :: c in rows ==> c.id in t.consultations && t.consultations[c.id] == c
    ensures forall c :: c in rows ==> c.patientId in t.patients
  {
  }

  /** The DTOs of rows, one for one. */
  function DtosOf(t: Tables, rows: seq<Consultation>): (r: seq<ConsultationDto>)
    requires Consistent(t) && forall c :: c in rows ==> c.patientId in t.patients
    ensures |r| == |rows|
    ensures forall i :: 0 <= i < |rows| ==> r[i] == DtoOf(t, rows[i])
  {
    seq(|rows|, i requires 0 <= i < |rows| => DtoOf(t, rows[i]))
  }

  /**
   * The DTOs of distinct stored rows: each row's DTO is listed, each DTO is
   * the DTO of the row stored under its key, and no key is listed twice.
   */
  lemma DtosOfStoredRows(t: Tables, rows: seq<Consultation>)
    requires Consistent(t) && NoDuplicates(rows)
    requires forall c :: c in rows ==> c.id in t.consultations && t.consultations[c.id] == c
    ensures forall c :: c in rows ==> DtoOf(t, c) in DtosOf(t, rows)
    ensures forall d :: d in DtosOf(t, rows) ==>
      && d.id in t.consultations && d == DtoOf(t, t.consultations[d.id])
      && exists c :: c in rows && c.patientId == d.patientId && c.id == d.id
    ensures forall i, j :: 0 <= i < j < |rows| ==> DtosOf(t, rows)[i].id != DtosOf(t, rows)[j].id
  {
    var r := DtosOf(t, rows);
    forall c | c in rows ensures DtoOf(t, c) in r {
      var i :| 0 <= i < |rows| && rows[i] == c;
      assert r[i] == DtoOf(t, c);
    }
    forall d | d in r
      ensures d.id in t.consultations && d == DtoOf(t, t.consultations[d.id])
      ensures exists c :: c in rows && c.patientId == d.patientId && c.id == d.id
    {
      var i :| 0 <= i < |r| && r[i] == d;
      assert rows[i] in rows;
    }
    forall i, j | 0 <= i < j < |rows| ensures r[i].id != r[j].id {
      assert rows[i] in rows && rows[j] in rows;
    }
  }

  /** Mapping rows to DTOs keeps the listing order. */
  lemma DtosListedInOrder(t: Tables, rows: seq<Consultation>)
    requires Consistent(t) && forall c :: c in rows ==> c.patientId in t.patients
    requires SortedBy(rows, ListedNoLaterThan)
    ensures SortedBy(DtosOf(t, rows), DtoListedNoLaterThan)
    ensures forall i :: 0 <= i < |rows| ==> DtosOf(t, rows)[i].patientId == rows[i].patientId
  {
    var r := DtosOf(t, rows);
    forall i, j | 0 <= i < j < |r| ensures DtoListedNoLaterThan(r[i], r[j]) {
      assert ListedNoLaterThan(rows[i], rows[j]);
      assert Parse(r[i].date) == Some(rows[i].date);
      assert Parse(r[j].date) == Some(rows[j].date);
    }
  }

  /** A row written under a key and then written again is the second write. */
  lemma RowOverwritten(m: map<Id, Consultation>, k: Id, first: Consultation, second: Consultation)
    ensures m[k := first][k := second] == m[k := second]
  {
  }

  /** Every key of `after` was already in `before` or is one of the fresh keys lo to hi - 1. */
  predicate OnlyNewKeys(before: map<Id, Attachment>, after: map<Id, Attachment>, lo: Id, hi: Id)
  {
    forall k :: k in after ==> k in before || lo <= k < hi
  }
}
