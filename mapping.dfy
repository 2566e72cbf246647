/**
 * The AutoMapper profile: entity-to-DTO projections and the two DTO-to-entity
 * maps. Patient maps copy the seven same-named fields; the consultation maps
 * force the status to "Pending", leave the date to the caller, render the date
 * as yyyy-MM-dd, and rename the attachment fields.
 */
module Mapping {
  import opened Wrappers
  import opened Dates
  import opened Entities
  import opened Dtos

  /** Patient -> PatientDto. */
  function PatientToDto(p: Patient): PatientDto
  {
    PatientDto(p.id, p.name, p.age, p.gender, p.phone, p.email, p.address, p.emergencyContact, p.createdAt)
  }

  /** The seven client-supplied fields a PatientDto carries. */
  function FormOfDto(d: PatientDto): PatientForm
  {
    PatientForm(d.name, d.age, d.gender, d.phone, d.email, d.address, d.emergencyContact)
  }

  /** The seven client-supplied fields of a stored patient. */
  function FormOf(p: Patient): PatientForm
  {
    PatientForm(p.name, p.age, p.gender, p.phone, p.email, p.address, p.emergencyContact)
  }

  /** CreatePatientDto -> Patient: a new entity with the form's fields and nothing else set. */
  function PatientFromForm(f: CreatePatientDto): Patient
  {
    Patient(EmptyId, f.name, f.age, f.gender, f.phone, f.email, f.address, f.emergencyContact, 0, None)
  }

  /** Map(updateDto, existing): the form's fields written over an existing patient. */
  function ApplyForm(f: UpdatePatientDto, p: Patient): Patient
  {
    p.(name := f.name, age := f.age, gender := f.gender, phone := f.phone, email := f.email,
       address := f.address, emergencyContact := f.emergencyContact)
  }

  /** The DTO of a patient carries exactly its key, its seven fields and its creation time. */
  lemma PatientDtoCarriesForm(p: Patient)
    ensures FormOfDto(PatientToDto(p)) == FormOf(p)
    ensures PatientToDto(p).id == p.id && PatientToDto(p).createdAt == p.createdAt
  {
  }

  /** A patient made from a form, whatever key and time it is stored with, shows that form again. */
  lemma PatientFormRoundTrip(f: CreatePatientDto, id: Id, now: Timestamp)
    ensures FormOf(PatientFromForm(f).(id := id, createdAt := now)) == f
    ensures PatientFromForm(f).updatedAt == None
  {
  }

  /**
   * Applying a form overwrites the seven fields and keeps Id, CreatedAt and
   * UpdatedAt; applying a patient's own form changes nothing, and applying
   * the same form twice is applying it once.
   */
  lemma ApplyFormOverwrites(f: UpdatePatientDto, p: Patient)
    ensures FormOf(ApplyForm(f, p)) == f
    ensures ApplyForm(f, p).id == p.id && ApplyForm(f, p).createdAt == p.createdAt
    ensures ApplyForm(f, p).updatedAt == p.updatedAt
    ensures ApplyForm(FormOf(p), p) == p
    ensures ApplyForm(f, ApplyForm(f, p)) == ApplyForm(f, p)
  {
  }

  /** CreateConsultationDto -> Consultation: Date ignored, Status forced to "Pending". */
  function ConsultationFromCreate(dto: CreateConsultationDto): (c: Consultation)
    ensures c.status == Pending && c.date == NewConsultation().date
    ensures c.patientId == dto.patientId && c.time == dto.time && c.notes == dto.notes
    ensures c.updatedAt == None
  {
    NewConsultation().(patientId := dto.patientId, time := dto.time, notes := dto.notes)
  }

  /** Whatever two requests send, their mapped consultations differ only in the copied fields. */
  lemma CreateMappingDependsOnlyOnFields(a: CreateConsultationDto, b: CreateConsultationDto)
    ensures ConsultationFromCreate(a).(patientId := b.patientId, time := b.time, notes := b.notes)
      == ConsultationFromCreate(b)
  {
  }

  /** ConsultationAttachment -> AttachmentDto. */
  function AttachmentToDto(a: Attachment): AttachmentDto
  {
    AttachmentDto(a.id, a.fileName, a.filePath, a.contentType, a.fileSize)
  }

  /** The attachment list mapped element by element. */
  function AttachmentsToDtos(s: seq<Attachment>): (r: seq<AttachmentDto>)
    ensures |r| == |s|
    ensures forall i :: 0 <= i < |s| ==>
      && r[i].id == s[i].id && r[i].name == s[i].fileName && r[i].url == s[i].filePath
      && r[i].fileType == s[i].contentType && r[i].size == s[i].fileSize
  {
    seq(|s|, i requires 0 <= i < |s| => AttachmentToDto(s[i]))
  }

  /** Mapping a concatenation maps each part. */
  lemma AttachmentsToDtosAppend(s: seq<Attachment>, u: seq<Attachment>)
    ensures AttachmentsToDtos(s + u) == AttachmentsToDtos(s) + AttachmentsToDtos(u)
  {
  }

  /**
   * Consultation -> ConsultationDto, given the owning patient's name and the
   * consultation's attachment rows (the two navigations the queries load).
   */
  function ConsultationToDto(c: Consultation, patientName: string, attachments: seq<Attachment>): (r: ConsultationDto)
    ensures r.id == c.id && r.patientId == c.patientId && r.patientName == patientName
    ensures |r.date| == 10 && r.date[4] == '-' && r.date[7] == '-'
    ensures Parse(r.date) == Some(c.date)
    ensures r.time == c.time && r.status == c.status && r.notes == c.notes && r.createdAt == c.createdAt
    ensures r.attachments == AttachmentsToDtos(attachments)
  {
    ParseFormat(c.date);
    ConsultationDto(c.id, c.patientId, patientName, Format(c.date), c.time, c.status, c.notes,
                    AttachmentsToDtos(attachments), c.createdAt)
  }
}
