/** The transfer objects the API exchanges, and the uploaded file as ASP.NET hands it over. */
module Dtos {
  import opened Entities

  /** IFormFile: the client's file name, the content type it sent, and the byte length. */
  datatype FormFile = FormFile(fileName: string, contentType: string, length: nat)

  /** CreateConsultationDto; a null attachment list is the empty sequence. */
  datatype CreateConsultationDto = CreateConsultationDto(
    patientId: Id,
    date: string,
    time: string,
    notes: string,
    attachments: seq<FormFile>)

  datatype AttachmentDto = AttachmentDto(id: Id, name: string, url: string, fileType: string, size: int)

  datatype ConsultationDto = ConsultationDto(
    id: Id,
    patientId: Id,
    patientName: string,
    date: string,
    time: string,
    status: string,
    notes: string,
    attachments: seq<AttachmentDto>,
    createdAt: Timestamp)

  /** The seven client-supplied patient fields; CreatePatientDto and UpdatePatientDto both have exactly these. */
  datatype PatientForm = PatientForm(
    name: string,
    age: int,
    gender: string,
    phone: string,
    email: string,
    address: string,
    emergencyContact: string)

  type CreatePatientDto = PatientForm
  type UpdatePatientDto = PatientForm

  datatype PatientDto = PatientDto(
    id: Id,
    name: string,
    age: int,
    gender: string,
    phone: string,
    email: string,
    address: string,
    emergencyContact: string,
    createdAt: Timestamp)
}
