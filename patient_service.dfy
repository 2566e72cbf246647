/**
 * PatientService: patient DTOs over the patient repository. Reads map the
 * stored rows; an update of an absent patient reports false and writes
 * nothing; create and delete pass through to the repository.
 */
module Patients {
  import opened Wrappers
  import opened Text
  import opened Entities
  import opened Dtos
  import opened Schema
  import opened Mapping
  import opened PatientRepo

  class PatientService {
    const repo: PatientRepository

    constructor (repo: PatientRepository)
      ensures this.repo == repo
    {
      this.repo := repo;
    }

    /** GetAllAsync: the patients' DTOs, by name. */
    function GetAll(): (r: seq<PatientDto>)
      reads repo.db
      ensures forall i, j :: 0 <= i < j < |r| ==> LessEq(r[i].name, r[j].name)
    {
      var rows := repo.GetAll();
      seq(|rows|, i requires 0 <= i < |rows| => PatientToDto(rows[i]))
    }

    /** GetAllAsync lists the DTO of every stored patient and nothing else. */
    lemma GetAllListsEveryPatient()
      requires repo.db.Valid()
      ensures forall k :: k in repo.db.patients ==> PatientToDto(repo.db.patients[k]) in GetAll()
      ensures forall d :: d in GetAll() ==> d.id in repo.db.patients && d == PatientToDto(repo.db.patients[d.id])
      ensures forall i, j :: 0 <= i < j < |GetAll()| ==> GetAll()[i].id != GetAll()[j].id
    {
      var t := repo.db.Snapshot();
      ListingHoldsEachPatientOnce(t);
      var rows := repo.GetAll();
      var r := GetAll();
      forall k | k in repo.db.patients ensures PatientToDto(repo.db.patients[k]) in r {
        var i :| 0 <= i < |rows| && rows[i] == t.patients[k];
        assert r[i] == PatientToDto(rows[i]);
      }
      forall d | d in r ensures d.id in repo.db.patients && d == PatientToDto(repo.db.patients[d.id]) {
        var i :| 0 <= i < |r| && r[i] == d;
        assert rows[i] in rows;
      }
    }

    /** GetByIdAsync: None when the repository has no such patient. */
    function GetById(id: Id): (r: Option<PatientDto>)
      reads repo.db
      ensures r.None? <==> id !in repo.db.patients
      ensures r.Some? ==> r.value == PatientToDto(repo.db.patients[id])
    {
      match repo.GetById(id)
      case None => None
      case Some(p) => Some(PatientToDto(p))
    }

    /**
     * CreatePatientAsync: the submitted fields are stored under a fresh key
     * and read back unchanged; a duplicate Email or Phone is refused.
     */
    method CreatePatient(form: CreatePatientDto, now: Timestamp) returns (r: Result<PatientDto, DbError>)
      requires repo.db.Valid()
      modifies repo.db
      ensures repo.db.Valid()
      ensures r.Failure? <==> Clashes(old(repo.db.patients), PatientFromForm(form).(id := old(repo.db.nextId)))
      ensures r.Failure? ==> r.error == UniqueViolation && repo.db.Snapshot() == old(repo.db.Snapshot())
      ensures r.Success? ==>
        && FormOfDto(r.value) == form && r.value.createdAt == now
        && r.value.id == old(repo.db.nextId) && r.value.id !in old(repo.db.patients)
        && GetById(r.value.id) == Some(r.value)
        && repo.db.patients == old(repo.db.patients)[r.value.id := PatientFromForm(form).(id := r.value.id, createdAt := now)]
        && repo.db.consultations == old(repo.db.consultations)
        && repo.db.attachments == old(repo.db.attachments)
        && repo.db.nextId == old(repo.db.nextId) + 1
    {
      var created := repo.Create(PatientFromForm(form), now);
      if created.Failure? {
        return Failure(created.error);
      }
      r := Success(PatientToDto(created.value));
    }

    /**
     * UpdatePatientAsync: false and no write for an absent key; otherwise
     * the seven fields are overwritten, Id and CreatedAt kept, and the row
     * saved with UpdatedAt := now.
     */
    method UpdatePatient(id: Id, form: UpdatePatientDto, now: Timestamp) returns (r: Result<bool, DbError>)
      requires repo.db.Valid()
      modifies repo.db
      ensures repo.db.Valid()
      ensures id !in old(repo.db.patients) ==>
        r == Success(false) && repo.db.Snapshot() == old(repo.db.Snapshot())
      ensures id in old(repo.db.patients) && Clashes(old(repo.db.patients), ApplyForm(form, old(repo.db.patients)[id])) ==>
        r == Failure(UniqueViolation) && repo.db.Snapshot() == old(repo.db.Snapshot())
      ensures id in old(repo.db.patients) && !Clashes(old(repo.db.patients), ApplyForm(form, old(repo.db.patients)[id])) ==>
        && r == Success(true)
        && repo.db.patients == old(repo.db.patients)[id := ApplyForm(form, old(repo.db.patients)[id]).(updatedAt := Some(now))]
        && repo.db.consultations == old(repo.db.consultations)
        && repo.db.attachments == old(repo.db.attachments)
        && repo.db.nextId == old(repo.db.nextId)
        && GetById(id).Some? && FormOfDto(GetById(id).value) == form
        && GetById(id).value.createdAt == old(repo.db.patients)[id].createdAt
    {
      var existing := repo.GetById(id);
      if existing.None? {
        return Success(false);
      }
      ApplyFormOverwrites(form, existing.value);
      var updated := repo.Update(ApplyForm(form, existing.value), now);
      if updated.Failure? {
        return Failure(updated.error);
      }
      r := Success(true);
    }

    /** DeletePatientAsync: exactly the repository's answer. */
    method DeletePatient(id: Id) returns (deleted: bool)
      requires repo.db.Valid()
      modifies repo.db
      ensures repo.db.Valid()
      ensures deleted <==> id in old(repo.db.patients)
      ensures !deleted ==> repo.db.Snapshot() == old(repo.db.Snapshot())
      ensures deleted ==> repo.db.Snapshot() == Schema.DeletePatient(old(repo.db.Snapshot()), id)
    {
      deleted := repo.Delete(id);
    }
  }
}
