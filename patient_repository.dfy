/**
 * PatientRepository: patients listed by name, looked up and tested for
 * existence by key, inserted under a fresh key, updated, and deleted with the
 * cascade to their consultations and attachments.
 */
module PatientRepo {
  import opened Wrappers
  import opened Text
  import opened Entities
  import opened Schema
  import opened Sorting

  /** OrderBy(p => p.Name): `a` may be listed before `b`. */
  predicate NameNoLaterThan(a: Patient, b: Patient)
  {
    LessEq(a.name, b.name)
  }

  lemma NameOrderIsTotalPreorder()
    ensures TotalPreorder(NameNoLaterThan)
  {
    forall a: Patient, b: Patient ensures NameNoLaterThan(a, b) || NameNoLaterThan(b, a) {
      LessEqTotal(a.name, b.name);
    }
    forall a: Patient, b: Patient, c: Patient | NameNoLaterThan(a, b) && NameNoLaterThan(b, c)
      ensures NameNoLaterThan(a, c)
    {
      LessEqTransitive(a.name, b.name, c.name);
    }
  }

  /** The GetAllAsync query: every patient, by name. */
  function Listing(t: Tables): (r: seq<Patient>)
    ensures SortedBy(r, NameNoLaterThan)
    ensures multiset(r) == multiset(InKeyOrder(t.patients, t.nextId))
  {
    NameOrderIsTotalPreorder();
    SortBy(InKeyOrder(t.patients, t.nextId), NameNoLaterThan)
  }

  /** GetAllAsync returns every stored patient exactly once. */
  lemma ListingHoldsEachPatientOnce(t: Tables)
    requires KeysConsistent(t)
    ensures NoDuplicates(Listing(t))
    ensures forall k :: k in t.patients ==> t.patients[k] in Listing(t)
    ensures forall p :: p in Listing(t) ==> p.id in t.patients && t.patients[p.id] == p
  {
    var rows := InKeyOrder(t.patients, t.nextId);
    InKeyOrderExact(t.patients, t.nextId, (p: Patient) => p.id);
    var r := Listing(t);
    PermutationNoDuplicates(rows, r);
    forall k | k in t.patients ensures t.patients[k] in r {
      assert t.patients[k] in multiset(rows);
    }
    forall p | p in r ensures p.id in t.patients && t.patients[p.id] == p {
      assert p in multiset(r);
    }
  }

  class PatientRepository {
    const db: Database

    constructor (db: Database)
      ensures this.db == db
    {
      this.db := db;
    }

    /** GetAllAsync. */
    function GetAll(): (r: seq<Patient>)
      reads db
      ensures SortedBy(r, NameNoLaterThan)
      ensures multiset(r) == multiset(InKeyOrder(db.patients, db.nextId))
    {
      Listing(db.Snapshot())
    }

    /** GetByIdAsync: the patient stored under `id`, or None. */
    function GetById(id: Id): (r: Option<Patient>)
      reads db
      ensures r.Some? <==> id in db.patients
      ensures r.Some? ==> r.value == db.patients[id]
    {
      if id in db.patients then Some(db.patients[id]) else None
    }

    /** ExistsAsync: Any(p => p.Id == id). */
    function Exists(id: Id): (r: bool)
      reads db
      ensures r <==> GetById(id).Some?
    {
      exists k :: k in db.patients && k == id
    }

    /**
     * CreateAsync: the patient gets a fresh key and CreatedAt := now;
     * SaveChanges refuses an Email or Phone another patient already has.
     */
    method Create(p: Patient, now: Timestamp) returns (r: Result<Patient, DbError>)
      requires db.Valid()
      modifies db
      ensures db.Valid()
      ensures Clashes(old(db.patients), p.(id := old(db.nextId))) ==>
        r == Failure(UniqueViolation) && db.Snapshot() == old(db.Snapshot())
      ensures !Clashes(old(db.patients), p.(id := old(db.nextId))) ==>
        && r == Success(p.(id := old(db.nextId), createdAt := now))
        && r.value.id !in old(db.patients)
        && db.patients == old(db.patients)[r.value.id := r.value]
        && db.consultations == old(db.consultations) && db.attachments == old(db.attachments)
        && GetById(r.value.id) == Some(r.value)
        && db.nextId == old(db.nextId) + 1
    {
      if Clashes(db.patients, p.(id := db.nextId)) {
        return Failure(UniqueViolation);
      }
      var id := db.FreshId();
      var row := p.(id := id, createdAt := now);
      assert !Clashes(db.patients, row);
      db.Commit(SavePatient(db.Snapshot(), row));
      r := Success(row);
    }

    /**
     * UpdateAsync on a tracked patient: its fields are written with
     * UpdatedAt := now; SaveChanges refuses a duplicate Email or Phone.
     */
    method Update(p: Patient, now: Timestamp) returns (r: Result<Patient, DbError>)
      requires db.Valid() && p.id in db.patients
      modifies db
      ensures db.Valid()
      ensures Clashes(old(db.patients), p) ==>
        r == Failure(UniqueViolation) && db.Snapshot() == old(db.Snapshot())
      ensures !Clashes(old(db.patients), p) ==>
        && r == Success(p.(updatedAt := Some(now)))
        && db.patients == old(db.patients)[p.id := r.value]
        && db.consultations == old(db.consultations) && db.attachments == old(db.attachments)
        && db.nextId == old(db.nextId)
    {
      var row := p.(updatedAt := Some(now));
      if Clashes(db.patients, p) {
        return Failure(UniqueViolation);
      }
      assert !Clashes(db.patients, row);
      db.Commit(SavePatient(db.Snapshot(), row));
      r := Success(row);
    }

    /** DeleteAsync: false for an absent key; otherwise the patient and the cascade go. */
    method Delete(id: Id) returns (deleted: bool)
      requires db.Valid()
      modifies db
      ensures db.Valid()
      ensures deleted <==> id in old(db.patients)
      ensures !deleted ==> db.Snapshot() == old(db.Snapshot())
      ensures deleted ==> db.Snapshot() == DeletePatient(old(db.Snapshot()), id)
    {
      if id !in db.patients {
        return false;
      }
      db.Commit(DeletePatient(db.Snapshot(), id));
      deleted := true;
    }
  }
}
