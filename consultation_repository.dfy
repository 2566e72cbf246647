/**
 * ConsultationRepository: the consultation queries (every row, one row by
 * key, one patient's rows, each listing newest date first and, within a date,
 * by Time) and the writes (insert under a fresh key, update with new
 * attachment rows, delete with its cascade).
 */
module ConsultationRepo {
  import opened Wrappers
  import opened Dates
  import opened Text
  import opened Entities
  import opened Schema
  import opened Sorting

  /** OrderByDescending(c => c.Date).ThenBy(c => c.Time): `a` may be listed before `b`. */
  predicate ListedNoLaterThan(a: Consultation, b: Consultation)
  {
    Before(b.date, a.date) || (a.date == b.date && LessEq(a.time, b.time))
  }

  /** The listing order relates every two consultations and is transitive. */
  lemma ListingOrderIsTotalPreorder()
    ensures TotalPreorder(ListedNoLaterThan)
  {
    forall a: Consultation, b: Consultation
      ensures ListedNoLaterThan(a, b) || ListedNoLaterThan(b, a)
    {
      BeforeIsStrictTotalOrder(a.date, b.date, a.date);
      LessEqTotal(a.time, b.time);
    }
    forall a: Consultation, b: Consultation, c: Consultation | ListedNoLaterThan(a, b) && ListedNoLaterThan(b, c)
      ensures ListedNoLaterThan(a, c)
    {
      BeforeIsStrictTotalOrder(c.date, b.date, a.date);
      if a.date == b.date && b.date == c.date {
        LessEqTransitive(a.time, b.time, c.time);
      }
    }
  }

  /** The consultation rows, in key order. */
  function Rows(t: Tables): seq<Consultation>
  {
    InKeyOrder(t.consultations, t.nextId)
  }

  /** Every stored consultation is a row, exactly once. */
  lemma RowsExact(t: Tables)
    requires KeysConsistent(t)
    ensures NoDuplicates(Rows(t))
    ensures forall k :: k in t.consultations ==> t.consultations[k] in Rows(t)
    ensures forall c :: c in Rows(t) ==> c.id in t.consultations && t.consultations[c.id] == c
  {
    InKeyOrderExact(t.consultations, t.nextId, (c: Consultation) => c.id);
  }

  /** Rows of `s` that belong to patient `pid`, in their order in `s`. */
  function OfPatient(s: seq<Consultation>, pid: Id): (r: seq<Consultation>)
    ensures forall c :: c in r <==> c in s && c.patientId == pid
    ensures multiset(r) <= multiset(s)
  {
    if s == [] then []
    else
      assert s == [s[0]] + s[1..];
      (if s[0].patientId == pid then [s[0]] else []) + OfPatient(s[1..], pid)
  }

  /** The GetAllAsync query: every row, date descending, then time ascending. */
  function Listing(t: Tables): (r: seq<Consultation>)
    ensures SortedBy(r, ListedNoLaterThan)
    ensures multiset(r) == multiset(Rows(t))
  {
    ListingOrderIsTotalPreorder();
    SortBy(Rows(t), ListedNoLaterThan)
  }

  /** The GetByPatientIdAsync query: the patient's rows, in the same order. */
  function PatientListing(t: Tables, pid: Id): (r: seq<Consultation>)
    ensures SortedBy(r, ListedNoLaterThan)
    ensures multiset(r) == multiset(OfPatient(Rows(t), pid))
  {
    ListingOrderIsTotalPreorder();
    SortBy(OfPatient(Rows(t), pid), ListedNoLaterThan)
  }

  /** GetAllAsync returns every stored consultation exactly once. */
  lemma ListingHoldsEachRowOnce(t: Tables)
    requires KeysConsistent(t)
    ensures NoDuplicates(Listing(t))
    ensures forall k :: k in t.consultations ==> t.consultations[k] in Listing(t)
    ensures forall c :: c in Listing(t) ==> c.id in t.consultations && t.consultations[c.id] == c
  {
    RowsExact(t);
    var r := Listing(t);
    PermutationNoDuplicates(Rows(t), r);
    forall k | k in t.consultations ensures t.consultations[k] in r {
      assert t.consultations[k] in multiset(Rows(t));
    }
    forall c | c in r ensures c.id in t.consultations && t.consultations[c.id] == c {
      assert c in multiset(r);
    }
  }

  /** GetByPatientIdAsync returns exactly the patient's consultations, each once. */
  lemma PatientListingHoldsItsRowsOnce(t: Tables, pid: Id)
    requires KeysConsistent(t)
    ensures NoDuplicates(PatientListing(t, pid))
    ensures forall k :: k in t.consultations && t.consultations[k].patientId == pid ==>
      t.consultations[k] in PatientListing(t, pid)
    ensures forall c :: c in PatientListing(t, pid) ==>
      c.patientId == pid && c.id in t.consultations && t.consultations[c.id] == c
  {
    RowsExact(t);
    var f := OfPatient(Rows(t), pid);
    var r := PatientListing(t, pid);
    NoDuplicatesCounts(Rows(t));
    CountsNoDuplicates(f);
    PermutationNoDuplicates(f, r);
    forall k | k in t.consultations && t.consultations[k].patientId == pid
      ensures t.consultations[k] in r
    {
      assert t.consultations[k] in multiset(f);
    }
    forall c | c in r ensures c.patientId == pid && c.id in t.consultations && t.consultations[c.id] == c {
      assert c in multiset(r);
    }
  }

  class ConsultationRepository {
    const db: Database

    constructor (db: Database)
      ensures this.db == db
    {
      this.db := db;
    }

    /** GetAllAsync. */
    function GetAll(): (r: seq<Consultation>)
      reads db
      ensures SortedBy(r, ListedNoLaterThan)
      ensures multiset(r) == multiset(Rows(db.Snapshot()))
    {
      Listing(db.Snapshot())
    }

    /** GetByIdAsync: the row stored under `id`, or None. */
    function GetById(id: Id): (r: Option<Consultation>)
      reads db
      ensures r.Some? <==> id in db.consultations
      ensures r.Some? ==> r.value == db.consultations[id]
    {
      if id in db.consultations then Some(db.consultations[id]) else None
    }

    /** GetByPatientIdAsync. */
    function GetByPatientId(pid: Id): (r: seq<Consultation>)
      reads db
      ensures SortedBy(r, ListedNoLaterThan)
      ensures multiset(r) == multiset(OfPatient(Rows(db.Snapshot()), pid))
    {
      PatientListing(db.Snapshot(), pid)
    }

    /**
     * CreateAsync: the row gets a fresh key and CreatedAt := now; SaveChanges
     * refuses a row whose patient is not stored.
     */
    method Create(c: Consultation, now: Timestamp) returns (r: Result<Consultation, DbError>)
      requires db.Valid()
      modifies db
      ensures db.Valid()
      ensures c.patientId !in old(db.patients) ==>
        r == Failure(ForeignKeyViolation) && db.Snapshot() == old(db.Snapshot())
      ensures c.patientId in old(db.patients) ==>
        && r == Success(c.(id := old(db.nextId), createdAt := now))
        && r.value.id !in old(db.consultations)
        && db.consultations == old(db.consultations)[r.value.id := r.value]
        && db.patients == old(db.patients) && db.attachments == old(db.attachments)
        && GetById(r.value.id) == Some(r.value)
        && db.nextId == old(db.nextId) + 1
        && AttachmentsOf(db.Snapshot(), r.value.id) == []
    {
      if c.patientId !in db.patients {
        return Failure(ForeignKeyViolation);
      }
      var id := db.FreshId();
      var row := c.(id := id, createdAt := now);
      AttachmentsOfUnusedKey(db.Snapshot(), id);
      db.Commit(SaveConsultation(db.Snapshot(), row));
      r := Success(row);
    }

    /**
     * UpdateAsync: the entity's fields are written with UpdatedAt := now, and
     * attachment rows added to its collection are inserted under fresh keys.
     */
    method Update(c: Consultation, added: seq<Attachment>, now: Timestamp) returns (r: Consultation)
      requires db.Valid() && c.id in db.consultations && c.patientId in db.patients
      requires forall i :: 0 <= i < |added| ==> added[i].consultationId == c.id
      modifies db
      ensures db.Valid()
      ensures r == c.(updatedAt := Some(now))
      ensures db.consultations == old(db.consultations)[c.id := r]
      ensures db.patients == old(db.patients)
      ensures db.attachments == AddAttachments(old(db.Snapshot()), added).attachments
      ensures db.nextId == old(db.nextId) + |added|
      ensures AttachmentsOf(db.Snapshot(), c.id) ==
        old(AttachmentsOf(db.Snapshot(), c.id)) + Stamped(added, old(db.nextId))
    {
      r := c.(updatedAt := Some(now));
      var t := SaveConsultation(db.Snapshot(), r);
      assert AttachmentsOf(t, c.id) == AttachmentsOf(db.Snapshot(), c.id);
      AddAttachmentsConsistent(t, added);
      AttachmentsOfAfterAdd(t, c.id, added);
      var u := AddAttachments(t, added);
      AddAttachmentsFrame(t, db.Snapshot(), added);
      db.Commit(u);
    }

    /** DeleteAsync: false for an absent key; otherwise the row and its attachments go. */
    method Delete(id: Id) returns (deleted: bool)
      requires db.Valid()
      modifies db
      ensures db.Valid()
      ensures deleted <==> id in old(db.consultations)
      ensures !deleted ==> db.Snapshot() == old(db.Snapshot())
      ensures deleted ==> db.Snapshot() == DeleteConsultation(old(db.Snapshot()), id)
    {
      if id !in db.consultations {
        return false;
      }
      db.Commit(DeleteConsultation(db.Snapshot(), id));
      deleted := true;
    }
  }
}
