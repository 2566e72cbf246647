/**
 * The relational store as the EF model configures it: three tables keyed by
 * id, the unique indexes on a patient's Email and Phone, the two required
 * relationships with ON DELETE CASCADE (patient -> consultations ->
 * attachments), and the seed rows. `Database` is the DbContext's state; the
 * repositories change it through the functions defined here.
 */
module Schema {
  import opened Wrappers
  import opened Dates
  import opened Entities
  import opened Sorting

  /** The three DbSets, plus the source of fresh keys (every key in use is below nextId). */
  datatype Tables = Tables(
    patients: map<Id, Patient>,
    consultations: map<Id, Consultation>,
    attachments: map<Id, Attachment>,
    nextId: Id)

  /** Why SaveChanges refused a write. */
  datatype DbError = UniqueViolation | ForeignKeyViolation

  /** Primary keys: each row is stored under its own Id, and every Id in use is below nextId. */
  predicate KeysConsistent(t: Tables)
  {
    && (forall k :: k in t.patients ==> t.patients[k].id == k && k < t.nextId)
    && (forall k :: k in t.consultations ==> t.consultations[k].id == k && k < t.nextId)
    && (forall k :: k in t.attachments ==> t.attachments[k].id == k && k < t.nextId)
  }

  /** Foreign keys: a consultation's patient and an attachment's consultation are stored. */
  predicate ReferencesResolve(t: Tables)
  {
    && (forall k :: k in t.consultations ==> t.consultations[k].patientId in t.patients)
    && (forall k :: k in t.attachments ==> t.attachments[k].consultationId in t.consultations)
  }

  /** The unique indexes on Patient.Email and Patient.Phone. */
  predicate UniqueContacts(patients: map<Id, Patient>)
  {
    forall j, k :: j in patients && k in patients && j != k ==>
      patients[j].email != patients[k].email && patients[j].phone != patients[k].phone
  }

  predicate Consistent(t: Tables)
  {
    KeysConsistent(t) && ReferencesResolve(t) && UniqueContacts(t.patients)
  }

  /** Storing `p` under `p.id` would give some other patient's Email or Phone a duplicate. */
  predicate Clashes(patients: map<Id, Patient>, p: Patient)
  {
    exists k :: k in patients && k != p.id && (patients[k].email == p.email || patients[k].phone == p.phone)
  }

  /** Inserting or overwriting a patient that does not clash keeps the store consistent. */
  function SavePatient(t: Tables, p: Patient): (r: Tables)
    requires Consistent(t)
    requires p.id < t.nextId && !Clashes(t.patients, p)
    ensures Consistent(r)
    ensures p.id in r.patients && r.patients[p.id] == p
    ensures r.patients.Keys == t.patients.Keys + {p.id}
    ensures forall k :: k in t.patients && k != p.id ==> r.patients[k] == t.patients[k]
    ensures r.consultations == t.consultations && r.attachments == t.attachments && r.nextId == t.nextId
  {
    t.(patients := t.patients[p.id := p])
  }

  /** Inserting or overwriting a consultation whose patient is stored keeps the store consistent. */
  function SaveConsultation(t: Tables, c: Consultation): (r: Tables)
    requires Consistent(t)
    requires c.id < t.nextId && c.patientId in t.patients
    ensures Consistent(r)
    ensures c.id in r.consultations && r.consultations[c.id] == c
    ensures r.consultations.Keys == t.consultations.Keys + {c.id}
    ensures forall k :: k in t.consultations && k != c.id ==> r.consultations[k] == t.consultations[k]
    ensures r.patients == t.patients && r.attachments == t.attachments && r.nextId == t.nextId
  {
    t.(consultations := t.consultations[c.id := c])
  }

  /**
   * Deleting a patient row: ON DELETE CASCADE removes the patient's
   * consultations and, through them, those consultations' attachments.
   */
  function DeletePatient(t: Tables, pid: Id): (r: Tables)
    requires Consistent(t)
    ensures Consistent(r)
    ensures r.patients.Keys == t.patients.Keys - {pid}
    ensures forall k :: k in r.patients ==> r.patients[k] == t.patients[k]
    ensures forall k :: k in t.consultations ==>
      (k in r.consultations <==> t.consultations[k].patientId != pid)
    ensures forall k :: k in r.consultations ==> k in t.consultations && r.consultations[k] == t.consultations[k]
    ensures forall k :: k in t.attachments ==>
      (k in r.attachments <==> t.consultations[t.attachments[k].consultationId].patientId != pid)
    ensures forall k :: k in r.attachments ==> k in t.attachments && r.attachments[k] == t.attachments[k]
    ensures r.nextId == t.nextId
  {
    var gone := set k | k in t.consultations && t.consultations[k].patientId == pid;
    Tables(
      t.patients - {pid},
      map k | k in t.consultations && k !in gone :: t.consultations[k],
      map k | k in t.attachments && t.attachments[k].consultationId !in gone :: t.attachments[k],
      t.nextId)
  }

  /** Deleting a consultation row: ON DELETE CASCADE removes its attachments. */
  function DeleteConsultation(t: Tables, cid: Id): (r: Tables)
    requires Consistent(t)
    ensures Consistent(r)
    ensures r.consultations.Keys == t.consultations.Keys - {cid}
    ensures forall k :: k in r.consultations ==> r.consultations[k] == t.consultations[k]
    ensures forall k :: k in t.attachments ==>
      (k in r.attachments <==> t.attachments[k].consultationId != cid)
    ensures forall k :: k in r.attachments ==> k in t.attachments && r.attachments[k] == t.attachments[k]
    ensures r.patients == t.patients && r.nextId == t.nextId
  {
    Tables(
      t.patients,
      t.consultations - {cid},
      map k | k in t.attachments && t.attachments[k].consultationId != cid :: t.attachments[k],
      t.nextId)
  }

  /**
   * Attachment rows added through a consultation's Attachments collection:
   * the i-th gets the fresh key nextId + i.
   */
  function AddAttachments(t: Tables, added: seq<Attachment>): (r: Tables)
    ensures r.patients == t.patients && r.consultations == t.consultations
    ensures r.nextId == t.nextId + |added|
    ensures forall k :: t.nextId <= k < t.nextId + |added| ==>
      k in r.attachments && r.attachments[k] == added[k - t.nextId].(id := k)
    ensures forall k :: k in t.attachments && !(t.nextId <= k < t.nextId + |added|) ==>
      k in r.attachments && r.attachments[k] == t.attachments[k]
    ensures forall k :: k in r.attachments ==> k in t.attachments || t.nextId <= k < r.nextId
    decreases |added|
  {
    if added == [] then t
    else
      var init := added[..|added| - 1];
      var s := AddAttachments(t, init);
      assert forall i :: 0 <= i < |init| ==> init[i] == added[i];
      s.(attachments := s.attachments[s.nextId := added[|added| - 1].(id := s.nextId)], nextId := s.nextId + 1)
  }

  /** What AddAttachments does to the attachment table depends on that table and nextId alone. */
  lemma {:induction false} AddAttachmentsFrame(t: Tables, t': Tables, added: seq<Attachment>)
    requires t.attachments == t'.attachments && t.nextId == t'.nextId
    ensures AddAttachments(t, added).attachments == AddAttachments(t', added).attachments
    decreases |added|
  {
    if added != [] {
      AddAttachmentsFrame(t, t', added[..|added| - 1]);
    }
  }

  /** Adding attachment rows of stored consultations keeps the store consistent. */
  lemma AddAttachmentsConsistent(t: Tables, added: seq<Attachment>)
    requires Consistent(t)
    requires forall i :: 0 <= i < |added| ==> added[i].consultationId in t.consultations
    ensures Consistent(AddAttachments(t, added))
  {
    var r := AddAttachments(t, added);
    AddAttachmentsKeys(t, added);
    forall k | k in r.attachments
      ensures r.attachments[k].consultationId in r.consultations
    {
      if k !in t.attachments {
        assert r.attachments[k] == added[k - t.nextId].(id := k);
      }
    }
  }

  /** The added rows are stored under their fresh keys, all below the new nextId. */
  lemma AddAttachmentsKeys(t: Tables, added: seq<Attachment>)
    requires KeysConsistent(t)
    ensures KeysConsistent(AddAttachments(t, added))
  {
    var r := AddAttachments(t, added);
    forall k | k in r.attachments
      ensures r.attachments[k].id == k && k < r.nextId
    {
      if k !in t.attachments {
        assert r.attachments[k] == added[k - t.nextId].(id := k);
      }
    }
  }

  /** `added` with the keys AddAttachments gives them. */
  function Stamped(added: seq<Attachment>, first: Id): (r: seq<Attachment>)
    ensures |r| == |added|
    ensures forall i :: 0 <= i < |r| ==> r[i] == added[i].(id := first + i)
  {
    seq(|added|, i requires 0 <= i < |added| => added[i].(id := first + i))
  }

  /** The keys of `keys` below n, ascending. */
  function IdsBelow(keys: set<Id>, n: nat): (r: seq<Id>)
    ensures forall i :: 0 <= i < |r| ==> r[i] in keys && r[i] < n
    ensures forall k :: k in keys && k < n ==> k in r
    ensures forall i, j :: 0 <= i < j < |r| ==> r[i] < r[j]
  {
    if n == 0 then [] else IdsBelow(keys, n - 1) + (if n - 1 in keys then [n - 1] else [])
  }

  /** The values of `m` under the keys below n, in key order (a table scan). */
  function InKeyOrder<V(==)>(m: map<Id, V>, n: nat): (r: seq<V>)
    ensures forall i :: 0 <= i < |r| ==> r[i] in m.Values
  {
    var ids := IdsBelow(m.Keys, n);
    seq(|ids|, i requires 0 <= i < |ids| => m[ids[i]])
  }

  /** When every row is stored under its own key, below n, the scan yields each row exactly once. */
  lemma InKeyOrderExact<V>(m: map<Id, V>, n: nat, key: V -> Id)
    requires forall k :: k in m ==> key(m[k]) == k && k < n
    ensures NoDuplicates(InKeyOrder(m, n))
    ensures forall k :: k in m ==> m[k] in InKeyOrder(m, n)
    ensures forall v :: v in InKeyOrder(m, n) ==> key(v) in m && m[key(v)] == v
  {
    var ids := IdsBelow(m.Keys, n);
    var r := InKeyOrder(m, n);
    assert forall i :: 0 <= i < |r| ==> key(r[i]) == ids[i];
    forall k | k in m ensures m[k] in r {
      var i :| 0 <= i < |ids| && ids[i] == k;
      assert r[i] == m[k];
    }
  }

  /** The attachment rows of consultation `cid` with keys below n, in key order. */
  function AttachmentsBelow(m: map<Id, Attachment>, cid: Id, n: nat): (r: seq<Attachment>)
    requires forall k :: k in m ==> m[k].id == k
    ensures forall i :: 0 <= i < |r| ==>
      r[i].id in m && m[r[i].id] == r[i] && r[i].id < n && r[i].consultationId == cid
    ensures forall i, j :: 0 <= i < j < |r| ==> r[i].id < r[j].id
  {
    if n == 0 then []
    else AttachmentsBelow(m, cid, n - 1) + (if n - 1 in m && m[n - 1].consultationId == cid then [m[n - 1]] else [])
  }

  /** What Include(c => c.Attachments) loads for consultation `cid`. */
  function AttachmentsOf(t: Tables, cid: Id): (r: seq<Attachment>)
    requires KeysConsistent(t)
    ensures forall i :: 0 <= i < |r| ==>
      r[i].id in t.attachments && t.attachments[r[i].id] == r[i] && r[i].consultationId == cid
    ensures forall i, j :: 0 <= i < j < |r| ==> r[i].id < r[j].id
  {
    AttachmentsBelow(t.attachments, cid, t.nextId)
  }

  /** Every stored attachment of the consultation is loaded. */
  lemma AttachmentsOfComplete(t: Tables, cid: Id, k: Id)
    requires KeysConsistent(t)
    requires k in t.attachments && t.attachments[k].consultationId == cid
    ensures t.attachments[k] in AttachmentsOf(t, cid)
  {
    AttachmentsBelowComplete(t.attachments, cid, t.nextId, k);
  }

  lemma {:induction false} AttachmentsBelowComplete(m: map<Id, Attachment>, cid: Id, n: nat, k: Id)
    requires forall j :: j in m ==> m[j].id == j
    requires k in m && k < n && m[k].consultationId == cid
    ensures m[k] in AttachmentsBelow(m, cid, n)
  {
    if k < n - 1 {
      AttachmentsBelowComplete(m, cid, n - 1, k);
    }
  }

  /** A key no consultation uses has no attachment rows. */
  lemma AttachmentsOfUnusedKey(t: Tables, cid: Id)
    requires KeysConsistent(t) && ReferencesResolve(t) && cid !in t.consultations
    ensures AttachmentsOf(t, cid) == []
  {
    AttachmentsBelowNone(t.attachments, cid, t.nextId);
  }

  lemma {:induction false} AttachmentsBelowNone(m: map<Id, Attachment>, cid: Id, n: nat)
    requires forall k :: k in m ==> m[k].id == k && m[k].consultationId != cid
    ensures AttachmentsBelow(m, cid, n) == []
  {
    if n > 0 {
      AttachmentsBelowNone(m, cid, n - 1);
    }
  }

  lemma {:induction false} AttachmentsBelowAgree(m: map<Id, Attachment>, m': map<Id, Attachment>, cid: Id, n: nat)
    requires forall k :: k in m ==> m[k].id == k
    requires forall k :: k in m' ==> m'[k].id == k
    requires forall k :: k < n ==> (k in m <==> k in m') && (k in m ==> m[k] == m'[k])
    ensures AttachmentsBelow(m, cid, n) == AttachmentsBelow(m', cid, n)
  {
    if n > 0 {
      AttachmentsBelowAgree(m, m', cid, n - 1);
    }
  }

  /**
   * After AddAttachments, a consultation's loaded attachments are the ones it
   * had, followed by the added rows in the order they were added.
   */
  lemma {:induction false} AttachmentsOfAfterAdd(t: Tables, cid: Id, added: seq<Attachment>)
    requires KeysConsistent(t)
    requires forall i :: 0 <= i < |added| ==> added[i].consultationId == cid
    ensures KeysConsistent(AddAttachments(t, added))
    ensures AttachmentsOf(AddAttachments(t, added), cid) == AttachmentsOf(t, cid) + Stamped(added, t.nextId)
    decreases |added|
  {
    AddAttachmentsKeys(t, added);
    if added == [] {
      assert Stamped(added, t.nextId) == [];
    } else {
      var init := added[..|added| - 1];
      assert forall i :: 0 <= i < |init| ==> init[i] == added[i];
      AttachmentsOfAfterAdd(t, cid, init);
      var s := AddAttachments(t, init);
      var a := added[|added| - 1].(id := s.nextId);
      var r := AddAttachments(t, added);
      assert r.attachments == s.attachments[s.nextId := a] && r.nextId == s.nextId + 1;
      AttachmentsBelowAppendOne(s.attachments, cid, s.nextId, a);
      var before, st := AttachmentsOf(t, cid), Stamped(init, t.nextId);
      assert AttachmentsOf(r, cid) == (before + st) + [a];
      StampedSnoc(added, t.nextId);
      ConcatAssociative(before, st, [a]);
    }
  }

  lemma StampedSnoc(added: seq<Attachment>, first: Id)
    requires added != []
    ensures Stamped(added, first) ==
      Stamped(added[..|added| - 1], first) + [added[|added| - 1].(id := first + |added| - 1)]
  {
  }

  lemma ConcatAssociative<T>(x: seq<T>, y: seq<T>, z: seq<T>)
    ensures (x + y) + z == x + (y + z)
  {
  }

  /** A row stored under the next key, for consultation `cid`, is listed after all earlier ones. */
  lemma AttachmentsBelowAppendOne(m: map<Id, Attachment>, cid: Id, n: nat, a: Attachment)
    requires forall k :: k in m ==> m[k].id == k && k < n
    requires a.id == n && a.consultationId == cid
    ensures AttachmentsBelow(m[n := a], cid, n + 1) == AttachmentsBelow(m, cid, n) + [a]
  {
    AttachmentsBelowAgree(m, m[n := a], cid, n);
  }

  /** The three patients SeedData inserts. */
  function SeedPatient1(now: Timestamp): Patient
  {
    Patient(1, "John Smith", 35, "Male", "+1-555-0123", "john.smith@email.com",
      "123 Main St, New York, NY 10001", "Jane Smith - +1-555-0124", now, None)
  }

  function SeedPatient2(now: Timestamp): Patient
  {
    Patient(2, "Maria Garcia", 28, "Female", "+1-555-0125", "maria.garcia@email.com",
      "456 Oak Ave, Los Angeles, CA 90001", "Carlos Garcia - +1-555-0126", now, None)
  }

  function SeedPatient3(now: Timestamp): Patient
  {
    Patient(3, "David Johnson", 42, "Male", "+1-555-0127", "david.johnson@email.com",
      "789 Pine St, Chicago, IL 60601", "Sarah Johnson - +1-555-0128", now, None)
  }

  function SeedConsultation1(now: Timestamp, inFiveDays: CalendarDate): Consultation
  {
    Consultation(4, 1, inFiveDays, "10:00", Pending,
      // The note text is split across two literals.
      "Regular checkup and blood " + "pressure monitoring", now, None)
  }

  function SeedConsultation2(now: Timestamp, yesterday: CalendarDate): Consultation
  {
    Consultation(5, 2, yesterday, "14:30", Completed,
      "Follow-up appointment " + "for diabetes management", now, None)
  }

  /** The rows SeedData inserts: three patients and two consultations, the fresh keys 1 to 5. */
  function Seed(now: Timestamp, inFiveDays: CalendarDate, yesterday: CalendarDate): (t: Tables)
  {
    Tables(map[1 := SeedPatient1(now), 2 := SeedPatient2(now), 3 := SeedPatient3(now)],
      SeedConsultations(now, inFiveDays, yesterday), map[], 6)
  }

  function SeedConsultations(now: Timestamp, inFiveDays: CalendarDate, yesterday: CalendarDate): map<Id, Consultation>
  {
    map[4 := SeedConsultation1(now, inFiveDays), 5 := SeedConsultation2(now, yesterday)]
  }

  /** The seed rows satisfy every key, index and foreign-key constraint. */
  lemma SeedIsConsistent(now: Timestamp, inFiveDays: CalendarDate, yesterday: CalendarDate)
    ensures Consistent(Seed(now, inFiveDays, yesterday))
  {
    var t := Seed(now, inFiveDays, yesterday);
    assert KeysConsistent(t);
    assert ReferencesResolve(t);
    forall j, k | j in t.patients && k in t.patients && j != k
      ensures t.patients[j].email != t.patients[k].email && t.patients[j].phone != t.patients[k].phone
    {
      SeedContactsDiffer(now, inFiveDays, yesterday, j, k);
    }
  }

  lemma SeedContactsDiffer(now: Timestamp, inFiveDays: CalendarDate, yesterday: CalendarDate, j: Id, k: Id)
    requires j in {1, 2, 3} && k in {1, 2, 3} && j != k
    ensures Seed(now, inFiveDays, yesterday).patients[j].email != Seed(now, inFiveDays, yesterday).patients[k].email
    ensures Seed(now, inFiveDays, yesterday).patients[j].phone != Seed(now, inFiveDays, yesterday).patients[k].phone
  {
    assert SeedPatient1(now).email[0] == 'j' && SeedPatient2(now).email[0] == 'm' && SeedPatient3(now).email[0] == 'd';
    assert SeedPatient1(now).phone[10] == '3' && SeedPatient2(now).phone[10] == '5' && SeedPatient3(now).phone[10] == '7';
  }

  /** Every seeded row meets its entity's declared constraints, and both seeded statuses are allowed labels. */
  lemma SeedRowsValid(now: Timestamp, inFiveDays: CalendarDate, yesterday: CalendarDate)
    ensures forall k :: k in Seed(now, inFiveDays, yesterday).patients ==>
      Seed(now, inFiveDays, yesterday).patients[k].Valid()
    ensures forall k :: k in Seed(now, inFiveDays, yesterday).consultations ==>
      Seed(now, inFiveDays, yesterday).consultations[k].Valid()
      && IsStatus(Seed(now, inFiveDays, yesterday).consultations[k].status)
  {
    SeedPatientsValid(now, inFiveDays, yesterday);
    SeedConsultationsValid(now, inFiveDays, yesterday);
  }

  lemma SeedPatientsValid(now: Timestamp, inFiveDays: CalendarDate, yesterday: CalendarDate)
    ensures forall k :: k in Seed(now, inFiveDays, yesterday).patients ==>
      Seed(now, inFiveDays, yesterday).patients[k].Valid()
  {
    SeedPatient1Valid(now);
    SeedPatient2Valid(now);
    SeedPatient3Valid(now);
  }

  lemma SeedConsultationsValid(now: Timestamp, inFiveDays: CalendarDate, yesterday: CalendarDate)
    ensures forall k :: k in Seed(now, inFiveDays, yesterday).consultations ==>
      Seed(now, inFiveDays, yesterday).consultations[k].Valid()
      && IsStatus(Seed(now, inFiveDays, yesterday).consultations[k].status)
  {
    var m := SeedConsultations(now, inFiveDays, yesterday);
    SeedConsultation1Valid(now, inFiveDays);
    SeedConsultation2Valid(now, yesterday);
    assert forall k :: k in m ==> m[k].Valid() && IsStatus(m[k].status);
    assert Seed(now, inFiveDays, yesterday).consultations == m;
  }

  lemma SeedConsultation1Valid(now: Timestamp, inFiveDays: CalendarDate)
    ensures SeedConsultation1(now, inFiveDays).Valid() && IsStatus(Pending)
  {
    var c := SeedConsultation1(now, inFiveDays);
    RequiredInBasicPlane(c.time, 5);
    RequiredByFirst(c.status, 20);
    RequiredByFirst(c.notes, 1000);
  }

  lemma SeedConsultation2Valid(now: Timestamp, yesterday: CalendarDate)
    ensures SeedConsultation2(now, yesterday).Valid() && IsStatus(Completed)
  {
    var c := SeedConsultation2(now, yesterday);
    RequiredInBasicPlane(c.time, 5);
    RequiredByFirst(c.status, 20);
    RequiredByFirst(c.notes, 1000);
  }

  lemma SeedPatient1Valid(now: Timestamp)
    ensures SeedPatient1(now).Valid()
  {
    var p := SeedPatient1(now);
    EmailWithSingleAt(p.email, 10);
    RequiredByFirst(p.name, 100);
    RequiredByFirst(p.gender, 10);
    RequiredInBasicPlane(p.phone, 20);
    RequiredByFirst(p.email, 100);
    RequiredByFirst(p.address, 500);
    RequiredByFirst(p.emergencyContact, 200);
  }

  lemma SeedPatient2Valid(now: Timestamp)
    ensures SeedPatient2(now).Valid()
  {
    var p := SeedPatient2(now);
    EmailWithSingleAt(p.email, 12);
    RequiredByFirst(p.name, 100);
    RequiredInBasicPlane(p.gender, 10);
    RequiredInBasicPlane(p.phone, 20);
    RequiredByFirst(p.email, 100);
    RequiredByFirst(p.address, 500);
    RequiredByFirst(p.emergencyContact, 200);
  }

  lemma SeedPatient3Valid(now: Timestamp)
    ensures SeedPatient3(now).Valid()
  {
    var p := SeedPatient3(now);
    EmailWithSingleAt(p.email, 13);
    RequiredByFirst(p.name, 100);
    RequiredByFirst(p.gender, 10);
    RequiredInBasicPlane(p.phone, 20);
    RequiredByFirst(p.email, 100);
    RequiredByFirst(p.address, 500);
    RequiredByFirst(p.emergencyContact, 200);
  }

  /** A string without line breaks whose only '@' is an inner character is an email address. */
  lemma EmailWithSingleAt(s: string, at: nat)
    requires 0 < at < |s| - 1 && s[at] == '@'
    requires forall j :: 0 <= j < |s| && j != at ==> s[j] != '@' && s[j] != '\r' && s[j] != '\n'
    ensures IsEmailAddress(s)
  {
    assert '@' !in s[..at] && '@' !in s[at + 1..];
  }

  /** The DbContext's tables. */
  class Database {
    var patients: map<Id, Patient>
    var consultations: map<Id, Consultation>
    var attachments: map<Id, Attachment>
    var nextId: Id

    function Snapshot(): Tables
      reads this
    {
      Tables(patients, consultations, attachments, nextId)
    }

    ghost predicate Valid()
      reads this
    {
      Consistent(Snapshot())
    }

    /** A freshly migrated database holding the seed rows. */
    constructor Seeded(now: Timestamp, inFiveDays: CalendarDate, yesterday: CalendarDate)
      ensures Valid() && Snapshot() == Seed(now, inFiveDays, yesterday)
    {
      var t := Seed(now, inFiveDays, yesterday);
      SeedIsConsistent(now, inFiveDays, yesterday);
      patients, consultations, attachments, nextId := t.patients, t.consultations, t.attachments, t.nextId;
    }

    /** SaveChanges: the tables take the given contents. */
    method Commit(t: Tables)
      requires Consistent(t)
      modifies this
      ensures Valid() && Snapshot() == t
    {
      patients, consultations, attachments, nextId := t.patients, t.consultations, t.attachments, t.nextId;
    }

    /** Guid.NewGuid for a row: a key no row uses. */
    method FreshId() returns (id: Id)
      requires Valid()
      modifies this
      ensures Valid() && id == old(nextId)
      ensures Snapshot() == old(Snapshot()).(nextId := id + 1)
      ensures id !in patients && id !in consultations && id !in attachments
    {
      id := nextId;
      nextId := nextId + 1;
    }
  }
}
