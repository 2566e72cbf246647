/**
 * The three persisted entities (Patient, Consultation, ConsultationAttachment)
 * and the constraints their declarations carry. Those constraints are declared
 * on the entities but not checked by the services, so they are predicates here,
 * not conditions the operations enforce.
 */
module Entities {
  import opened Wrappers
  import opened Dates

  /** An entity key; the source uses Guids, of which only freshness matters. */
  type Id = nat

  /** Guid.Empty, the key of an entity that has not been saved yet. */
  const EmptyId: Id := 0

  /** A DateTime.UtcNow reading, supplied by the caller. */
  type Timestamp = int

  const Pending := "Pending"
  const Completed := "Completed"
  const Canceled := "Canceled"

  /** The three labels the status update accepts, compared case-sensitively. */
  predicate IsStatus(s: string)
  {
    s == Pending || s == Completed || s == Canceled
  }

  /**
   * char.IsWhiteSpace: the space separators, the line and paragraph
   * separators, the controls U+0009 to U+000D, and U+0085.
   */
  predicate IsWhiteSpace(c: char)
  {
    || c == ' ' || '\t' <= c <= '\r' || c == '\U{85}' || c == '\U{A0}' || c == '\U{1680}'
    || '\U{2000}' <= c <= '\U{200A}' || c == '\U{2028}' || c == '\U{2029}' || c == '\U{202F}'
    || c == '\U{205F}' || c == '\U{3000}'
  }

  /**
   * string.Length, which [MaxLength] and an nvarchar(n) column both count in:
   * UTF-16 code units, one per character plus one more for each character
   * outside the Basic Multilingual Plane, which takes a surrogate pair.
   */
  function Utf16Length(s: string): (n: nat)
    ensures |s| <= n <= 2 * |s|
  {
    IndicesBelow(SurrogatePairs(s), |s|);
    |s| + |SurrogatePairs(s)|
  }

  /** The positions of s whose character UTF-16 encodes as a surrogate pair. */
  function SurrogatePairs(s: string): set<nat>
  {
    set i: nat | i < |s| && s[i] >= '\U{10000}'
  }

  /** Every character of s is a single UTF-16 code unit. */
  predicate InBasicPlane(s: string)
  {
    forall i :: 0 <= i < |s| ==> s[i] < '\U{10000}'
  }

  /** string.Length equals the number of characters exactly when there is no surrogate pair. */
  lemma LengthInBasicPlane(s: string)
    ensures Utf16Length(s) == |s| <==> InBasicPlane(s)
  {
    if !InBasicPlane(s) {
      var i :| 0 <= i < |s| && s[i] >= '\U{10000}';
      assert i in SurrogatePairs(s);
    }
  }

  /**
   * A string made only of characters outside the Basic Multilingual Plane is
   * twice as long in code units as in characters: 51 such characters exceed
   * [MaxLength(100)].
   */
  lemma LengthOutsideBasicPlane(s: string)
    requires forall i :: 0 <= i < |s| ==> s[i] >= '\U{10000}'
    ensures Utf16Length(s) == 2 * |s|
  {
    assert SurrogatePairs(s) == Below(|s|);
  }

  /** The naturals below n. */
  function Below(n: nat): (r: set<nat>)
    ensures forall i: nat :: i in r <==> i < n
    ensures |r| == n
  {
    if n == 0 then {} else Below(n - 1) + {n - 1}
  }

  /** A set of naturals below n has at most n members. */
  lemma {:induction false} IndicesBelow(ks: set<nat>, n: nat)
    requires forall k :: k in ks ==> k < n
    ensures |ks| <= n
  {
    if n > 0 {
      IndicesBelow(ks - {n - 1}, n - 1);
    } else {
      assert ks == {};
    }
  }

  /** A [Required] string with a [MaxLength]: not empty, not white space only, and short enough in UTF-16 code units. */
  predicate Required(s: string, maxLength: nat)
  {
    && 0 < |s| && Utf16Length(s) <= maxLength
    && exists i :: 0 <= i < |s| && !IsWhiteSpace(s[i])
  }

  /**
   * The [EmailAddress] attribute's test: no line breaks, and exactly one '@',
   * which is neither the first nor the last character.
   */
  predicate IsEmailAddress(s: string)
  {
    && '\r' !in s && '\n' !in s
    && exists i :: 0 < i < |s| - 1 && s[i] == '@' && '@' !in s[..i] && '@' !in s[i + 1..]
  }

  /**
   * A string that starts with a visible ASCII character meets [Required] when
   * even two code units per character would fit.
   */
  lemma RequiredByFirst(s: string, maxLength: nat)
    requires 0 < |s| && 2 * |s| <= maxLength && '!' <= s[0] <= '~'
    ensures Required(s, maxLength)
  {
    assert !IsWhiteSpace(s[0]);
  }

  /** The same for a string of the Basic Multilingual Plane, with one code unit per character. */
  lemma RequiredInBasicPlane(s: string, maxLength: nat)
    requires 0 < |s| <= maxLength && InBasicPlane(s) && '!' <= s[0] <= '~'
    ensures Required(s, maxLength)
  {
    LengthInBasicPlane(s);
    assert !IsWhiteSpace(s[0]);
  }

  datatype Patient = Patient(
    id: Id,
    name: string,
    age: int,
    gender: string,
    phone: string,
    email: string,
    address: string,
    emergencyContact: string,
    createdAt: Timestamp,
    updatedAt: Option<Timestamp>)
  {
    /** The annotations on Patient's properties. */
    predicate Valid()
    {
      && Required(name, 100)
      && 1 <= age <= 120
      && Required(gender, 10)
      && Required(phone, 20)
      && Required(email, 100) && IsEmailAddress(email)
      && Required(address, 500)
      && Required(emergencyContact, 200)
    }
  }

  datatype Consultation = Consultation(
    id: Id,
    patientId: Id,
    date: CalendarDate,
    time: string,
    status: string,
    notes: string,
    createdAt: Timestamp,
    updatedAt: Option<Timestamp>)
  {
    /** The annotations on Consultation's properties (PatientId, a Guid, is always present). */
    predicate Valid()
    {
      && Required(time, 5)
      && Required(status, 20)
      && Required(notes, 1000)
    }
  }

  datatype Attachment = Attachment(
    id: Id,
    consultationId: Id,
    fileName: string,
    filePath: string,
    contentType: string,
    fileSize: int,
    createdAt: Timestamp)
  {
    /** The annotations on ConsultationAttachment's properties. */
    predicate Valid()
    {
      && Required(fileName, 255)
      && Required(filePath, 500)
      && Required(contentType, 100)
    }
  }

  /** A Consultation as `new Consultation()` leaves it before any property is set. */
  function NewConsultation(): (c: Consultation)
    ensures c.status == Pending && IsStatus(c.status)
    ensures c.updatedAt == None && c.id == EmptyId && c.date == MinDate
  {
    Consultation(EmptyId, EmptyId, MinDate, "", Pending, "", 0, None)
  }
}
