/**
 * The `Student` document of Backend/models/student.js: its paths, which of them
 * are required, the unique index on `email`, the `courses` reference list and
 * the `createdAt`/`updatedAt` timestamps; and the collection that stores them.
 *
 * Mongoose's cast of a request value to a path's type is abstracted: a body
 * field arrives already classified as absent, null, a value of the path's
 * type, or a value that does not cast. Route parameters are cast to ObjectIds
 * concretely (24 hexadecimal digits).
 */
module StudentSchema {
  import opened Wrappers
  import Text
  import Lists

  /** Milliseconds since the epoch: the representation of a `Date` path and of the timestamps. */
  type Time = int

  // ---------------------------------------------------------------------------
  // ObjectIds
  // ---------------------------------------------------------------------------

  predicate IsHexDigit(c: char) {
    Text.IsDigit(c) || 'a' <= c <= 'f' || 'A' <= c <= 'F'
  }

  /** A string that casts to an ObjectId: exactly 24 hexadecimal digits. */
  predicate IsObjectIdText(s: string) {
    |s| == 24 && forall i :: 0 <= i < |s| ==> IsHexDigit(s[i])
  }

  /** An ObjectId in its canonical (lower-case hexadecimal) spelling: the key of a document. */
  predicate IsKey(k: string) {
    IsObjectIdText(k) && Text.Lower(k) == k
  }

  type Key = string

  /** Casting a route parameter to an ObjectId: accepted exactly when it is 24 hex digits, then lower-cased. */
  function CastObjectId(s: string): (r: Option<Key>)
    ensures r.Some? <==> IsObjectIdText(s)
    ensures r.Some? ==> IsKey(r.value)
  {
    if IsObjectIdText(s) then
      Text.LowerIdempotent(s);
      Some(Text.Lower(s))
    else None
  }

  /** A key spelled canonically casts to itself. */
  lemma CastKey(k: Key)
    requires IsKey(k)
    ensures CastObjectId(k) == Some(k)
  {
  }

  // ---------------------------------------------------------------------------
  // Request bodies and documents
  // ---------------------------------------------------------------------------

  /** One body field as the cast to its path sees it. `Invalid` is a value that does not cast
      to the path's type (a non-date for `dob`, a non-number for `year`, ...). */
  datatype Field<T> = Absent | Null | Given(value: T) | Invalid

  /** The schema paths a request body may carry. Other plain keys are dropped by the schema's strict
      mode. An update body is passed to `findByIdAndUpdate` as it is, so update operators in it
      (`$set`, `$unset`, `$push`, ...) would be applied; a `Body` does not express them. */
  datatype Body = Body(
    name: Field<string>,
    email: Field<string>,
    dob: Field<Time>,
    phone: Field<string>,
    year: Field<int>,
    courses: Field<seq<Key>>)

  /** A stored document. A path that is unset or set to null reads back as `None`. */
  datatype Student = Student(
    id: Key,
    name: Option<string>,
    email: Option<string>,
    dob: Option<Time>,
    phone: Option<string>,
    year: Option<int>,
    courses: Option<seq<Key>>,
    createdAt: Time,
    updatedAt: Time)

  datatype Path = NamePath | EmailPath | DobPath | PhonePath | YearPath

  /** The value a path receives from a body field when a document is built from it. */
  function Stored<T>(f: Field<T>): Option<T> {
    if f.Given? then Some(f.value) else None
  }

  /** A required `String` path is satisfied by a non-empty string only. */
  predicate RequiredString(f: Field<string>) {
    f.Given? && |f.value| > 0
  }

  /** A required `Date` or `Number` path is satisfied by any value of its type. */
  predicate RequiredValue<T>(f: Field<T>) {
    f.Given?
  }

  /** The paths that fail validation when a document is built from `b`: a required path that is
      missing, null, empty or uncastable. `courses` is not required and not read. */
  function ValidationErrors(b: Body): (errors: set<Path>)
    ensures NamePath in errors <==> !RequiredString(b.name)
    ensures EmailPath in errors <==> !RequiredString(b.email)
    ensures DobPath in errors <==> !RequiredValue(b.dob)
    ensures PhonePath in errors <==> !RequiredString(b.phone)
    ensures YearPath in errors <==> !RequiredValue(b.year)
  {
    (if RequiredString(b.name) then {} else {NamePath})
    + (if RequiredString(b.email) then {} else {EmailPath})
    + (if RequiredValue(b.dob) then {} else {DobPath})
    + (if RequiredString(b.phone) then {} else {PhonePath})
    + (if RequiredValue(b.year) then {} else {YearPath})
  }

  /** Every required path of a document holds a value (a non-empty one for strings). */
  predicate Complete(s: Student) {
    && s.name.Some? && |s.name.value| > 0
    && s.email.Some? && |s.email.value| > 0
    && s.dob.Some?
    && s.phone.Some? && |s.phone.value| > 0
    && s.year.Some?
  }

  /** The document `new Student({name, email, dob, phone, year})` followed by `save()` would store:
      the five fields from the body, an empty `courses` list, both timestamps at `now`. */
  function NewDocument(id: Key, b: Body, now: Time): (s: Student)
    ensures ValidationErrors(b) == {} <==> Complete(s)
    ensures s.courses == Some([])
    ensures s.createdAt == now && s.updatedAt == now
  {
    Student(id, Stored(b.name), Stored(b.email), Stored(b.dob), Stored(b.phone), Stored(b.year),
            Some([]), now, now)
  }

  /** The new value of one path under an update with field `f`. */
  function Merge<T>(prev: Option<T>, f: Field<T>): Option<T> {
    match f
    case Absent => prev
    case Null => None
    case Given(v) => Some(v)
    case Invalid => prev
  }

  /** `findByIdAndUpdate(id, body)`: every field present in the body (a value or null) overwrites
      its path, absent fields leave theirs alone, and `updatedAt` is refreshed. No validator runs. */
  function ApplyUpdate(s: Student, b: Body, now: Time): (r: Student)
    ensures r.id == s.id && r.createdAt == s.createdAt && r.updatedAt == now
    ensures b.name.Absent? ==> r.name == s.name
    ensures b.email.Absent? ==> r.email == s.email
    ensures b.dob.Absent? ==> r.dob == s.dob
    ensures b.phone.Absent? ==> r.phone == s.phone
    ensures b.year.Absent? ==> r.year == s.year
    ensures b.courses.Absent? ==> r.courses == s.courses
    ensures b.name.Given? ==> r.name == Some(b.name.value)
    ensures b.email.Given? ==> r.email == Some(b.email.value)
    ensures b.year.Given? ==> r.year == Some(b.year.value)
    ensures b.dob.Given? ==> r.dob == Some(b.dob.value)
    ensures b.phone.Given? ==> r.phone == Some(b.phone.value)
    ensures b.courses.Given? ==> r.courses == Some(b.courses.value)
    ensures b.name.Null? ==> r.name.None?
    ensures b.email.Null? ==> r.email.None?
    ensures b.dob.Null? ==> r.dob.None?
    ensures b.phone.Null? ==> r.phone.None?
    ensures b.year.Null? ==> r.year.None?
    ensures b.courses.Null? ==> r.courses.None?
  {
    s.(name := Merge(s.name, b.name),
       email := Merge(s.email, b.email),
       dob := Merge(s.dob, b.dob),
       phone := Merge(s.phone, b.phone),
       year := Merge(s.year, b.year),
       courses := Merge(s.courses, b.courses),
       updatedAt := now)
  }

  /** Some body field does not cast to its path's type. */
  predicate HasCastError(b: Body) {
    b.name.Invalid? || b.email.Invalid? || b.dob.Invalid? || b.phone.Invalid?
    || b.year.Invalid? || b.courses.Invalid?
  }

  // ---------------------------------------------------------------------------
  // The collection
  // ---------------------------------------------------------------------------

  /** The `students` collection: documents by key, and the keys in natural (insertion) order. */
  datatype Store = Store(docs: map<Key, Student>, order: seq<Key>)

  /** The unique index on `email`: no two documents share a value (two nulls collide as well). */
  ghost predicate UniqueEmails(docs: map<Key, Student>) {
    forall a, b :: a in docs && b in docs && a != b ==> docs[a].email != docs[b].email
  }

  /** The collection is well formed: each key is its document's `_id`, the natural order lists
      every key once, and emails are unique. */
  ghost predicate Valid(st: Store) {
    && (forall k :: k in st.docs ==> st.docs[k].id == k && IsKey(k))
    && (forall i :: 0 <= i < |st.order| ==> st.order[i] in st.docs)
    && (forall k :: k in st.docs ==> k in st.order)
    && Lists.Distinct(st.order)
  }

  /** The empty collection. */
  function EmptyStore(): (st: Store)
    ensures Valid(st) && UniqueEmails(st.docs)
  {
    Store(map[], [])
  }

  /** Another document than `id` already holds `email`. */
  predicate EmailTaken(docs: map<Key, Student>, id: Key, email: Option<string>) {
    exists k :: k in docs && k != id && docs[k].email == email
  }

  /** The documents in natural order (`find()`), skipping any key without a document. */
  function Listing(order: seq<Key>, docs: map<Key, Student>): (r: seq<Student>)
    ensures |r| <= |order|
    ensures (forall i :: 0 <= i < |order| ==> order[i] in docs) ==>
              |r| == |order| && forall i :: 0 <= i < |r| ==> r[i] == docs[order[i]]
    decreases |order|
  {
    if |order| == 0 then []
    else if order[0] in docs then [docs[order[0]]] + Listing(order[1..], docs)
    else Listing(order[1..], docs)
  }

}
