/**
 * The five handlers of Backend/routes/students.js, mounted at `/api/students`.
 *
 * Each handler takes the collection and the request and yields the collection
 * afterwards together with the response. What the handlers cannot see is a
 * parameter: `newId` is the ObjectId `save()` assigns, `now` the clock, and
 * `available` whether the database answers at all. Every failure inside a
 * handler's `try` — a validation error, a duplicate key, a cast error, an
 * unreachable database — is answered with status 500, as the code does.
 */
module StudentRoutes {
  import opened Wrappers
  import opened StudentSchema
  import Lists

  /** What the `error` member of a 500 response carries. */
  datatype ErrorKind =
    | ValidationError(paths: set<Path>)
    | DuplicateKey
    | CastError
    | StorageError

  datatype Payload =
    | Record(student: Student)
    | Records(students: seq<Student>)
    | Message(text: string)
    | Failure(text: string, error: ErrorKind)

  datatype Response = Response(status: int, payload: Payload)

  /** The collection after a request, and the response sent for it. */
  datatype Reply = Reply(store: Store, response: Response)

  const NotFound: Response := Response(404, Message("Student not found"))

  function ServerError(text: string, e: ErrorKind): Response {
    Response(500, Failure(text, e))
  }

  /** The status codes the router ever sends. */
  predicate KnownStatus(r: Response) {
    r.status in {200, 201, 404, 500}
  }

  // ---------------------------------------------------------------------------
  // POST /api/students
  // ---------------------------------------------------------------------------

  /** Builds a document from `name`, `email`, `dob`, `phone` and `year` of the body and saves it. */
  function Create(st: Store, body: Body, newId: Key, now: Time, available: bool): (r: Reply)
    ensures r.response.status == 201 || r.response.status == 500
    ensures r.response.status == 201 <==>
              && ValidationErrors(body) == {}
              && available
              && newId !in st.docs
              && !EmailTaken(st.docs, newId, Stored(body.email))
    ensures r.response.status == 500 ==>
              r.store == st && r.response.payload.Failure? && r.response.payload.text == "Error creating student"
    ensures r.response.status == 201 ==>
              && r.response.payload == Record(NewDocument(newId, body, now))
              && r.store.docs == st.docs[newId := NewDocument(newId, body, now)]
              && r.store.order == st.order + [newId]
  {
    var doc := NewDocument(newId, body, now);
    var errors := ValidationErrors(body);
    if errors != {} then
      Reply(st, ServerError("Error creating student", ValidationError(errors)))
    else if !available then
      Reply(st, ServerError("Error creating student", StorageError))
    else if newId in st.docs || EmailTaken(st.docs, newId, doc.email) then
      Reply(st, ServerError("Error creating student", DuplicateKey))
    else
      Reply(Store(st.docs[newId := doc], st.order + [newId]), Response(201, Record(doc)))
  }

  // ---------------------------------------------------------------------------
  // GET /api/students
  // ---------------------------------------------------------------------------

  /** `find()`: every document, in natural order. */
  function List(st: Store, available: bool): (r: Reply)
    ensures r.store == st
    ensures r.response.status == 200 <==> available
    ensures !available ==> r.response == ServerError("Error fetching students", StorageError)
    ensures available ==> r.response.payload.Records?
  {
    if !available then Reply(st, ServerError("Error fetching students", StorageError))
    else Reply(st, Response(200, Records(Listing(st.order, st.docs))))
  }

  /** The list holds every stored document, and nothing that is not stored. */
  lemma ListReturnsEveryDocument(st: Store)
    requires Valid(st)
    ensures var students := List(st, true).response.payload.students;
            && |students| == |st.order|
            && (forall k :: k in st.docs ==> st.docs[k] in students)
            && (forall s :: s in students ==> s.id in st.docs && st.docs[s.id] == s)
  {
    var students := List(st, true).response.payload.students;
    forall k | k in st.docs
      ensures st.docs[k] in students
    {
      var i :| 0 <= i < |st.order| && st.order[i] == k;
      assert students[i] == st.docs[k];
    }
  }

  // ---------------------------------------------------------------------------
  // GET /api/students/:id
  // ---------------------------------------------------------------------------

  /** `findById(id)`: the document, or 404 when there is none. */
  function Get(st: Store, rawId: string, available: bool): (r: Reply)
    ensures r.store == st
    ensures KnownStatus(r.response) && r.response.status != 201
    ensures CastObjectId(rawId).None? || !available ==> r.response.status == 500
    ensures CastObjectId(rawId).Some? && available ==>
              var k := CastObjectId(rawId).value;
              && (k !in st.docs <==> r.response == NotFound)
              && (k in st.docs ==> r.response == Response(200, Record(st.docs[k])))
  {
    match CastObjectId(rawId)
    case None => Reply(st, ServerError("Error fetching student", CastError))
    case Some(k) =>
      if !available then Reply(st, ServerError("Error fetching student", StorageError))
      else if k !in st.docs then Reply(st, NotFound)
      else Reply(st, Response(200, Record(st.docs[k])))
  }

  // ---------------------------------------------------------------------------
  // PUT /api/students/:id
  // ---------------------------------------------------------------------------

  /** `findByIdAndUpdate(id, body, {new: true})`: merges the body into the document and answers
      with the document as it is after the update. */
  function Update(st: Store, rawId: string, body: Body, now: Time, available: bool): (r: Reply)
    ensures KnownStatus(r.response) && r.response.status != 201
    ensures r.response.status != 200 ==> r.store == st
    ensures CastObjectId(rawId).None? || HasCastError(body) || !available ==> r.response.status == 500
    ensures CastObjectId(rawId).Some? && !HasCastError(body) && available ==>
              var k := CastObjectId(rawId).value;
              && (k !in st.docs <==> r.response == NotFound)
              && (k in st.docs ==>
                    var merged := ApplyUpdate(st.docs[k], body, now);
                    if EmailTaken(st.docs, k, merged.email) then
                      r.response == ServerError("Error updating student", DuplicateKey)
                    else
                      && r.response == Response(200, Record(merged))
                      && r.store == Store(st.docs[k := merged], st.order))
  {
    match CastObjectId(rawId)
    case None => Reply(st, ServerError("Error updating student", CastError))
    case Some(k) =>
      if HasCastError(body) then Reply(st, ServerError("Error updating student", CastError))
      else if !available then Reply(st, ServerError("Error updating student", StorageError))
      else if k !in st.docs then Reply(st, NotFound)
      else
        var merged := ApplyUpdate(st.docs[k], body, now);
        if EmailTaken(st.docs, k, merged.email) then
          Reply(st, ServerError("Error updating student", DuplicateKey))
        else
          Reply(Store(st.docs[k := merged], st.order), Response(200, Record(merged)))
  }

  // ---------------------------------------------------------------------------
  // DELETE /api/students/:id
  // ---------------------------------------------------------------------------

  /** `findByIdAndDelete(id)`: removes the document and confirms, or answers 404. */
  function Delete(st: Store, rawId: string, available: bool): (r: Reply)
    ensures KnownStatus(r.response) && r.response.status != 201
    ensures r.response.status != 200 ==> r.store == st
    ensures CastObjectId(rawId).None? || !available ==> r.response.status == 500
    ensures CastObjectId(rawId).Some? && available ==>
              var k := CastObjectId(rawId).value;
              && (k !in st.docs <==> r.response == NotFound)
              && (k in st.docs <==> r.response == Response(200, Message("Student deleted")))
              && (k in st.docs ==> r.store.docs == st.docs - {k})
  {
    match CastObjectId(rawId)
    case None => Reply(st, ServerError("Error deleting student", CastError))
    case Some(k) =>
      if !available then Reply(st, ServerError("Error deleting student", StorageError))
      else if k !in st.docs then Reply(st, NotFound)
      else
        Reply(Store(st.docs - {k}, Lists.Filter(st.order, (x: Key) => x != k)),
              Response(200, Message("Student deleted")))
  }

  // ---------------------------------------------------------------------------
  // Invariants of the collection
  // ---------------------------------------------------------------------------

  /** A successful create keeps the collection well formed and its emails unique. */
  lemma CreatePreservesInvariants(st: Store, body: Body, newId: Key, now: Time, available: bool)
    requires Valid(st) && UniqueEmails(st.docs)
    requires IsKey(newId)
    ensures Valid(Create(st, body, newId, now, available).store)
    ensures UniqueEmails(Create(st, body, newId, now, available).store.docs)
  {
    var r := Create(st, body, newId, now, available);
    if r.response.status == 201 {
      var order := st.order + [newId];
      assert newId !in st.order;
      forall i, j | 0 <= i < j < |order|
        ensures order[i] != order[j]
      {
        if j == |order| - 1 {
          assert order[i] == st.order[i];
        }
      }
    }
  }

  /** Every document a create inserts has all required paths: the collection stays complete. */
  lemma CreateKeepsDocumentsComplete(st: Store, body: Body, newId: Key, now: Time, available: bool)
    requires forall k :: k in st.docs ==> Complete(st.docs[k])
    ensures var r := Create(st, body, newId, now, available);
            forall k :: k in r.store.docs ==> Complete(r.store.docs[k])
  {
  }

  /** An update keeps the collection well formed and its emails unique. */
  lemma UpdatePreservesInvariants(st: Store, rawId: string, body: Body, now: Time, available: bool)
    requires Valid(st) && UniqueEmails(st.docs)
    ensures Valid(Update(st, rawId, body, now, available).store)
    ensures UniqueEmails(Update(st, rawId, body, now, available).store.docs)
  {
  }

  /** Removing a stored key from the map and from the natural order keeps the collection well
      formed. */
  lemma RemoveKeyKeepsValid(st: Store, k: Key)
    requires Valid(st) && k in st.docs
    ensures Valid(Store(st.docs - {k}, Lists.Filter(st.order, (x: Key) => x != k)))
  {
    var p := (x: Key) => x != k;
    Lists.FilterDistinct(st.order, p);
    var order := Lists.Filter(st.order, p);
    var docs := st.docs - {k};
    forall j | j in docs
      ensures j in order
    {
      var i :| 0 <= i < |st.order| && st.order[i] == j;
      assert p(st.order[i]);
    }
    forall i | 0 <= i < |order|
      ensures order[i] in docs
    {
      assert order[i] in st.order && p(order[i]);
    }
  }

  /** A delete keeps the collection well formed and its emails unique. */
  lemma DeletePreservesInvariants(st: Store, rawId: string, available: bool)
    requires Valid(st) && UniqueEmails(st.docs)
    ensures Valid(Delete(st, rawId, available).store)
    ensures UniqueEmails(Delete(st, rawId, available).store.docs)
  {
    if Delete(st, rawId, available).response.status == 200 {
      RemoveKeyKeepsValid(st, CastObjectId(rawId).value);
    }
  }

  // ---------------------------------------------------------------------------
  // Properties of request sequences
  // ---------------------------------------------------------------------------

  /** Create reads only the five schema fields it destructures: `courses` in the body is ignored. */
  lemma CreateIgnoresCourses(st: Store, body: Body, courses: Field<seq<Key>>, newId: Key, now: Time, available: bool)
    ensures Create(st, body, newId, now, available) == Create(st, body.(courses := courses), newId, now, available)
  {
  }

  /** A second student with an email already stored is refused with 500 and changes nothing,
      so the collection still holds exactly one document with that email. */
  lemma DuplicateEmailRejected(st: Store, body: Body, newId: Key, now: Time, available: bool, holder: Key)
    requires UniqueEmails(st.docs)
    requires holder in st.docs && newId != holder
    requires body.email.Given? && st.docs[holder].email == Some(body.email.value)
    ensures var r := Create(st, body, newId, now, available);
            && r.response.status == 500
            && r.store == st
            && (set k | k in r.store.docs && r.store.docs[k].email == Some(body.email.value)) == {holder}
  {
    assert EmailTaken(st.docs, newId, Stored(body.email));
  }

  /** A document read back right after it was created has the values the body supplied. */
  lemma CreateThenGet(st: Store, body: Body, newId: Key, now: Time)
    requires IsKey(newId)
    requires Create(st, body, newId, now, true).response.status == 201
    ensures var st' := Create(st, body, newId, now, true).store;
            var g := Get(st', newId, true);
            && g.response.status == 200
            && g.response.payload.student.id == newId
            && g.response.payload.student.name == Some(body.name.value)
            && g.response.payload.student.email == Some(body.email.value)
            && g.response.payload.student.dob == Some(body.dob.value)
            && g.response.payload.student.phone == Some(body.phone.value)
            && g.response.payload.student.year == Some(body.year.value)
            && g.response.payload.student.courses == Some([])
            && g.response.payload.student.createdAt == now
            && g.response.payload.student.updatedAt == now
  {
    CastKey(newId);
  }

  /** Update of an id with no document answers 404 and changes nothing, whatever the body. */
  lemma UpdateAbsentIsNotFound(st: Store, k: Key, body: Body, now: Time)
    requires IsKey(k) && k !in st.docs && !HasCastError(body)
    ensures Update(st, k, body, now, true) == Reply(st, NotFound)
  {
    CastKey(k);
  }

  /** A successful update leaves every path the body does not mention as it was, keeps `_id` and
      `createdAt`, and moves `updatedAt` to the time of the request. */
  lemma UpdateKeepsUnmentionedPaths(st: Store, k: Key, body: Body, now: Time)
    requires IsKey(k) && k in st.docs
    requires Update(st, k, body, now, true).response.status == 200
    ensures var s := Update(st, k, body, now, true).store.docs[k];
            var before := st.docs[k];
            && s.id == before.id && s.createdAt == before.createdAt && s.updatedAt == now
            && (body.name.Absent? ==> s.name == before.name)
            && (body.email.Absent? ==> s.email == before.email)
            && (body.dob.Absent? ==> s.dob == before.dob)
            && (body.phone.Absent? ==> s.phone == before.phone)
            && (body.year.Absent? ==> s.year == before.year)
            && (body.courses.Absent? ==> s.courses == before.courses)
  {
    CastKey(k);
  }

  /** Update runs no validator: emptying the required `name` of a complete document succeeds and
      stores a document that a create would have refused. */
  lemma UpdateSkipsRequiredCheck(st: Store, k: Key, now: Time)
    requires IsKey(k) && k in st.docs && UniqueEmails(st.docs)
    ensures var body := Body(Given(""), Absent, Absent, Absent, Absent, Absent);
            var r := Update(st, k, body, now, true);
            && r.response.status == 200
            && !Complete(r.store.docs[k])
  {
    CastKey(k);
  }

  /** Deleting twice answers 200, then 404; the second delete changes nothing. */
  lemma DeleteTwice(st: Store, k: Key)
    requires IsKey(k) && k in st.docs
    ensures var first := Delete(st, k, true);
            var second := Delete(first.store, k, true);
            && first.response == Response(200, Message("Student deleted"))
            && k !in first.store.docs
            && second.response == NotFound
            && second.store == first.store
  {
    CastKey(k);
  }

  /** The documented lifecycle: create, read, change one field, delete, read again. */
  lemma {:induction false} Lifecycle(st: Store, body: Body, newId: Key, t0: Time, t1: Time, year: int)
    requires Valid(st) && UniqueEmails(st.docs)
    requires IsKey(newId) && newId !in st.docs
    requires ValidationErrors(body) == {}
    requires !EmailTaken(st.docs, newId, Stored(body.email))
    ensures var c := Create(st, body, newId, t0, true);
            var g1 := Get(c.store, newId, true);
            var u := Update(c.store, newId, Body(Absent, Absent, Absent, Absent, Given(year), Absent), t1, true);
            var d := Delete(u.store, newId, true);
            var g2 := Get(d.store, newId, true);
            && c.response.status == 201
            && g1.response == Response(200, Record(NewDocument(newId, body, t0)))
            && u.response == Response(200, Record(NewDocument(newId, body, t0).(year := Some(year), updatedAt := t1)))
            && d.response.status == 200
            && g2.response == NotFound
  {
    CastKey(newId);
    var c := Create(st, body, newId, t0, true);
    CreatePreservesInvariants(st, body, newId, t0, true);
    var doc := NewDocument(newId, body, t0);
    assert c.store.docs[newId] == doc;
    var upd := Body(Absent, Absent, Absent, Absent, Given(year), Absent);
    var merged := ApplyUpdate(doc, upd, t1);
    assert merged == doc.(year := Some(year), updatedAt := t1);
    assert !EmailTaken(c.store.docs, newId, merged.email) by {
      assert merged.email == doc.email;
    }
  }
}
