/**
 * `IndexedDBTeacherDAO` (src/controllers/IndexedDBTeacherDAO.ts) over its object store
 * `teachers`, whose key path is `id` and which carries a UNIQUE index on `email`.
 * Unlike the other two DAOs it hands the `Teacher` object itself to `add`/`put` and
 * returns what the store holds without `Teacher.fromJSON`: readers get plain documents,
 * not `Teacher` objects.
 *
 * What the store receives is modelled as the teacher's `toJSON()` document (`Save`,
 * `Update`). Storing the object as written would never succeed: `AddObjectAsWritten`
 * shows why.
 */
module TeacherDao {
  import opened Wrappers
  import opened Seqs
  import opened Entities
  import opened Documents
  import opened Entries
  import opened ObjectStore
  import opened TeacherJson
  import TeacherModel

  type Store = seq<Entry<TeacherDoc>>

  /** The key path of the unique index. */
  function Email(d: TeacherDoc): string {
    d.email
  }

  /**
   * Records in key order, each filed under its own document's `id`, no two sharing an
   * email, each with its `courses` array.
   */
  ghost predicate StoreOk(st: Store) {
    && Sorted(st)
    && (forall e :: e in st ==> e.key == e.value.id && e.value.courses.Some?)
    && UniqueIndex(st, Email)
  }

  /** Some record under a key other than `id` has email `email`. */
  ghost predicate EmailTaken(st: Store, id: string, email: string) {
    exists e :: e in st && e.key != id && e.value.email == email
  }

  lemma ClashesIsEmailTaken(st: Store, d: TeacherDoc)
    ensures Clashes(st, Email, d.id, d) <==> EmailTaken(st, d.id, d.email)
  {
    if EmailTaken(st, d.id, d.email) {
      var e :| e in st && e.key != d.id && e.value.email == d.email;
      var i :| 0 <= i < |st| && st[i] == e;
    }
  }

  // ---- the write as the source states it ----

  /**
   * The own properties of a structured clone of a `Teacher` object: its four fields.
   * `id`, `name`, `email` and `courses` are accessors on `Teacher.prototype`, and a
   * structured clone keeps own data properties only.
   */
  const TeacherOwnProperties: set<string> := {"_id", "_name", "_email", "_courses"}

  /**
   * Extracting the in-line key `id` from a clone (the W3C Indexed Database API's
   * "extract a key from a value using a key path"): it fails unless the clone has an
   * own property with the key path's name.
   */
  function ExtractKey(ownProperties: set<string>, keyPath: string, value: string): (r: Option<string>)
    ensures r.Some? <==> keyPath in ownProperties
  {
    if keyPath in ownProperties then Some(value) else None
  }

  /**
   * `store.add(teacher)` with the `Teacher` object itself (src/controllers/IndexedDBTeacherDAO.ts:36):
   * the store has in-line keys and no key generator, so a clone without a key is
   * refused with a DataError.
   */
  function AddObjectAsWritten(st: Store, h: Heap, t: Ref): (r: Result<Store>)
    requires StoreOk(st) && Serialisable(h, t)
    ensures r.Success? ==> "id" in TeacherOwnProperties && Sorted(r.value)
    ensures "id" !in TeacherOwnProperties ==> r == Failure(DataError)
  {
    match ExtractKey(TeacherOwnProperties, "id", h.teachers[t].id)
    case None => Failure(DataError)
    case Some(k) => Add(st, k, ToJSON(h, t), Some(Email))
  }

  /** Every `save` as written is refused, whatever the store holds. */
  lemma AddObjectAsWrittenAlwaysFails(st: Store, h: Heap, t: Ref)
    requires StoreOk(st) && Serialisable(h, t)
    ensures AddObjectAsWritten(st, h, t) == Failure(DataError)
  {
    assert "id" !in TeacherOwnProperties;
  }

  /**
   * `store.put(teacher)` with the `Teacher` object itself (src/controllers/IndexedDBTeacherDAO.ts:92):
   * the same key extraction as `add`, so it is refused with a DataError as well.
   */
  function PutObjectAsWritten(st: Store, h: Heap, t: Ref): (r: Result<Store>)
    requires StoreOk(st) && Serialisable(h, t)
    ensures r.Success? ==> "id" in TeacherOwnProperties && Sorted(r.value)
    ensures "id" !in TeacherOwnProperties ==> r == Failure(DataError)
  {
    match ExtractKey(TeacherOwnProperties, "id", h.teachers[t].id)
    case None => Failure(DataError)
    case Some(k) => Put(st, k, ToJSON(h, t), Some(Email))
  }

  /** Every `update` as written is refused, whatever the store holds. */
  lemma PutObjectAsWrittenAlwaysFails(st: Store, h: Heap, t: Ref)
    requires StoreOk(st) && Serialisable(h, t)
    ensures PutObjectAsWritten(st, h, t) == Failure(DataError)
  {
    assert "id" !in TeacherOwnProperties;
  }

  // ---- the DAO as modelled: the teacher's document is stored ----

  /**
   * `save(teacher)`, storing `teacher.toJSON()`: fails with a ConstraintError when the id
   * is already stored or another record has the email.
   */
  function Save(st: Store, h: Heap, t: Ref): (r: Result<Store>)
    requires StoreOk(st) && Serialisable(h, t)
    ensures r.Failure? <==> h.teachers[t].id in Keys(st) || EmailTaken(st, h.teachers[t].id, h.teachers[t].email)
    ensures r.Failure? ==> r.error == ConstraintError
    ensures r.Success? ==> StoreOk(r.value)
    ensures r.Success? ==>
      forall id :: Lookup(r.value, id) == if id == h.teachers[t].id then Some(ToJSON(h, t)) else Lookup(st, id)
  {
    var d := ToJSON(h, t);
    ClashesIsEmailTaken(st, d);
    Add(st, d.id, d, Some(Email))
  }

  /** `update(teacher)`: an upsert that fails only when another teacher has the email. */
  function Update(st: Store, h: Heap, t: Ref): (r: Result<Store>)
    requires StoreOk(st) && Serialisable(h, t)
    ensures r.Failure? <==> EmailTaken(st, h.teachers[t].id, h.teachers[t].email)
    ensures r.Failure? ==> r.error == ConstraintError
    ensures r.Success? ==> StoreOk(r.value)
    ensures r.Success? ==>
      forall id :: Lookup(r.value, id) == if id == h.teachers[t].id then Some(ToJSON(h, t)) else Lookup(st, id)
  {
    var d := ToJSON(h, t);
    ClashesIsEmailTaken(st, d);
    Put(st, d.id, d, Some(Email))
  }

  /** `delete(id)`: removes the record if there is one; an absent id is not an error. */
  function Delete(st: Store, id: string): (r: Store)
    requires StoreOk(st)
    ensures StoreOk(r)
    ensures forall k :: Lookup(r, k) == if k == id then None else Lookup(st, k)
  {
    RemoveKeepsUnique(st, Email, id);
    Remove(st, id)
  }

  /** `findById(id)`: the stored document itself, or nothing. */
  function FindById(st: Store, id: string): (r: Option<TeacherDoc>)
    requires StoreOk(st)
    ensures r.Some? <==> id in Keys(st)
    ensures r.Some? ==> Entry(id, r.value) in st && r.value.id == id
  {
    Lookup(st, id)
  }

  /** `findByEmail(email)`: THE stored document with that email, or nothing. */
  function FindByEmail(st: Store, email: string): (r: Option<TeacherDoc>)
    requires StoreOk(st)
    ensures r.Some? <==> exists e :: e in st && e.value.email == email
    ensures r.Some? ==> forall e :: e in st && e.value.email == email ==> e.value == r.value
  {
    var r := IndexLookup(st, Email, email);
    assert r.Some? ==> forall e :: e in st && e.value.email == email ==> e.value == r.value by {
      if r.Some? {
        forall e | e in st && e.value.email == email
          ensures e.value == r.value
        {
          SortedDistinct(st);
          IndexLookupUnique(st, Email, e);
        }
      }
    }
    r
  }

  /** `findAll()`: the stored documents in key order, as they are. */
  function FindAll(st: Store): (r: seq<TeacherDoc>)
    requires StoreOk(st)
    ensures |r| == |st| && forall i :: 0 <= i < |st| ==> r[i] == st[i].value && r[i].courses.Some?
  {
    assert forall i :: 0 <= i < |st| ==> st[i] in st;
    Values(st)
  }

  /** `teacher.courses.some(course => course.id === courseId)` on a stored document. */
  predicate Teaches(d: TeacherDoc, courseId: string) {
    d.courses.Some? && exists j :: 0 <= j < |d.courses.value| && d.courses.value[j].id == courseId
  }

  /** No document before position `i` teaches the course. */
  ghost predicate NoneTeachBefore(ds: seq<TeacherDoc>, i: int, courseId: string)
    requires 0 <= i <= |ds|
  {
    forall j :: 0 <= j < i ==> !Teaches(ds[j], courseId)
  }

  /** `Array.prototype.find`: the first document that teaches the course. */
  function FirstTeaching(ds: seq<TeacherDoc>, courseId: string): (r: Option<TeacherDoc>)
    ensures r.Some? <==> exists i :: 0 <= i < |ds| && Teaches(ds[i], courseId)
    ensures r.Some? ==>
      exists i :: 0 <= i < |ds| && ds[i] == r.value && Teaches(ds[i], courseId) && NoneTeachBefore(ds, i, courseId)
  {
    if ds == [] then None
    else if Teaches(ds[0], courseId) then Some(ds[0])
    else
      var r := FirstTeaching(ds[1..], courseId);
      assert forall i :: 1 <= i < |ds| ==> ds[i] == ds[1..][i - 1];
      assert r.Some? ==>
        exists i :: 0 <= i < |ds| && ds[i] == r.value && Teaches(ds[i], courseId) && NoneTeachBefore(ds, i, courseId)
      by {
        if r.Some? {
          var i :| 0 <= i < |ds| - 1 && ds[1..][i] == r.value && Teaches(ds[1..][i], courseId)
            && NoneTeachBefore(ds[1..], i, courseId);
          assert ds[i + 1] == r.value;
          assert NoneTeachBefore(ds, i + 1, courseId);
        }
      }
      r
  }

  /**
   * `findByCourse(courseId)`: the first stored document, in key order, that lists the
   * course, or nothing: one teacher at most, not the list `TeacherDAO` declares.
   */
  function FindByCourse(st: Store, courseId: string): (r: Option<TeacherDoc>)
    requires StoreOk(st)
    ensures r.Some? <==> exists i :: 0 <= i < |st| && Teaches(st[i].value, courseId)
    ensures r.Some? ==>
      exists i :: 0 <= i < |st| && st[i].value == r.value && Teaches(r.value, courseId) && NoneTeachBefore(Values(st), i, courseId)
  {
    FirstTeaching(FindAll(st), courseId)
  }

  /**
   * The scenario of src/tests/testTeacherDAO.ts:45-62: after a course is assigned and the
   * teacher updated, the document `findById` returns lists that course's id.
   */
  lemma AssignedCourseSurvivesUpdate(st: Store, h: Heap, t: Ref, c: Ref)
    requires StoreOk(st) && Valid(h) && t in h.teachers && c in h.courses
    requires Update(st, TeacherModel.AssignCourse(h, t, c), t).Success?
    ensures var r := FindById(Update(st, TeacherModel.AssignCourse(h, t, c), t).value, h.teachers[t].id);
      r.Some? && Teaches(r.value, h.courses[c].id)
  {
    var h1 := TeacherModel.AssignCourse(h, t, c);
    var d := ToJSON(h1, t);
    var j :| 0 <= j < |h1.teachers[t].courses| && h1.teachers[t].courses[j] == c;
    assert d.courses.value[j].id == h.courses[c].id;
  }
}
