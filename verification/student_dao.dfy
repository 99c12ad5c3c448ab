/**
 * `IndexedDBStudentDAO` (src/controllers/IndexedDBStudentDAO.ts) over its object store
 * `students`, whose key path is `id` and which carries a UNIQUE index on `email`.
 * Writes store `student.toJSON()`, so `add` and `put` both refuse a second student with
 * an email already filed under another id. Reads rebuild fresh objects with
 * `Student.fromJSON`; `delete` is a stub that always throws.
 */
module StudentDao {
  import opened Wrappers
  import opened Seqs
  import opened Entities
  import opened Documents
  import opened Entries
  import opened ObjectStore
  import opened StudentJson
  import StudentModel

  type Store = seq<Entry<StudentDoc>>

  /** The key path of the unique index. */
  function Email(d: StudentDoc): string {
    d.email
  }

  /**
   * Records in key order, each filed under its own document's `id`, no two sharing an
   * email, and each written by `toJSON` (so it has its `enrolledCourses` array).
   */
  ghost predicate StoreOk(st: Store) {
    && Sorted(st)
    && (forall e :: e in st ==> e.key == e.value.id && e.value.enrolledCourses.Some?)
    && UniqueIndex(st, Email)
  }

  /** Some record under a key other than `id` has email `email`. */
  ghost predicate EmailTaken(st: Store, id: string, email: string) {
    exists e :: e in st && e.key != id && e.value.email == email
  }

  /**
   * `save(student)`: `store.add(student.toJSON())`. It fails with a ConstraintError when
   * the id is already stored or when another record already has the email.
   */
  function Save(st: Store, h: Heap, s: Ref): (r: Result<Store>)
    requires StoreOk(st) && Serialisable(h, s)
    ensures r.Failure? <==> h.students[s].id in Keys(st) || EmailTaken(st, h.students[s].id, h.students[s].email)
    ensures r.Failure? ==> r.error == ConstraintError
    ensures r.Success? ==> StoreOk(r.value)
    ensures r.Success? ==>
      forall id :: Lookup(r.value, id) == if id == h.students[s].id then Some(ToJSON(h, s)) else Lookup(st, id)
  {
    var d := ToJSON(h, s);
    assert Clashes(st, Email, d.id, d) <==> EmailTaken(st, d.id, d.email) by {
      if EmailTaken(st, d.id, d.email) {
        var e :| e in st && e.key != d.id && e.value.email == d.email;
        var i :| 0 <= i < |st| && st[i] == e;
      }
    }
    Add(st, d.id, d, Some(Email))
  }

  /**
   * `update(student)`: `store.put(student.toJSON())`, an upsert that fails with a
   * ConstraintError only when another student already has the email.
   */
  function Update(st: Store, h: Heap, s: Ref): (r: Result<Store>)
    requires StoreOk(st) && Serialisable(h, s)
    ensures r.Failure? <==> EmailTaken(st, h.students[s].id, h.students[s].email)
    ensures r.Failure? ==> r.error == ConstraintError
    ensures r.Success? ==> StoreOk(r.value)
    ensures r.Success? ==>
      forall id :: Lookup(r.value, id) == if id == h.students[s].id then Some(ToJSON(h, s)) else Lookup(st, id)
  {
    var d := ToJSON(h, s);
    assert Clashes(st, Email, d.id, d) <==> EmailTaken(st, d.id, d.email) by {
      if EmailTaken(st, d.id, d.email) {
        var e :| e in st && e.key != d.id && e.value.email == d.email;
        var i :| 0 <= i < |st| && st[i] == e;
      }
    }
    Put(st, d.id, d, Some(Email))
  }

  /** `delete(id)` throws "Method not implemented." whatever the store holds. */
  function Delete(st: Store, id: string): (r: Result<Store>)
    ensures r.Failure? && r.error == NotImplemented
  {
    Failure(NotImplemented)
  }

  /**
   * `s` is a student object allocated after `h0` that serialises, in `h`, to exactly
   * `d`: `Student.fromJSON` loses nothing that `toJSON` writes.
   */
  ghost predicate Rebuilt(h0: Heap, h: Heap, s: Ref, d: StudentDoc) {
    s !in h0.students && Serialisable(h, s) && ToJSON(h, s) == d
  }

  /** `findById(id)`: `fromJSON` of the stored document, or nothing (and no allocation). */
  function FindById(st: Store, h: Heap, id: string): (res: (Heap, Option<Ref>))
    requires StoreOk(st) && Allocated(h)
    ensures Allocated(res.0) && OnlyAllocates(h, res.0)
    ensures res.1.Some? <==> id in Keys(st)
    ensures res.1.None? ==> res.0 == h
    ensures res.1.Some? ==> Rebuilt(h, res.0, res.1.value, Lookup(st, id).value)
  {
    match Lookup(st, id)
    case None => (h, None)
    case Some(d) =>
      var r := FromJSON(h, d).value;
      (r.0, Some(r.1))
  }

  /**
   * `findByEmail(email)`: `index('email').get(email)` rebuilt by `fromJSON`. Under the
   * unique index the student found is THE stored student with that email.
   */
  function FindByEmail(st: Store, h: Heap, email: string): (res: (Heap, Option<Ref>))
    requires StoreOk(st) && Allocated(h)
    ensures Allocated(res.0) && OnlyAllocates(h, res.0)
    ensures res.1.Some? <==> exists e :: e in st && e.value.email == email
    ensures res.1.None? ==> res.0 == h
    ensures res.1.Some? ==> forall e :: e in st && e.value.email == email ==> Rebuilt(h, res.0, res.1.value, e.value)
  {
    match IndexLookup(st, Email, email)
    case None => (h, None)
    case Some(d) =>
      assert d.enrolledCourses.Some? by {
        var j :| 0 <= j < |st| && Values(st)[j] == d;
        assert st[j] in st;
      }
      var r := FromJSON(h, d).value;
      assert forall e :: e in st && e.value.email == email ==> e.value == d by {
        forall e | e in st && e.value.email == email
          ensures e.value == d
        {
          SortedDistinct(st);
          IndexLookupUnique(st, Email, e);
        }
      }
      (r.0, Some(r.1))
  }

  /** `documents.map(Student.fromJSON)`: one fresh student per document, in order. */
  function RebuildAll(h: Heap, ds: seq<StudentDoc>): (res: (Heap, seq<Ref>))
    requires Allocated(h) && forall i :: 0 <= i < |ds| ==> ds[i].enrolledCourses.Some?
    ensures Allocated(res.0) && OnlyAllocates(h, res.0)
    ensures |res.1| == |ds| && NoDup(res.1)
    ensures forall i :: 0 <= i < |ds| ==> Rebuilt(h, res.0, res.1[i], ds[i])
    decreases |ds|
  {
    if ds == [] then (h, [])
    else
      var first := FromJSON(h, ds[0]).value;
      var rest := RebuildAll(first.0, ds[1..]);
      RebuildStep(h, first.0, rest.0, first.1, rest.1, ds);
      (rest.0, [first.1] + rest.1)
  }

  /** The step of `RebuildAll`: the head's student survives the rebuilding of the tail. */
  lemma RebuildStep(h: Heap, h1: Heap, h2: Heap, s: Ref, ss: seq<Ref>, ds: seq<StudentDoc>)
    requires ds != [] && OnlyAllocates(h, h1) && OnlyAllocates(h1, h2)
    requires s in h1.students && Rebuilt(h, h1, s, ds[0])
    requires |ss| == |ds| - 1 && NoDup(ss)
    requires forall i :: 0 <= i < |ss| ==> Rebuilt(h1, h2, ss[i], ds[1..][i])
    ensures OnlyAllocates(h, h2) && NoDup([s] + ss)
    ensures forall i :: 0 <= i < |ds| ==> Rebuilt(h, h2, ([s] + ss)[i], ds[i])
  {
    OnlyAllocatesTransitive(h, h1, h2);
    var all := [s] + ss;
    forall i | 0 <= i < |ds|
      ensures Rebuilt(h, h2, all[i], ds[i])
    {
      if i == 0 {
        RebuiltLater(h, h1, h2, s, ds[0]);
      } else {
        assert all[i] == ss[i - 1] && ds[i] == ds[1..][i - 1];
        RebuiltSince(h, h1, h2, ss[i - 1], ds[i]);
      }
    }
    forall j | 1 <= j < |all|
      ensures all[j] != s
    {
      assert all[j] == ss[j - 1];
      assert Rebuilt(h1, h2, ss[j - 1], ds[1..][j - 1]);
    }
  }

  /** A rebuilt student stays rebuilt while other objects are allocated. */
  lemma RebuiltLater(h0: Heap, h: Heap, h': Heap, s: Ref, d: StudentDoc)
    requires Rebuilt(h0, h, s, d) && OnlyAllocates(h, h')
    ensures Rebuilt(h0, h', s, d)
  {
    ToJSONKept(h, h', s);
  }

  /** A student allocated after `h1` was allocated after any earlier `h0` too. */
  lemma RebuiltSince(h0: Heap, h1: Heap, h: Heap, s: Ref, d: StudentDoc)
    requires OnlyAllocates(h0, h1) && Rebuilt(h1, h, s, d)
    ensures Rebuilt(h0, h, s, d)
  {
  }

  /**
   * `findAll()`: the records in key order, each rebuilt by `fromJSON` into a fresh
   * student whose document is exactly the stored one.
   */
  function FindAll(st: Store, h: Heap): (res: (Heap, seq<Ref>))
    requires StoreOk(st) && Allocated(h)
    ensures Allocated(res.0) && OnlyAllocates(h, res.0)
    ensures |res.1| == |st| && NoDup(res.1)
    ensures forall i :: 0 <= i < |st| ==> Rebuilt(h, res.0, res.1[i], st[i].value)
  {
    assert forall i :: 0 <= i < |st| ==> st[i] in st;
    RebuildAll(h, Values(st))
  }

  /** A student document lists a course with id `courseId`. */
  predicate Enrolled(d: StudentDoc, courseId: string) {
    d.enrolledCourses.Some? &&
    exists j :: 0 <= j < |d.enrolledCourses.value| && d.enrolledCourses.value[j].id == courseId
  }

  function EnrolledIn(courseId: string): StudentDoc -> bool {
    d => Enrolled(d, courseId)
  }

  /** `student.enrolledCourses.some(course => course.id === courseId)` on a live student. */
  predicate TakesCourse(h: Heap, courseId: string, s: Ref) {
    && s in h.students
    && exists j :: 0 <= j < |h.students[s].enrolledCourses| &&
         h.students[s].enrolledCourses[j] in h.courses && h.courses[h.students[s].enrolledCourses[j]].id == courseId
  }

  function TakesCourseIn(h: Heap, courseId: string): Ref -> bool {
    (s: Ref) => TakesCourse(h, courseId, s)
  }

  /** The documents `toJSON` writes for each student of `ss`, in order. */
  function Snapshots(h: Heap, ss: seq<Ref>): (ds: seq<StudentDoc>)
    requires forall s :: s in ss ==> Serialisable(h, s)
    ensures |ds| == |ss|
    ensures forall i :: 0 <= i < |ss| ==> ds[i] == ToJSON(h, ss[i])
  {
    if ss == [] then [] else [ToJSON(h, ss[0])] + Snapshots(h, ss[1..])
  }

  /**
   * `findByCourse(courseId)`: `findAll`, keep the students enrolled in the course, and
   * pass each kept student through `Student.fromJSON` once more. The result is one
   * fresh student per stored document that lists the course, in key order, each
   * serialising to exactly its stored document.
   */
  function FindByCourse(st: Store, h: Heap, courseId: string): (res: (Heap, seq<Ref>))
    requires StoreOk(st) && Allocated(h)
    ensures Allocated(res.0) && OnlyAllocates(h, res.0) && NoDup(res.1)
    ensures var docs := Filter(Values(st), EnrolledIn(courseId));
      |res.1| == |docs| && forall j :: 0 <= j < |docs| ==> Rebuilt(h, res.0, res.1[j], docs[j])
  {
    var all := FindAll(st, h);
    var chosen := Filter(all.1, TakesCourseIn(all.0, courseId));
    FindAllSnapshots(st, h);
    FilterSnapshots(all.0, all.1, courseId);
    var again := RebuildAll(all.0, Snapshots(all.0, chosen));
    RebuiltAllSince(h, all.0, again.0, again.1, Snapshots(all.0, chosen));
    again
  }

  /** `findAll` gives back exactly the stored documents, in key order. */
  lemma FindAllSnapshots(st: Store, h: Heap)
    requires StoreOk(st) && Allocated(h)
    ensures var all := FindAll(st, h);
      (forall s :: s in all.1 ==> Serialisable(all.0, s)) && Snapshots(all.0, all.1) == Values(st)
  {
    var all := FindAll(st, h);
    forall i | 0 <= i < |st|
      ensures Serialisable(all.0, all.1[i]) && Snapshots(all.0, all.1)[i] == Values(st)[i]
    {
      assert Rebuilt(h, all.0, all.1[i], st[i].value);
    }
  }

  lemma RebuiltAllSince(h0: Heap, h1: Heap, h: Heap, ss: seq<Ref>, ds: seq<StudentDoc>)
    requires OnlyAllocates(h0, h1) && |ss| == |ds|
    requires forall j :: 0 <= j < |ss| ==> Rebuilt(h1, h, ss[j], ds[j])
    ensures forall j :: 0 <= j < |ss| ==> Rebuilt(h0, h, ss[j], ds[j])
  {
    forall j | 0 <= j < |ss|
      ensures Rebuilt(h0, h, ss[j], ds[j])
    {
      RebuiltSince(h0, h1, h, ss[j], ds[j]);
    }
  }

  /**
   * Keeping the live students enrolled in a course keeps exactly the documents that
   * list the course: filtering commutes with `toJSON`.
   */
  lemma {:induction false} FilterSnapshots(h: Heap, ss: seq<Ref>, courseId: string)
    requires forall s :: s in ss ==> Serialisable(h, s)
    ensures Snapshots(h, Filter(ss, TakesCourseIn(h, courseId))) == Filter(Snapshots(h, ss), EnrolledIn(courseId))
  {
    if ss != [] {
      TakesCourseMeansEnrolled(h, courseId, ss[0]);
      FilterSnapshots(h, ss[1..], courseId);
      var kept := Filter(ss[1..], TakesCourseIn(h, courseId));
      assert Snapshots(h, [ss[0]] + kept) == [ToJSON(h, ss[0])] + Snapshots(h, kept) by {
        assert ([ss[0]] + kept)[1..] == kept;
      }
    }
  }

  /** A live student takes a course exactly when its document lists the course. */
  lemma TakesCourseMeansEnrolled(h: Heap, courseId: string, s: Ref)
    requires Serialisable(h, s)
    ensures TakesCourse(h, courseId, s) <==> Enrolled(ToJSON(h, s), courseId)
  {
    var d := ToJSON(h, s);
    if Enrolled(d, courseId) {
      var j :| 0 <= j < |d.enrolledCourses.value| && d.enrolledCourses.value[j].id == courseId;
      assert h.students[s].enrolledCourses[j] in h.courses;
    }
    if TakesCourse(h, courseId, s) {
      var j :| 0 <= j < |h.students[s].enrolledCourses| &&
        h.students[s].enrolledCourses[j] in h.courses && h.courses[h.students[s].enrolledCourses[j]].id == courseId;
      assert d.enrolledCourses.value[j].id == courseId;
    }
  }

  /** Rebuilding keeps a valid heap valid. */
  lemma {:induction false} RebuildAllValid(h: Heap, ds: seq<StudentDoc>)
    requires Valid(h) && forall i :: 0 <= i < |ds| ==> ds[i].enrolledCourses.Some?
    ensures Valid(RebuildAll(h, ds).0)
    decreases |ds|
  {
    if ds != [] {
      FromJSONValid(h, ds[0]);
      RebuildAllValid(FromJSON(h, ds[0]).value.0, ds[1..]);
    }
  }

  lemma FindAllValid(st: Store, h: Heap)
    requires StoreOk(st) && Valid(h)
    ensures Valid(FindAll(st, h).0)
  {
    assert forall i :: 0 <= i < |st| ==> st[i] in st;
    RebuildAllValid(h, Values(st));
  }

  lemma FindByIdValid(st: Store, h: Heap, id: string)
    requires StoreOk(st) && Valid(h)
    ensures Valid(FindById(st, h, id).0)
  {
    if Lookup(st, id).Some? {
      FromJSONValid(h, Lookup(st, id).value);
    }
  }

  lemma FindByEmailValid(st: Store, h: Heap, email: string)
    requires StoreOk(st) && Valid(h)
    ensures Valid(FindByEmail(st, h, email).0)
  {
    var d := IndexLookup(st, Email, email);
    if d.Some? {
      var j :| 0 <= j < |st| && Values(st)[j] == d.value;
      assert st[j] in st;
      FromJSONValid(h, d.value);
    }
  }

  lemma FindByCourseValid(st: Store, h: Heap, courseId: string)
    requires StoreOk(st) && Valid(h)
    ensures Valid(FindByCourse(st, h, courseId).0)
  {
    var all := FindAll(st, h);
    FindAllValid(st, h);
    var chosen := Filter(all.1, TakesCourseIn(all.0, courseId));
    FindAllSnapshots(st, h);
    RebuildAllValid(all.0, Snapshots(all.0, chosen));
  }

  /** A saved student is found by its email, serialising to exactly what was saved. */
  lemma SaveThenFindByEmail(st: Store, h: Heap, s: Ref, h': Heap)
    requires StoreOk(st) && Serialisable(h, s) && Save(st, h, s).Success? && Allocated(h')
    ensures var res := FindByEmail(Save(st, h, s).value, h', h.students[s].email);
      res.1.Some? && ToJSON(res.0, res.1.value) == ToJSON(h, s)
  {
    var st' := Save(st, h, s).value;
    var e := Entry(h.students[s].id, ToJSON(h, s));
    LookupEntry(st', e) by {
      SortedDistinct(st');
      assert Lookup(st', e.key) == Some(e.value);
    }
    assert e in st';
  }

  /**
   * The scenario of src/__tests__/dao/IndexedDBStudentDAO.test.ts:36-43: a service added
   * to a student and written with `update` is among the services `findById` reads back.
   */
  lemma AddedServiceSurvivesUpdate(st: Store, h: Heap, s: Ref, service: string, h': Heap)
    requires StoreOk(st) && Valid(h) && s in h.students && Allocated(h')
    requires Update(st, StudentModel.AddService(h, s, service), s).Success?
    ensures var res := FindById(Update(st, StudentModel.AddService(h, s, service), s).value, h', h.students[s].id);
      res.1.Some? && service in res.0.students[res.1.value].extraServices
  {
    var h1 := StudentModel.AddService(h, s, service);
    var res := FindById(Update(st, h1, s).value, h', h.students[s].id);
    assert Rebuilt(h', res.0, res.1.value, ToJSON(h1, s));
  }

  /**
   * The scenario of src/__tests__/dao/IndexedDBStudentDAO.test.ts:63-71: a student
   * enrolled in a course and saved into an empty store is the one student
   * `findByCourse` returns for that course.
   */
  lemma EnrolledStudentFoundByCourse(h: Heap, s: Ref, c: Ref, h': Heap)
    requires Valid(h) && s in h.students && c in h.students[s].enrolledCourses && Allocated(h')
    ensures Save([], h, s).Success?
    ensures var res := FindByCourse(Save([], h, s).value, h', h.courses[c].id);
      |res.1| == 1 && res.0.students[res.1[0]].id == h.students[s].id
  {
    var d := ToJSON(h, s);
    var st := Save([], h, s).value;
    assert st == [Entry(d.id, d)];
    assert Values(st) == [d];
    assert Enrolled(d, h.courses[c].id) by {
      var j :| 0 <= j < |h.students[s].enrolledCourses| && h.students[s].enrolledCourses[j] == c;
      assert d.enrolledCourses.value[j].id == h.courses[c].id;
    }
    assert Filter(Values(st), EnrolledIn(h.courses[c].id)) == [d];
    var res := FindByCourse(st, h', h.courses[c].id);
    assert Rebuilt(h', res.0, res.1[0], d);
  }
}
