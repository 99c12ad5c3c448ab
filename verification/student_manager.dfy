/**
 * `StudentManager` (src/managers/StudentManager.ts): a `Map<string, Student>` cache in
 * front of the student DAO. Writes go to the DAO first and reach the cache only when the
 * DAO call succeeds; `getStudent` reads through the cache; `getAllStudents` answers from
 * the cache alone; the finders are the DAO's own. The DAO state is its object store and
 * the cached objects live in the heap.
 */
module StudentManager {
  import opened Wrappers
  import opened Seqs
  import opened Entities
  import opened Entries
  import opened ObjectStore
  import JsMap
  import StudentJson
  import StudentModel
  import opened StudentDao

  datatype Manager = Manager(cache: JsMap.Map<Ref>, store: Store)

  /**
   * A cache entry under `k` is a live student whose id is `k`, filed in the store under
   * `k` with that student's email.
   */
  ghost predicate Cached(m: Manager, h: Heap, k: string, s: Ref) {
    && s in h.students && h.students[s].id == k
    && Lookup(m.store, k).Some? && Lookup(m.store, k).value.email == h.students[s].email
  }

  /**
   * The manager invariant: the store is well formed and every cache entry is a live
   * student filed under its own id. With the manager as the only writer, every cached id
   * is a stored key whose record has the cached student's email.
   */
  ghost predicate Inv(m: Manager, h: Heap) {
    && JsMap.Valid(m.cache) && StoreOk(m.store) && Allocated(h)
    && forall k :: JsMap.Get(m.cache, k).Some? ==> Cached(m, h, k, JsMap.Get(m.cache, k).value)
  }

  /** The invariant survives any later state of the heap. */
  lemma InvLater(m: Manager, h: Heap, h': Heap)
    requires Inv(m, h) && Allocated(h') && Extends(h, h')
    ensures Inv(m, h')
  {
  }

  /** Caching a live student under its id, next to a store that files it there, keeps the invariant. */
  lemma CachePut(m: Manager, h: Heap, st: Store, s: Ref)
    requires Inv(m, h) && StoreOk(st) && s in h.students
    requires ChangedAt(m.store, st, h.students[s].id, Lookup(st, h.students[s].id))
    requires Lookup(st, h.students[s].id).Some? && Lookup(st, h.students[s].id).value.email == h.students[s].email
    ensures Inv(Manager(JsMap.Set(m.cache, h.students[s].id, s), st), h)
  {
  }

  /** The ids of the students `ss`, in order. */
  function Ids(h: Heap, ss: seq<Ref>): (ids: seq<string>)
    requires forall s :: s in ss ==> s in h.students
    ensures |ids| == |ss| && forall i :: 0 <= i < |ss| ==> ids[i] == h.students[ss[i]].id
  {
    if ss == [] then [] else [h.students[ss[0]].id] + Ids(h, ss[1..])
  }

  /**
   * `initializeStudents()`: every student `findAll` rebuilds is cached under its own id,
   * so the cache holds the stored keys in key order, each with a fresh student that
   * serialises to exactly its record.
   */
  function Initialize(st: Store, h: Heap): (res: (Manager, Heap))
    requires StoreOk(st) && Allocated(h)
    ensures Inv(res.0, res.1) && res.0.store == st && OnlyAllocates(h, res.1)
    ensures JsMap.KeyOrder(res.0.cache) == Keys(st)
    ensures forall i :: 0 <= i < |st| ==>
      && JsMap.Get(res.0.cache, st[i].key).Some?
      && Rebuilt(h, res.1, JsMap.Get(res.0.cache, st[i].key).value, st[i].value)
  {
    var all := FindAll(st, h);
    RebuiltIds(st, h);
    InitialCache(st, all.0, all.1);
    (Manager(JsMap.SetAll(JsMap.Empty(), Ids(all.0, all.1), all.1), st), all.0)
  }

  /** Every student `findAll` rebuilds carries its record's key as id and its record's email. */
  lemma RebuiltIds(st: Store, h: Heap)
    requires StoreOk(st) && Allocated(h)
    ensures var all := FindAll(st, h);
      forall i :: 0 <= i < |st| ==>
        && all.1[i] in all.0.students && all.0.students[all.1[i]].id == st[i].key
        && all.0.students[all.1[i]].email == st[i].value.email
  {
    var all := FindAll(st, h);
    forall i | 0 <= i < |st|
      ensures all.1[i] in all.0.students && all.0.students[all.1[i]].id == st[i].key
      ensures all.0.students[all.1[i]].email == st[i].value.email
    {
      assert Rebuilt(h, all.0, all.1[i], st[i].value);
      assert st[i] in st;
    }
  }

  /** Caching students that carry the stored keys as ids, in key order. */
  lemma InitialCache(st: Store, h: Heap, ss: seq<Ref>)
    requires StoreOk(st) && Allocated(h) && |ss| == |st|
    requires forall i :: 0 <= i < |st| ==>
      && ss[i] in h.students && h.students[ss[i]].id == st[i].key
      && h.students[ss[i]].email == st[i].value.email
    ensures var cache := JsMap.SetAll(JsMap.Empty(), Ids(h, ss), ss);
      && Inv(Manager(cache, st), h)
      && JsMap.KeyOrder(cache) == Keys(st)
      && forall i :: 0 <= i < |st| ==> JsMap.Get(cache, st[i].key) == Some(ss[i])
  {
    var ids := Ids(h, ss);
    assert ids == Keys(st);
    SortedDistinct(st);
    var cache := JsMap.SetAll(JsMap.Empty(), ids, ss);
    JsMap.SetAllMaps(JsMap.Empty(), ids, ss);
    JsMap.SetAllOrder(JsMap.Empty(), ids, ss);
    var m := Manager(cache, st);
    forall k | JsMap.Get(cache, k).Some? ensures Cached(m, h, k, JsMap.Get(cache, k).value) {
      var i :| 0 <= i < |ids| && ids[i] == k;
      LookupEntry(st, st[i]);
    }
  }

  /**
   * `addStudent(student)`: `dao.save` first. A refused save (id already stored, or
   * email already filed under another id) leaves the manager as it was; otherwise the
   * store and the cache both gain the student under its id and nothing else changes.
   */
  function AddStudent(m: Manager, h: Heap, s: Ref): (res: (Manager, Option<Error>))
    requires Inv(m, h) && StudentJson.Serialisable(h, s)
    ensures Inv(res.0, h)
    ensures res.1.Some? <==>
      h.students[s].id in Keys(m.store) || EmailTaken(m.store, h.students[s].id, h.students[s].email)
    ensures res.1.Some? ==> res.1.value == ConstraintError && res.0 == m
    ensures res.1.None? ==>
      && ChangedAt(m.store, res.0.store, h.students[s].id, Some(StudentJson.ToJSON(h, s)))
      && JsMap.ChangedAt(m.cache, res.0.cache, h.students[s].id, Some(s))
  {
    match Save(m.store, h, s)
    case Failure(e) => (m, Some(e))
    case Success(st) =>
      CachePut(m, h, st, s);
      (Manager(JsMap.Set(m.cache, h.students[s].id, s), st), None)
  }

  /**
   * `getStudent(id)`: a cache hit is returned as is, with no DAO call; a miss reads
   * through to the DAO.
   */
  function GetStudent(m: Manager, h: Heap, id: string): (res: (Manager, Heap, Option<Ref>))
    requires Inv(m, h)
    ensures Inv(res.0, res.1) && OnlyAllocates(h, res.1) && res.0.store == m.store
    ensures JsMap.Get(m.cache, id).Some? ==> res == (m, h, JsMap.Get(m.cache, id))
    ensures JsMap.Get(m.cache, id).None? ==> res == ReadThrough(m, h, id)
    ensures res.2.Some? ==> JsMap.Get(res.0.cache, id) == res.2
    ensures Valid(h) ==> Valid(res.1)
  {
    var cached := JsMap.Get(m.cache, id);
    if cached.Some? then (m, h, cached) else ReadThrough(m, h, id)
  }

  /**
   * The miss path of `getStudent(id)`: the student `findById` rebuilds is cached under
   * `id` and returned; when the store lacks the id too, nothing changes.
   */
  function ReadThrough(m: Manager, h: Heap, id: string): (res: (Manager, Heap, Option<Ref>))
    requires Inv(m, h)
    ensures Inv(res.0, res.1) && OnlyAllocates(h, res.1) && res.0.store == m.store
    ensures res.2.Some? <==> id in Keys(m.store)
    ensures res.2.None? ==> res.0 == m && res.1 == h
    ensures res.2.Some? ==>
      && Rebuilt(h, res.1, res.2.value, Lookup(m.store, id).value)
      && JsMap.ChangedAt(m.cache, res.0.cache, id, res.2)
    ensures Valid(h) ==> Valid(res.1)
  {
    var found := FindById(m.store, h, id);
    FindValid(m, h, id);
    if found.1.None? then (m, h, None)
    else
      FoundInv(m, h, id);
      (m.(cache := JsMap.Set(m.cache, id, found.1.value)), found.0, found.1)
  }

  /** Reading through keeps a valid heap valid. */
  lemma FindValid(m: Manager, h: Heap, id: string)
    requires Inv(m, h)
    ensures Valid(h) ==> Valid(FindById(m.store, h, id).0)
  {
    if Valid(h) {
      FindByIdValid(m.store, h, id);
    }
  }

  /** Caching the student `findById` rebuilds, under the id asked for, keeps the invariant. */
  lemma FoundInv(m: Manager, h: Heap, id: string)
    requires Inv(m, h) && FindById(m.store, h, id).1.Some?
    ensures var found := FindById(m.store, h, id);
      Inv(m.(cache := JsMap.Set(m.cache, id, found.1.value)), found.0)
  {
    var found := FindById(m.store, h, id);
    var s := found.1.value;
    assert found.0.students[s].id == id && found.0.students[s].email == Lookup(m.store, id).value.email by {
      assert Entry(id, Lookup(m.store, id).value) in m.store;
    }
    OnlyAllocatesExtends(h, found.0);
    InvLater(m, h, found.0);
    CachePut(m, found.0, m.store, s);
  }

  /** `getAllStudents()`: exactly the cached students, in cache order, with no DAO query. */
  function GetAllStudents(m: Manager): (ss: seq<Ref>)
    requires JsMap.Valid(m.cache)
    ensures |ss| == |JsMap.KeyOrder(m.cache)|
    ensures forall i :: 0 <= i < |ss| ==> JsMap.Get(m.cache, JsMap.KeyOrder(m.cache)[i]) == Some(ss[i])
    ensures forall k :: JsMap.Get(m.cache, k).Some? ==> JsMap.Get(m.cache, k).value in ss
  {
    JsMap.ValueList(m.cache)
  }

  /**
   * `getStudentByEmail(email)`: the DAO's answer through the unique email index, a
   * fresh student rebuilt from the one record with that email; the manager is not
   * touched.
   */
  function GetStudentByEmail(m: Manager, h: Heap, email: string): (res: (Heap, Option<Ref>))
    requires Inv(m, h)
    ensures Inv(m, res.0) && OnlyAllocates(h, res.0)
    ensures res.1.Some? <==> exists e :: e in m.store && e.value.email == email
    ensures res.1.Some? ==> forall e :: e in m.store && e.value.email == email ==> Rebuilt(h, res.0, res.1.value, e.value)
  {
    var res := FindByEmail(m.store, h, email);
    OnlyAllocatesExtends(h, res.0);
    InvLater(m, h, res.0);
    res
  }

  /**
   * `getStudentsByCourse(courseId)`: the DAO's answer, one fresh student per record that
   * lists the course, in key order; the manager is not touched.
   */
  function GetStudentsByCourse(m: Manager, h: Heap, courseId: string): (res: (Heap, seq<Ref>))
    requires Inv(m, h)
    ensures Inv(m, res.0) && OnlyAllocates(h, res.0)
    ensures var docs := Filter(Values(m.store), EnrolledIn(courseId));
      |res.1| == |docs| && forall j :: 0 <= j < |docs| ==> Rebuilt(h, res.0, res.1[j], docs[j])
  {
    var res := FindByCourse(m.store, h, courseId);
    OnlyAllocatesExtends(h, res.0);
    InvLater(m, h, res.0);
    res
  }

  /**
   * `updateStudent(student)`: `dao.update` first. A refused upsert (the email is filed
   * under another id) leaves the manager as it was; otherwise the store and the cache
   * both map the id to this student.
   */
  function UpdateStudent(m: Manager, h: Heap, s: Ref): (res: (Manager, Option<Error>))
    requires Inv(m, h) && StudentJson.Serialisable(h, s)
    ensures Inv(res.0, h)
    ensures res.1.Some? <==> EmailTaken(m.store, h.students[s].id, h.students[s].email)
    ensures res.1.Some? ==> res.1.value == ConstraintError && res.0 == m
    ensures res.1.None? ==>
      && ChangedAt(m.store, res.0.store, h.students[s].id, Some(StudentJson.ToJSON(h, s)))
      && JsMap.ChangedAt(m.cache, res.0.cache, h.students[s].id, Some(s))
  {
    match Update(m.store, h, s)
    case Failure(e) => (m, Some(e))
    case Success(st) =>
      CachePut(m, h, st, s);
      (Manager(JsMap.Set(m.cache, h.students[s].id, s), st), None)
  }

  /**
   * `deleteStudent(id)`: the DAO's `delete` always throws, so the call fails with that
   * error before the cache is touched.
   */
  function DeleteStudent(m: Manager, id: string): (res: (Manager, Error))
    ensures res.0 == m && res.1 == NotImplemented
  {
    var r := Delete(m.store, id);
    (m, r.error)
  }

  /**
   * Writing back a cached student never clashes on the email index: its record is the
   * one that holds its email, so no other record can.
   */
  lemma CachedUpdateSucceeds(m: Manager, h: Heap, id: string)
    requires Inv(m, h) && JsMap.Get(m.cache, id).Some?
    requires StudentJson.Serialisable(h, JsMap.Get(m.cache, id).value)
    ensures UpdateStudent(m, h, JsMap.Get(m.cache, id).value).1.None?
  {
  }

  /**
   * `addServiceToStudent(studentId, serviceName)`: nothing for an id neither cached nor
   * stored. Otherwise the student `getStudent` gives gains the service, and the upsert
   * that follows (which cannot clash) files the changed student in the store.
   */
  function AddServiceToStudent(m: Manager, h: Heap, id: string, service: string): (res: (Manager, Heap))
    requires Inv(m, h) && Valid(h)
    ensures Inv(res.0, res.1) && Valid(res.1) && Extends(h, res.1)
    ensures var g := GetStudent(m, h, id);
      && (g.2.None? ==> res == (m, h))
      && (g.2.Some? ==> res == AddServiceToCached(g.0, g.1, id, g.2.value, service))
  {
    var g := GetStudent(m, h, id);
    if g.2.None? then (m, h)
    else
      OnlyAllocatesExtends(h, g.1);
      var res := AddServiceToCached(g.0, g.1, id, g.2.value, service);
      ExtendsTransitive(h, g.1, res.1);
      res
  }

  /**
   * The known-id path of `addServiceToStudent`: the student cached under `id` gains the
   * service, no other object changes, and the store files the changed student under
   * `id` while the cache keeps the same object.
   */
  function AddServiceToCached(m: Manager, h: Heap, id: string, s: Ref, service: string): (res: (Manager, Heap))
    requires Inv(m, h) && Valid(h) && JsMap.Get(m.cache, id) == Some(s)
    ensures Inv(res.0, res.1) && Valid(res.1) && Extends(h, res.1)
    ensures res.1 == StudentModel.AddService(h, s, service)
    ensures OnlyStudentChanged(h, res.1, s) && service in res.1.students[s].extraServices
    ensures ChangedAt(m.store, res.0.store, id, Some(StudentJson.ToJSON(res.1, s)))
    ensures JsMap.Get(res.0.cache, id) == Some(s)
  {
    var h' := StudentModel.AddService(h, s, service);
    OnlyStudentChangedExtends(h, h', s);
    WriteBack(m, h, id, h', s)
  }

  /**
   * `enrollStudentInCourse(studentId, course)`: nothing for an id neither cached nor
   * stored. Otherwise the student `getStudent` gives is enrolled (and put on the
   * course's roster), and the upsert that follows files the changed student.
   */
  function EnrollStudentInCourse(m: Manager, h: Heap, id: string, c: Ref): (res: (Manager, Heap))
    requires Inv(m, h) && Valid(h) && c in h.courses
    ensures Inv(res.0, res.1) && Valid(res.1) && Extends(h, res.1)
    ensures var g := GetStudent(m, h, id);
      && (g.2.None? ==> res == (m, h))
      && (g.2.Some? ==> res == EnrollCached(g.0, g.1, id, g.2.value, c))
  {
    var g := GetStudent(m, h, id);
    if g.2.None? then (m, h)
    else
      OnlyAllocatesExtends(h, g.1);
      var res := EnrollCached(g.0, g.1, id, g.2.value, c);
      ExtendsTransitive(h, g.1, res.1);
      res
  }

  /**
   * The known-id path of `enrollStudentInCourse`: the student cached under `id` lists
   * the course and is on its roster, and the store files the changed student under `id`
   * while the cache keeps the same object.
   */
  function EnrollCached(m: Manager, h: Heap, id: string, s: Ref, c: Ref): (res: (Manager, Heap))
    requires Inv(m, h) && Valid(h) && JsMap.Get(m.cache, id) == Some(s) && c in h.courses
    ensures Inv(res.0, res.1) && Valid(res.1) && Extends(h, res.1)
    ensures res.1 == StudentModel.Enroll(h, s, c)
    ensures c in res.1.students[s].enrolledCourses
    ensures c !in h.students[s].enrolledCourses ==> s in res.1.courses[c].students
    ensures ChangedAt(m.store, res.0.store, id, Some(StudentJson.ToJSON(res.1, s)))
    ensures JsMap.Get(res.0.cache, id) == Some(s)
  {
    WriteBack(m, h, id, StudentModel.Enroll(h, s, c), s)
  }

  /**
   * The write-back both mutating operations end with: `s`, cached under `id`, was
   * changed in place to give `h2`; `updateStudent(s)` then succeeds.
   */
  function WriteBack(m: Manager, h: Heap, id: string, h2: Heap, s: Ref): (res: (Manager, Heap))
    requires Inv(m, h) && Valid(h2) && Extends(h, h2)
    requires JsMap.Get(m.cache, id) == Some(s)
    ensures res.1 == h2 && Inv(res.0, h2)
    ensures ChangedAt(m.store, res.0.store, id, Some(StudentJson.ToJSON(h2, s)))
    ensures JsMap.Get(res.0.cache, id) == Some(s)
  {
    InvLater(m, h, h2);
    CachedUpdateSucceeds(m, h2, id);
    (UpdateStudent(m, h2, s).0, h2)
  }

  /** After a successful `addStudent`, `getStudent` answers from the cache with that object. */
  lemma AddThenGet(m: Manager, h: Heap, s: Ref)
    requires Inv(m, h) && StudentJson.Serialisable(h, s) && AddStudent(m, h, s).1.None?
    ensures var m' := AddStudent(m, h, s).0; GetStudent(m', h, h.students[s].id) == (m', h, Some(s))
  {
  }

  /** After a successful `updateStudent`, `getStudent` answers from the cache with that object. */
  lemma UpdateThenGet(m: Manager, h: Heap, s: Ref)
    requires Inv(m, h) && StudentJson.Serialisable(h, s) && UpdateStudent(m, h, s).1.None?
    ensures var m' := UpdateStudent(m, h, s).0; GetStudent(m', h, h.students[s].id) == (m', h, Some(s))
  {
  }

  /** A read-through populates the cache: asking again is a hit with the same answer. */
  lemma GetTwice(m: Manager, h: Heap, id: string)
    requires Inv(m, h)
    ensures var r := GetStudent(m, h, id); GetStudent(r.0, r.1, id) == r
  {
  }

  /**
   * Right after initialisation `getAllStudents` lists one fresh student per stored
   * record, in key order, each serialising to exactly its record.
   */
  lemma InitializeThenGetAll(st: Store, h: Heap)
    requires StoreOk(st) && Allocated(h)
    ensures var res := Initialize(st, h); var ss := GetAllStudents(res.0);
      |ss| == |st| && forall i :: 0 <= i < |st| ==> Rebuilt(h, res.1, ss[i], st[i].value)
  {
    var res := Initialize(st, h);
    var ss := GetAllStudents(res.0);
    forall i | 0 <= i < |st| ensures Rebuilt(h, res.1, ss[i], st[i].value) {
      assert JsMap.KeyOrder(res.0.cache)[i] == st[i].key;
    }
  }
}
