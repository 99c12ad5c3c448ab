/**
 * `TeacherManager` (src/managers/TeacherManager.ts): a `Map<string, Teacher>` cache in
 * front of the teacher DAO. Writes go to the DAO first and reach the cache only when the
 * DAO call succeeds; `getTeacher` reads through the cache; `getAllTeachers` answers from
 * the cache alone; the finders are the DAO's own.
 *
 * The teacher DAO's reads return the stored plain documents, so the cache holds either
 * a `Teacher` object (from `addTeacher`/`updateTeacher`) or such a document (from
 * `initializeTeachers`/`getTeacher`). A plain document has no `assignCourse` method.
 */
module TeacherManager {
  import opened Wrappers
  import opened Seqs
  import opened Entities
  import opened Documents
  import opened Entries
  import opened ObjectStore
  import JsMap
  import TeacherJson
  import TeacherModel
  import opened TeacherDao

  /** A cache value: a `Teacher` object, or the plain document a DAO read returned. */
  datatype TeacherValue = Instance(ref: Ref) | Plain(doc: TeacherDoc)

  datatype Manager = Manager(cache: JsMap.Map<TeacherValue>, store: Store)

  /**
   * A cache entry under `k`: a live teacher whose id is `k`, filed under `k` with that
   * teacher's email, or exactly the document the store holds under `k`.
   */
  ghost predicate Cached(m: Manager, h: Heap, k: string, v: TeacherValue) {
    match v
    case Instance(t) =>
      && t in h.teachers && h.teachers[t].id == k
      && Lookup(m.store, k).Some? && Lookup(m.store, k).value.email == h.teachers[t].email
    case Plain(d) => Lookup(m.store, k) == Some(d)
  }

  /**
   * The manager invariant: the store is well formed and every cache entry agrees with
   * its key and with the store. With the manager as the only writer, every cached id is
   * a stored key.
   */
  ghost predicate Inv(m: Manager, h: Heap) {
    && JsMap.Valid(m.cache) && StoreOk(m.store)
    && forall k :: JsMap.Get(m.cache, k).Some? ==> Cached(m, h, k, JsMap.Get(m.cache, k).value)
  }

  /** The invariant survives any later state of the heap. */
  lemma InvLater(m: Manager, h: Heap, h': Heap)
    requires Inv(m, h) && Extends(h, h')
    ensures Inv(m, h')
  {
  }

  /** Caching a live teacher under its id, next to a store that files it there, keeps the invariant. */
  lemma CachePut(m: Manager, h: Heap, st: Store, t: Ref)
    requires Inv(m, h) && StoreOk(st) && t in h.teachers
    requires ChangedAt(m.store, st, h.teachers[t].id, Lookup(st, h.teachers[t].id))
    requires Lookup(st, h.teachers[t].id).Some? && Lookup(st, h.teachers[t].id).value.email == h.teachers[t].email
    ensures Inv(Manager(JsMap.Set(m.cache, h.teachers[t].id, Instance(t)), st), h)
  {
  }

  /**
   * `initializeTeachers()`: every document `findAll` returns is cached under its own id,
   * so the cache holds the stored keys in key order, each with its stored document.
   */
  function Initialize(st: Store, h: Heap): (m: Manager)
    requires StoreOk(st)
    ensures Inv(m, h) && m.store == st
    ensures JsMap.KeyOrder(m.cache) == Keys(st)
    ensures forall i :: 0 <= i < |st| ==> JsMap.Get(m.cache, st[i].key) == Some(Plain(st[i].value))
  {
    var all := FindAll(st);
    var ids := seq(|all|, i requires 0 <= i < |all| => all[i].id);
    var values := seq(|all|, i requires 0 <= i < |all| => Plain(all[i]));
    InitialCache(st, h, ids, values);
    Manager(JsMap.SetAll(JsMap.Empty(), ids, values), st)
  }

  lemma InitialCache(st: Store, h: Heap, ids: seq<string>, values: seq<TeacherValue>)
    requires StoreOk(st) && |ids| == |st| && |values| == |st|
    requires forall i :: 0 <= i < |st| ==> ids[i] == st[i].value.id && values[i] == Plain(st[i].value)
    ensures var cache := JsMap.SetAll(JsMap.Empty(), ids, values);
      && Inv(Manager(cache, st), h)
      && JsMap.KeyOrder(cache) == Keys(st)
      && forall i :: 0 <= i < |st| ==> JsMap.Get(cache, st[i].key) == Some(values[i])
  {
    assert ids == Keys(st) by {
      forall i | 0 <= i < |st| ensures ids[i] == Keys(st)[i] {
        assert st[i] in st;
      }
    }
    SortedDistinct(st);
    var cache := JsMap.SetAll(JsMap.Empty(), ids, values);
    JsMap.SetAllMaps(JsMap.Empty(), ids, values);
    JsMap.SetAllOrder(JsMap.Empty(), ids, values);
    var m := Manager(cache, st);
    forall k | JsMap.Get(cache, k).Some? ensures Cached(m, h, k, JsMap.Get(cache, k).value) {
      var i :| 0 <= i < |ids| && ids[i] == k;
      LookupEntry(st, st[i]);
    }
  }

  /**
   * `addTeacher(teacher)`: `dao.save` first. A refused save (id already stored, or email
   * already filed under another id) leaves the manager as it was; otherwise the store
   * and the cache both gain the teacher under its id and nothing else changes.
   */
  function AddTeacher(m: Manager, h: Heap, t: Ref): (res: (Manager, Option<Error>))
    requires Inv(m, h) && TeacherJson.Serialisable(h, t)
    ensures Inv(res.0, h)
    ensures res.1.Some? <==>
      h.teachers[t].id in Keys(m.store) || EmailTaken(m.store, h.teachers[t].id, h.teachers[t].email)
    ensures res.1.Some? ==> res.1.value == ConstraintError && res.0 == m
    ensures res.1.None? ==>
      && ChangedAt(m.store, res.0.store, h.teachers[t].id, Some(TeacherJson.ToJSON(h, t)))
      && JsMap.ChangedAt(m.cache, res.0.cache, h.teachers[t].id, Some(Instance(t)))
  {
    match Save(m.store, h, t)
    case Failure(e) => (m, Some(e))
    case Success(st) =>
      CachePut(m, h, st, t);
      (Manager(JsMap.Set(m.cache, h.teachers[t].id, Instance(t)), st), None)
  }

  /** Caching the stored document under its key keeps the invariant. */
  lemma CachePlain(m: Manager, h: Heap, id: string)
    requires Inv(m, h) && id in Keys(m.store)
    ensures Inv(Manager(JsMap.Set(m.cache, id, Plain(Lookup(m.store, id).value)), m.store), h)
  {
  }

  /**
   * `getTeacher(id)`: a cache hit is returned as is, with no DAO call; a miss reads
   * through to the store.
   */
  function GetTeacher(m: Manager, h: Heap, id: string): (res: (Manager, Option<TeacherValue>))
    requires Inv(m, h)
    ensures Inv(res.0, h) && res.0.store == m.store
    ensures JsMap.Get(m.cache, id).Some? ==> res == (m, JsMap.Get(m.cache, id))
    ensures JsMap.Get(m.cache, id).None? ==> res == ReadThrough(m, h, id)
  {
    var cached := JsMap.Get(m.cache, id);
    if cached.Some? then (m, cached) else ReadThrough(m, h, id)
  }

  /**
   * The miss path of `getTeacher(id)`: the stored document is cached under `id` and
   * returned; when the store lacks the id too, nothing changes.
   */
  function ReadThrough(m: Manager, h: Heap, id: string): (res: (Manager, Option<TeacherValue>))
    requires Inv(m, h)
    ensures Inv(res.0, h) && res.0.store == m.store
    ensures res.1.Some? <==> id in Keys(m.store)
    ensures res.1.None? ==> res.0 == m
    ensures res.1.Some? ==>
      && res.1 == Some(Plain(Lookup(m.store, id).value))
      && JsMap.ChangedAt(m.cache, res.0.cache, id, res.1)
  {
    match FindById(m.store, id)
    case None => (m, None)
    case Some(d) =>
      CachePlain(m, h, id);
      (m.(cache := JsMap.Set(m.cache, id, Plain(d))), Some(Plain(d)))
  }

  /** `getAllTeachers()`: exactly the cached values, in cache order, with no DAO query. */
  function GetAllTeachers(m: Manager): (vs: seq<TeacherValue>)
    requires JsMap.Valid(m.cache)
    ensures |vs| == |JsMap.KeyOrder(m.cache)|
    ensures forall i :: 0 <= i < |vs| ==> JsMap.Get(m.cache, JsMap.KeyOrder(m.cache)[i]) == Some(vs[i])
    ensures forall k :: JsMap.Get(m.cache, k).Some? ==> JsMap.Get(m.cache, k).value in vs
  {
    JsMap.ValueList(m.cache)
  }

  /**
   * `getTeacherByEmail(email)`: the DAO's answer through the unique email index, the one
   * stored document with that email; the manager is not touched.
   */
  function GetTeacherByEmail(m: Manager, h: Heap, email: string): (r: Option<TeacherDoc>)
    requires Inv(m, h)
    ensures r.Some? <==> exists e :: e in m.store && e.value.email == email
    ensures r.Some? ==> forall e :: e in m.store && e.value.email == email ==> e.value == r.value
  {
    FindByEmail(m.store, email)
  }

  /**
   * `getTeacherByCourse(courseId)`: the DAO's answer, the first stored document in key
   * order that lists the course; the manager is not touched.
   */
  function GetTeacherByCourse(m: Manager, h: Heap, courseId: string): (r: Option<TeacherDoc>)
    requires Inv(m, h)
    ensures r.Some? <==> exists i :: 0 <= i < |m.store| && Teaches(m.store[i].value, courseId)
    ensures r.Some? ==> r.value in Values(m.store) && Teaches(r.value, courseId)
  {
    var r := FindByCourse(m.store, courseId);
    assert r.Some? ==> r.value in Values(m.store) by {
      if r.Some? {
        var i :| 0 <= i < |m.store| && m.store[i].value == r.value;
        assert Values(m.store)[i] == r.value;
      }
    }
    r
  }

  /**
   * `updateTeacher(teacher)`: `dao.update` first. A refused upsert (the email is filed
   * under another id) leaves the manager as it was; otherwise the store and the cache
   * both map the id to this teacher.
   */
  function UpdateTeacher(m: Manager, h: Heap, t: Ref): (res: (Manager, Option<Error>))
    requires Inv(m, h) && TeacherJson.Serialisable(h, t)
    ensures Inv(res.0, h)
    ensures res.1.Some? <==> EmailTaken(m.store, h.teachers[t].id, h.teachers[t].email)
    ensures res.1.Some? ==> res.1.value == ConstraintError && res.0 == m
    ensures res.1.None? ==>
      && ChangedAt(m.store, res.0.store, h.teachers[t].id, Some(TeacherJson.ToJSON(h, t)))
      && JsMap.ChangedAt(m.cache, res.0.cache, h.teachers[t].id, Some(Instance(t)))
  {
    match Update(m.store, h, t)
    case Failure(e) => (m, Some(e))
    case Success(st) =>
      CachePut(m, h, st, t);
      (Manager(JsMap.Set(m.cache, h.teachers[t].id, Instance(t)), st), None)
  }

  /**
   * `addTeacher(teacher)` over the DAO's `save` as written, which hands the object itself
   * to `add`: the write is refused with a DataError, so the manager never changes and no
   * `Teacher` object reaches the cache.
   */
  function AddTeacherAsWritten(m: Manager, h: Heap, t: Ref): (res: (Manager, Option<Error>))
    requires Inv(m, h) && TeacherJson.Serialisable(h, t)
    ensures res == (m, Some(DataError))
  {
    AddObjectAsWrittenAlwaysFails(m.store, h, t);
    match AddObjectAsWritten(m.store, h, t)
    case Failure(e) => (m, Some(e))
    case Success(st) => (m.(store := st), None)
  }

  /**
   * `updateTeacher(teacher)` over the DAO's `update` as written, which hands the object
   * itself to `put`: refused with a DataError, leaving the manager as it was.
   */
  function UpdateTeacherAsWritten(m: Manager, h: Heap, t: Ref): (res: (Manager, Option<Error>))
    requires Inv(m, h) && TeacherJson.Serialisable(h, t)
    ensures res == (m, Some(DataError))
  {
    PutObjectAsWrittenAlwaysFails(m.store, h, t);
    match PutObjectAsWritten(m.store, h, t)
    case Failure(e) => (m, Some(e))
    case Success(st) => (m.(store := st), None)
  }

  /** Every cache entry is a plain document, as after `initializeTeachers`. */
  ghost predicate AllPlain(m: Manager) {
    forall k :: JsMap.Get(m.cache, k).Some? ==> JsMap.Get(m.cache, k).value.Plain?
  }

  /**
   * Over a cache of plain documents, `assignCourseToTeacher` never changes the heap: it
   * finds nothing or fails with a TypeError, and the cache stays plain. With the DAO as
   * written (`AddTeacherAsWritten`, `UpdateTeacherAsWritten`) nothing else enters the
   * cache, so no assignment ever takes effect.
   */
  lemma AssignOverPlainCacheChangesNothing(m: Manager, h: Heap, id: string, c: Ref)
    requires Inv(m, h) && Valid(h) && c in h.courses && AllPlain(m)
    ensures var res := AssignCourseToTeacher(m, h, id, c);
      && res.1 == h && AllPlain(res.0)
      && (res.2 == None || res.2 == Some(TypeError))
  {
    if JsMap.Get(m.cache, id).None? {
      var r := ReadThrough(m, h, id);
      if r.1.Some? {
        forall k | JsMap.Get(r.0.cache, k).Some? ensures JsMap.Get(r.0.cache, k).value.Plain? {
          if k != id {
            assert JsMap.Get(r.0.cache, k) == JsMap.Get(m.cache, k);
          }
        }
      }
    }
  }

  /** `deleteTeacher(id)`: the record goes first, then the cache entry; other keys stay. */
  function DeleteTeacher(m: Manager, h: Heap, id: string): (m': Manager)
    requires Inv(m, h)
    ensures Inv(m', h)
    ensures ChangedAt(m.store, m'.store, id, None)
    ensures JsMap.ChangedAt(m.cache, m'.cache, id, None)
  {
    var st := Delete(m.store, id);
    ChangedAtKeys(m.store, st, id, None);
    Manager(JsMap.Delete(m.cache, id), st)
  }

  /**
   * Writing back a cached teacher object never clashes on the email index: its record
   * is the one that holds its email, so no other record can.
   */
  lemma CachedUpdateSucceeds(m: Manager, h: Heap, id: string, t: Ref)
    requires Inv(m, h) && JsMap.Get(m.cache, id) == Some(Instance(t))
    requires TeacherJson.Serialisable(h, t)
    ensures UpdateTeacher(m, h, t).1.None?
  {
  }

  /**
   * `assignCourseToTeacher(teacherId, course)`: nothing for an id neither cached nor
   * stored. A cached plain document has no `assignCourse`, so the call fails with a
   * TypeError after `getTeacher` has cached it. A teacher object is assigned the course
   * (which makes it the course's teacher), and the upsert that follows, which cannot
   * clash, files the changed teacher: only the teacher is written, not the course.
   */
  function AssignCourseToTeacher(m: Manager, h: Heap, id: string, c: Ref): (res: (Manager, Heap, Option<Error>))
    requires Inv(m, h) && Valid(h) && c in h.courses
    ensures Inv(res.0, res.1) && Valid(res.1) && Extends(h, res.1)
    ensures var g := GetTeacher(m, h, id);
      && (g.1.None? ==> res == (m, h, None))
      && (g.1.Some? && g.1.value.Plain? ==> res == (g.0, h, Some(TypeError)))
      && (g.1.Some? && g.1.value.Instance? ==> res == AssignToInstance(g.0, h, id, g.1.value.ref, c))
  {
    var g := GetTeacher(m, h, id);
    match g.1
    case None => (m, h, None)
    case Some(Plain(_)) => (g.0, h, Some(TypeError))
    case Some(Instance(t)) => AssignToInstance(g.0, h, id, t, c)
  }

  /**
   * The teacher-object path of `assignCourseToTeacher`: the teacher lists the course,
   * the course names the teacher, and the store files the changed teacher under `id`.
   */
  function AssignToInstance(m: Manager, h: Heap, id: string, t: Ref, c: Ref): (res: (Manager, Heap, Option<Error>))
    requires Inv(m, h) && Valid(h) && c in h.courses && JsMap.Get(m.cache, id) == Some(Instance(t))
    ensures Inv(res.0, res.1) && Valid(res.1) && Extends(h, res.1) && res.2.None?
    ensures res.1 == TeacherModel.AssignCourse(h, t, c)
    ensures c in res.1.teachers[t].courses
    ensures c !in h.teachers[t].courses ==> res.1.courses[c].teacher == Some(t)
    ensures ChangedAt(m.store, res.0.store, id, Some(TeacherJson.ToJSON(res.1, t)))
    ensures JsMap.Get(res.0.cache, id) == Some(Instance(t))
  {
    var h' := TeacherModel.AssignCourse(h, t, c);
    InvLater(m, h, h');
    CachedUpdateSucceeds(m, h', id, t);
    (UpdateTeacher(m, h', t).0, h', None)
  }

  /** After a successful `addTeacher`, `getTeacher` answers from the cache with that object. */
  lemma AddThenGet(m: Manager, h: Heap, t: Ref)
    requires Inv(m, h) && TeacherJson.Serialisable(h, t) && AddTeacher(m, h, t).1.None?
    ensures var m' := AddTeacher(m, h, t).0; GetTeacher(m', h, h.teachers[t].id) == (m', Some(Instance(t)))
  {
  }

  /** After a successful `updateTeacher`, `getTeacher` answers from the cache with that object. */
  lemma UpdateThenGet(m: Manager, h: Heap, t: Ref)
    requires Inv(m, h) && TeacherJson.Serialisable(h, t) && UpdateTeacher(m, h, t).1.None?
    ensures var m' := UpdateTeacher(m, h, t).0; GetTeacher(m', h, h.teachers[t].id) == (m', Some(Instance(t)))
  {
  }

  /** `getAllTeachers()` right after initialisation lists the stored documents in key order. */
  lemma InitializeThenGetAll(st: Store, h: Heap)
    requires StoreOk(st)
    ensures GetAllTeachers(Initialize(st, h)) == seq(|st|, i requires 0 <= i < |st| => Plain(st[i].value))
  {
    var m := Initialize(st, h);
    var vs := GetAllTeachers(m);
    forall i | 0 <= i < |st| ensures vs[i] == Plain(st[i].value) {
      assert JsMap.KeyOrder(m.cache)[i] == st[i].key;
    }
  }

  /** After `deleteTeacher(id)`, neither the cache nor the store knows the id. */
  lemma DeleteThenGet(m: Manager, h: Heap, id: string)
    requires Inv(m, h)
    ensures var m' := DeleteTeacher(m, h, id); GetTeacher(m', h, id) == (m', None)
  {
  }

  /** A read-through populates the cache: asking again is a hit with the same answer. */
  lemma GetTwice(m: Manager, h: Heap, id: string)
    requires Inv(m, h)
    ensures var r := GetTeacher(m, h, id); GetTeacher(r.0, h, id) == r
  {
  }

  /**
   * Right after initialisation every stored teacher is cached as a plain document, so
   * `assignCourseToTeacher` fails with a TypeError for each of them.
   */
  lemma AssignAfterInitializeFails(st: Store, h: Heap, i: nat, c: Ref)
    requires StoreOk(st) && Valid(h) && c in h.courses && i < |st|
    ensures var m := Initialize(st, h); AssignCourseToTeacher(m, h, st[i].key, c) == (m, h, Some(TypeError))
  {
  }
}
