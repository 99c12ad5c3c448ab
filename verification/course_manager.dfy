/**
 * `CourseManager` (src/managers/CourseManager.ts): a `Map<string, Course>` cache in
 * front of the course DAO. Writes go to the DAO first and reach the cache only when the
 * DAO call succeeds; `getCourse` reads through the cache; `getAllCourses` answers from
 * the cache alone; the finders are the DAO's own. The DAO state is its object store and
 * the cached objects live in the heap.
 */
module CourseManager {
  import opened Wrappers
  import opened Seqs
  import opened Entities
  import opened Entries
  import opened ObjectStore
  import JsMap
  import CourseJson
  import opened CourseDao

  datatype Manager = Manager(cache: JsMap.Map<Ref>, store: Store)

  /** A cache entry under `k` is a live course whose id is `k`, and `k` is a stored key. */
  ghost predicate Cached(m: Manager, h: Heap, k: string, c: Ref) {
    c in h.courses && h.courses[c].id == k && k in Keys(m.store)
  }

  /**
   * The manager invariant: the store is well formed, and every cache entry is a live
   * course filed under its own id. With the manager as the only writer, every cached id
   * is also a stored key.
   */
  ghost predicate Inv(m: Manager, h: Heap) {
    && JsMap.Valid(m.cache) && StoreOk(m.store) && Allocated(h)
    && forall k :: JsMap.Get(m.cache, k).Some? ==> Cached(m, h, k, JsMap.Get(m.cache, k).value)
  }

  /** The invariant survives any later state of the heap. */
  lemma InvLater(m: Manager, h: Heap, h': Heap)
    requires Inv(m, h) && Allocated(h') && Extends(h, h')
    ensures Inv(m, h')
  {
  }

  /** Caching a live course under its id, next to a store that holds that id, keeps the invariant. */
  lemma CachePut(m: Manager, h: Heap, st: Store, c: Ref)
    requires Inv(m, h) && StoreOk(st) && c in h.courses
    requires ChangedAt(m.store, st, h.courses[c].id, Lookup(st, h.courses[c].id))
    requires h.courses[c].id in Keys(st)
    ensures Inv(Manager(JsMap.Set(m.cache, h.courses[c].id, c), st), h)
  {
    ChangedAtKeys(m.store, st, h.courses[c].id, Lookup(st, h.courses[c].id));
  }

  /** Dropping the cache entry and the record under `id` keeps the invariant. */
  lemma CacheDrop(m: Manager, h: Heap, st: Store, id: string)
    requires Inv(m, h) && StoreOk(st) && ChangedAt(m.store, st, id, None)
    ensures Inv(Manager(JsMap.Delete(m.cache, id), st), h)
  {
    ChangedAtKeys(m.store, st, id, None);
  }

  /** The ids of the courses `cs`, in order. */
  function Ids(h: Heap, cs: seq<Ref>): (ids: seq<string>)
    requires forall c :: c in cs ==> c in h.courses
    ensures |ids| == |cs| && forall i :: 0 <= i < |cs| ==> ids[i] == h.courses[cs[i]].id
  {
    if cs == [] then [] else [h.courses[cs[0]].id] + Ids(h, cs[1..])
  }

  /**
   * `initializeCourses()`: every course `findAll` rebuilds is cached under its own id, so
   * the cache holds the stored keys in key order, each with a fresh course rebuilt from
   * its record.
   */
  function Initialize(st: Store, h: Heap): (res: (Manager, Heap))
    requires StoreOk(st) && Allocated(h)
    ensures Inv(res.0, res.1) && res.0.store == st && OnlyAllocates(h, res.1)
    ensures JsMap.KeyOrder(res.0.cache) == Keys(st)
    ensures forall i :: 0 <= i < |st| ==>
      && JsMap.Get(res.0.cache, st[i].key).Some?
      && Rebuilt(h, res.1, JsMap.Get(res.0.cache, st[i].key).value, st[i].value)
  {
    var all := FindAll(st, h);
    RebuiltIds(st, h);
    InitialCache(st, all.0, all.1);
    (Manager(JsMap.SetAll(JsMap.Empty(), Ids(all.0, all.1), all.1), st), all.0)
  }

  /** Every course `findAll` rebuilds carries its record's key as id. */
  lemma RebuiltIds(st: Store, h: Heap)
    requires StoreOk(st) && Allocated(h)
    ensures var all := FindAll(st, h);
      forall i :: 0 <= i < |st| ==> all.1[i] in all.0.courses && all.0.courses[all.1[i]].id == st[i].key
  {
    var all := FindAll(st, h);
    forall i | 0 <= i < |st| ensures all.1[i] in all.0.courses && all.0.courses[all.1[i]].id == st[i].key {
      assert Rebuilt(h, all.0, all.1[i], st[i].value);
      assert st[i] in st;
    }
  }

  /** Caching courses that carry the stored keys as ids, in key order. */
  lemma InitialCache(st: Store, h: Heap, cs: seq<Ref>)
    requires StoreOk(st) && Allocated(h) && |cs| == |st|
    requires forall i :: 0 <= i < |st| ==> cs[i] in h.courses && h.courses[cs[i]].id == st[i].key
    ensures var cache := JsMap.SetAll(JsMap.Empty(), Ids(h, cs), cs);
      && Inv(Manager(cache, st), h)
      && JsMap.KeyOrder(cache) == Keys(st)
      && forall i :: 0 <= i < |st| ==> JsMap.Get(cache, st[i].key) == Some(cs[i])
  {
    var ids := Ids(h, cs);
    assert ids == Keys(st);
    SortedDistinct(st);
    var cache := JsMap.SetAll(JsMap.Empty(), ids, cs);
    JsMap.SetAllMaps(JsMap.Empty(), ids, cs);
    JsMap.SetAllOrder(JsMap.Empty(), ids, cs);
    var m := Manager(cache, st);
    forall k | JsMap.Get(cache, k).Some? ensures Cached(m, h, k, JsMap.Get(cache, k).value) {
      var i :| 0 <= i < |ids| && ids[i] == k;
    }
  }

  /**
   * `addCourse(course)`: `dao.save` first. A refused save (the id is already stored)
   * leaves the manager as it was; otherwise the store and the cache both gain the course
   * under its id and nothing else changes.
   */
  function AddCourse(m: Manager, h: Heap, c: Ref): (res: (Manager, Option<Error>))
    requires Inv(m, h) && CourseJson.Serialisable(h, c)
    ensures Inv(res.0, h)
    ensures res.1.Some? <==> h.courses[c].id in Keys(m.store)
    ensures res.1.Some? ==> res.1.value == ConstraintError && res.0 == m
    ensures res.1.None? ==>
      && ChangedAt(m.store, res.0.store, h.courses[c].id, Some(CourseJson.ToJSON(h, c)))
      && JsMap.ChangedAt(m.cache, res.0.cache, h.courses[c].id, Some(c))
  {
    match Save(m.store, h, c)
    case Failure(e) => (m, Some(e))
    case Success(st) =>
      CachePut(m, h, st, c);
      (Manager(JsMap.Set(m.cache, h.courses[c].id, c), st), None)
  }

  /**
   * `getCourse(id)`: a cache hit is returned as is, with no DAO call; a miss reads
   * through to the DAO.
   */
  function GetCourse(m: Manager, h: Heap, id: string): (res: (Manager, Heap, Option<Ref>))
    requires Inv(m, h)
    ensures Inv(res.0, res.1) && OnlyAllocates(h, res.1) && res.0.store == m.store
    ensures JsMap.Get(m.cache, id).Some? ==> res == (m, h, JsMap.Get(m.cache, id))
    ensures JsMap.Get(m.cache, id).None? ==> res == ReadThrough(m, h, id)
  {
    var cached := JsMap.Get(m.cache, id);
    if cached.Some? then (m, h, cached) else ReadThrough(m, h, id)
  }

  /**
   * The miss path of `getCourse(id)`: the course `findById` rebuilds is cached under
   * `id` and returned; when the store lacks the id too, nothing changes.
   */
  function ReadThrough(m: Manager, h: Heap, id: string): (res: (Manager, Heap, Option<Ref>))
    requires Inv(m, h)
    ensures Inv(res.0, res.1) && OnlyAllocates(h, res.1) && res.0.store == m.store
    ensures res.2.Some? <==> id in Keys(m.store)
    ensures res.2.None? ==> res.0 == m && res.1 == h
    ensures res.2.Some? ==>
      && Rebuilt(h, res.1, res.2.value, Lookup(m.store, id).value)
      && JsMap.ChangedAt(m.cache, res.0.cache, id, res.2)
  {
    var found := FindById(m.store, h, id);
    if found.1.None? then (m, h, None)
    else
      var c := found.1.value;
      assert found.0.courses[c].id == id by {
        assert Entry(id, Lookup(m.store, id).value) in m.store;
      }
      OnlyAllocatesExtends(h, found.0);
      InvLater(m, h, found.0);
      CachePut(m, found.0, m.store, c);
      (m.(cache := JsMap.Set(m.cache, id, c)), found.0, found.1)
  }

  /** `getAllCourses()`: exactly the cached courses, in cache order, with no DAO query. */
  function GetAllCourses(m: Manager): (cs: seq<Ref>)
    requires JsMap.Valid(m.cache)
    ensures |cs| == |JsMap.KeyOrder(m.cache)|
    ensures forall i :: 0 <= i < |cs| ==> JsMap.Get(m.cache, JsMap.KeyOrder(m.cache)[i]) == Some(cs[i])
    ensures forall k :: JsMap.Get(m.cache, k).Some? ==> JsMap.Get(m.cache, k).value in cs
  {
    JsMap.ValueList(m.cache)
  }

  /**
   * `getCoursesByTeacher(teacherId)`: the DAO's answer, the rebuilt courses whose record
   * embeds a teacher with that id; the manager is not touched.
   */
  function GetCoursesByTeacher(m: Manager, h: Heap, teacherId: string): (res: (Heap, seq<Ref>))
    requires Inv(m, h)
    ensures Inv(m, res.0) && OnlyAllocates(h, res.0)
    ensures IsSubsequence(res.1, FindAll(m.store, h).1)
    ensures forall i :: 0 <= i < |m.store| ==>
      (FindAll(m.store, h).1[i] in res.1 <==>
        m.store[i].value.teacher.Some? && m.store[i].value.teacher.value.id == teacherId)
  {
    OnlyAllocatesExtends(h, FindAll(m.store, h).0);
    InvLater(m, h, FindAll(m.store, h).0);
    FindByTeacher(m.store, h, teacherId)
  }

  /** `getCoursesByStudent(studentId)`: the DAO's answer, which is always empty. */
  function GetCoursesByStudent(m: Manager, h: Heap, studentId: string): (res: (Heap, seq<Ref>))
    requires Inv(m, h)
    ensures Inv(m, res.0) && OnlyAllocates(h, res.0)
    ensures res.1 == []
  {
    OnlyAllocatesExtends(h, FindAll(m.store, h).0);
    InvLater(m, h, FindAll(m.store, h).0);
    FindByStudent(m.store, h, studentId)
  }

  /** `getCoursesBySubject(subject)`: the DAO's answer; the manager is not touched. */
  function GetCoursesBySubject(m: Manager, h: Heap, subject: string): (res: (Heap, seq<Ref>))
    requires Inv(m, h)
    ensures Inv(m, res.0) && OnlyAllocates(h, res.0)
    ensures IsSubsequence(res.1, FindAll(m.store, h).1)
    ensures forall i :: 0 <= i < |m.store| ==>
      (FindAll(m.store, h).1[i] in res.1 <==> m.store[i].value.subject == subject)
  {
    OnlyAllocatesExtends(h, FindAll(m.store, h).0);
    InvLater(m, h, FindAll(m.store, h).0);
    FindBySubject(m.store, h, subject)
  }

  /**
   * `updateCourse(course)`: `dao.update` (an upsert that cannot fail), then the cache
   * maps the id to this course object.
   */
  function UpdateCourse(m: Manager, h: Heap, c: Ref): (m': Manager)
    requires Inv(m, h) && CourseJson.Serialisable(h, c)
    ensures Inv(m', h)
    ensures ChangedAt(m.store, m'.store, h.courses[c].id, Some(CourseJson.ToJSON(h, c)))
    ensures JsMap.ChangedAt(m.cache, m'.cache, h.courses[c].id, Some(c))
  {
    var st := Update(m.store, h, c);
    CachePut(m, h, st, c);
    Manager(JsMap.Set(m.cache, h.courses[c].id, c), st)
  }

  /** `deleteCourse(id)`: the record goes first, then the cache entry; other keys stay. */
  function DeleteCourse(m: Manager, h: Heap, id: string): (m': Manager)
    requires Inv(m, h)
    ensures Inv(m', h)
    ensures ChangedAt(m.store, m'.store, id, None)
    ensures JsMap.ChangedAt(m.cache, m'.cache, id, None)
  {
    var st := Delete(m.store, id);
    CacheDrop(m, h, st, id);
    Manager(JsMap.Delete(m.cache, id), st)
  }

  /** After a successful `addCourse`, `getCourse` answers from the cache with that object. */
  lemma AddThenGet(m: Manager, h: Heap, c: Ref)
    requires Inv(m, h) && CourseJson.Serialisable(h, c) && AddCourse(m, h, c).1.None?
    ensures var m' := AddCourse(m, h, c).0; GetCourse(m', h, h.courses[c].id) == (m', h, Some(c))
  {
  }

  /** After `updateCourse`, `getCourse` answers from the cache with that object. */
  lemma UpdateThenGet(m: Manager, h: Heap, c: Ref)
    requires Inv(m, h) && CourseJson.Serialisable(h, c)
    ensures var m' := UpdateCourse(m, h, c); GetCourse(m', h, h.courses[c].id) == (m', h, Some(c))
  {
  }

  /** After `deleteCourse(id)`, neither the cache nor the store knows the id. */
  lemma DeleteThenGet(m: Manager, h: Heap, id: string)
    requires Inv(m, h)
    ensures var m' := DeleteCourse(m, h, id); GetCourse(m', h, id) == (m', h, None)
  {
  }

  /** A read-through populates the cache: asking again is a hit with the same answer. */
  lemma GetTwice(m: Manager, h: Heap, id: string)
    requires Inv(m, h)
    ensures var r := GetCourse(m, h, id); GetCourse(r.0, r.1, id) == r
  {
  }

  /**
   * Right after initialisation `getAllCourses` lists one fresh course per stored record,
   * in key order, each rebuilt from its record.
   */
  lemma InitializeThenGetAll(st: Store, h: Heap)
    requires StoreOk(st) && Allocated(h)
    ensures var res := Initialize(st, h); var cs := GetAllCourses(res.0);
      |cs| == |st| && forall i :: 0 <= i < |st| ==> Rebuilt(h, res.1, cs[i], st[i].value)
  {
    var res := Initialize(st, h);
    var cs := GetAllCourses(res.0);
    forall i | 0 <= i < |st| ensures Rebuilt(h, res.1, cs[i], st[i].value) {
      assert JsMap.KeyOrder(res.0.cache)[i] == st[i].key;
    }
  }
}
