/**
 * `IndexedDBCourseDAO` (src/controllers/IndexedDBCourseDAO.ts) over its object store
 * `courses`, whose key path is `id`. Every write stores `course.toJSON()`; every read
 * rebuilds fresh objects with `Course.fromJSON`, and every finder is `findAll`
 * followed by a filter. The `subject` and `teacherId` indexes are not unique and no
 * operation reads them, so they play no part here.
 */
module CourseDao {
  import opened Wrappers
  import opened Seqs
  import opened Entities
  import opened Documents
  import opened Entries
  import opened ObjectStore
  import opened CourseJson

  type Store = seq<Entry<CourseDoc>>

  /** Records in key order, each filed under its own document's `id` (the key path). */
  ghost predicate StoreOk(st: Store) {
    Sorted(st) && forall e :: e in st ==> e.key == e.value.id
  }

  /** `save(course)`: `store.add(course.toJSON())`, which refuses an id already stored. */
  function Save(st: Store, h: Heap, c: Ref): (r: Result<Store>)
    requires StoreOk(st) && Serialisable(h, c)
    ensures r.Failure? <==> h.courses[c].id in Keys(st)
    ensures r.Failure? ==> r.error == ConstraintError
    ensures r.Success? ==> StoreOk(r.value)
    ensures r.Success? ==>
      forall id :: Lookup(r.value, id) == if id == h.courses[c].id then Some(ToJSON(h, c)) else Lookup(st, id)
  {
    var d := ToJSON(h, c);
    Add(st, d.id, d, None)
  }

  /** `update(course)`: `store.put(course.toJSON())`, an upsert that cannot clash. */
  function Update(st: Store, h: Heap, c: Ref): (r: Store)
    requires StoreOk(st) && Serialisable(h, c)
    ensures StoreOk(r)
    ensures forall id :: Lookup(r, id) == if id == h.courses[c].id then Some(ToJSON(h, c)) else Lookup(st, id)
  {
    var d := ToJSON(h, c);
    Put(st, d.id, d, None).value
  }

  /** `delete(id)`: removes the record if there is one; an absent id is not an error. */
  function Delete(st: Store, id: string): (r: Store)
    requires StoreOk(st)
    ensures StoreOk(r)
    ensures forall k :: Lookup(r, k) == if k == id then None else Lookup(st, k)
  {
    Remove(st, id)
  }

  /**
   * `c` is a course object allocated after `h0` that serialises, in `h`, to what
   * `toJSON` gives back after `Course.fromJSON(d)`.
   */
  ghost predicate Rebuilt(h0: Heap, h: Heap, c: Ref, d: CourseDoc) {
    c !in h0.courses && Serialisable(h, c) && ToJSON(h, c) == ReadBack(d)
  }

  /**
   * `findById(id)`: `fromJSON` of the stored document, as a fresh course, or nothing
   * when the key is absent (and then nothing is allocated).
   */
  function FindById(st: Store, h: Heap, id: string): (res: (Heap, Option<Ref>))
    requires Allocated(h)
    ensures Allocated(res.0) && OnlyAllocates(h, res.0)
    ensures res.1.Some? <==> id in Keys(st)
    ensures res.1.None? ==> res.0 == h
    ensures res.1.Some? ==> Rebuilt(h, res.0, res.1.value, Lookup(st, id).value)
  {
    match Lookup(st, id)
    case None => (h, None)
    case Some(d) =>
      var r := FromJSON(h, d);
      (r.0, Some(r.1))
  }

  /** `documents.map(Course.fromJSON)`: one fresh course per document, in order. */
  function RebuildAll(h: Heap, ds: seq<CourseDoc>): (res: (Heap, seq<Ref>))
    requires Allocated(h)
    ensures Allocated(res.0) && OnlyAllocates(h, res.0)
    ensures |res.1| == |ds| && NoDup(res.1)
    ensures forall i :: 0 <= i < |ds| ==> Rebuilt(h, res.0, res.1[i], ds[i])
    decreases |ds|
  {
    if ds == [] then (h, [])
    else
      var first := FromJSON(h, ds[0]);
      var rest := RebuildAll(first.0, ds[1..]);
      RebuildStep(h, first.0, rest.0, first.1, rest.1, ds);
      (rest.0, [first.1] + rest.1)
  }

  /** The step of `RebuildAll`: the head's course survives the rebuilding of the tail. */
  lemma RebuildStep(h: Heap, h1: Heap, h2: Heap, c: Ref, cs: seq<Ref>, ds: seq<CourseDoc>)
    requires ds != [] && OnlyAllocates(h, h1) && OnlyAllocates(h1, h2)
    requires c in h1.courses && Rebuilt(h, h1, c, ds[0])
    requires |cs| == |ds| - 1 && NoDup(cs)
    requires forall i :: 0 <= i < |cs| ==> Rebuilt(h1, h2, cs[i], ds[1..][i])
    ensures OnlyAllocates(h, h2) && NoDup([c] + cs)
    ensures forall i :: 0 <= i < |ds| ==> Rebuilt(h, h2, ([c] + cs)[i], ds[i])
  {
    OnlyAllocatesTransitive(h, h1, h2);
    var all := [c] + cs;
    forall i | 0 <= i < |ds|
      ensures Rebuilt(h, h2, all[i], ds[i])
    {
      if i == 0 {
        RebuiltLater(h, h1, h2, c, ds[0]);
      } else {
        assert all[i] == cs[i - 1] && ds[i] == ds[1..][i - 1];
        RebuiltSince(h, h1, h2, cs[i - 1], ds[i]);
      }
    }
    forall j | 1 <= j < |all|
      ensures all[j] != c
    {
      assert all[j] == cs[j - 1];
      assert Rebuilt(h1, h2, cs[j - 1], ds[1..][j - 1]);
    }
  }

  /** A rebuilt course stays rebuilt while other objects are allocated. */
  lemma RebuiltLater(h0: Heap, h: Heap, h': Heap, c: Ref, d: CourseDoc)
    requires Rebuilt(h0, h, c, d) && OnlyAllocates(h, h')
    ensures Rebuilt(h0, h', c, d)
  {
    ToJSONKept(h, h', c);
  }

  /** A course allocated after `h1` was allocated after any earlier `h0` too. */
  lemma RebuiltSince(h0: Heap, h1: Heap, h: Heap, c: Ref, d: CourseDoc)
    requires OnlyAllocates(h0, h1) && Rebuilt(h1, h, c, d)
    ensures Rebuilt(h0, h, c, d)
  {
  }

  /** `findAll()`: `getAll` yields the records in key order, each rebuilt by `fromJSON`. */
  function FindAll(st: Store, h: Heap): (res: (Heap, seq<Ref>))
    requires Allocated(h)
    ensures Allocated(res.0) && OnlyAllocates(h, res.0)
    ensures |res.1| == |st| && NoDup(res.1)
    ensures forall i :: 0 <= i < |st| ==> Rebuilt(h, res.0, res.1[i], st[i].value)
  {
    RebuildAll(h, Values(st))
  }

  /** `course.teacher?.id === teacherId` on a rebuilt course. */
  predicate TaughtBy(h: Heap, teacherId: string, c: Ref) {
    && c in h.courses && h.courses[c].teacher.Some?
    && h.courses[c].teacher.value in h.teachers
    && h.teachers[h.courses[c].teacher.value].id == teacherId
  }

  /**
   * `findByTeacher(teacherId)`: the rebuilt courses, in `findAll` order, whose stored
   * document embeds a teacher with that id.
   */
  function FindByTeacher(st: Store, h: Heap, teacherId: string): (res: (Heap, seq<Ref>))
    requires Allocated(h)
    ensures var all := FindAll(st, h); res.0 == all.0 && IsSubsequence(res.1, all.1)
    ensures forall i :: 0 <= i < |st| ==>
      (FindAll(st, h).1[i] in res.1 <==> st[i].value.teacher.Some? && st[i].value.teacher.value.id == teacherId)
  {
    var all := FindAll(st, h);
    var r := Filter(all.1, c => TaughtBy(all.0, teacherId, c));
    forall i | 0 <= i < |st|
      ensures TaughtBy(all.0, teacherId, all.1[i]) <==> st[i].value.teacher.Some? && st[i].value.teacher.value.id == teacherId
    {
      assert Rebuilt(h, all.0, all.1[i], st[i].value);
    }
    (all.0, r)
  }

  /** `findBySubject(subject)`: the rebuilt courses, in `findAll` order, with that subject. */
  function FindBySubject(st: Store, h: Heap, subject: string): (res: (Heap, seq<Ref>))
    requires Allocated(h)
    ensures var all := FindAll(st, h); res.0 == all.0 && IsSubsequence(res.1, all.1)
    ensures forall i :: 0 <= i < |st| ==> (FindAll(st, h).1[i] in res.1 <==> st[i].value.subject == subject)
  {
    var all := FindAll(st, h);
    var r := Filter(all.1, c => c in all.0.courses && all.0.courses[c].subject == subject);
    forall i | 0 <= i < |st|
      ensures all.1[i] in all.0.courses && all.0.courses[all.1[i]].subject == st[i].value.subject
    {
      assert Rebuilt(h, all.0, all.1[i], st[i].value);
    }
    (all.0, r)
  }

  /** `course.students.some(student => student.id === studentId)` on a rebuilt course. */
  predicate Enrols(h: Heap, studentId: string, c: Ref) {
    && c in h.courses
    && exists j :: 0 <= j < |h.courses[c].students| &&
         h.courses[c].students[j] in h.students && h.students[h.courses[c].students[j]].id == studentId
  }

  /**
   * `findByStudent(studentId)` is always empty: `Course.fromJSON` restores no students,
   * so no rebuilt course has any to match.
   */
  function FindByStudent(st: Store, h: Heap, studentId: string): (res: (Heap, seq<Ref>))
    requires Allocated(h)
    ensures res.0 == FindAll(st, h).0 && res.1 == []
  {
    var all := FindAll(st, h);
    forall i | 0 <= i < |st|
      ensures all.1[i] in all.0.courses && all.0.courses[all.1[i]].students == []
    {
      assert Rebuilt(h, all.0, all.1[i], st[i].value);
    }
    var r := Filter(all.1, c => Enrols(all.0, studentId, c));
    FilterNone(all.1, c => Enrols(all.0, studentId, c));
    (all.0, r)
  }

  /** Rebuilding keeps a valid heap valid. */
  lemma {:induction false} RebuildAllValid(h: Heap, ds: seq<CourseDoc>)
    requires Valid(h)
    ensures Valid(RebuildAll(h, ds).0)
    decreases |ds|
  {
    if ds != [] {
      FromJSONValid(h, ds[0]);
      RebuildAllValid(FromJSON(h, ds[0]).0, ds[1..]);
    }
  }

  lemma FindAllValid(st: Store, h: Heap)
    requires Valid(h)
    ensures Valid(FindAll(st, h).0)
  {
    RebuildAllValid(h, Values(st));
  }

  lemma FindByIdValid(st: Store, h: Heap, id: string)
    requires Valid(h)
    ensures Valid(FindById(st, h, id).0)
  {
    if Lookup(st, id).Some? {
      FromJSONValid(h, Lookup(st, id).value);
    }
  }

  /**
   * A saved course reads back with the same id, title, subject and embedded teacher
   * document, and without its students and resources.
   */
  lemma SaveThenFindById(st: Store, h: Heap, c: Ref, h': Heap)
    requires StoreOk(st) && Allocated(h) && Serialisable(h, c) && Save(st, h, c).Success?
    requires OnlyAllocates(h, h') && Allocated(h')
    ensures var res := FindById(Save(st, h, c).value, h', h.courses[c].id);
      && res.1.Some?
      && ToJSON(res.0, res.1.value) == ToJSON(h, c).(students := [], resources := [])
  {
    var d := ToJSON(h, c);
    var res := FindById(Save(st, h, c).value, h', h.courses[c].id);
    assert Rebuilt(h', res.0, res.1.value, d);
    if d.teacher.Some? {
      assert TeacherJson.ReadBack(d.teacher.value) == d.teacher.value;
    }
  }

  /** After `update`, `findById` reads back the new document; the other keys read as before. */
  lemma UpdateThenFindById(st: Store, h: Heap, c: Ref, h': Heap, id: string)
    requires StoreOk(st) && Allocated(h) && Serialisable(h, c) && Allocated(h')
    ensures var res := FindById(Update(st, h, c), h', id);
      if id == h.courses[c].id then
        res.1.Some? && ToJSON(res.0, res.1.value) == ReadBack(ToJSON(h, c))
      else
        res == FindById(st, h', id)
  {
  }

  /** After `delete(id)`, `findById(id)` finds nothing and every other key reads as before. */
  lemma DeleteThenFindById(st: Store, h: Heap, id: string, k: string)
    requires StoreOk(st) && Allocated(h)
    ensures FindById(Delete(st, id), h, k) == if k == id then (h, None) else FindById(st, h, k)
  {
  }

  /**
   * The scenario of src/tests/testCourseDAO.ts:34-47: once a teacher is assigned and the
   * course updated, `findById` yields a course whose teacher is defined, with the
   * teacher's id.
   */
  lemma AssignedTeacherSurvivesStore(st: Store, h: Heap, c: Ref, h': Heap)
    requires StoreOk(st) && Allocated(h) && Serialisable(h, c) && Allocated(h')
    requires h.courses[c].teacher.Some?
    ensures var res := FindById(Update(st, h, c), h', h.courses[c].id);
      && res.1.Some? && res.0.courses[res.1.value].teacher.Some?
      && res.0.teachers[res.0.courses[res.1.value].teacher.value].id == h.teachers[h.courses[c].teacher.value].id
  {
    var res := FindById(Update(st, h, c), h', h.courses[c].id);
    assert Rebuilt(h', res.0, res.1.value, ToJSON(h, c));
  }
}
