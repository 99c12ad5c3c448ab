/**
 * `toJSON` / `fromJSON` of the four entity classes. `toJSON` flattens every related
 * object to its projection; `fromJSON` rebuilds the entity as a fresh object whose
 * related objects are fresh bare stubs carrying only the projected fields — they are
 * never looked up among the objects that already exist.
 */
module TeacherJson {
  import opened Wrappers
  import opened Seqs
  import opened Entities
  import opened Documents
  import opened Projection

  /** What `toJSON` dereferences: the teacher and each of its courses are live. */
  ghost predicate Serialisable(h: Heap, t: Ref) {
    t in h.teachers && RefsIn(h.teachers[t].courses, h.courses)
  }

  /** `Teacher.toJSON()` (src/models/Teacher.ts:37-48). */
  function ToJSON(h: Heap, t: Ref): (d: TeacherDoc)
    requires Serialisable(h, t)
    ensures d.id == h.teachers[t].id && d.name == h.teachers[t].name && d.email == h.teachers[t].email
    ensures d.courses.Some? && |d.courses.value| == |h.teachers[t].courses|
    ensures forall i :: 0 <= i < |d.courses.value| ==>
      d.courses.value[i] == CourseProjection(h.courses[h.teachers[t].courses[i]])
  {
    var te := h.teachers[t];
    TeacherDoc(te.id, te.name, te.email, Some(ProjectCourses(h, te.courses)))
  }

  /** The document of a teacher depends only on its own fields and immutable course fields. */
  lemma ToJSONStable(h: Heap, h': Heap, t: Ref)
    requires Extends(h, h') && Serialisable(h, t)
    requires h'.teachers[t].courses == h.teachers[t].courses
    ensures Serialisable(h', t) && ToJSON(h', t) == ToJSON(h, t)
  {
    ProjectCoursesStable(h, h', h.teachers[t].courses);
  }

  /**
   * `Teacher.fromJSON(json)` (src/models/Teacher.ts:50-58): a fresh teacher with the
   * document's id, name and email; its courses are fresh bare stubs, one per projection,
   * and a document without `courses` yields an empty list. Serialising the result gives
   * back the document, with a missing `courses` read as empty.
   */
  function FromJSON(h: Heap, d: TeacherDoc): (res: (Heap, Ref))
    requires Allocated(h)
    ensures Allocated(res.0) && OnlyAllocates(h, res.0)
    ensures res.1 !in h.teachers && Serialisable(res.0, res.1)
    ensures ToJSON(res.0, res.1) == ReadBack(d)
    ensures forall c :: c in res.0.teachers[res.1].courses ==> c !in h.courses && IsBare(res.0.courses[c])
  {
    var ps := d.courses.GetOr([]);
    var stubs := AllocCourseStubs(h, ps);
    var h1 := stubs.0;
    var t := h1.next;
    var h2 := h1.(teachers := h1.teachers[t := Teacher(d.id, d.name, d.email, stubs.1)], next := t + 1);
    AllocTeacher(h1, Teacher(d.id, d.name, d.email, stubs.1), h2);
    OnlyAllocatesTransitive(h, h1, h2);
    assert ProjectCourses(h2, stubs.1) == ps;
    (h2, t)
  }

  /** What `toJSON` gives back after `fromJSON(d)`: a missing `courses` reads as empty. */
  function ReadBack(d: TeacherDoc): TeacherDoc {
    d.(courses := Some(d.courses.GetOr([])))
  }

  /** `fromJSON` keeps a valid heap valid. */
  lemma FromJSONValid(h: Heap, d: TeacherDoc)
    requires Valid(h)
    ensures Valid(FromJSON(h, d).0)
  {
    var ps := d.courses.GetOr([]);
    var stubs := AllocCourseStubs(h, ps);
    AllocCourseStubsValid(h, ps);
    AllocTeacherValid(stubs.0, Teacher(d.id, d.name, d.email, stubs.1), FromJSON(h, d).0);
  }

  /** `fromJSON(toJSON(t))` keeps id, name, email and the course projections. */
  lemma RoundTrip(h: Heap, t: Ref)
    requires Allocated(h) && Serialisable(h, t)
    ensures var res := FromJSON(h, ToJSON(h, t)); ToJSON(res.0, res.1) == ToJSON(h, t)
  {
  }
}

module StudentJson {
  import opened Wrappers
  import opened Seqs
  import opened Entities
  import opened Documents
  import opened Projection

  /** What `toJSON` dereferences: the student and each of its courses are live. */
  ghost predicate Serialisable(h: Heap, s: Ref) {
    s in h.students && RefsIn(h.students[s].enrolledCourses, h.courses)
  }

  /** `Student.toJSON()` (src/models/Student.ts:49-61). */
  function ToJSON(h: Heap, s: Ref): (d: StudentDoc)
    requires Serialisable(h, s)
    ensures d.id == h.students[s].id && d.name == h.students[s].name && d.email == h.students[s].email
    ensures d.extraServices == h.students[s].extraServices
    ensures d.enrolledCourses.Some? && |d.enrolledCourses.value| == |h.students[s].enrolledCourses|
    ensures forall i :: 0 <= i < |d.enrolledCourses.value| ==>
      d.enrolledCourses.value[i] == CourseProjection(h.courses[h.students[s].enrolledCourses[i]])
  {
    var st := h.students[s];
    StudentDoc(st.id, st.name, st.email, Some(ProjectCourses(h, st.enrolledCourses)), st.extraServices)
  }

  /** The document of a student depends only on its own fields and immutable course fields. */
  lemma ToJSONStable(h: Heap, h': Heap, s: Ref)
    requires Extends(h, h') && Serialisable(h, s)
    requires h'.students[s].enrolledCourses == h.students[s].enrolledCourses
    requires h'.students[s].extraServices == h.students[s].extraServices
    ensures Serialisable(h', s) && ToJSON(h', s) == ToJSON(h, s)
  {
    ProjectCoursesStable(h, h', h.students[s].enrolledCourses);
  }

  /** Allocating other objects does not change a student's document. */
  lemma ToJSONKept(h: Heap, h': Heap, s: Ref)
    requires OnlyAllocates(h, h') && Serialisable(h, s)
    ensures Serialisable(h', s) && ToJSON(h', s) == ToJSON(h, s)
  {
    OnlyAllocatesExtends(h, h');
    ToJSONStable(h, h', s);
  }

  /**
   * `Student.fromJSON(json)` (src/models/Student.ts:63-70). Unlike the other entities
   * there is no guard on `enrolledCourses`: a document without it throws a TypeError.
   * Otherwise the result is a fresh student whose courses are fresh bare stubs, and
   * serialising it gives back exactly the document.
   */
  function FromJSON(h: Heap, d: StudentDoc): (res: Result<(Heap, Ref)>)
    requires Allocated(h)
    ensures res.Failure? <==> d.enrolledCourses.None?
    ensures res.Failure? ==> res.error == TypeError
    ensures res.Success? ==>
      && Allocated(res.value.0) && OnlyAllocates(h, res.value.0)
      && res.value.1 !in h.students && Serialisable(res.value.0, res.value.1)
      && ToJSON(res.value.0, res.value.1) == d
      && (forall c :: c in res.value.0.students[res.value.1].enrolledCourses ==>
            c !in h.courses && IsBare(res.value.0.courses[c]))
  {
    if d.enrolledCourses.None? then Failure(TypeError)
    else
      var stubs := AllocCourseStubs(h, d.enrolledCourses.value);
      var h1 := stubs.0;
      var s := h1.next;
      var h2 := h1.(students := h1.students[s := Student(d.id, d.name, d.email, stubs.1, d.extraServices)], next := s + 1);
      AllocStudent(h1, Student(d.id, d.name, d.email, stubs.1, d.extraServices), h2);
      OnlyAllocatesTransitive(h, h1, h2);
      assert ProjectCourses(h2, stubs.1) == d.enrolledCourses.value;
      Success((h2, s))
  }

  /** `fromJSON` keeps a valid heap valid. */
  lemma FromJSONValid(h: Heap, d: StudentDoc)
    requires Valid(h) && d.enrolledCourses.Some?
    ensures Valid(FromJSON(h, d).value.0)
  {
    var stubs := AllocCourseStubs(h, d.enrolledCourses.value);
    AllocCourseStubsValid(h, d.enrolledCourses.value);
    AllocStudentValid(stubs.0, Student(d.id, d.name, d.email, stubs.1, d.extraServices), FromJSON(h, d).value.0);
  }

  /**
   * `fromJSON(toJSON(s))` succeeds and keeps id, name, email, services and the course
   * projections: the round trip is the identity on the document. It is not the identity
   * on behaviour in memory, where the new student shares the services array with `s`
   * (Student.ts:59 and :68); the model's value sequences cannot express that sharing.
   */
  lemma RoundTrip(h: Heap, s: Ref)
    requires Allocated(h) && Serialisable(h, s)
    ensures var res := FromJSON(h, ToJSON(h, s));
      res.Success? && ToJSON(res.value.0, res.value.1) == ToJSON(h, s)
  {
  }
}

module ResourceJson {
  import opened Wrappers
  import opened Seqs
  import opened Entities
  import opened Documents
  import opened Projection

  /** What `toJSON` dereferences: the resource and each of its courses are live. */
  ghost predicate Serialisable(h: Heap, r: Ref) {
    r in h.resources && RefsIn(h.resources[r].courses, h.courses)
  }

  /** `Resource.toJSON()` (src/models/Resource.ts:53-65). */
  function ToJSON(h: Heap, r: Ref): (d: ResourceDoc)
    requires Serialisable(h, r)
    ensures d.id == h.resources[r].id && d.name == h.resources[r].name && d.kind == h.resources[r].kind
    ensures d.available == Some(h.resources[r].available)
    ensures d.courses.Some? && |d.courses.value| == |h.resources[r].courses|
    ensures forall i :: 0 <= i < |d.courses.value| ==>
      d.courses.value[i] == CourseProjection(h.courses[h.resources[r].courses[i]])
  {
    var res := h.resources[r];
    ResourceDoc(res.id, res.name, res.kind, Some(res.available), Some(ProjectCourses(h, res.courses)))
  }

  /**
   * `Resource.fromJSON(json)` (src/models/Resource.ts:67-78): a fresh resource whose
   * courses are fresh bare stubs. A missing `available` takes the constructor's default
   * `true`, a missing `courses` yields an empty list; otherwise serialising the result
   * gives back the document.
   */
  function FromJSON(h: Heap, d: ResourceDoc): (res: (Heap, Ref))
    requires Allocated(h)
    ensures Allocated(res.0) && OnlyAllocates(h, res.0)
    ensures res.1 !in h.resources && Serialisable(res.0, res.1)
    ensures ToJSON(res.0, res.1) == ReadBack(d)
    ensures forall c :: c in res.0.resources[res.1].courses ==> c !in h.courses && IsBare(res.0.courses[c])
  {
    var ps := d.courses.GetOr([]);
    var stubs := AllocCourseStubs(h, ps);
    var h1 := stubs.0;
    var r := h1.next;
    var h2 := h1.(resources := h1.resources[r := Resource(d.id, d.name, d.kind, d.available.GetOr(true), stubs.1)], next := r + 1);
    AllocResource(h1, Resource(d.id, d.name, d.kind, d.available.GetOr(true), stubs.1), h2);
    OnlyAllocatesTransitive(h, h1, h2);
    assert ProjectCourses(h2, stubs.1) == ps;
    (h2, r)
  }

  /**
   * What `toJSON` gives back after `fromJSON(d)`: a missing `available` reads as the
   * constructor default `true`, a missing `courses` as empty.
   */
  function ReadBack(d: ResourceDoc): ResourceDoc {
    d.(available := Some(d.available.GetOr(true)), courses := Some(d.courses.GetOr([])))
  }

  /** `fromJSON` keeps a valid heap valid. */
  lemma FromJSONValid(h: Heap, d: ResourceDoc)
    requires Valid(h)
    ensures Valid(FromJSON(h, d).0)
  {
    var ps := d.courses.GetOr([]);
    var stubs := AllocCourseStubs(h, ps);
    AllocCourseStubsValid(h, ps);
    AllocResourceValid(stubs.0, Resource(d.id, d.name, d.kind, d.available.GetOr(true), stubs.1), FromJSON(h, d).0);
  }

  /** `fromJSON(toJSON(r))` keeps id, name, type, availability and the course projections. */
  lemma RoundTrip(h: Heap, r: Ref)
    requires Allocated(h) && Serialisable(h, r)
    ensures var res := FromJSON(h, ToJSON(h, r)); ToJSON(res.0, res.1) == ToJSON(h, r)
  {
  }
}

module CourseJson {
  import opened Wrappers
  import opened Seqs
  import opened Entities
  import opened Documents
  import opened Projection
  import TeacherJson

  /** What `toJSON` dereferences: the course, its teacher and the teacher's courses, its students and resources. */
  ghost predicate Serialisable(h: Heap, c: Ref) {
    && c in h.courses
    && (h.courses[c].teacher.Some? ==> TeacherJson.Serialisable(h, h.courses[c].teacher.value))
    && RefsIn(h.courses[c].students, h.students)
    && RefsIn(h.courses[c].resources, h.resources)
  }

  /**
   * `Course.toJSON()` (src/models/Course.ts:60-77): students and resources become
   * projections and the teacher is embedded through `Teacher.toJSON()`, whose courses
   * are themselves projections.
   */
  function ToJSON(h: Heap, c: Ref): (d: CourseDoc)
    requires Serialisable(h, c)
    ensures d.id == h.courses[c].id && d.title == h.courses[c].title && d.subject == h.courses[c].subject
    ensures d.teacher.Some? <==> h.courses[c].teacher.Some?
    ensures d.teacher.Some? ==> d.teacher.value == TeacherJson.ToJSON(h, h.courses[c].teacher.value)
    ensures |d.students| == |h.courses[c].students| && |d.resources| == |h.courses[c].resources|
    ensures forall i :: 0 <= i < |d.students| ==>
      d.students[i] == StudentProjection(h.students[h.courses[c].students[i]])
    ensures forall i :: 0 <= i < |d.resources| ==>
      d.resources[i] == ResourceProjection(h.resources[h.courses[c].resources[i]])
  {
    var co := h.courses[c];
    CourseDoc(co.id, co.title, co.subject,
      if co.teacher.Some? then Some(TeacherJson.ToJSON(h, co.teacher.value)) else None,
      ProjectStudents(h, co.students), ProjectResources(h, co.resources))
  }

  /** Allocating other objects does not change a course's document. */
  lemma ToJSONKept(h: Heap, h': Heap, c: Ref)
    requires OnlyAllocates(h, h') && Serialisable(h, c)
    ensures Serialisable(h', c) && ToJSON(h', c) == ToJSON(h, c)
  {
    OnlyAllocatesExtends(h, h');
    var co := h.courses[c];
    if co.teacher.Some? {
      TeacherJson.ToJSONStable(h, h', co.teacher.value);
    }
    assert ProjectStudents(h', co.students) == ProjectStudents(h, co.students);
    assert ProjectResources(h', co.resources) == ProjectResources(h, co.resources);
  }

  /**
   * `Course.fromJSON(json)` (src/models/Course.ts:79-86): a fresh course with the
   * document's id, title and subject, and a fresh teacher rebuilt by
   * `Teacher.fromJSON` when the document has one. Students and resources are silently
   * dropped, and the embedded teacher reads back with a missing `courses` as empty.
   */
  function FromJSON(h: Heap, d: CourseDoc): (res: (Heap, Ref))
    requires Allocated(h)
    ensures Allocated(res.0) && OnlyAllocates(h, res.0)
    ensures res.1 !in h.courses && Serialisable(res.0, res.1)
    ensures var co := res.0.courses[res.1];
      co.students == [] && co.resources == [] && (co.teacher.Some? ==> co.teacher.value !in h.teachers)
    ensures ToJSON(res.0, res.1) == ReadBack(d)
  {
    if d.teacher.None? then
      AllocCourseObject(h, d, None)
    else
      var tres := TeacherJson.FromJSON(h, d.teacher.value);
      var res := AllocCourseObject(tres.0, d, Some(tres.1));
      OnlyAllocatesTransitive(h, tres.0, res.0);
      res
  }

  /** The course object `fromJSON` builds last, with no students and no resources. */
  function AllocCourseObject(h: Heap, d: CourseDoc, teacher: Option<Ref>): (res: (Heap, Ref))
    requires Allocated(h)
    requires teacher.Some? ==> TeacherJson.Serialisable(h, teacher.value)
    ensures Allocated(res.0) && OnlyAllocates(h, res.0)
    ensures res.1 !in h.courses && Serialisable(res.0, res.1)
    ensures res.0.courses[res.1] == Course(d.id, d.title, d.subject, teacher, [], [])
    ensures teacher.Some? ==> TeacherJson.ToJSON(res.0, teacher.value) == TeacherJson.ToJSON(h, teacher.value)
  {
    var c := h.next;
    var h' := h.(courses := h.courses[c := Course(d.id, d.title, d.subject, teacher, [], [])], next := c + 1);
    AllocCourse(h, Course(d.id, d.title, d.subject, teacher, [], []), h');
    assert teacher.Some? ==> TeacherJson.ToJSON(h', teacher.value) == TeacherJson.ToJSON(h, teacher.value) by {
      if teacher.Some? {
        TeacherJson.ToJSONStable(h, h', teacher.value);
      }
    }
    (h', c)
  }

  /**
   * What `toJSON` gives back after `fromJSON(d)`: the embedded teacher reads back as
   * `Teacher.fromJSON` leaves it, and the students and resources are gone.
   */
  function ReadBack(d: CourseDoc): CourseDoc {
    d.(teacher := if d.teacher.Some? then Some(TeacherJson.ReadBack(d.teacher.value)) else None,
       students := [], resources := [])
  }

  /** `fromJSON` keeps a valid heap valid. */
  lemma FromJSONValid(h: Heap, d: CourseDoc)
    requires Valid(h)
    ensures Valid(FromJSON(h, d).0)
  {
    if d.teacher.Some? {
      var tres := TeacherJson.FromJSON(h, d.teacher.value);
      TeacherJson.FromJSONValid(h, d.teacher.value);
      assert tres.1 in tres.0.teachers;
      AllocCourseValid(tres.0, Course(d.id, d.title, d.subject, Some(tres.1), [], []), FromJSON(h, d).0);
    } else {
      AllocCourseValid(h, Course(d.id, d.title, d.subject, None, [], []), FromJSON(h, d).0);
    }
  }

  /**
   * `fromJSON(toJSON(c))` keeps id, title, subject and the embedded teacher document,
   * and loses every student and resource.
   */
  lemma RoundTrip(h: Heap, c: Ref)
    requires Allocated(h) && Serialisable(h, c)
    ensures var res := FromJSON(h, ToJSON(h, c));
      ToJSON(res.0, res.1) == ToJSON(h, c).(students := [], resources := [])
  {
  }
}
