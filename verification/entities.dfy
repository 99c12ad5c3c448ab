/**
 * The in-memory object graph of the school model (the four classes under src/models).
 *
 * JavaScript objects are reference values and the four entity classes point at each
 * other cyclically. The model keeps every live object in a `Heap`: one map per class
 * from an object reference (`Ref`) to the object's fields, plus an allocation counter.
 * A `Ref` is object IDENTITY — what `Array.prototype.includes` compares — and is
 * distinct from the `id` string field that the store uses as primary key: two
 * different objects may carry the same `id`.
 */
module Entities {
  import opened Wrappers
  import opened Seqs

  type Ref = nat

  datatype Student = Student(
    id: string, name: string, email: string,
    enrolledCourses: seq<Ref>, extraServices: seq<string>)

  datatype Teacher = Teacher(id: string, name: string, email: string, courses: seq<Ref>)

  datatype Course = Course(
    id: string, title: string, subject: string,
    teacher: Option<Ref>, students: seq<Ref>, resources: seq<Ref>)

  datatype Resource = Resource(
    id: string, name: string, kind: string, available: bool, courses: seq<Ref>)

  datatype Heap = Heap(
    students: map<Ref, Student>,
    teachers: map<Ref, Teacher>,
    courses: map<Ref, Course>,
    resources: map<Ref, Resource>,
    next: Ref)

  ghost predicate RefsIn<V>(rs: seq<Ref>, m: map<Ref, V>) {
    forall r :: r in rs ==> r in m
  }

  ghost predicate StudentOk(h: Heap, s: Student) {
    RefsIn(s.enrolledCourses, h.courses) && NoDup(s.enrolledCourses)
  }

  ghost predicate TeacherOk(h: Heap, t: Teacher) {
    RefsIn(t.courses, h.courses) && NoDup(t.courses)
  }

  ghost predicate CourseOk(h: Heap, c: Course) {
    && (c.teacher.Some? ==> c.teacher.value in h.teachers)
    && RefsIn(c.students, h.students) && NoDup(c.students)
    && RefsIn(c.resources, h.resources) && NoDup(c.resources)
  }

  ghost predicate ResourceOk(h: Heap, r: Resource) {
    RefsIn(r.courses, h.courses) && NoDup(r.courses)
  }

  /** The allocation counter is above every live reference, so `next` is always fresh. */
  ghost predicate Allocated(h: Heap) {
    && (forall r :: r in h.students ==> r < h.next)
    && (forall r :: r in h.teachers ==> r < h.next)
    && (forall r :: r in h.courses ==> r < h.next)
    && (forall r :: r in h.resources ==> r < h.next)
  }

  /**
   * A well-formed heap: every reference held by an object points at a live object of
   * the right class, every reference list is duplicate-free (the entity lists dedupe
   * by reference), and the allocation counter is above every live reference.
   */
  ghost predicate Valid(h: Heap) {
    && Allocated(h)
    && (forall r :: r in h.students ==> StudentOk(h, h.students[r]))
    && (forall r :: r in h.teachers ==> TeacherOk(h, h.teachers[r]))
    && (forall r :: r in h.courses ==> CourseOk(h, h.courses[r]))
    && (forall r :: r in h.resources ==> ResourceOk(h, h.resources[r]))
  }

  /**
   * `h'` is a later state of `h`: no object disappeared and no immutable field
   * (id, name, email, title, subject, type) changed. Every modelled operation
   * moves the heap along this relation.
   */
  ghost predicate Extends(h: Heap, h': Heap) {
    && h.next <= h'.next
    && (forall r :: r in h.students ==> r in h'.students && SameStudent(h.students[r], h'.students[r]))
    && (forall r :: r in h.teachers ==> r in h'.teachers && SameTeacher(h.teachers[r], h'.teachers[r]))
    && (forall r :: r in h.courses ==> r in h'.courses && SameCourse(h.courses[r], h'.courses[r]))
    && (forall r :: r in h.resources ==> r in h'.resources && SameResource(h.resources[r], h'.resources[r]))
  }

  /** The fields a class never reassigns after construction are equal. */
  predicate SameStudent(a: Student, b: Student) {
    a.id == b.id && a.name == b.name && a.email == b.email
  }

  predicate SameTeacher(a: Teacher, b: Teacher) {
    a.id == b.id && a.name == b.name && a.email == b.email
  }

  predicate SameCourse(a: Course, b: Course) {
    a.id == b.id && a.title == b.title && a.subject == b.subject
  }

  predicate SameResource(a: Resource, b: Resource) {
    a.id == b.id && a.name == b.name && a.kind == b.kind
  }

  /** `h'` differs from `h` only by newly allocated objects. */
  ghost predicate OnlyAllocates(h: Heap, h': Heap) {
    && h.next <= h'.next
    && (forall r :: r in h.students ==> r in h'.students && h'.students[r] == h.students[r])
    && (forall r :: r in h.teachers ==> r in h'.teachers && h'.teachers[r] == h.teachers[r])
    && (forall r :: r in h.courses ==> r in h'.courses && h'.courses[r] == h.courses[r])
    && (forall r :: r in h.resources ==> r in h'.resources && h'.resources[r] == h.resources[r])
  }

  /** Exactly one student object (and nothing else) may have changed. */
  ghost predicate OnlyStudentChanged(h: Heap, h': Heap, s: Ref) {
    && s in h.students && s in h'.students
    && h'.students == h.students[s := h'.students[s]]
    && h'.teachers == h.teachers && h'.courses == h.courses
    && h'.resources == h.resources && h'.next == h.next
  }

  /** Exactly one course object (and nothing else) may have changed. */
  ghost predicate OnlyCourseChanged(h: Heap, h': Heap, c: Ref) {
    && c in h.courses && c in h'.courses
    && h'.courses == h.courses[c := h'.courses[c]]
    && h'.students == h.students && h'.teachers == h.teachers
    && h'.resources == h.resources && h'.next == h.next
  }

  /** Exactly one resource object (and nothing else) may have changed. */
  ghost predicate OnlyResourceChanged(h: Heap, h': Heap, r: Ref) {
    && r in h.resources && r in h'.resources
    && h'.resources == h.resources[r := h'.resources[r]]
    && h'.students == h.students && h'.teachers == h.teachers
    && h'.courses == h.courses && h'.next == h.next
  }

  lemma ExtendsTransitive(h0: Heap, h1: Heap, h2: Heap)
    requires Extends(h0, h1) && Extends(h1, h2)
    ensures Extends(h0, h2)
  {
  }

  lemma OnlyAllocatesTransitive(h0: Heap, h1: Heap, h2: Heap)
    requires OnlyAllocates(h0, h1) && OnlyAllocates(h1, h2)
    ensures OnlyAllocates(h0, h2)
  {
  }

  /** Allocating leaves every existing object as it was, so it is a later state. */
  lemma OnlyAllocatesExtends(h: Heap, h': Heap)
    requires OnlyAllocates(h, h')
    ensures Extends(h, h')
  {
  }

  /** Changing one student's mutable fields only is a later state. */
  lemma OnlyStudentChangedExtends(h: Heap, h': Heap, s: Ref)
    requires OnlyStudentChanged(h, h', s) && SameStudent(h.students[s], h'.students[s])
    ensures Extends(h, h')
  {
  }

  // ---- replacing one object by a well-formed one keeps the heap valid ----

  lemma SetStudentValid(h: Heap, s: Ref, x: Student)
    requires Valid(h) && s in h.students && StudentOk(h, x)
    ensures Valid(h.(students := h.students[s := x]))
  {
  }

  lemma SetTeacherValid(h: Heap, t: Ref, x: Teacher)
    requires Valid(h) && t in h.teachers && TeacherOk(h, x)
    ensures Valid(h.(teachers := h.teachers[t := x]))
  {
  }

  lemma SetCourseValid(h: Heap, c: Ref, x: Course)
    requires Valid(h) && c in h.courses && CourseOk(h, x)
    ensures Valid(h.(courses := h.courses[c := x]))
  {
  }

  lemma SetResourceValid(h: Heap, r: Ref, x: Resource)
    requires Valid(h) && r in h.resources && ResourceOk(h, x)
    ensures Valid(h.(resources := h.resources[r := x]))
  {
  }

  // ---- replacing one object without touching its immutable fields extends the heap ----

  lemma SetStudentExtends(h: Heap, s: Ref, x: Student)
    requires s in h.students && SameStudent(h.students[s], x)
    ensures Extends(h, h.(students := h.students[s := x]))
  {
  }

  lemma SetTeacherExtends(h: Heap, t: Ref, x: Teacher)
    requires t in h.teachers && SameTeacher(h.teachers[t], x)
    ensures Extends(h, h.(teachers := h.teachers[t := x]))
  {
  }

  lemma SetCourseExtends(h: Heap, c: Ref, x: Course)
    requires c in h.courses && SameCourse(h.courses[c], x)
    ensures Extends(h, h.(courses := h.courses[c := x]))
  {
  }

  lemma SetResourceExtends(h: Heap, r: Ref, x: Resource)
    requires r in h.resources && SameResource(h.resources[r], x)
    ensures Extends(h, h.(resources := h.resources[r := x]))
  {
  }

  /** A heap that differs from `h` only by fresh bare courses is valid again. */
  lemma BareCoursesAllocatedValid(h: Heap, h': Heap)
    requires Valid(h) && h' == h.(courses := h'.courses, next := h'.next) && h.next <= h'.next
    requires forall r :: r in h.courses ==> r in h'.courses && h'.courses[r] == h.courses[r]
    requires forall r :: r in h'.courses ==> r < h'.next
    requires forall r :: r in h'.courses && r !in h.courses ==> IsBare(h'.courses[r])
    ensures Valid(h') && OnlyAllocates(h, h')
  {
    assert forall r :: r in h'.courses ==> CourseOk(h', h'.courses[r]);
  }

  // ---- adding one well-formed object under the next free reference ----

  lemma AllocStudent(h: Heap, x: Student, h': Heap)
    requires Allocated(h) && h' == h.(students := h.students[h.next := x], next := h.next + 1)
    ensures Allocated(h') && OnlyAllocates(h, h')
  {
  }

  lemma AllocStudentValid(h: Heap, x: Student, h': Heap)
    requires Valid(h) && StudentOk(h, x) && h' == h.(students := h.students[h.next := x], next := h.next + 1)
    ensures Valid(h')
  {
  }

  lemma AllocTeacher(h: Heap, x: Teacher, h': Heap)
    requires Allocated(h) && h' == h.(teachers := h.teachers[h.next := x], next := h.next + 1)
    ensures Allocated(h') && OnlyAllocates(h, h')
  {
  }

  lemma AllocTeacherValid(h: Heap, x: Teacher, h': Heap)
    requires Valid(h) && TeacherOk(h, x) && h' == h.(teachers := h.teachers[h.next := x], next := h.next + 1)
    ensures Valid(h')
  {
  }

  lemma AllocCourse(h: Heap, x: Course, h': Heap)
    requires Allocated(h) && h' == h.(courses := h.courses[h.next := x], next := h.next + 1)
    ensures Allocated(h') && OnlyAllocates(h, h')
  {
  }

  lemma AllocCourseValid(h: Heap, x: Course, h': Heap)
    requires Valid(h) && CourseOk(h, x) && h' == h.(courses := h.courses[h.next := x], next := h.next + 1)
    ensures Valid(h')
  {
  }

  lemma AllocResource(h: Heap, x: Resource, h': Heap)
    requires Allocated(h) && h' == h.(resources := h.resources[h.next := x], next := h.next + 1)
    ensures Allocated(h') && OnlyAllocates(h, h')
  {
  }

  lemma AllocResourceValid(h: Heap, x: Resource, h': Heap)
    requires Valid(h) && ResourceOk(h, x) && h' == h.(resources := h.resources[h.next := x], next := h.next + 1)
    ensures Valid(h')
  {
  }

  /** A course built by the constructor and never touched: no teacher, students or resources. */
  predicate IsBare(c: Course) {
    c.teacher.None? && c.students == [] && c.resources == []
  }

  // ---- constructors: `new X(...)` with the uuid passed in as `id` ----

  /** `new Student(name, email)` (src/models/Student.ts:9-14). */
  function NewStudent(h: Heap, id: string, name: string, email: string): (res: (Heap, Ref))
    requires Valid(h)
    ensures Valid(res.0) && OnlyAllocates(h, res.0)
    ensures res.1 !in h.students && res.1 in res.0.students
    ensures var s := res.0.students[res.1];
      s.id == id && s.name == name && s.email == email
      && s.enrolledCourses == [] && s.extraServices == []
    ensures res.0.courses == h.courses && res.0.teachers == h.teachers
      && res.0.resources == h.resources && res.0.students.Keys == h.students.Keys + {res.1}
  {
    var r := h.next;
    var h' := h.(students := h.students[r := Student(id, name, email, [], [])], next := r + 1);
    AllocStudent(h, Student(id, name, email, [], []), h');
    AllocStudentValid(h, Student(id, name, email, [], []), h');
    (h', r)
  }

  /** `new Teacher(name, email)` (src/models/Teacher.ts:7-12). */
  function NewTeacher(h: Heap, id: string, name: string, email: string): (res: (Heap, Ref))
    requires Valid(h)
    ensures Valid(res.0) && OnlyAllocates(h, res.0)
    ensures res.1 !in h.teachers && res.1 in res.0.teachers
    ensures var t := res.0.teachers[res.1];
      t.id == id && t.name == name && t.email == email && t.courses == []
    ensures res.0.courses == h.courses && res.0.students == h.students
      && res.0.resources == h.resources && res.0.teachers.Keys == h.teachers.Keys + {res.1}
  {
    var r := h.next;
    var h' := h.(teachers := h.teachers[r := Teacher(id, name, email, [])], next := r + 1);
    AllocTeacher(h, Teacher(id, name, email, []), h');
    AllocTeacherValid(h, Teacher(id, name, email, []), h');
    (h', r)
  }

  /** `new Course(title, subject)` (src/models/Course.ts:12-17). */
  function NewCourse(h: Heap, id: string, title: string, subject: string): (res: (Heap, Ref))
    requires Valid(h)
    ensures Valid(res.0) && OnlyAllocates(h, res.0)
    ensures res.1 !in h.courses && res.1 in res.0.courses && h.next <= res.1 < res.0.next
    ensures var c := res.0.courses[res.1];
      c.id == id && c.title == title && c.subject == subject && IsBare(c)
    ensures res.0.students == h.students && res.0.teachers == h.teachers
      && res.0.resources == h.resources && res.0.courses.Keys == h.courses.Keys + {res.1}
  {
    var r := h.next;
    var h' := h.(courses := h.courses[r := Course(id, title, subject, None, [], [])], next := r + 1);
    AllocCourse(h, Course(id, title, subject, None, [], []), h');
    AllocCourseValid(h, Course(id, title, subject, None, [], []), h');
    (h', r)
  }

  /**
   * `new Resource(name, type, available)` (src/models/Resource.ts:8-14): an omitted
   * (`undefined`) availability takes the default `true`.
   */
  function NewResource(h: Heap, id: string, name: string, kind: string, available: Option<bool>): (res: (Heap, Ref))
    requires Valid(h)
    ensures Valid(res.0) && OnlyAllocates(h, res.0)
    ensures res.1 !in h.resources && res.1 in res.0.resources
    ensures var r := res.0.resources[res.1];
      r.id == id && r.name == name && r.kind == kind && r.courses == []
      && (r.available <==> available != Some(false))
    ensures res.0.students == h.students && res.0.teachers == h.teachers
      && res.0.courses == h.courses && res.0.resources.Keys == h.resources.Keys + {res.1}
  {
    var r := h.next;
    var h' := h.(resources := h.resources[r := Resource(id, name, kind, available.GetOr(true), [])], next := r + 1);
    AllocResource(h, Resource(id, name, kind, available.GetOr(true), []), h');
    AllocResourceValid(h, Resource(id, name, kind, available.GetOr(true), []), h');
    (h', r)
  }
}
