/**
 * The mutators of `Student` (src/models/Student.ts). The getters return copies of the
 * arrays; with value sequences a caller can never alias the entity's own list, so they
 * need no separate model. The one aliasing the source allows, `toJSON` handing out the
 * services array itself and `fromJSON` installing the document's array, is not
 * modelled (see `StudentJson.RoundTrip`).
 */
module StudentModel {
  import opened Wrappers
  import opened Seqs
  import opened Entities
  import CourseModel

  /**
   * `enroll(course)`: when that course object is not yet enrolled, appends it and puts
   * the student on the course's roster (`course.addStudent(this)`); otherwise neither
   * side changes.
   */
  function Enroll(h: Heap, s: Ref, c: Ref): (h': Heap)
    requires Valid(h) && s in h.students && c in h.courses
    ensures Valid(h') && Extends(h, h')
    ensures c in h'.students[s].enrolledCourses
    ensures c in h.students[s].enrolledCourses ==> h' == h
    ensures c !in h.students[s].enrolledCourses ==>
      && h'.students == h.students[s := h.students[s].(enrolledCourses := h.students[s].enrolledCourses + [c])]
      && h'.courses == h.courses[c := h'.courses[c]]
      && s in h'.courses[c].students
      && h'.courses[c].students ==
           (if s in h.courses[c].students then h.courses[c].students else h.courses[c].students + [s])
      && h'.courses[c].(students := []) == h.courses[c].(students := [])
      && h'.teachers == h.teachers && h'.resources == h.resources && h'.next == h.next
  {
    var st := h.students[s];
    if c in st.enrolledCourses then h
    else
      var st' := st.(enrolledCourses := st.enrolledCourses + [c]);
      assert StudentOk(h, st') by { NoDupAppend(st.enrolledCourses, c); }
      SetStudentValid(h, s, st');
      var h1 := h.(students := h.students[s := st']);
      SetStudentExtends(h, s, st');
      var h2 := CourseModel.AddStudent(h1, c, s);
      assert h2 == h1.(courses := h1.courses[c := h2.courses[c]]);
      SetCourseExtends(h1, c, h2.courses[c]);
      ExtendsTransitive(h, h1, h2);
      h2
  }

  /**
   * `addService(serviceName)`: appends the name unless an equal string is already
   * listed; the existing services keep their order.
   */
  function AddService(h: Heap, s: Ref, service: string): (h': Heap)
    requires Valid(h) && s in h.students
    ensures Valid(h') && OnlyStudentChanged(h, h', s)
    ensures service in h'.students[s].extraServices
    ensures h.students[s].extraServices <= h'.students[s].extraServices
    ensures |h'.students[s].extraServices| <= |h.students[s].extraServices| + 1
    ensures h'.students[s].(extraServices := []) == h.students[s].(extraServices := [])
    ensures NoDup(h.students[s].extraServices) ==> NoDup(h'.students[s].extraServices)
    ensures service in h.students[s].extraServices ==> h' == h
    ensures service !in h.students[s].extraServices ==>
      h'.students[s].extraServices == h.students[s].extraServices + [service]
  {
    var st := h.students[s];
    if service in st.extraServices then h
    else h.(students := h.students[s := st.(extraServices := st.extraServices + [service])])
  }

  lemma AddServiceIdempotent(h: Heap, s: Ref, service: string)
    requires Valid(h) && s in h.students
    ensures AddService(AddService(h, s, service), s, service) == AddService(h, s, service)
  {
  }

  /** Services added to a duplicate-free list appear exactly once. */
  lemma AddServiceListsOnce(h: Heap, s: Ref, service: string)
    requires Valid(h) && s in h.students && NoDup(h.students[s].extraServices)
    ensures multiset(AddService(h, s, service).students[s].extraServices)[service] == 1
  {
    var h' := AddService(h, s, service);
    NoDupOccursOnce(h'.students[s].extraServices, service);
  }

  lemma EnrollIdempotent(h: Heap, s: Ref, c: Ref)
    requires Valid(h) && s in h.students && c in h.courses
    ensures Enroll(Enroll(h, s, c), s, c) == Enroll(h, s, c)
  {
  }

  /**
   * Enrolling a student twice in a course it was not enrolled in leaves the course
   * exactly once in `enrolledCourses` and the student exactly once on the roster.
   */
  lemma EnrollTwiceListsOnce(h: Heap, s: Ref, c: Ref)
    requires Valid(h) && s in h.students && c in h.courses
    requires c !in h.students[s].enrolledCourses
    ensures var h' := Enroll(Enroll(h, s, c), s, c);
      multiset(h'.students[s].enrolledCourses)[c] == 1 && multiset(h'.courses[c].students)[s] == 1
  {
    EnrollIdempotent(h, s, c);
    var h' := Enroll(h, s, c);
    NoDupOccursOnce(h'.students[s].enrolledCourses, c);
    NoDupOccursOnce(h'.courses[c].students, s);
  }
}
