/** The mutators of `Course` (src/models/Course.ts). */
module CourseModel {
  import opened Wrappers
  import opened Seqs
  import opened Entities
  import ResourceModel

  /**
   * `assignTeacher(teacher)`: replaces any previous teacher. Only the course changes;
   * neither the new nor the previous teacher's `courses` list is touched.
   */
  function AssignTeacher(h: Heap, c: Ref, t: Ref): (h': Heap)
    requires Valid(h) && c in h.courses && t in h.teachers
    ensures Valid(h') && OnlyCourseChanged(h, h', c)
    ensures h'.courses[c].teacher == Some(t)
    ensures h'.courses[c].(teacher := None) == h.courses[c].(teacher := None)
  {
    h.(courses := h.courses[c := h.courses[c].(teacher := Some(t))])
  }

  /**
   * `addStudent(student)`: appends the student unless that very object is already on
   * the roster. The student's own `enrolledCourses` is not touched.
   */
  function AddStudent(h: Heap, c: Ref, s: Ref): (h': Heap)
    requires Valid(h) && c in h.courses && s in h.students
    ensures Valid(h') && OnlyCourseChanged(h, h', c)
    ensures s in h'.courses[c].students
    ensures s in h.courses[c].students ==> h' == h
    ensures s !in h.courses[c].students ==>
      h'.courses[c] == h.courses[c].(students := h.courses[c].students + [s])
  {
    var course := h.courses[c];
    if s in course.students then h
    else h.(courses := h.courses[c := course.(students := course.students + [s])])
  }

  /**
   * `assignResource(resource)`: when the resource object is not yet listed, appends it
   * and records this course on the resource (`resource.addCourse(this)`); when it is
   * listed, neither side changes.
   */
  function AssignResource(h: Heap, c: Ref, r: Ref): (h': Heap)
    requires Valid(h) && c in h.courses && r in h.resources
    ensures Valid(h') && Extends(h, h')
    ensures r in h'.courses[c].resources
    ensures r in h.courses[c].resources ==> h' == h
    ensures r !in h.courses[c].resources ==>
      && c in h'.resources[r].courses
      && h'.courses == h.courses[c := h.courses[c].(resources := h.courses[c].resources + [r])]
      && h'.resources == h.resources[r := h'.resources[r]]
      && h'.resources[r].courses ==
           (if c in h.resources[r].courses then h.resources[r].courses else h.resources[r].courses + [c])
      && h'.resources[r].(courses := []) == h.resources[r].(courses := [])
      && h'.students == h.students && h'.teachers == h.teachers && h'.next == h.next
  {
    var course := h.courses[c];
    if r in course.resources then h
    else
      var course' := course.(resources := course.resources + [r]);
      assert CourseOk(h, course') by { NoDupAppend(course.resources, r); }
      SetCourseValid(h, c, course');
      var h1 := h.(courses := h.courses[c := course']);
      SetCourseExtends(h, c, course');
      var h2 := ResourceModel.AddCourse(h1, r, c);
      assert h2 == h1.(resources := h1.resources[r := h2.resources[r]]);
      SetResourceExtends(h1, r, h2.resources[r]);
      ExtendsTransitive(h, h1, h2);
      h2
  }

  lemma AddStudentIdempotent(h: Heap, c: Ref, s: Ref)
    requires Valid(h) && c in h.courses && s in h.students
    ensures AddStudent(AddStudent(h, c, s), c, s) == AddStudent(h, c, s)
  {
  }

  lemma AssignResourceIdempotent(h: Heap, c: Ref, r: Ref)
    requires Valid(h) && c in h.courses && r in h.resources
    ensures AssignResource(AssignResource(h, c, r), c, r) == AssignResource(h, c, r)
  {
  }

  /** A later `assignTeacher` wins: the earlier assignment leaves no trace on the course. */
  lemma AssignTeacherReplaces(h: Heap, c: Ref, t1: Ref, t2: Ref)
    requires Valid(h) && c in h.courses && t1 in h.teachers && t2 in h.teachers
    ensures AssignTeacher(AssignTeacher(h, c, t1), c, t2) == AssignTeacher(h, c, t2)
  {
  }
}
