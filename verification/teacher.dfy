/** The mutator of `Teacher` (src/models/Teacher.ts). */
module TeacherModel {
  import opened Wrappers
  import opened Seqs
  import opened Entities
  import CourseModel

  /**
   * `assignCourse(course)`: when that course object is not yet listed, appends it and
   * makes this teacher the course's teacher (`course.assignTeacher(this)`); otherwise
   * nothing changes. Only this teacher and the course are written: a previous teacher
   * of the course keeps the course in its own list.
   */
  function AssignCourse(h: Heap, t: Ref, c: Ref): (h': Heap)
    requires Valid(h) && t in h.teachers && c in h.courses
    ensures Valid(h') && Extends(h, h')
    ensures c in h'.teachers[t].courses
    ensures c in h.teachers[t].courses ==> h' == h
    ensures c !in h.teachers[t].courses ==>
      && h'.teachers == h.teachers[t := h.teachers[t].(courses := h.teachers[t].courses + [c])]
      && h'.courses == h.courses[c := h.courses[c].(teacher := Some(t))]
      && h'.students == h.students && h'.resources == h.resources && h'.next == h.next
  {
    var te := h.teachers[t];
    if c in te.courses then h
    else
      var te' := te.(courses := te.courses + [c]);
      assert TeacherOk(h, te') by { NoDupAppend(te.courses, c); }
      SetTeacherValid(h, t, te');
      var h1 := h.(teachers := h.teachers[t := te']);
      SetTeacherExtends(h, t, te');
      var h2 := CourseModel.AssignTeacher(h1, c, t);
      assert h2 == h1.(courses := h1.courses[c := h2.courses[c]]);
      SetCourseExtends(h1, c, h2.courses[c]);
      ExtendsTransitive(h, h1, h2);
      h2
  }

  lemma AssignCourseIdempotent(h: Heap, t: Ref, c: Ref)
    requires Valid(h) && t in h.teachers && c in h.courses
    ensures AssignCourse(AssignCourse(h, t, c), t, c) == AssignCourse(h, t, c)
  {
  }

  /**
   * Reassigning a course to a new teacher leaves it in the previous teacher's list:
   * afterwards two teachers list the course while the course names only the new one.
   */
  lemma AssignCourseKeepsPreviousTeacher(h: Heap, t: Ref, c: Ref, t0: Ref)
    requires Valid(h) && t in h.teachers && c in h.courses && t0 in h.teachers
    requires t0 != t && c in h.teachers[t0].courses && c !in h.teachers[t].courses
    ensures var h' := AssignCourse(h, t, c);
      c in h'.teachers[t0].courses && c in h'.teachers[t].courses && h'.courses[c].teacher == Some(t)
  {
  }
}
