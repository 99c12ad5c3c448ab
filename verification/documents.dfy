/**
 * The flat documents that `toJSON` produces and `fromJSON` consumes. Every relation is
 * flattened to a projection `{id + display fields}`, so a document never nests
 * another entity's relations: the deepest nesting is a course document's embedded
 * teacher, whose courses are again only projections.
 *
 * A field that `fromJSON` guards with `if (json.x)` or reads through a default
 * parameter is an `Option` (`None` = the property is missing).
 */
module Documents {
  import opened Wrappers

  datatype CourseProj = CourseProj(id: string, title: string, subject: string)
  datatype StudentProj = StudentProj(id: string, name: string, email: string)
  datatype ResourceProj = ResourceProj(id: string, name: string, kind: string)

  datatype StudentDoc = StudentDoc(
    id: string, name: string, email: string,
    enrolledCourses: Option<seq<CourseProj>>, extraServices: seq<string>)

  datatype TeacherDoc = TeacherDoc(
    id: string, name: string, email: string, courses: Option<seq<CourseProj>>)

  datatype CourseDoc = CourseDoc(
    id: string, title: string, subject: string, teacher: Option<TeacherDoc>,
    students: seq<StudentProj>, resources: seq<ResourceProj>)

  datatype ResourceDoc = ResourceDoc(
    id: string, name: string, kind: string,
    available: Option<bool>, courses: Option<seq<CourseProj>>)
}

/** Projections of live objects, and the stub objects `fromJSON` rebuilds from them. */
module Projection {
  import opened Wrappers
  import opened Seqs
  import opened Entities
  import opened Documents

  function CourseProjection(c: Course): CourseProj {
    CourseProj(c.id, c.title, c.subject)
  }

  function StudentProjection(s: Student): StudentProj {
    StudentProj(s.id, s.name, s.email)
  }

  function ResourceProjection(r: Resource): ResourceProj {
    ResourceProj(r.id, r.name, r.kind)
  }

  /** `courses.map(course => ({id, title, subject}))`. */
  function ProjectCourses(h: Heap, cs: seq<Ref>): (ps: seq<CourseProj>)
    requires RefsIn(cs, h.courses)
    ensures |ps| == |cs|
    ensures forall i :: 0 <= i < |cs| ==> ps[i] == CourseProjection(h.courses[cs[i]])
  {
    seq(|cs|, i requires 0 <= i < |cs| => CourseProjection(h.courses[cs[i]]))
  }

  /** `students.map(student => ({id, name, email}))`. */
  function ProjectStudents(h: Heap, ss: seq<Ref>): (ps: seq<StudentProj>)
    requires RefsIn(ss, h.students)
    ensures |ps| == |ss|
    ensures forall i :: 0 <= i < |ss| ==> ps[i] == StudentProjection(h.students[ss[i]])
  {
    seq(|ss|, i requires 0 <= i < |ss| => StudentProjection(h.students[ss[i]]))
  }

  /** `resources.map(resource => ({id, name, type}))`. */
  function ProjectResources(h: Heap, rs: seq<Ref>): (ps: seq<ResourceProj>)
    requires RefsIn(rs, h.resources)
    ensures |ps| == |rs|
    ensures forall i :: 0 <= i < |rs| ==> ps[i] == ResourceProjection(h.resources[rs[i]])
  {
    seq(|rs|, i requires 0 <= i < |rs| => ResourceProjection(h.resources[rs[i]]))
  }

  /** Projections read only immutable fields, so no later heap state changes them. */
  lemma ProjectCoursesStable(h: Heap, h': Heap, cs: seq<Ref>)
    requires Extends(h, h') && RefsIn(cs, h.courses)
    ensures RefsIn(cs, h'.courses) && ProjectCourses(h', cs) == ProjectCourses(h, cs)
  {
  }

  /**
   * `json.courses.map(c => new Course(c.title, c.subject) with _id = c.id)`: one fresh,
   * bare course object per projection, in order. Each stub projects back to exactly
   * the projection it was built from.
   */
  function AllocCourseStubs(h: Heap, ps: seq<CourseProj>): (res: (Heap, seq<Ref>))
    requires forall r :: r in h.courses ==> r < h.next
    ensures res.0 == h.(courses := res.0.courses, next := res.0.next) && h.next <= res.0.next
    ensures forall r :: r in h.courses ==> r in res.0.courses && res.0.courses[r] == h.courses[r]
    ensures forall r :: r in res.0.courses ==> r < res.0.next
    ensures forall r :: r in res.0.courses && r !in h.courses ==> h.next <= r && IsBare(res.0.courses[r])
    ensures |res.1| == |ps| && NoDup(res.1)
    ensures forall x :: x in res.1 ==> h.next <= x && x in res.0.courses
    ensures forall i :: 0 <= i < |ps| ==> CourseProjection(res.0.courses[res.1[i]]) == ps[i]
    decreases |ps|
  {
    if ps == [] then (h, [])
    else
      var c := h.next;
      var h1 := h.(courses := h.courses[c := Course(ps[0].id, ps[0].title, ps[0].subject, None, [], [])], next := c + 1);
      var rest := AllocCourseStubs(h1, ps[1..]);
      var all := [c] + rest.1;
      assert forall i :: 1 <= i < |all| ==> all[i] == rest.1[i - 1] && ps[i] == ps[1..][i - 1];
      assert NoDup(all) by {
        assert forall j :: 1 <= j < |all| ==> all[j] in rest.1;
        assert forall j :: 1 <= j < |all| ==> all[0] != all[j];
      }
      (rest.0, all)
  }

  /** In a valid heap the stubs are fresh bare courses and the heap stays valid. */
  lemma AllocCourseStubsValid(h: Heap, ps: seq<CourseProj>)
    requires Valid(h)
    ensures var res := AllocCourseStubs(h, ps);
      && Valid(res.0) && OnlyAllocates(h, res.0)
      && (forall x :: x in res.1 ==> x !in h.courses && IsBare(res.0.courses[x]))
  {
    BareCoursesAllocatedValid(h, AllocCourseStubs(h, ps).0);
  }

  /** The stubs project back to the projections they were built from. */
  lemma AllocCourseStubsRoundTrip(h: Heap, ps: seq<CourseProj>)
    requires Valid(h)
    ensures var res := AllocCourseStubs(h, ps); ProjectCourses(res.0, res.1) == ps
  {
  }
}
