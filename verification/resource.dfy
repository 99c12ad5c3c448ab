/** The mutators of `Resource` (src/models/Resource.ts): a two-state availability machine. */
module ResourceModel {
  import opened Wrappers
  import opened Seqs
  import opened Entities

  /** `allocate()`: throws when the resource is already allocated, else marks it unavailable. */
  function Allocate(h: Heap, r: Ref): (res: Result<Heap>)
    requires Valid(h) && r in h.resources
    ensures res.Failure? <==> !h.resources[r].available
    ensures res.Failure? ==> res.error == NotAvailable
    ensures res.Success? ==>
      && Valid(res.value) && OnlyResourceChanged(h, res.value, r)
      && !res.value.resources[r].available
      && res.value.resources[r].(available := true) == h.resources[r].(available := true)
  {
    if !h.resources[r].available then Failure(NotAvailable)
    else Success(h.(resources := h.resources[r := h.resources[r].(available := false)]))
  }

  /** `release()`: always succeeds and marks the resource available. */
  function Release(h: Heap, r: Ref): (h': Heap)
    requires Valid(h) && r in h.resources
    ensures Valid(h') && OnlyResourceChanged(h, h', r)
    ensures h'.resources[r].available
    ensures h'.resources[r].(available := false) == h.resources[r].(available := false)
  {
    h.(resources := h.resources[r := h.resources[r].(available := true)])
  }

  /** `addCourse(course)`: appends the course unless that very object is already listed. */
  function AddCourse(h: Heap, r: Ref, c: Ref): (h': Heap)
    requires Valid(h) && r in h.resources && c in h.courses
    ensures Valid(h') && OnlyResourceChanged(h, h', r)
    ensures c in h'.resources[r].courses
    ensures c in h.resources[r].courses ==> h' == h
    ensures c !in h.resources[r].courses ==>
      h'.resources[r] == h.resources[r].(courses := h.resources[r].courses + [c])
  {
    var res := h.resources[r];
    if c in res.courses then h
    else h.(resources := h.resources[r := res.(courses := res.courses + [c])])
  }

  /** Allocating an available resource and releasing it restores the original state. */
  lemma AllocateReleaseRestores(h: Heap, r: Ref)
    requires Valid(h) && r in h.resources && h.resources[r].available
    ensures Allocate(h, r).Success?
    ensures Release(Allocate(h, r).value, r) == h
  {
    var h1 := Allocate(h, r).value;
    assert h1.resources[r].(available := true) == h.resources[r];
  }

  /** A second `allocate()` without a `release()` in between fails. */
  lemma AllocateTwiceFails(h: Heap, r: Ref)
    requires Valid(h) && r in h.resources && h.resources[r].available
    ensures Allocate(h, r).Success?
    ensures Allocate(Allocate(h, r).value, r) == Failure(NotAvailable)
  {
  }

  /** `release()` is idempotent. */
  lemma ReleaseIdempotent(h: Heap, r: Ref)
    requires Valid(h) && r in h.resources
    ensures Release(Release(h, r), r) == Release(h, r)
  {
  }

  /** `addCourse` is idempotent by reference. */
  lemma AddCourseIdempotent(h: Heap, r: Ref, c: Ref)
    requires Valid(h) && r in h.resources && c in h.courses
    ensures AddCourse(AddCourse(h, r, c), r, c) == AddCourse(h, r, c)
  {
  }

  /** In a valid heap the course added to a resource is listed exactly once. */
  lemma AddCourseListsOnce(h: Heap, r: Ref, c: Ref)
    requires Valid(h) && r in h.resources && c in h.courses
    ensures multiset(AddCourse(h, r, c).resources[r].courses)[c] == 1
  {
    var h' := AddCourse(h, r, c);
    NoDupOccursOnce(h'.resources[r].courses, c);
  }
}
