/**
 * `ResourceManager` (src/managers/ResourceManager.ts): a plain `Map<string, Resource>`
 * with no store behind it. Allocation and release act on the mapped resource object and
 * do nothing for an id the map does not know.
 */
module ResourceManager {
  import opened Wrappers
  import opened Entities
  import Entries
  import JsMap
  import ResourceModel

  datatype Manager = Manager(resources: JsMap.Map<Ref>)

  /** Every entry is a live resource filed under its own id. */
  ghost predicate Inv(m: Manager, h: Heap) {
    && JsMap.Valid(m.resources)
    && forall k :: JsMap.Get(m.resources, k).Some? ==>
         JsMap.Get(m.resources, k).value in h.resources && h.resources[JsMap.Get(m.resources, k).value].id == k
  }

  /** An empty manager, as the constructor leaves it. */
  function Create(): (m: Manager)
    ensures forall h :: Inv(m, h)
    ensures forall k :: JsMap.Get(m.resources, k) == None
  {
    Manager(JsMap.Empty())
  }

  /** `addResource(resource)`: maps its id to it, replacing any earlier entry, and touches no other key. */
  function AddResource(m: Manager, h: Heap, r: Ref): (m': Manager)
    requires Inv(m, h) && r in h.resources
    ensures Inv(m', h)
    ensures JsMap.ChangedAt(m.resources, m'.resources, h.resources[r].id, Some(r))
  {
    Manager(JsMap.Set(m.resources, h.resources[r].id, r))
  }

  /** `getResource(id)`: the resource mapped under `id`, whose id is `id`, or nothing. */
  function GetResource(m: Manager, h: Heap, id: string): (r: Option<Ref>)
    requires Inv(m, h)
    ensures r.Some? <==> id in JsMap.KeyOrder(m.resources)
    ensures r.Some? ==> r.value in h.resources && h.resources[r.value].id == id
    ensures r.Some? ==> Entries.Entry(id, r.value) in m.resources.entries
  {
    JsMap.Get(m.resources, id)
  }

  /**
   * The map files at most one resource under an id, so a resource carrying the id but
   * filed under no entry, or under another, is never what `getResource` returns.
   */
  lemma GetResourceIsFiled(m: Manager, h: Heap, id: string, x: Ref)
    requires Inv(m, h)
    ensures GetResource(m, h, id) == Some(x) <==> Entries.Entry(id, x) in m.resources.entries
  {
    if Entries.Entry(id, x) in m.resources.entries {
      Entries.LookupEntry(m.resources.entries, Entries.Entry(id, x));
    }
  }

  /** `getAllResources()`: exactly the mapped resources, in insertion order. */
  function GetAllResources(m: Manager): (rs: seq<Ref>)
    requires JsMap.Valid(m.resources)
    ensures |rs| == |JsMap.KeyOrder(m.resources)|
    ensures forall i :: 0 <= i < |rs| ==> JsMap.Get(m.resources, JsMap.KeyOrder(m.resources)[i]) == Some(rs[i])
    ensures forall k :: JsMap.Get(m.resources, k).Some? ==> JsMap.Get(m.resources, k).value in rs
  {
    JsMap.ValueList(m.resources)
  }

  /**
   * `allocateResource(id)`: nothing for an unknown id; otherwise `resource.allocate()`,
   * which fails on a resource already allocated and else marks it unavailable.
   */
  function AllocateResource(m: Manager, h: Heap, id: string): (res: Result<Heap>)
    requires Inv(m, h) && Valid(h)
    ensures id !in JsMap.KeyOrder(m.resources) ==> res == Success(h)
    ensures id in JsMap.KeyOrder(m.resources) ==>
      var r := JsMap.Get(m.resources, id).value;
      && (res.Failure? <==> !h.resources[r].available)
      && (res.Failure? ==> res.error == NotAvailable)
      && (res.Success? ==> OnlyResourceChanged(h, res.value, r) && res.value.resources[r] == h.resources[r].(available := false))
    ensures res.Success? ==> Valid(res.value) && Inv(m, res.value)
  {
    match JsMap.Get(m.resources, id)
    case None => Success(h)
    case Some(r) => ResourceModel.Allocate(h, r)
  }

  /** `releaseResource(id)`: nothing for an unknown id; otherwise the resource becomes available. */
  function ReleaseResource(m: Manager, h: Heap, id: string): (h': Heap)
    requires Inv(m, h) && Valid(h)
    ensures Valid(h') && Inv(m, h')
    ensures id !in JsMap.KeyOrder(m.resources) ==> h' == h
    ensures id in JsMap.KeyOrder(m.resources) ==>
      var r := JsMap.Get(m.resources, id).value;
      OnlyResourceChanged(h, h', r) && h'.resources[r] == h.resources[r].(available := true)
  {
    match JsMap.Get(m.resources, id)
    case None => h
    case Some(r) => ResourceModel.Release(h, r)
  }

  /** After `addResource(r)`, looking up its id finds `r`; other ids answer as before. */
  lemma AddThenGet(m: Manager, h: Heap, r: Ref, id: string)
    requires Inv(m, h) && r in h.resources
    ensures GetResource(AddResource(m, h, r), h, id) ==
      if id == h.resources[r].id then Some(r) else GetResource(m, h, id)
  {
  }

  /** A successful allocation followed by a release of the same id restores the heap. */
  lemma AllocateThenRelease(m: Manager, h: Heap, id: string)
    requires Inv(m, h) && Valid(h) && AllocateResource(m, h, id).Success?
    ensures ReleaseResource(m, AllocateResource(m, h, id).value, id) == h
  {
    if id in JsMap.KeyOrder(m.resources) {
      ResourceModel.AllocateReleaseRestores(h, JsMap.Get(m.resources, id).value);
    }
  }

  /** Allocating a known id twice without a release fails the second time. */
  lemma AllocateTwiceFails(m: Manager, h: Heap, id: string)
    requires Inv(m, h) && Valid(h) && id in JsMap.KeyOrder(m.resources)
    requires AllocateResource(m, h, id).Success?
    ensures AllocateResource(m, AllocateResource(m, h, id).value, id) == Failure(NotAvailable)
  {
  }
}
