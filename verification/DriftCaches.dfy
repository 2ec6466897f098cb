/**
 The five caches that drift detection reads, and the eviction cascade that links them: an instance, then its attachment
 lists, then the VNICs and boot volumes that those name.  One operation runs at a time.  A loader is a function because
 the API is asked once per key within one operation.
 */
module DriftCaches {
  import opened Common
  import opened Cache
  import opened LinkedCaches
  import opened VnicMatching

  datatype Instance = Instance(id: Option<string>, nodePool: Option<string>, terminated: bool, detail: string)

  datatype VnicDetail = VnicDetail(attached: bool, subnetId: string)

  datatype BootDetail = BootDetail(timeCreated: int, pvEncryption: Option<bool>)

  datatype BootVolume = BootVolume(sizeInGBs: int, kmsKeyId: Option<string>, vpusPerGB: Option<int>)

  /** Everything the five caches hold. */
  datatype Contents = Contents(
    instances: map<string, Instance>,
    vnics: Linked<VnicDetail, Vnic>,
    bootVolumes: Linked<BootDetail, BootVolume>)

  ghost predicate Consistent(c: Contents) {
    && Referenced(c.vnics)
    && Referenced(c.bootVolumes)
    && (forall id :: id in c.instances ==> !c.instances[id].terminated)
  }

  /** Nothing of the instances in `ids`, nor of children that only their lists account for. */
  ghost function Forget(c: Contents, ids: set<string>): Contents {
    Contents(c.instances - ids, ForgetLists(c.vnics, ids), ForgetLists(c.bootVolumes, ids))
  }

  lemma ForgetKeepsConsistent(c: Contents, ids: set<string>)
    requires Consistent(c)
    ensures Consistent(Forget(c, ids))
  {
    ForgetKeepsReferenced(c.vnics, ids);
    ForgetKeepsReferenced(c.bootVolumes, ids);
  }

  /** A cache of attachment lists whose eviction callback evicts the children a list names. */
  class AttachmentCaches<D, C> {
    const lists: GetOrLoadCache<seq<Attachment<D>>>
    const children: GetOrLoadCache<C>

    ghost predicate Valid() { lists as object != children }

    ghost function Objects(): set<object> { {lists, children} }

    ghost function View(): Linked<D, C>
      reads lists, children
    {
      Linked(lists.entries, children.entries)
    }

    constructor ()
      ensures Valid() && fresh(Objects())
      ensures View() == Linked(map[], map[])
    {
      lists := new GetOrLoadCache();
      children := new GetOrLoadCache();
    }

    method EvictList(id: string)
      requires Valid()
      modifies lists, children
      ensures View() == ForgetLists(old(View()), {id})
    {
      var evicted := lists.Evict(id);
      if evicted.Some? {
        var list := evicted.value;
        for i := 0 to |list|
          invariant lists.entries == old(lists.entries) - {id}
          invariant children.entries == old(children.entries) - Refs(list[..i])
        {
          if list[i].childId.Some? {
            var _ := children.Evict(list[i].childId.value);
          }
          assert Refs(list[..i + 1]) == Refs(list[..i])
            + (if list[i].childId.Some? then {list[i].childId.value} else {}) by { RefsExtend(list, i); }
        }
        assert list[..|list|] == list;
        assert forall c :: NamedFor(old(lists.entries), {id}, c) <==> c in Refs(list);
      } else {
        ForgetNothing(old(View()), {id});
      }
      assert View() == ForgetLists(old(View()), {id});
    }

    /** Evicts the lists of all instances but the seen ones, in the arbitrary order of a map walk. */
    method EvictUnseen(seen: set<string>)
      requires Valid()
      modifies lists, children
      ensures View() == ForgetLists(old(View()), old(View()).lists.Keys - seen)
    {
      ghost var before := View();
      ghost var gone: set<string> := {};
      var keys := lists.entries.Keys;
      ForgetNothing(before, gone);
      while keys != {}
        invariant keys <= before.lists.Keys
        invariant gone == before.lists.Keys - keys - seen
        invariant View() == ForgetLists(before, gone)
        decreases keys
      {
        var key :| key in keys;
        if key !in seen {
          EvictList(key);
          ForgetTwice(before, gone, {key});
          gone := gone + {key};
        }
        keys := keys - {key};
      }
      assert gone == before.lists.Keys - seen;
    }

    /** Lists afresh; a successful listing replaces the cached one and evicts the children it named. */
    method List(id: string, loader: string -> Result<seq<Attachment<D>>>) returns (r: Result<seq<Attachment<D>>>)
      requires Valid()
      modifies lists, children
      ensures r == loader(id)
      ensures View() == if r.Ok? then ReplaceList(old(View()), id, r.value) else old(View())
    {
      r := loader(id);
      if r.Ok? {
        EvictList(id);
        lists.Set(id, r.value);
      }
    }

    method ListCached(id: string, loader: string -> Result<seq<Attachment<D>>>) returns (r: Result<seq<Attachment<D>>>)
      requires Valid()
      modifies lists
      ensures r == if id in old(lists.entries) then Ok(old(lists.entries)[id]) else loader(id)
      ensures View() == if r.Ok? then old(View()).(lists := old(View()).lists[id := r.value]) else old(View())
    {
      var called;
      r, called := lists.GetOrLoad(id, loader);
    }

    /** `refresh` selects the refreshing read instead of the cached one. */
    method GetChild(c: string, refresh: bool, loader: string -> Result<C>) returns (r: Result<C>)
      requires Valid()
      modifies children
      ensures r == if !refresh && c in old(children.entries) then Ok(old(children.entries)[c]) else loader(c)
      ensures View() == if r.Ok? then old(View()).(children := old(View()).children[c := r.value]) else old(View())
    {
      if refresh {
        r := children.Refresh(c, loader);
      } else {
        var called;
        r, called := children.GetOrLoad(c, loader);
      }
    }
  }

  lemma RefsExtend<D>(list: seq<Attachment<D>>, i: nat)
    requires i < |list|
    ensures Refs(list[..i + 1]) == Refs(list[..i]) + (if list[i].childId.Some? then {list[i].childId.value} else {})
  {
    var a, b := list[..i], list[..i + 1];
    forall c | c in Refs(a) ensures c in Refs(b) {
      var j :| 0 <= j < |a| && a[j].childId.Some? && c == a[j].childId.value;
      assert b[j] == a[j];
    }
    assert b[i] == list[i];
  }

  class DriftCaches {
    const instances: GetOrLoadCache<Instance>
    const vnics: AttachmentCaches<VnicDetail, Vnic>
    const bootVolumes: AttachmentCaches<BootDetail, BootVolume>

    ghost predicate Valid() {
      && vnics.Valid() && bootVolumes.Valid()
      && instances !in vnics.Objects() + bootVolumes.Objects()
      && vnics.Objects() !! bootVolumes.Objects()
    }

    ghost function Objects(): set<object> { {instances} + vnics.Objects() + bootVolumes.Objects() }

    ghost function View(): Contents
      reads Objects()
    {
      Contents(instances.entries, vnics.View(), bootVolumes.View())
    }

    constructor ()
      ensures Valid() && fresh(Objects())
      ensures View() == Contents(map[], Linked(map[], map[]), Linked(map[], map[]))
      ensures Consistent(View())
    {
      instances := new GetOrLoadCache();
      vnics := new AttachmentCaches();
      bootVolumes := new AttachmentCaches();
    }

    /** Evicts an instance; if it was cached, the eviction callback evicts its attachment lists. */
    method EvictInstance(id: string)
      requires Valid()
      modifies Objects()
      ensures View() == if id in old(View()).instances then Forget(old(View()), {id}) else old(View())
    {
      var evicted := instances.Evict(id);
      if evicted.Some? {
        vnics.EvictList(id);
        bootVolumes.EvictList(id);
      }
    }
  }
}
