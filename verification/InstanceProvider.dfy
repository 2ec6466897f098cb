/** The instance provider's reads, listings and deletions, which fill and evict the drift caches. */
module InstanceProvider {
  import opened Common
  import opened LinkedCaches
  import opened DriftCaches

  /** What listing a compartment page by page delivers before it ends or a page fails. */
  datatype Pages = Pages(items: seq<Instance>, failed: bool)

  predicate IsListed(i: Instance) {
    i.nodePool.Some? && i.id.Some? && !i.terminated
  }

  ghost function Ids(instances: seq<Instance>): set<string> {
    set i | i in instances && i.id.Some? :: i.id.value
  }

  /** The live instances of node pools, in order. */
  function LiveOnly(items: seq<Instance>): seq<Instance> {
    if items == [] then []
    else
      var last := items[|items| - 1];
      LiveOnly(items[..|items| - 1]) + (if IsListed(last) then [last] else [])
  }

  /** The listed instances of several compartments, one after the other. */
  function LiveIn(listing: string -> Pages, compartments: seq<string>): seq<Instance> {
    if compartments == [] then []
    else
      var last := compartments[|compartments| - 1];
      LiveIn(listing, compartments[..|compartments| - 1]) + LiveOnly(listing(last).items)
  }

  /** Exactly the live instances of node pools in the named compartments are listed. */
  lemma {:induction false} LiveInMeans(listing: string -> Pages, compartments: seq<string>)
    ensures forall i :: i in LiveIn(listing, compartments) <==>
              && (exists c :: c in compartments && i in listing(c).items)
              && i.nodePool.Some? && i.id.Some? && !i.terminated
  {
    if compartments != [] {
      var front, last := compartments[..|compartments| - 1], compartments[|compartments| - 1];
      LiveInMeans(listing, front);
      LiveOnlyMeans(listing(last).items);
      assert compartments == front + [last];
    }
  }

  lemma {:induction false} LiveOnlyMeans(items: seq<Instance>)
    ensures forall i :: i in LiveOnly(items) <==> i in items && IsListed(i)
  {
    if items != [] {
      LiveOnlyMeans(items[..|items| - 1]);
      assert items == items[..|items| - 1] + [items[|items| - 1]];
    }
  }

  ghost function AllIds(c: Contents): set<string> {
    c.instances.Keys + c.vnics.lists.Keys + c.bootVolumes.lists.Keys
  }

  lemma ForgetTogether(c: Contents, a: set<string>, b: set<string>)
    ensures Forget(Forget(c, a), b) == Forget(c, a + b)
  {
    ForgetTwice(c.vnics, a, b);
    ForgetTwice(c.bootVolumes, a, b);
    assert (c.instances - a) - b == c.instances - (a + b);
  }

  lemma ForgetNone(c: Contents)
    ensures Forget(c, {}) == c
  {
    ForgetNothing(c.vnics, {});
    ForgetNothing(c.bootVolumes, {});
    assert c.instances - {} == c.instances;
  }

  /** An id that nothing but an attachment list knows is forgotten like any other. */
  lemma ForgetAsLists(c: Contents, ids: set<string>)
    requires ids !! c.instances.Keys
    ensures Forget(c, ids) == c.(vnics := ForgetLists(c.vnics, ids), bootVolumes := ForgetLists(c.bootVolumes, ids))
  {
    assert c.instances - ids == c.instances;
  }

  class InstanceProvider {
    const caches: DriftCaches
    const clusterCompartmentId: string

    constructor (caches: DriftCaches, clusterCompartmentId: string)
      ensures this.caches == caches && this.clusterCompartmentId == clusterCompartmentId
    {
      this.caches := caches;
      this.clusterCompartmentId := clusterCompartmentId;
    }

    ghost predicate Ready()
      reads caches.Objects()
    {
      caches.Valid() && Consistent(caches.View())
    }

    /** Evicts the instance and then, in case it was not cached, its lists. */
    method EvictInstanceCaches(id: string)
      requires caches.Valid()
      modifies caches.Objects()
      ensures caches.View() == Forget(old(caches.View()), {id})
    {
      ghost var before := caches.View();
      caches.EvictInstance(id);
      caches.vnics.EvictList(id);
      caches.bootVolumes.EvictList(id);
      if id in before.instances {
        ForgetTogether(before, {id}, {id});
        ForgetAsLists(Forget(before, {id}), {id});
      } else {
        ForgetAsLists(before, {id});
      }
      assert {id} + {id} == {id};
    }

    method EvictInstanceIfGone(id: string, r: Result<Instance>)
      requires caches.Valid()
      modifies caches.Objects()
      ensures caches.View() == if r == Err(NotFound) || (r.Ok? && r.value.terminated)
                               then Forget(old(caches.View()), {id}) else old(caches.View())
    {
      if r == Err(NotFound) || (r.Ok? && r.value.terminated) {
        EvictInstanceCaches(id);
      }
    }

    /** Always asks the API.  A live answer is cached; an instance that is gone or terminated is forgotten with
        everything that hangs on it; any other failure changes nothing. */
    method GetInstance(id: string, loader: string -> Result<Instance>) returns (r: Result<Instance>)
      requires Ready()
      modifies caches.Objects()
      ensures Ready()
      ensures r == loader(id)
      ensures r == Err(NotFound) || (r.Ok? && r.value.terminated)
          ==> caches.View() == Forget(old(caches.View()), {id})
      ensures r.Ok? && !r.value.terminated
          ==> caches.View() == old(caches.View()).(instances := old(caches.View()).instances[id := r.value])
      ensures r.Err? && r.error != NotFound ==> caches.View() == old(caches.View())
    {
      ghost var before := caches.View();
      r := caches.instances.Refresh(id, loader);
      EvictInstanceIfGone(id, r);
      assert caches.View().instances == before.instances - {id} || r.Err? || !r.value.terminated;
      ForgetKeepsConsistent(before, {id});
    }

    /** Like `GetInstance`, but a cached instance, which is never a terminated one, is served without asking. */
    method GetInstanceCached(id: string, loader: string -> Result<Instance>) returns (r: Result<Instance>)
      requires Ready()
      modifies caches.Objects()
      ensures Ready()
      ensures id in old(caches.View()).instances
          ==> r == Ok(old(caches.View()).instances[id]) && caches.View() == old(caches.View())
      ensures id !in old(caches.View()).instances ==> r == loader(id)
      ensures id !in old(caches.View()).instances && (r == Err(NotFound) || (r.Ok? && r.value.terminated))
          ==> caches.View() == Forget(old(caches.View()), {id})
      ensures id !in old(caches.View()).instances && r.Ok? && !r.value.terminated
          ==> caches.View() == old(caches.View()).(instances := old(caches.View()).instances[id := r.value])
      ensures r.Err? && r.error != NotFound ==> caches.View() == old(caches.View())
    {
      ghost var before := caches.View();
      var called;
      r, called := caches.instances.GetOrLoad(id, loader);
      EvictInstanceIfGone(id, r);
      assert caches.View().instances == before.instances - {id} || r.Err? || !r.value.terminated;
      ForgetKeepsConsistent(before, {id});
    }

    /** Launch caching. */
    method CacheInstance(info: Instance)
      requires Ready()
      modifies caches.instances
      ensures Ready()
      ensures var was := old(caches.View());
              caches.View() == if info.id.None? || info.terminated then was
                               else was.(instances := was.instances[info.id.value := info])
    {
      if info.id.None? || info.terminated {
        return;
      }
      caches.instances.Set(info.id.value, info);
    }

    /** One compartment: live instances of node pools are returned and cached, even if a later page fails. */
    method ListCompartment(pages: Pages) returns (r: Result<seq<Instance>>)
      requires Ready()
      modifies caches.instances
      ensures Ready()
      ensures r == if pages.failed then Err(Failure("list instances")) else Ok(LiveOnly(pages.items))
      ensures caches.View() == old(caches.View()).(instances := caches.View().instances)
      ensures caches.View().instances.Keys == old(caches.View()).instances.Keys + Ids(LiveOnly(pages.items))
      ensures AsListed(old(caches.View()).instances, caches.View().instances, LiveOnly(pages.items))
    {
      var listed: seq<Instance> := [];
      for n := 0 to |pages.items|
        invariant Ready()
        invariant caches.View() == old(caches.View()).(instances := caches.View().instances)
        invariant listed == LiveOnly(pages.items[..n])
        invariant caches.View().instances.Keys == old(caches.View()).instances.Keys + Ids(listed)
        invariant AsListed(old(caches.View()).instances, caches.View().instances, listed)
      {
        var item := pages.items[n];
        assert pages.items[..n + 1][..n] == pages.items[..n];
        if IsListed(item) {
          IdsConcat(listed, [item]);
          listed := listed + [item];
          CacheInstance(item);
        }
      }
      assert pages.items[..|pages.items|] == pages.items;
      r := if pages.failed then Err(Failure("list instances")) else Ok(listed);
    }

    /** The walk over the instance cache; each eviction cascades to the instance's lists and their children. */
    method EvictUnseenInstances(seen: set<string>)
      requires caches.Valid()
      modifies caches.Objects()
      ensures caches.View() == Forget(old(caches.View()), old(caches.View()).instances.Keys - seen)
    {
      ghost var before := caches.View();
      ghost var gone: set<string> := {};
      var keys := caches.instances.entries.Keys;
      ForgetNone(before);
      while keys != {}
        invariant caches.Valid() && keys <= before.instances.Keys
        invariant gone == before.instances.Keys - keys - seen
        invariant caches.View() == Forget(before, gone)
        decreases keys
      {
        var key :| key in keys;
        if key !in seen {
          caches.EvictInstance(key);
          ForgetTogether(before, gone, {key});
          gone := gone + {key};
        }
        keys := keys - {key};
      }
      assert gone == before.instances.Keys - seen;
    }

    /** Evicts, in each of the three caches keyed by instance, every entry whose id was not seen. */
    method EvictUnseen(seen: set<string>)
      requires Ready()
      modifies caches.Objects()
      ensures Ready()
      ensures caches.View() == Forget(old(caches.View()), AllIds(old(caches.View())) - seen)
    {
      ghost var before := caches.View();
      ghost var gone := before.instances.Keys - seen;
      EvictUnseenInstances(seen);
      caches.vnics.EvictUnseen(seen);
      caches.bootVolumes.EvictUnseen(seen);
      UnseenListsForgotten(before.vnics, gone, seen, AllIds(before));
      UnseenListsForgotten(before.bootVolumes, gone, seen, AllIds(before));
      assert before.instances - gone == before.instances - (AllIds(before) - seen);
      ForgetKeepsConsistent(before, AllIds(before) - seen);
    }

    function Effective(compartmentId: string): string {
      if compartmentId == "" then clusterCompartmentId else compartmentId
    }

    /** The compartments to list: the empty id stands for the cluster's, and each comes once. */
    function Distinct(ids: seq<string>): seq<string> {
      if ids == [] then []
      else
        var rest, c := Distinct(ids[..|ids| - 1]), Effective(ids[|ids| - 1]);
        if c in rest then rest else rest + [c]
    }

    lemma {:induction false} DistinctMeans(ids: seq<string>)
      ensures forall c :: c in Distinct(ids) <==>
                if c == clusterCompartmentId then c in ids || "" in ids else c in ids && c != ""
      ensures forall i, j :: 0 <= i < j < |Distinct(ids)| ==> Distinct(ids)[i] != Distinct(ids)[j]
    {
      if ids != [] {
        DistinctMeans(ids[..|ids| - 1]);
        assert ids == ids[..|ids| - 1] + [ids[|ids| - 1]];
      }
    }

    lemma InDistinct(ids: seq<string>, n: nat)
      requires n < |ids|
      ensures Effective(ids[n]) in Distinct(ids)
    {
      DistinctMeans(ids);
      assert ids[n] in ids;
    }

    /** The listing itself: caches what it sees and stops at the first compartment that fails. */
    method ListAll(compartmentIds: seq<string>, listing: string -> Pages) returns (r: Result<seq<Instance>>)
      requires Ready()
      modifies caches.instances
      ensures Ready()
      ensures r.Err? <==> exists c :: c in Distinct(compartmentIds) && listing(c).failed
      ensures r.Ok? ==> r.value == LiveIn(listing, Distinct(compartmentIds))
      ensures caches.View() == old(caches.View()).(instances := caches.View().instances)
      ensures old(caches.View()).instances.Keys <= caches.View().instances.Keys
      ensures r.Ok? ==> caches.View().instances.Keys == old(caches.View()).instances.Keys + Ids(r.value)
      ensures r.Ok? ==> AsListed(old(caches.View()).instances, caches.View().instances, r.value)
    {
      var instances: seq<Instance> := [];
      var listed: seq<string> := [];
      ghost var before := caches.View();
      for n := 0 to |compartmentIds|
        invariant Ready()
        invariant caches.View() == before.(instances := caches.instances.entries)
        invariant listed == Distinct(compartmentIds[..n])
        invariant forall c :: c in listed ==> !listing(c).failed
        invariant instances == LiveIn(listing, listed)
        invariant caches.instances.entries.Keys == before.instances.Keys + Ids(instances)
        invariant AsListed(before.instances, caches.instances.entries, instances)
      {
        var c := Effective(compartmentIds[n]);
        assert compartmentIds[..n + 1][..n] == compartmentIds[..n];
        if c !in listed {
          ghost var between := caches.instances.entries;
          var page := ListCompartment(listing(c));
          if page.Err? {
            InDistinct(compartmentIds, n);
            return page;
          }
          assert (listed + [c])[..|listed|] == listed;
          IdsConcat(instances, page.value);
          AsListedOn(before.instances, between, caches.instances.entries, instances, page.value);
          listed := listed + [c];
          instances := instances + page.value;
        }
      }
      assert compartmentIds[..|compartmentIds|] == compartmentIds;
      r := Ok(instances);
    }

    /** A complete listing leaves in the caches exactly the listed instances, attachment lists of listed instances
        only, and children that their lists name; what the caches held for listed instances stays.  A listing that
        fails part-way evicts nothing. */
    method ListInstances(compartmentIds: seq<string>, listing: string -> Pages) returns (r: Result<seq<Instance>>)
      requires Ready()
      modifies caches.Objects()
      ensures Ready()
      ensures r.Err? <==> exists c :: c in Distinct(compartmentIds) && listing(c).failed
      ensures r.Ok? ==> r.value == LiveIn(listing, Distinct(compartmentIds))
      ensures r.Ok? ==> caches.View().instances.Keys == Ids(r.value)
      ensures r.Ok? ==> forall id :: id in caches.View().instances ==> Lists(r.value, id, caches.View().instances[id])
      ensures r.Ok? ==> OnlyFor(caches.View().vnics, Ids(r.value)) && OnlyFor(caches.View().bootVolumes, Ids(r.value))
      ensures r.Ok? ==>
                && caches.View().vnics == ForgetLists(old(caches.View()).vnics, Unlisted(old(caches.View()), r.value))
                && caches.View().bootVolumes
                   == ForgetLists(old(caches.View()).bootVolumes, Unlisted(old(caches.View()), r.value))
      ensures r.Err? ==>
                && old(caches.View()).instances.Keys <= caches.View().instances.Keys
                && caches.View().vnics == old(caches.View()).vnics
                && caches.View().bootVolumes == old(caches.View()).bootVolumes
    {
      ghost var before := caches.View();
      r := ListAll(compartmentIds, listing);
      if r.Ok? {
        ListedSurvive(before, caches.View(), r.value);
        EvictUnseen(set i | i in r.value && i.id.Some? :: i.id.value);
      }
    }

    /** Terminates the instance and polls it until it is gone; `polls` are the answers before the timeout.  The first
        poll that finds the instance terminated or fails decides, and without one the deletion times out.  When the
        deletion succeeds, or the API no longer knows the instance, nothing of it stays cached. */
    method DeleteInstance(id: string, terminate: Option<Error>, polls: seq<Result<Instance>>)
        returns (failure: Option<Error>)
      requires Ready()
      modifies caches.Objects()
      ensures Ready()
      ensures failure.None? || failure.value == NotFound ==> Forget(caches.View(), {id}) == caches.View()
      ensures terminate.Some? ==> failure == terminate
      ensures terminate == Some(NotFound) ==> caches.View() == Forget(old(caches.View()), {id})
      ensures terminate.Some? && terminate.value != NotFound ==> caches.View() == old(caches.View())
      ensures terminate.None? ==>
                && failure == WaitResult(polls)
                && caches.View() == AfterWait(old(caches.View()), id, polls)
    {
      if terminate.Some? {
        if terminate.value == NotFound {
          EvictInstanceCaches(id);
          ForgetKeepsConsistent(old(caches.View()), {id});
          ForgetTogether(old(caches.View()), {id}, {id});
          assert {id} + {id} == {id};
        }
        return terminate;
      }
      failure := WaitUntilGone(id, polls);
      ForgetTogether(old(caches.View()), {id}, {id});
      assert {id} + {id} == {id};
    }

    method WaitUntilGone(id: string, polls: seq<Result<Instance>>) returns (failure: Option<Error>)
      requires Ready()
      modifies caches.Objects()
      ensures Ready()
      ensures failure == WaitResult(polls) && caches.View() == AfterWait(old(caches.View()), id, polls)
    {
      for k := 0 to |polls|
        invariant Ready() && k <= Ending(polls)
        invariant caches.View() == Polled(old(caches.View()), id, polls, k)
      {
        var i := GetInstance(id, _ => polls[k]);
        ForgetPolled(old(caches.View()), id, polls, k);
        if i.Err? {
          return Some(i.error);
        }
        if i.value.terminated {
          return None;
        }
      }
      failure := Some(Failure("delete timeout"));
    }
  }

  /** One of the listed instances, under its id. */
  ghost predicate Lists(listed: seq<Instance>, id: string, i: Instance) { i in listed && i.id == Some(id) }

  /** Entries of listed ids are as listed, and the others as they were. */
  ghost predicate AsListed(before: map<string, Instance>, after: map<string, Instance>, listed: seq<Instance>) {
    forall id :: id in after ==>
      Lists(listed, id, after[id]) || (id !in Ids(listed) && id in before && after[id] == before[id])
  }

  lemma AsListedOn(a: map<string, Instance>, b: map<string, Instance>, c: map<string, Instance>, x: seq<Instance>,
                   y: seq<Instance>)
    requires AsListed(a, b, x) && AsListed(b, c, y)
    ensures AsListed(a, c, x + y)
  {
    IdsConcat(x, y);
    forall id | id in c ensures
        Lists(x + y, id, c[id]) || (id !in Ids(x + y) && id in a && c[id] == a[id])
    {
      assert Lists(y, id, c[id]) || (id in b && c[id] == b[id]);
    }
  }

  /** A poll that ends the wait. */
  predicate Conclusive(poll: Result<Instance>) { poll.Err? || poll.value.terminated }

  /** The first poll that ends the wait, or the number of polls. */
  function Ending(polls: seq<Result<Instance>>): (k: nat)
    ensures k <= |polls| && (k < |polls| ==> Conclusive(polls[k]))
    ensures forall j :: 0 <= j < k ==> !Conclusive(polls[j])
  {
    if polls == [] || Conclusive(polls[0]) then 0 else 1 + Ending(polls[1..])
  }

  /** It decides: success if the instance is terminated, its error if the poll failed, and a timeout without one. */
  function WaitResult(polls: seq<Result<Instance>>): (failure: Option<Error>)
    ensures failure.None? <==>
              exists k :: 0 <= k < |polls| && polls[k].Ok? && polls[k].value.terminated
                && forall j :: 0 <= j < k ==> polls[j].Ok? && !polls[j].value.terminated
    ensures failure.Some? ==>
              || (exists k :: 0 <= k < |polls| && polls[k] == Err(failure.value)
                    && forall j :: 0 <= j < k ==> polls[j].Ok? && !polls[j].value.terminated)
              || (failure.value == Failure("delete timeout")
                  && forall j :: 0 <= j < |polls| ==> polls[j].Ok? && !polls[j].value.terminated)
  {
    var k := Ending(polls);
    if k == |polls| then Some(Failure("delete timeout"))
    else if polls[k].Err? then Some(polls[k].error)
    else None
  }

  /** The caches after the first `n` polls, none of which ended the wait. */
  ghost function Polled(c: Contents, id: string, polls: seq<Result<Instance>>, n: nat): Contents
    requires n <= |polls| && (n > 0 ==> polls[n - 1].Ok?)
  {
    if n == 0 then c else c.(instances := c.instances[id := polls[n - 1].value])
  }

  /** The caches after the wait: all of the instance is forgotten if it is gone, and otherwise the last live answer is
      cached. */
  ghost function AfterWait(c: Contents, id: string, polls: seq<Result<Instance>>): Contents {
    var k := Ending(polls);
    if k < |polls| && (polls[k].Ok? || polls[k] == Err(NotFound)) then Forget(c, {id}) else Polled(c, id, polls, k)
  }

  lemma ForgetPolled(c: Contents, id: string, polls: seq<Result<Instance>>, n: nat)
    requires n <= |polls| && (n > 0 ==> polls[n - 1].Ok?)
    ensures Forget(Polled(c, id, polls, n), {id}) == Forget(c, {id})
  {
    assert Polled(c, id, polls, n).instances - {id} == c.instances - {id};
  }

  lemma IdsConcat(a: seq<Instance>, b: seq<Instance>)
    ensures Ids(a + b) == Ids(a) + Ids(b)
  {
    forall id | id in Ids(a) + Ids(b) ensures id in Ids(a + b) {
      if id in Ids(a) {
        var i :| i in a && i.id == Some(id);
        assert i in a + b;
      } else {
        var i :| i in b && i.id == Some(id);
        assert i in a + b;
      }
    }
  }

  /** The cached ids of instances that are not among `instances`. */
  ghost function Unlisted(c: Contents, instances: seq<Instance>): set<string> {
    AllIds(c) - Ids(instances)
  }

  /** What evicting the unseen does to the caches once the listed instances are cached. */
  lemma ListedSurvive(before: Contents, c: Contents, instances: seq<Instance>)
    requires Consistent(before) && c == before.(instances := c.instances)
    requires c.instances.Keys == before.instances.Keys + Ids(instances)
    ensures Forget(c, Unlisted(c, instances)).instances.Keys == Ids(instances)
    ensures Forget(c, Unlisted(c, instances)).vnics == ForgetLists(before.vnics, Unlisted(before, instances))
    ensures Forget(c, Unlisted(c, instances)).bootVolumes
         == ForgetLists(before.bootVolumes, Unlisted(before, instances))
    ensures OnlyFor(Forget(c, Unlisted(c, instances)).vnics, Ids(instances))
    ensures OnlyFor(Forget(c, Unlisted(c, instances)).bootVolumes, Ids(instances))
  {
    ForgetRestricted(c.vnics, Unlisted(c, instances), Unlisted(before, instances));
    ForgetRestricted(c.bootVolumes, Unlisted(c, instances), Unlisted(before, instances));
    ForgottenLeavesKept(c.vnics, Unlisted(c, instances), Ids(instances));
    ForgottenLeavesKept(c.bootVolumes, Unlisted(c, instances), Ids(instances));
  }

  /** Attachment lists belong to `ids` only, and every child is named by one of them. */
  ghost predicate OnlyFor<D, C>(l: Linked<D, C>, ids: set<string>) {
    && l.lists.Keys <= ids
    && (forall c :: c in l.children ==> NamedFor(l.lists, ids, c))
  }

  /** Forgetting what the instance cache knew, then the remaining lists, forgets every unseen list. */
  lemma UnseenListsForgotten<D, C>(l: Linked<D, C>, gone: set<string>, seen: set<string>, all: set<string>)
    requires gone <= all - seen && l.lists.Keys <= all
    ensures ForgetLists(ForgetLists(l, gone), ForgetLists(l, gone).lists.Keys - seen) == ForgetLists(l, all - seen)
  {
    var rest := ForgetLists(l, gone).lists.Keys - seen;
    ForgetTwice(l, gone, rest);
    assert (gone + rest) * l.lists.Keys == (all - seen) * l.lists.Keys;
    ForgetRestricted(l, gone + rest, all - seen);
  }
}
