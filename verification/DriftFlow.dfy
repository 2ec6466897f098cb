/**
 `IsDrifted` from the instance check on: each of the three checks first runs on cached data, filling the caches as it
 goes, and a drift it finds is confirmed on freshly read data.
 */
module DriftFlow {
  import opened Common
  import opened LinkedCaches
  import opened VnicMatching
  import opened DriftCaches
  import opened InstanceProvider
  import opened DriftDetection

  /** The verdicts that the network and boot-volume checks can give on what the API answers, with no cache. */
  ghost predicate NetworkOnApi(desired: Desired, id: string, cloud: Cloud, r: Verdict) {
    match cloud.vnicList(id)
    case Err(e) => r == Err(e)
    case Ok(list) => NetworkVerdict(desired.network, desired.skipSecondary, list, cloud.vnic, r)
  }

  ghost predicate BootOnApi(desired: Desired, id: string, cloud: Cloud, r: Verdict) {
    match cloud.bootList(id)
    case Err(e) => r == Err(e)
    case Ok(list) => r == BootVerdict(desired.boot, list, cloud.bootVolume)
  }

  /** The instance that the first stage reads: the cached one, or what the API answers. */
  ghost function InstanceRead(c: Contents, id: string, cloud: Cloud): Result<Instance> {
    if id in c.instances then Ok(c.instances[id]) else cloud.instance(id)
  }

  /** The fresh instance shows the drift. */
  ghost predicate InstanceConfirmed(desired: Desired, id: string, cloud: Cloud, reason: Reason) {
    cloud.instance(id).Ok? && desired.instanceCheck(cloud.instance(id).value) == Ok(Some(reason))
  }

  /** A drift of the instance `id` that freshly read data shows; `own` is the id that the instance, as first read, gives
      itself, and `cloud(k)` is what the API answers during step `k`. */
  ghost predicate Confirmed(desired: Desired, id: string, own: Option<string>, cloud: nat -> Cloud, reason: Reason) {
    || InstanceConfirmed(desired, id, cloud(1), reason)
    || (own.Some? && NetworkOnApi(desired, own.value, cloud(3), Ok(Some(reason))))
    || (own.Some? && BootOnApi(desired, own.value, cloud(5), Ok(Some(reason))))
  }

  /** The verdicts of the same checks made on the API alone: the first that is not clean, or the last. */
  ghost predicate DirectVerdict(desired: Desired, id: string, cloud: Cloud, r: Verdict) {
    match cloud.instance(id)
    case Err(e) => r == Err(e)
    case Ok(i) =>
      if desired.instanceCheck(i) != Ok(None) then r == desired.instanceCheck(i)
      else if i.id.None? then r == Err(NilDereference)
      else
        || (NetworkOnApi(desired, i.id.value, cloud, r) && r != Ok(None))
        || (NetworkOnApi(desired, i.id.value, cloud, Ok(None)) && BootOnApi(desired, i.id.value, cloud, r))
  }

  /** Whatever is cached is what the API would answer. */
  ghost predicate ListsCurrent<D, C>(l: Linked<D, C>, list: string -> Result<seq<Attachment<D>>>,
                                     child: string -> Result<C>) {
    && (forall id :: id in l.lists ==> list(id) == Ok(l.lists[id]))
    && (forall c :: c in l.children ==> child(c) == Ok(l.children[c]))
  }

  ghost predicate Current(c: Contents, cloud: Cloud) {
    && (forall id :: id in c.instances ==> cloud.instance(id) == Ok(c.instances[id]))
    && ListsCurrent(c.vnics, cloud.vnicList, cloud.vnic)
    && ListsCurrent(c.bootVolumes, cloud.bootList, cloud.bootVolume)
  }

  /** Reading through current caches is reading from the API. */
  lemma CurrentReads<D, C>(l: Linked<D, C>, list: string -> Result<seq<Attachment<D>>>, child: string -> Result<C>,
                           refresh: bool)
    requires ListsCurrent(l, list, child)
    ensures forall c :: Reading(l.children, refresh, child)(c) == child(c)
  {
  }

  lemma {:induction false} PrimarySame(attached: seq<VnicAttachment>, subnetId: string,
                                      f: string -> Result<Vnic>, g: string -> Result<Vnic>)
    requires forall a :: a in attached ==> a.childId.Some?
    requires forall c :: f(c) == g(c)
    ensures PrimaryOf(attached, subnetId, f) == PrimaryOf(attached, subnetId, g)
  {
    if attached != [] {
      PrimarySame(attached[1..], subnetId, f, g);
    }
  }

  lemma NetworkVerdictSame(network: Network, skip: bool, list: seq<VnicAttachment>,
                           f: string -> Result<Vnic>, g: string -> Result<Vnic>, r: Verdict)
    requires forall c :: f(c) == g(c)
    requires NetworkVerdict(network, skip, list, f, r)
    ensures NetworkVerdict(network, skip, list, g, r)
  {
    PrimarySame(Attached(list), network.primary.subnetId, f, g);
    SecondarySame(Attached(list), f, g);
  }

  /** Stage 1.  A drift is what the fresh instance shows. */
  method InstanceStage(provider: InstanceProvider, id: string, desired: Desired, cloud: nat -> Cloud)
      returns (r: Verdict, instance: Option<Instance>)
    requires provider.Ready()
    modifies provider.caches.Objects()
    ensures provider.Ready()
    ensures r.Ok? && r.value.Some? ==> InstanceConfirmed(desired, id, cloud(1), r.value.value)
    ensures r.Ok? ==>
              && instance.Some? && InstanceRead(old(provider.caches.View()), id, cloud(0)) == Ok(instance.value)
    ensures Current(old(provider.caches.View()), cloud(0)) && cloud(1) == cloud(0) ==>
              && Current(provider.caches.View(), cloud(0))
              && (match cloud(0).instance(id)
                  case Err(e) => r == Err(e)
                  case Ok(i) => r == desired.instanceCheck(i) && (r.Ok? ==> instance == Some(i)))
  {
    ghost var before := provider.caches.View();
    var cached := provider.GetInstanceCached(id, cloud(0).instance);
    if cached.Err? {
      return Err(cached.error), None;
    }
    instance := Some(cached.value);
    r := desired.instanceCheck(cached.value);
    if r.Ok? && r.value.Some? {
      var actual := provider.GetInstance(id, cloud(1).instance);
      if actual.Err? {
        return Err(actual.error), instance;
      }
      r := desired.instanceCheck(actual.value);
    }
  }

  /** Stage 2 on cached data: the list and the VNICs it names are read through the caches. */
  method NetworkCached(caches: AttachmentCaches<VnicDetail, Vnic>, id: string, desired: Desired, cloud: Cloud)
      returns (r: Verdict)
    requires caches.Valid() && Referenced(caches.View())
    modifies caches.Objects()
    ensures Referenced(caches.View())
    ensures ListsCurrent(old(caches.View()), cloud.vnicList, cloud.vnic) ==>
              && ListsCurrent(caches.View(), cloud.vnicList, cloud.vnic)
              && NetworkOnApi(desired, id, cloud, r)
  {
    ghost var before := caches.View();
    var cached := caches.ListCached(id, cloud.vnicList);
    if cached.Err? {
      return Err(cached.error);
    }
    ghost var listed := caches.View();
    if id !in before.lists {
      AddListKeepsReferenced(before, id, cached.value);
    } else {
      assert listed.lists == before.lists;
    }
    r := IsInstanceNetworkDrifted(caches, cached.value, desired.network, desired.skipSecondary, false, cloud.vnic);
    ReadOnlyKeepsReferenced(listed, caches.View(), id, cached.value, false, cloud.vnic);
    if ListsCurrent(before, cloud.vnicList, cloud.vnic) {
      CurrentReads(listed, cloud.vnicList, cloud.vnic, false);
      NetworkVerdictSame(desired.network, desired.skipSecondary, cached.value,
                         Reading(listed.children, false, cloud.vnic), cloud.vnic, r);
    }
  }

  /** Stage 2 on fresh data. */
  method NetworkFresh(caches: AttachmentCaches<VnicDetail, Vnic>, id: string, desired: Desired, cloud: Cloud)
      returns (r: Verdict)
    requires caches.Valid() && Referenced(caches.View())
    modifies caches.Objects()
    ensures Referenced(caches.View())
    ensures NetworkOnApi(desired, id, cloud, r)
    ensures ListsCurrent(old(caches.View()), cloud.vnicList, cloud.vnic) ==>
              ListsCurrent(caches.View(), cloud.vnicList, cloud.vnic)
  {
    ghost var before := caches.View();
    var list := caches.List(id, cloud.vnicList);
    if list.Err? {
      return Err(list.error);
    }
    ReplaceKeepsReferenced(before, id, list.value);
    ghost var replaced := caches.View();
    r := IsInstanceNetworkDrifted(caches, list.value, desired.network, desired.skipSecondary, true, cloud.vnic);
    ReadOnlyKeepsReferenced(replaced, caches.View(), id, list.value, true, cloud.vnic);
    NetworkVerdictSame(desired.network, desired.skipSecondary, list.value,
                       Reading(replaced.children, true, cloud.vnic), cloud.vnic, r);
  }

  /** Stage 2.  The list is read for the instance's own id. */
  method NetworkStage(provider: InstanceProvider, id: string, desired: Desired, cloud: nat -> Cloud)
      returns (r: Verdict)
    requires provider.Ready()
    modifies provider.caches.vnics.Objects()
    ensures provider.Ready()
    ensures r.Ok? && r.value.Some? ==> NetworkOnApi(desired, id, cloud(3), r)
    ensures var was := old(provider.caches.View()).vnics;
            ListsCurrent(was, cloud(2).vnicList, cloud(2).vnic) && cloud(3) == cloud(2) ==>
              NetworkOnApi(desired, id, cloud(2), r)
  {
    r := NetworkCached(provider.caches.vnics, id, desired, cloud(2));
    if r.Ok? && r.value.Some? {
      r := NetworkFresh(provider.caches.vnics, id, desired, cloud(3));
    }
  }

  /** Stage 3 on cached data. */
  method BootCached(caches: AttachmentCaches<BootDetail, BootVolume>, id: string, desired: Desired, cloud: Cloud)
      returns (r: Verdict)
    requires caches.Valid() && Referenced(caches.View())
    modifies caches.Objects()
    ensures Referenced(caches.View())
    ensures ListsCurrent(old(caches.View()), cloud.bootList, cloud.bootVolume) ==> BootOnApi(desired, id, cloud, r)
  {
    ghost var before := caches.View();
    var cached := caches.ListCached(id, cloud.bootList);
    if cached.Err? {
      return Err(cached.error);
    }
    ghost var listed := caches.View();
    if id !in before.lists {
      AddListKeepsReferenced(before, id, cached.value);
    } else {
      assert listed.lists == before.lists;
    }
    r := IsInstanceBootVolumeDrifted(caches, cached.value, desired.boot, false, cloud.bootVolume);
    ReadOnlyKeepsReferenced(listed, caches.View(), id, cached.value, false, cloud.bootVolume);
  }

  /** Stage 3 on fresh data. */
  method BootFresh(caches: AttachmentCaches<BootDetail, BootVolume>, id: string, desired: Desired, cloud: Cloud)
      returns (r: Verdict)
    requires caches.Valid() && Referenced(caches.View())
    modifies caches.Objects()
    ensures Referenced(caches.View())
    ensures BootOnApi(desired, id, cloud, r)
  {
    ghost var before := caches.View();
    var list := caches.List(id, cloud.bootList);
    if list.Err? {
      return Err(list.error);
    }
    ReplaceKeepsReferenced(before, id, list.value);
    ghost var replaced := caches.View();
    r := IsInstanceBootVolumeDrifted(caches, list.value, desired.boot, true, cloud.bootVolume);
    ReadOnlyKeepsReferenced(replaced, caches.View(), id, list.value, true, cloud.bootVolume);
  }

  method BootStage(provider: InstanceProvider, id: string, desired: Desired, cloud: nat -> Cloud) returns (r: Verdict)
    requires provider.Ready()
    modifies provider.caches.bootVolumes.Objects()
    ensures provider.Ready()
    ensures r.Ok? && r.value.Some? ==> BootOnApi(desired, id, cloud(5), r)
    ensures var was := old(provider.caches.View()).bootVolumes;
            ListsCurrent(was, cloud(4).bootList, cloud(4).bootVolume) && cloud(5) == cloud(4) ==>
              BootOnApi(desired, id, cloud(4), r)
  {
    r := BootCached(provider.caches.bootVolumes, id, desired, cloud(4));
    if r.Ok? && r.value.Some? {
      r := BootFresh(provider.caches.bootVolumes, id, desired, cloud(5));
    }
  }

  /** Keeps the caches consistent whatever the API answers; reports only drifts that fresh data shows; and with caches
      that are current decides exactly as the checks on the API alone would. */
  method IsDrifted(provider: InstanceProvider, id: string, desired: Desired, cloud: nat -> Cloud) returns (r: Verdict)
    requires provider.Ready()
    modifies provider.caches.Objects()
    ensures provider.Ready()
    ensures r.Ok? && r.value.Some? ==>
              var read := InstanceRead(old(provider.caches.View()), id, cloud(0));
              read.Ok? && Confirmed(desired, id, read.value.id, cloud, r.value.value)
    ensures Current(old(provider.caches.View()), cloud(0)) && (forall k :: 0 <= k < 6 ==> cloud(k) == cloud(0)) ==>
              DirectVerdict(desired, id, cloud(0), r)
  {
    var instance;
    r, instance := InstanceStage(provider, id, desired, cloud);
    if r.Err? || r.value.Some? {
      return;
    }
    if instance.value.id.None? {
      return Err(NilDereference);
    }
    r := NetworkStage(provider, instance.value.id.value, desired, cloud);
    if r.Err? || r.value.Some? {
      return;
    }
    r := BootStage(provider, instance.value.id.value, desired, cloud);
  }
}
