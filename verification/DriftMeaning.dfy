/** What the verdicts of drift detection mean, said of the attachment lists and of how each child resource reads. */
module DriftMeaning {
  import opened Common
  import opened LinkedCaches
  import opened VnicMatching
  import opened DriftCaches
  import opened InstanceProvider
  import opened DriftDetection
  import opened DriftFlow

  // ---- The primary VNIC ----

  predicate IsAttached(a: VnicAttachment) { a.detail.attached && a.childId.Some? }

  /** Attached to the subnet. */
  predicate OnSubnet(a: VnicAttachment, subnetId: string) { IsAttached(a) && a.detail.subnetId == subnetId }

  /** Reads, with this answer to whether it is primary. */
  ghost predicate ReadsPrimary(a: VnicAttachment, get: string -> Result<Vnic>, primary: bool) {
    a.childId.Some? && get(a.childId.value).Ok? && get(a.childId.value).value.isPrimary == Some(primary)
  }

  /** All VNICs of the subnet among the first `n` entries read as not primary. */
  ghost predicate NonePrimary(list: seq<VnicAttachment>, subnetId: string, get: string -> Result<Vnic>, n: nat) {
    forall j: nat :: j < n && j < |list| && OnSubnet(list[j], subnetId) ==> ReadsPrimary(list[j], get, false)
  }

  /** Entry `k` is the first VNIC of the subnet that does not read as not primary. */
  ghost predicate Decides(list: seq<VnicAttachment>, subnetId: string, get: string -> Result<Vnic>, k: nat) {
    && k < |list| && OnSubnet(list[k], subnetId) && !ReadsPrimary(list[k], get, false)
    && NonePrimary(list, subnetId, get, k)
  }

  /** Entry `k` is the first primary VNIC of the subnet, and those before it on the subnet read. */
  ghost predicate FirstPrimary(list: seq<VnicAttachment>, subnetId: string, get: string -> Result<Vnic>, k: nat) {
    Decides(list, subnetId, get, k) && ReadsPrimary(list[k], get, true)
  }

  lemma {:induction false} AttachedConcat(a: seq<VnicAttachment>, b: seq<VnicAttachment>)
    ensures Attached(a + b) == Attached(a) + Attached(b)
  {
    if b == [] {
      assert a + b == a;
    } else {
      assert (a + b)[..|a + b| - 1] == a + b[..|b| - 1];
      AttachedConcat(a, b[..|b| - 1]);
    }
  }

  lemma AttachedHead(list: seq<VnicAttachment>)
    requires list != []
    ensures Attached(list) == (if IsAttached(list[0]) then [list[0]] else []) + Attached(list[1..])
  {
    var one := [list[0]];
    AttachedConcat(one, list[1..]);
    assert list == one + list[1..];
    assert Attached(one) == if IsAttached(list[0]) then one else [];
  }

  /** What a VNIC that does not read as not primary makes of the search. */
  ghost function Says(a: VnicAttachment, get: string -> Result<Vnic>): Result<Option<Vnic>>
    requires a.childId.Some?
  {
    match get(a.childId.value)
    case Err(e) => Err(e)
    case Ok(v) => if v.isPrimary.None? then Err(NilDereference) else Ok(Some(v))
  }

  lemma PrimaryHead(list: seq<VnicAttachment>, subnetId: string, get: string -> Result<Vnic>)
    requires list != []
    ensures PrimaryOf(Attached(list), subnetId, get) ==
              if OnSubnet(list[0], subnetId) && !ReadsPrimary(list[0], get, false) then Says(list[0], get)
              else PrimaryOf(Attached(list[1..]), subnetId, get)
  {
    AttachedHead(list);
    var rest := Attached(list[1..]);
    if IsAttached(list[0]) {
      var attached := Attached(list);
      assert attached == [list[0]] + rest && attached[0] == list[0] && attached[1..] == rest;
    } else {
      assert Attached(list) == rest;
    }
  }

  /** What is found is decided by the first VNIC of the subnet that does not read as not primary. */
  lemma {:induction false} PrimaryOfMeans(list: seq<VnicAttachment>, subnetId: string, get: string -> Result<Vnic>)
      returns (k: nat)
    ensures var found := PrimaryOf(Attached(list), subnetId, get);
            if NonePrimary(list, subnetId, get, |list|) then found == Ok(None)
            else Decides(list, subnetId, get, k) && found == Says(list[k], get)
  {
    k := 0;
    if list != [] {
      PrimaryHead(list, subnetId, get);
      if OnSubnet(list[0], subnetId) && !ReadsPrimary(list[0], get, false) {
        assert !NonePrimary(list, subnetId, get, |list|);
      } else {
        var l := PrimaryOfMeans(list[1..], subnetId, get);
        k := l + 1;
        TailNonePrimary(list, subnetId, get, l);
        TailNonePrimary(list, subnetId, get, |list| - 1);
      }
    }
  }

  lemma TailNonePrimary(list: seq<VnicAttachment>, subnetId: string, get: string -> Result<Vnic>, n: nat)
    requires list != [] && (OnSubnet(list[0], subnetId) ==> ReadsPrimary(list[0], get, false))
    ensures NonePrimary(list, subnetId, get, n + 1) <==> NonePrimary(list[1..], subnetId, get, n)
  {
    if NonePrimary(list, subnetId, get, n + 1) {
      forall j: nat | j < n && j < |list| - 1 && OnSubnet(list[1..][j], subnetId)
        ensures ReadsPrimary(list[1..][j], get, false)
      {
        assert list[j + 1] == list[1..][j];
      }
    } else {
      var j: nat :| j < n + 1 && j < |list| && OnSubnet(list[j], subnetId) && !ReadsPrimary(list[j], get, false);
      assert list[j] == list[1..][j - 1];
    }
  }

  lemma DecidesOnce(list: seq<VnicAttachment>, subnetId: string, get: string -> Result<Vnic>, k: nat, l: nat)
    requires Decides(list, subnetId, get, k) && Decides(list, subnetId, get, l)
    ensures k == l
  {
  }

  /** Reads as a VNIC with all of these security groups. */
  ghost predicate Carries(a: VnicAttachment, nsgIds: seq<string>, get: string -> Result<Vnic>) {
    && a.childId.Some? && get(a.childId.value).Ok?
    && forall n :: n in nsgIds ==> n in get(a.childId.value).value.nsgIds
  }

  /** The first primary VNIC of the subnet carries the desired security groups, or does not. */
  ghost predicate PrimaryCarries(network: Network, list: seq<VnicAttachment>, get: string -> Result<Vnic>,
                                 carries: bool) {
    exists k: nat ::
      && FirstPrimary(list, network.primary.subnetId, get, k)
      && Carries(list[k], network.primary.nsgIds, get) == carries
  }

  lemma PrimaryDecided(network: Network, list: seq<VnicAttachment>, get: string -> Result<Vnic>, k: nat)
    requires Decides(list, network.primary.subnetId, get, k)
    ensures !NonePrimary(list, network.primary.subnetId, get, |list|)
    ensures forall carries :: PrimaryCarries(network, list, get, carries) <==>
              ReadsPrimary(list[k], get, true) && Carries(list[k], network.primary.nsgIds, get) == carries
  {
    forall l: nat | FirstPrimary(list, network.primary.subnetId, get, l) ensures l == k {
      DecidesOnce(list, network.primary.subnetId, get, k, l);
    }
    assert ReadsPrimary(list[k], get, true) ==> FirstPrimary(list, network.primary.subnetId, get, k);
  }

  lemma SaysWhetherPrimary(a: VnicAttachment, get: string -> Result<Vnic>)
    requires a.childId.Some?
    ensures Says(a, get).Ok? ==> ReadsPrimary(a, get, true) || ReadsPrimary(a, get, false)
  {
    if get(a.childId.value).Ok? && get(a.childId.value).value.isPrimary.Some? {
      var b := get(a.childId.value).value.isPrimary.value;
      assert ReadsPrimary(a, get, b);
    }
  }

  /** The reasons about the primary VNIC, exactly: none on its subnet is primary, or the first that is lacks a desired
      group; and no drift is reported only if it carries them all. */
  lemma PrimaryReasons(network: Network, skip: bool, list: seq<VnicAttachment>, get: string -> Result<Vnic>,
                       r: Verdict)
    requires NetworkVerdict(network, skip, list, get, r)
    ensures r == Ok(Some(PrimaryVnicMismatch)) <==> NonePrimary(list, network.primary.subnetId, get, |list|)
    ensures r == Ok(Some(PrimaryVnicNsgIdsMismatch)) <==> PrimaryCarries(network, list, get, false)
    ensures r == Ok(None) ==> PrimaryCarries(network, list, get, true)
    ensures PrimaryCarries(network, list, get, true) ==>
              if skip || network.secondary == [] then r == Ok(None)
              else SecondaryVerdict(Attached(list), network.secondary, get, r)
  {
    var k := PrimaryOfMeans(list, network.primary.subnetId, get);
    if NonePrimary(list, network.primary.subnetId, get, |list|) {
      forall l: nat ensures !FirstPrimary(list, network.primary.subnetId, get, l) {
      }
    } else {
      PrimaryDecided(network, list, get, k);
      if ReadsPrimary(list[k], get, true) {
        var v := get(list[k].childId.value).value;
        assert NsgIdsMatch(network.primary.nsgIds, v) <==> Carries(list[k], network.primary.nsgIds, get);
        if Carries(list[k], network.primary.nsgIds, get) && !skip && network.secondary != [] {
          SecondaryReasons(Attached(list), network.secondary, get, r);
        }
      } else {
        SaysWhetherPrimary(list[k], get);
      }
    }
  }

  lemma SecondaryReasons(attached: seq<VnicAttachment>, desired: seq<DesiredVnic>, get: string -> Result<Vnic>,
                         r: Verdict)
    requires forall a :: a in attached ==> a.childId.Some?
    requires SecondaryVerdict(attached, desired, get, r)
    ensures r.Ok? && r.value.Some? ==>
              r.value.value == SecondaryVnicsNumberMismatch || r.value.value == SecondaryVnicNsgIdsMismatch
  {
  }

  // ---- The secondary VNICs ----

  ghost predicate AllRead(list: seq<VnicAttachment>, get: string -> Result<Vnic>) {
    forall a :: a in list && IsAttached(a) ==> get(a.childId.value).Ok?
  }

  predicate NamesAttached(list: seq<VnicAttachment>, c: string) {
    exists a :: a in list && IsAttached(a) && a.childId == Some(c)
  }

  /** The id of an attached VNIC that does not read as primary. */
  ghost predicate IsSecondary(list: seq<VnicAttachment>, get: string -> Result<Vnic>, c: string) {
    NamesAttached(list, c) && get(c).Ok? && get(c).value.isPrimary != Some(true)
  }

  lemma {:induction false} SecondaryOfAttached(attached: seq<VnicAttachment>, get: string -> Result<Vnic>)
    requires forall a :: a in attached ==> IsAttached(a) && a.childId.Some?
    ensures SecondaryOf(attached, get).Ok? <==> AllRead(attached, get)
    ensures SecondaryOf(attached, get).Ok? ==>
              var m := SecondaryOf(attached, get).value;
              && (forall c :: c in m <==> IsSecondary(attached, get, c))
              && (forall c :: c in m ==> get(c) == Ok(m[c]))
  {
    if attached != [] {
      var front, last := attached[..|attached| - 1], attached[|attached| - 1];
      assert attached == front + [last];
      SecondaryOfAttached(front, get);
      forall c ensures NamesAttached(attached, c) <==> NamesAttached(front, c) || last.childId == Some(c) {
        if last.childId == Some(c) {
          assert last in attached;
        } else if NamesAttached(attached, c) {
          var a :| a in attached && IsAttached(a) && a.childId == Some(c);
          assert a in front;
        }
      }
    }
  }

  /** Which VNICs are kept as secondary, and when: exactly if every attached VNIC reads. */
  lemma SecondaryOfMeans(list: seq<VnicAttachment>, get: string -> Result<Vnic>)
    ensures SecondaryOf(Attached(list), get).Ok? <==> AllRead(list, get)
    ensures SecondaryOf(Attached(list), get).Ok? ==>
              var m := SecondaryOf(Attached(list), get).value;
              && (forall c :: c in m <==> IsSecondary(list, get, c))
              && (forall c :: c in m ==> get(c) == Ok(m[c]))
  {
    SecondaryOfAttached(Attached(list), get);
    forall c ensures NamesAttached(list, c) <==> NamesAttached(Attached(list), c) {
      if NamesAttached(list, c) {
        var a :| a in list && IsAttached(a) && a.childId == Some(c);
        assert a in Attached(list);
      }
    }
  }

  /** The VNIC `c` is on the subnet of `d` and carries its security groups. */
  ghost predicate Serves(get: string -> Result<Vnic>, c: string, d: DesiredVnic) {
    && get(c).Ok? && get(c).value.subnetId == d.subnetId
    && forall n :: n in d.nsgIds ==> n in get(c).value.nsgIds
  }

  /** `m` gives each desired VNIC its own secondary VNIC that serves it, and uses all of them. */
  ghost predicate Assigns(desired: seq<DesiredVnic>, list: seq<VnicAttachment>, get: string -> Result<Vnic>,
                          m: seq<string>) {
    && |m| == |desired| && Injective(m)
    && (forall c :: c in m <==> IsSecondary(list, get, c))
    && (forall i :: 0 <= i < |m| ==> Serves(get, m[i], desired[i]))
  }

  lemma MatchingAssigns(desired: seq<DesiredVnic>, list: seq<VnicAttachment>, get: string -> Result<Vnic>,
                        m: seq<string>)
    requires SecondaryOf(Attached(list), get).Ok?
    ensures PerfectMatching(desired, SecondaryOf(Attached(list), get).value, m) <==> Assigns(desired, list, get, m)
  {
    var existing := SecondaryOf(Attached(list), get).value;
    SecondaryOfMeans(list, get);
    if PerfectMatching(desired, existing, m) {
      forall c ensures c in m <==> IsSecondary(list, get, c) {
        if c in existing {
          var i := InjectiveReaches(m, existing.Keys, c);
        }
      }
      forall i | 0 <= i < |m| ensures Serves(get, m[i], desired[i]) {
        assert Matches(desired[i], existing[m[i]]);
      }
    } else if Assigns(desired, list, get, m) {
      InjectiveSize(m, existing.Keys);
      forall i | 0 <= i < |m| ensures m[i] in existing && Matches(desired[i], existing[m[i]]) {
        assert m[i] in m && Serves(get, m[i], desired[i]);
      }
      assert false;
    }
  }

  lemma {:induction false} InjectiveSize(m: seq<string>, s: set<string>)
    requires Injective(m) && forall c :: c in m <==> c in s
    ensures |m| == |s|
  {
    if m == [] {
      assert s == {};
    } else {
      var x := m[|m| - 1];
      var front := m[..|m| - 1];
      forall c ensures c in front <==> c in s - {x} {
        assert m == front + [x];
      }
      InjectiveSize(front, s - {x});
    }
  }

  /** What the network should be: the primary VNIC carries its groups, and the secondary ones, if they are checked, can
      be assigned to the desired ones. */
  ghost predicate NetworkInOrder(network: Network, skip: bool, list: seq<VnicAttachment>, get: string -> Result<Vnic>) {
    && PrimaryCarries(network, list, get, true)
    && (skip || network.secondary == []
        || (AllRead(list, get) && exists m :: Assigns(network.secondary, list, get, m)))
  }

  /** No drift is reported only if the network is in order; and always if it is, when each subnet's VNICs are listed
      most selective first. */
  lemma NoNetworkDriftMeans(network: Network, skip: bool, list: seq<VnicAttachment>, get: string -> Result<Vnic>,
                            r: Verdict)
    requires NetworkVerdict(network, skip, list, get, r) && FetchedUnderOwnId(Attached(list), get)
    ensures r == Ok(None) ==> NetworkInOrder(network, skip, list, get)
    ensures NetworkInOrder(network, skip, list, get) && SelectiveFirst(network.secondary) ==> r == Ok(None)
  {
    PrimaryReasons(network, skip, list, get, r);
    SecondaryOfMeans(list, get);
    if !skip && network.secondary != [] && PrimaryCarries(network, list, get, true) && AllRead(list, get) {
      SecondaryVerdictMeans(network.secondary, list, get, r);
    }
  }

  lemma SecondaryVerdictMeans(desired: seq<DesiredVnic>, list: seq<VnicAttachment>, get: string -> Result<Vnic>,
                              r: Verdict)
    requires AllRead(list, get) && SecondaryVerdict(Attached(list), desired, get, r)
    requires FetchedUnderOwnId(Attached(list), get)
    ensures r == Ok(None) ==> exists m :: Assigns(desired, list, get, m)
    ensures SelectiveFirst(desired) && (exists m :: Assigns(desired, list, get, m)) ==> r == Ok(None)
  {
    SecondaryOfMeans(list, get);
    SecondaryOfIds(Attached(list), get);
    var existing := SecondaryOf(Attached(list), get).value;
    if r == Ok(None) {
      var picks :| GreedyRun(desired, existing, picks) && |picks| == |desired|;
      GreedySound(desired, existing, picks);
      MatchingAssigns(desired, list, get, picks);
    }
    if SelectiveFirst(desired) && exists m :: Assigns(desired, list, get, m) {
      var m :| Assigns(desired, list, get, m);
      MatchingAssigns(desired, list, get, m);
      GreedyCompleteIff(desired);
      assert |existing| == |desired|;
      var picks :| GreedyRun(desired, existing, picks)
                   && r == Ok(if |picks| == |desired| then None else Some(SecondaryVnicNsgIdsMismatch));
    }
  }

  // ---- The boot volume ----

  /** Entry `k` is the earliest attachment, and the first such in the list. */
  predicate FirstBoot(list: seq<BootAttachment>, k: nat) {
    && k < |list|
    && (forall j :: 0 <= j < |list| ==> list[k].detail.timeCreated <= list[j].detail.timeCreated)
    && (forall j :: 0 <= j < k ==> list[k].detail.timeCreated < list[j].detail.timeCreated)
  }

  lemma {:induction false} EarliestMeans(list: seq<BootAttachment>) returns (k: nat)
    requires list != []
    ensures FirstBoot(list, k) && Earliest(list) == list[k]
  {
    var n := |list| - 1;
    if n == 0 {
      k := 0;
    } else {
      var front := list[..n];
      k := EarliestMeans(front);
      if list[n].detail.timeCreated < front[k].detail.timeCreated {
        k := n;
      }
      forall j | 0 <= j < |list| ensures list[k].detail.timeCreated <= list[j].detail.timeCreated {
        assert j < n ==> list[j] == front[j];
      }
    }
  }

  predicate SizeEnough(boot: BootConfig, v: BootVolume) { boot.sizeInGBs.Some? ==> boot.sizeInGBs.value <= v.sizeInGBs }

  predicate KeyAsDesired(boot: BootConfig, v: BootVolume) { boot.kmsKeyId.Some? ==> v.kmsKeyId == boot.kmsKeyId }

  predicate VpusAsDesired(boot: BootConfig, v: BootVolume) { boot.vpusPerGB.Some? ==> v.vpusPerGB == boot.vpusPerGB }

  /** What the boot volume should be: that of the earliest attachment has the desired encryption in transit, is large
      enough, and has the desired key and performance. */
  ghost predicate BootInOrder(boot: BootConfig, list: seq<BootAttachment>, get: string -> Result<BootVolume>) {
    exists k: nat ::
      && FirstBoot(list, k)
      && (boot.pvEncryption.Some? ==> list[k].detail.pvEncryption == boot.pvEncryption)
      && list[k].childId.Some? && get(list[k].childId.value).Ok?
      && var v := get(list[k].childId.value).value;
         SizeEnough(boot, v) && KeyAsDesired(boot, v) && VpusAsDesired(boot, v)
  }

  /** The verdicts on boot volumes, exactly. */
  lemma BootReasons(boot: BootConfig, list: seq<BootAttachment>, get: string -> Result<BootVolume>)
      returns (k: nat)
    ensures list != [] ==> FirstBoot(list, k)
    ensures var r := BootVerdict(boot, list, get);
            && (r == Ok(None) <==> BootInOrder(boot, list, get))
            && (r == Ok(Some(BootVolumeMismatch)) <==> list == [])
    ensures list != [] ==>
              var r, a := BootVerdict(boot, list, get), list[k];
              var encrypted := boot.pvEncryption.Some? ==> a.detail.pvEncryption == boot.pvEncryption;
              && (r == Ok(Some(PvEncryptionInTransitionMismatch)) <==> !encrypted)
              && (encrypted && a.childId.Some? && get(a.childId.value).Err? ==>
                    r == Err(get(a.childId.value).error))
              && (encrypted && a.childId.Some? && get(a.childId.value).Ok? ==>
                    var v := get(a.childId.value).value;
                    && (r == Ok(Some(BootVolumeSizeMismatch)) <==> !SizeEnough(boot, v))
                    && (r == Ok(Some(KmsKeyMismatch)) <==> SizeEnough(boot, v) && !KeyAsDesired(boot, v))
                    && (r == Ok(Some(VpusPerGbMismatch)) <==>
                          SizeEnough(boot, v) && KeyAsDesired(boot, v) && !VpusAsDesired(boot, v)))
  {
    k := 0;
    if list != [] {
      k := EarliestMeans(list);
      forall l: nat | FirstBoot(list, l) ensures l == k {
        FirstBootOnce(list, k, l);
      }
    }
  }

  lemma FirstBootOnce(list: seq<BootAttachment>, k: nat, l: nat)
    requires FirstBoot(list, k) && FirstBoot(list, l)
    ensures k == l
  {
    assert list[k].detail.timeCreated == list[l].detail.timeCreated;
  }

  // ---- The whole check ----

  /** The instance and what is attached to it, as the API has them, are as desired. */
  ghost predicate AllInOrder(desired: Desired, id: string, cloud: Cloud) {
    && cloud.instance(id).Ok? && desired.instanceCheck(cloud.instance(id).value) == Ok(None)
    && cloud.instance(id).value.id.Some?
    && var own := cloud.instance(id).value.id.value;
       && cloud.vnicList(own).Ok? && cloud.bootList(own).Ok?
       && NetworkInOrder(desired.network, desired.skipSecondary, cloud.vnicList(own).value, cloud.vnic)
       && BootInOrder(desired.boot, cloud.bootList(own).value, cloud.bootVolume)
  }

  /** Fetched VNICs carry the id they were fetched under. */
  ghost predicate OwnIds(cloud: Cloud) {
    forall c :: cloud.vnic(c).Ok? ==> cloud.vnic(c).value.id == c
  }

  /** With current caches, no drift is reported only if all is in order; and always if it is, when each subnet's VNICs
      are listed most selective first. */
  lemma NoDriftMeans(desired: Desired, id: string, cloud: Cloud, r: Verdict)
    requires DirectVerdict(desired, id, cloud, r) && OwnIds(cloud)
    ensures r == Ok(None) ==> AllInOrder(desired, id, cloud)
    ensures AllInOrder(desired, id, cloud) && SelectiveFirst(desired.network.secondary) ==> r == Ok(None)
  {
    if cloud.instance(id).Ok? && cloud.instance(id).value.id.Some? {
      var own := cloud.instance(id).value.id.value;
      NetworkVerdicts(desired, own, cloud);
      if cloud.bootList(own).Ok? {
        var k := BootReasons(desired.boot, cloud.bootList(own).value, cloud.bootVolume);
      }
    }
  }

  lemma NetworkVerdicts(desired: Desired, own: string, cloud: Cloud)
    requires OwnIds(cloud)
    ensures forall r :: NetworkOnApi(desired, own, cloud, r) && cloud.vnicList(own).Ok? ==>
              var order := NetworkInOrder(desired.network, desired.skipSecondary, cloud.vnicList(own).value,
                                          cloud.vnic);
              && (r == Ok(None) ==> order)
              && (order && SelectiveFirst(desired.network.secondary) ==> r == Ok(None))
  {
    forall r | NetworkOnApi(desired, own, cloud, r) && cloud.vnicList(own).Ok? ensures
        var order := NetworkInOrder(desired.network, desired.skipSecondary, cloud.vnicList(own).value, cloud.vnic);
        && (r == Ok(None) ==> order)
        && (order && SelectiveFirst(desired.network.secondary) ==> r == Ok(None))
    {
      NoNetworkDriftMeans(desired.network, desired.skipSecondary, cloud.vnicList(own).value, cloud.vnic, r);
    }
  }

  /** A reported drift is real: the fresh instance fails its own check, or the fresh network or boot volumes of the
      instance as it was first read are not in order. */
  lemma DriftIsReal(desired: Desired, id: string, own: Option<string>, cloud: nat -> Cloud, reason: Reason)
    requires Confirmed(desired, id, own, cloud, reason)
    requires OwnIds(cloud(3)) && SelectiveFirst(desired.network.secondary)
    ensures || (cloud(1).instance(id).Ok? && desired.instanceCheck(cloud(1).instance(id).value) == Ok(Some(reason)))
            || (own.Some? && cloud(3).vnicList(own.value).Ok?
                && !NetworkInOrder(desired.network, desired.skipSecondary, cloud(3).vnicList(own.value).value,
                                   cloud(3).vnic))
            || (own.Some? && cloud(5).bootList(own.value).Ok?
                && !BootInOrder(desired.boot, cloud(5).bootList(own.value).value, cloud(5).bootVolume))
  {
    if own.Some? {
      NetworkVerdicts(desired, own.value, cloud(3));
      if cloud(5).bootList(own.value).Ok? {
        var k := BootReasons(desired.boot, cloud(5).bootList(own.value).value, cloud(5).bootVolume);
      }
    }
  }
}
