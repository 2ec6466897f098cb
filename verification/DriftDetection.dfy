/** The network and boot-volume checks of drift detection, and how their verdicts relate to a perfect matching. */
module DriftDetection {
  import opened Common
  import opened LinkedCaches
  import opened VnicMatching
  import opened DriftCaches
  import opened InstanceProvider

  type VnicAttachment = Attachment<VnicDetail>
  type BootAttachment = Attachment<BootDetail>

  /** The drift reasons, by name; those of the instance's own fields are not told apart. */
  datatype Reason =
    | InstanceMismatch(field: string)
    | PrimaryVnicMismatch
    | PrimaryVnicNsgIdsMismatch
    | SecondaryVnicsNumberMismatch
    | SecondaryVnicNsgIdsMismatch
    | BootVolumeMismatch
    | PvEncryptionInTransitionMismatch
    | BootVolumeSizeMismatch
    | KmsKeyMismatch
    | VpusPerGbMismatch

  /** No reason means no drift. */
  type Verdict = Result<Option<Reason>>

  datatype Network = Network(primary: DesiredVnic, secondary: seq<DesiredVnic>)

  datatype BootConfig = BootConfig(
    pvEncryption: Option<bool>, sizeInGBs: Option<int>, kmsKeyId: Option<string>, vpusPerGB: Option<int>)

  /** What the API answers while nothing changes in the cloud. */
  datatype Cloud = Cloud(
    instance: string -> Result<Instance>,
    vnicList: string -> Result<seq<VnicAttachment>>,
    vnic: string -> Result<Vnic>,
    bootList: string -> Result<seq<BootAttachment>>,
    bootVolume: string -> Result<BootVolume>)

  /** `instanceCheck` compares the instance's own fields, one after the other, with what is desired. */
  datatype Desired = Desired(
    instanceCheck: Instance -> Verdict, network: Network, boot: BootConfig, skipSecondary: bool)

  // ---- What the checks decide, given how a child resource reads ----

  function Attached(list: seq<VnicAttachment>): (r: seq<VnicAttachment>)
    ensures forall a :: a in r <==> a in list && a.detail.attached && a.childId.Some?
  {
    if list == [] then []
    else
      var last := list[|list| - 1];
      Attached(list[..|list| - 1]) + (if last.detail.attached && last.childId.Some? then [last] else [])
  }

  /** The first attached VNIC on the subnet that is primary. */
  ghost function PrimaryOf(attached: seq<VnicAttachment>, subnetId: string, get: string -> Result<Vnic>)
    : Result<Option<Vnic>>
    requires forall a :: a in attached ==> a.childId.Some?
  {
    if attached == [] then Ok(None)
    else if attached[0].detail.subnetId != subnetId then PrimaryOf(attached[1..], subnetId, get)
    else
      match get(attached[0].childId.value)
      case Err(e) => Err(e)
      case Ok(v) =>
        if v.isPrimary.None? then Err(NilDereference)
        else if v.isPrimary.value then Ok(Some(v))
        else PrimaryOf(attached[1..], subnetId, get)
  }

  /** The attached VNICs other than the primary, by id. */
  ghost function SecondaryOf(attached: seq<VnicAttachment>, get: string -> Result<Vnic>): Result<map<string, Vnic>>
    requires forall a :: a in attached ==> a.childId.Some?
  {
    if attached == [] then Ok(map[])
    else
      var last := attached[|attached| - 1].childId.value;
      match SecondaryOf(attached[..|attached| - 1], get)
      case Err(e) => Err(e)
      case Ok(m) =>
        match get(last)
        case Err(e) => Err(e)
        case Ok(v) => Ok(if v.isPrimary == Some(true) then m else m[last := v])
  }

  /** The verdicts the secondary check can give; the matching depends on the iteration order of a map. */
  ghost predicate SecondaryVerdict(attached: seq<VnicAttachment>, desired: seq<DesiredVnic>,
                                   get: string -> Result<Vnic>, r: Verdict)
    requires forall a :: a in attached ==> a.childId.Some?
  {
    match SecondaryOf(attached, get)
    case Err(e) => r == Err(e)
    case Ok(m) =>
      if |m| != |desired| then r == Ok(Some(SecondaryVnicsNumberMismatch))
      else exists picks ::
             && GreedyRun(desired, m, picks)
             && r == Ok(if |picks| == |desired| then None else Some(SecondaryVnicNsgIdsMismatch))
  }

  ghost predicate NetworkVerdict(network: Network, skipSecondary: bool, list: seq<VnicAttachment>,
                                 get: string -> Result<Vnic>, r: Verdict)
  {
    match PrimaryOf(Attached(list), network.primary.subnetId, get)
    case Err(e) => r == Err(e)
    case Ok(None) => r == Ok(Some(PrimaryVnicMismatch))
    case Ok(Some(v)) =>
      if !NsgIdsMatch(network.primary.nsgIds, v) then r == Ok(Some(PrimaryVnicNsgIdsMismatch))
      else if skipSecondary || network.secondary == [] then r == Ok(None)
      else SecondaryVerdict(Attached(list), network.secondary, get, r)
  }

  /** The earliest attachment; of several, the first in the list. */
  function Earliest(list: seq<BootAttachment>): (r: BootAttachment)
    requires list != []
    ensures r in list && forall a :: a in list ==> r.detail.timeCreated <= a.detail.timeCreated
  {
    if |list| == 1 then list[0]
    else
      var best, last := Earliest(list[..|list| - 1]), list[|list| - 1];
      if last.detail.timeCreated < best.detail.timeCreated then last else best
  }

  function VolumeReason(boot: BootConfig, v: BootVolume): Option<Reason> {
    if boot.sizeInGBs.Some? && v.sizeInGBs < boot.sizeInGBs.value then Some(BootVolumeSizeMismatch)
    else if boot.kmsKeyId.Some? && v.kmsKeyId != boot.kmsKeyId then Some(KmsKeyMismatch)
    else if boot.vpusPerGB.Some? && v.vpusPerGB != boot.vpusPerGB then Some(VpusPerGbMismatch)
    else None
  }

  function BootVerdict(boot: BootConfig, list: seq<BootAttachment>, get: string -> Result<BootVolume>): Verdict {
    if list == [] then Ok(Some(BootVolumeMismatch))
    else
      var first := Earliest(list);
      if boot.pvEncryption.Some? && first.detail.pvEncryption != boot.pvEncryption then
        Ok(Some(PvEncryptionInTransitionMismatch))
      else if first.childId.None? then Err(NilDereference)
      else
        match get(first.childId.value)
        case Err(e) => Err(e)
        case Ok(v) => Ok(VolumeReason(boot, v))
  }

  /** How children read through a cache: a cached one as it is, any other from the API. */
  ghost function Reading<C>(children: map<string, C>, refresh: bool, loader: string -> Result<C>): string -> Result<C> {
    c => if !refresh && c in children then Ok(children[c]) else loader(c)
  }

  /** Between two views of one cache pair, only children named by `list` were added (or, when refreshing, replaced),
      as the API has them. */
  ghost predicate ReadOnly<D, C>(before: Linked<D, C>, after: Linked<D, C>, list: seq<Attachment<D>>, refresh: bool,
                                 loader: string -> Result<C>)
  {
    && after.lists == before.lists
    && before.children.Keys <= after.children.Keys
    && (forall c :: c in after.children ==>
         || (c in before.children && after.children[c] == before.children[c])
         || (c in Refs(list) && (refresh || c !in before.children) && loader(c) == Ok(after.children[c])))
  }

  lemma ReadOnlyKeepsReferenced<D, C>(before: Linked<D, C>, after: Linked<D, C>, id: string,
                                      list: seq<Attachment<D>>, refresh: bool, loader: string -> Result<C>)
    requires Referenced(before) && ReadOnly(before, after, list, refresh, loader)
    requires id in before.lists && before.lists[id] == list
    ensures Referenced(after)
  {
    forall c | c in after.children ensures NamedFor(after.lists, after.lists.Keys, c) {
      if c in before.children {
        assert NamedFor(before.lists, before.lists.Keys, c);
      } else {
        assert id in after.lists.Keys && c in Refs(after.lists[id]);
      }
    }
  }

  // ---- The checks ----

  method IsVnicNsgIdsMatch(nsgIds: seq<string>, v: Vnic) returns (r: bool)
    ensures r <==> NsgIdsMatch(nsgIds, v)
  {
    for i := 0 to |nsgIds|
      invariant forall n :: n in nsgIds[..i] ==> n in v.nsgIds
    {
      var found := false;
      for j := 0 to |v.nsgIds|
        invariant !found && nsgIds[i] !in v.nsgIds[..j]
      {
        if v.nsgIds[j] == nsgIds[i] {
          found := true;
          break;
        }
      }
      if !found {
        assert v.nsgIds[..|v.nsgIds|] == v.nsgIds && nsgIds[i] in nsgIds;
        return false;
      }
    }
    assert nsgIds[..|nsgIds|] == nsgIds;
    r := true;
  }

  /** Some unused attached VNIC that fits, the first in an arbitrary iteration order, if there is one. */
  method FindMatch(left: map<string, Vnic>, d: DesiredVnic) returns (matched: Option<Vnic>, ghost key: string)
    ensures matched.None? ==> forall k :: k in left ==> !Matches(d, left[k])
    ensures matched.Some? ==> key in left && Matches(d, left[key]) && left[key] == matched.value
  {
    matched, key := None, "";
    var keys := left.Keys;
    while keys != {}
      invariant keys <= left.Keys && matched.None?
      invariant forall k :: k in left && k !in keys ==> !Matches(d, left[k])
      decreases keys
    {
      var k :| k in keys;
      keys := keys - {k};
      if d.subnetId == left[k].subnetId {
        var nsgs := IsVnicNsgIdsMatch(d.nsgIds, left[k]);
        if nsgs {
          return Some(left[k]), k;
        }
      }
    }
  }

  /** After `picks`, a greedy run of the remaining desired VNICs on what is left completes a greedy run of all. */
  ghost predicate RunSoFar(desired: seq<DesiredVnic>, existing: map<string, Vnic>, picks: seq<string>,
                           left: map<string, Vnic>)
  {
    && |picks| <= |desired|
    && (forall rest :: GreedyRun(desired[|picks|..], left, rest) ==> GreedyRun(desired, existing, picks + rest))
  }

  lemma RunStarts(desired: seq<DesiredVnic>, existing: map<string, Vnic>)
    ensures RunSoFar(desired, existing, [], existing)
  {
    assert desired[0..] == desired && forall rest: seq<string> :: [] + rest == rest;
  }

  lemma RunContinues(desired: seq<DesiredVnic>, existing: map<string, Vnic>, picks: seq<string>,
                     left: map<string, Vnic>, key: string)
    requires RunSoFar(desired, existing, picks, left) && |picks| < |desired|
    requires key in left && Matches(desired[|picks|], left[key])
    ensures RunSoFar(desired, existing, picks + [key], left - {left[key].id})
  {
    var after := left - {left[key].id};
    forall rest | GreedyRun(desired[|picks| + 1..], after, rest)
      ensures GreedyRun(desired, existing, picks + [key] + rest)
    {
      assert desired[|picks|..][1..] == desired[|picks| + 1..] && ([key] + rest)[1..] == rest;
      assert GreedyRun(desired[|picks|..], left, [key] + rest);
      assert picks + [key] + rest == picks + ([key] + rest);
    }
  }

  lemma RunEnds(desired: seq<DesiredVnic>, existing: map<string, Vnic>, picks: seq<string>, left: map<string, Vnic>)
    requires RunSoFar(desired, existing, picks, left)
    requires |picks| < |desired| ==> forall k :: k in left ==> !Matches(desired[|picks|], left[k])
    ensures GreedyRun(desired, existing, picks)
  {
    assert GreedyRun(desired[|picks|..], left, []);
    assert picks + [] == picks;
  }

  /** The greedy matching of desired VNICs with attached ones. */
  method MatchSecondVnics(existing: map<string, Vnic>, desired: seq<DesiredVnic>)
      returns (reason: Option<Reason>)
    ensures exists picks ::
              && GreedyRun(desired, existing, picks)
              && reason == if |picks| == |desired| then None else Some(SecondaryVnicNsgIdsMismatch)
  {
    ghost var picks: seq<string> := [];
    var left := existing;
    RunStarts(desired, existing);
    for i := 0 to |desired|
      invariant |picks| == i && RunSoFar(desired, existing, picks, left)
    {
      var matched, key := FindMatch(left, desired[i]);
      if matched.None? {
        RunEnds(desired, existing, picks, left);
        return Some(SecondaryVnicNsgIdsMismatch);
      }
      RunContinues(desired, existing, picks, left, key);
      picks := picks + [key];
      left := left - {matched.value.id};
    }
    RunEnds(desired, existing, picks, left);
    reason := None;
  }

  method IsNetworkSecondVnicDrifted(caches: AttachmentCaches<VnicDetail, Vnic>, attached: seq<VnicAttachment>,
                                    desired: seq<DesiredVnic>, refresh: bool, loader: string -> Result<Vnic>)
      returns (r: Verdict)
    requires caches.Valid()
    requires forall a :: a in attached ==> a.childId.Some?
    modifies caches.children
    ensures ReadOnly(old(caches.View()), caches.View(), attached, refresh, loader)
    ensures SecondaryVerdict(attached, desired, Reading(old(caches.View()).children, refresh, loader), r)
  {
    ghost var get := Reading(old(caches.View()).children, refresh, loader);
    var existing: map<string, Vnic> := map[];
    for i := 0 to |attached|
      invariant ReadOnly(old(caches.View()), caches.View(), attached, refresh, loader)
      invariant SecondaryOf(attached[..i], get) == Ok(existing)
    {
      ghost var before := caches.View();
      var id := attached[i].childId.value;
      assert attached[..i + 1][..i] == attached[..i];
      var vnic := caches.GetChild(id, refresh, loader);
      assert vnic == get(id);
      if vnic.Err? {
        SecondaryFails(attached, i + 1, get, vnic.error);
        return Err(vnic.error);
      }
      if vnic.value.isPrimary != Some(true) {
        existing := existing[id := vnic.value];
      }
    }
    assert attached[..|attached|] == attached;
    if |existing| != |desired| {
      return Ok(Some(SecondaryVnicsNumberMismatch));
    }
    var reason := MatchSecondVnics(existing, desired);
    r := Ok(reason);
  }

  lemma {:induction false} SecondaryFails(attached: seq<VnicAttachment>, n: nat, get: string -> Result<Vnic>, e: Error)
    requires forall a :: a in attached ==> a.childId.Some?
    requires n <= |attached| && SecondaryOf(attached[..n], get) == Err(e)
    ensures SecondaryOf(attached, get) == Err(e)
    decreases |attached|
  {
    if n < |attached| {
      assert attached[..|attached| - 1][..n] == attached[..n];
      SecondaryFails(attached[..|attached| - 1], n, get, e);
    } else {
      assert attached[..n] == attached;
    }
  }

  method FindPrimary(caches: AttachmentCaches<VnicDetail, Vnic>, attached: seq<VnicAttachment>, subnetId: string,
                     refresh: bool, loader: string -> Result<Vnic>) returns (r: Result<Option<Vnic>>)
    requires caches.Valid()
    requires forall a :: a in attached ==> a.childId.Some?
    modifies caches.children
    ensures ReadOnly(old(caches.View()), caches.View(), attached, refresh, loader)
    ensures r == PrimaryOf(attached, subnetId, Reading(old(caches.View()).children, refresh, loader))
  {
    ghost var get := Reading(old(caches.View()).children, refresh, loader);
    for i := 0 to |attached|
      invariant ReadOnly(old(caches.View()), caches.View(), attached, refresh, loader)
      invariant PrimaryOf(attached, subnetId, get) == PrimaryOf(attached[i..], subnetId, get)
    {
      assert attached[i..][1..] == attached[i + 1..];
      if attached[i].detail.subnetId == subnetId {
        var vnic := caches.GetChild(attached[i].childId.value, refresh, loader);
        assert vnic == get(attached[i].childId.value);
        if vnic.Err? {
          return Err(vnic.error);
        }
        if vnic.value.isPrimary.None? {
          return Err(NilDereference);
        }
        if vnic.value.isPrimary.value {
          return Ok(Some(vnic.value));
        }
      }
    }
    r := Ok(None);
  }

  method IsInstanceNetworkDrifted(caches: AttachmentCaches<VnicDetail, Vnic>, list: seq<VnicAttachment>,
                                  network: Network, skipSecondary: bool, refresh: bool, loader: string -> Result<Vnic>)
      returns (r: Verdict)
    requires caches.Valid()
    modifies caches.children
    ensures ReadOnly(old(caches.View()), caches.View(), list, refresh, loader)
    ensures NetworkVerdict(network, skipSecondary, list, Reading(old(caches.View()).children, refresh, loader), r)
  {
    ghost var before := caches.View();
    var attached := Attached(list);
    RefsOfAttached(list);
    var primary := FindPrimary(caches, attached, network.primary.subnetId, refresh, loader);
    if primary.Err? {
      return Err(primary.error);
    }
    if primary.value.None? {
      return Ok(Some(PrimaryVnicMismatch));
    }
    var nsgs := IsVnicNsgIdsMatch(network.primary.nsgIds, primary.value.value);
    if !nsgs {
      return Ok(Some(PrimaryVnicNsgIdsMismatch));
    }
    if skipSecondary || network.secondary == [] {
      return Ok(None);
    }
    ghost var between := caches.View();
    r := IsNetworkSecondVnicDrifted(caches, attached, network.secondary, refresh, loader);
    SameReading(before, between, attached, refresh, loader);
    SecondarySame(attached, Reading(before.children, refresh, loader), Reading(between.children, refresh, loader));
  }

  /** A cache that was only read through reads the same afterwards. */
  lemma SameReading<D, C>(a: Linked<D, C>, b: Linked<D, C>, list: seq<Attachment<D>>, refresh: bool,
                          loader: string -> Result<C>)
    requires ReadOnly(a, b, list, refresh, loader)
    ensures forall c :: Reading(a.children, refresh, loader)(c) == Reading(b.children, refresh, loader)(c)
  {
  }

  lemma {:induction false} SecondarySame(attached: seq<VnicAttachment>, f: string -> Result<Vnic>,
                                         g: string -> Result<Vnic>)
    requires forall a :: a in attached ==> a.childId.Some?
    requires forall c :: f(c) == g(c)
    ensures SecondaryOf(attached, f) == SecondaryOf(attached, g)
  {
    if attached != [] {
      SecondarySame(attached[..|attached| - 1], f, g);
    }
  }

  lemma RefsOfAttached(list: seq<VnicAttachment>)
    ensures Refs(Attached(list)) <= Refs(list)
  {
    forall c | c in Refs(Attached(list)) ensures c in Refs(list) {
      var i :| 0 <= i < |Attached(list)| && Attached(list)[i].childId == Some(c);
      assert Attached(list)[i] in list;
    }
  }

  method IsInstanceBootVolumeDrifted(caches: AttachmentCaches<BootDetail, BootVolume>, list: seq<BootAttachment>,
                                     boot: BootConfig, refresh: bool, loader: string -> Result<BootVolume>)
      returns (r: Verdict)
    requires caches.Valid()
    modifies caches.children
    ensures ReadOnly(old(caches.View()), caches.View(), list, refresh, loader)
    ensures r == BootVerdict(boot, list, Reading(old(caches.View()).children, refresh, loader))
  {
    if |list| == 0 {
      return Ok(Some(BootVolumeMismatch));
    }
    var first := list[0];
    for i := 1 to |list|
      invariant first == Earliest(list[..i])
    {
      assert list[..i + 1][..i] == list[..i];
      if list[i].detail.timeCreated < first.detail.timeCreated {
        first := list[i];
      }
    }
    assert list[..|list|] == list;
    if boot.pvEncryption.Some? && first.detail.pvEncryption != boot.pvEncryption {
      return Ok(Some(PvEncryptionInTransitionMismatch));
    }
    if first.childId.None? {
      return Err(NilDereference);
    }
    var volume := caches.GetChild(first.childId.value, refresh, loader);
    if volume.Err? {
      return Err(volume.error);
    }
    r := Ok(VolumeReason(boot, volume.value));
  }

  // ---- What a verdict on secondary VNICs is worth ----

  /** Fetched VNICs carry the id they were fetched under. */
  ghost predicate FetchedUnderOwnId(attached: seq<VnicAttachment>, get: string -> Result<Vnic>) {
    forall a :: a in attached && a.childId.Some? && get(a.childId.value).Ok?
      ==> get(a.childId.value).value.id == a.childId.value
  }

  lemma {:induction false} SecondaryOfIds(attached: seq<VnicAttachment>, get: string -> Result<Vnic>)
    requires forall a :: a in attached ==> a.childId.Some?
    requires FetchedUnderOwnId(attached, get)
    ensures SecondaryOf(attached, get).Ok? ==> IdsAreKeys(SecondaryOf(attached, get).value)
  {
    if attached != [] {
      SecondaryOfIds(attached[..|attached| - 1], get);
      assert attached[|attached| - 1] in attached;
    }
  }

  /** Sound: no drift means a one-to-one assignment of the attached secondary VNICs to the desired ones, on the same
      subnet and with at least the desired network security groups. */
  lemma NoDriftIsMatched(network: Network, list: seq<VnicAttachment>, get: string -> Result<Vnic>)
      returns (m: seq<string>)
    requires NetworkVerdict(network, false, list, get, Ok(None)) && network.secondary != []
    requires FetchedUnderOwnId(Attached(list), get)
    ensures SecondaryOf(Attached(list), get).Ok?
    ensures PerfectMatching(network.secondary, SecondaryOf(Attached(list), get).value, m)
  {
    SecondaryOfIds(Attached(list), get);
    var existing := SecondaryOf(Attached(list), get).value;
    m :| GreedyRun(network.secondary, existing, m) && |m| == |network.secondary|;
    GreedySound(network.secondary, existing, m);
  }

  /** Complete for every iteration order when each subnet's VNICs are listed most selective first, or when the match
      sets are equal or disjoint: a secondary-VNIC drift is reported only if no such assignment exists. */
  lemma DriftIsUnmatched(network: Network, list: seq<VnicAttachment>, get: string -> Result<Vnic>, m: seq<string>,
                         reason: Reason)
    requires NetworkVerdict(network, false, list, get, Ok(Some(reason)))
    requires FetchedUnderOwnId(Attached(list), get) && SecondaryOf(Attached(list), get).Ok?
    requires || SelectiveFirst(network.secondary)
             || EqualOrDisjoint(network.secondary, SecondaryOf(Attached(list), get).value)
    requires reason == SecondaryVnicsNumberMismatch || reason == SecondaryVnicNsgIdsMismatch
    ensures !PerfectMatching(network.secondary, SecondaryOf(Attached(list), get).value, m)
  {
    SecondaryOfIds(Attached(list), get);
    var existing := SecondaryOf(Attached(list), get).value;
    if PerfectMatching(network.secondary, existing, m) {
      var picks := SecondaryMismatchRun(network, list, get, existing, reason);
      if SelectiveFirst(network.secondary) {
        GreedyCompleteIff(network.secondary);
      } else {
        GreedyDecides(network.secondary, existing, picks);
      }
    }
  }

  /** With equal counts, the mismatch reported is a greedy run that stopped early. */
  lemma SecondaryMismatchRun(network: Network, list: seq<VnicAttachment>, get: string -> Result<Vnic>,
                             existing: map<string, Vnic>, reason: Reason) returns (picks: seq<string>)
    requires NetworkVerdict(network, false, list, get, Ok(Some(reason)))
    requires SecondaryOf(Attached(list), get) == Ok(existing) && |existing| == |network.secondary|
    requires reason == SecondaryVnicsNumberMismatch || reason == SecondaryVnicNsgIdsMismatch
    ensures GreedyRun(network.secondary, existing, picks) && |picks| != |network.secondary|
  {
    picks :| GreedyRun(network.secondary, existing, picks) && |picks| != |network.secondary|;
  }
}
