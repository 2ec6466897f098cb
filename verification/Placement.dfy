/** Placement of an instance: proposals are tried from the least loaded on, over a view of the instances of a NodePool.
    */
module Placement {
  import opened Common
  import opened LaunchErrors
  import L = UsageLedger
  import R = Reservations

  datatype InstanceSummary = InstanceSummary(ad: string, fd: string, shape: string, reservationId: Option<string>)

  /** An instance as the API returns it. */
  datatype Instance = Instance(id: string, summary: InstanceSummary)

  datatype Proposal = Proposal(
    ad: string, fd: Option<string>, reservationId: Option<string>, placementGroupId: Option<string>,
    computeClusterId: Option<string>, tempIdentifier: string)

  type View = map<string, InstanceSummary>

  /** Without a fault domain the whole availability domain counts. */
  predicate At(s: InstanceSummary, ad: string, fd: Option<string>) {
    s.ad == ad && (fd.Some? ==> s.fd == fd.value)
  }

  function Where(view: View, ad: string, fd: Option<string>): set<string> {
    set id | id in view && At(view[id], ad, fd)
  }

  function Load(view: View, p: Proposal): nat { |Where(view, p.ad, p.fd)| }

  function SummaryOf(p: Proposal, shape: string): InstanceSummary {
    InstanceSummary(p.ad, if p.fd.Some? then p.fd.value else "", shape, p.reservationId)
  }

  /** `p` is no more loaded than `q`. */
  ghost predicate NoMore(view: View, p: Proposal, q: Proposal) {
    Load(view, p) <= Load(view, q)
  }

  /** From `from` on, the loads never fall. */
  ghost predicate SortedFrom(view: View, ps: seq<Proposal>, from: nat) {
    forall i, j :: from <= i < j < |ps| ==> NoMore(view, ps[i], ps[j])
  }

  class AdFdSummary {
    var instanceMap: View

    constructor ()
      ensures instanceMap == map[]
    {
      instanceMap := map[];
    }

    method Forget(id: string)
      modifies this
      ensures instanceMap == old(instanceMap) - {id}
    {
      instanceMap := instanceMap - {id};
    }

    method Update(i: Option<Instance>)
      modifies this
      ensures instanceMap == if i.Some? then Known(old(instanceMap), i.value.id, i.value.summary) else old(instanceMap)
    {
      if i.Some? {
        UpdateBy(i.value.id, i.value.summary);
      }
    }

    /** The first summary of an id stays. */
    method UpdateBy(id: string, s: InstanceSummary)
      modifies this
      ensures instanceMap == Known(old(instanceMap), id, s)
    {
      if id !in instanceMap {
        instanceMap := instanceMap[id := s];
      }
    }

    method InstanceCountForAdFd(ad: string, fd: Option<string>) returns (count: nat)
      ensures count == |Where(instanceMap, ad, fd)|
    {
      count := 0;
      var rest := instanceMap;
      while rest != map[]
        invariant count + |Where(rest, ad, fd)| == |Where(instanceMap, ad, fd)|
        decreases |rest|
      {
        var id :| id in rest;
        WhereSplit(rest, id, ad, fd);
        if At(rest[id], ad, fd) {
          count := count + 1;
        }
        rest := rest - {id};
      }
    }

    method LeastFrom(ps: array<Proposal>, n: nat) returns (least: nat)
      requires n < ps.Length
      ensures n <= least < ps.Length
      ensures forall j :: n <= j < ps.Length ==> NoMore(instanceMap, ps[least], ps[j])
    {
      least := n;
      var leastCount := InstanceCountForAdFd(ps[n].ad, ps[n].fd);
      for k := n + 1 to ps.Length
        invariant n <= least < ps.Length && leastCount == Load(instanceMap, ps[least])
        invariant forall j :: n <= j < k ==> leastCount <= Load(instanceMap, ps[j])
      {
        var count := InstanceCountForAdFd(ps[k].ad, ps[k].fd);
        if count < leastCount {
          least, leastCount := k, count;
        }
      }
    }

    /** The library's sort makes no promise about the order of equals; neither does this contract. */
    method SortByCount(ps: array<Proposal>, from: nat)
      requires from <= ps.Length
      modifies ps
      ensures ps[..from] == old(ps[..from]) && multiset(ps[from..]) == multiset(old(ps[from..]))
      ensures SortedFrom(instanceMap, ps[..], from)
    {
      for n := from to ps.Length
        invariant ps[..from] == old(ps[..from]) && multiset(ps[from..]) == multiset(old(ps[from..]))
        invariant SortedUpTo(instanceMap, ps[..], from, n)
      {
        var least := LeastFrom(ps, n);
        ghost var before := ps[..];
        ps[n], ps[least] := ps[least], ps[n];
        Selected(instanceMap, before, ps[..], from, n, least);
      }
    }

    /** The least loaded of the proposals from `from` on, which now stands first and is held under its temporary id. */
    method Propose(ps: array<Proposal>, from: nat, shape: string) returns (p: Option<Proposal>)
      requires from <= ps.Length
      modifies this, ps
      ensures p.None? <==> from == ps.Length
      ensures p.None? ==> instanceMap == old(instanceMap) && ps[..] == old(ps[..])
      ensures ps[..from] == old(ps[..from]) && multiset(ps[from..]) == multiset(old(ps[from..]))
      ensures p.Some? ==>
                && p.value == ps[from]
                && (forall j :: from <= j < ps.Length ==> NoMore(old(instanceMap), ps[from], ps[j]))
                && instanceMap == Known(old(instanceMap), p.value.tempIdentifier, SummaryOf(p.value, shape))
    {
      if from == ps.Length {
        return None;
      }
      SortByCount(ps, from);
      assert SortedFrom(instanceMap, ps[..], from);
      UpdateBy(ps[from].tempIdentifier, SummaryOf(ps[from], shape));
      p := Some(ps[from]);
    }

    /** One attempt: the least loaded proposal is held under the claim's name while it is tried. */
    method TryNext(ps: array<Proposal>, from: nat, claim: string, shape: string,
                   place: (nat, Proposal) -> Option<LaunchError>) returns (result: Option<LaunchError>)
      requires from < ps.Length && AllFor(claim, ps[..])
      modifies this, ps
      ensures ps[..from] == old(ps[..from]) && multiset(ps[from..]) == multiset(old(ps[from..]))
      ensures forall j :: from <= j < ps.Length ==> NoMore(old(instanceMap), ps[from], ps[j])
      ensures result == place(from, ps[from]) && instanceMap == old(instanceMap) - {claim}
    {
      var p := Propose(ps, from, shape);
      assert p.value in multiset(ps[from..]) && p.value in old(ps[from..]) && p.value in old(ps[..]);
      result := place(from, p.value);
      Forget(p.value.tempIdentifier);
    }
  }

  function Known(view: View, id: string, s: InstanceSummary): View {
    if id in view then view else view[id := s]
  }

  lemma WhereSplit(view: View, id: string, ad: string, fd: Option<string>)
    requires id in view
    ensures |Where(view, ad, fd)| == |Where(view - {id}, ad, fd)| + (if At(view[id], ad, fd) then 1 else 0)
  {
    if At(view[id], ad, fd) {
      assert Where(view, ad, fd) == Where(view - {id}, ad, fd) + {id};
    } else {
      assert Where(view, ad, fd) == Where(view - {id}, ad, fd);
    }
  }

  /** The proposals from `from` to `n` are the least loaded, in order. */
  ghost predicate SortedUpTo(view: View, ps: seq<Proposal>, from: nat, n: nat) {
    forall i, j :: from <= i < n && i < j < |ps| ==> NoMore(view, ps[i], ps[j])
  }

  lemma Selected(view: View, a: seq<Proposal>, b: seq<Proposal>, from: nat, n: nat, least: nat)
    requires from <= n <= least < |a| && b == a[n := a[least]][least := a[n]]
    requires SortedUpTo(view, a, from, n)
    requires forall j :: n <= j < |a| ==> NoMore(view, a[least], a[j])
    ensures b[..from] == a[..from] && multiset(b[from..]) == multiset(a[from..])
    ensures SortedUpTo(view, b, from, n + 1)
  {
    assert b[from..] == a[from..][n - from := a[least]][least - from := a[n]];
    forall i, j | from <= i <= n && i < j < |b| ensures NoMore(view, b[i], b[j]) {
      var k := if j == n then least else if j == least then n else j;
      assert b[j] == a[k];
      assert i < n ==> NoMore(view, a[i], a[k]);
      assert i == n ==> NoMore(view, a[least], a[k]);
    }
  }

  // ---- Proposals ----

  /** An offering that is available and compatible with the claim; a fault domain comes with a reservation only. */
  datatype Offering = Offering(ad: string, reservation: Option<string>, fd: Option<string>)

  function ProposalOf(o: Offering, claimFd: Option<string>, claim: string): Proposal {
    var fd := if claimFd.Some? then claimFd else if o.reservation.Some? then o.fd else None;
    Proposal(o.ad, fd, o.reservation, None, None, claim)
  }

  datatype ComputeCluster = ComputeCluster(ocid: string, ad: string)

  /** What the node class asks for; `reservations` is what resolving its reservations gave, if it names any. */
  datatype Restrictions = Restrictions(
    computeCluster: Option<ComputeCluster>, placementGroups: Option<map<string, seq<string>>>,
    reservations: Option<seq<R.Reservation>>, request: R.Request)

  /** Resolving the compute cluster or the placement groups may fail. */
  datatype Restricting = Restricted(rs: Restrictions) | Unresolved(error: LaunchError)

  function LastElement(ocid: string): string {
    if ocid == "" || ocid[|ocid| - 1] == '.' then "" else LastElement(ocid[..|ocid| - 1]) + [ocid[|ocid| - 1]]
  }

  function OcidToLabelValue(ocid: string): string {
    var last := LastElement(ocid);
    if |last| <= 63 then last else last[|last| - 63..]
  }

  function Find(reservations: seq<R.Reservation>, labelValue: string): Option<R.Reservation> {
    if reservations == [] then None
    else if OcidToLabelValue(reservations[0].ocid) == labelValue then Some(reservations[0])
    else Find(reservations[1..], labelValue)
  }

  /** Reservations, compute clusters and placement groups exclude each other, in this order. */
  function Decorate(rs: Restrictions, p: Proposal): seq<Proposal> {
    if rs.computeCluster.None? && rs.placementGroups.None? && p.reservationId.None? then [p]
    else if p.reservationId.Some? then
      if rs.reservations.None? then []
      else
        match Find(rs.reservations.value, p.reservationId.value)
        case None => []
        case Some(rr) => if R.Admits(rr.records, rs.request, p.fd) then [p.(reservationId := Some(rr.ocid))] else []
    else if rs.computeCluster.Some? then
      if p.ad != rs.computeCluster.value.ad then [] else [p.(computeClusterId := Some(rs.computeCluster.value.ocid))]
    else if p.ad !in rs.placementGroups.value then []
    else
      var groups := rs.placementGroups.value[p.ad];
      seq(|groups|, n requires 0 <= n < |groups| =>
        Proposal(p.ad, p.fd, None, Some(groups[n]), None, p.tempIdentifier))
  }

  /** Decoration keeps the place and the temporary id; a proposal against a reservation survives exactly if the
      reservation that carries its label has room in that place. */
  lemma DecorationKeepsPlace(rs: Restrictions, p: Proposal)
    requires p.placementGroupId.None? && p.computeClusterId.None?
    ensures forall q :: q in Decorate(rs, p) ==>
              && q.ad == p.ad && q.fd == p.fd && q.tempIdentifier == p.tempIdentifier
              && (q.reservationId.None? || q.computeClusterId.None?)
              && (q.placementGroupId.Some? ==> q.reservationId.None? && q.computeClusterId.None?)
              && (q.computeClusterId.Some? ==> rs.computeCluster.Some? && rs.computeCluster.value.ad == p.ad)
    ensures p.reservationId.Some? ==>
              (Decorate(rs, p) != [] <==>
                 && rs.reservations.Some?
                 && Find(rs.reservations.value, p.reservationId.value).Some?
                 && R.Admits(Find(rs.reservations.value, p.reservationId.value).value.records, rs.request, p.fd))
  {
  }

  lemma ReservationProposal(rs: Restrictions, p: Proposal, q: Proposal)
    requires p.reservationId.Some? && q in Decorate(rs, p)
    ensures rs.reservations.Some? && q.fd == p.fd
    ensures var found := Find(rs.reservations.value, p.reservationId.value);
            found.Some? && R.Admits(found.value.records, rs.request, q.fd) && q.reservationId == Some(found.value.ocid)
  {
  }

  /** A launch that placement proposes against a reservation, as a resolution reports it after a run, extends the run,
      as far as launches get what was asked for.  So records that are not mixed stay within their totals. */
  lemma ProposedLaunchExtendsRun(rs: Restrictions, p: Proposal, q: Proposal, snapshot: R.Reservation,
                                 sized: string -> bool, steps: seq<R.Step>, i: L.Instance, now: int)
    requires p.reservationId.Some? && q in Decorate(rs, p)
    requires var found := Find(rs.reservations.value, p.reservationId.value);
             found.Some? && found.value.records == R.Reported(snapshot, R.LedgerAfter(steps))
    requires R.Run(snapshot, sized, steps) && snapshot.time < now
    requires rs.request.sized == sized(rs.request.shape) && R.BookedAs(i, i.shape, sized(i.shape))
    requires R.AsRequested(R.Launch(rs.request, q.fd, i, now))
    ensures var run := steps + [R.Launch(rs.request, q.fd, i, now)];
            && R.Run(snapshot, sized, run)
            && (R.Sound(snapshot.records) && R.Unmixed(snapshot.records, rs.request)
                && (rs.request.sized ==> rs.request.ocpu.Some? && rs.request.gbs.Some?) ==>
                  forall r :: r in snapshot.records && R.Matches(rs.request, r) ==>
                    R.Kept(snapshot.records, run, rs.request, r.faultDomain))
  {
    var run := steps + [R.Launch(rs.request, q.fd, i, now)];
    assert R.Run(snapshot, sized, run) by {
      ReservationProposal(rs, p, q);
      assert run[..|run| - 1] == steps;
    }
    if R.Sound(snapshot.records) && R.Unmixed(snapshot.records, rs.request)
        && (rs.request.sized ==> rs.request.ocpu.Some? && rs.request.gbs.Some?) {
      forall r | r in snapshot.records && R.Matches(rs.request, r)
        ensures R.Kept(snapshot.records, run, rs.request, r.faultDomain)
      {
        R.NeverOvercommitted(snapshot, sized, run, rs.request, r);
      }
    }
  }

  function Proposals(rs: Restrictions, offerings: seq<Offering>, claimFd: Option<string>, claim: string)
    : seq<Proposal>
  {
    if offerings == [] then []
    else
      Proposals(rs, offerings[..|offerings| - 1], claimFd, claim)
        + Decorate(rs, ProposalOf(offerings[|offerings| - 1], claimFd, claim))
  }

  lemma {:induction false} AllForClaim(rs: Restrictions, offerings: seq<Offering>, claimFd: Option<string>,
                                       claim: string)
    ensures forall p :: p in Proposals(rs, offerings, claimFd, claim) ==> p.tempIdentifier == claim
  {
    if offerings != [] {
      AllForClaim(rs, offerings[..|offerings| - 1], claimFd, claim);
      DecorationKeepsPlace(rs, ProposalOf(offerings[|offerings| - 1], claimFd, claim));
    }
  }

  // ---- The retry loop ----

  /** What attempt number `k` sees: from the second on, nothing is held for the claim. */
  ghost function ViewAt(view: View, claim: string, k: nat): View {
    if k == 0 then view else view - {claim}
  }

  /** The first `tried` of `order` were tried, each the least loaded of itself and those after it. */
  ghost predicate TriedInOrder(view: View, claim: string, order: seq<Proposal>, tried: nat) {
    && tried <= |order|
    && forall k: nat, j: nat :: k < tried && k <= j < |order| ==> NoMore(ViewAt(view, claim, k), order[k], order[j])
  }

  ghost predicate AllFail(place: (nat, Proposal) -> Option<LaunchError>, order: seq<Proposal>, n: nat) {
    n <= |order| && forall k: nat :: k < n ==> place(k, order[k]).Some?
  }

  /** All but the last attempt failed, the last gave `result`, and a failure is the last there was to try. */
  ghost predicate StopsAtFirstSuccess(place: (nat, Proposal) -> Option<LaunchError>, order: seq<Proposal>, tried: nat,
                                      result: Option<LaunchError>) {
    && 0 < tried <= |order|
    && AllFail(place, order, tried - 1)
    && result == place(tried - 1, order[tried - 1])
    && (result.Some? ==> tried == |order|)
  }

  /** How placement ends: a panic if nothing is proposed, and otherwise tries in order, until one succeeds, with nothing
      left in the view for the claim. */
  ghost predicate Outcome(view: View, claim: string, place: (nat, Proposal) -> Option<LaunchError>,
                          order: seq<Proposal>, tried: nat, result: Option<LaunchError>, after: View) {
    if order == [] then result == Some(Panic) && tried == 0 && after == view
    else
      && TriedInOrder(view, claim, order, tried)
      && StopsAtFirstSuccess(place, order, tried, result)
      && after == view - {claim}
  }

  predicate AllFor(claim: string, ps: seq<Proposal>) {
    forall p :: p in ps ==> p.tempIdentifier == claim
  }

  /** Reordering what comes after the first `from` changes neither them nor what follows them. */
  lemma SuffixPermuted(a: seq<Proposal>, b: seq<Proposal>, from: nat)
    requires from <= |a| && from <= |b| && a[..from] == b[..from] && multiset(a[from..]) == multiset(b[from..])
    ensures multiset(a) == multiset(b) && |a| == |b|
    ensures forall k, q :: 0 <= k <= from && q in b[k..] ==> q in a[k..]
  {
    assert a == a[..from] + a[from..] && b == b[..from] + b[from..];
    assert |multiset(a[from..])| == |a[from..]| && |multiset(b[from..])| == |b[from..]|;
    forall k, q | 0 <= k <= from && q in b[k..] ensures q in a[k..] {
      assert b[k..] == b[..from][k..] + b[from..] && a[k..] == a[..from][k..] + a[from..];
      if q in b[from..] {
        assert q in multiset(a[from..]);
      }
    }
  }

  /** One step of the loop: the proposals left are reordered, and the first of them is tried. */
  lemma OneMoreTried(a: seq<Proposal>, b: seq<Proposal>, tried: nat, view: View, claim: string,
                     place: (nat, Proposal) -> Option<LaunchError>)
    requires tried < |a| && tried < |b| && a[..tried] == b[..tried] && multiset(a[tried..]) == multiset(b[tried..])
    requires TriedInOrder(view, claim, a, tried) && AllFail(place, a, tried) && AllFor(claim, a)
    requires forall j :: tried <= j < |b| ==> NoMore(ViewAt(view, claim, tried), b[tried], b[j])
    ensures multiset(a) == multiset(b) && |a| == |b| && AllFor(claim, b)
    ensures TriedInOrder(view, claim, b, tried + 1) && AllFail(place, b, tried)
  {
    SuffixPermuted(a, b, tried);
    forall k: nat | k < tried ensures a[k] == b[k] {
      assert a[k] == a[..tried][k] == b[..tried][k] == b[k];
    }
    forall k: nat, j: nat | k < tried && k <= j < |b| ensures NoMore(ViewAt(view, claim, k), b[k], b[j]) {
      assert b[j] in b[k..];
      var i :| k <= i < |a| && a[i] == b[j];
    }
    assert b[0..] == b && a[0..] == a;
  }

  class PlacementProvider {
    var instancesByNodePool: map<string, AdFdSummary>

    /** No two NodePools share a summary. */
    ghost predicate Valid()
      reads this
    {
      forall a, b :: a in instancesByNodePool && b in instancesByNodePool && a != b ==>
        instancesByNodePool[a] != instancesByNodePool[b]
    }

    /** The instances known of a NodePool. */
    ghost function ViewOf(pool: string): View
      reads this, instancesByNodePool.Values
    {
      if pool in instancesByNodePool then instancesByNodePool[pool].instanceMap else map[]
    }

    constructor ()
      ensures Valid() && instancesByNodePool == map[]
    {
      instancesByNodePool := map[];
    }

    method FindAdSummaryForNodePool(pool: string) returns (s: AdFdSummary)
      requires Valid()
      modifies this
      ensures Valid() && instancesByNodePool == old(instancesByNodePool)[pool := s]
      ensures if pool in old(instancesByNodePool) then s == old(instancesByNodePool)[pool] else fresh(s)
      ensures s in old(instancesByNodePool.Values) || fresh(s)
      ensures s.instanceMap == old(ViewOf(pool))
    {
      if pool in instancesByNodePool {
        s := instancesByNodePool[pool];
      } else {
        s := new AdFdSummary();
        instancesByNodePool := instancesByNodePool[pool := s];
      }
    }

    method InstanceFound(pool: string, i: Option<Instance>)
      requires Valid()
      modifies this, instancesByNodePool.Values
      ensures Valid() && fresh(instancesByNodePool.Values - old(instancesByNodePool.Values))
      ensures var was := old(ViewOf(pool));
              ViewOf(pool) == if i.Some? then Known(was, i.value.id, i.value.summary) else was
      ensures forall other :: other != pool ==> ViewOf(other) == old(ViewOf(other))
    {
      var s := FindAdSummaryForNodePool(pool);
      s.Update(i);
    }

    method InstanceForget(pool: string, id: string)
      requires Valid()
      modifies this, instancesByNodePool.Values
      ensures Valid() && fresh(instancesByNodePool.Values - old(instancesByNodePool.Values))
      ensures ViewOf(pool) == old(ViewOf(pool)) - {id}
      ensures forall other :: other != pool ==> ViewOf(other) == old(ViewOf(other))
    {
      var s := FindAdSummaryForNodePool(pool);
      s.Forget(id);
    }

    /** Tries proposals until `place` succeeds; `place(k, p)` is what attempt number `k` gives for `p`. */
    method TryAll(s: AdFdSummary, ps: array<Proposal>, claim: string, shape: string,
                  place: (nat, Proposal) -> Option<LaunchError>) returns (result: Option<LaunchError>, tried: nat)
      requires AllFor(claim, ps[..])
      modifies s, ps
      ensures multiset(ps[..]) == multiset(old(ps[..]))
      ensures Outcome(old(s.instanceMap), claim, place, ps[..], tried, result, s.instanceMap)
    {
      tried := 0;
      if ps.Length == 0 {
        return Some(Panic), 0;
      }
      result, tried := TrySome(s, ps, claim, shape, place);
    }

    /** The loop itself, when there is something to try. */
    method TrySome(s: AdFdSummary, ps: array<Proposal>, claim: string, shape: string,
                   place: (nat, Proposal) -> Option<LaunchError>) returns (result: Option<LaunchError>, tried: nat)
      requires ps.Length > 0 && AllFor(claim, ps[..])
      modifies s, ps
      ensures multiset(ps[..]) == multiset(old(ps[..])) && ps.Length > 0
      ensures TriedInOrder(old(s.instanceMap), claim, ps[..], tried)
      ensures StopsAtFirstSuccess(place, ps[..], tried, result)
      ensures s.instanceMap == old(s.instanceMap) - {claim}
    {
      tried := 0;
      ghost var view, all := s.instanceMap, ps[..];
      ghost var now := all;
      while true
        invariant now == ps[..] && tried < |now|
        invariant multiset(now) == multiset(all) && AllFor(claim, now)
        invariant s.instanceMap == ViewAt(view, claim, tried)
        invariant TriedInOrder(view, claim, now, tried)
        invariant AllFail(place, now, tried)
        decreases |now| - tried
      {
        ghost var before := now;
        result := s.TryNext(ps, tried, claim, shape, place);
        now := ps[..];
        assert now[..tried] == before[..tried] && multiset(now[tried..]) == multiset(before[tried..]) by {
          assert now[..tried] == ps[..tried] && now[tried..] == ps[tried..];
        }
        OneMoreTried(before, now, tried, view, claim, place);
        tried := tried + 1;
        if result.None? || tried == ps.Length {
          assert StopsAtFirstSuccess(place, now, tried, result);
          break;
        }
        assert AllFail(place, now, tried);
      }
    }

    method TryInNodePool(pool: string, ps: array<Proposal>, claim: string, shape: string,
                         place: (nat, Proposal) -> Option<LaunchError>)
        returns (result: Option<LaunchError>, tried: nat)
      requires Valid() && AllFor(claim, ps[..])
      modifies this, instancesByNodePool.Values, ps
      ensures Valid() && fresh(instancesByNodePool.Values - old(instancesByNodePool.Values))
      ensures forall other :: other != pool ==> ViewOf(other) == old(ViewOf(other))
      ensures multiset(ps[..]) == multiset(old(ps[..]))
      ensures Outcome(old(ViewOf(pool)), claim, place, ps[..], tried, result, ViewOf(pool))
    {
      var s := FindAdSummaryForNodePool(pool);
      result, tried := TryAll(s, ps, claim, shape, place);
    }

    method MakeProposals(rs: Restrictions, offerings: seq<Offering>, claimFd: Option<string>, claim: string)
        returns (ps: array<Proposal>)
      ensures fresh(ps) && ps[..] == Proposals(rs, offerings, claimFd, claim)
    {
      var proposals := [];
      for n := 0 to |offerings|
        invariant proposals == Proposals(rs, offerings[..n], claimFd, claim)
      {
        assert offerings[..n + 1][..n] == offerings[..n];
        proposals := proposals + Decorate(rs, ProposalOf(offerings[n], claimFd, claim));
      }
      assert offerings[..|offerings|] == offerings;
      ps := new Proposal[|proposals|](n requires 0 <= n < |proposals| => proposals[n]);
    }

    method PlaceInstance(pool: string, claim: string, claimFd: Option<string>, offerings: seq<Offering>,
                         restrictions: Restricting, shape: string, place: (nat, Proposal) -> Option<LaunchError>)
        returns (result: Option<LaunchError>, order: seq<Proposal>, tried: nat)
      requires Valid()
      modifies this, instancesByNodePool.Values
      ensures Valid() && fresh(instancesByNodePool.Values - old(instancesByNodePool.Values))
      ensures forall other :: other != pool ==> ViewOf(other) == old(ViewOf(other))
      ensures offerings == [] || restrictions.Unresolved? ==>
                && order == [] && tried == 0 && ViewOf(pool) == old(ViewOf(pool))
                && result == Some(if offerings == [] then OtherError("no compatible offering") else restrictions.error)
      ensures offerings != [] && restrictions.Restricted? ==>
                var proposals := Proposals(restrictions.rs, offerings, claimFd, claim);
                var view := old(ViewOf(pool));
                && multiset(order) == multiset(proposals)
                && Outcome(view, claim, place, order, tried, result, ViewOf(pool))
    {
      if offerings == [] {
        return Some(OtherError("no compatible offering")), [], 0;
      }
      if restrictions.Unresolved? {
        return Some(restrictions.error), [], 0;
      }
      var ps := MakeProposals(restrictions.rs, offerings, claimFd, claim);
      ghost var proposals := ps[..];
      AllForClaim(restrictions.rs, offerings, claimFd, claim);
      result, tried := TryInNodePool(pool, ps, claim, shape, place);
      order := ps[..];
    }
  }
}
