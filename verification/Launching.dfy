/** The fallback loop of a launch: priced instance types in order, and for each the retry loop of module `Placement`. */
module Launching {
  import opened Common
  import opened LaunchErrors
  import opened PriceOrder
  import P = Placement

  datatype Attempt = Launched(instance: P.Instance) | NotLaunched(error: LaunchError)

  /** What the launch meets: whether an image resolves for a shape, how offerings read to placement, what restricts the
      proposals of entry `n`, and what attempt `k` of entry `n` gives for a proposal. */
  datatype World = World(
    imageResolves: string -> bool, offering: Offering -> P.Offering, restrictions: nat -> P.Restricting,
    launch: (nat, nat, P.Proposal) -> Attempt)

  datatype Claim = Claim(pool: string, name: string, faultDomain: Option<string>)

  datatype Created =
    | Node(instance: P.Instance, entry: nat)
    | InsufficientCapacity
    | LaunchFailed(error: LaunchError)
    | NothingLaunched
    | Panicked

  function PlaceOf(w: World, n: nat): (nat, P.Proposal) -> Option<LaunchError> {
    (k: nat, p: P.Proposal) =>
      match w.launch(n, k, p)
      case Launched(_) => None
      case NotLaunched(e) => Some(e)
  }

  function OfferingsOf(w: World, entry: InstanceType, compatible: Offering -> bool): seq<P.Offering> {
    var eligible := Eligible(entry.offerings, compatible);
    seq(|eligible|, i requires 0 <= i < |eligible| => w.offering(eligible[i]))
  }

  // ---- What becomes of an entry ----

  /** No image for it, or the proposals as they were tried. */
  datatype Fate = NoImage | Placed(order: seq<P.Proposal>, tried: nat, result: Option<LaunchError>)

  ghost predicate OutcomeFrom(view: P.View, claim: Claim, w: World, n: nat, f: Fate)
    requires f.Placed?
  {
    P.Outcome(view, claim.name, PlaceOf(w, n), f.order, f.tried, f.result,
              if f.order == [] then view else view - {claim.name})
  }

  /** `f` is what placement made of entry `n`, from `view` or, later on, from `view` without the claim. */
  ghost predicate Handled(view: P.View, claim: Claim, w: World, n: nat, entry: InstanceType,
                          compatible: Offering -> bool, f: Fate)
  {
    var offerings, restrictions := OfferingsOf(w, entry, compatible), w.restrictions(n);
    if !w.imageResolves(entry.shape) then f == NoImage
    else if offerings == [] then f == Placed([], 0, Some(OtherError("no compatible offering")))
    else if restrictions.Unresolved? then f == Placed([], 0, Some(restrictions.error))
    else
      && f.Placed?
      && multiset(f.order) == multiset(P.Proposals(restrictions.rs, offerings, claim.faultDomain, claim.name))
      && (OutcomeFrom(view, claim, w, n, f) || OutcomeFrom(view - {claim.name}, claim, w, n, f))
  }

  ghost predicate AllHandled(view: P.View, claim: Claim, w: World, entries: seq<InstanceType>,
                             compatible: Offering -> bool, fates: seq<Fate>)
  {
    && |fates| <= |entries|
    && forall n: nat :: n < |fates| ==> Handled(view, claim, w, n, entries[n], compatible, fates[n])
  }

  /** The loop goes on to the next entry. */
  predicate Skipped(f: Fate, limitFallback: bool) {
    f.Placed? ==> f.result.Some? && IsSkippableLaunchError(f.result.value, limitFallback)
  }

  ghost predicate AllSkipped(fates: seq<Fate>, limitFallback: bool) {
    forall n :: 0 <= n < |fates| ==> Skipped(fates[n], limitFallback)
  }

  ghost predicate SomePlaced(fates: seq<Fate>) {
    exists n :: 0 <= n < |fates| && fates[n].Placed?
  }

  /** How many of the first `k` attempts of entry `n` left an instance. */
  function SuccessesOf(w: World, n: nat, order: seq<P.Proposal>, k: nat): nat
    requires k <= |order|
  {
    if k == 0 then 0 else SuccessesOf(w, n, order, k - 1) + if w.launch(n, k - 1, order[k - 1]).Launched? then 1 else 0
  }

  /** How many attempts of all entries left an instance. */
  function Successes(w: World, fates: seq<Fate>): nat {
    if fates == [] then 0
    else
      var n := |fates| - 1;
      var f := fates[n];
      Successes(w, fates[..n]) + if f.Placed? && f.tried <= |f.order| then SuccessesOf(w, n, f.order, f.tried) else 0
  }

  lemma {:induction false} FailuresLeaveNothing(w: World, n: nat, order: seq<P.Proposal>, k: nat)
    requires k <= |order| && P.AllFail(PlaceOf(w, n), order, k)
    ensures SuccessesOf(w, n, order, k) == 0
  {
    if k > 0 {
      FailuresLeaveNothing(w, n, order, k - 1);
      assert PlaceOf(w, n)(k - 1, order[k - 1]).Some?;
    }
  }

  /** An entry leaves one instance if it launches, and otherwise none, however many proposals it tries. */
  lemma OneSuccess(view: P.View, claim: Claim, w: World, n: nat, entry: InstanceType, compatible: Offering -> bool,
                   f: Fate)
    requires Handled(view, claim, w, n, entry, compatible, f) && f.Placed?
    ensures f.tried <= |f.order|
    ensures SuccessesOf(w, n, f.order, f.tried) == if f.result.None? then 1 else 0
    ensures f.result.None? ==> f.tried > 0 && w.launch(n, f.tried - 1, f.order[f.tried - 1]).Launched?
  {
    if f.order != [] {
      var last := f.tried - 1;
      FailuresLeaveNothing(w, n, f.order, last);
      assert f.result == PlaceOf(w, n)(last, f.order[last]);
    }
  }

  /** Only the error of the last proposal counts: an entry is skipped exactly if every proposal failed and the last of
      them in a way that may be skipped. */
  lemma SkippedIffLastSkippable(view: P.View, claim: Claim, w: World, n: nat, f: Fate, limitFallback: bool)
    requires f.Placed? && f.order != [] && OutcomeFrom(view, claim, w, n, f)
    ensures var last := |f.order| - 1;
            Skipped(f, limitFallback) <==>
              && (forall k: nat :: k <= last ==> w.launch(n, k, f.order[k]).NotLaunched?)
              && IsSkippableLaunchError(w.launch(n, last, f.order[last]).error, limitFallback)
  {
    var place, last := PlaceOf(w, n), |f.order| - 1;
    assert f.result == place(f.tried - 1, f.order[f.tried - 1]);
    if f.result.Some? {
      forall k: nat | k <= last ensures w.launch(n, k, f.order[k]).NotLaunched? {
        assert k < last ==> place(k, f.order[k]).Some?;
      }
    }
  }

  /** So an earlier error that may not be skipped is forgotten when the last one may. */
  lemma EarlierErrorForgotten(claim: Claim, p: P.Proposal, instance: P.Instance)
      returns (w: World, f: Fate)
    ensures f.Placed? && OutcomeFrom(map[], claim, w, 0, f) && f.order == [p, p] && Skipped(f, false)
    ensures w.launch(0, 0, p).NotLaunched? && !IsSkippableLaunchError(w.launch(0, 0, p).error, true)
  {
    w := World((_: string) => true, (_: Offering) => P.Offering("", None, None),
               (_: nat) => P.Unresolved(NoCapacityError),
               (n: nat, k: nat, q: P.Proposal) => NotLaunched(if k == 0 then OtherError("") else NoCapacityError));
    f := Placed([p, p], 2, Some(NoCapacityError));
    var empty: P.View := map[];
    assert empty - {claim.name} == empty;
    assert P.AllFail(PlaceOf(w, 0), [p, p], 1);
    assert P.TriedInOrder(empty, claim.name, [p, p], 2);
  }

  // ---- The loop ----

  /** How the loop ends, as far as the fates of the entries it got to decide it. */
  ghost predicate Ends(w: World, entries: seq<InstanceType>, limitFallback: bool, fates: seq<Fate>, r: Created) {
    var last := |fates| - 1;
    && |fates| <= |entries|
    && (r.Node? || r.LaunchFailed? || r.Panicked? ==> fates != [] && AllSkipped(fates[..last], limitFallback))
    && (r.Node? <==> fates != [] && fates[last].Placed? && fates[last].result.None?)
    && (r.Node? ==>
          && r.entry == last && 0 < fates[last].tried <= |fates[last].order|
          && w.launch(last, fates[last].tried - 1, fates[last].order[fates[last].tried - 1]) == Launched(r.instance))
    && (r.Panicked? <==> fates != [] && fates[last].Placed? && fates[last].result == Some(Panic))
    && (r.LaunchFailed? <==>
          fates != [] && fates[last].Placed? && fates[last].result.Some? && fates[last].result != Some(Panic)
          && !IsSkippableLaunchError(fates[last].result.value, limitFallback))
    && (r.LaunchFailed? ==> fates[last].result == Some(r.error))
    && (r == InsufficientCapacity <==>
          entries == [] || (|fates| == |entries| && AllSkipped(fates, limitFallback) && SomePlaced(fates)))
    && (r == NothingLaunched <==> entries != [] && |fates| == |entries| && !SomePlaced(fates))
  }

  /** Everything but the NodePool of the claim stays, and there at most the claim's own entry goes. */
  twostate predicate OnlyClaimGoes(placement: P.PlacementProvider, claim: Claim)
    reads placement, placement.instancesByNodePool.Values
  {
    && (forall other :: other != claim.pool ==> placement.ViewOf(other) == old(placement.ViewOf(other)))
    && (placement.ViewOf(claim.pool) == old(placement.ViewOf(claim.pool))
        || placement.ViewOf(claim.pool) == old(placement.ViewOf(claim.pool)) - {claim.name})
  }

  method TryEntry(placement: P.PlacementProvider, claim: Claim, w: World, n: nat, entry: InstanceType,
                  compatible: Offering -> bool, ghost view: P.View) returns (f: Fate)
    requires placement.Valid()
    requires placement.ViewOf(claim.pool) == view || placement.ViewOf(claim.pool) == view - {claim.name}
    modifies placement, placement.instancesByNodePool.Values
    ensures placement.Valid()
    ensures fresh(placement.instancesByNodePool.Values - old(placement.instancesByNodePool.Values))
    ensures OnlyClaimGoes(placement, claim)
    ensures Handled(view, claim, w, n, entry, compatible, f)
  {
    if !w.imageResolves(entry.shape) {
      return NoImage;
    }
    var result, order, tried := placement.PlaceInstance(
      claim.pool, claim.name, claim.faultDomain, OfferingsOf(w, entry, compatible), w.restrictions(n), entry.shape,
      PlaceOf(w, n));
    f := Placed(order, tried, result);
  }

  /** The loop stops at the first entry that is not skipped, or after all. */
  ghost predicate Stops(entries: seq<InstanceType>, limitFallback: bool, fates: seq<Fate>) {
    && |fates| <= |entries|
    && (|fates| < |entries| ==> fates != [] && !Skipped(fates[|fates| - 1], limitFallback))
    && (fates != [] ==> AllSkipped(fates[..|fates| - 1], limitFallback))
  }

  lemma PlacedAmong(fates: seq<Fate>, f: Fate)
    ensures SomePlaced(fates + [f]) <==> SomePlaced(fates) || f.Placed?
  {
    var more := fates + [f];
    if f.Placed? {
      assert more[|fates|].Placed?;
    }
    forall n | 0 <= n < |fates| && fates[n].Placed? ensures SomePlaced(more) {
      assert more[n] == fates[n];
    }
  }

  /** One more entry: the loop goes on, or it stops there. */
  lemma FateAdded(view: P.View, claim: Claim, w: World, entries: seq<InstanceType>, compatible: Offering -> bool,
                  limitFallback: bool, fates: seq<Fate>, f: Fate)
    requires AllHandled(view, claim, w, entries, compatible, fates) && |fates| < |entries|
    requires AllSkipped(fates, limitFallback)
    requires Handled(view, claim, w, |fates|, entries[|fates|], compatible, f)
    ensures AllHandled(view, claim, w, entries, compatible, fates + [f])
    ensures Stops(entries, limitFallback, fates + [f]) || Skipped(f, limitFallback)
    ensures AllSkipped(fates + [f], limitFallback) <==> Skipped(f, limitFallback)
    ensures SomePlaced(fates + [f]) <==> SomePlaced(fates) || f.Placed?
  {
    var more := fates + [f];
    assert more[|fates|] == f && more[..|fates|] == fates;
    PlacedAmong(fates, f);
  }

  method TryEntries(placement: P.PlacementProvider, claim: Claim, entries: seq<InstanceType>,
                    compatible: Offering -> bool,
                    w: World, limitFallback: bool) returns (fates: seq<Fate>, skipped: bool)
    requires placement.Valid()
    modifies placement, placement.instancesByNodePool.Values
    ensures placement.Valid()
    ensures fresh(placement.instancesByNodePool.Values - old(placement.instancesByNodePool.Values))
    ensures OnlyClaimGoes(placement, claim)
    ensures AllHandled(old(placement.ViewOf(claim.pool)), claim, w, entries, compatible, fates)
    ensures Stops(entries, limitFallback, fates)
    ensures AllSkipped(fates, limitFallback) ==> (skipped <==> SomePlaced(fates))
  {
    fates, skipped := [], false;
    ghost var view := placement.ViewOf(claim.pool);
    for n := 0 to |entries|
      invariant placement.Valid()
      invariant fresh(placement.instancesByNodePool.Values - old(placement.instancesByNodePool.Values))
      invariant OnlyClaimGoes(placement, claim)
      invariant |fates| == n && AllHandled(view, claim, w, entries, compatible, fates)
      invariant AllSkipped(fates, limitFallback) && (skipped <==> SomePlaced(fates))
    {
      var f := TryEntry(placement, claim, w, n, entries[n], compatible, view);
      FateAdded(view, claim, w, entries, compatible, limitFallback, fates, f);
      fates := fates + [f];
      if !Skipped(f, limitFallback) {
        return;
      }
      skipped := skipped || f.Placed?;
    }
    assert fates != [] ==> AllSkipped(fates[..|fates| - 1], limitFallback);
  }

  lemma {:induction false} FatesLeaveOne(view: P.View, claim: Claim, w: World, entries: seq<InstanceType>,
                                         compatible: Offering -> bool, limitFallback: bool, fates: seq<Fate>)
    requires AllHandled(view, claim, w, entries, compatible, fates)
    requires fates != [] ==> AllSkipped(fates[..|fates| - 1], limitFallback)
    ensures Successes(w, fates) == if fates != [] && Launches(fates[|fates| - 1]) then 1 else 0
    ensures fates != [] && Launches(fates[|fates| - 1]) ==>
              var last := |fates| - 1;
              && 0 < fates[last].tried <= |fates[last].order|
              && w.launch(last, fates[last].tried - 1, fates[last].order[fates[last].tried - 1]).Launched?
  {
    if fates != [] {
      var last := |fates| - 1;
      var front := fates[..last];
      if front != [] {
        assert Skipped(front[last - 1], limitFallback) && front[..last - 1] == fates[..last - 1];
      }
      FatesLeaveOne(view, claim, w, entries, compatible, limitFallback, front);
      if fates[last].Placed? {
        OneSuccess(view, claim, w, last, entries[last], compatible, fates[last]);
      }
    }
  }

  predicate Launches(f: Fate) { f.Placed? && f.result.None? }

  /** Tries the entries in order.  Over all proposals of all entries, one attempt leaves an instance if a node is
      created, and otherwise none does. */
  method LaunchFirst(placement: P.PlacementProvider, claim: Claim, entries: seq<InstanceType>,
                     compatible: Offering -> bool, w: World, limitFallback: bool)
      returns (r: Created, fates: seq<Fate>)
    requires placement.Valid()
    modifies placement, placement.instancesByNodePool.Values
    ensures placement.Valid()
    ensures fresh(placement.instancesByNodePool.Values - old(placement.instancesByNodePool.Values))
    ensures OnlyClaimGoes(placement, claim)
    ensures AllHandled(old(placement.ViewOf(claim.pool)), claim, w, entries, compatible, fates)
    ensures Ends(w, entries, limitFallback, fates, r)
    ensures Successes(w, fates) == if r.Node? then 1 else 0
  {
    var skipped;
    fates, skipped := TryEntries(placement, claim, entries, compatible, w, limitFallback);
    FatesLeaveOne(old(placement.ViewOf(claim.pool)), claim, w, entries, compatible, limitFallback, fates);
    r := Conclude(entries, w, limitFallback, fates, skipped);
  }

  /** What the loop and the code after it make of the fates. */
  method Conclude(entries: seq<InstanceType>, w: World, limitFallback: bool, fates: seq<Fate>, skipped: bool)
      returns (r: Created)
    requires Stops(entries, limitFallback, fates)
    requires AllSkipped(fates, limitFallback) ==> (skipped <==> SomePlaced(fates))
    requires fates != [] && Launches(fates[|fates| - 1]) ==>
               var last := |fates| - 1;
               && 0 < fates[last].tried <= |fates[last].order|
               && w.launch(last, fates[last].tried - 1, fates[last].order[fates[last].tried - 1]).Launched?
    ensures Ends(w, entries, limitFallback, fates, r)
  {
    if fates == [] {
      return InsufficientCapacity;
    }
    var n := |fates| - 1;
    var f := fates[n];
    if !Skipped(f, limitFallback) {
      if f.result.None? {
        return Node(w.launch(n, f.tried - 1, f.order[f.tried - 1]).instance, n);
      }
      return if f.result.value == Panic then Panicked else LaunchFailed(f.result.value);
    }
    r := if skipped then InsufficientCapacity else NothingLaunched;
  }

  /** Entry `k` costs less than entry `n`. */
  predicate Cheaper(compatible: Offering -> bool, entries: seq<InstanceType>, k: nat, n: nat)
    requires k < |entries| && n < |entries|
  {
    PriceBelow(PriceOf(entries[k], compatible), PriceOf(entries[n], compatible))
  }

  /** What is cheaper than the entry that launched was tried before it and skipped. */
  lemma CheaperSkipped(compatible: Offering -> bool, entries: seq<InstanceType>, w: World, limitFallback: bool,
                       fates: seq<Fate>, r: Created)
    requires Rising(compatible, entries) && Ends(w, entries, limitFallback, fates, r) && r.Node?
    ensures forall k: nat :: k < |entries| && Cheaper(compatible, entries, k, r.entry) ==>
              k < r.entry && Skipped(fates[k], limitFallback)
  {
    var n := r.entry;
    forall k: nat | n < k < |entries| ensures !Cheaper(compatible, entries, k, n) {
      assert CheaperFirst(compatible)(entries[n], entries[k]);
    }
    forall k: nat | k < n ensures Skipped(fates[k], limitFallback) {
      assert fates[..n][k] == fates[k];
    }
  }

  /** The loop, and then a node is made known to placement. */
  method LaunchAndTrack(placement: P.PlacementProvider, claim: Claim, entries: seq<InstanceType>,
                        compatible: Offering -> bool, w: World, limitFallback: bool)
      returns (r: Created, fates: seq<Fate>)
    requires placement.Valid()
    modifies placement, placement.instancesByNodePool.Values
    ensures placement.Valid()
    ensures AllHandled(old(placement.ViewOf(claim.pool)), claim, w, entries, compatible, fates)
    ensures Ends(w, entries, limitFallback, fates, r)
    ensures Successes(w, fates) == if r.Node? then 1 else 0
    ensures forall other :: other != claim.pool ==> placement.ViewOf(other) == old(placement.ViewOf(other))
    ensures claim.name !in old(placement.ViewOf(claim.pool)) ==>
              placement.ViewOf(claim.pool) == Tracked(old(placement.ViewOf(claim.pool)), r)
  {
    ghost var was := placement.ViewOf(claim.pool);
    r, fates := LaunchFirst(placement, claim, entries, compatible, w, limitFallback);
    assert claim.name !in was ==> was - {claim.name} == was;
    if r.Node? {
      placement.InstanceFound(claim.pool, Some(r.instance));
    }
  }

  function Tracked(view: P.View, r: Created): P.View {
    if r.Node? then P.Known(view, r.instance.id, r.instance.summary) else view
  }

  /** One launch at most, and a node is one of the cheapest that can be launched: every entry of a lower price found no
      image, or failed in a way that may be skipped.  The instance is then known to placement. */
  method Create(placement: P.PlacementProvider, claim: Claim, types: seq<InstanceType>, compatible: Offering -> bool,
                w: World, limitFallback: bool) returns (r: Created, entries: seq<InstanceType>, fates: seq<Fate>)
    requires placement.Valid()
    modifies placement, placement.instancesByNodePool.Values
    ensures placement.Valid()
    ensures OrderedByPrice(types, compatible, entries)
    ensures AllHandled(old(placement.ViewOf(claim.pool)), claim, w, entries, compatible, fates)
    ensures Ends(w, entries, limitFallback, fates, r)
    ensures Successes(w, fates) == if r.Node? then 1 else 0
    ensures r.Node? ==>
              forall k: nat :: k < |entries| && Cheaper(compatible, entries, k, r.entry) ==>
                k < r.entry && Skipped(fates[k], limitFallback)
    ensures forall other :: other != claim.pool ==> placement.ViewOf(other) == old(placement.ViewOf(other))
    ensures claim.name !in old(placement.ViewOf(claim.pool)) ==>
              placement.ViewOf(claim.pool) == Tracked(old(placement.ViewOf(claim.pool)), r)
  {
    entries := OrderInstanceTypesByPrice(types, compatible);
    r, fates := LaunchAndTrack(placement, claim, entries, compatible, w, limitFallback);
    if r.Node? {
      CheaperSkipped(compatible, entries, w, limitFallback, fates, r);
    }
  }
}
