/** Balance over runs of placements: what the retry loop of module `Placement` does to the counts of a set of sites. */
module PlacementBalance {
  import opened Common
  import opened LaunchErrors
  import opened Placement
  import opened Balance

  datatype Site = Site(ad: string, fd: Option<string>)

  function SiteOf(p: Proposal): Site { Site(p.ad, p.fd) }

  /** No instance is at two sites. */
  predicate Independent(sites: seq<Site>) {
    forall i, j :: 0 <= i < |sites| && 0 <= j < |sites| && i != j ==>
      || sites[i].ad != sites[j].ad
      || (sites[i].fd.Some? && sites[j].fd.Some? && sites[i].fd.value != sites[j].fd.value)
  }

  ghost function Loads(view: View, sites: seq<Site>): (loads: seq<nat>)
    ensures |loads| == |sites|
    ensures forall i :: 0 <= i < |sites| ==> loads[i] == |Where(view, sites[i].ad, sites[i].fd)|
  {
    seq(|sites|, i requires 0 <= i < |sites| => |Where(view, sites[i].ad, sites[i].fd)|)
  }

  /** A new instance adds one at its site and nothing elsewhere. */
  lemma FoundAddsOne(view: View, sites: seq<Site>, site: nat, i: Instance)
    requires Independent(sites) && site < |sites| && i.id !in view && At(i.summary, sites[site].ad, sites[site].fd)
    ensures Loads(Known(view, i.id, i.summary), sites) == PlaceAt(Loads(view, sites), site)
  {
    var after := Known(view, i.id, i.summary);
    assert after - {i.id} == view;
    forall j | 0 <= j < |sites| ensures Loads(after, sites)[j] == PlaceAt(Loads(view, sites), site)[j] {
      WhereSplit(after, i.id, sites[j].ad, sites[j].fd);
    }
  }

  ghost predicate Proposes(order: seq<Proposal>, s: Site) {
    exists k :: 0 <= k < |order| && SiteOf(order[k]) == s
  }

  /** There is a proposal for each of these sites. */
  ghost predicate Covers(order: seq<Proposal>, sites: seq<Site>) {
    forall i :: 0 <= i < |sites| ==> Proposes(order, sites[i])
  }

  /** A placement that succeeded: it tried the first `tried` of `order`, and the last of them gave `instance`, which was
      found at `sites[site]`. */
  datatype Placing = Placing(
    claim: string, place: (nat, Proposal) -> Option<LaunchError>, order: seq<Proposal>, tried: nat, site: nat,
    instance: Instance)

  ghost predicate Placed(view: View, sites: seq<Site>, p: Placing) {
    && p.claim !in view
    && Outcome(view, p.claim, p.place, p.order, p.tried, None, view - {p.claim})
    && Covers(p.order, sites)
    && p.site < |sites| && sites[p.site] == SiteOf(p.order[p.tried - 1])
    && At(p.instance.summary, sites[p.site].ad, sites[p.site].fd)
    && p.instance.id !in view
  }

  /** An attempt at the site failed. */
  ghost predicate FailedAt(p: Placing, s: Site) {
    exists k :: 0 <= k < p.tried - 1 && k < |p.order| && SiteOf(p.order[k]) == s
  }

  ghost function StepOf(sites: seq<Site>, p: Placing): Step {
    Step((set i: nat | i < |sites| && FailedAt(p, sites[i])), p.site)
  }

  ghost function StepsOf(sites: seq<Site>, run: seq<Placing>): (steps: seq<Step>)
    ensures |steps| == |run| && forall k :: 0 <= k < |run| ==> steps[k] == StepOf(sites, run[k])
  {
    seq(|run|, k requires 0 <= k < |run| => StepOf(sites, run[k]))
  }

  function Found(view: View, p: Placing): View { Known(view, p.instance.id, p.instance.summary) }

  /** One placement after the other, each instance being found before the next. */
  ghost predicate PlacedRun(view: View, sites: seq<Site>, run: seq<Placing>)
    decreases |run|
  {
    run == [] || (Placed(view, sites, run[0]) && PlacedRun(Found(view, run[0]), sites, run[1..]))
  }

  function ViewAfter(view: View, run: seq<Placing>): View
    decreases |run|
  {
    if run == [] then view else ViewAfter(Found(view, run[0]), run[1..])
  }

  /** Where the last try went has no less than where an earlier one went, and no more than where others would have. */
  lemma LastTried(view: View, sites: seq<Site>, claim: string, order: seq<Proposal>, tried: nat, site: nat, i: nat,
                  k: nat)
    requires claim !in view && TriedInOrder(view, claim, order, tried) && 0 < tried && k < |order|
    requires site < |sites| && sites[site] == SiteOf(order[tried - 1]) && i < |sites| && sites[i] == SiteOf(order[k])
    ensures var loads := Loads(view, sites);
            if k < tried - 1 then loads[i] <= loads[site] else loads[site] <= loads[i]
  {
    assert view - {claim} == view;
    assert ViewAt(view, claim, k) == view && ViewAt(view, claim, tried - 1) == view;
    assert if k < tried - 1 then NoMore(view, order[k], order[tried - 1]) else NoMore(view, order[tried - 1], order[k]);
  }

  /** A placement goes to a site with the least count of those at which no attempt failed. */
  lemma PlacedFallsBack(view: View, sites: seq<Site>, p: Placing)
    requires Placed(view, sites, p)
    ensures FallsBack(Loads(view, sites), StepOf(sites, p))
  {
    var loads, failed := Loads(view, sites), StepOf(sites, p).failed;
    forall i | i in failed ensures i < |loads| && loads[i] <= loads[p.site] {
      var k :| 0 <= k < p.tried - 1 && k < |p.order| && SiteOf(p.order[k]) == sites[i];
      LastTried(view, sites, p.claim, p.order, p.tried, p.site, i, k);
    }
    forall j | 0 <= j < |loads| && j !in failed ensures loads[p.site] <= loads[j] {
      assert Proposes(p.order, sites[j]) && !FailedAt(p, sites[j]);
      var k :| 0 <= k < |p.order| && SiteOf(p.order[k]) == sites[j];
      LastTried(view, sites, p.claim, p.order, p.tried, p.site, j, k);
    }
  }

  /** What is tried first is at a site with the least count. */
  lemma FirstTryIsLeastLoaded(view: View, claim: string, order: seq<Proposal>, tried: nat, sites: seq<Site>, i: nat)
    requires tried > 0 && TriedInOrder(view, claim, order, tried) && Covers(order, sites)
    requires i < |sites| && sites[i] == SiteOf(order[0])
    ensures LeastLoaded(Loads(view, sites), i)
  {
    assert ViewAt(view, claim, 0) == view;
    forall j | 0 <= j < |sites| ensures Loads(view, sites)[i] <= Loads(view, sites)[j] {
      assert Proposes(order, sites[j]);
      var k :| 0 <= k < |order| && SiteOf(order[k]) == sites[j];
      assert NoMore(view, order[0], order[k]);
    }
  }

  lemma {:induction false} RunFallsBack(view: View, sites: seq<Site>, run: seq<Placing>)
    requires Independent(sites) && PlacedRun(view, sites, run)
    ensures Run(Loads(view, sites), StepsOf(sites, run))
    ensures After(Loads(view, sites), StepsOf(sites, run)) == Loads(ViewAfter(view, run), sites)
    decreases |run|
  {
    if run != [] {
      PlacedFallsBack(view, sites, run[0]);
      FoundAddsOne(view, sites, run[0].site, run[0].instance);
      RunFallsBack(Found(view, run[0]), sites, run[1..]);
      assert StepsOf(sites, run)[1..] == StepsOf(sites, run[1..]);
    }
  }

  /** No attempt of the run failed at any of the sites `ws`. */
  ghost predicate NoneFailedAt(sites: seq<Site>, run: seq<Placing>, ws: seq<nat>) {
    forall p, w :: p in run && w in ws && w < |sites| ==> !FailedAt(p, sites[w])
  }

  /** Whatever fails elsewhere: over sites at which no attempt failed, the counts never differ by more than they did, or
      by one; and they differ by at most one once as many instances were placed there as these sites fell short of the
      highest of them. */
  lemma PlacementsBalance(view: View, sites: seq<Site>, run: seq<Placing>, ws: seq<nat>, d: nat)
    requires Independent(sites) && PlacedRun(view, sites, run)
    requires Distinct(ws, |sites|) && NoneFailedAt(sites, run, ws)
    requires Within(Project(Loads(view, sites), ws), d) && d >= 1
    ensures Within(Project(Loads(ViewAfter(view, run), sites), ws), d)
    ensures var before := Project(Loads(view, sites), ws);
            |StepsAt(StepsOf(sites, run), ws)| >= Deficit(before, Max(before)) ==>
              Within(Project(Loads(ViewAfter(view, run), sites), ws), 1)
  {
    RunFallsBack(view, sites, run);
    var steps := StepsOf(sites, run);
    forall s, w | s in steps && w in ws ensures w !in s.failed {
      var k :| 0 <= k < |steps| && steps[k] == s;
      assert run[k] in run;
    }
    FallbackBalances(Loads(view, sites), steps, ws, d);
  }

  // ---- When the sites decide which attempts fail ----

  ghost predicate Refused(sites: seq<Site>, refuses: set<nat>, s: Site) {
    exists i: nat :: i < |sites| && i in refuses && sites[i] == s
  }

  /** An attempt fails exactly if its site refuses. */
  ghost predicate Decided(sites: seq<Site>, p: Placing, refuses: set<nat>) {
    forall k: nat :: k < |p.order| ==> (p.place(k, p.order[k]).Some? <==> Refused(sites, refuses, SiteOf(p.order[k])))
  }

  ghost predicate DecidedBySite(sites: seq<Site>, run: seq<Placing>, refuses: set<nat>) {
    forall p :: p in run ==> Decided(sites, p, refuses)
  }

  /** From every view, over every run with these refusals, the spread over all sites stays bounded. */
  ghost predicate Balances(sites: seq<Site>, refuses: set<nat>) {
    forall view, run, d: nat ::
      PlacedRun(view, sites, run) && DecidedBySite(sites, run, refuses) && d >= 1 && Within(Loads(view, sites), d) ==>
        Within(Loads(ViewAfter(view, run), sites), d)
  }

  lemma RefusedIs(sites: seq<Site>, refuses: set<nat>, i: nat)
    requires Independent(sites) && i < |sites|
    ensures Refused(sites, refuses, sites[i]) <==> i in refuses
  {
  }

  lemma DecidedStep(sites: seq<Site>, view: View, p: Placing, refuses: set<nat>)
    requires Independent(sites) && Placed(view, sites, p) && Decided(sites, p, refuses)
    ensures StepOf(sites, p).failed <= refuses && p.site !in refuses
  {
    RefusedIs(sites, refuses, p.site);
    forall i | i in StepOf(sites, p).failed ensures i in refuses {
      var k: nat :| 0 <= k < p.tried - 1 && k < |p.order| && SiteOf(p.order[k]) == sites[i];
      assert p.place(k, p.order[k]).Some?;
      RefusedIs(sites, refuses, i);
    }
  }

  lemma {:induction false} DecidedSteps(sites: seq<Site>, view: View, run: seq<Placing>, refuses: set<nat>)
    requires Independent(sites) && PlacedRun(view, sites, run) && DecidedBySite(sites, run, refuses)
    ensures DecidedBy(StepsOf(sites, run), refuses)
    decreases |run|
  {
    if run != [] {
      assert run[0] in run && forall p :: p in run[1..] ==> p in run;
      DecidedStep(sites, view, run[0], refuses);
      DecidedSteps(sites, Found(view, run[0]), run[1..], refuses);
      assert StepsOf(sites, run) == [StepOf(sites, run[0])] + StepsOf(sites, run[1..]);
    }
  }

  // ---- A view in which one refusal unbalances ----

  function Name(k: nat): (name: string)
    ensures |name| == k
  {
    if k == 0 then "" else Name(k - 1) + "x"
  }

  function SummaryAt(s: Site): (summary: InstanceSummary)
    ensures At(summary, s.ad, s.fd)
  {
    InstanceSummary(s.ad, if s.fd.Some? then s.fd.value else "", "", None)
  }

  /** An instance at each of the first `k` sites but `r`. */
  function Filled(sites: seq<Site>, r: nat, k: nat): View
    requires k <= |sites|
  {
    if k == 0 then map[]
    else if k - 1 == r then Filled(sites, r, k - 1)
    else Known(Filled(sites, r, k - 1), Name(k - 1), SummaryAt(sites[k - 1]))
  }

  lemma {:induction false} FilledLoads(sites: seq<Site>, r: nat, k: nat)
    requires Independent(sites) && k <= |sites|
    ensures forall id :: id in Filled(sites, r, k) ==> |id| < k
    ensures forall i :: 0 <= i < |sites| ==> Loads(Filled(sites, r, k), sites)[i] == if i < k && i != r then 1 else 0
  {
    if k > 0 {
      FilledLoads(sites, r, k - 1);
      if k - 1 != r {
        FoundAddsOne(Filled(sites, r, k - 1), sites, k - 1, Instance(Name(k - 1), SummaryAt(sites[k - 1])));
      }
    }
  }

  function ProposalAt(s: Site, claim: string): (p: Proposal)
    ensures SiteOf(p) == s
  {
    Proposal(s.ad, s.fd, None, None, None, claim)
  }

  /** First `r`, then `s`, then all but `r`. */
  function Turn(r: nat, s: nat, j: nat): nat {
    if j == 0 then r else if j == 1 || j - 2 == r then s else j - 2
  }

  function Order(sites: seq<Site>, r: nat, s: nat, claim: string): (order: seq<Proposal>)
    requires r < |sites| && s < |sites|
    ensures |order| == |sites| + 2 && forall j :: 0 <= j < |order| ==> SiteOf(order[j]) == sites[Turn(r, s, j)]
  {
    seq(|sites| + 2, j requires 0 <= j < |sites| + 2 => ProposalAt(sites[Turn(r, s, j)], claim))
  }

  /** Attempts fail exactly where sites refuse. */
  ghost function Refusing(sites: seq<Site>, refuses: set<nat>): (nat, Proposal) -> Option<LaunchError> {
    (k: nat, q: Proposal) => if Refused(sites, refuses, SiteOf(q)) then Some(Panic) else None
  }

  lemma RefusingStops(sites: seq<Site>, refuses: set<nat>, order: seq<Proposal>, r: nat, s: nat)
    requires Independent(sites) && r < |sites| && s < |sites| && r in refuses && s !in refuses
    requires |order| >= 2 && SiteOf(order[0]) == sites[r] && SiteOf(order[1]) == sites[s]
    ensures StopsAtFirstSuccess(Refusing(sites, refuses), order, 2, None)
  {
    RefusedIs(sites, refuses, r);
    RefusedIs(sites, refuses, s);
  }

  lemma OneRefusalPlaced(sites: seq<Site>, refuses: set<nat>, r: nat, s: nat) returns (view: View, p: Placing)
    requires Independent(sites) && r < |sites| && s < |sites| && r in refuses && s !in refuses
    ensures Placed(view, sites, p) && DecidedBySite(sites, [p], refuses) && p.site == s
    ensures Loads(view, sites) == AllBut(|sites|, r)
  {
    var name := Name(|sites|);
    view := Filled(sites, r, |sites|);
    FilledLoads(sites, r, |sites|);
    var order := Order(sites, r, s, name);
    p := Placing(name, Refusing(sites, refuses), order, 2, s, Instance(name, SummaryAt(sites[s])));
    OrderTried(view, sites, r, s, name);
    RefusingStops(sites, refuses, order, r, s);
    OrderCovers(sites, r, s, name);
  }

  lemma OrderCovers(sites: seq<Site>, r: nat, s: nat, claim: string)
    requires r < |sites| && s < |sites|
    ensures Covers(Order(sites, r, s, claim), sites)
  {
    var order := Order(sites, r, s, claim);
    forall i | 0 <= i < |sites| ensures Proposes(order, sites[i]) {
      var k := if i == r then 0 else i + 2;
      assert Turn(r, s, k) == i && SiteOf(order[k]) == sites[i];
    }
  }

  lemma OrderTried(view: View, sites: seq<Site>, r: nat, s: nat, claim: string)
    requires r < |sites| && s < |sites| && r != s && claim !in view
    requires Loads(view, sites) == AllBut(|sites|, r)
    ensures TriedInOrder(view, claim, Order(sites, r, s, claim), 2)
  {
    var order, loads := Order(sites, r, s, claim), Loads(view, sites);
    assert view - {claim} == view;
    forall k: nat, j: nat | k < 2 && k <= j < |order| ensures NoMore(ViewAt(view, claim, k), order[k], order[j]) {
      assert Load(view, order[j]) == loads[Turn(r, s, j)];
      assert Load(view, order[k]) == loads[Turn(r, s, k)];
    }
  }

  /** If attempts fail by their site, the spread over all sites is bounded, from every view and over every run, if and
      only if no site refuses or every site does. */
  lemma BalancesIffNoneOrAllRefuse(sites: seq<Site>, refuses: set<nat>)
    requires Independent(sites) && forall i :: i in refuses ==> i < |sites|
    ensures Balances(sites, refuses) <==> refuses == {} || forall i: nat :: i < |sites| ==> i in refuses
  {
    if refuses == {} || forall i: nat :: i < |sites| ==> i in refuses {
      forall view, run, d: nat | PlacedRun(view, sites, run) && DecidedBySite(sites, run, refuses) && d >= 1
          && Within(Loads(view, sites), d)
        ensures Within(Loads(ViewAfter(view, run), sites), d)
      {
        RunFallsBack(view, sites, run);
        DecidedSteps(sites, view, run, refuses);
        NoneOrAllRefuse(Loads(view, sites), StepsOf(sites, run), refuses, d);
      }
    } else {
      var r :| r in refuses;
      var s: nat :| s < |sites| && s !in refuses;
      OneRefuses(|sites|, r, s);
      var view, p := OneRefusalPlaced(sites, refuses, r, s);
      FoundAddsOne(view, sites, s, p.instance);
      assert PlacedRun(Found(view, p), sites, []) && [p][1..] == [] && [p][0] == p;
      assert PlacedRun(view, sites, [p]) && ViewAfter(view, [p]) == Found(view, p);
    }
  }
}
