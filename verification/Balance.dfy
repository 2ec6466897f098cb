/** Placing where the count is least, over whole runs: how uneven the counts of a fixed set of sites can get. */
module Balance {

  /** Site `i` has the least count. */
  ghost predicate LeastLoaded(loads: seq<nat>, i: nat) {
    i < |loads| && forall j :: 0 <= j < |loads| ==> loads[i] <= loads[j]
  }

  function PlaceAt(loads: seq<nat>, i: nat): seq<nat>
    requires i < |loads|
  {
    loads[i := loads[i] + 1]
  }

  /** The counts differ by at most `d`. */
  ghost predicate Within(loads: seq<nat>, d: nat) {
    forall i, j :: 0 <= i < |loads| && 0 <= j < |loads| ==> loads[i] <= loads[j] + d
  }

  /** A run of placements, each where the count is least at that moment. */
  ghost predicate Greedy(loads: seq<nat>, sites: seq<nat>)
    decreases |sites|
  {
    sites == [] || (LeastLoaded(loads, sites[0]) && Greedy(PlaceAt(loads, sites[0]), sites[1..]))
  }

  ghost function Final(loads: seq<nat>, sites: seq<nat>): seq<nat>
    requires Greedy(loads, sites)
    decreases |sites|
  {
    if sites == [] then loads else Final(PlaceAt(loads, sites[0]), sites[1..])
  }

  function Max(loads: seq<nat>): nat {
    if loads == [] then 0
    else
      var rest := Max(loads[..|loads| - 1]);
      if loads[|loads| - 1] > rest then loads[|loads| - 1] else rest
  }

  /** How many placements would bring every count up to `level`. */
  function Deficit(loads: seq<nat>, level: nat): nat {
    if loads == [] then 0
    else
      var last := loads[|loads| - 1];
      Deficit(loads[..|loads| - 1], level) + if last < level then level - last else 0
  }

  lemma {:induction false} MaxBounds(loads: seq<nat>)
    ensures forall i :: 0 <= i < |loads| ==> loads[i] <= Max(loads)
    ensures loads != [] ==> Max(loads) in loads
  {
    if loads != [] {
      MaxBounds(loads[..|loads| - 1]);
    }
  }

  lemma {:induction false} DeficitZero(loads: seq<nat>, level: nat)
    ensures Deficit(loads, level) == 0 <==> forall i :: 0 <= i < |loads| ==> level <= loads[i]
  {
    if loads != [] {
      DeficitZero(loads[..|loads| - 1], level);
    }
  }

  lemma {:induction false} DeficitPlaced(loads: seq<nat>, level: nat, i: nat)
    requires i < |loads|
    ensures Deficit(PlaceAt(loads, i), level) == Deficit(loads, level) - (if loads[i] < level then 1 else 0)
  {
    var n := |loads| - 1;
    if i < n {
      DeficitPlaced(loads[..n], level, i);
      assert PlaceAt(loads, i)[..n] == PlaceAt(loads[..n], i);
    } else {
      assert PlaceAt(loads, i)[..n] == loads[..n];
    }
  }

  /** The spread never grows beyond what it was, or beyond one. */
  lemma {:induction false} SpreadNeverGrows(loads: seq<nat>, sites: seq<nat>, d: nat)
    requires Greedy(loads, sites) && Within(loads, d) && d >= 1
    ensures Within(Final(loads, sites), d)
    decreases |sites|
  {
    if sites != [] {
      SpreadNeverGrows(PlaceAt(loads, sites[0]), sites[1..], d);
    }
  }

  /** A run of exactly as many placements as are missing to the highest count fills every site up to it. */
  lemma {:induction false} FillsUp(loads: seq<nat>, sites: seq<nat>, level: nat)
    requires Greedy(loads, sites) && |sites| == Deficit(loads, level)
    requires forall i :: 0 <= i < |loads| ==> loads[i] <= level
    ensures |Final(loads, sites)| == |loads|
    ensures forall i :: 0 <= i < |loads| ==> Final(loads, sites)[i] == level
    decreases |sites|
  {
    DeficitZero(loads, level);
    if sites != [] {
      DeficitPlaced(loads, level, sites[0]);
      FillsUp(PlaceAt(loads, sites[0]), sites[1..], level);
    }
  }

  lemma {:induction false} FinalSplits(loads: seq<nat>, sites: seq<nat>, n: nat)
    requires Greedy(loads, sites) && n <= |sites|
    ensures Greedy(loads, sites[..n]) && Greedy(Final(loads, sites[..n]), sites[n..])
    ensures Final(loads, sites) == Final(Final(loads, sites[..n]), sites[n..])
    decreases |sites|
  {
    if n > 0 {
      FinalSplits(PlaceAt(loads, sites[0]), sites[1..], n - 1);
      assert sites[1..][..n - 1] == sites[..n][1..] && sites[1..][n - 1..] == sites[n..];
    } else {
      assert sites[n..] == sites;
    }
  }

  /** After as many placements as the counts fall short of the highest, and ever after, they differ by at most one. */
  lemma BalancedInTheEnd(loads: seq<nat>, sites: seq<nat>)
    requires Greedy(loads, sites) && |sites| >= Deficit(loads, Max(loads))
    ensures Within(Final(loads, sites), 1)
  {
    var n := Deficit(loads, Max(loads));
    MaxBounds(loads);
    FinalSplits(loads, sites, n);
    FillsUp(loads, sites[..n], Max(loads));
    SpreadNeverGrows(Final(loads, sites[..n]), sites[n..], 1);
  }

  // ---- Runs in which attempts fail ----

  /** Attempts failed at the sites in `failed`, and then one succeeded at `site`. */
  datatype Step = Step(failed: set<nat>, site: nat)

  /** Attempts go from the least loaded site up: none that failed has more than the one that succeeded, and none that
      did not fail has less. */
  ghost predicate FallsBack(loads: seq<nat>, s: Step) {
    && s.site < |loads|
    && (forall i :: i in s.failed ==> i < |loads| && loads[i] <= loads[s.site])
    && (forall j :: 0 <= j < |loads| && j !in s.failed ==> loads[s.site] <= loads[j])
  }

  ghost predicate Run(loads: seq<nat>, steps: seq<Step>)
    decreases |steps|
  {
    steps == [] || (FallsBack(loads, steps[0]) && Run(PlaceAt(loads, steps[0].site), steps[1..]))
  }

  ghost function After(loads: seq<nat>, steps: seq<Step>): (after: seq<nat>)
    requires Run(loads, steps)
    ensures |after| == |loads|
    decreases |steps|
  {
    if steps == [] then loads else After(PlaceAt(loads, steps[0].site), steps[1..])
  }

  /** Different sites, by their numbers. */
  ghost predicate Distinct(ws: seq<nat>, n: nat) {
    && (forall k :: 0 <= k < |ws| ==> ws[k] < n)
    && (forall k, l :: 0 <= k < l < |ws| ==> ws[k] != ws[l])
  }

  function Project(loads: seq<nat>, ws: seq<nat>): (p: seq<nat>)
    requires forall k :: 0 <= k < |ws| ==> ws[k] < |loads|
    ensures |p| == |ws| && forall k :: 0 <= k < |ws| ==> p[k] == loads[ws[k]]
  {
    seq(|ws|, k requires 0 <= k < |ws| => loads[ws[k]])
  }

  function Position(ws: seq<nat>, w: nat): (k: nat)
    requires w in ws
    ensures k < |ws| && ws[k] == w
  {
    if ws[0] == w then 0 else 1 + Position(ws[1..], w)
  }

  /** The placements at the sites `ws`, by their positions there. */
  function StepsAt(steps: seq<Step>, ws: seq<nat>): seq<nat>
    decreases |steps|
  {
    if steps == [] then []
    else (if steps[0].site in ws then [Position(ws, steps[0].site)] else []) + StepsAt(steps[1..], ws)
  }

  /** No attempt failed at any of the sites `ws`. */
  ghost predicate NeverFailed(steps: seq<Step>, ws: seq<nat>) {
    forall s, w :: s in steps && w in ws ==> w !in s.failed
  }

  lemma StepAt(loads: seq<nat>, s: Step, ws: seq<nat>)
    requires FallsBack(loads, s) && Distinct(ws, |loads|) && forall w :: w in ws ==> w !in s.failed
    ensures s.site in ws ==>
              && LeastLoaded(Project(loads, ws), Position(ws, s.site))
              && Project(PlaceAt(loads, s.site), ws) == PlaceAt(Project(loads, ws), Position(ws, s.site))
    ensures s.site !in ws ==> Project(PlaceAt(loads, s.site), ws) == Project(loads, ws)
  {
    forall k | 0 <= k < |ws| ensures ws[k] !in s.failed && (s.site in ws ==> loads[s.site] <= loads[ws[k]]) {
      assert ws[k] in ws;
    }
  }

  /** Seen from sites at which nothing fails, a run with failures elsewhere places where the count is least. */
  lemma {:induction false} RunIsGreedyAt(loads: seq<nat>, steps: seq<Step>, ws: seq<nat>)
    requires Run(loads, steps) && Distinct(ws, |loads|) && NeverFailed(steps, ws)
    ensures Greedy(Project(loads, ws), StepsAt(steps, ws))
    ensures Final(Project(loads, ws), StepsAt(steps, ws)) == Project(After(loads, steps), ws)
    decreases |steps|
  {
    if steps != [] {
      var s, next := steps[0], PlaceAt(loads, steps[0].site);
      assert s in steps && forall t :: t in steps[1..] ==> t in steps;
      RunIsGreedyAt(next, steps[1..], ws);
      StepAt(loads, s, ws);
      var rest := StepsAt(steps[1..], ws);
      assert StepsAt(steps, ws) == if s.site in ws then [Position(ws, s.site)] + rest else rest;
      assert s.site in ws ==> StepsAt(steps, ws)[1..] == rest;
    }
  }

  /** Over any sites at which no attempt failed, whatever failed elsewhere, the spread never grows beyond what it was,
      or beyond one; and it is at most one once they got as many placements as they fell short of their own highest. */
  lemma FallbackBalances(loads: seq<nat>, steps: seq<Step>, ws: seq<nat>, d: nat)
    requires Run(loads, steps) && Distinct(ws, |loads|) && NeverFailed(steps, ws)
    requires Within(Project(loads, ws), d) && d >= 1
    ensures Within(Project(After(loads, steps), ws), d)
    ensures |StepsAt(steps, ws)| >= Deficit(Project(loads, ws), Max(Project(loads, ws))) ==>
              Within(Project(After(loads, steps), ws), 1)
  {
    RunIsGreedyAt(loads, steps, ws);
    SpreadNeverGrows(Project(loads, ws), StepsAt(steps, ws), d);
    if |StepsAt(steps, ws)| >= Deficit(Project(loads, ws), Max(Project(loads, ws))) {
      BalancedInTheEnd(Project(loads, ws), StepsAt(steps, ws));
    }
  }

  /** Two sites, of which the first refuses twice: both placements go to the second. */
  lemma RefusalUnbalances()
    ensures var steps := [Step({0}, 1), Step({0}, 1)];
            Run([0, 0], steps) && After([0, 0], steps) == [0, 2] && !Within(After([0, 0], steps), 1)
  {
    var steps := [Step({0}, 1), Step({0}, 1)];
    assert FallsBack([0, 0], steps[0]) && PlaceAt([0, 0], 1) == [0, 1];
    assert FallsBack([0, 1], steps[1]) && PlaceAt([0, 1], 1) == [0, 2];
    assert steps[1..] == [Step({0}, 1)] && steps[1..][1..] == [];
    assert Run([0, 2], []) && After([0, 2], []) == [0, 2];
    assert Run([0, 1], steps[1..]) && After([0, 1], steps[1..]) == [0, 2];
    var after: seq<nat> := [0, 2];
    assert after[1] > after[0] + 1;
  }

  /** Whether an attempt fails depends on its site alone: those in `refuses` always fail. */
  ghost predicate DecidedBy(steps: seq<Step>, refuses: set<nat>) {
    forall s :: s in steps ==> s.failed <= refuses && s.site !in refuses
  }

  /** Where no site or every site refuses, the spread over all sites is bounded. */
  lemma NoneOrAllRefuse(loads: seq<nat>, steps: seq<Step>, refuses: set<nat>, d: nat)
    requires Run(loads, steps) && DecidedBy(steps, refuses) && Within(loads, d) && d >= 1
    requires refuses == {} || forall i :: 0 <= i < |loads| ==> i in refuses
    ensures Within(After(loads, steps), d)
  {
    if steps != [] {
      SomeSiteAccepts(loads, steps, refuses);
      var ws: seq<nat> := seq(|loads|, k requires 0 <= k => k);
      assert Project(loads, ws) == loads && Project(After(loads, steps), ws) == After(loads, steps);
      FallbackBalances(loads, steps, ws, d);
    }
  }

  lemma SomeSiteAccepts(loads: seq<nat>, steps: seq<Step>, refuses: set<nat>)
    requires Run(loads, steps) && DecidedBy(steps, refuses) && steps != []
    ensures exists i: nat :: i < |loads| && i !in refuses
  {
    assert steps[0] in steps && FallsBack(loads, steps[0]);
  }

  /** One for every site but `r`. */
  function AllBut(n: nat, r: nat): (loads: seq<nat>)
    ensures |loads| == n && forall i :: 0 <= i < n ==> loads[i] == if i == r then 0 else 1
  {
    seq(n, i => if i == r then 0 else 1)
  }

  /** If one site refuses and another does not, a single placement can widen a spread of one. */
  lemma OneRefuses(n: nat, r: nat, s: nat)
    requires r < n && s < n && r != s
    ensures Within(AllBut(n, r), 1) && FallsBack(AllBut(n, r), Step({r}, s))
    ensures !Within(PlaceAt(AllBut(n, r), s), 1)
  {
    var after := PlaceAt(AllBut(n, r), s);
    assert after[s] == 2 && after[r] == 0;
  }
}
