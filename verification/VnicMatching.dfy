/**
 The secondary-VNIC check of drift detection as a matching problem.  The source walks the desired VNICs in order and
 gives each the first unused attached VNIC that fits it, in the arbitrary iteration order of a map.  `GreedyRun` says
 which choices such a walk can make; the lemmas say when its verdict is the right one.
 */
module VnicMatching {
  import opened Common

  datatype DesiredVnic = DesiredVnic(subnetId: string, nsgIds: seq<string>)

  /** `IsPrimary` is a pointer that may be nil in the source. */
  datatype Vnic = Vnic(id: string, subnetId: string, nsgIds: seq<string>, isPrimary: Option<bool>)

  predicate NsgIdsMatch(nsgIds: seq<string>, v: Vnic) {
    forall n :: n in nsgIds ==> n in v.nsgIds
  }

  predicate Matches(d: DesiredVnic, v: Vnic) {
    d.subnetId == v.subnetId && NsgIdsMatch(d.nsgIds, v)
  }

  ghost predicate Injective<T(!new)>(m: seq<T>) {
    forall i, j :: 0 <= i < j < |m| ==> m[i] != m[j]
  }

  /** `m[i]` is the key of the attached VNIC that serves desired VNIC `i`: every attached VNIC serves exactly one. */
  ghost predicate PerfectMatching(desired: seq<DesiredVnic>, existing: map<string, Vnic>, m: seq<string>) {
    && |m| == |desired| == |existing|
    && Injective(m)
    && (forall i :: 0 <= i < |m| ==> m[i] in existing && Matches(desired[i], existing[m[i]]))
  }

  /** The picks a run of the greedy loop can make.  It stops early exactly when nothing left fits the next desired
      VNIC; after a pick it deletes the entry under the picked VNIC's own id. */
  ghost predicate GreedyRun(desired: seq<DesiredVnic>, existing: map<string, Vnic>, picks: seq<string>)
    decreases |desired|
  {
    if desired == [] then picks == []
    else if picks == [] then forall k :: k in existing ==> !Matches(desired[0], existing[k])
    else
      && picks[0] in existing
      && Matches(desired[0], existing[picks[0]])
      && GreedyRun(desired[1..], existing - {existing[picks[0]].id}, picks[1..])
  }

  /** Each VNIC is filed under its own id, as the attachment's VNIC id and the fetched VNIC's id agree. */
  ghost predicate IdsAreKeys(existing: map<string, Vnic>) {
    forall k :: k in existing ==> existing[k].id == k
  }

  /** Whenever two desired VNICs compete for an attached one, all that fit the earlier fit the later too. */
  ghost predicate EarlierIsPickier(desired: seq<DesiredVnic>, existing: map<string, Vnic>) {
    forall i, j, k, l ::
      0 <= i < j < |desired| && k in existing && l in existing
      && Matches(desired[i], existing[k]) && Matches(desired[j], existing[k]) && Matches(desired[i], existing[l])
      ==> Matches(desired[j], existing[l])
  }

  /** The sets of attached VNICs that fit two desired ones are equal or disjoint. */
  ghost predicate EqualOrDisjoint(desired: seq<DesiredVnic>, existing: map<string, Vnic>) {
    forall i, j :: 0 <= i < |desired| && 0 <= j < |desired| ==>
      || (forall k :: k in existing ==> !(Matches(desired[i], existing[k]) && Matches(desired[j], existing[k])))
      || (forall k :: k in existing ==> (Matches(desired[i], existing[k]) <==> Matches(desired[j], existing[k])))
  }

  // ---- Soundness ----

  lemma {:induction false} PicksAreInjectiveMatches(desired: seq<DesiredVnic>, existing: map<string, Vnic>,
                                                   picks: seq<string>)
    requires IdsAreKeys(existing) && GreedyRun(desired, existing, picks)
    ensures |picks| <= |desired| && Injective(picks)
    ensures forall i :: 0 <= i < |picks| ==> picks[i] in existing && Matches(desired[i], existing[picks[i]])
    decreases |desired|
  {
    if picks != [] {
      var rest := existing - {picks[0]};
      PicksAreInjectiveMatches(desired[1..], rest, picks[1..]);
      forall i | 0 <= i < |picks| ensures picks[i] in existing && Matches(desired[i], existing[picks[i]]) {
        if i > 0 {
          assert picks[i] == picks[1..][i - 1] && desired[i] == desired[1..][i - 1];
        }
      }
      forall i, j | 0 <= i < j < |picks| ensures picks[i] != picks[j] {
        assert picks[j] == picks[1..][j - 1];
        if i > 0 {
          assert picks[i] == picks[1..][i - 1];
        }
      }
    }
  }

  /** A run that serves every desired VNIC, with as many attached ones, is a perfect matching. */
  lemma GreedySound(desired: seq<DesiredVnic>, existing: map<string, Vnic>, picks: seq<string>)
    requires IdsAreKeys(existing) && GreedyRun(desired, existing, picks)
    requires |picks| == |desired| == |existing|
    ensures PerfectMatching(desired, existing, picks)
  {
    PicksAreInjectiveMatches(desired, existing, picks);
  }

  // ---- Completeness ----

  /** Pigeonhole: an injective sequence of members of a set of its own size reaches every member. */
  lemma {:induction false} InjectiveReaches<T(!new)>(m: seq<T>, s: set<T>, x: T) returns (i: nat)
    requires Injective(m) && |m| == |s| && x in s
    requires forall i :: 0 <= i < |m| ==> m[i] in s
    ensures i < |m| && m[i] == x
  {
    i := |m| - 1;
    if m[i] != x {
      var front := m[..i];
      i := InjectiveReaches(front, s - {m[i]}, x);
    }
  }

  /** Taking `m[j]` out of an injective sequence by moving the first element into its place. */
  ghost function MoveFirst<T>(m: seq<T>, j: nat): seq<T>
    requires j < |m|
  {
    if j == 0 then m[1..] else m[1..][j - 1 := m[0]]
  }

  lemma MoveFirstFacts<T(!new)>(m: seq<T>, j: nat)
    requires j < |m| && Injective(m)
    ensures Injective(MoveFirst(m, j))
    ensures forall i :: 0 <= i < |m| - 1 ==> MoveFirst(m, j)[i] == (if i + 1 == j then m[0] else m[i + 1])
    ensures forall i :: 0 <= i < |m| - 1 ==> MoveFirst(m, j)[i] != m[j]
  {
  }

  lemma OneFewer(existing: map<string, Vnic>, x: string)
    requires x in existing
    ensures |existing - {x}| == |existing| - 1
  {
    assert (existing - {x}).Keys == existing.Keys - {x};
  }

  /** With `m[j]` moved to the first desired VNIC, every later one is served by another one that fits it. */
  lemma MoveFirstServes(desired: seq<DesiredVnic>, existing: map<string, Vnic>, m: seq<string>, j: nat, i: nat)
    requires PerfectMatching(desired, existing, m) && EarlierIsPickier(desired, existing)
    requires j < |m| && Matches(desired[0], existing[m[j]]) && i + 1 < |m|
    ensures var y := MoveFirst(m, j)[i]; y in existing && y != m[j] && Matches(desired[i + 1], existing[y])
  {
    MoveFirstFacts(m, j);
    assert Matches(desired[0], existing[m[0]]) && Matches(desired[i + 1], existing[m[i + 1]]);
  }

  /** Exchange: a perfect matching can be rearranged to serve the first desired VNIC with any that fits it. */
  lemma Exchange(desired: seq<DesiredVnic>, existing: map<string, Vnic>, m: seq<string>, x: string)
      returns (rest: seq<string>)
    requires desired != [] && PerfectMatching(desired, existing, m) && EarlierIsPickier(desired, existing)
    requires x in existing && Matches(desired[0], existing[x])
    ensures PerfectMatching(desired[1..], existing - {x}, rest)
  {
    var j := InjectiveReaches(m, existing.Keys, x);
    rest := MoveFirst(m, j);
    MoveFirstFacts(m, j);
    OneFewer(existing, x);
    forall i | 0 <= i < |rest| ensures rest[i] in existing - {x} && Matches(desired[1..][i], existing[rest[i]]) {
      MoveFirstServes(desired, existing, m, j, i);
    }
  }

  lemma {:induction false} GreedyCompleteFrom(desired: seq<DesiredVnic>, existing: map<string, Vnic>,
                                             picks: seq<string>, m: seq<string>)
    requires IdsAreKeys(existing) && GreedyRun(desired, existing, picks)
    requires PerfectMatching(desired, existing, m) && EarlierIsPickier(desired, existing)
    ensures |picks| == |desired|
    decreases |desired|
  {
    if desired != [] {
      assert Matches(desired[0], existing[m[0]]);
      var rest := Exchange(desired, existing, m, picks[0]);
      var fewer := existing - {picks[0]};
      assert EarlierIsPickier(desired[1..], fewer) by {
        forall i, j, k, l | 0 <= i < j < |desired[1..]| && k in fewer && l in fewer
            && Matches(desired[1..][i], fewer[k]) && Matches(desired[1..][j], fewer[k])
            && Matches(desired[1..][i], fewer[l])
          ensures Matches(desired[1..][j], fewer[l])
        {
          assert Matches(desired[i + 1], existing[k]) && Matches(desired[j + 1], existing[k]);
        }
      }
      GreedyCompleteFrom(desired[1..], fewer, picks[1..], rest);
    }
  }

  lemma EqualOrDisjointIsPickier(desired: seq<DesiredVnic>, existing: map<string, Vnic>)
    requires EqualOrDisjoint(desired, existing)
    ensures EarlierIsPickier(desired, existing)
  {
  }

  /** With as many attached VNICs as desired ones and match sets that are pairwise equal or disjoint, every iteration
      order serves all desired VNICs exactly when a perfect matching exists. */
  lemma GreedyDecides(desired: seq<DesiredVnic>, existing: map<string, Vnic>, picks: seq<string>)
    requires IdsAreKeys(existing) && GreedyRun(desired, existing, picks) && |desired| == |existing|
    requires EqualOrDisjoint(desired, existing)
    ensures |picks| == |desired| <==> exists m :: PerfectMatching(desired, existing, m)
  {
    if |picks| == |desired| {
      GreedySound(desired, existing, picks);
    }
    if m :| PerfectMatching(desired, existing, m) {
      EqualOrDisjointIsPickier(desired, existing);
      GreedyCompleteFrom(desired, existing, picks, m);
    }
  }

  // ---- Exactly when the greedy walk is complete ----

  /** On one subnet, the network security groups asked for by a later VNIC are among those of an earlier one. */
  ghost predicate SelectiveFirst(desired: seq<DesiredVnic>) {
    forall i, j, n :: 0 <= i < j < |desired| && desired[i].subnetId == desired[j].subnetId && n in desired[j].nsgIds
      ==> n in desired[i].nsgIds
  }

  /** Whatever is attached and in whatever order the map is walked, an existing perfect matching is found. */
  ghost predicate GreedyComplete(desired: seq<DesiredVnic>) {
    forall existing: map<string, Vnic>, picks, m ::
      IdsAreKeys(existing) && GreedyRun(desired, existing, picks) && PerfectMatching(desired, existing, m)
      ==> |picks| == |desired|
  }

  /** A different key for every index. */
  ghost function Key(k: nat): string { seq(k, _ => 'v') }

  /** Attached VNICs that serve the desired ones one to one, where number `j` could serve number `i` as well. */
  ghost function Tempting(desired: seq<DesiredVnic>, i: nat, j: nat, k: nat): Vnic
    requires i < |desired| && j < |desired| && k < |desired|
  {
    Vnic(Key(k), desired[k].subnetId, if k == j then desired[i].nsgIds + desired[j].nsgIds else desired[k].nsgIds, None)
  }

  ghost function TemptingMap(desired: seq<DesiredVnic>, i: nat, j: nat, from: nat): map<string, Vnic>
    requires i < |desired| && j < |desired| && from <= |desired|
    decreases |desired| - from
  {
    if from == |desired| then map[]
    else TemptingMap(desired, i, j, from + 1)[Key(from) := Tempting(desired, i, j, from)]
  }

  lemma {:induction false} TemptingFacts(desired: seq<DesiredVnic>, i: nat, j: nat, from: nat)
    requires i < |desired| && j < |desired| && from <= |desired|
    ensures var e := TemptingMap(desired, i, j, from);
            && (forall s :: s in e <==> from <= |s| < |desired| && s == Key(|s|))
            && (forall s :: s in e ==> e[s] == Tempting(desired, i, j, |s|))
            && |e| == |desired| - from
    decreases |desired| - from
  {
    if from < |desired| {
      TemptingFacts(desired, i, j, from + 1);
      assert |Key(from)| == from;
    }
  }

  /** From any state the greedy walk runs to an end. */
  lemma {:induction false} GreedyRunExists(desired: seq<DesiredVnic>, existing: map<string, Vnic>)
      returns (picks: seq<string>)
    ensures GreedyRun(desired, existing, picks)
    decreases |desired|
  {
    picks := [];
    if desired != [] {
      if k :| k in existing && Matches(desired[0], existing[k]) {
        var rest := GreedyRunExists(desired[1..], existing - {existing[k].id});
        picks := [k] + rest;
      }
    }
  }

  /** A walk whose first `upTo` picks are given can be completed. */
  lemma {:induction false} GreedyRunExtends(desired: seq<DesiredVnic>, existing: map<string, Vnic>, first: seq<string>)
      returns (picks: seq<string>)
    requires IdsAreKeys(existing) && |first| <= |desired| && Injective(first)
    requires forall i :: 0 <= i < |first| ==> first[i] in existing && Matches(desired[i], existing[first[i]])
    ensures GreedyRun(desired, existing, picks) && first <= picks
    decreases |desired|
  {
    if first == [] {
      picks := GreedyRunExists(desired, existing);
    } else {
      var rest := GreedyRunExtends(desired[1..], existing - {first[0]}, first[1..]);
      picks := [first[0]] + rest;
    }
  }

  /** The desired VNICs at least as selective as number `j`. */
  ghost function AtLeastAsSelective(desired: seq<DesiredVnic>, j: nat): set<nat>
    requires j < |desired|
  {
    set k: nat | k < |desired| && desired[k].subnetId == desired[j].subnetId
                 && (forall n :: n in desired[j].nsgIds ==> n in desired[k].nsgIds)
  }

  /** An injective function into a set that is no larger reaches every member. */
  lemma InjectionReaches(ps: set<nat>, f: map<nat, nat>, image: set<nat>, y: nat) returns (x: nat)
    requires y in image && |image| <= |ps| && (forall p :: p in ps ==> p in f && f[p] in image)
    requires forall p, q :: p in ps && q in ps && f[p] == f[q] ==> p == q
    ensures x in ps && f[x] == y
  {
    if forall p :: p in ps ==> f[p] != y {
      ImageSize(ps, f, image - {y});
    }
    x :| x in ps && f[x] == y;
  }

  lemma {:induction false} ImageSize(ps: set<nat>, f: map<nat, nat>, image: set<nat>)
    requires forall p :: p in ps ==> p in f && f[p] in image
    requires forall p, q :: p in ps && q in ps && f[p] == f[q] ==> p == q
    ensures |ps| <= |image|
  {
    if p :| p in ps {
      ImageSize(ps - {p}, f, image - {f[p]});
    }
  }

  /** A VNIC of the tempting map that fits a desired VNIC as selective as `j` was made for such a one. */
  lemma FitsSelective(desired: seq<DesiredVnic>, i: nat, j: nat, k: nat, s: string)
    requires i < |desired| && j < |desired| && k in AtLeastAsSelective(desired, j)
    requires s in TemptingMap(desired, i, j, 0) && Matches(desired[k], TemptingMap(desired, i, j, 0)[s])
    ensures |s| in AtLeastAsSelective(desired, j) && s == Key(|s|)
  {
    TemptingFacts(desired, i, j, 0);
  }

  /** If the walk gives number `i` the VNIC that number `j` needs, some VNIC as selective as `j` goes without. */
  lemma TemptedRunFails(desired: seq<DesiredVnic>, i: nat, j: nat, n: string, picks: seq<string>)
    requires i < j < |desired| && desired[i].subnetId == desired[j].subnetId
    requires n in desired[j].nsgIds && n !in desired[i].nsgIds
    requires GreedyRun(desired, TemptingMap(desired, i, j, 0), picks)
    requires |picks| > i && picks[i] == Key(j)
    ensures |picks| < |desired|
  {
    var existing := TemptingMap(desired, i, j, 0);
    assert IdsAreKeys(existing) by {
      TemptingFacts(desired, i, j, 0);
    }
    PicksAreInjectiveMatches(desired, existing, picks);
    if |picks| == |desired| {
      TemptedOverbooks(desired, i, j, picks);
    }
  }

  lemma TemptedOverbooks(desired: seq<DesiredVnic>, i: nat, j: nat, picks: seq<string>)
    requires i < |desired| && j < |desired| && |picks| == |desired| && Injective(picks)
    requires forall k :: 0 <= k < |picks| ==>
      picks[k] in TemptingMap(desired, i, j, 0) && Matches(desired[k], TemptingMap(desired, i, j, 0)[picks[k]])
    requires picks[i] == Key(j)
    ensures i in AtLeastAsSelective(desired, j)
  {
    var u := AtLeastAsSelective(desired, j);
    forall k | k in u ensures |picks[k]| in u && picks[k] == Key(|picks[k]|) {
      FitsSelective(desired, i, j, k, picks[k]);
    }
    ClosedSetKeepsKey(u, u, picks, i, j);
  }

  /** If the members of `u` picked keys of members of `w`, of which there are no more, no one else picked such a
      key. */
  lemma ClosedSetKeepsKey(u: set<nat>, w: set<nat>, picks: seq<string>, i: nat, j: nat)
    requires Injective(picks) && i < |picks| && j in w && |w| <= |u| && picks[i] == Key(j)
    requires forall k :: k in u ==> k < |picks| && |picks[k]| in w && picks[k] == Key(|picks[k]|)
    ensures i in u
  {
    var f := map k | k in u :: |picks[k]|;
    forall k, l | k in u && l in u && f[k] == f[l] ensures k == l {
      assert picks[k] == picks[l];
    }
    var k := InjectionReaches(u, f, w, j);
    assert picks[k] == picks[i];
  }

  /** The tempting VNICs do have a perfect matching. */
  lemma TemptingHasMatching(desired: seq<DesiredVnic>, i: nat, j: nat) returns (m: seq<string>)
    requires i < |desired| && j < |desired|
    ensures PerfectMatching(desired, TemptingMap(desired, i, j, 0), m)
    ensures m == seq(|desired|, k requires 0 <= k => Key(k))
  {
    TemptingFacts(desired, i, j, 0);
    m := seq(|desired|, k requires 0 <= k => Key(k));
    forall k, l | 0 <= k < l < |m| ensures m[k] != m[l] {
      assert |m[k]| == k && |m[l]| == l;
    }
    forall k | 0 <= k < |m|
      ensures m[k] in TemptingMap(desired, i, j, 0) && Matches(desired[k], TemptingMap(desired, i, j, 0)[m[k]])
    {
      assert |m[k]| == k;
    }
  }

  lemma NotSelectiveNotComplete(desired: seq<DesiredVnic>, i: nat, j: nat, n: string)
    requires i < j < |desired| && desired[i].subnetId == desired[j].subnetId
    requires n in desired[j].nsgIds && n !in desired[i].nsgIds
    ensures !GreedyComplete(desired)
  {
    TemptingFacts(desired, i, j, 0);
    var existing := TemptingMap(desired, i, j, 0);
    var m := TemptingHasMatching(desired, i, j);
    var first := m[..i] + [Key(j)];
    forall k | 0 <= k < |first| ensures first[k] in existing && Matches(desired[k], existing[first[k]]) {
      if k == i {
        assert |Key(j)| == j;
      }
    }
    var picks := GreedyRunExtends(desired, existing, first);
    assert picks[i] == first[i];
    TemptedRunFails(desired, i, j, n, picks);
  }

  /** The greedy walk finds every perfect matching, whatever is attached and in every iteration order, exactly when
      the desired VNICs of each subnet are listed most selective first. */
  lemma GreedyCompleteIff(desired: seq<DesiredVnic>)
    ensures GreedyComplete(desired) <==> SelectiveFirst(desired)
  {
    if SelectiveFirst(desired) {
      forall existing: map<string, Vnic>, picks, m |
          IdsAreKeys(existing) && GreedyRun(desired, existing, picks) && PerfectMatching(desired, existing, m)
        ensures |picks| == |desired|
      {
        GreedyCompleteFrom(desired, existing, picks, m);
      }
    } else {
      var i, j, n :| 0 <= i < j < |desired| && desired[i].subnetId == desired[j].subnetId
                     && n in desired[j].nsgIds && n !in desired[i].nsgIds;
      NotSelectiveNotComplete(desired, i, j, n);
    }
  }

  /** Why the ids must be the keys: with a VNIC filed under another id, the loop never removes it and serves two
      desired VNICs with it although no perfect matching exists. */
  lemma MisfiledVnicServesTwice(m: seq<string>)
    ensures var d := DesiredVnic("s", []);
            var existing := map["a" := Vnic("z", "s", [], None), "b" := Vnic("b", "t", [], None)];
            GreedyRun([d, d], existing, ["a", "a"]) && !PerfectMatching([d, d], existing, m)
  {
    var d := DesiredVnic("s", []);
    var existing := map["a" := Vnic("z", "s", [], None), "b" := Vnic("b", "t", [], None)];
    assert existing - {"z"} == existing;
    assert [d, d][1..] == [d] && ["a", "a"][1..] == ["a"];
    assert GreedyRun([d], existing, ["a"]);
  }
}
