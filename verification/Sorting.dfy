/** Stable sorting, as the library call `sort.SliceStable` does it, and where its results come from. */
module Sorting {
  predicate Chain<T>(le: (T, T) -> bool, x: T, y: T, z: T) { le(x, y) && le(y, z) }

  ghost predicate TotalPreorder<T(!new)>(le: (T, T) -> bool) {
    && (forall x, y :: le(x, y) || le(y, x))
    && (forall x, y, z :: Chain(le, x, y, z) ==> le(x, z))
  }

  function Insert<T>(x: T, ys: seq<T>, le: (T, T) -> bool): seq<T> {
    if ys == [] || le(x, ys[0]) then [x] + ys else [ys[0]] + Insert(x, ys[1..], le)
  }

  function StableSort<T>(xs: seq<T>, le: (T, T) -> bool): seq<T> {
    if xs == [] then [] else Insert(xs[0], StableSort(xs[1..], le), le)
  }

  ghost predicate Permutes(p: seq<nat>, n: nat) {
    && |p| == n
    && (forall k :: 0 <= k < n ==> p[k] < n)
    && (forall k, l :: 0 <= k < l < n ==> p[k] != p[l])
  }

  /** `ys` lists the elements of `xs` at the positions `p`. */
  ghost predicate TakenFrom<T>(ys: seq<T>, xs: seq<T>, p: seq<nat>) {
    && |ys| == |p|
    && (forall k :: 0 <= k < |p| ==> p[k] < |xs| && ys[k] == xs[p[k]])
  }

  /** `ys` is in order, and equivalent elements keep the order of their positions. */
  ghost predicate StablyOrdered<T>(ys: seq<T>, p: seq<nat>, le: (T, T) -> bool)
    requires |ys| == |p|
  {
    forall k, l :: 0 <= k < l < |ys| ==> le(ys[k], ys[l]) && (le(ys[l], ys[k]) ==> p[k] < p[l])
  }

  ghost function Splice<T>(s: seq<T>, k: nat, x: T): seq<T>
    requires k <= |s|
  {
    s[..k] + [x] + s[k..]
  }

  /** The place before the first element that `x` may precede. */
  ghost function Place<T>(x: T, ys: seq<T>, le: (T, T) -> bool): (k: nat)
    ensures k <= |ys| && (forall j :: 0 <= j < k ==> !le(x, ys[j])) && (k < |ys| ==> le(x, ys[k]))
    ensures Insert(x, ys, le) == Splice(ys, k, x)
  {
    if ys == [] || le(x, ys[0]) then
      assert Splice(ys, 0, x) == [x] + ys;
      0
    else
      var k := Place(x, ys[1..], le);
      assert Splice(ys, k + 1, x) == [ys[0]] + Splice(ys[1..], k, x);
      k + 1
  }

  lemma PlaceSplits<T(!new)>(x: T, ys: seq<T>, p: seq<nat>, le: (T, T) -> bool)
    requires TotalPreorder(le) && |ys| == |p| && StablyOrdered(ys, p, le)
    ensures forall j :: 0 <= j < Place(x, ys, le) ==> le(ys[j], x) && !le(x, ys[j])
    ensures forall j :: Place(x, ys, le) <= j < |ys| ==> le(x, ys[j])
  {
    var k := Place(x, ys, le);
    forall j | k <= j < |ys| ensures le(x, ys[j]) {
      assert j == k || Chain(le, x, ys[k], ys[j]);
    }
  }

  /** Inserting, at a place that splits the elements, one that comes before the positions `p`. */
  lemma SpliceOrdered<T>(x: T, ys: seq<T>, p: seq<nat>, le: (T, T) -> bool, i: nat, k: nat)
    requires |ys| == |p| && StablyOrdered(ys, p, le) && k <= |ys|
    requires forall j :: 0 <= j < k ==> le(ys[j], x) && !le(x, ys[j])
    requires forall j :: k <= j < |ys| ==> le(x, ys[j])
    requires forall j :: 0 <= j < |p| ==> i < p[j]
    ensures StablyOrdered(Splice(ys, k, x), Splice(p, k, i), le)
  {
  }

  /** A stable sort is a permutation that orders the elements and keeps equivalent ones in their order. */
  lemma {:induction false} StableSortPositions<T(!new)>(xs: seq<T>, le: (T, T) -> bool) returns (p: seq<nat>)
    requires TotalPreorder(le)
    ensures Permutes(p, |xs|) && TakenFrom(StableSort(xs, le), xs, p) && StablyOrdered(StableSort(xs, le), p, le)
  {
    if xs == [] {
      p := [];
    } else {
      var tail := StableSort(xs[1..], le);
      var r := StableSortPositions(xs[1..], le);
      var shifted := seq(|r|, k requires 0 <= k < |r| => r[k] + 1);
      PlaceSplits(xs[0], tail, shifted, le);
      SpliceOrdered(xs[0], tail, shifted, le, 0, Place(xs[0], tail, le));
      p := Splice(shifted, Place(xs[0], tail, le), 0);
      SplicedPermutes(shifted, Place(xs[0], tail, le));
      SplicedTaken(tail, xs, shifted, Place(xs[0], tail, le));
    }
  }

  lemma SplicedPermutes(p: seq<nat>, k: nat)
    requires k <= |p|
    requires forall i :: 0 <= i < |p| ==> 0 < p[i] <= |p|
    requires forall i, j :: 0 <= i < j < |p| ==> p[i] != p[j]
    ensures Permutes(Splice(p, k, 0), |p| + 1)
  {
  }

  lemma SplicedTaken<T>(ys: seq<T>, xs: seq<T>, p: seq<nat>, k: nat)
    requires xs != [] && k <= |p| && TakenFrom(ys, xs, p)
    ensures TakenFrom(Splice(ys, k, xs[0]), xs, Splice(p, k, 0))
  {
  }

  ghost function Range(n: nat): set<nat> {
    if n == 0 then {} else Range(n - 1) + {n - 1}
  }

  lemma {:induction false} RangeFacts(n: nat)
    ensures |Range(n)| == n && forall v: nat :: v in Range(n) <==> v < n
  {
    if n > 0 {
      RangeFacts(n - 1);
    }
  }

  /** Every position occurs in a permutation. */
  lemma PermutationReaches(p: seq<nat>, n: nat, i: nat) returns (k: nat)
    requires Permutes(p, n) && i < n
    ensures k < n && p[k] == i
  {
    RangeFacts(n);
    if forall k :: 0 <= k < n ==> p[k] != i {
      FewerValues(p, Range(n) - {i});
    }
    k :| 0 <= k < n && p[k] == i;
  }

  lemma {:induction false} FewerValues(p: seq<nat>, s: set<nat>)
    requires forall k :: 0 <= k < |p| ==> p[k] in s
    requires forall k, l :: 0 <= k < l < |p| ==> p[k] != p[l]
    ensures |p| <= |s|
  {
    if p != [] {
      FewerValues(p[..|p| - 1], s - {p[|p| - 1]});
    }
  }
}
