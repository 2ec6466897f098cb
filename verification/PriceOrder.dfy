/** The order in which instance types are tried: one entry for each price of each type, cheapest first. */
module PriceOrder {
  import opened Common
  import opened Sorting

  datatype Offering = Offering(id: string, price: real, available: bool)

  datatype InstanceType = InstanceType(name: string, shape: string, offerings: seq<Offering>)

  /** The offerings that are available and compatible with the claim. */
  function Eligible(offerings: seq<Offering>, compatible: Offering -> bool): seq<Offering> {
    if offerings == [] then []
    else
      var last := offerings[|offerings| - 1];
      Eligible(offerings[..|offerings| - 1], compatible) + if last.available && compatible(last) then [last] else []
  }

  function AtPrice(offerings: seq<Offering>, price: real): seq<Offering> {
    if offerings == [] then []
    else
      var last := offerings[|offerings| - 1];
      AtPrice(offerings[..|offerings| - 1], price) + if last.price == price then [last] else []
  }

  function Prices(offerings: seq<Offering>): set<real> {
    if offerings == [] then {} else Prices(offerings[..|offerings| - 1]) + {offerings[|offerings| - 1].price}
  }

  method GroupByPrice(offerings: seq<Offering>) returns (groups: map<real, seq<Offering>>)
    ensures groups.Keys == Prices(offerings)
    ensures forall p :: p in groups ==> groups[p] == AtPrice(offerings, p)
  {
    groups := map[];
    for n := 0 to |offerings|
      invariant groups.Keys == Prices(offerings[..n])
      invariant forall p :: p in groups ==> groups[p] == AtPrice(offerings[..n], p)
      invariant forall p :: p !in groups ==> AtPrice(offerings[..n], p) == []
    {
      var o := offerings[n];
      assert offerings[..n + 1][..n] == offerings[..n];
      groups := groups[o.price := (if o.price in groups then groups[o.price] else []) + [o]];
    }
    assert offerings[..|offerings|] == offerings;
  }

  // ---- Strings in order ----

  function StrLe(a: string, b: string): bool {
    a == [] || (b != [] && (a[0] < b[0] || (a[0] == b[0] && StrLe(a[1..], b[1..]))))
  }

  lemma {:induction false} StrLeTotal(a: string, b: string)
    ensures StrLe(a, b) || StrLe(b, a)
    ensures StrLe(a, b) && StrLe(b, a) ==> a == b
  {
    if a != [] && b != [] {
      StrLeTotal(a[1..], b[1..]);
    }
  }

  lemma {:induction false} StrLeTransitive(a: string, b: string, c: string)
    requires StrLe(a, b) && StrLe(b, c)
    ensures StrLe(a, c)
  {
    if a != [] && b != [] && c != [] && a[0] == b[0] == c[0] {
      StrLeTransitive(a[1..], b[1..], c[1..]);
    }
  }

  /** Where two strings first differ, the smaller character comes first; a string comes before its continuations. */
  lemma {:induction false} StrLeMeans(a: string, b: string)
    ensures StrLe(a, b) <==>
              exists n :: 0 <= n <= |a| && n <= |b| && a[..n] == b[..n] && (n == |a| || (n < |b| && a[n] < b[n]))
  {
    if a == [] {
      assert a[..0] == b[..0];
    } else if b != [] && a[0] < b[0] {
      assert a[..0] == b[..0];
    } else if b != [] && a[0] == b[0] {
      StrLeMeans(a[1..], b[1..]);
      if StrLe(a, b) {
        var m :| 0 <= m <= |a[1..]| && m <= |b[1..]| && a[1..][..m] == b[1..][..m]
                 && (m == |a[1..]| || (m < |b[1..]| && a[1..][m] < b[1..][m]));
        assert a[..m + 1] == [a[0]] + a[1..][..m] && b[..m + 1] == [b[0]] + b[1..][..m];
      }
      forall n | 0 <= n <= |a| && n <= |b| && a[..n] == b[..n] && (n == |a| || (n < |b| && a[n] < b[n]))
        ensures StrLe(a, b)
      {
        assert a[1..][..n - 1] == a[..n][1..] && b[1..][..n - 1] == b[..n][1..];
      }
    }
  }

  // ---- Sorting ----

  function Cheapest(offerings: seq<Offering>): (p: real)
    requires offerings != []
    ensures p in Prices(offerings) && forall q :: q in Prices(offerings) ==> p <= q
  {
    var last := offerings[|offerings| - 1].price;
    if |offerings| == 1 then
      assert Prices(offerings[..0]) == {};
      last
    else
      var p := Cheapest(offerings[..|offerings| - 1]);
      if last < p then last else p
  }

  /** None, for a type without an eligible offering, is dearer than every price. */
  function PriceOf(t: InstanceType, compatible: Offering -> bool): Option<real> {
    var eligible := Eligible(t.offerings, compatible);
    if eligible == [] then None else Some(Cheapest(eligible))
  }

  predicate PriceBelow(a: Option<real>, b: Option<real>) {
    a.Some? && (b.None? || a.value < b.value)
  }

  function CheaperFirst(compatible: Offering -> bool): (InstanceType, InstanceType) -> bool {
    (a: InstanceType, b: InstanceType) =>
      var p, q := PriceOf(a, compatible), PriceOf(b, compatible);
      if p != q then PriceBelow(p, q) else StrLe(a.name, b.name)
  }

  lemma CheaperFirstIsPreorder(compatible: Offering -> bool)
    ensures TotalPreorder(CheaperFirst(compatible))
  {
    var le := CheaperFirst(compatible);
    forall a, b ensures le(a, b) || le(b, a) {
      StrLeTotal(a.name, b.name);
    }
    forall a, b, c | Chain(le, a, b, c) ensures le(a, c) {
      if StrLe(a.name, b.name) && StrLe(b.name, c.name) {
        StrLeTransitive(a.name, b.name, c.name);
      }
    }
  }

  /** One price of the type at position `index` of the input. */
  datatype Slot = Slot(index: nat, price: real)

  predicate InRange(types: seq<InstanceType>, compatible: Offering -> bool, s: Slot) {
    s.index < |types| && s.price in Prices(Eligible(types[s.index].offerings, compatible))
  }

  /** The type with its eligible offerings at that price. */
  function EntryOf(types: seq<InstanceType>, compatible: Offering -> bool, s: Slot): InstanceType
    requires s.index < |types|
  {
    var t := types[s.index];
    t.(offerings := AtPrice(Eligible(t.offerings, compatible), s.price))
  }

  lemma {:induction false} EligibleKeeps(xs: seq<Offering>, compatible: Offering -> bool)
    ensures forall o :: o in Eligible(xs, compatible) ==> o.available && compatible(o)
    ensures (forall o :: o in xs ==> o.available && compatible(o)) ==> Eligible(xs, compatible) == xs
  {
    if xs != [] {
      EligibleKeeps(xs[..|xs| - 1], compatible);
    }
  }

  lemma {:induction false} AtPriceKeeps(xs: seq<Offering>, price: real)
    ensures forall o :: o in AtPrice(xs, price) <==> o in xs && o.price == price
  {
    if xs != [] {
      AtPriceKeeps(xs[..|xs| - 1], price);
      assert xs == xs[..|xs| - 1] + [xs[|xs| - 1]];
    }
  }

  lemma {:induction false} PricesMeans(xs: seq<Offering>)
    ensures forall p :: p in Prices(xs) <==> exists o :: o in xs && o.price == p
  {
    if xs != [] {
      PricesMeans(xs[..|xs| - 1]);
      assert xs == xs[..|xs| - 1] + [xs[|xs| - 1]];
    }
  }

  /** Every entry has one price. */
  lemma EntryPrice(types: seq<InstanceType>, compatible: Offering -> bool, s: Slot)
    requires InRange(types, compatible, s)
    ensures PriceOf(EntryOf(types, compatible, s), compatible) == Some(s.price)
    ensures forall o :: o in EntryOf(types, compatible, s).offerings ==> o.price == s.price
  {
    var eligible := Eligible(types[s.index].offerings, compatible);
    var group := AtPrice(eligible, s.price);
    PricesMeans(eligible);
    PricesMeans(group);
    AtPriceKeeps(eligible, s.price);
    EligibleKeeps(types[s.index].offerings, compatible);
    EligibleKeeps(group, compatible);
    var o :| o in eligible && o.price == s.price;
    assert o in group;
  }

  /** By price, then by name, then by position in the input. */
  predicate Before(types: seq<InstanceType>, a: Slot, b: Slot)
    requires a.index < |types| && b.index < |types|
  {
    || a.price < b.price
    || (a.price == b.price
        && if types[a.index].name == types[b.index].name then a.index < b.index
           else StrLe(types[a.index].name, types[b.index].name))
  }

  /** Every price of every type once, in order. */
  ghost predicate Arranged(types: seq<InstanceType>, compatible: Offering -> bool, slots: seq<Slot>) {
    && (forall s :: s in slots <==> InRange(types, compatible, s))
    && (forall k :: 0 <= k < |slots| ==> slots[k].index < |types|)
    && (forall k, l :: 0 <= k < l < |slots| ==> Before(types, slots[k], slots[l]))
  }

  ghost predicate Lists(types: seq<InstanceType>, compatible: Offering -> bool, entries: seq<InstanceType>,
                        slots: seq<Slot>) {
    && |entries| == |slots|
    && forall k :: 0 <= k < |slots| ==>
         InRange(types, compatible, slots[k]) && entries[k] == EntryOf(types, compatible, slots[k])
  }

  /** Every price of the first `n` types once, type by type. */
  ghost predicate Gathered(types: seq<InstanceType>, compatible: Offering -> bool, slots: seq<Slot>, n: nat) {
    && (forall s :: s in slots <==> InRange(types, compatible, s) && s.index < n)
    && (forall k, l :: 0 <= k < l < |slots| ==> slots[k].index <= slots[l].index && slots[k] != slots[l])
  }

  lemma AnElement<T>(s: set<T>) returns (x: T)
    requires s != {}
    ensures x in s
  {
    x :| x in s;
  }

  method Gather(types: seq<InstanceType>, compatible: Offering -> bool) returns (entries: seq<InstanceType>)
    ensures exists slots :: Lists(types, compatible, entries, slots) && Gathered(types, compatible, slots, |types|)
  {
    entries := [];
    ghost var slots: seq<Slot> := [];
    for n := 0 to |types|
      invariant Lists(types, compatible, entries, slots) && Gathered(types, compatible, slots, n)
    {
      ghost var before := slots;
      var eligible := Eligible(types[n].offerings, compatible);
      var groups := GroupByPrice(eligible);
      var rest := groups.Keys;
      while rest != {}
        invariant rest <= groups.Keys
        invariant Lists(types, compatible, entries, slots)
        invariant forall s :: s in slots <==> s in before || (s.index == n && s.price in groups.Keys - rest)
        invariant forall k, l :: 0 <= k < l < |slots| ==> slots[k].index <= slots[l].index && slots[k] != slots[l]
        decreases |rest|
      {
        ghost var some := AnElement(rest);
        var p :| p in rest;
        entries := entries + [types[n].(offerings := groups[p])];
        slots := slots + [Slot(n, p)];
        rest := rest - {p};
      }
    }
  }

  /** `out` has one entry for every price of every type, in order. */
  ghost predicate OrderedByPrice(types: seq<InstanceType>, compatible: Offering -> bool, out: seq<InstanceType>) {
    exists slots :: Lists(types, compatible, out, slots) && Arranged(types, compatible, slots)
  }

  /** No entry costs less than one before it. */
  ghost predicate Rising(compatible: Offering -> bool, out: seq<InstanceType>) {
    forall k, l :: 0 <= k < l < |out| ==> CheaperFirst(compatible)(out[k], out[l])
  }

  /** The order is the same whatever the order in which the prices of a type were visited: see `OrderedOnce`. */
  method OrderInstanceTypesByPrice(types: seq<InstanceType>, compatible: Offering -> bool)
      returns (out: seq<InstanceType>)
    ensures OrderedByPrice(types, compatible, out) && Rising(compatible, out)
  {
    var entries := Gather(types, compatible);
    ghost var gathered :| Lists(types, compatible, entries, gathered) && Gathered(types, compatible, gathered, |types|);
    out := StableSort(entries, CheaperFirst(compatible));
    ghost var slots := SortedSlots(types, compatible, entries, gathered);
    SortRises(entries, compatible);
  }

  lemma SortRises(entries: seq<InstanceType>, compatible: Offering -> bool)
    ensures Rising(compatible, StableSort(entries, CheaperFirst(compatible)))
  {
    CheaperFirstIsPreorder(compatible);
    var q := StableSortPositions(entries, CheaperFirst(compatible));
  }

  lemma SortedSlots(types: seq<InstanceType>, compatible: Offering -> bool, entries: seq<InstanceType>,
                    gathered: seq<Slot>)
      returns (slots: seq<Slot>)
    requires Lists(types, compatible, entries, gathered) && Gathered(types, compatible, gathered, |types|)
    ensures Lists(types, compatible, StableSort(entries, CheaperFirst(compatible)), slots)
    ensures Arranged(types, compatible, slots)
  {
    var le := CheaperFirst(compatible);
    CheaperFirstIsPreorder(compatible);
    var q := StableSortPositions(entries, le);
    var out := StableSort(entries, le);
    slots := seq(|q|, k requires 0 <= k < |q| => gathered[q[k]]);
    forall s ensures s in slots <==> InRange(types, compatible, s) {
      if s in gathered {
        var j :| 0 <= j < |gathered| && gathered[j] == s;
        var k := PermutationReaches(q, |entries|, j);
        assert slots[k] == s;
      }
    }
    forall k, l | 0 <= k < l < |slots| ensures Before(types, slots[k], slots[l]) {
      assert le(out[k], out[l]) && (le(out[l], out[k]) ==> q[k] < q[l]);
      SortedIsBefore(types, compatible, slots[k], slots[l]);
    }
  }

  /** Two different slots whose entries the sort puts in order, with the position breaking ties, are in order. */
  lemma SortedIsBefore(types: seq<InstanceType>, compatible: Offering -> bool, a: Slot, b: Slot)
    requires InRange(types, compatible, a) && InRange(types, compatible, b) && a != b
    requires var le, x, y := CheaperFirst(compatible), EntryOf(types, compatible, a), EntryOf(types, compatible, b);
             le(x, y) && (le(y, x) ==> a.index <= b.index)
    ensures Before(types, a, b)
  {
    EntryPrice(types, compatible, a);
    EntryPrice(types, compatible, b);
  }

  /** There is only one such arrangement. */
  lemma ArrangedOnce(types: seq<InstanceType>, compatible: Offering -> bool, a: seq<Slot>, b: seq<Slot>)
    requires Arranged(types, compatible, a) && Arranged(types, compatible, b)
    ensures a == b
  {
    SameSlots(types, a, b);
  }

  /** The order does not depend on how the groups of a type were visited. */
  lemma OrderedOnce(types: seq<InstanceType>, compatible: Offering -> bool, a: seq<InstanceType>, b: seq<InstanceType>)
    requires OrderedByPrice(types, compatible, a) && OrderedByPrice(types, compatible, b)
    ensures a == b
  {
    var s :| Lists(types, compatible, a, s) && Arranged(types, compatible, s);
    var t :| Lists(types, compatible, b, t) && Arranged(types, compatible, t);
    ArrangedOnce(types, compatible, s, t);
  }

  lemma BeforeIsStrict(types: seq<InstanceType>, a: Slot, b: Slot)
    requires a.index < |types| && b.index < |types|
    ensures !(Before(types, a, b) && Before(types, b, a))
  {
    StrLeTotal(types[a.index].name, types[b.index].name);
  }

  lemma {:induction false} SameSlots(types: seq<InstanceType>, a: seq<Slot>, b: seq<Slot>)
    requires forall s :: s in a ==> s.index < |types|
    requires forall s :: s in a <==> s in b
    requires forall k, l :: 0 <= k < l < |a| ==> Before(types, a[k], a[l])
    requires forall k, l :: 0 <= k < l < |b| ==> Before(types, b[k], b[l])
    ensures a == b
  {
    assert b != [] ==> b[0] in b;
    if a != [] {
      assert a[0] in b;
      assert b[0] in a;
      BeforeIsStrict(types, a[0], b[0]);
      BeforeIsStrict(types, a[0], a[0]);
      BeforeIsStrict(types, b[0], b[0]);
      assert a[0] == b[0];
      forall s ensures s in a[1..] <==> s in b[1..] {
        assert s in a <==> s == a[0] || s in a[1..];
        assert s in b <==> s == b[0] || s in b[1..];
      }
      SameSlots(types, a[1..], b[1..]);
    }
  }

  lemma {:induction false} AtPriceCounts(offerings: seq<Offering>, price: real, o: Offering)
    ensures multiset(AtPrice(offerings, price))[o] == if o.price == price then multiset(offerings)[o] else 0
    ensures o in offerings ==> o.price in Prices(offerings)
  {
    if offerings != [] {
      var n := |offerings| - 1;
      AtPriceCounts(offerings[..n], price, o);
      assert offerings == offerings[..n] + [offerings[n]];
    }
  }

  // ---- What the entries are, said of the offerings themselves ----

  /** The offering can be used for the claim. */
  predicate Usable(o: Offering, compatible: Offering -> bool) { o.available && compatible(o) }

  /** `ys` are the elements of `xs` at the positions `q`, in order. */
  ghost predicate Picks(xs: seq<Offering>, q: seq<nat>, ys: seq<Offering>) {
    && |ys| == |q|
    && (forall k :: 0 <= k < |q| ==> q[k] < |xs| && ys[k] == xs[q[k]])
    && (forall k, l :: 0 <= k < l < |q| ==> q[k] < q[l])
  }

  /** `ys` are exactly the elements of `xs` that can be used and have that price, at the positions `q`. */
  ghost predicate Keeps(xs: seq<Offering>, compatible: Offering -> bool, price: real, q: seq<nat>, ys: seq<Offering>) {
    && Picks(xs, q, ys)
    && forall j: nat :: j < |xs| ==> (j in q <==> Usable(xs[j], compatible) && xs[j].price == price)
  }

  lemma KeepsMore(xs: seq<Offering>, compatible: Offering -> bool, price: real, q: seq<nat>, ys: seq<Offering>,
                  x: Offering)
    requires Keeps(xs, compatible, price, q, ys)
    ensures if Usable(x, compatible) && x.price == price then Keeps(xs + [x], compatible, price, q + [|xs|], ys + [x])
            else Keeps(xs + [x], compatible, price, q, ys)
  {
    assert |xs| !in q;
    assert forall j: nat :: j < |xs| ==> (xs + [x])[j] == xs[j];
  }

  lemma KeptStep(xs: seq<Offering>, compatible: Offering -> bool, price: real, x: Offering)
    ensures AtPrice(Eligible(xs + [x], compatible), price) ==
              if Usable(x, compatible) && x.price == price then AtPrice(Eligible(xs, compatible), price) + [x]
              else AtPrice(Eligible(xs, compatible), price)
  {
    var kept := Eligible(xs, compatible);
    assert (xs + [x])[..|xs|] == xs && (kept + [x])[..|kept|] == kept;
    assert Eligible(xs + [x], compatible) == if Usable(x, compatible) then kept + [x] else kept;
  }

  /** What is kept for a price: exactly the usable offerings of that price, in order. */
  lemma {:induction false} KeptInOrder(xs: seq<Offering>, compatible: Offering -> bool, price: real)
      returns (q: seq<nat>)
    ensures Keeps(xs, compatible, price, q, AtPrice(Eligible(xs, compatible), price))
  {
    q := [];
    if xs != [] {
      var front, last := xs[..|xs| - 1], xs[|xs| - 1];
      assert xs == front + [last];
      q := KeptInOrder(front, compatible, price);
      KeptStep(front, compatible, price, last);
      KeepsMore(front, compatible, price, q, AtPrice(Eligible(front, compatible), price), last);
      if Usable(last, compatible) && last.price == price {
        q := q + [|front|];
      }
    }
  }

  lemma {:induction false} EligibleMeans(xs: seq<Offering>, compatible: Offering -> bool)
    ensures forall o :: o in Eligible(xs, compatible) <==> o in xs && Usable(o, compatible)
  {
    if xs != [] {
      EligibleMeans(xs[..|xs| - 1], compatible);
      assert xs == xs[..|xs| - 1] + [xs[|xs| - 1]];
    }
  }

  lemma OneMoreCounts(xs: seq<Offering>, x: Offering, o: Offering)
    ensures multiset(xs + [x])[o] == multiset(xs)[o] + if x == o then 1 else 0
  {
  }

  lemma {:induction false} EligibleCounts(xs: seq<Offering>, compatible: Offering -> bool, o: Offering)
    ensures multiset(Eligible(xs, compatible))[o] == if Usable(o, compatible) then multiset(xs)[o] else 0
  {
    if xs != [] {
      var front, last := xs[..|xs| - 1], xs[|xs| - 1];
      EligibleCounts(front, compatible, o);
      assert xs == front + [last];
      OneMoreCounts(front, last, o);
      OneMoreCounts(Eligible(front, compatible), last, o);
      assert Eligible(front, compatible) + [] == Eligible(front, compatible);
    }
  }

  ghost predicate Sells(t: InstanceType, compatible: Offering -> bool, price: real) {
    exists o :: o in t.offerings && Usable(o, compatible) && o.price == price
  }

  /** `e` is the type with exactly its usable offerings of that price, in order. */
  ghost predicate IsEntry(t: InstanceType, compatible: Offering -> bool, price: real, e: InstanceType) {
    && e.name == t.name && e.shape == t.shape
    && exists q :: Keeps(t.offerings, compatible, price, q, e.offerings)
  }

  /** `slots` says of each entry which type and price it is for: one for every price at which a type has a usable
      offering, in order of price, name and position. */
  ghost predicate Describes(types: seq<InstanceType>, compatible: Offering -> bool, out: seq<InstanceType>,
                            slots: seq<Slot>)
  {
    && |slots| == |out| && (forall k :: 0 <= k < |out| ==> slots[k].index < |types|)
    && (forall k, l :: 0 <= k < l < |out| ==> Before(types, slots[k], slots[l]))
    && (forall k :: 0 <= k < |out| ==> IsEntry(types[slots[k].index], compatible, slots[k].price, out[k]))
    && (forall s: Slot :: s in slots <==> s.index < |types| && Sells(types[s.index], compatible, s.price))
  }

  lemma OrderedMeans(types: seq<InstanceType>, compatible: Offering -> bool, out: seq<InstanceType>)
      returns (slots: seq<Slot>)
    requires OrderedByPrice(types, compatible, out)
    ensures Describes(types, compatible, out, slots)
  {
    slots :| Lists(types, compatible, out, slots) && Arranged(types, compatible, slots);
    forall k | 0 <= k < |out| ensures IsEntry(types[slots[k].index], compatible, slots[k].price, out[k]) {
      EntryIs(types, compatible, slots[k]);
    }
    forall s: Slot ensures s in slots <==> s.index < |types| && Sells(types[s.index], compatible, s.price) {
      if s.index < |types| {
        SellsMeans(types[s.index], compatible, s.price);
      }
    }
  }

  lemma EntryIs(types: seq<InstanceType>, compatible: Offering -> bool, s: Slot)
    requires s.index < |types|
    ensures IsEntry(types[s.index], compatible, s.price, EntryOf(types, compatible, s))
  {
    var q := KeptInOrder(types[s.index].offerings, compatible, s.price);
  }

  lemma SellsMeans(t: InstanceType, compatible: Offering -> bool, price: real)
    ensures price in Prices(Eligible(t.offerings, compatible)) <==> Sells(t, compatible, price)
  {
    EligibleMeans(t.offerings, compatible);
    PricesMeans(Eligible(t.offerings, compatible));
  }

  /** Nothing is to be tried exactly if no type has a usable offering. */
  lemma NothingOrderedIff(types: seq<InstanceType>, compatible: Offering -> bool, out: seq<InstanceType>)
    requires OrderedByPrice(types, compatible, out)
    ensures out == [] <==> forall t, o :: t in types && o in t.offerings ==> !Usable(o, compatible)
  {
    var slots := OrderedMeans(types, compatible, out);
    if out != [] {
      assert slots[0] in slots;
    }
    forall t, o | t in types && o in t.offerings && Usable(o, compatible) ensures out != [] {
      var n :| 0 <= n < |types| && types[n] == t;
      assert Sells(types[n], compatible, o.price);
      assert Slot(n, o.price) in slots;
    }
  }

  /** Nothing is lost and nothing invented: of each type, each usable offering stands in the one entry of its price as
      often as in the type, and in no other entry; all others stand in none. */
  lemma NothingLost(types: seq<InstanceType>, compatible: Offering -> bool, slots: seq<Slot>, index: nat, o: Offering)
    requires Arranged(types, compatible, slots) && index < |types|
    ensures Usable(o, compatible) && o in types[index].offerings ==> Slot(index, o.price) in slots
    ensures forall s :: s in slots && s.index == index ==>
              multiset(EntryOf(types, compatible, s).offerings)[o] ==
                (if Usable(o, compatible) && s.price == o.price then multiset(types[index].offerings)[o] else 0)
  {
    var offerings := types[index].offerings;
    EligibleCounts(offerings, compatible, o);
    EligibleMeans(offerings, compatible);
    AtPriceCounts(Eligible(offerings, compatible), o.price, o);
    forall s | s in slots && s.index == index
      ensures multiset(EntryOf(types, compatible, s).offerings)[o] ==
                (if Usable(o, compatible) && s.price == o.price then multiset(offerings)[o] else 0)
    {
      AtPriceCounts(Eligible(offerings, compatible), s.price, o);
    }
    if Usable(o, compatible) && o in offerings {
      assert InRange(types, compatible, Slot(index, o.price));
    }
  }
}
