/** What a launch comes to, said of the offerings of the instance types. */
module LaunchMeaning {
  import opened Common
  import opened LaunchErrors
  import opened PriceOrder
  import opened Launching
  import P = Placement
  import B = PlacementBalance
  import Q = ProposalMeaning

  /** The entry of a type and a price. */
  lemma EntryFor(types: seq<InstanceType>, compatible: Offering -> bool, entries: seq<InstanceType>, slots: seq<Slot>,
                 index: nat, o: Offering) returns (k: nat)
    requires Describes(types, compatible, entries, slots)
    requires index < |types| && o in types[index].offerings && Usable(o, compatible)
    ensures k < |entries| && slots[k] == Slot(index, o.price)
    ensures IsEntry(types[index], compatible, o.price, entries[k])
  {
    assert Sells(types[index], compatible, o.price);
    assert Slot(index, o.price) in slots;
    k :| 0 <= k < |slots| && slots[k] == Slot(index, o.price);
  }

  lemma EntryOfferings(t: InstanceType, compatible: Offering -> bool, price: real, e: InstanceType)
    requires IsEntry(t, compatible, price, e)
    ensures forall o :: o in e.offerings <==> o in t.offerings && Usable(o, compatible) && o.price == price
  {
    var q :| Keeps(t.offerings, compatible, price, q, e.offerings);
    forall o ensures o in e.offerings <==> o in t.offerings && Usable(o, compatible) && o.price == price {
      KeptMeans(t.offerings, compatible, price, q, e.offerings, o);
    }
  }

  lemma KeptMeans(xs: seq<Offering>, compatible: Offering -> bool, price: real, q: seq<nat>, ys: seq<Offering>,
                  o: Offering)
    requires Keeps(xs, compatible, price, q, ys)
    ensures o in ys <==> o in xs && Usable(o, compatible) && o.price == price
  {
    if o in ys {
      var k :| 0 <= k < |ys| && ys[k] == o;
      assert q[k] in q && xs[q[k]] == o;
    }
    if o in xs && Usable(o, compatible) && o.price == price {
      var j: nat :| j < |xs| && xs[j] == o;
      var k :| 0 <= k < |q| && q[k] == j;
      assert ys[k] == o;
    }
  }

  /** The offerings of that price were handled as an entry before entry `n`, and skipped. */
  ghost predicate SkippedBefore(t: InstanceType, compatible: Offering -> bool, price: real, entries: seq<InstanceType>,
                                limitFallback: bool, fates: seq<Fate>, n: nat)
  {
    exists k: nat ::
      && k < n && k < |entries| && k < |fates|
      && IsEntry(t, compatible, price, entries[k]) && Skipped(fates[k], limitFallback)
  }

  /** A node is launched for usable offerings of one price; and whatever type has a usable offering of a lower price,
      its offerings of that price were handled before, and skipped. */
  lemma CheaperOfferingsSkipped(types: seq<InstanceType>, compatible: Offering -> bool, w: World,
                                entries: seq<InstanceType>, limitFallback: bool, fates: seq<Fate>, r: Created)
      returns (price: real)
    requires OrderedByPrice(types, compatible, entries) && Ends(w, entries, limitFallback, fates, r) && r.Node?
    ensures r.entry < |entries| && entries[r.entry].offerings != []
    ensures forall o :: o in entries[r.entry].offerings ==> Usable(o, compatible) && o.price == price
    ensures forall t, o :: t in types && o in t.offerings && Usable(o, compatible) && o.price < price ==>
              SkippedBefore(t, compatible, o.price, entries, limitFallback, fates, r.entry)
  {
    var n := NodeIsLast(w, entries, limitFallback, fates, r);
    price := CheaperBefore(types, compatible, entries, limitFallback, fates, n);
  }

  /** The same of any entry with only skipped ones before it. */
  lemma CheaperBefore(types: seq<InstanceType>, compatible: Offering -> bool, entries: seq<InstanceType>,
                      limitFallback: bool, fates: seq<Fate>, n: nat)
      returns (price: real)
    requires OrderedByPrice(types, compatible, entries) && n < |entries| && n < |fates|
    requires AllSkipped(fates[..n], limitFallback)
    ensures entries[n].offerings != []
    ensures forall o :: o in entries[n].offerings ==> Usable(o, compatible) && o.price == price
    ensures forall t, o :: t in types && o in t.offerings && Usable(o, compatible) && o.price < price ==>
              SkippedBefore(t, compatible, o.price, entries, limitFallback, fates, n)
  {
    var slots := OrderedMeans(types, compatible, entries);
    price := EntryHas(types, compatible, entries, slots, n);
    forall t, o | t in types && o in t.offerings && Usable(o, compatible) && o.price < price
      ensures SkippedBefore(t, compatible, o.price, entries, limitFallback, fates, n)
    {
      var index: nat :| index < |types| && types[index] == t;
      LowerIsBefore(types, compatible, entries, slots, limitFallback, fates, n, index, o);
    }
  }

  lemma NodeIsLast(w: World, entries: seq<InstanceType>, limitFallback: bool, fates: seq<Fate>, r: Created)
      returns (n: nat)
    requires Ends(w, entries, limitFallback, fates, r) && r.Node?
    ensures n == r.entry == |fates| - 1 && n < |entries| && AllSkipped(fates[..n], limitFallback)
  {
    n := |fates| - 1;
  }

  lemma EntryHas(types: seq<InstanceType>, compatible: Offering -> bool, entries: seq<InstanceType>, slots: seq<Slot>,
                 n: nat) returns (price: real)
    requires Describes(types, compatible, entries, slots) && n < |entries|
    ensures price == slots[n].price && entries[n].offerings != []
    ensures forall o :: o in entries[n].offerings ==> Usable(o, compatible) && o.price == price
  {
    price := slots[n].price;
    assert slots[n] in slots;
    EntryOfferings(types[slots[n].index], compatible, price, entries[n]);
  }

  lemma LowerIsBefore(types: seq<InstanceType>, compatible: Offering -> bool, entries: seq<InstanceType>,
                      slots: seq<Slot>, limitFallback: bool, fates: seq<Fate>, n: nat, index: nat, o: Offering)
    requires Describes(types, compatible, entries, slots)
    requires index < |types| && o in types[index].offerings && Usable(o, compatible)
    requires n < |slots| && n < |fates| && o.price < slots[n].price && AllSkipped(fates[..n], limitFallback)
    ensures SkippedBefore(types[index], compatible, o.price, entries, limitFallback, fates, n)
  {
    var k := EntryFor(types, compatible, entries, slots, index, o);
    assert slots[k].price < slots[n].price && k < n;
    assert fates[..n][k] == fates[k];
  }

  /** The offerings of an entry, as placement reads them. */
  lemma OfferedTo(w: World, entry: InstanceType, compatible: Offering -> bool, o: Offering)
    requires o in entry.offerings && Usable(o, compatible)
    ensures w.offering(o) in OfferingsOf(w, entry, compatible)
  {
    EligibleMeans(entry.offerings, compatible);
    var eligible := Eligible(entry.offerings, compatible);
    var i :| 0 <= i < |eligible| && eligible[i] == o;
    assert OfferingsOf(w, entry, compatible)[i] == w.offering(o);
  }

  /** An entry that was skipped after placement tried all proposals of it. */
  lemma SkippedTriesAll(view: P.View, claim: Claim, w: World, n: nat, entry: InstanceType, compatible: Offering -> bool,
                        f: Fate, limitFallback: bool, o: Offering) returns (j: nat)
    requires Handled(view, claim, w, n, entry, compatible, f) && Skipped(f, limitFallback)
    requires w.imageResolves(entry.shape) && w.restrictions(n).Restricted?
    requires o in entry.offerings && Usable(o, compatible)
    requires Q.Proposable(w.restrictions(n).rs, w.offering(o), claim.faultDomain)
    ensures f.Placed? && j < |f.order| && w.launch(n, j, f.order[j]).NotLaunched?
    ensures B.SiteOf(f.order[j]) == B.Site(w.offering(o).ad, Q.FaultDomainFor(w.offering(o), claim.faultDomain))
  {
    var rs, offerings := w.restrictions(n).rs, OfferingsOf(w, entry, compatible);
    var site := B.Site(w.offering(o).ad, Q.FaultDomainFor(w.offering(o), claim.faultDomain));
    OfferedTo(w, entry, compatible, o);
    Q.SiteProposedIff(rs, offerings, claim.faultDomain, claim.name, site);
    Q.SameProposed(f.order, P.Proposals(rs, offerings, claim.faultDomain, claim.name), site);
    j :| 0 <= j < |f.order| && B.SiteOf(f.order[j]) == site;
    if OutcomeFrom(view, claim, w, n, f) {
      SkippedIffLastSkippable(view, claim, w, n, f, limitFallback);
    } else {
      SkippedIffLastSkippable(view - {claim.name}, claim, w, n, f, limitFallback);
    }
  }

  /** Capacity is reported as insufficient only after an attempt failed at the site of every usable offering, as far as
      images resolve and the restrictions let the offering be proposed. */
  lemma ExhaustedTriesAll(view: P.View, claim: Claim, types: seq<InstanceType>, compatible: Offering -> bool, w: World,
                          entries: seq<InstanceType>, limitFallback: bool, fates: seq<Fate>, index: nat, o: Offering)
      returns (n: nat, j: nat)
    requires OrderedByPrice(types, compatible, entries)
    requires AllHandled(view, claim, w, entries, compatible, fates)
    requires Ends(w, entries, limitFallback, fates, InsufficientCapacity)
    requires index < |types| && o in types[index].offerings && Usable(o, compatible)
    requires w.imageResolves(types[index].shape)
    requires forall n :: w.restrictions(n).Restricted?
    requires forall n :: Q.Proposable(w.restrictions(n).rs, w.offering(o), claim.faultDomain)
    ensures n < |fates| && fates[n].Placed? && j < |fates[n].order|
    ensures w.launch(n, j, fates[n].order[j]).NotLaunched?
    ensures B.SiteOf(fates[n].order[j]) ==
              B.Site(w.offering(o).ad, Q.FaultDomainFor(w.offering(o), claim.faultDomain))
  {
    var slots := OrderedMeans(types, compatible, entries);
    n := EntryFor(types, compatible, entries, slots, index, o);
    EntryOfferings(types[index], compatible, o.price, entries[n]);
    assert Handled(view, claim, w, n, entries[n], compatible, fates[n]);
    j := SkippedTriesAll(view, claim, w, n, entries[n], compatible, fates[n], limitFallback, o);
  }

  /** Without a usable offering nothing is tried, and capacity is insufficient at once; with one, something is. */
  lemma NothingUsable(types: seq<InstanceType>, compatible: Offering -> bool, w: World, entries: seq<InstanceType>,
                      limitFallback: bool, fates: seq<Fate>, r: Created)
    requires OrderedByPrice(types, compatible, entries) && Ends(w, entries, limitFallback, fates, r)
    ensures fates == [] <==> forall t, o :: t in types && o in t.offerings ==> !Usable(o, compatible)
    ensures fates == [] ==> r == InsufficientCapacity
  {
    NothingOrderedIff(types, compatible, entries);
  }
}
