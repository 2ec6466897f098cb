/** What placement proposes, said offering by offering. */
module ProposalMeaning {
  import opened Common
  import opened LaunchErrors
  import opened Placement
  import opened PlacementBalance
  import opened Balance
  import R = Reservations

  // ---- Labels ----

  predicate EndsInDot(s: string) { s == "" || s[|s| - 1] == '.' }

  /** The label is the end of the OCID after its last dot, or the last 63 characters of that. */
  lemma LabelMeans(ocid: string) returns (rest: string)
    ensures ocid == rest + OcidToLabelValue(ocid) && '.' !in OcidToLabelValue(ocid)
    ensures |OcidToLabelValue(ocid)| < 63 ==> EndsInDot(rest)
    ensures |OcidToLabelValue(ocid)| <= 63
  {
    rest := LastElementMeans(ocid);
    var last := LastElement(ocid);
    if |last| > 63 {
      rest := rest + last[..|last| - 63];
    }
  }

  lemma {:induction false} LastElementMeans(ocid: string) returns (rest: string)
    ensures ocid == rest + LastElement(ocid) && EndsInDot(rest) && '.' !in LastElement(ocid)
  {
    rest := ocid;
    if !EndsInDot(ocid) {
      rest := LastElementMeans(ocid[..|ocid| - 1]);
    }
  }

  // ---- What one offering gives ----

  /** The claim's fault domain counts first, then that of a reserved offering, and no other. */
  function FaultDomainFor(o: Offering, claimFd: Option<string>): Option<string> {
    match claimFd
    case Some(_) => claimFd
    case None => if o.reservation == None then None else o.fd
  }

  /** Reservation `k` is the first that carries the label. */
  predicate Carries(reservations: seq<R.Reservation>, labelValue: string, k: nat) {
    && k < |reservations| && OcidToLabelValue(reservations[k].ocid) == labelValue
    && forall j :: 0 <= j < k ==> OcidToLabelValue(reservations[j].ocid) != labelValue
  }

  /** Reservation `k` is the one that a reserved offering is for, and has room in its place. */
  ghost predicate HasRoom(rs: Restrictions, o: Offering, claimFd: Option<string>, k: nat) {
    && o.reservation.Some? && rs.reservations.Some? && Carries(rs.reservations.value, o.reservation.value, k)
    && R.Admits(rs.reservations.value[k].records, rs.request, FaultDomainFor(o, claimFd))
  }

  /** An offering that is not reserved gives one proposal if nothing restricts it; with a compute cluster, one in the
      cluster's domain; with placement groups, one for each group of its domain. */
  ghost predicate GivesUnreserved(rs: Restrictions, o: Offering, part: seq<Proposal>)
  {
    && (forall q :: q in part ==> q.reservationId == None)
    && if rs.computeCluster.Some? then
         && |part| == (if rs.computeCluster.value.ad == o.ad then 1 else 0)
         && forall q :: q in part ==>
              q.computeClusterId == Some(rs.computeCluster.value.ocid) && q.placementGroupId == None
       else if rs.placementGroups.Some? then
         && |part| == (if o.ad in rs.placementGroups.value then |rs.placementGroups.value[o.ad]| else 0)
         && forall n :: 0 <= n < |part| ==>
              part[n].computeClusterId == None && part[n].placementGroupId == Some(rs.placementGroups.value[o.ad][n])
       else
         |part| == 1 && part[0].computeClusterId == None && part[0].placementGroupId == None
  }

  /** A reserved one gives one proposal if its reservation has room, for that reservation and nothing else. */
  ghost predicate GivesReserved(rs: Restrictions, o: Offering, claimFd: Option<string>, part: seq<Proposal>) {
    && (part == [] <==> forall k: nat :: !HasRoom(rs, o, claimFd, k))
    && |part| <= 1
    && forall q, k: nat :: q in part && HasRoom(rs, o, claimFd, k) ==>
         && q.reservationId == Some(rs.reservations.value[k].ocid)
         && q.computeClusterId == None && q.placementGroupId == None
  }

  ghost predicate Gives(rs: Restrictions, o: Offering, claimFd: Option<string>, claim: string, part: seq<Proposal>) {
    && (forall q :: q in part ==> q.ad == o.ad && q.tempIdentifier == claim && q.fd == FaultDomainFor(o, claimFd))
    && if o.reservation.Some? then GivesReserved(rs, o, claimFd, part) else GivesUnreserved(rs, o, part)
  }

  lemma CarriesTail(reservations: seq<R.Reservation>, labelValue: string, k: nat)
    requires reservations != [] && OcidToLabelValue(reservations[0].ocid) != labelValue
    ensures !Carries(reservations, labelValue, 0)
    ensures Carries(reservations, labelValue, k + 1) <==> Carries(reservations[1..], labelValue, k)
  {
    var rest := reservations[1..];
    assert forall j :: 0 <= j < |rest| ==> rest[j] == reservations[j + 1];
    if Carries(rest, labelValue, k) {
      forall j | 0 <= j < k + 1 ensures OcidToLabelValue(reservations[j].ocid) != labelValue {
        assert j > 0 ==> reservations[j] == rest[j - 1];
      }
    }
  }

  lemma {:induction false} FindMeans(reservations: seq<R.Reservation>, labelValue: string) returns (k: nat)
    ensures var found := Find(reservations, labelValue);
            if found.Some? then Carries(reservations, labelValue, k) && found.value == reservations[k]
            else forall j: nat :: !Carries(reservations, labelValue, j)
  {
    k := 0;
    if reservations != [] && OcidToLabelValue(reservations[0].ocid) != labelValue {
      var l := FindMeans(reservations[1..], labelValue);
      k := l + 1;
      CarriesTail(reservations, labelValue, l);
      forall j: nat | Find(reservations, labelValue).None? ensures !Carries(reservations, labelValue, j) {
        CarriesTail(reservations, labelValue, if j > 0 then j - 1 else 0);
      }
    }
  }

  lemma OneCarries(reservations: seq<R.Reservation>, labelValue: string, k: nat, l: nat)
    requires Carries(reservations, labelValue, k) && Carries(reservations, labelValue, l)
    ensures k == l
  {
  }

  lemma OfferingGives(rs: Restrictions, o: Offering, claimFd: Option<string>, claim: string)
    ensures Gives(rs, o, claimFd, claim, Decorate(rs, ProposalOf(o, claimFd, claim)))
  {
    var p := ProposalOf(o, claimFd, claim);
    DecorationKeepsPlace(rs, p);
    if o.reservation.Some? && rs.reservations.Some? {
      var k := FindMeans(rs.reservations.value, o.reservation.value);
      forall l: nat | Carries(rs.reservations.value, o.reservation.value, l) ensures l == k {
        OneCarries(rs.reservations.value, o.reservation.value, k, l);
      }
      assert HasRoom(rs, o, claimFd, k) <==> Decorate(rs, p) != [];
    }
  }

  // ---- What all give ----

  function Flat(parts: seq<seq<Proposal>>): seq<Proposal> {
    if parts == [] then [] else Flat(parts[..|parts| - 1]) + parts[|parts| - 1]
  }

  lemma {:induction false} FlatMeans(parts: seq<seq<Proposal>>, q: Proposal)
    ensures q in Flat(parts) <==> exists n :: 0 <= n < |parts| && q in parts[n]
  {
    if parts != [] {
      var front := parts[..|parts| - 1];
      FlatMeans(front, q);
      if q in Flat(front) {
        var n :| 0 <= n < |front| && q in front[n];
        assert q in parts[n];
      }
    }
  }

  /** The proposals are what the offerings give, one after the other. */
  lemma {:induction false} ProposalsMean(rs: Restrictions, offerings: seq<Offering>, claimFd: Option<string>,
                                         claim: string) returns (parts: seq<seq<Proposal>>)
    ensures Proposals(rs, offerings, claimFd, claim) == Flat(parts) && |parts| == |offerings|
    ensures forall n :: 0 <= n < |offerings| ==> Gives(rs, offerings[n], claimFd, claim, parts[n])
  {
    parts := [];
    if offerings != [] {
      var last := offerings[|offerings| - 1];
      var before := ProposalsMean(rs, offerings[..|offerings| - 1], claimFd, claim);
      OfferingGives(rs, last, claimFd, claim);
      parts := before + [Decorate(rs, ProposalOf(last, claimFd, claim))];
      assert parts[..|before|] == before;
    }
  }

  /** The offering gives some proposal. */
  ghost predicate Proposable(rs: Restrictions, o: Offering, claimFd: Option<string>) {
    if o.reservation.Some? then exists k: nat :: HasRoom(rs, o, claimFd, k)
    else if rs.computeCluster.Some? then rs.computeCluster.value.ad == o.ad
    else if rs.placementGroups.Some? then o.ad in rs.placementGroups.value && rs.placementGroups.value[o.ad] != []
    else true
  }

  lemma GivesSome(rs: Restrictions, o: Offering, claimFd: Option<string>, claim: string, part: seq<Proposal>)
    requires Gives(rs, o, claimFd, claim, part)
    ensures part != [] <==> Proposable(rs, o, claimFd)
  {
  }

  /** Some offering at the site gives a proposal. */
  ghost predicate Offered(rs: Restrictions, offerings: seq<Offering>, claimFd: Option<string>, s: Site) {
    exists o :: o in offerings && Proposable(rs, o, claimFd) && o.ad == s.ad && FaultDomainFor(o, claimFd) == s.fd
  }

  lemma ProposedIsOffered(rs: Restrictions, offerings: seq<Offering>, claimFd: Option<string>, claim: string, s: Site)
    requires Proposes(Proposals(rs, offerings, claimFd, claim), s)
    ensures Offered(rs, offerings, claimFd, s)
  {
    var ps := Proposals(rs, offerings, claimFd, claim);
    var parts := ProposalsMean(rs, offerings, claimFd, claim);
    var k :| 0 <= k < |ps| && SiteOf(ps[k]) == s;
    FlatMeans(parts, ps[k]);
    var n :| 0 <= n < |parts| && ps[k] in parts[n];
    GivesSome(rs, offerings[n], claimFd, claim, parts[n]);
    assert offerings[n] in offerings;
  }

  lemma OfferedIsProposed(rs: Restrictions, offerings: seq<Offering>, claimFd: Option<string>, claim: string, s: Site)
    requires Offered(rs, offerings, claimFd, s)
    ensures Proposes(Proposals(rs, offerings, claimFd, claim), s)
  {
    var ps := Proposals(rs, offerings, claimFd, claim);
    var parts := ProposalsMean(rs, offerings, claimFd, claim);
    var o :| o in offerings && Proposable(rs, o, claimFd) && o.ad == s.ad && FaultDomainFor(o, claimFd) == s.fd;
    var n :| 0 <= n < |offerings| && offerings[n] == o;
    GivesSome(rs, o, claimFd, claim, parts[n]);
    FlatMeans(parts, parts[n][0]);
    var k :| 0 <= k < |ps| && ps[k] == parts[n][0];
    assert SiteOf(ps[k]) == s;
  }

  /** There is a proposal for a site exactly if some offering there gives one. */
  lemma SiteProposedIff(rs: Restrictions, offerings: seq<Offering>, claimFd: Option<string>, claim: string, s: Site)
    ensures Proposes(Proposals(rs, offerings, claimFd, claim), s) <==> Offered(rs, offerings, claimFd, s)
  {
    if Offered(rs, offerings, claimFd, s) {
      OfferedIsProposed(rs, offerings, claimFd, claim, s);
    } else if Proposes(Proposals(rs, offerings, claimFd, claim), s) {
      ProposedIsOffered(rs, offerings, claimFd, claim, s);
      assert false;
    }
  }

  /** There is nothing to try, and placement panics, exactly if no offering gives a proposal. */
  lemma NothingTriedIff(rs: Restrictions, offerings: seq<Offering>, claimFd: Option<string>, claim: string,
                        order: seq<Proposal>)
    requires multiset(order) == multiset(Proposals(rs, offerings, claimFd, claim))
    ensures order == [] <==> forall o :: o in offerings ==> !Proposable(rs, o, claimFd)
  {
    assert |order| == |multiset(order)| == |Proposals(rs, offerings, claimFd, claim)|;
    var ps := Proposals(rs, offerings, claimFd, claim);
    if ps != [] {
      SiteProposedIff(rs, offerings, claimFd, claim, SiteOf(ps[0]));
      assert Proposes(ps, SiteOf(ps[0]));
    } else {
      forall o | o in offerings ensures !Proposable(rs, o, claimFd) {
        SiteProposedIff(rs, offerings, claimFd, claim, Site(o.ad, FaultDomainFor(o, claimFd)));
        assert !Proposes(ps, Site(o.ad, FaultDomainFor(o, claimFd)));
      }
    }
  }

  /** What placement tries covers a set of sites exactly if each has an offering that gives a proposal. */
  lemma CoversIff(rs: Restrictions, offerings: seq<Offering>, claimFd: Option<string>, claim: string,
                  order: seq<Proposal>, sites: seq<Site>)
    requires multiset(order) == multiset(Proposals(rs, offerings, claimFd, claim))
    ensures Covers(order, sites) <==> forall i :: 0 <= i < |sites| ==> Offered(rs, offerings, claimFd, sites[i])
  {
    var ps := Proposals(rs, offerings, claimFd, claim);
    forall i | 0 <= i < |sites| ensures Proposes(order, sites[i]) <==> Offered(rs, offerings, claimFd, sites[i]) {
      SiteProposedIff(rs, offerings, claimFd, claim, sites[i]);
      SameProposed(order, ps, sites[i]);
    }
  }

  /** The first try is at a least loaded site of all that have an offering that gives a proposal. */
  lemma FirstTryAmongOfferings(view: View, rs: Restrictions, offerings: seq<Offering>, claimFd: Option<string>,
                               claim: string, order: seq<Proposal>, tried: nat, sites: seq<Site>, i: nat)
    requires multiset(order) == multiset(Proposals(rs, offerings, claimFd, claim))
    requires tried > 0 && TriedInOrder(view, claim, order, tried)
    requires forall j :: 0 <= j < |sites| ==> Offered(rs, offerings, claimFd, sites[j])
    requires i < |sites| && sites[i] == SiteOf(order[0])
    ensures LeastLoaded(Loads(view, sites), i)
  {
    CoversIff(rs, offerings, claimFd, claim, order, sites);
    FirstTryIsLeastLoaded(view, claim, order, tried, sites, i);
  }

  lemma SameProposed(a: seq<Proposal>, b: seq<Proposal>, s: Site)
    requires multiset(a) == multiset(b)
    ensures Proposes(a, s) <==> Proposes(b, s)
  {
    if Proposes(a, s) {
      var k :| 0 <= k < |a| && SiteOf(a[k]) == s;
      assert a[k] in multiset(b);
    }
    if Proposes(b, s) {
      var k :| 0 <= k < |b| && SiteOf(b[k]) == s;
      assert b[k] in multiset(a);
    }
  }
}
