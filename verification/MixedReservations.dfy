/** Reservations whose records are partly for the whole domain and partly for fault domains: the ledger counts a launch
    against both kinds, but a launch is admitted against one of them only. */
module MixedReservations {
  import opened Common
  import opened UsageLedger
  import opened Reservations

  /** A fault domain that is given has a name. */
  ghost predicate Named(records: seq<Record>) {
    forall r :: r in records ==> r.faultDomain != Some("")
  }

  /** Over every run, the bucket of every record that the request matches stays within its total. */
  ghost predicate Bounded(snapshot: Reservation, sized: string -> bool, req: Request) {
    forall steps, r :: Run(snapshot, sized, steps) && r in snapshot.records && Matches(req, r) ==>
      Kept(snapshot.records, steps, req, r.faultDomain)
  }

  // ---- A run that breaks the bound ----

  /** An instance that the request gives, in a fault domain. */
  function Booked(req: Request, fd: string): (i: Instance)
    ensures i.shape == req.shape && i.faultDomain == fd
    ensures KeyOfInstance(i) == BookedKey(req)
  {
    if req.sized then Instance(req.shape, req.ocpu, req.gbs, fd, None) else Instance(req.shape, None, None, fd, None)
  }

  /** `n` times: an instance in `g` ends, and a launch for the domain lands in `f`. */
  function Pairs(req: Request, f: string, g: string, now: int, n: nat): (steps: seq<Step>)
    ensures |steps| == 2 * n
  {
    if n == 0 then []
    else Pairs(req, f, g, now, n - 1) + [Terminate(Booked(req, g), now)] + [Launch(req, None, Booked(req, f), now)]
  }

  lemma OneMoreStep(steps: seq<Step>, s: Step, uk: UsageKey, fd: Option<string>)
    ensures Events(steps + [s]) == Events(steps) + [EventOf(s)]
    ensures Increases(Events(steps + [s]), uk, fd) ==
              Increases(Events(steps), uk, fd) + (if s.Launch? && Concerns(EventOf(s), uk, fd) then 1 else 0)
    ensures Decreases(Events(steps + [s]), uk, fd) ==
              Decreases(Events(steps), uk, fd) + (if s.Terminate? && Concerns(EventOf(s), uk, fd) then 1 else 0)
  {
    assert (steps + [s])[..|steps|] == steps;
    assert Events(steps + [s])[..|steps|] == Events(steps);
  }

  /** A launch that is admitted, or the end of an instance, carries a run on. */
  lemma RunGoesOn(snapshot: Reservation, sized: string -> bool, steps: seq<Step>, s: Step)
    requires Run(snapshot, sized, steps) && snapshot.time < s.now
    requires BookedAs(s.instance, s.instance.shape, sized(s.instance.shape))
    requires s.Launch? ==>
               && s.req.sized == sized(s.req.shape) && AsRequested(s)
               && Admits(Reported(snapshot, LedgerAfter(steps)), s.req, s.fd)
    ensures Run(snapshot, sized, steps + [s])
  {
    assert (steps + [s])[..|steps|] == steps;
  }

  /** With fewer in use than the snapshot says, a bucket that exists has room. */
  lemma {:induction false} RoomBelow(records: seq<Record>, adjusted: seq<Record>, req: Request, name: string, n: int)
    requires Sound(records) && AddsTo(records, adjusted, req, name, n) && n < 0
    ensures SumUsed(adjusted, req, name) <= SumTotal(adjusted, req, name)
    ensures Has(records, req, name) ==> SumUsed(adjusted, req, name) < SumTotal(adjusted, req, name)
  {
    if records != [] {
      RoomBelow(records[..|records| - 1], adjusted[..|records| - 1], req, name, n);
    }
  }

  /** What a number of pairs comes to: as many ends as launches, and all launches in `f`. */
  ghost predicate Paired(steps: seq<Step>, req: Request, f: string, n: nat) {
    && Increases(Events(steps), BookedKey(req), None) == Decreases(Events(steps), BookedKey(req), None)
    && Increases(Events(steps), BookedKey(req), Some(f)) == n
    && Decreases(Events(steps), BookedKey(req), Some(f)) == 0
  }

  lemma OneMorePair(snapshot: Reservation, sized: string -> bool, req: Request, f: string, g: string, n: nat,
                    before: seq<Step>, end: Step, launch: Step)
    requires Sound(snapshot.records) && Named(snapshot.records) && f != g
    requires req.sized == sized(req.shape) && (req.sized ==> req.ocpu.Some? && req.gbs.Some?)
    requires Has(snapshot.records, req, "")
    requires end == Terminate(Booked(req, g), snapshot.time + 1)
    requires launch == Launch(req, None, Booked(req, f), snapshot.time + 1)
    requires Run(snapshot, sized, before) && Paired(before, req, f, n)
    ensures Run(snapshot, sized, before + [end] + [launch]) && Paired(before + [end] + [launch], req, f, n + 1)
  {
    var key := BookedKey(req);
    OneMoreStep(before, end, key, None);
    OneMoreStep(before, end, key, Some(f));
    RunGoesOn(snapshot, sized, before, end);
    AdmittedBelow(snapshot, sized, before + [end], req);
    RunGoesOn(snapshot, sized, before + [end], launch);
    OneMoreStep(before + [end], launch, key, None);
    OneMoreStep(before + [end], launch, key, Some(f));
  }

  lemma {:induction false} PairsRun(snapshot: Reservation, sized: string -> bool, req: Request, f: string, g: string,
                                    n: nat)
    requires Sound(snapshot.records) && Named(snapshot.records) && f != g
    requires req.sized == sized(req.shape) && (req.sized ==> req.ocpu.Some? && req.gbs.Some?)
    requires Has(snapshot.records, req, "")
    ensures Run(snapshot, sized, Pairs(req, f, g, snapshot.time + 1, n))
    ensures Paired(Pairs(req, f, g, snapshot.time + 1, n), req, f, n)
  {
    if n > 0 {
      PairsRun(snapshot, sized, req, f, g, n - 1);
      OneMorePair(snapshot, sized, req, f, g, n - 1, Pairs(req, f, g, snapshot.time + 1, n - 1),
                  Terminate(Booked(req, g), snapshot.time + 1), Launch(req, None, Booked(req, f), snapshot.time + 1));
    }
  }

  /** When more instances ended than were launched, a launch for the domain is admitted. */
  lemma AdmittedBelow(snapshot: Reservation, sized: string -> bool, steps: seq<Step>, req: Request)
    requires Run(snapshot, sized, steps) && Sound(snapshot.records) && Named(snapshot.records)
    requires req.sized == sized(req.shape) && (req.sized ==> req.ocpu.Some? && req.gbs.Some?)
    requires Has(snapshot.records, req, "")
    requires Increases(Events(steps), BookedKey(req), None) < Decreases(Events(steps), BookedKey(req), None)
    ensures Admits(Reported(snapshot, LedgerAfter(steps)), req, None)
  {
    var n := InCells(Replay(Events(steps)), BookedKey(req), None);
    LedgerIsHistory(Events(steps));
    ReportedBucket(snapshot, sized, steps, req, None);
    RoomBelow(snapshot.records, Reported(snapshot, LedgerAfter(steps)), req, "", n);
  }

  /** The bound holds over every run if and only if the matching records are not mixed: if they are, launches for the
      domain can fill a fault domain without end while instances elsewhere end. */
  lemma BoundedIffUnmixed(snapshot: Reservation, sized: string -> bool, req: Request)
    requires Sound(snapshot.records) && Named(snapshot.records)
    requires req.sized == sized(req.shape) && (req.sized ==> req.ocpu.Some? && req.gbs.Some?)
    ensures Bounded(snapshot, sized, req) <==> Unmixed(snapshot.records, req)
  {
    if Unmixed(snapshot.records, req) {
      forall steps, r | Run(snapshot, sized, steps) && r in snapshot.records && Matches(req, r)
        ensures Kept(snapshot.records, steps, req, r.faultDomain)
      {
        NeverOvercommitted(snapshot, sized, steps, req, r);
      }
    } else {
      var one :| one in snapshot.records && Matches(req, one) && one.faultDomain.Some?;
      var other :| other in snapshot.records && Matches(req, other) && FdName(other.faultDomain) == "";
      HasMeans(snapshot.records, req, "");
      assert InBucket(req, "", other);
      var f := one.faultDomain.value;
      var n := SumTotal(snapshot.records, req, f) - SumUsed(snapshot.records, req, f) + 1;
      FullBucket(snapshot.records, snapshot.records, req, f, 0);
      PairsRun(snapshot, sized, req, f, f + "x", n);
      var steps := Pairs(req, f, f + "x", snapshot.time + 1, n);
      assert !Kept(snapshot.records, steps, req, one.faultDomain);
    }
  }

  /** Two places for the whole domain, and one in a fault domain. */
  function TwoAndOne(): seq<Record> {
    [Record("ad", None, 2, 0, "s", None, None), Record("ad", Some("f"), 1, 0, "s", None, None)]
  }

  /** What a run adds to the use of the records that a request matches, in a fault domain or in all. */
  function Net(steps: seq<Step>, req: Request, fd: Option<string>): int {
    Increases(Events(steps), BookedKey(req), fd) - Decreases(Events(steps), BookedKey(req), fd)
  }

  /** A bucket of one record with room for what the run adds admits a launch. */
  lemma AdmittedWithRoom(snapshot: Reservation, sized: string -> bool, steps: seq<Step>, req: Request,
                         fd: Option<string>, k: nat)
    requires Run(snapshot, sized, steps) && Sound(snapshot.records) && k < |snapshot.records|
    requires req.sized == sized(req.shape) && (req.sized ==> req.ocpu.Some? && req.gbs.Some?)
    requires forall j :: 0 <= j < |snapshot.records| ==> (InBucket(req, FdName(fd), snapshot.records[j]) <==> j == k)
    requires snapshot.records[k].faultDomain == fd
    requires snapshot.records[k].used + Net(steps, req, fd) < snapshot.records[k].total
    ensures Admits(Reported(snapshot, LedgerAfter(steps)), req, fd)
  {
    LedgerIsHistory(Events(steps));
    ReportedBucket(snapshot, sized, steps, req, fd);
    var records, reported := snapshot.records, Reported(snapshot, LedgerAfter(steps));
    forall j | 0 <= j < |reported| ensures InBucket(req, FdName(fd), reported[j]) <==> j == k {
      assert AddsToRecord(records[j], reported[j], req, FdName(fd), InCells(Replay(Events(steps)), BookedKey(req), fd));
    }
    OneInBucket(reported, req, FdName(fd), k);
  }

  lemma LaunchAdds(steps: seq<Step>, s: Step, req: Request)
    requires s.Launch? && KeyOfInstance(s.instance) == BookedKey(req)
    ensures Net(steps + [s], req, None) == Net(steps, req, None) + 1
    ensures forall name ::
              Net(steps + [s], req, Some(name)) ==
                Net(steps, req, Some(name)) + if name == s.instance.faultDomain then 1 else 0
  {
    OneMoreStep(steps, s, BookedKey(req), None);
    forall name ensures
        Net(steps + [s], req, Some(name)) ==
          Net(steps, req, Some(name)) + if name == s.instance.faultDomain then 1 else 0
    {
      OneMoreStep(steps, s, BookedKey(req), Some(name));
    }
  }

  /** A launch carries a run on if it asks for a bucket of one record that has room. */
  lemma LaunchGoesOn(snapshot: Reservation, sized: string -> bool, steps: seq<Step>, req: Request,
                     fd: Option<string>, k: nat, landed: string) returns (more: seq<Step>)
    requires Run(snapshot, sized, steps) && Sound(snapshot.records) && k < |snapshot.records|
    requires req.sized == sized(req.shape) && (req.sized ==> req.ocpu.Some? && req.gbs.Some?)
    requires forall j :: 0 <= j < |snapshot.records| ==> (InBucket(req, FdName(fd), snapshot.records[j]) <==> j == k)
    requires snapshot.records[k].faultDomain == fd && (fd.Some? ==> landed == fd.value)
    requires snapshot.records[k].used + Net(steps, req, fd) < snapshot.records[k].total
    ensures Run(snapshot, sized, more)
    ensures more == steps + [Launch(req, fd, Booked(req, landed), snapshot.time + 1)]
    ensures Net(more, req, None) == Net(steps, req, None) + 1
    ensures forall name :: Net(more, req, Some(name)) == Net(steps, req, Some(name)) + if name == landed then 1 else 0
  {
    var s := Launch(req, fd, Booked(req, landed), snapshot.time + 1);
    AdmittedWithRoom(snapshot, sized, steps, req, fd, k);
    RunGoesOn(snapshot, sized, steps, s);
    more := steps + [s];
    LaunchAdds(steps, s, req);
  }

  /** Launches alone can do it: two for the domain, both admitted, land in a fault domain that holds one. */
  lemma LaunchesAloneOvercommit(sized: string -> bool) returns (snapshot: Reservation, req: Request, steps: seq<Step>)
    requires !sized("s")
    ensures Run(snapshot, sized, steps) && |steps| == 2 && steps[0].Launch? && steps[1].Launch?
    ensures snapshot.records == TwoAndOne() && !Kept(snapshot.records, steps, req, Some("f"))
  {
    snapshot := Reservation("r", "ad", TwoAndOne(), 0);
    req := Request("s", None, None, false);
    var one := LaunchGoesOn(snapshot, sized, [], req, None, 0, "f");
    steps := LaunchGoesOn(snapshot, sized, one, req, None, 0, "f");
    OneInBucket(snapshot.records, req, "f", 1);
  }

  // ---- What holds of mixed records ----

  function MatchingUsed(records: seq<Record>, req: Request): int {
    if records == [] then 0
    else
      var r := records[|records| - 1];
      MatchingUsed(records[..|records| - 1], req) + if Matches(req, r) then r.used else 0
  }

  /** Only instances that were launched in the run end in it: nowhere have more ended than were launched. */
  ghost predicate EndsOwn(steps: seq<Step>, key: UsageKey)
    decreases |steps|
  {
    && (forall fd: string :: Decreases(Events(steps), key, Some(fd)) <= Increases(Events(steps), key, Some(fd)))
    && (steps != [] ==> EndsOwn(steps[..|steps| - 1], key))
  }

  /** What the records leave for a fault domain. */
  function Room(records: seq<Record>, req: Request, name: string): int {
    if name == "" then 0 else SumTotal(records, req, name) - SumUsed(records, req, name)
  }

  function Rooms(records: seq<Record>, req: Request, names: set<string>): Row {
    map name | name in names :: Room(records, req, name)
  }

  function Over(x: int, room: int): nat { if x > room then x - room else 0 }

  /** By how much each fault domain is used beyond what the records leave for it. */
  function Overs(records: seq<Record>, req: Request, row: Row): Row {
    map name | name in row :: Over(row[name], Room(records, req, name))
  }

  ghost function RowOf(steps: seq<Step>, key: UsageKey): Row {
    var cells := Replay(Events(steps));
    if key in cells then cells[key] else map[]
  }

  /** Sums are monotone, entry by entry. */
  lemma {:induction false} SumMonotone(a: Row, b: Row, c: Row)
    requires a.Keys == b.Keys == c.Keys && forall name :: name in a ==> a[name] <= b[name] + c[name]
    ensures Sum(a) <= Sum(b) + Sum(c)
    decreases |a|
  {
    if a != map[] {
      var name :| name in a;
      SumSplit(a, name);
      SumSplit(b, name);
      SumSplit(c, name);
      SumMonotone(a - {name}, b - {name}, c - {name});
    } else {
      assert b == map[] && c == map[];
    }
  }

  /** The rooms of fault domains and of the domain are no more than all records leave. */
  lemma {:induction false} RoomsWithin(records: seq<Record>, req: Request, names: set<string>)
    requires Sound(records)
    ensures Sum(Rooms(records, req, names)) + SumTotal(records, req, "") - SumUsed(records, req, "")
         <= MatchingTotal(records, req) - MatchingUsed(records, req)
  {
    if records == [] {
      AllZero(Rooms(records, req, names));
    } else {
      var front, r := records[..|records| - 1], records[|records| - 1];
      RoomsWithin(front, req, names);
      var name := FdName(r.faultDomain);
      if Matches(req, r) && name != "" && name in names {
        assert Rooms(records, req, names) == AdjustRow(Rooms(front, req, names), name, r.total - r.used);
        RowAdjusted(Rooms(front, req, names), name, r.total - r.used, None);
      } else {
        assert Rooms(records, req, names) == Rooms(front, req, names);
      }
    }
  }

  lemma {:induction false} AllZero(row: Row)
    requires forall name :: name in row ==> row[name] == 0
    ensures Sum(row) == 0
    decreases |row|
  {
    if row != map[] {
      var name :| name in row;
      SumSplit(row, name);
      AllZero(row - {name});
    }
  }

  /** One event changes the excess at its own fault domain only. */
  lemma OversAdjusted(records: seq<Record>, req: Request, row: Row, fd: string, delta: int)
    ensures var x := if fd in row then row[fd] else 0;
            Sum(Overs(records, req, AdjustRow(row, fd, delta))) ==
              Sum(Overs(records, req, row)) + Over(x + delta, Room(records, req, fd))
                - (if fd in row then Over(x, Room(records, req, fd)) else 0)
  {
    var before, after := Overs(records, req, row), Overs(records, req, AdjustRow(row, fd, delta));
    var x := if fd in row then row[fd] else 0;
    var change := Over(x + delta, Room(records, req, fd)) - (if fd in row then Over(x, Room(records, req, fd)) else 0);
    assert after == AdjustRow(before, fd, change);
    RowAdjusted(before, fd, change, None);
  }

  ghost predicate Excess(snapshot: Reservation, steps: seq<Step>, req: Request) {
    Sum(Overs(snapshot.records, req, RowOf(steps, BookedKey(req))))
      <= SumTotal(snapshot.records, req, "") - SumUsed(snapshot.records, req, "")
  }

  lemma RowGrows(steps: seq<Step>, s: Step, key: UsageKey)
    ensures RowOf(steps + [s], key) ==
              if KeyOfInstance(s.instance) == key
              then AdjustRow(RowOf(steps, key), s.instance.faultDomain, if s.Launch? then 1 else -1)
              else RowOf(steps, key)
  {
    OneMoreStep(steps, s, key, None);
    assert Events(steps + [s])[..|steps|] == Events(steps);
  }

  /** Where nothing is below zero, the excess is no more than the sum. */
  lemma OversWithinSum(records: seq<Record>, req: Request, row: Row)
    requires Sound(records) && forall name :: name in row ==> row[name] >= 0
    ensures Sum(Overs(records, req, row)) <= Sum(row)
  {
    var zero: Row := map name | name in row :: 0;
    forall name | name in row ensures Over(row[name], Room(records, req, name)) <= row[name] {
      FullBucket(records, records, req, name, 0);
    }
    SumMonotone(Overs(records, req, row), row, zero);
    AllZero(zero);
  }

  lemma RowNotNegative(steps: seq<Step>, key: UsageKey)
    requires EndsOwn(steps, key)
    ensures forall name :: name in RowOf(steps, key) ==> RowOf(steps, key)[name] >= 0
  {
    LedgerIsHistory(Events(steps));
    forall name | name in RowOf(steps, key) ensures RowOf(steps, key)[name] >= 0 {
      assert InCells(Replay(Events(steps)), key, Some(name)) == RowOf(steps, key)[name];
    }
  }

  /** A launch finds room: either its fault domain is not full, or the sum is within what the domain records leave. */
  lemma LaunchFindsRoom(snapshot: Reservation, sized: string -> bool, before: seq<Step>, s: Step, req: Request)
    requires Run(snapshot, sized, before) && Sound(snapshot.records) && Named(snapshot.records)
    requires s.Launch? && AsRequested(s) && s.instance.faultDomain != ""
    requires Admits(Reported(snapshot, LedgerAfter(before)), s.req, s.fd)
    requires KeyOfInstance(s.instance) == BookedKey(req) && s.req.sized == req.sized == sized(req.shape)
    requires req.sized ==> req.ocpu.Some? && req.gbs.Some?
    ensures var row, fd := RowOf(before, BookedKey(req)), s.instance.faultDomain;
            || (if fd in row then row[fd] else 0) < Room(snapshot.records, req, fd)
            || Sum(row) < SumTotal(snapshot.records, req, "") - SumUsed(snapshot.records, req, "")
  {
    AdmittedFits(snapshot, sized, before, s, req, s.fd);
    if BookedKey(req) !in Replay(Events(before)) {
      var none: Row := map[];
      assert RowOf(before, BookedKey(req)) == none && Sum(none) == 0;
    }
  }

  lemma {:induction false} ExcessKept(snapshot: Reservation, sized: string -> bool, steps: seq<Step>, req: Request)
    requires Run(snapshot, sized, steps) && Sound(snapshot.records) && Named(snapshot.records)
    requires req.sized == sized(req.shape) && (req.sized ==> req.ocpu.Some? && req.gbs.Some?)
    requires EndsOwn(steps, BookedKey(req)) && forall s :: s in steps ==> s.instance.faultDomain != ""
    ensures Excess(snapshot, steps, req)
  {
    FullBucket(snapshot.records, snapshot.records, req, "", 0);
    if steps == [] {
      AllZero(Overs(snapshot.records, req, RowOf(steps, BookedKey(req))));
    } else {
      var before, s := steps[..|steps| - 1], steps[|steps| - 1];
      assert steps == before + [s];
      ExcessKept(snapshot, sized, before, req);
      ExcessStep(snapshot, sized, before, s, req);
    }
  }

  lemma ExcessStep(snapshot: Reservation, sized: string -> bool, before: seq<Step>, s: Step, req: Request)
    requires Run(snapshot, sized, before) && Sound(snapshot.records) && Named(snapshot.records)
    requires s.Launch? ==>
               && AsRequested(s) && s.req.sized == sized(s.req.shape)
               && Admits(Reported(snapshot, LedgerAfter(before)), s.req, s.fd)
    requires req.sized == sized(req.shape) && (req.sized ==> req.ocpu.Some? && req.gbs.Some?)
    requires EndsOwn(before, BookedKey(req)) && s.instance.faultDomain != "" && Excess(snapshot, before, req)
    ensures Excess(snapshot, before + [s], req)
  {
    var records, key, fd := snapshot.records, BookedKey(req), s.instance.faultDomain;
    var row := RowOf(before, key);
    RowGrows(before, s, key);
    if KeyOfInstance(s.instance) == key {
      OversAdjusted(records, req, row, fd, if s.Launch? then 1 else -1);
      RowNotNegative(before, key);
      FullBucket(records, records, req, fd, 0);
      if s.Launch? {
        LaunchFindsRoom(snapshot, sized, before, s, req);
        OversWithinSum(records, req, row);
      }
    }
  }

  /** Mixed or not, all matching records together are never overcommitted, as long as only instances end that were
      launched since the snapshot. */
  lemma TotalNeverOvercommitted(snapshot: Reservation, sized: string -> bool, steps: seq<Step>, req: Request)
    requires Run(snapshot, sized, steps) && Sound(snapshot.records) && Named(snapshot.records)
    requires req.sized == sized(req.shape) && (req.sized ==> req.ocpu.Some? && req.gbs.Some?)
    requires EndsOwn(steps, BookedKey(req)) && forall s :: s in steps ==> s.instance.faultDomain != ""
    ensures MatchingUsed(snapshot.records, req) + Net(steps, req, None) <= MatchingTotal(snapshot.records, req)
  {
    var records, row := snapshot.records, RowOf(steps, BookedKey(req));
    ExcessKept(snapshot, sized, steps, req);
    SumMonotone(row, Overs(records, req, row), Rooms(records, req, row.Keys));
    RoomsWithin(records, req, row.Keys);
    LedgerIsHistory(Events(steps));
    assert InCells(Replay(Events(steps)), BookedKey(req), None) == Sum(row) by {
      if BookedKey(req) !in Replay(Events(steps)) {
        var none: Row := map[];
        assert row == none && Sum(none) == 0;
      }
    }
  }

  /** One place for the domain, and one in a fault domain that is in use. */
  function FreeAndTaken(): seq<Record> {
    [Record("ad", None, 1, 0, "s", None, None), Record("ad", Some("h"), 1, 1, "s", None, None)]
  }

  /** An instance in `h` ends. */
  lemma EndGoesOn(snapshot: Reservation, sized: string -> bool, req: Request, h: string) returns (steps: seq<Step>)
    requires req.sized == sized(req.shape) && (req.sized ==> req.ocpu.Some? && req.gbs.Some?)
    ensures steps == [Terminate(Booked(req, h), snapshot.time + 1)] && Run(snapshot, sized, steps)
    ensures Net(steps, req, None) == Net(steps, req, Some(h)) == -1
  {
    var none: seq<Step> := [];
    var end := Terminate(Booked(req, h), snapshot.time + 1);
    OneMoreStep(none, end, BookedKey(req), None);
    OneMoreStep(none, end, BookedKey(req), Some(h));
    RunGoesOn(snapshot, sized, none, end);
    steps := none + [end];
  }

  /** If the end of an instance that was there before counts, all records together can be overcommitted: its place goes
      once to launches for the domain and once to a launch for its fault domain. */
  lemma EarlierEndOvercommitsTotal(sized: string -> bool)
      returns (snapshot: Reservation, req: Request, steps: seq<Step>)
    requires !sized("s")
    ensures Run(snapshot, sized, steps) && |steps| == 4 && snapshot.records == FreeAndTaken()
    ensures MatchingUsed(snapshot.records, req) + Net(steps, req, None) > MatchingTotal(snapshot.records, req)
  {
    snapshot := Reservation("r", "ad", FreeAndTaken(), 0);
    req := Request("s", None, None, false);
    steps := EndGoesOn(snapshot, sized, req, "h");
    steps := LaunchGoesOn(snapshot, sized, steps, req, None, 0, "x");
    steps := LaunchGoesOn(snapshot, sized, steps, req, None, 0, "x");
    steps := LaunchGoesOn(snapshot, sized, steps, req, Some("h"), 1, "h");
    TwoRecords(snapshot.records, req);
  }

  lemma TwoRecords(records: seq<Record>, req: Request)
    requires |records| == 2 && Matches(req, records[0]) && Matches(req, records[1])
    ensures MatchingUsed(records, req) == records[0].used + records[1].used
    ensures MatchingTotal(records, req) == records[0].total + records[1].total
  {
    assert records[..1] == [records[0]] && records[..1][..0] == [];
    assert MatchingUsed(records[..1], req) == records[0].used;
    assert MatchingTotal(records[..1], req) == records[0].total;
  }
}
