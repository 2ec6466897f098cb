/** Capacity reservations: what is left for a shape once the ledger is laid over the cached snapshot, and why launches
    that respect it never use more than is reserved. */
module Reservations {
  import opened Common
  import opened UsageLedger

  /** One line of a reservation; without a fault domain it holds for the whole availability domain. */
  datatype Record = Record(
    ad: string, faultDomain: Option<string>, total: int, used: int, shape: string, ocpu: Option<real>,
    gbs: Option<real>)

  /** A reservation as it was at `time`. */
  datatype Reservation = Reservation(ocid: string, ad: string, records: seq<Record>, time: int)

  datatype Ledger = Ledger(cells: Cells, lastCommit: int)

  /** `sized` tells shapes whose size can be configured. */
  datatype Request = Request(shape: string, ocpu: Option<real>, gbs: Option<real>, sized: bool)

  function KeyOfRecord(r: Record): UsageKey { UsageKey(r.shape, KeyOfShape(r.shape, r.ocpu, r.gbs)) }

  function BareKey(shape: string): UsageKey { UsageKey(shape, KeyOfShape(shape, None, None)) }

  predicate Matches(req: Request, r: Record) {
    KeyOfRecord(r).key == KeyOfShape(req.shape, req.ocpu, req.gbs) || (!req.sized && r.shape == req.shape)
  }

  /** A request matches the records of its shape: all of them if the shape has no configurable size, and otherwise those
      of the same size; a size is complete or counts as none. */
  lemma MatchesMeans(req: Request, r: Record)
    ensures !req.sized ==> (Matches(req, r) <==> r.shape == req.shape)
    ensures req.sized && req.ocpu.Some? && req.gbs.Some? ==>
              (Matches(req, r) <==> r.shape == req.shape && r.ocpu == req.ocpu && r.gbs == req.gbs)
    ensures req.sized && (req.ocpu.None? || req.gbs.None?) ==>
              (Matches(req, r) <==> r.shape == req.shape && (r.ocpu.None? || r.gbs.None?))
  {
  }

  function FdName(fd: Option<string>): string { if fd.Some? then fd.value else "" }

  predicate InBucket(req: Request, name: string, r: Record) {
    Matches(req, r) && FdName(r.faultDomain) == name
  }

  // ---- Availability by fault domain ----

  function SumTotal(records: seq<Record>, req: Request, name: string): int {
    if records == [] then 0
    else
      var r := records[|records| - 1];
      SumTotal(records[..|records| - 1], req, name) + if InBucket(req, name, r) then r.total else 0
  }

  function SumUsed(records: seq<Record>, req: Request, name: string): int {
    if records == [] then 0
    else
      var r := records[|records| - 1];
      SumUsed(records[..|records| - 1], req, name) + if InBucket(req, name, r) then r.used else 0
  }

  function MatchingTotal(records: seq<Record>, req: Request): int {
    if records == [] then 0
    else
      var r := records[|records| - 1];
      MatchingTotal(records[..|records| - 1], req) + if Matches(req, r) then r.total else 0
  }

  function Totals(buckets: map<string, Record>): Row {
    map name | name in buckets :: buckets[name].total
  }

  predicate Has(records: seq<Record>, req: Request, name: string) {
    records != [] && (InBucket(req, name, records[|records| - 1]) || Has(records[..|records| - 1], req, name))
  }

  function TotalAt(buckets: map<string, Record>, name: string): int {
    if name in buckets then buckets[name].total else 0
  }

  function UsedAt(buckets: map<string, Record>, name: string): int {
    if name in buckets then buckets[name].used else 0
  }

  /** `b` is bucket map `a` with record `r` merged in. */
  ghost predicate MergesOne(a: map<string, Record>, b: map<string, Record>, r: Record) {
    var name := FdName(r.faultDomain);
    && b.Keys == a.Keys + {name}
    && (forall k :: k in a && k != name ==> b[k] == a[k])
    && b[name].total == r.total + TotalAt(a, name)
    && b[name].used == r.used + UsedAt(a, name)
  }

  /** The bucket `name` merges the matching records of that fault domain. */
  predicate MergedAt(buckets: map<string, Record>, records: seq<Record>, req: Request, name: string) {
    && (name in buckets <==> Has(records, req, name))
    && TotalAt(buckets, name) == SumTotal(records, req, name)
    && UsedAt(buckets, name) == SumUsed(records, req, name)
  }

  ghost predicate Merges(buckets: map<string, Record>, records: seq<Record>, req: Request) {
    forall name :: MergedAt(buckets, records, req, name)
  }

  lemma MergesOneMore(a: map<string, Record>, b: map<string, Record>, records: seq<Record>, req: Request)
    requires records != [] && Merges(a, records[..|records| - 1], req)
    requires var r := records[|records| - 1]; if Matches(req, r) then MergesOne(a, b, r) else b == a
    ensures Merges(b, records, req)
  {
    forall name ensures MergedAt(b, records, req, name) {
      assert MergedAt(a, records[..|records| - 1], req, name);
    }
  }

  lemma {:induction false} HasMeans(records: seq<Record>, req: Request, name: string)
    ensures Has(records, req, name) <==> exists r :: r in records && InBucket(req, name, r)
    ensures !Has(records, req, name) ==> SumTotal(records, req, name) == SumUsed(records, req, name) == 0
  {
    if records != [] {
      HasMeans(records[..|records| - 1], req, name);
      assert forall r :: r in records <==> r in records[..|records| - 1] || r == records[|records| - 1];
    }
  }

  /** A bucket names the shape, and its size only if the shape is sized. */
  predicate Describes(bucket: Record, req: Request) {
    && bucket.shape == req.shape
    && bucket.ocpu == (if req.sized then req.ocpu else None)
    && bucket.gbs == (if req.sized then req.gbs else None)
  }

  method Merge(buckets: map<string, Record>, r: Record, req: Request) returns (out: map<string, Record>)
    requires forall name :: name in buckets ==> Describes(buckets[name], req)
    ensures MergesOne(buckets, out, r)
    ensures forall name :: name in out ==> Describes(out[name], req)
    ensures Sum(Totals(out)) == Sum(Totals(buckets)) + r.total
  {
    var name := FdName(r.faultDomain);
    var bucket :=
      if name in buckets then
        buckets[name].(total := buckets[name].total + r.total, used := buckets[name].used + r.used)
      else
        Record("", None, r.total, r.used, req.shape,
               if req.sized then req.ocpu else None, if req.sized then req.gbs else None);
    out := buckets[name := bucket];
    TotalsAdjusted(buckets, out, r);
  }

  /** Matching records are merged by fault domain; no reserved instance is lost or invented. */
  method AvailabilityForShape(records: seq<Record>, req: Request) returns (buckets: map<string, Record>)
    ensures Merges(buckets, records, req)
    ensures forall name :: name in buckets ==> Describes(buckets[name], req)
    ensures Sum(Totals(buckets)) == MatchingTotal(records, req)
  {
    buckets := map[];
    for n := 0 to |records|
      invariant Merges(buckets, records[..n], req)
      invariant forall name :: name in buckets ==> Describes(buckets[name], req)
      invariant Sum(Totals(buckets)) == MatchingTotal(records[..n], req)
    {
      ghost var before := buckets;
      assert records[..n + 1][..n] == records[..n];
      if Matches(req, records[n]) {
        buckets := Merge(buckets, records[n], req);
      }
      MergesOneMore(before, buckets, records[..n + 1], req);
    }
    assert records[..|records|] == records;
  }

  lemma TotalsAdjusted(a: map<string, Record>, b: map<string, Record>, r: Record)
    requires MergesOne(a, b, r)
    ensures Sum(Totals(b)) == Sum(Totals(a)) + r.total
  {
    var name := FdName(r.faultDomain);
    assert Totals(b) == AdjustRow(Totals(a), name, r.total);
    RowAdjusted(Totals(a), name, r.total, None);
  }

  /** A launch is proposed only where the bucket exists and has something left; an absent bucket sums to nothing. */
  predicate Admits(records: seq<Record>, req: Request, fd: Option<string>) {
    SumTotal(records, req, FdName(fd)) > SumUsed(records, req, FdName(fd))
  }

  /** Which is what looking the bucket up says. */
  lemma AdmitsIsBucket(buckets: map<string, Record>, records: seq<Record>, req: Request, fd: Option<string>)
    requires Merges(buckets, records, req)
    ensures Admits(records, req, fd) <==>
              FdName(fd) in buckets && buckets[FdName(fd)].total > buckets[FdName(fd)].used
  {
    assert MergedAt(buckets, records, req, FdName(fd));
  }

  // ---- The ledger over the snapshot ----

  function Min(a: int, b: int): int { if a < b then a else b }

  ghost function AdjustRecord(ad: string, r: Record, row: Row): Record {
    r.(ad := ad, used := Min(r.total, r.used + InRow(row, r.faultDomain)))
  }

  method AdjustShapeAvailability(ad: string, r: Record, row: Row) returns (out: Record)
    ensures out == AdjustRecord(ad, r, row)
  {
    var count := 0;
    if r.faultDomain.None? {
      var rest := row;
      while rest != map[]
        invariant count + Sum(rest) == Sum(row)
        decreases |rest|
      {
        var fd :| fd in rest;
        SumSplit(rest, fd);
        count := count + rest[fd];
        rest := rest - {fd};
      }
    } else if r.faultDomain.value in row {
      count := row[r.faultDomain.value];
    }
    out := Record(ad, r.faultDomain, r.total, Min(r.total, r.used + count), r.shape, r.ocpu, r.gbs);
  }

  /** Its own cell decides, and failing that the cell of the shape without a configuration. */
  ghost function Overlaid(ad: string, cells: Cells, r: Record): Record {
    if KeyOfRecord(r) in cells then AdjustRecord(ad, r, cells[KeyOfRecord(r)])
    else if BareKey(r.shape) in cells then AdjustRecord(ad, r, cells[BareKey(r.shape)])
    else r
  }

  ghost function OverlaidAll(ad: string, cells: Cells, records: seq<Record>): (out: seq<Record>)
    ensures |out| == |records| && forall n :: 0 <= n < |out| ==> out[n] == Overlaid(ad, cells, records[n])
  {
    seq(|records|, n requires 0 <= n < |records| => Overlaid(ad, cells, records[n]))
  }

  method AdjustCapacityAgainstUsage(rr: Reservation, cells: Cells) returns (out: Reservation)
    ensures out == rr.(records := OverlaidAll(rr.ad, cells, rr.records), time := out.time)
  {
    var records: seq<Record> := [];
    for n := 0 to |rr.records|
      invariant |records| == n && forall k :: 0 <= k < n ==> records[k] == Overlaid(rr.ad, cells, rr.records[k])
    {
      var r := rr.records[n];
      var adjusted := r;
      if KeyOfRecord(r) in cells {
        adjusted := AdjustShapeAvailability(rr.ad, r, cells[KeyOfRecord(r)]);
      } else if BareKey(r.shape) in cells {
        adjusted := AdjustShapeAvailability(rr.ad, r, cells[BareKey(r.shape)]);
      }
      records := records + [adjusted];
    }
    out := Reservation(rr.ocid, rr.ad, records, 0);
  }

  /** What a resolution reports: the ledger counts only if it was written after the snapshot was taken. */
  ghost function Reported(snapshot: Reservation, ledger: Option<Ledger>): seq<Record> {
    if ledger.Some? && snapshot.time < ledger.value.lastCommit
    then OverlaidAll(snapshot.ad, ledger.value.cells, snapshot.records) else snapshot.records
  }

  // ---- Launches between two resets of the ledger ----

  /** A launch that was admitted for `req` in `fd` and gave `instance`, or the end of some instance; both at `now`. */
  datatype Step = Launch(req: Request, fd: Option<string>, instance: Instance, now: int)
                | Terminate(instance: Instance, now: int)

  function EventOf(s: Step): Event { if s.Launch? then Used(s.instance) else Released(s.instance) }

  function Events(steps: seq<Step>): (events: seq<Event>)
    ensures |events| == |steps|
  {
    if steps == [] then [] else Events(steps[..|steps| - 1]) + [EventOf(steps[|steps| - 1])]
  }

  ghost function LedgerAfter(steps: seq<Step>): Option<Ledger> {
    if steps == [] then None else Some(Ledger(Replay(Events(steps)), steps[|steps| - 1].now))
  }

  /** The key under which launches for a request are booked. */
  function BookedKey(req: Request): UsageKey {
    if req.sized then UsageKey(req.shape, KeyOfShape(req.shape, req.ocpu, req.gbs)) else BareKey(req.shape)
  }

  /** Every instance of the shape carries a configuration if the shape is sized, and none otherwise. */
  predicate BookedAs(i: Instance, shape: string, sized: bool) {
    i.shape == shape ==> (i.ocpu.Some? && i.gbs.Some? <==> sized)
  }

  /** A launch got what it asked for, in the fault domain it asked for. */
  predicate AsRequested(s: Step)
    requires s.Launch?
  {
    && KeyOfInstance(s.instance) == BookedKey(s.req)
    && (s.fd.Some? ==> s.instance.faultDomain == s.fd.value)
  }

  /** One launch after the other, each admitted by what the resolution reports just before it; `sized` says of every
      shape whether it is configurable, and every mark is later than the snapshot. */
  ghost predicate Run(snapshot: Reservation, sized: string -> bool, steps: seq<Step>) {
    steps == [] ||
    (var before, s := steps[..|steps| - 1], steps[|steps| - 1];
     && Run(snapshot, sized, before)
     && snapshot.time < s.now
     && BookedAs(s.instance, s.instance.shape, sized(s.instance.shape))
     && (s.Launch? ==>
           && s.req.sized == sized(s.req.shape)
           && AsRequested(s)
           && Admits(Reported(snapshot, LedgerAfter(before)), s.req, s.fd)))
  }

  /** The records that match are all for the availability domain or all for named fault domains. */
  ghost predicate Unmixed(records: seq<Record>, req: Request) {
    || (forall r :: r in records && Matches(req, r) ==> r.faultDomain.None?)
    || (forall r :: r in records && Matches(req, r) ==> FdName(r.faultDomain) != "")
  }

  ghost predicate Sound(records: seq<Record>) {
    forall r :: r in records ==> r.used <= r.total
  }

  /** `b` is record `a` with `n` more in use, as far as its total allows, if it is in the bucket. */
  predicate AddsToRecord(a: Record, b: Record, req: Request, name: string, n: int) {
    && InBucket(req, name, b) == InBucket(req, name, a)
    && b.total == a.total
    && (InBucket(req, name, a) ==> b.used == Min(a.total, a.used + n))
  }

  ghost predicate AddsTo(a: seq<Record>, b: seq<Record>, req: Request, name: string, n: int) {
    |b| == |a| && forall k :: 0 <= k < |b| ==> AddsToRecord(a[k], b[k], req, name, n)
  }

  /** If every record of a bucket counts `n` more and something is left, then the bucket has room for more than `n`. */
  lemma {:induction false} FullBucket(records: seq<Record>, adjusted: seq<Record>, req: Request, name: string, n: int)
    requires Sound(records) && AddsTo(records, adjusted, req, name, n)
    ensures SumUsed(records, req, name) <= SumTotal(records, req, name)
    ensures SumTotal(adjusted, req, name) == SumTotal(records, req, name)
    ensures SumUsed(adjusted, req, name) <= SumTotal(records, req, name)
    ensures SumUsed(adjusted, req, name) < SumTotal(records, req, name) ==>
              SumUsed(records, req, name) + n < SumTotal(records, req, name)
  {
    if records != [] {
      FullBucket(records[..|records| - 1], adjusted[..|records| - 1], req, name, n);
    }
  }

  lemma {:induction false} EmptyBucket(records: seq<Record>, req: Request, name: string)
    requires forall r :: r in records ==> !InBucket(req, name, r)
    ensures SumTotal(records, req, name) == SumUsed(records, req, name) == 0
  {
    if records != [] {
      EmptyBucket(records[..|records| - 1], req, name);
    }
  }

  lemma {:induction false} EventsBooked(snapshot: Reservation, sized: string -> bool, steps: seq<Step>)
    requires Run(snapshot, sized, steps)
    ensures forall e :: e in Events(steps) ==> BookedAs(e.instance, e.instance.shape, sized(e.instance.shape))
  {
    if steps != [] {
      EventsBooked(snapshot, sized, steps[..|steps| - 1]);
    }
  }

  /** Laid over a record, the ledger counts what was booked for the requests that the record matches. */
  lemma CountsBooked(ad: string, events: seq<Event>, sized: string -> bool, req: Request, r: Record)
    requires forall e :: e in events ==> BookedAs(e.instance, e.instance.shape, sized(e.instance.shape))
    requires req.sized == sized(req.shape) && (req.sized ==> req.ocpu.Some? && req.gbs.Some?)
    requires Matches(req, r) && r.used <= r.total
    ensures Overlaid(ad, Replay(events), r)
         == r.(ad := Overlaid(ad, Replay(events), r).ad,
               used := Min(r.total, r.used + InCells(Replay(events), BookedKey(req), r.faultDomain)))
  {
    var cells := Replay(events);
    LedgerIsHistory(events);
    if KeyOfRecord(r) != BookedKey(req) {
      assert KeyOfRecord(r) !in cells;
    } else if KeyOfRecord(r) != BareKey(r.shape) {
      assert BareKey(r.shape) !in cells;
    }
  }

  lemma OverlaidAdds(ad: string, events: seq<Event>, sized: string -> bool, req: Request, r: Record, fd: Option<string>)
    requires forall e :: e in events ==> BookedAs(e.instance, e.instance.shape, sized(e.instance.shape))
    requires req.sized == sized(req.shape) && (req.sized ==> req.ocpu.Some? && req.gbs.Some?)
    requires r.used <= r.total && (InBucket(req, FdName(fd), r) ==> r.faultDomain == fd)
    ensures AddsToRecord(r, Overlaid(ad, Replay(events), r), req, FdName(fd),
                         InCells(Replay(events), BookedKey(req), fd))
  {
    if InBucket(req, FdName(fd), r) {
      CountsBooked(ad, events, sized, req, r);
    }
  }

  /** In a run, every record that matches a request counts exactly what was booked for that request. */
  lemma ReportedBucket(snapshot: Reservation, sized: string -> bool, steps: seq<Step>, req: Request, fd: Option<string>)
    requires Run(snapshot, sized, steps) && Sound(snapshot.records)
    requires req.sized == sized(req.shape) && (req.sized ==> req.ocpu.Some? && req.gbs.Some?)
    requires forall r :: r in snapshot.records && InBucket(req, FdName(fd), r) ==> r.faultDomain == fd
    ensures AddsTo(snapshot.records, Reported(snapshot, LedgerAfter(steps)), req, FdName(fd),
                   InCells(Replay(Events(steps)), BookedKey(req), fd))
  {
    var reported := Reported(snapshot, LedgerAfter(steps));
    EventsBooked(snapshot, sized, steps);
    forall k | 0 <= k < |reported|
      ensures AddsToRecord(snapshot.records[k], reported[k], req, FdName(fd),
                           InCells(Replay(Events(steps)), BookedKey(req), fd))
    {
      if steps != [] {
        OverlaidAdds(snapshot.ad, Events(steps), sized, req, snapshot.records[k], fd);
      }
    }
  }

  /** What a launch is admitted to still has room for it, if the records of that bucket agree on the fault domain. */
  lemma AdmittedFits(snapshot: Reservation, sized: string -> bool, before: seq<Step>, s: Step, req: Request,
                     fd: Option<string>)
    requires Run(snapshot, sized, before) && Sound(snapshot.records) && s.Launch?
    requires Admits(Reported(snapshot, LedgerAfter(before)), s.req, s.fd) && FdName(s.fd) == FdName(fd)
    requires BookedKey(s.req) == BookedKey(req) && s.req.sized == req.sized
    requires req.sized == sized(req.shape) && (req.sized ==> req.ocpu.Some? && req.gbs.Some?)
    requires forall r :: r in snapshot.records && InBucket(req, FdName(fd), r) ==> r.faultDomain == fd
    ensures SumUsed(snapshot.records, req, FdName(fd)) + InCells(Replay(Events(before)), BookedKey(req), fd)
          < SumTotal(snapshot.records, req, FdName(fd))
  {
    var reported := Reported(snapshot, LedgerAfter(before));
    ReportedBucket(snapshot, sized, before, req, fd);
    FullBucket(snapshot.records, reported, req, FdName(fd), InCells(Replay(Events(before)), BookedKey(req), fd));
    SameRequest(reported, s.req, req);
  }

  /** A launch that is booked in a bucket was admitted to that bucket, if the matching records are not mixed. */
  lemma AdmittedHere(snapshot: Reservation, ledger: Option<Ledger>, s: Step, req: Request, fd: Option<string>)
    requires s.Launch? && Admits(Reported(snapshot, ledger), s.req, s.fd) && AsRequested(s)
    requires BookedKey(s.req) == BookedKey(req) && s.req.sized == req.sized
    requires req.sized ==> req.ocpu.Some? && req.gbs.Some?
    requires Concerns(Used(s.instance), BookedKey(req), fd) && Unmixed(snapshot.records, req)
    requires exists r :: r in snapshot.records && Matches(req, r) && r.faultDomain == fd
    ensures FdName(s.fd) == FdName(fd)
  {
    if FdName(s.fd) != FdName(fd) {
      NothingElsewhere(snapshot, ledger, req, fd, s.fd);
      SameRequest(Reported(snapshot, ledger), s.req, req);
    }
  }

  lemma LaunchFits(snapshot: Reservation, sized: string -> bool, before: seq<Step>, s: Step, req: Request,
                   fd: Option<string>)
    requires Run(snapshot, sized, before) && Sound(snapshot.records) && s.Launch? && AsRequested(s)
    requires Admits(Reported(snapshot, LedgerAfter(before)), s.req, s.fd)
    requires BookedKey(s.req) == BookedKey(req) && s.req.sized == req.sized
    requires req.sized == sized(req.shape) && (req.sized ==> req.ocpu.Some? && req.gbs.Some?)
    requires Concerns(Used(s.instance), BookedKey(req), fd) && Unmixed(snapshot.records, req)
    requires exists r :: r in snapshot.records && Matches(req, r) && r.faultDomain == fd
    ensures SumUsed(snapshot.records, req, FdName(fd))
              + Increases(Events(before), BookedKey(req), fd) - Decreases(Events(before), BookedKey(req), fd)
            < SumTotal(snapshot.records, req, FdName(fd))
  {
    AdmittedHere(snapshot, LedgerAfter(before), s, req, fd);
    AdmittedFits(snapshot, sized, before, s, req, fd);
    LedgerIsHistory(Events(before));
  }

  /** Of records that are all for the domain or all for fault domains, none is in a bucket of the other kind. */
  lemma NothingElsewhere(snapshot: Reservation, ledger: Option<Ledger>, req: Request, fd: Option<string>,
                         other: Option<string>)
    requires Unmixed(snapshot.records, req)
    requires exists r :: r in snapshot.records && Matches(req, r) && r.faultDomain == fd
    requires FdName(other) != FdName(fd) && (other.None? || fd.None?)
    ensures SumTotal(Reported(snapshot, ledger), req, FdName(other)) == 0
    ensures SumUsed(Reported(snapshot, ledger), req, FdName(other)) == 0
  {
    SameBuckets(snapshot, ledger, req);
    EmptyBucket(Reported(snapshot, ledger), req, FdName(other));
  }

  /** The ledger changes neither shapes nor fault domains. */
  lemma SameBuckets(snapshot: Reservation, ledger: Option<Ledger>, req: Request)
    ensures var reported := Reported(snapshot, ledger);
            && |reported| == |snapshot.records|
            && forall k :: 0 <= k < |reported| ==>
                 && Matches(req, reported[k]) == Matches(req, snapshot.records[k])
                 && reported[k].faultDomain == snapshot.records[k].faultDomain
  {
  }

  /** Used plus what the ledger adds stays within the total, in the bucket of this fault domain. */
  ghost predicate Kept(records: seq<Record>, steps: seq<Step>, req: Request, fd: Option<string>) {
    SumUsed(records, req, FdName(fd))
      + Increases(Events(steps), BookedKey(req), fd) - Decreases(Events(steps), BookedKey(req), fd)
    <= SumTotal(records, req, FdName(fd))
  }

  /** Between two resets a reservation is never used beyond what it holds: for every record that a request matches,
      used plus what the ledger adds stays within the total of its bucket. */
  lemma {:induction false} NeverOvercommitted(snapshot: Reservation, sized: string -> bool, steps: seq<Step>,
                                              req: Request, r: Record)
    requires Run(snapshot, sized, steps) && Sound(snapshot.records)
    requires req.sized == sized(req.shape) && (req.sized ==> req.ocpu.Some? && req.gbs.Some?)
    requires Unmixed(snapshot.records, req) && r in snapshot.records && Matches(req, r)
    ensures Kept(snapshot.records, steps, req, r.faultDomain)
  {
    var fd, records := r.faultDomain, snapshot.records;
    if steps == [] {
      FullBucket(records, records, req, FdName(fd), 0);
    } else {
      var before, s := steps[..|steps| - 1], steps[|steps| - 1];
      NeverOvercommitted(snapshot, sized, before, req, r);
      assert Events(steps)[..|steps| - 1] == Events(before);
      if s.Launch? && Concerns(Used(s.instance), BookedKey(req), fd) {
        LaunchFits(snapshot, sized, before, s, req, fd);
      }
    }
  }

  /** Requests that are booked under one key see the same buckets. */
  lemma {:induction false} SameRequest(records: seq<Record>, a: Request, b: Request)
    requires BookedKey(a) == BookedKey(b) && a.sized == b.sized
    requires b.sized ==> b.ocpu.Some? && b.gbs.Some?
    ensures forall name :: SumTotal(records, a, name) == SumTotal(records, b, name)
    ensures forall name :: SumUsed(records, a, name) == SumUsed(records, b, name)
  {
    if records != [] {
      SameRequest(records[..|records| - 1], a, b);
    }
  }

  // ---- When a mark is seen ----

  /** A mark of `i` counts against `r`. */
  predicate Counts(i: Instance, r: Record) {
    && (KeyOfInstance(i) == KeyOfRecord(r) || KeyOfInstance(i) == BareKey(r.shape))
    && (r.faultDomain.None? || r.faultDomain.value == i.faultDomain)
  }

  ghost function OneMark(i: Instance, now: int): Option<Ledger> {
    Some(Ledger(Replay([Used(i)]), now))
  }

  /** One launch is seen in a record exactly if it was marked after the snapshot under a key that counts there. */
  lemma MarkSeenIff(snapshot: Reservation, i: Instance, now: int, k: nat)
    requires k < |snapshot.records| && snapshot.records[k].used < snapshot.records[k].total
    ensures var r, reported := snapshot.records[k], Reported(snapshot, OneMark(i, now));
            && |reported| == |snapshot.records| && Matches(Request(r.shape, r.ocpu, r.gbs, true), reported[k])
            && reported[k].total == r.total
            && reported[k].used == r.used + (if snapshot.time < now && Counts(i, r) then 1 else 0)
  {
    var events := [Used(i)];
    assert Replay(events[..0]) == map[];
    var cells := Replay(events);
    var none: Row := map[];
    RowAdjusted(none, i.faultDomain, 1, snapshot.records[k].faultDomain);
    assert cells == After(map[], Used(i));
  }

  /** With one place left, a second launch is admitted exactly if the mark of the first is not seen: because it is not
      later than the snapshot, or because its key or its fault domain does not count for the record. */
  lemma SecondLaunchAdmittedIff(snapshot: Reservation, req: Request, fd: Option<string>, i: Instance, now: int, k: nat)
    requires k < |snapshot.records| && snapshot.records[k].used + 1 == snapshot.records[k].total
    requires forall j :: 0 <= j < |snapshot.records| ==> (InBucket(req, FdName(fd), snapshot.records[j]) <==> j == k)
    ensures Admits(snapshot.records, req, fd)
    ensures Admits(Reported(snapshot, OneMark(i, now)), req, fd)
       <==> !(snapshot.time < now && Counts(i, snapshot.records[k]))
  {
    MarkSeenIff(snapshot, i, now, k);
    SameBuckets(snapshot, OneMark(i, now), req);
    OneInBucket(snapshot.records, req, FdName(fd), k);
    OneInBucket(Reported(snapshot, OneMark(i, now)), req, FdName(fd), k);
  }

  lemma {:induction false} OneInBucket(records: seq<Record>, req: Request, name: string, k: nat)
    requires k < |records|
    requires forall j :: 0 <= j < |records| ==> (InBucket(req, name, records[j]) <==> j == k)
    ensures SumTotal(records, req, name) == records[k].total && SumUsed(records, req, name) == records[k].used
  {
    var front := records[..|records| - 1];
    if k < |front| {
      OneInBucket(front, req, name, k);
    } else {
      EmptyBucket(front, req, name);
    }
  }
}
