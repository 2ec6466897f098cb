/** Marks on offerings that recently failed to launch, and the offerings that are held back because of them. */
module OfferingMarks {
  import opened Common
  import opened Decimals
  import opened LaunchErrors

  // ---- Keys ----

  /** What a mark is about; an empty compartment stands for the whole tenancy. */
  datatype Subject = Subject(
    capacityType: string, shape: string, ocpu: Option<real>, gbs: Option<real>, zone: string, compartment: string)

  predicate ColonFree(s: string) { ':' !in s }

  /** Joins with colons. */
  function Join(parts: seq<string>): string
    requires parts != []
  {
    if |parts| == 1 then parts[0] else parts[0] + ":" + Join(parts[1..])
  }

  function FirstColon(s: string): nat {
    if s == [] || s[0] == ':' then 0 else 1 + FirstColon(s[1..])
  }

  lemma {:induction false} FirstColonAfter(a: string, x: string)
    requires ColonFree(a)
    ensures FirstColon(a + ":" + x) == |a|
  {
    if a != [] {
      FirstColonAfter(a[1..], x);
      assert (a + ":" + x)[1..] == a[1..] + ":" + x;
    }
  }

  lemma FirstPart(a: string, x: string, b: string, y: string)
    requires ColonFree(a) && ColonFree(b) && a + ":" + x == b + ":" + y
    ensures a == b && x == y
  {
    var s := a + ":" + x;
    FirstColonAfter(a, x);
    FirstColonAfter(b, y);
    assert a == s[..|a|] && b == s[..|b|];
    assert x == s[|a| + 1..] && y == s[|b| + 1..];
  }

  lemma {:induction false} JoinInjective(p: seq<string>, q: seq<string>)
    requires |p| == |q| > 0 && (forall i :: 0 <= i < |p| ==> ColonFree(p[i]) && ColonFree(q[i]))
    requires Join(p) == Join(q)
    ensures p == q
  {
    if |p| > 1 {
      FirstPart(p[0], Join(p[1..]), q[0], Join(q[1..]));
      JoinInjective(p[1..], q[1..]);
      assert p == [p[0]] + p[1..] && q == [q[0]] + q[1..];
    } else {
      assert p == [p[0]] && q == [q[0]];
    }
  }

  /** Renders the numbers in `sizes` as text, each in its own way, without colons and never as nothing. */
  ghost predicate Renders(render: real -> string, sizes: iset<real>) {
    && (forall x :: x in sizes ==> render(x) != "" && ColonFree(render(x)))
    && (forall x, y :: x in sizes && y in sizes && render(x) == render(y) ==> x == y)
  }

  /** A rendering of the numbers with no more than six decimals. */
  function Decimal(x: real): string { Whole(x) + "." + SixDecimals(x) }

  lemma DecimalRenders()
    ensures Renders(Decimal, WholeMillionths())
  {
    forall x | x in WholeMillionths() ensures Decimal(x) != "" && ColonFree(Decimal(x)) {
      MillionthsRendered(x);
      assert !IsDigit(':');
    }
    forall x, y | x in WholeMillionths() && y in WholeMillionths() && Decimal(x) == Decimal(y) ensures x == y {
      MillionthsRendered(x);
      MillionthsRendered(y);
      var s := Decimal(x);
      assert SixDecimals(x) == s[|s| - 6..] && SixDecimals(y) == Decimal(y)[|s| - 6..];
      assert Whole(x) == s[..|s| - 7] && Whole(y) == Decimal(y)[..|s| - 7];
      MillionthsInjective(x, y);
    }
  }

  function FlexResourceKeyValue(render: real -> string, v: Option<real>): string {
    if v.None? then "" else render(v.value)
  }

  function Parts(render: real -> string, s: Subject): (parts: seq<string>)
    ensures |parts| == 6
  {
    [s.capacityType, s.shape, FlexResourceKeyValue(render, s.ocpu), FlexResourceKeyValue(render, s.gbs), s.zone,
     s.compartment]
  }

  function Key(render: real -> string, s: Subject): string {
    Join(Parts(render, s))
  }

  ghost predicate SizeIn(v: Option<real>, sizes: iset<real>) { v.Some? ==> v.value in sizes }

  ghost predicate Plain(s: Subject, sizes: iset<real>) {
    && ColonFree(s.capacityType) && ColonFree(s.shape) && ColonFree(s.zone) && ColonFree(s.compartment)
    && SizeIn(s.ocpu, sizes) && SizeIn(s.gbs, sizes)
  }

  lemma NumberInjective(render: real -> string, sizes: iset<real>, a: Option<real>, b: Option<real>)
    requires Renders(render, sizes) && SizeIn(a, sizes) && SizeIn(b, sizes)
    ensures ColonFree(FlexResourceKeyValue(render, a))
    ensures FlexResourceKeyValue(render, a) == FlexResourceKeyValue(render, b) ==> a == b
  {
    if a.Some? {
      var x := a.value;
      assert a == Some(x) && render(x) != "" && ColonFree(render(x));
    }
    if b.Some? {
      var y := b.value;
      assert b == Some(y) && render(y) != "";
    }
  }

  /** Different subjects have different keys. */
  lemma KeyInjective(render: real -> string, sizes: iset<real>, a: Subject, b: Subject)
    requires Renders(render, sizes) && Plain(a, sizes) && Plain(b, sizes)
    ensures Key(render, a) == Key(render, b) <==> a == b
  {
    var p, q := Parts(render, a), Parts(render, b);
    NumberInjective(render, sizes, a.ocpu, b.ocpu);
    NumberInjective(render, sizes, b.ocpu, a.ocpu);
    NumberInjective(render, sizes, a.gbs, b.gbs);
    NumberInjective(render, sizes, b.gbs, a.gbs);
    if Join(p) == Join(q) {
      JoinInjective(p, q);
      assert p[0] == q[0] && p[1] == q[1] && p[2] == q[2] && p[3] == q[3] && p[4] == q[4] && p[5] == q[5];
    }
  }

  // ---- The store ----

  datatype Mark = Mark(subject: Subject, at: int)

  /** Three minutes, in seconds. */
  const DEFAULT_TTL := 180

  /** A mark holds until its time to live is over. */
  ghost predicate HoldsAt(log: seq<Mark>, ttl: int, s: Subject, now: int) {
    exists m :: m in log && m.subject == s && now <= m.at + ttl
  }

  ghost predicate InOrder(log: seq<Mark>) {
    forall i, j :: 0 <= i < j < |log| ==> log[i].at <= log[j].at
  }

  /** When each key expires after the marks of the log. */
  ghost function ExpiryOf(render: real -> string, ttl: int, log: seq<Mark>): map<string, int> {
    if log == [] then map[]
    else
      var last := log[|log| - 1];
      ExpiryOf(render, ttl, log[..|log| - 1])[Key(render, last.subject) := last.at + ttl]
  }

  /** An unexpired entry is an unexpired mark of the subject. */
  lemma {:induction false} EntryIsMark(render: real -> string, sizes: iset<real>, ttl: int, log: seq<Mark>, s: Subject,
                                       now: int)
    requires Renders(render, sizes) && Plain(s, sizes)
    requires InOrder(log) && forall m :: m in log ==> Plain(m.subject, sizes)
    ensures var expiry := ExpiryOf(render, ttl, log);
            HoldsAt(log, ttl, s, now) <==> Key(render, s) in expiry && now <= expiry[Key(render, s)]
  {
    if log != [] {
      var front, last := log[..|log| - 1], log[|log| - 1];
      EntryIsMark(render, sizes, ttl, front, s, now);
      KeyInjective(render, sizes, last.subject, s);
      assert forall m :: m in log <==> m in front || m == last;
      assert forall m :: m in front ==> m.at <= last.at;
    }
  }

  ghost function Extended(render: real -> string, ttl: int, log: seq<Mark>, s: Subject, now: int): (after: seq<Mark>)
    requires InOrder(log) && (log != [] ==> log[|log| - 1].at <= now)
    ensures after == log + [Mark(s, now)] && InOrder(after)
    ensures ExpiryOf(render, ttl, after) == ExpiryOf(render, ttl, log)[Key(render, s) := now + ttl]
  {
    assert (log + [Mark(s, now)])[..|log|] == log;
    log + [Mark(s, now)]
  }

  class UnavailableOfferings {
    const render: real -> string
    /** The numbers that may occur as sizes. */
    ghost const sizes: iset<real>
    const ttl: int
    const disabled: bool
    /** When each key expires. */
    var expiry: map<string, int>
    /** The marks since the last flush. */
    ghost var log: seq<Mark>

    ghost predicate Valid()
      reads this
    {
      && Renders(render, sizes) && InOrder(log) && (disabled ==> log == [])
      && (forall m :: m in log ==> Plain(m.subject, sizes))
      && expiry == ExpiryOf(render, ttl, log)
    }

    constructor (ttl: int, render: real -> string, ghost sizes: iset<real>)
      requires Renders(render, sizes)
      ensures Valid() && log == [] && (disabled <==> ttl == 0) && this.sizes == sizes
      ensures this.ttl == if ttl < 0 then DEFAULT_TTL else ttl
    {
      this.ttl := if ttl < 0 then DEFAULT_TTL else ttl;
      this.disabled := ttl == 0;
      this.render := render;
      this.sizes := sizes;
      expiry := map[];
      log := [];
    }

    method MarkUnavailable(s: Subject, now: int)
      requires Valid() && Plain(s, sizes) && (log != [] ==> log[|log| - 1].at <= now)
      modifies this
      ensures Valid() && log == if disabled then old(log) else old(log) + [Mark(s, now)]
    {
      if disabled {
        return;
      }
      expiry := expiry[Key(render, s) := now + ttl];
      log := Extended(render, ttl, log, s, now);
    }

    /** Whether an unexpired mark of just this subject exists. */
    method IsUnavailable(s: Subject, now: int) returns (found: bool)
      requires Valid() && Plain(s, sizes)
      ensures found <==> HoldsAt(log, ttl, s, now)
    {
      if disabled {
        return false;
      }
      found := Key(render, s) in expiry && now <= expiry[Key(render, s)];
      EntryIsMark(render, sizes, ttl, log, s, now);
    }

    method Flush()
      requires Valid()
      modifies this
      ensures Valid() && log == []
    {
      if disabled {
        return;
      }
      expiry := map[];
      log := [];
    }
  }

  // ---- From launch failures to offerings held back ----

  /** A launch that failed; `scoped` if it was proposed for a reservation, a compute cluster, a placement group or a
      fault domain; `compartment` is where it would have gone. */
  datatype LaunchFailure = LaunchFailure(
    error: LaunchError, scoped: bool, capacityType: string, shape: string, ocpu: Option<real>, gbs: Option<real>,
    zone: string, compartment: string)

  function SubjectOf(f: LaunchFailure): Subject {
    Subject(f.capacityType, f.shape, f.ocpu, f.gbs, f.zone, if IsQuotaExceeded(f.error) then f.compartment else "")
  }

  predicate Notable(f: LaunchFailure, limitFallback: bool) {
    IsSkippableLaunchError(f.error, limitFallback) && !f.scoped
  }

  method MarkUnavailableOffering(u: UnavailableOfferings, f: LaunchFailure, limitFallback: bool, now: int)
    requires u.Valid() && Plain(SubjectOf(f), u.sizes) && (u.log != [] ==> u.log[|u.log| - 1].at <= now)
    modifies u
    ensures u.Valid()
    ensures var marked := Notable(f, limitFallback) && !u.disabled;
            u.log == if marked then old(u.log) + [Mark(SubjectOf(f), now)] else old(u.log)
  {
    if !IsSkippableLaunchError(f.error, limitFallback) {
      return;
    }
    if f.scoped {
      return;
    }
    var compartment := "";
    if IsQuotaExceeded(f.error) {
      compartment := f.compartment;
    }
    u.MarkUnavailable(Subject(f.capacityType, f.shape, f.ocpu, f.gbs, f.zone, compartment), now);
  }

  datatype Offering = Offering(capacityType: string, zone: string, available: bool)

  datatype Shape = Shape(name: string, ocpu: Option<real>, gbs: Option<real>)

  const RESERVED := "reserved"

  function About(shape: Shape, o: Offering, compartment: string): Subject {
    Subject(o.capacityType, shape.name, shape.ocpu, shape.gbs, o.zone, compartment)
  }

  ghost predicate PlainShape(shape: Shape, sizes: iset<real>) {
    ColonFree(shape.name) && SizeIn(shape.ocpu, sizes) && SizeIn(shape.gbs, sizes)
  }

  /** A mark that holds for the tenancy or for the compartment. */
  ghost predicate HeldBack(log: seq<Mark>, ttl: int, shape: Shape, o: Offering, compartment: string, now: int) {
    HoldsAt(log, ttl, About(shape, o, ""), now) || HoldsAt(log, ttl, About(shape, o, compartment), now)
  }

  method IsHeldBack(u: UnavailableOfferings, shape: Shape, o: Offering, compartment: string, now: int)
      returns (held: bool)
    requires u.Valid() && PlainShape(shape, u.sizes) && ColonFree(compartment)
    requires ColonFree(o.capacityType) && ColonFree(o.zone)
    ensures held <==> HeldBack(u.log, u.ttl, shape, o, compartment, now)
  {
    held := u.IsUnavailable(About(shape, o, ""), now);
    if !held {
      held := u.IsUnavailable(About(shape, o, compartment), now);
    }
  }

  ghost function Judged(log: seq<Mark>, ttl: int, shape: Shape, o: Offering, compartment: string, now: int): Offering {
    o.(available := o.available && (o.capacityType == RESERVED || !HeldBack(log, ttl, shape, o, compartment, now)))
  }

  /** Offerings become unavailable exactly if a mark holds them back; reserved ones are left alone. */
  method SuppressOfferings(u: UnavailableOfferings, offerings: array<Offering>, shape: Shape, compartment: string,
                           now: int)
    requires u.Valid() && PlainShape(shape, u.sizes) && ColonFree(compartment)
    requires forall i :: 0 <= i < offerings.Length ==>
               ColonFree(offerings[i].capacityType) && ColonFree(offerings[i].zone)
    modifies offerings
    ensures forall i :: 0 <= i < offerings.Length ==>
              offerings[i] == Judged(u.log, u.ttl, shape, old(offerings[i]), compartment, now)
  {
    for n := 0 to offerings.Length
      invariant forall i :: n <= i < offerings.Length ==> offerings[i] == old(offerings[i])
      invariant forall i :: 0 <= i < n ==>
                  offerings[i] == Judged(u.log, u.ttl, shape, old(offerings[i]), compartment, now)
    {
      var o := offerings[n];
      if o.capacityType == RESERVED {
        continue;
      }
      if o.available {
        var held := IsHeldBack(u, shape, o, compartment, now);
        if held {
          offerings[n] := o.(available := false);
        }
      }
    }
  }

  /** A failure at a time. */
  datatype Event = Event(failure: LaunchFailure, at: int)

  /** The marks that failures leave. */
  function LogOf(events: seq<Event>, limitFallback: bool): seq<Mark> {
    if events == [] then []
    else
      var e := events[|events| - 1];
      LogOf(events[..|events| - 1], limitFallback)
        + (if Notable(e.failure, limitFallback) then [Mark(SubjectOf(e.failure), e.at)] else [])
  }

  lemma {:induction false} LogMeans(events: seq<Event>, limitFallback: bool)
    ensures forall m :: m in LogOf(events, limitFallback) <==>
              exists e :: e in events && Notable(e.failure, limitFallback) && m == Mark(SubjectOf(e.failure), e.at)
  {
    if events != [] {
      var front, last := events[..|events| - 1], events[|events| - 1];
      LogMeans(front, limitFallback);
      assert events == front + [last];
      forall m ensures m in LogOf(events, limitFallback) <==>
          exists e :: e in events && Notable(e.failure, limitFallback) && m == Mark(SubjectOf(e.failure), e.at)
      {
        if m in LogOf(front, limitFallback) {
          var e :| e in front && Notable(e.failure, limitFallback) && m == Mark(SubjectOf(e.failure), e.at);
          assert e in events;
        } else if m in LogOf(events, limitFallback) {
          assert last in events;
        }
      }
    }
  }

  /** The failure tells against the offering in that compartment: same shape, size, zone and capacity type, and if it
      was a quota, the same compartment. */
  predicate TellsAgainst(f: LaunchFailure, shape: Shape, o: Offering, compartment: string) {
    && f.capacityType == o.capacityType && f.zone == o.zone
    && f.shape == shape.name && f.ocpu == shape.ocpu && f.gbs == shape.gbs
    && (IsQuotaExceeded(f.error) ==> f.compartment == compartment)
  }

  lemma TellsIff(f: LaunchFailure, shape: Shape, o: Offering, compartment: string)
    requires compartment != "" && f.compartment != ""
    ensures TellsAgainst(f, shape, o, compartment) <==>
              SubjectOf(f) == About(shape, o, "") || SubjectOf(f) == About(shape, o, compartment)
  {
  }

  /** An offering is held back exactly if some recent failure that could be skipped, and was not proposed for a narrower
      place, tells against it; given that failures are in real compartments. */
  lemma HeldBackIff(events: seq<Event>, limitFallback: bool, ttl: int, shape: Shape, o: Offering, compartment: string,
                    now: int)
    requires compartment != "" && forall e :: e in events ==> e.failure.compartment != ""
    ensures HeldBack(LogOf(events, limitFallback), ttl, shape, o, compartment, now) <==>
              exists e :: e in events && Notable(e.failure, limitFallback) && now <= e.at + ttl
                && TellsAgainst(e.failure, shape, o, compartment)
  {
    var log := LogOf(events, limitFallback);
    LogMeans(events, limitFallback);
    if HeldBack(log, ttl, shape, o, compartment, now) {
      var m :| m in log && (m.subject == About(shape, o, "") || m.subject == About(shape, o, compartment))
               && now <= m.at + ttl;
      var e :| e in events && Notable(e.failure, limitFallback) && m == Mark(SubjectOf(e.failure), e.at);
      TellsIff(e.failure, shape, o, compartment);
    }
    forall e | e in events && Notable(e.failure, limitFallback) && now <= e.at + ttl
        && TellsAgainst(e.failure, shape, o, compartment)
      ensures HeldBack(log, ttl, shape, o, compartment, now)
    {
      TellsIff(e.failure, shape, o, compartment);
      assert Mark(SubjectOf(e.failure), e.at) in log;
    }
  }

  /** After failures, an available offering stays so exactly if it is reserved, or no failure of the last `ttl` seconds
      tells against it: one that may be skipped and was not proposed for a narrower place, of the same shape, size, zone
      and capacity type, and for an exceeded quota of the same compartment. */
  lemma StaysAvailableIff(events: seq<Event>, limitFallback: bool, ttl: int, shape: Shape, o: Offering,
                          compartment: string, now: int)
    requires compartment != "" && forall e :: e in events ==> e.failure.compartment != ""
    ensures Judged(LogOf(events, limitFallback), ttl, shape, o, compartment, now).available <==>
              && o.available
              && (o.capacityType == "reserved"
                  || !exists e :: e in events && now <= e.at + ttl
                       && IsSkippableLaunchError(e.failure.error, limitFallback) && !e.failure.scoped
                       && e.failure.capacityType == o.capacityType && e.failure.zone == o.zone
                       && Shape(e.failure.shape, e.failure.ocpu, e.failure.gbs) == shape
                       && (IsQuotaExceeded(e.failure.error) ==> e.failure.compartment == compartment))
  {
    HeldBackIff(events, limitFallback, ttl, shape, o, compartment, now);
    assert forall e: Event :: TellsAgainst(e.failure, shape, o, compartment) <==>
        && e.failure.capacityType == o.capacityType && e.failure.zone == o.zone
        && Shape(e.failure.shape, e.failure.ocpu, e.failure.gbs) == shape
        && (IsQuotaExceeded(e.failure.error) ==> e.failure.compartment == compartment);
  }
}
