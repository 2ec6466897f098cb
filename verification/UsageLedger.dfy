/** The ledger of launches and terminations that is laid over a cached capacity reservation. */
module UsageLedger {
  import opened Common
  import opened Decimals

  /** A shape with its configuration, if both halves of it are known.  The source renders this as text: see
      `TextInjective`. */
  datatype Key = Bare(shape: string) | Sized(shape: string, ocpu: real, gbs: real)

  function KeyOfShape(shape: string, ocpu: Option<real>, gbs: Option<real>): Key {
    if ocpu.Some? && gbs.Some? then Sized(shape, ocpu.value, gbs.value) else Bare(shape)
  }

  // ---- Keys as text ----

  predicate DotFree(s: string) { '.' !in s }

  function Dot(a: string, x: string): string { a + "." + x }

  datatype Rendering = Rendering(whole: real -> string, decimals: real -> string)

  /** How the numbers in `sizes` are rendered, before and after the decimal point: without further points, always with
      some decimals, and each of them in its own way. */
  ghost predicate Faithful(r: Rendering, sizes: iset<real>) {
    && (forall x :: x in sizes ==> DotFree(r.whole(x)) && DotFree(r.decimals(x)) && r.decimals(x) != "")
    && (forall x, y ::
          x in sizes && y in sizes && r.whole(x) == r.whole(y) && r.decimals(x) == r.decimals(y) ==> x == y)
  }

  ghost predicate SizeIn(v: Option<real>, sizes: iset<real>) { v.Some? ==> v.value in sizes }

  /** Six decimals are such a rendering of the numbers that have no more. */
  lemma SixDecimalsFaithful()
    ensures Faithful(Rendering(Whole, SixDecimals), WholeMillionths())
  {
    forall x | x in WholeMillionths()
      ensures DotFree(Whole(x)) && DotFree(SixDecimals(x)) && SixDecimals(x) != ""
    {
      MillionthsRendered(x);
      assert !IsDigit('.');
    }
    forall x, y | x in WholeMillionths() && y in WholeMillionths() && Whole(x) == Whole(y)
        && SixDecimals(x) == SixDecimals(y)
      ensures x == y
    {
      MillionthsInjective(x, y);
    }
  }

  /** A shape, a point, the number of OCPUs, a point and the number of GiB; or a shape and two points. */
  function TextOfShape(r: Rendering, shape: string, ocpu: Option<real>, gbs: Option<real>): string {
    if ocpu.Some? && gbs.Some? then SizedText(r, shape, ocpu.value, gbs.value) else Dot(Dot(shape, ""), "")
  }

  function SizedText(r: Rendering, shape: string, ocpu: real, gbs: real): string {
    Dot(Dot(Dot(Dot(shape, r.whole(ocpu)), r.decimals(ocpu)), r.whole(gbs)), r.decimals(gbs))
  }

  /** How much follows the last point. */
  function AfterLastDot(s: string): nat {
    if s == [] || s[|s| - 1] == '.' then 0 else 1 + AfterLastDot(s[..|s| - 1])
  }

  lemma {:induction false} AfterLastDotIs(a: string, x: string)
    requires DotFree(x)
    ensures AfterLastDot(Dot(a, x)) == |x|
  {
    if x != [] {
      AfterLastDotIs(a, x[..|x| - 1]);
      assert Dot(a, x)[..|a| + |x|] == Dot(a, x[..|x| - 1]);
    }
  }

  lemma LastPart(a: string, x: string, b: string, y: string)
    requires DotFree(x) && DotFree(y) && Dot(a, x) == Dot(b, y)
    ensures a == b && x == y
  {
    var s := Dot(a, x);
    AfterLastDotIs(a, x);
    AfterLastDotIs(b, y);
    assert a == s[..|s| - |x| - 1] && b == s[..|s| - |y| - 1];
    assert x == s[|s| - |x|..] && y == s[|s| - |y|..];
  }

  lemma SizedTextInjective(r: Rendering, sizes: iset<real>, s: string, o: real, g: real, t: string, p: real, h: real)
    requires Faithful(r, sizes) && o in sizes && g in sizes && p in sizes && h in sizes
    requires SizedText(r, s, o, g) == SizedText(r, t, p, h)
    ensures s == t && o == p && g == h
  {
    var a, b := Dot(s, r.whole(o)), Dot(t, r.whole(p));
    var c, d := Dot(a, r.decimals(o)), Dot(b, r.decimals(p));
    LastPart(Dot(c, r.whole(g)), r.decimals(g), Dot(d, r.whole(h)), r.decimals(h));
    LastPart(c, r.whole(g), d, r.whole(h));
    LastPart(a, r.decimals(o), b, r.decimals(p));
    LastPart(s, r.whole(o), t, r.whole(p));
  }

  lemma SizedIsNotBare(r: Rendering, sizes: iset<real>, s: string, o: real, g: real, t: string)
    requires Faithful(r, sizes) && o in sizes && g in sizes
    ensures SizedText(r, s, o, g) != Dot(Dot(t, ""), "")
  {
    var front := Dot(Dot(Dot(s, r.whole(o)), r.decimals(o)), r.whole(g));
    AfterLastDotIs(front, r.decimals(g));
    AfterLastDotIs(Dot(t, ""), "");
  }

  /** Texts are equal exactly if keys are, although the shapes themselves are not compared. */
  lemma TextInjective(r: Rendering, sizes: iset<real>, s: string, o: Option<real>, g: Option<real>,
                      t: string, p: Option<real>, h: Option<real>)
    requires Faithful(r, sizes) && SizeIn(o, sizes) && SizeIn(g, sizes) && SizeIn(p, sizes) && SizeIn(h, sizes)
    ensures TextOfShape(r, s, o, g) == TextOfShape(r, t, p, h) <==> KeyOfShape(s, o, g) == KeyOfShape(t, p, h)
  {
    var sized, other := o.Some? && g.Some?, p.Some? && h.Some?;
    if sized && other {
      if TextOfShape(r, s, o, g) == TextOfShape(r, t, p, h) {
        SizedTextInjective(r, sizes, s, o.value, g.value, t, p.value, h.value);
      }
    } else if sized {
      SizedIsNotBare(r, sizes, s, o.value, g.value, t);
    } else if other {
      SizedIsNotBare(r, sizes, t, p.value, h.value, s);
    } else if TextOfShape(r, s, o, g) == TextOfShape(r, t, p, h) {
      LastPart(Dot(s, ""), "", Dot(t, ""), "");
      LastPart(s, "", t, "");
    }
  }

  datatype Instance = Instance(
    shape: string, ocpu: Option<real>, gbs: Option<real>, faultDomain: string, reservationId: Option<string>)

  datatype UsageKey = UsageKey(shape: string, key: Key)

  function KeyOfInstance(i: Instance): UsageKey {
    UsageKey(i.shape, KeyOfShape(i.shape, i.ocpu, i.gbs))
  }

  /** Usage by fault domain. */
  type Row = map<string, int>
  type Cells = map<UsageKey, Row>

  function AdjustRow(row: Row, fd: string, delta: int): Row {
    row[fd := (if fd in row then row[fd] else 0) + delta]
  }

  function AdjustCells(cells: Cells, uk: UsageKey, fd: string, delta: int): Cells {
    cells[uk := AdjustRow(if uk in cells then cells[uk] else map[], fd, delta)]
  }

  class Usage {
    var cells: Cells
    var lastCommit: int

    constructor (now: int)
      ensures cells == map[] && lastCommit == now
    {
      cells := map[];
      lastCommit := now;
    }

    method Adjust(uk: UsageKey, fd: string, delta: int, now: int)
      modifies this
      ensures cells == AdjustCells(old(cells), uk, fd, delta) && lastCommit == now
    {
      var row: Row;
      if uk in cells {
        row := cells[uk];
        row := if fd in row then row[fd := row[fd] + delta] else row[fd := delta];
      } else {
        row := map[fd := delta];
      }
      cells := cells[uk := row];
      lastCommit := now;
    }

    method IncreaseUsage(i: Instance, now: int)
      modifies this
      ensures cells == After(old(cells), Used(i)) && lastCommit == now
    {
      Adjust(KeyOfInstance(i), i.faultDomain, 1, now);
    }

    method DecreaseUsage(i: Instance, now: int)
      modifies this
      ensures cells == After(old(cells), Released(i)) && lastCommit == now
    {
      Adjust(KeyOfInstance(i), i.faultDomain, -1, now);
    }
  }

  // ---- The ledger equals its history ----

  datatype Event = Used(instance: Instance) | Released(instance: Instance)

  function After(cells: Cells, e: Event): Cells {
    AdjustCells(cells, KeyOfInstance(e.instance), e.instance.faultDomain, if e.Used? then 1 else -1)
  }

  ghost function Replay(events: seq<Event>): Cells {
    if events == [] then map[] else After(Replay(events[..|events| - 1]), events[|events| - 1])
  }

  /** An event for this key in this fault domain, or in any if none is given. */
  predicate Concerns(e: Event, uk: UsageKey, fd: Option<string>) {
    KeyOfInstance(e.instance) == uk && (fd.Some? ==> e.instance.faultDomain == fd.value)
  }

  function Increases(events: seq<Event>, uk: UsageKey, fd: Option<string>): nat {
    if events == [] then 0
    else
      var e := events[|events| - 1];
      Increases(events[..|events| - 1], uk, fd) + if e.Used? && Concerns(e, uk, fd) then 1 else 0
  }

  function Decreases(events: seq<Event>, uk: UsageKey, fd: Option<string>): nat {
    if events == [] then 0
    else
      var e := events[|events| - 1];
      Decreases(events[..|events| - 1], uk, fd) + if e.Released? && Concerns(e, uk, fd) then 1 else 0
  }

  ghost function Sum(row: Row): int {
    if row == map[] then 0
    else
      var fd :| fd in row;
      row[fd] + Sum(row - {fd})
  }

  /** The sum does not depend on the order in which the map is read. */
  lemma {:induction false} SumSplit(row: Row, fd: string)
    requires fd in row
    ensures Sum(row) == row[fd] + Sum(row - {fd})
    decreases |row|
  {
    var first :| first in row && Sum(row) == row[first] + Sum(row - {first});
    if first != fd {
      SumSplit(row - {first}, fd);
      SumSplit(row - {fd}, first);
      assert row - {first} - {fd} == row - {fd} - {first};
    }
  }

  /** What a row says about one fault domain, or about all of them. */
  ghost function InRow(row: Row, fd: Option<string>): int {
    if fd.None? then Sum(row) else if fd.value in row then row[fd.value] else 0
  }

  ghost function InCells(cells: Cells, uk: UsageKey, fd: Option<string>): int {
    if uk in cells then InRow(cells[uk], fd) else 0
  }

  lemma RowAdjusted(row: Row, at: string, delta: int, fd: Option<string>)
    ensures InRow(AdjustRow(row, at, delta), fd)
         == InRow(row, fd) + (if fd.None? || fd.value == at then delta else 0)
  {
    if fd.None? {
      var adjusted := AdjustRow(row, at, delta);
      SumSplit(adjusted, at);
      if at in row {
        SumSplit(row, at);
      }
      assert adjusted - {at} == row - {at};
      assert at !in row ==> row - {at} == row;
    }
  }

  /** Every cell is increases minus decreases, the row of a key sums to the same over all fault domains, and a key has
      a row exactly if some event mentioned it. */
  lemma {:induction false} LedgerIsHistory(events: seq<Event>)
    ensures forall uk, fd ::
              InCells(Replay(events), uk, fd) == Increases(events, uk, fd) - Decreases(events, uk, fd)
    ensures forall uk :: uk in Replay(events) <==> exists e :: e in events && KeyOfInstance(e.instance) == uk
  {
    if events != [] {
      var before, e := events[..|events| - 1], events[|events| - 1];
      LedgerIsHistory(before);
      assert events == before + [e];
      forall uk, fd
        ensures InCells(Replay(events), uk, fd) == Increases(events, uk, fd) - Decreases(events, uk, fd)
      {
        if uk == KeyOfInstance(e.instance) {
          var row := if uk in Replay(before) then Replay(before)[uk] else map[];
          RowAdjusted(row, e.instance.faultDomain, if e.Used? then 1 else -1, fd);
        }
      }
    }
  }
}
