/** Memory measured on nodes, of which the smallest is kept: one caller at a time, and with callers racing. */
module CapacityDiscovery {
  import opened Common

  datatype Entry = Entry(value: int, expiry: int)

  predicate Unexpired(e: Option<Entry>, now: int) { e.Some? && now <= e.value.expiry }

  /** What a record of `observed` leaves, given what was read. */
  function Kept(entry: Option<Entry>, cached: Option<int>, observed: int, now: int, ttl: int): Option<Entry> {
    if cached.Some? && observed > cached.value then entry else Some(Entry(observed, now + ttl))
  }

  function EntryAt(entries: map<string, Entry>, key: string): Option<Entry> {
    if key in entries then Some(entries[key]) else None
  }

  class NodeCapacity {
    const disabled: bool
    const ttl: int
    var entries: map<string, Entry>

    constructor (ttl: int, defaultTtl: int)
      requires defaultTtl > 0
      ensures entries == map[] && (disabled <==> ttl == 0) && this.ttl == if ttl < 0 then defaultTtl else ttl
    {
      this.disabled := ttl == 0;
      this.ttl := if ttl < 0 then defaultTtl else ttl;
      entries := map[];
    }

    method Get(key: string, now: int) returns (r: Option<int>)
      ensures r == if !disabled && Unexpired(EntryAt(entries, key), now) then Some(entries[key].value) else None
    {
      if disabled {
        return None;
      }
      r := if key in entries && now <= entries[key].expiry then Some(entries[key].value) else None;
    }

    /** A smaller or equal value replaces what is there and starts its time anew; a larger one changes nothing. */
    method Record(key: string, observed: int, now: int)
      modifies this
      ensures forall k :: k != key ==> EntryAt(entries, k) == EntryAt(old(entries), k)
      ensures disabled ==> entries == old(entries)
      ensures !disabled ==>
                var was, kept := EntryAt(old(entries), key), EntryAt(entries, key);
                if Unexpired(was, now) && observed > was.value.value then kept == was
                else kept == Some(Entry(observed, now + ttl))
    {
      if disabled {
        return;
      }
      var cached := Get(key, now);
      if cached.Some? && observed > cached.value {
        return;
      }
      entries := entries[key := Entry(observed, now + ttl)];
    }
  }

  // ---- Racing callers, on one key ----

  /** Where a caller of Record stands. */
  datatype Pc = Idle | Locked(observed: int) | HasRead(observed: int, cached: Option<int>) | Finished

  /** `window` holds the observations completed since the key was last absent. */
  datatype State = State(entry: Option<Entry>, now: int, holder: Option<nat>, pcs: map<nat, Pc>, window: seq<int>)

  datatype Event = Lock(caller: nat, observed: int) | Read(caller: nat) | Write(caller: nat) | Unlock(caller: nat)
                 | Tick(elapsed: nat) | Cleanup

  function At(s: State, t: nat): Pc { if t in s.pcs then s.pcs[t] else Idle }

  predicate Live(s: State) { Unexpired(s.entry, s.now) }

  /** `guarded` says whether the mutex is there. */
  predicate Enabled(guarded: bool, s: State, e: Event) {
    match e
    case Lock(t, _) => At(s, t).Idle? && (guarded ==> s.holder.None?)
    case Read(t) => At(s, t).Locked?
    case Write(t) => At(s, t).HasRead?
    case Unlock(t) => At(s, t).Finished?
    case Tick(_) => true
    case Cleanup => !Live(s)
  }

  function Completed(s: State, observed: int): State {
    s.(window := if Live(s) then s.window + [observed] else [])
  }

  function Apply(guarded: bool, ttl: int, s: State, e: Event): State
    requires Enabled(guarded, s, e)
  {
    match e
    case Lock(t, observed) => s.(holder := Some(t), pcs := s.pcs[t := Locked(observed)])
    case Read(t) =>
      var cached := if Live(s) then Some(s.entry.value.value) else None;
      s.(pcs := s.pcs[t := HasRead(At(s, t).observed, cached)])
    case Write(t) =>
      var (observed, cached) := (At(s, t).observed, At(s, t).cached);
      Completed(s.(entry := Kept(s.entry, cached, observed, s.now, ttl), pcs := s.pcs[t := Finished]), observed)
    case Unlock(t) => s.(holder := None, pcs := s.pcs[t := Idle])
    case Tick(elapsed) =>
      var later := s.(now := s.now + elapsed);
      if Live(later) then later else later.(window := [])
    case Cleanup => s.(entry := None)
  }

  ghost predicate Run(guarded: bool, ttl: int, s: State, es: seq<Event>)
    decreases |es|
  {
    es == [] || (Enabled(guarded, s, es[0]) && Run(guarded, ttl, Apply(guarded, ttl, s, es[0]), es[1..]))
  }

  ghost function After(guarded: bool, ttl: int, s: State, es: seq<Event>): State
    requires Run(guarded, ttl, s, es)
    decreases |es|
  {
    if es == [] then s else After(guarded, ttl, Apply(guarded, ttl, s, es[0]), es[1..])
  }

  function Start(now: int): State { State(None, now, None, map[], []) }

  function Min(xs: seq<int>): int
    requires xs != []
  {
    if |xs| == 1 then xs[0]
    else
      var m := Min(xs[..|xs| - 1]);
      if xs[|xs| - 1] < m then xs[|xs| - 1] else m
  }

  /** The entry is the minimum of the window; who is inside holds the mutex, and what it read is still there, as far as
      anything is. */
  ghost predicate Inv(s: State) {
    && (Live(s) ==> s.window != [] && s.entry.value.value == Min(s.window))
    && (!Live(s) ==> s.window == [])
    && (forall t: nat :: !At(s, t).Idle? ==> s.holder == Some(t))
    && (forall t: nat :: At(s, t).HasRead? && Live(s) ==> At(s, t).cached == Some(s.entry.value.value))
  }

  lemma StepKeepsInv(ttl: int, s: State, e: Event)
    requires ttl > 0 && Inv(s) && Enabled(true, s, e)
    ensures Inv(Apply(true, ttl, s, e))
  {
    var after := Apply(true, ttl, s, e);
    if e.Write? {
      var observed := At(s, e.caller).observed;
      if Live(s) {
        assert (s.window + [observed])[..|s.window|] == s.window;
      } else {
        assert [observed][..0] == [];
      }
    }
    forall t: nat | !At(after, t).Idle? ensures after.holder == Some(t) {
      if !e.Lock? {
        assert !At(s, t).Idle?;
      }
    }
    forall t: nat | At(after, t).HasRead? && Live(after) ensures At(after, t).cached == Some(after.entry.value.value) {
      assert At(s, t).HasRead? || e == Read(t);
    }
  }

  lemma {:induction false} RunKeepsInv(ttl: int, s: State, es: seq<Event>)
    requires ttl > 0 && Inv(s) && Run(true, ttl, s, es)
    ensures Inv(After(true, ttl, s, es))
    decreases |es|
  {
    if es != [] {
      StepKeepsInv(ttl, s, es[0]);
      RunKeepsInv(ttl, Apply(true, ttl, s, es[0]), es[1..]);
    }
  }

  /** However callers interleave and time passes, an entry that is live is the least of the observations completed since
      the key was last absent; and no entry is live only if there was none. */
  lemma SmallestWins(ttl: int, now: int, es: seq<Event>)
    requires ttl > 0 && Run(true, ttl, Start(now), es)
    ensures var s := After(true, ttl, Start(now), es);
            && (Live(s) <==> s.window != [])
            && (Live(s) ==> s.entry.value.value == Min(s.window))
  {
    RunKeepsInv(ttl, Start(now), es);
  }

  /** The key is live in every state of the run. */
  ghost predicate LiveThroughout(ttl: int, s: State, es: seq<Event>)
    requires Run(true, ttl, s, es)
    decreases |es|
  {
    Live(s) && (es != [] ==> LiveThroughout(ttl, Apply(true, ttl, s, es[0]), es[1..]))
  }

  /** The value rises only after it was absent. */
  lemma {:induction false} NeverRisesWhileLive(ttl: int, s: State, es: seq<Event>)
    requires ttl > 0 && Inv(s) && Run(true, ttl, s, es) && LiveThroughout(ttl, s, es)
    ensures Live(After(true, ttl, s, es)) && After(true, ttl, s, es).entry.value.value <= s.entry.value.value
    decreases |es|
  {
    if es != [] {
      StepKeepsInv(ttl, s, es[0]);
      NeverRisesWhileLive(ttl, Apply(true, ttl, s, es[0]), es[1..]);
    }
  }

  /** Without the mutex two callers can read the same value and the larger one land last. */
  lemma RaceWithoutMutex(ttl: int, now: int) returns (es: seq<Event>)
    requires ttl > 0
    ensures Run(false, ttl, Start(now), es)
    ensures var s := After(false, ttl, Start(now), es); Live(s) && s.window == [1, 2] && s.entry.value.value == 2
  {
    es := [Lock(0, 1), Lock(1, 2), Read(0), Read(1), Write(0), Write(1)];
    var s0 := Start(now);
    var s1 := Apply(false, ttl, s0, es[0]);
    var s2 := Apply(false, ttl, s1, es[1]);
    var s3 := Apply(false, ttl, s2, es[2]);
    var s4 := Apply(false, ttl, s3, es[3]);
    var s5 := Apply(false, ttl, s4, es[4]);
    var s6 := Apply(false, ttl, s5, es[5]);
    assert After(false, ttl, s6, es[6..]) == s6;
    assert Run(false, ttl, s4, es[4..]) && After(false, ttl, s4, es[4..]) == s6 by {
      assert es[4..][1..] == es[5..] && es[5..][1..] == es[6..];
    }
    assert Run(false, ttl, s2, es[2..]) && After(false, ttl, s2, es[2..]) == s6 by {
      assert es[2..][1..] == es[3..] && es[3..][1..] == es[4..];
    }
    assert es[1..][1..] == es[2..];
  }

  /** A caller that is alone does what `NodeCapacity.Record` does. */
  lemma AloneIsRecord(ttl: int, s: State, t: nat, observed: int)
    requires s.holder.None? && At(s, t).Idle?
    ensures var es := [Lock(t, observed), Read(t), Write(t), Unlock(t)];
            && Run(true, ttl, s, es)
            && After(true, ttl, s, es).entry ==
                 (if Live(s) && observed > s.entry.value.value then s.entry else Some(Entry(observed, s.now + ttl)))
  {
    var es := [Lock(t, observed), Read(t), Write(t), Unlock(t)];
    var s1 := Apply(true, ttl, s, es[0]);
    var s2 := Apply(true, ttl, s1, es[1]);
    var s3 := Apply(true, ttl, s2, es[2]);
    var s4 := Apply(true, ttl, s3, es[3]);
    assert After(true, ttl, s4, es[4..]) == s4;
    assert Run(true, ttl, s2, es[2..]) && After(true, ttl, s2, es[2..]) == s4 by {
      assert es[2..][1..] == es[3..] && es[3..][1..] == es[4..];
    }
    assert es[1..][1..] == es[2..];
  }
}
