/**
 The concurrent behaviour of `GetOrLoadCache` for one key: any number of `GetOrLoad` callers, interleaved
 with `Set`, `Refresh`, eviction and expiry.  Each event below is one atomic step of the source: a cache
 read, `LoadOrStore` on the lock table, `Lock`, the re-check, the loader call, the loader's return, the
 store, and the two deferred calls (`Unlock` first, then `Delete`).
 */
module SingleFlight {
  import opened Common

  type Pid = nat
  type MutexId = nat

  datatype Outcome<V> = Value(v: V) | LoadFailed

  /** What a caller does next. */
  datatype Pc<V> =
    | Start
    | Missed
    | Waiting(m: MutexId)
    | Locked(m: MutexId)
    | Loading(m: MutexId)
    | Loaded(m: MutexId, v: V)
    | Unlocking(m: MutexId, out: Outcome<V>)
    | Deleting(out: Outcome<V>)
    | Done(out: Outcome<V>)

  /** Loader calls started, stored and failed, deletions from the lock table, and every value that a loader or a
      `Put` ever supplied.  No step reads these. */
  datatype History<V> = History(started: nat, stored: nat, failed: nat, deletions: nat, produced: set<V>)

  /** The shared state (cache entry, lock-table entry, mutexes), the callers, and the history. */
  datatype State<V> = State(
    cached: Option<V>,
    lock: Option<MutexId>,
    nextMutex: nat,
    held: map<MutexId, Pid>,
    pcs: map<Pid, Pc<V>>,
    hist: History<V>)

  /** `Put` is `Set` or a successful `Refresh`; `Drop` is an eviction or an expiry. */
  datatype Event<V> =
    | Call(p: Pid)
    | Advance(p: Pid)
    | LoaderReturns(p: Pid, result: Option<V>)
    | Put(v: V)
    | FailedRefresh
    | Drop

  ghost function Init<V>(): State<V> {
    State(None, None, 0, map[], map[], History(0, 0, 0, 0, {}))
  }

  ghost function Go<V>(s: State<V>, p: Pid, pc: Pc<V>): State<V> {
    s.(pcs := s.pcs[p := pc])
  }

  /** One step of caller `p`, other than the return of its loader. */
  ghost function Step<V>(s: State<V>, p: Pid): State<V>
    requires p in s.pcs
  {
    match s.pcs[p]
    case Start =>
      if s.cached.Some? then Go(s, p, Done(Value(s.cached.value))) else Go(s, p, Missed)
    case Missed =>
      if s.lock.Some? then Go(s, p, Waiting(s.lock.value))
      else Go(s, p, Waiting(s.nextMutex)).(lock := Some(s.nextMutex), nextMutex := s.nextMutex + 1)
    case Waiting(m) =>
      if m in s.held then s else Go(s, p, Locked(m)).(held := s.held[m := p])
    case Locked(m) =>
      if s.cached.Some? then Go(s, p, Unlocking(m, Value(s.cached.value)))
      else Go(s, p, Loading(m)).(hist := s.hist.(started := s.hist.started + 1))
    case Loading(_) => s
    case Loaded(m, v) =>
      Go(s, p, Unlocking(m, Value(v))).(cached := Some(v), hist := s.hist.(stored := s.hist.stored + 1))
    case Unlocking(m, out) =>
      Go(s, p, Deleting(out)).(held := s.held - {m})
    case Deleting(out) =>
      Go(s, p, Done(out)).(lock := None, hist := s.hist.(deletions := s.hist.deletions + 1))
    case Done(_) => s
  }

  ghost function Next<V>(s: State<V>, e: Event<V>): State<V> {
    match e
    case Call(p) => if p in s.pcs then s else Go(s, p, Start)
    case Advance(p) => if p in s.pcs then Step(s, p) else s
    case LoaderReturns(p, result) =>
      if p in s.pcs && s.pcs[p].Loading? then
        match result
        case Some(v) => Go(s, p, Loaded(s.pcs[p].m, v)).(hist := s.hist.(produced := s.hist.produced + {v}))
        case None => Go(s, p, Unlocking(s.pcs[p].m, LoadFailed)).(hist := s.hist.(failed := s.hist.failed + 1))
      else s
    case Put(v) => s.(cached := Some(v), hist := s.hist.(produced := s.hist.produced + {v}))
    case FailedRefresh => s
    case Drop => s.(cached := None)
  }

  /** The state after a run, from an empty cache.  Events that are not enabled do nothing. */
  ghost function Run<V>(es: seq<Event<V>>): State<V> {
    if es == [] then Init() else Next(Run(es[..|es| - 1]), es[|es| - 1])
  }

  predicate NoDrop<V>(es: seq<Event<V>>) { forall i :: 0 <= i < |es| ==> !es[i].Drop? }

  predicate NoPut<V>(es: seq<Event<V>>) { forall i :: 0 <= i < |es| ==> !es[i].Put? }

  predicate IsLoad<V>(pc: Pc<V>) { pc.Loading? || pc.Loaded? }

  predicate IsLeaving<V>(pc: Pc<V>) { pc.Unlocking? || pc.Deleting? }

  predicate Holds<V>(pc: Pc<V>) { pc.Locked? || IsLoad(pc) || pc.Unlocking? }

  /** The loads that have been started and not yet stored or failed. */
  ghost function InFlight<V>(s: State<V>): set<Pid> { set p | p in s.pcs && IsLoad(s.pcs[p]) }

  ghost function Leaving<V>(s: State<V>): set<Pid> { set p | p in s.pcs && IsLeaving(s.pcs[p]) }

  ghost function Calling<V>(s: State<V>): set<Pid> { set p | p in s.pcs && s.pcs[p].Loading? }

  predicate HeldBy<V>(s: State<V>, m: MutexId, p: Pid) { m in s.held && s.held[m] == p }

  predicate At<V>(s: State<V>, m: MutexId, p: Pid) { p in s.pcs && Holds(s.pcs[p]) && s.pcs[p].m == m }

  /** Every mutex in use was created by the lock table, and holding one is the same thing on both sides. */
  ghost predicate LocksAgree<V>(s: State<V>) {
    && (s.lock.Some? ==> s.lock.value < s.nextMutex)
    && (forall m, p :: HeldBy(s, m, p) <==> At(s, m, p))
    && (forall p :: p in s.pcs && (s.pcs[p].Waiting? || Holds(s.pcs[p])) ==> s.pcs[p].m < s.nextMutex)
  }

  predicate HasOutcome<V>(pc: Pc<V>) { IsLeaving(pc) || pc.Done? }

  /** Values in the cache and in callers' hands come from the loader or from a `Put`. */
  ghost predicate Sourced<V>(s: State<V>) {
    && (s.cached.Some? ==> s.cached.value in s.hist.produced)
    && (forall p :: p in s.pcs && s.pcs[p].Loaded? ==> s.pcs[p].v in s.hist.produced)
    && (forall p :: p in s.pcs && HasOutcome(s.pcs[p]) && s.pcs[p].out.Value? ==> s.pcs[p].out.v in s.hist.produced)
  }

  ghost predicate Inv<V>(s: State<V>) {
    && LocksAgree(s)
    && Sourced(s)
    && s.hist.started == s.hist.stored + s.hist.failed + |InFlight(s)|
  }

  /** What holds in addition as long as nothing was evicted: why the loads are bounded. */
  ghost predicate Bounded<V>(s: State<V>) {
    && s.hist.stored + |InFlight(s)| <= 1 + s.hist.failed
    && (s.cached.None? ==>
        && s.hist.stored == 0
        && s.nextMutex <= s.hist.deletions + (if s.lock.Some? then 1 else 0)
        && s.hist.deletions + |Leaving(s)| <= s.hist.failed)
  }

  ghost predicate ByCaller<V>(e: Event<V>) { e.Call? || e.Advance? || e.LoaderReturns? }

  /** Two sets that differ at most in `p`. */
  lemma SizeMove(before: set<Pid>, after: set<Pid>, p: Pid)
    requires forall q :: q != p ==> (q in before <==> q in after)
    ensures |after| == |before| + (if p in after then 1 else 0) - (if p in before then 1 else 0)
  {
    assert after == if p in after then before + {p} else before - {p};
  }

  lemma LocksAgreeCaller<V>(s: State<V>, p: Pid)
    requires LocksAgree(s) && p in s.pcs
    ensures LocksAgree(Step(s, p))
  {
    var t := Step(s, p);
    forall m, q ensures HeldBy(t, m, q) <==> At(t, m, q) {
      HolderCaller(s, p, m, q);
    }
  }

  lemma HolderCaller<V>(s: State<V>, p: Pid, m: MutexId, q: Pid)
    requires p in s.pcs
    requires (HeldBy(s, m, q) <==> At(s, m, q)) && (HeldBy(s, m, p) <==> At(s, m, p))
    ensures HeldBy(Step(s, p), m, q) <==> At(Step(s, p), m, q)
  {
  }

  lemma LocksAgreeStep<V>(s: State<V>, e: Event<V>)
    requires LocksAgree(s)
    ensures LocksAgree(Next(s, e))
  {
    if e.Advance? {
      if e.p in s.pcs {
        LocksAgreeCaller(s, e.p);
      }
    } else {
      forall m, q ensures HeldBy(Next(s, e), m, q) <==> At(Next(s, e), m, q) {
        assert HeldBy(s, m, q) <==> At(s, m, q);
      }
    }
  }

  lemma SourcedStep<V>(s: State<V>, e: Event<V>)
    requires Sourced(s)
    ensures Sourced(Next(s, e))
  {
  }

  /** One event changes the program counter of at most the acting caller. */
  lemma OneCallerMoves<V>(s: State<V>, e: Event<V>)
    ensures var t := Next(s, e);
            || t.pcs == s.pcs
            || (ByCaller(e) && e.p in t.pcs && t.pcs == s.pcs[e.p := t.pcs[e.p]])
  {
  }

  lemma SizesMove<V>(s: State<V>, t: State<V>, p: Pid)
    requires p in t.pcs && t.pcs == s.pcs[p := t.pcs[p]]
    ensures |InFlight(t)| == |InFlight(s)| + (if IsLoad(t.pcs[p]) then 1 else 0)
                             - (if p in s.pcs && IsLoad(s.pcs[p]) then 1 else 0)
    ensures |Leaving(t)| == |Leaving(s)| + (if IsLeaving(t.pcs[p]) then 1 else 0)
                            - (if p in s.pcs && IsLeaving(s.pcs[p]) then 1 else 0)
    ensures |Calling(t)| == |Calling(s)| + (if t.pcs[p].Loading? then 1 else 0)
                            - (if p in s.pcs && s.pcs[p].Loading? then 1 else 0)
  {
    SizeMove(InFlight(s), InFlight(t), p);
    SizeMove(Leaving(s), Leaving(t), p);
    SizeMove(Calling(s), Calling(t), p);
  }

  lemma SizesStep<V>(s: State<V>, e: Event<V>, t: State<V>)
    requires t == Next(s, e)
    ensures ByCaller(e) && e.p in t.pcs ==>
              && |InFlight(t)| == |InFlight(s)| + (if IsLoad(t.pcs[e.p]) then 1 else 0)
                                  - (if e.p in s.pcs && IsLoad(s.pcs[e.p]) then 1 else 0)
              && |Leaving(t)| == |Leaving(s)| + (if IsLeaving(t.pcs[e.p]) then 1 else 0)
                                 - (if e.p in s.pcs && IsLeaving(s.pcs[e.p]) then 1 else 0)
              && |Calling(t)| == |Calling(s)| + (if t.pcs[e.p].Loading? then 1 else 0)
                                 - (if e.p in s.pcs && s.pcs[e.p].Loading? then 1 else 0)
    ensures !(ByCaller(e) && e.p in t.pcs) ==>
              |InFlight(t)| == |InFlight(s)| && |Leaving(t)| == |Leaving(s)| && |Calling(t)| == |Calling(s)|
  {
    OneCallerMoves(s, e);
    if t.pcs != s.pcs {
      SizesMove(s, t, e.p);
    } else {
      assert InFlight(t) == InFlight(s) && Leaving(t) == Leaving(s) && Calling(t) == Calling(s);
    }
  }

  lemma LoadsAccountedStep<V>(s: State<V>, e: Event<V>)
    requires s.hist.started == s.hist.stored + s.hist.failed + |InFlight(s)|
    ensures var t := Next(s, e); t.hist.started == t.hist.stored + t.hist.failed + |InFlight(t)|
  {
    SizesStep(s, e, Next(s, e));
  }

  lemma InvStep<V>(s: State<V>, e: Event<V>)
    requires Inv(s)
    ensures Inv(Next(s, e))
  {
    LocksAgreeStep(s, e);
    SourcedStep(s, e);
    LoadsAccountedStep(s, e);
  }

  /** Callers that load hold distinct mutexes, so there are no more of them than mutexes. */
  lemma {:induction false} DistinctBelow(ps: set<Pid>, f: map<Pid, nat>, n: nat)
    requires forall p :: p in ps ==> p in f && f[p] < n
    requires forall p, q :: p in ps && q in ps && f[p] == f[q] ==> p == q
    ensures |ps| <= n
  {
    if p :| p in ps && f[p] == n - 1 {
      DistinctBelow(ps - {p}, f, n - 1);
    } else if n > 0 {
      DistinctBelow(ps, f, n - 1);
    } else {
      assert ps == {};
    }
  }

  lemma LoadsHoldMutexes<V>(s: State<V>)
    requires LocksAgree(s)
    ensures |InFlight(s)| <= s.nextMutex
  {
    forall p, q | p in InFlight(s) && q in InFlight(s) && s.pcs[p].m == s.pcs[q].m ensures p == q {
      assert At(s, s.pcs[p].m, p) && At(s, s.pcs[p].m, q);
    }
    DistinctBelow(InFlight(s), map p | p in InFlight(s) :: s.pcs[p].m, s.nextMutex);
  }

  lemma BoundedCaller<V>(s: State<V>, p: Pid)
    requires Bounded(s) && p in s.pcs && |InFlight(Step(s, p))| <= Step(s, p).nextMutex
    ensures Bounded(Step(s, p))
  {
    var t := Step(s, p);
    SizesStep(s, Advance(p), t);
    if s.pcs[p].Locked? || s.pcs[p].Loaded? || IsLeaving(s.pcs[p]) {
      BoundedLock(s, p, t);
    }
  }

  lemma BoundedLock<V>(s: State<V>, p: Pid, t: State<V>)
    requires Bounded(s) && p in s.pcs && t == Step(s, p) && |InFlight(t)| <= t.nextMutex
    requires s.pcs[p].Locked? || s.pcs[p].Loaded? || IsLeaving(s.pcs[p])
    requires |InFlight(t)| == |InFlight(s)| + (if IsLoad(t.pcs[p]) then 1 else 0) - (if IsLoad(s.pcs[p]) then 1 else 0)
    requires |Leaving(t)| == |Leaving(s)| + (if IsLeaving(t.pcs[p]) then 1 else 0)
                             - (if IsLeaving(s.pcs[p]) then 1 else 0)
    ensures Bounded(t)
  {
  }

  lemma BoundedStep<V>(s: State<V>, e: Event<V>)
    requires Inv(s) && Bounded(s) && !e.Drop?
    ensures Bounded(Next(s, e))
  {
    var t := Next(s, e);
    assert |InFlight(t)| <= t.nextMutex by {
      LocksAgreeStep(s, e);
      LoadsHoldMutexes(t);
    }
    if e.Advance? {
      if e.p in s.pcs {
        BoundedCaller(s, e.p);
      }
    } else {
      SizesStep(s, e, t);
    }
  }

  lemma {:induction false} RunInv<V>(es: seq<Event<V>>)
    ensures Inv(Run(es))
    ensures NoDrop(es) ==> Bounded(Run(es))
  {
    if es != [] {
      var prefix, e := es[..|es| - 1], es[|es| - 1];
      RunInv(prefix);
      InvStep(Run(prefix), e);
      if NoDrop(es) {
        assert NoDrop(prefix);
        BoundedStep(Run(prefix), e);
      }
    }
  }

  // ---- Main results ----

  /** However the callers interleave, while nothing has been evicted or has expired the loader is called at most
      once more than twice the number of its failures, and at most one more load succeeds than fails. */
  lemma LoadsBoundedByFailures<V>(es: seq<Event<V>>)
    requires NoDrop(es)
    ensures Run(es).hist.stored + |InFlight(Run(es))| <= 1 + Run(es).hist.failed
    ensures Run(es).hist.started <= 1 + 2 * Run(es).hist.failed
  {
    RunInv(es);
  }

  lemma ProducedStep<V>(s: State<V>, e: Event<V>, t: State<V>)
    requires t == Next(s, e) && !e.Put?
    requires |s.hist.produced| + |Calling(s)| <= s.hist.started
    ensures |t.hist.produced| + |Calling(t)| <= t.hist.started
  {
    SizesStep(s, e, t);
    if e.Advance? {
      ProducedCaller(s, e, t);
    } else if t.hist.produced != s.hist.produced {
      AddOne(s.hist.produced, t.hist.produced, e.result.value);
    }
  }

  lemma AddOne<V>(a: set<V>, b: set<V>, v: V)
    requires b == a + {v}
    ensures |b| <= |a| + 1
  {
    if v in a {
      assert a + {v} == a;
    }
  }

  lemma ProducedCaller<V>(s: State<V>, e: Event<V>, t: State<V>)
    requires e.Advance? && t == Next(s, e)
    requires |s.hist.produced| + |Calling(s)| <= s.hist.started
    requires e.p in t.pcs ==> |Calling(t)| == |Calling(s)| + (if t.pcs[e.p].Loading? then 1 else 0)
                                              - (if e.p in s.pcs && s.pcs[e.p].Loading? then 1 else 0)
    requires e.p !in t.pcs ==> |Calling(t)| == |Calling(s)|
    ensures |t.hist.produced| + |Calling(t)| <= t.hist.started
  {
    if e.p in s.pcs {
      assert t == Step(s, e.p) && t.hist.produced == s.hist.produced;
    }
  }

  lemma {:induction false} ProducedBound<V>(es: seq<Event<V>>)
    requires NoPut(es)
    ensures |Run(es).hist.produced| + |Calling(Run(es))| <= Run(es).hist.started
  {
    if es != [] {
      var prefix, e := es[..|es| - 1], es[|es| - 1];
      assert NoPut(prefix) && !e.Put?;
      ProducedBound(prefix);
      ProducedStep(Run(prefix), e, Run(es));
    }
  }

  /** Single flight: with no failed load, eviction, expiry or `Set` so far, the loader was called at most once and
      every caller that has returned got the one value, which is the value in the cache. */
  lemma LoadsOnce<V>(es: seq<Event<V>>, p: Pid, q: Pid)
    requires NoDrop(es) && NoPut(es) && Run(es).hist.failed == 0
    ensures Run(es).hist.started <= 1
    ensures p in Run(es).pcs && Run(es).pcs[p].Done? ==> Run(es).pcs[p].out.Value?
    ensures p in Run(es).pcs && q in Run(es).pcs && Run(es).pcs[p].Done? && Run(es).pcs[q].Done?
        ==> Run(es).pcs[p].out == Run(es).pcs[q].out
    ensures p in Run(es).pcs && Run(es).pcs[p].Done? ==> Run(es).cached == Some(Run(es).pcs[p].out.v)
  {
    var s := Run(es);
    LoadsBoundedByFailures(es);
    RunInv(es);
    ProducedBound(es);
    NoFailureNoError(es, p);
    NoFailureNoError(es, q);
    ReturnedIsCached(es, p);
    if p in s.pcs && s.pcs[p].Done? {
      SubsetSize({s.pcs[p].out.v, s.cached.value}, s.hist.produced);
    }
    if p in s.pcs && q in s.pcs && s.pcs[p].Done? && s.pcs[q].Done? {
      var v, w := s.pcs[p].out.v, s.pcs[q].out.v;
      assert {v, w} <= s.hist.produced;
      SubsetSize({v, w}, s.hist.produced);
    }
  }

  lemma {:induction false} SubsetSize<T>(a: set<T>, b: set<T>)
    requires a <= b
    ensures |a| <= |b|
  {
    if x :| x in a {
      SubsetSize(a - {x}, b - {x});
    }
  }

  lemma {:induction false} NoFailureNoError<V>(es: seq<Event<V>>, p: Pid)
    requires Run(es).hist.failed == 0
    ensures p in Run(es).pcs && HasOutcome(Run(es).pcs[p]) ==> Run(es).pcs[p].out.Value?
  {
    if es != [] {
      NoFailureNoError(es[..|es| - 1], p);
    }
  }

  lemma ReturnedStep<V>(s: State<V>, e: Event<V>, p: Pid)
    requires !e.Drop?
    requires p in s.pcs && HasOutcome(s.pcs[p]) && s.pcs[p].out.Value? ==> s.cached.Some?
    ensures var t := Next(s, e); p in t.pcs && HasOutcome(t.pcs[p]) && t.pcs[p].out.Value? ==> t.cached.Some?
  {
  }

  lemma {:induction false} ReturnedIsCached<V>(es: seq<Event<V>>, p: Pid)
    requires NoDrop(es)
    ensures p in Run(es).pcs && HasOutcome(Run(es).pcs[p]) && Run(es).pcs[p].out.Value? ==> Run(es).cached.Some?
  {
    if es != [] {
      assert NoDrop(es[..|es| - 1]) && !es[|es| - 1].Drop?;
      ReturnedIsCached(es[..|es| - 1], p);
      ReturnedStep(Run(es[..|es| - 1]), es[|es| - 1], p);
    }
  }

  /** Over every run, with failures and evictions allowed: what the cache holds and what a caller returns came from a
      successful load or from a `Put`, and the step at which a load fails leaves the cache as it was. */
  lemma ValuesAreSourced<V>(es: seq<Event<V>>, p: Pid)
    ensures Run(es).cached.Some? ==> Run(es).cached.value in Run(es).hist.produced
    ensures p in Run(es).pcs && Run(es).pcs[p].Done? && Run(es).pcs[p].out.Value?
        ==> Run(es).pcs[p].out.v in Run(es).hist.produced
    ensures es != [] && (es[|es| - 1].LoaderReturns? || es[|es| - 1].FailedRefresh?)
        ==> Run(es).cached == Run(es[..|es| - 1]).cached
  {
    RunInv(es);
  }

  /** No run deadlocks: if some caller has not returned, some caller can take a step that changes the state. */
  lemma NoDeadlock<V>(es: seq<Event<V>>, p: Pid)
    requires p in Run(es).pcs && !Run(es).pcs[p].Done?
    ensures exists e: Event<V> :: (e.Advance? || e.LoaderReturns?) && Next(Run(es), e) != Run(es)
  {
    RunInv(es);
    var s := Run(es);
    var q := p;
    if s.pcs[p].Waiting? && s.pcs[p].m in s.held {
      q := s.held[s.pcs[p].m];
      assert HeldBy(s, s.pcs[p].m, q);
      assert At(s, s.pcs[p].m, q);
    }
    var e: Event<V> := if s.pcs[q].Loading? then LoaderReturns(q, None) else Advance(q);
    assert Next(s, e).pcs[q] != s.pcs[q];
  }

  lemma RunMore<V>(es: seq<Event<V>>, e: Event<V>)
    ensures Run(es + [e]) == Next(Run(es), e)
  {
    assert (es + [e])[..|es|] == es;
  }

  /** How often the entry was evicted or expired. */
  function Drops<V>(es: seq<Event<V>>): nat {
    if es == [] then 0 else Drops(es[..|es| - 1]) + if es[|es| - 1].Drop? then 1 else 0
  }

  /** One more event, not a `Put`. */
  lemma RunOne<V>(es: seq<Event<V>>, e: Event<V>) returns (more: seq<Event<V>>)
    requires NoPut(es) && !e.Put?
    ensures NoPut(more) && (NoDrop(es) && !e.Drop? ==> NoDrop(more))
    ensures Drops(more) == Drops(es) + if e.Drop? then 1 else 0
    ensures Run(more) == Next(Run(es), e)
  {
    RunMore(es, e);
    more := es + [e];
    assert more[..|es|] == es;
  }

  /** Five more events, none of them a `Put`. */
  lemma RunFive<V>(es: seq<Event<V>>, a: Event<V>, b: Event<V>, c: Event<V>, d: Event<V>, e: Event<V>)
      returns (more: seq<Event<V>>)
    requires NoPut(es) && NoPut([a, b, c, d, e])
    ensures NoPut(more) && (NoDrop(es) && NoDrop([a, b, c, d, e]) ==> NoDrop(more))
    ensures NoDrop([a, b, c, d, e]) ==> Drops(more) == Drops(es)
    ensures Run(more) == Next(Next(Next(Next(Next(Run(es), a), b), c), d), e)
  {
    var five := [a, b, c, d, e];
    assert a == five[0] && b == five[1] && c == five[2] && d == five[3] && e == five[4];
    more := RunOne(es, a);
    more := RunOne(more, b);
    more := RunOne(more, c);
    more := RunOne(more, d);
    more := RunOne(more, e);
  }

  /** Caller 0 is loading under mutex 0. */
  lemma FirstCallerLoads() returns (es: seq<Event<int>>)
    ensures NoDrop(es) && NoPut(es) && Drops(es) == 0
    ensures Run(es) == State(None, Some(0), 1, map[0 := 0], map[0 := Loading(0)], History(1, 0, 0, 0, {}))
  {
    es := RunFive([], Call(0), Advance(0), Advance(0), Advance(0), Advance(0));
  }

  /** A newcomer finds the mutex of the lock table held. */
  lemma NewcomerWaits(es: seq<Event<int>>, q: Pid, m: MutexId) returns (more: seq<Event<int>>)
    requires NoPut(es) && q !in Run(es).pcs && Run(es).cached.None? && Run(es).lock == Some(m)
    ensures NoPut(more) && Drops(more) == Drops(es) && (NoDrop(es) ==> NoDrop(more))
    ensures Run(more) == Run(es).(pcs := Run(es).pcs[q := Waiting(m)])
  {
    more := RunOne(es, Call(q));
    more := RunOne(more, Advance(q));
    more := RunOne(more, Advance(q));
    assert Run(more).pcs == Run(es).pcs[q := Waiting(m)];
  }

  /** Caller 1 waits for that mutex; the load fails and caller 0 unlocks. */
  lemma ThenLoadFails() returns (es: seq<Event<int>>)
    ensures NoDrop(es) && NoPut(es)
    ensures Run(es) == State(None, Some(0), 1, map[], map[0 := Deleting(LoadFailed), 1 := Waiting(0)],
                             History(1, 0, 1, 0, {}))
  {
    es := FirstCallerLoads();
    es := NewcomerWaits(es, 1, 0);
    es := RunOne(es, LoaderReturns(0, None));
    es := RunOne(es, Advance(0));
    assert Run(es).pcs == map[0 := Deleting(LoadFailed), 1 := Waiting(0)];
  }

  /** The waiter inherits the mutex and loads; caller 0 then deletes the lock-table entry. */
  lemma ThenWaiterInherits() returns (es: seq<Event<int>>)
    ensures NoDrop(es) && NoPut(es)
    ensures Run(es) == State(None, None, 1, map[0 := 1], map[0 := Done(LoadFailed), 1 := Loading(0)],
                             History(2, 0, 1, 1, {}))
  {
    es := ThenLoadFails();
    es := RunFive(es, Advance(1), Advance(1), Advance(0), FailedRefresh, FailedRefresh);
  }

  /** The bound is tight: one failure is enough for two loads of the same key to run at once, because a newcomer
      finds no lock-table entry and locks a fresh mutex. */
  lemma OneFailureAllowsTwoLoads() returns (es: seq<Event<int>>)
    ensures NoDrop(es) && NoPut(es)
    ensures Run(es).hist.failed == 1
    ensures InFlight(Run(es)) == {1, 2}
  {
    es := ThenWaiterInherits();
    es := RunFive(es, Call(2), Advance(2), Advance(2), Advance(2), Advance(2));
    assert Run(es).pcs == map[0 := Done(LoadFailed), 1 := Loading(0), 2 := Loading(1)];
    assert InFlight(Run(es)) == {1, 2};
  }

  // ---- Every number of failures ----

  /** Caller `p` is loading under the mutex of the lock table, and callers from `next` on are yet to come. */
  ghost predicate LastLoads<V>(s: State<V>, p: Pid, next: nat) {
    && s.cached.None? && s.lock.Some? && s.lock.value in s.held && s.lock.value < s.nextMutex
    && p in s.pcs && s.pcs[p] == Loading(s.lock.value)
    && (forall q :: q in s.pcs ==> q < next)
  }

  /** The mutex that the lock table would create next is not held. */
  lemma NewMutexFree<V>(s: State<V>)
    requires LocksAgree(s)
    ensures s.nextMutex !in s.held
  {
    forall p ensures !HeldBy(s, s.nextMutex, p) {
      assert HeldBy(s, s.nextMutex, p) <==> At(s, s.nextMutex, p);
    }
    assert s.nextMutex in s.held ==> HeldBy(s, s.nextMutex, s.held[s.nextMutex]);
  }

  /** Caller `q` waits, the load of `p` fails, and `p` unlocks. */
  lemma RoundFails(es: seq<Event<int>>, p: Pid, q: Pid) returns (more: seq<Event<int>>)
    requires NoDrop(es) && NoPut(es) && LastLoads(Run(es), p, q)
    ensures NoDrop(more) && NoPut(more)
    ensures var s := Run(es);
            Run(more) == s.(held := s.held - {s.lock.value},
                            pcs := s.pcs[q := Waiting(s.lock.value)][p := Deleting(LoadFailed)],
                            hist := s.hist.(failed := s.hist.failed + 1))
  {
    var s, m := Run(es), Run(es).lock.value;
    more := RunFive(es, Call(q), Advance(q), Advance(q), LoaderReturns(p, None), Advance(p));
    assert Run(more).pcs == s.pcs[q := Waiting(m)][p := Deleting(LoadFailed)];
  }

  /** Caller `q` inherits the mutex and loads; `p` deletes the lock-table entry. */
  lemma RoundInherits(es: seq<Event<int>>, p: Pid, q: Pid, m: MutexId) returns (more: seq<Event<int>>)
    requires NoDrop(es) && NoPut(es) && p != q && m !in Run(es).held && Run(es).cached.None?
    requires p in Run(es).pcs && q in Run(es).pcs
    requires Run(es).pcs[q] == Waiting(m) && Run(es).pcs[p] == Deleting(LoadFailed)
    ensures NoDrop(more) && NoPut(more)
    ensures var s := Run(es);
            Run(more) == s.(lock := None, held := s.held[m := q], pcs := s.pcs[q := Loading(m)][p := Done(LoadFailed)],
                            hist := s.hist.(started := s.hist.started + 1, deletions := s.hist.deletions + 1))
  {
    var s := Run(es);
    more := RunFive(es, Advance(q), Advance(q), Advance(p), FailedRefresh, FailedRefresh);
    assert Run(more).pcs == s.pcs[q := Loading(m)][p := Done(LoadFailed)];
  }

  /** A newcomer finds no lock-table entry and loads under a fresh mutex. */
  lemma RoundNewcomer(es: seq<Event<int>>, r: Pid) returns (more: seq<Event<int>>)
    requires NoPut(es) && r !in Run(es).pcs && Run(es).cached.None? && Run(es).lock.None?
    ensures NoPut(more) && (NoDrop(es) ==> NoDrop(more)) && Drops(more) == Drops(es)
    ensures var s := Run(es);
            Run(more) == s.(lock := Some(s.nextMutex), nextMutex := s.nextMutex + 1, held := s.held[s.nextMutex := r],
                            pcs := s.pcs[r := Loading(s.nextMutex)],
                            hist := s.hist.(started := s.hist.started + 1))
  {
    var s := Run(es);
    RunInv(es);
    NewMutexFree(s);
    more := RunFive(es, Call(r), Advance(r), Advance(r), Advance(r), Advance(r));
    assert Run(more).pcs == s.pcs[r := Loading(s.nextMutex)];
  }

  /** One failure: two callers more are loading, and `p` no longer is. */
  lemma Round(es: seq<Event<int>>, p: Pid, q: Pid) returns (more: seq<Event<int>>)
    requires NoDrop(es) && NoPut(es) && LastLoads(Run(es), p, q)
    ensures NoDrop(more) && NoPut(more) && LastLoads(Run(more), q + 1, q + 2)
    ensures Run(more).hist.failed == Run(es).hist.failed + 1 && Run(more).hist.started == Run(es).hist.started + 2
    ensures var s := Run(es);
            Run(more).pcs == s.pcs[q := Loading(s.lock.value)][p := Done(LoadFailed)][q + 1 := Loading(s.nextMutex)]
  {
    var s := Run(es);
    more := RoundFails(es, p, q);
    more := RoundInherits(more, p, q, s.lock.value);
    assert Run(more).pcs == s.pcs[q := Loading(s.lock.value)][p := Done(LoadFailed)];
    more := RoundNewcomer(more, q + 1);
  }

  lemma RoundAddsOne(s: State<int>, t: State<int>, p: Pid, q: Pid, m: MutexId, created: MutexId)
    requires LastLoads(s, p, q)
    requires t.pcs == s.pcs[q := Loading(m)][p := Done(LoadFailed)][q + 1 := Loading(created)]
    ensures |InFlight(t)| == |InFlight(s)| + 1
  {
    assert InFlight(t) == (InFlight(s) - {p}) + {q, q + 1};
  }

  /** The bounds are tight for every number of failures: after `n` of them, with nothing evicted, `n + 1` loads may be
      running at once, of `2 * n + 1` that were started. */
  lemma {:induction false} FailuresAllowLoads(n: nat) returns (es: seq<Event<int>>, p: Pid)
    ensures NoDrop(es) && NoPut(es) && LastLoads(Run(es), p, 2 * n + 1)
    ensures Run(es).hist.failed == n && |InFlight(Run(es))| == n + 1 && Run(es).hist.started == 2 * n + 1
  {
    if n == 0 {
      es := FirstCallerLoads();
      p := 0;
      assert InFlight(Run(es)) == {0};
    } else {
      var before, last := FailuresAllowLoads(n - 1);
      es := Round(before, last, 2 * n - 1);
      RoundAddsOne(Run(before), Run(es), last, 2 * n - 1, Run(before).lock.value, Run(before).nextMutex);
      p := 2 * n;
    }
  }

  /** Caller 1 waits while caller 0 loads; the load succeeds and is stored. */
  lemma FirstLoadStored() returns (es: seq<Event<int>>)
    ensures NoPut(es)
    ensures Run(es) == State(Some(7), Some(0), 1, map[0 := 0], map[0 := Unlocking(0, Value(7)), 1 := Waiting(0)],
                             History(1, 1, 0, 0, {7}))
  {
    es := FirstCallerLoads();
    es := NewcomerWaits(es, 1, 0);
    es := RunOne(es, LoaderReturns(0, Some(7)));
    es := RunOne(es, Advance(0));
    assert Run(es).pcs == map[0 := Unlocking(0, Value(7)), 1 := Waiting(0)];
  }

  /** Caller 0 unlocks, and the entry is evicted. */
  lemma ThenEvicted() returns (es: seq<Event<int>>)
    ensures NoPut(es)
    ensures Run(es) == State(None, Some(0), 1, map[], map[0 := Deleting(Value(7)), 1 := Waiting(0)],
                             History(1, 1, 0, 0, {7}))
  {
    es := FirstLoadStored();
    es := RunOne(es, Advance(0));
    es := RunOne(es, Drop);
    assert Run(es).pcs == map[0 := Deleting(Value(7)), 1 := Waiting(0)] && Run(es).held == map[];
  }

  /** Caller 1 loads again, and caller 0 deletes the lock-table entry. */
  lemma ThenLoadedAgain() returns (es: seq<Event<int>>)
    ensures NoPut(es)
    ensures Run(es) == State(None, None, 1, map[0 := 1], map[0 := Done(Value(7)), 1 := Loading(0)],
                             History(2, 1, 0, 1, {7}))
  {
    es := ThenEvicted();
    es := RunOne(es, Advance(1));
    es := RunOne(es, Advance(1));
    es := RunOne(es, Advance(0));
    assert Run(es).pcs == map[0 := Done(Value(7)), 1 := Loading(0)];
  }

  /** No failure, but an eviction before the lock-table entry is deleted: again two loads run at once. */
  lemma EvictionAllowsTwoLoads() returns (es: seq<Event<int>>)
    ensures NoPut(es) && Run(es).hist.failed == 0 && Run(es).hist.started == 3
    ensures InFlight(Run(es)) == {1, 2}
  {
    es := ThenLoadedAgain();
    es := RoundNewcomer(es, 2);
    assert Run(es).pcs == map[0 := Done(Value(7)), 1 := Loading(0), 2 := Loading(1)];
  }

  // ---- One eviction and any number of loads ----

  /** Caller 0 is loading, and callers 1 to `n - 1` wait for its mutex. */
  ghost predicate Waiters(s: State<int>, n: nat) {
    && s.cached.None? && s.lock == Some(0) && s.nextMutex == 1 && s.held == map[0 := 0] && s.hist.failed == 0
    && (forall p: Pid :: p in s.pcs <==> p < n)
    && (forall p :: p in s.pcs ==> s.pcs[p] == if p == 0 then Loading(0) else Waiting(0))
  }

  /** The value is stored; `k` callers have unlocked and not yet deleted the lock-table entry, and the others wait. */
  ghost predicate Leavers(s: State<int>, n: nat, k: nat) {
    && s.cached == Some(7) && s.lock == Some(0) && s.held == map[] && s.hist.failed == 0
    && (forall p: Pid :: p in s.pcs <==> p < n)
    && (forall p :: p in s.pcs ==> s.pcs[p] == if p < k then Deleting(Value(7)) else Waiting(0))
  }

  /** After the eviction: `k` callers have deleted the lock-table entry, each for a newcomer that now loads. */
  ghost predicate Evicted(s: State<int>, n: nat, k: nat) {
    && s.cached.None? && s.hist.failed == 0 && |InFlight(s)| == k
    && (forall p: Pid :: p in s.pcs <==> p < n + k)
    && (forall p :: p in s.pcs && k <= p < n ==> s.pcs[p] == Deleting(Value(7)))
  }

  /** A waiting caller finds a value under the mutex and unlocks. */
  lemma WaiterLeaves(es: seq<Event<int>>, q: Pid, m: MutexId, v: int) returns (more: seq<Event<int>>)
    requires NoPut(es) && q in Run(es).pcs && Run(es).pcs[q] == Waiting(m)
    requires Run(es).cached == Some(v) && m !in Run(es).held
    ensures NoPut(more) && Drops(more) == Drops(es)
    ensures Run(more) == Run(es).(pcs := Run(es).pcs[q := Deleting(Value(v))])
  {
    more := RunOne(es, Advance(q));
    more := RunOne(more, Advance(q));
    more := RunOne(more, Advance(q));
    assert Run(more).pcs == Run(es).pcs[q := Deleting(Value(v))];
    assert Run(more).held == Run(es).held;
  }

  lemma {:induction false} WaitersGather(n: nat) returns (es: seq<Event<int>>)
    requires n > 0
    ensures NoPut(es) && Drops(es) == 0 && Waiters(Run(es), n)
  {
    if n == 1 {
      es := FirstCallerLoads();
    } else {
      var before := WaitersGather(n - 1);
      es := NewcomerWaits(before, n - 1, 0);
    }
  }

  /** The load of caller 0 succeeds, and it unlocks. */
  lemma FirstLeaves(n: nat) returns (es: seq<Event<int>>)
    requires n > 0
    ensures NoPut(es) && Drops(es) == 0 && Leavers(Run(es), n, 1)
  {
    var before := WaitersGather(n);
    es := RunOne(before, LoaderReturns(0, Some(7)));
    es := RunOne(es, Advance(0));
    es := RunOne(es, Advance(0));
    assert Run(es).pcs == Run(before).pcs[0 := Deleting(Value(7))];
  }

  lemma {:induction false} LeaversGather(n: nat, k: nat) returns (es: seq<Event<int>>)
    requires 0 < k <= n
    ensures NoPut(es) && Drops(es) == 0 && Leavers(Run(es), n, k)
  {
    if k == 1 {
      es := FirstLeaves(n);
    } else {
      var before := LeaversGather(n, k - 1);
      es := WaiterLeaves(before, k - 1, 0, 7);
    }
  }

  /** A caller that has unlocked deletes the lock-table entry, and the newcomer `r` loads under a fresh mutex. */
  lemma LeaverLetsIn(es: seq<Event<int>>, q: Pid, r: Pid, v: int) returns (more: seq<Event<int>>)
    requires NoPut(es) && q in Run(es).pcs && Run(es).pcs[q] == Deleting(Value(v))
    requires r !in Run(es).pcs && Run(es).cached.None?
    ensures NoPut(more) && Drops(more) == Drops(es)
    ensures Run(more).cached.None? && Run(more).hist.failed == Run(es).hist.failed
    ensures Run(more).pcs == Run(es).pcs[q := Done(Value(v))][r := Loading(Run(es).nextMutex)]
    ensures |InFlight(Run(more))| == |InFlight(Run(es))| + 1
  {
    var deleted := RunOne(es, Advance(q));
    more := RoundNewcomer(deleted, r);
    assert InFlight(Run(more)) == InFlight(Run(es)) + {r};
  }

  lemma {:induction false} NewcomersLoad(n: nat, k: nat) returns (es: seq<Event<int>>)
    requires 0 < n && k <= n
    ensures NoPut(es) && Drops(es) == 1 && Evicted(Run(es), n, k)
  {
    if k == 0 {
      var before := LeaversGather(n, n);
      es := RunOne(before, Drop);
      assert InFlight(Run(es)) == {};
    } else {
      var before := NewcomersLoad(n, k - 1);
      es := LeaverLetsIn(before, k - 1, n + k - 1, 7);
    }
  }

  /** One eviction is enough for any number of loads at once, although none fails: every caller that has unlocked and
      not yet deleted the lock-table entry removes the mutex of one more newcomer. */
  lemma EvictionAllowsLoads(n: nat) returns (es: seq<Event<int>>)
    requires n > 0
    ensures NoPut(es) && Drops(es) == 1 && Run(es).hist.failed == 0 && |InFlight(Run(es))| == n
  {
    es := NewcomersLoad(n, n);
  }

  // ---- What `Set` promises ----

  lemma EventKeeps<V>(s: State<V>, e: Event<V>)
    ensures s.hist.stored <= Next(s, e).hist.stored
    ensures !e.Drop? && !e.Put? && Next(s, e).hist.stored == s.hist.stored ==> Next(s, e).cached == s.cached
  {
  }

  /** A value in the cache stays there over events that neither evict it nor store another. */
  lemma {:induction false} StaysCached<V>(es: seq<Event<V>>, fs: seq<Event<V>>, v: V)
    requires Run(es).cached == Some(v) && NoDrop(fs) && NoPut(fs)
    requires Run(es + fs).hist.stored == Run(es).hist.stored
    ensures Run(es + fs).cached == Some(v)
  {
    if fs == [] {
      assert es + fs == es;
    } else {
      var front, last := fs[..|fs| - 1], fs[|fs| - 1];
      assert es + fs == es + front + [last];
      RunMore(es + front, last);
      EventKeeps(Run(es + front), last);
      StoredGrows(es, front);
      StaysCached(es, front, v);
    }
  }

  lemma {:induction false} StoredGrows<V>(es: seq<Event<V>>, fs: seq<Event<V>>)
    ensures Run(es).hist.stored <= Run(es + fs).hist.stored
  {
    if fs == [] {
      assert es + fs == es;
    } else {
      assert es + fs == es + fs[..|fs| - 1] + [fs[|fs| - 1]];
      RunMore(es + fs[..|fs| - 1], fs[|fs| - 1]);
      EventKeeps(Run(es + fs[..|fs| - 1]), fs[|fs| - 1]);
      StoredGrows(es, fs[..|fs| - 1]);
    }
  }

  /** After a `Put`, until an eviction or another store, a new caller gets the value without a load. */
  lemma PutIsServed<V>(es: seq<Event<V>>, v: V, fs: seq<Event<V>>, p: Pid)
    requires NoDrop(fs) && NoPut(fs) && p !in Run(es + [Put(v)] + fs).pcs
    requires Run(es + [Put(v)] + fs).hist.stored == Run(es).hist.stored
    ensures var before, after := Run(es + [Put(v)] + fs), Run(es + [Put(v)] + fs + [Call(p)] + [Advance(p)]);
            && before.cached == Some(v)
            && after.pcs == before.pcs[p := Done(Value(v))] && after.cached == Some(v) && after.hist == before.hist
  {
    RunMore(es, Put(v));
    StaysCached(es + [Put(v)], fs, v);
    var more := es + [Put(v)] + fs;
    RunMore(more, Call(p));
    RunMore(more + [Call(p)], Advance(p));
    assert Run(more + [Call(p)] + [Advance(p)]).pcs == Run(more).pcs[p := Done(Value(v))];
  }
}
