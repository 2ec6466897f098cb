/** The capacity-reservation provider: two caches in front of the API, and a ledger per reservation. */
module ReservationProvider {
  import opened Common
  import opened Cache
  import opened UsageLedger
  import opened Reservations

  /** Reservations by id and by selector, and the ledgers. */
  datatype Store = Store(
    reservations: map<string, Reservation>, selected: map<string, seq<Reservation>>, ledgers: map<string, Ledger>)

  /** `get` answers with the time at which it was asked; `list` gives the ids that a selector keeps. */
  datatype Api = Api(get: string -> Result<Reservation>, list: string -> Result<seq<string>>)

  /** A selector is known by its hash. */
  datatype Config = Config(id: Option<string>, filter: Option<string>)

  function LedgerOf(s: Store, id: string): Option<Ledger> {
    if id in s.ledgers then Some(s.ledgers[id]) else None
  }

  /** A mark on the ledger of the instance's reservation, if it has one. */
  function Marked(s: Store, e: Event, now: int): Store {
    match e.instance.reservationId
    case None => s
    case Some(id) =>
      s.(ledgers := s.ledgers[id := Ledger(After(if id in s.ledgers then s.ledgers[id].cells else map[], e), now)])
  }

  /** Reading a reservation, even from the cache, drops its ledger. */
  ghost function Get(s: Store, id: string, api: Api): (Store, Result<Reservation>) {
    if id in s.reservations then (s.(ledgers := s.ledgers - {id}), Ok(s.reservations[id]))
    else
      match api.get(id)
      case Err(e) => (s, Err(e))
      case Ok(r) => (s.(reservations := s.reservations[id := r], ledgers := s.ledgers - {id}), Ok(r))
  }

  ghost function GetAll(s: Store, ids: seq<string>, api: Api): (Store, Result<seq<Reservation>>) {
    if ids == [] then (s, Ok([]))
    else
      var (before, front) := GetAll(s, ids[..|ids| - 1], api);
      match front
      case Err(e) => (before, Err(e))
      case Ok(all) =>
        var (after, last) := Get(before, ids[|ids| - 1], api);
        match last
        case Err(e) => (after, Err(e))
        case Ok(r) => (after, Ok(all + [r]))
  }

  ghost function Select(s: Store, filter: string, api: Api): (Store, Result<seq<Reservation>>) {
    if filter in s.selected then (s, Ok(s.selected[filter]))
    else
      match api.list(filter)
      case Err(e) => (s, Err(e))
      case Ok(ids) =>
        var (after, all) := GetAll(s, ids, api);
        match all
        case Err(e) => (after, Err(e))
        case Ok(rs) => (after.(selected := after.selected[filter := rs]), Ok(rs))
  }

  ghost function ForConfig(s: Store, cfg: Config, api: Api): (Store, Result<seq<Reservation>>) {
    if cfg.id.Some? && cfg.filter.Some? then (s, Err(Failure("define either ocid or filter")))
    else if cfg.id.Some? then
      var (after, r) := Get(s, cfg.id.value, api);
      (after, if r.Ok? then Ok([r.value]) else Err(r.error))
    else if cfg.filter.None? then (s, Err(NilDereference))
    else Select(s, cfg.filter.value, api)
  }

  ghost function Collect(s: Store, configs: seq<Config>, api: Api): (Store, Result<seq<Reservation>>) {
    if configs == [] then (s, Ok([]))
    else
      var (before, front) := Collect(s, configs[..|configs| - 1], api);
      match front
      case Err(e) => (before, Err(e))
      case Ok(all) =>
        var (after, last) := ForConfig(before, configs[|configs| - 1], api);
        match last
        case Err(e) => (after, Err(e))
        case Ok(rs) => (after, Ok(all + rs))
  }

  /** `out` is `r` as a resolution reports it. */
  ghost predicate Reports(s: Store, r: Reservation, out: Reservation) {
    out.ocid == r.ocid && out.ad == r.ad && out.records == Reported(r, LedgerOf(s, r.ocid))
  }

  class ReservationProvider {
    const byId: GetOrLoadCache<Reservation>
    const bySelector: GetOrLoadCache<seq<Reservation>>
    var usageMap: map<string, Usage>

    /** No two reservations share a ledger. */
    ghost predicate Valid()
      reads this
    {
      && byId as object != bySelector && byId as object != this && bySelector as object != this
      && (forall id :: id in usageMap ==>
            usageMap[id] as object != this && usageMap[id] as object != byId && usageMap[id] as object != bySelector)
      && (forall a, b :: a in usageMap && b in usageMap && usageMap[a] == usageMap[b] ==> a == b)
    }

    ghost function Ledgers(): map<string, Ledger>
      reads this, usageMap.Values
    {
      map id | id in usageMap :: Ledger(usageMap[id].cells, usageMap[id].lastCommit)
    }

    ghost function State(): Store
      reads this, byId, bySelector, usageMap.Values
    {
      Store(byId.entries, bySelector.entries, Ledgers())
    }

    constructor ()
      ensures Valid() && fresh(byId) && fresh(bySelector) && State() == Store(map[], map[], map[])
    {
      byId := new GetOrLoadCache();
      bySelector := new GetOrLoadCache();
      usageMap := map[];
    }

    method GetOrCreateUsage(id: string, now: int) returns (usage: Usage)
      requires Valid()
      modifies this
      ensures Valid() && usageMap == old(usageMap)[id := usage]
      ensures if id in old(usageMap) then usage == old(usageMap)[id] else fresh(usage) && usage.cells == map[]
    {
      if id in usageMap {
        usage := usageMap[id];
      } else {
        usage := new Usage(now);
        usageMap := usageMap[id := usage];
      }
    }

    method MarkCapacityReservationUsed(i: Instance, now: int)
      requires Valid()
      modifies this, usageMap.Values
      ensures Valid() && State() == Marked(old(State()), Used(i), now)
      ensures fresh(usageMap.Values - old(usageMap.Values))
    {
      if i.reservationId.None? {
        return;
      }
      ghost var before := Ledgers();
      var id := i.reservationId.value;
      var usage := GetOrCreateUsage(id, now);
      usage.IncreaseUsage(i, now);
      ghost var cells: Cells := if id in before then before[id].cells else map[];
      assert Ledgers() == before[id := Ledger(After(cells, Used(i)), now)];
    }

    method MarkCapacityReservationReleased(i: Instance, now: int)
      requires Valid()
      modifies this, usageMap.Values
      ensures Valid() && State() == Marked(old(State()), Released(i), now)
      ensures fresh(usageMap.Values - old(usageMap.Values))
    {
      if i.reservationId.None? {
        return;
      }
      ghost var before := Ledgers();
      var id := i.reservationId.value;
      var usage := GetOrCreateUsage(id, now);
      usage.DecreaseUsage(i, now);
      ghost var cells: Cells := if id in before then before[id].cells else map[];
      assert Ledgers() == before[id := Ledger(After(cells, Released(i)), now)];
    }

    method GetCapacityReservation(id: string, api: Api) returns (r: Result<Reservation>)
      requires Valid()
      modifies this, byId
      ensures Valid() && usageMap.Values <= old(usageMap.Values)
      ensures (State(), r) == Get(old(State()), id, api)
    {
      var called;
      r, called := byId.GetOrLoad(id, api.get);
      if r.Ok? {
        usageMap := usageMap - {id};
        assert Ledgers() == old(Ledgers()) - {id};
      } else {
        assert Ledgers() == old(Ledgers());
      }
    }

    method ListAndFilter(filter: string, api: Api) returns (r: Result<seq<Reservation>>)
      requires Valid() && filter !in bySelector.entries
      modifies this, byId
      ensures Valid() && usageMap.Values <= old(usageMap.Values)
      ensures api.list(filter).Err? ==> r == Err(api.list(filter).error) && State() == old(State())
      ensures api.list(filter).Ok? ==> (State(), r) == GetAll(old(State()), api.list(filter).value, api)
    {
      var listed := api.list(filter);
      if listed.Err? {
        return Err(listed.error);
      }
      var ids, all := listed.value, [];
      for n := 0 to |ids|
        invariant Valid() && usageMap.Values <= old(usageMap.Values)
        invariant (State(), Ok(all)) == GetAll(old(State()), ids[..n], api)
      {
        assert ids[..n + 1][..n] == ids[..n];
        var c := GetCapacityReservation(ids[n], api);
        if c.Err? {
          GetAllFails(old(State()), ids, n + 1, api);
          return Err(c.error);
        }
        all := all + [c.value];
      }
      assert ids[..|ids|] == ids;
      r := Ok(all);
    }

    method FilterCapacityReservations(filter: string, api: Api) returns (r: Result<seq<Reservation>>)
      requires Valid()
      modifies this, byId, bySelector
      ensures Valid() && usageMap.Values <= old(usageMap.Values)
      ensures (State(), r) == Select(old(State()), filter, api)
    {
      var cached := bySelector.GetCached(filter);
      if cached.Some? {
        return Ok(cached.value);
      }
      r := ListAndFilter(filter, api);
      if r.Ok? {
        bySelector.Set(filter, r.value);
      }
    }

    method ResolveConfig(cfg: Config, api: Api) returns (r: Result<seq<Reservation>>)
      requires Valid()
      modifies this, byId, bySelector
      ensures Valid() && usageMap.Values <= old(usageMap.Values)
      ensures (State(), r) == ForConfig(old(State()), cfg, api)
    {
      if cfg.id.Some? && cfg.filter.Some? {
        r := Err(Failure("define either ocid or filter"));
      } else if cfg.id.Some? {
        var c := GetCapacityReservation(cfg.id.value, api);
        r := if c.Ok? then Ok([c.value]) else Err(c.error);
      } else if cfg.filter.None? {
        r := Err(NilDereference);
      } else {
        r := FilterCapacityReservations(cfg.filter.value, api);
      }
    }

    /** The reservations that the configurations name, in order, each under its ledger as it is at the end. */
    method ResolveCapacityReservations(configs: seq<Config>, api: Api) returns (r: Result<seq<Reservation>>)
      requires Valid()
      modifies this, byId, bySelector
      ensures Valid() && usageMap.Values <= old(usageMap.Values)
      ensures configs == [] ==> r.Err? && State() == old(State())
      ensures configs != [] ==> State() == Collect(old(State()), configs, api).0
      ensures configs != [] ==>
                match Collect(old(State()), configs, api).1
                case Err(e) => r == Err(e)
                case Ok(all) =>
                  && r.Ok? && |r.value| == |all|
                  && forall k :: 0 <= k < |all| ==> Reports(State(), all[k], r.value[k])
    {
      if configs == [] {
        return Err(Failure("no capacityReservationConfig specified"));
      }
      var all: seq<Reservation> := [];
      for n := 0 to |configs|
        invariant Valid() && usageMap.Values <= old(usageMap.Values)
        invariant (State(), Ok(all)) == Collect(old(State()), configs[..n], api)
      {
        assert configs[..n + 1][..n] == configs[..n];
        var some := ResolveConfig(configs[n], api);
        if some.Err? {
          CollectFails(old(State()), configs, n + 1, api);
          return some;
        }
        all := all + some.value;
      }
      assert configs[..|configs|] == configs;
      var out := Adjusted(all);
      r := Ok(out);
    }

    method Adjusted(all: seq<Reservation>) returns (out: seq<Reservation>)
      requires Valid()
      ensures |out| == |all| && forall k :: 0 <= k < |all| ==> Reports(State(), all[k], out[k])
    {
      out := [];
      for n := 0 to |all|
        invariant |out| == n && forall k :: 0 <= k < n ==> Reports(State(), all[k], out[k])
      {
        var one := all[n];
        if all[n].ocid in usageMap && all[n].time < usageMap[all[n].ocid].lastCommit {
          one := AdjustCapacityAgainstUsage(all[n], usageMap[all[n].ocid].cells);
        }
        out := out + [one];
      }
    }
  }

  lemma {:induction false} GetAllFails(s: Store, ids: seq<string>, n: nat, api: Api)
    requires n <= |ids| && GetAll(s, ids[..n], api).1.Err?
    ensures GetAll(s, ids, api) == GetAll(s, ids[..n], api)
  {
    if n < |ids| {
      var front := ids[..|ids| - 1];
      assert front[..n] == ids[..n];
      GetAllFails(s, front, n, api);
    } else {
      assert ids[..n] == ids;
    }
  }

  lemma {:induction false} CollectFails(s: Store, configs: seq<Config>, n: nat, api: Api)
    requires n <= |configs| && Collect(s, configs[..n], api).1.Err?
    ensures Collect(s, configs, api) == Collect(s, configs[..n], api)
  {
    if n < |configs| {
      var front := configs[..|configs| - 1];
      assert front[..n] == configs[..n];
      CollectFails(s, front, n, api);
    } else {
      assert configs[..n] == configs;
    }
  }

  // ---- Selectors keep ledgers, ids do not ----

  ghost predicate AllCached(s: Store, configs: seq<Config>) {
    forall cfg :: cfg in configs ==> cfg.id.None? && cfg.filter.Some? && cfg.filter.value in s.selected
  }

  ghost function Selected(s: Store, configs: seq<Config>): seq<Reservation>
    requires AllCached(s, configs)
  {
    if configs == [] then []
    else Selected(s, configs[..|configs| - 1]) + s.selected[configs[|configs| - 1].filter.value]
  }

  /** Resolving selectors that are cached reads what is cached and changes nothing, ledgers included. */
  lemma {:induction false} SelectorHitKeepsLedgers(s: Store, configs: seq<Config>, api: Api)
    requires AllCached(s, configs)
    ensures Collect(s, configs, api) == (s, Ok(Selected(s, configs)))
  {
    if configs != [] {
      SelectorHitKeepsLedgers(s, configs[..|configs| - 1], api);
    }
  }

  /** No step of a resolution creates a ledger, or changes one otherwise than by dropping it. */
  lemma {:induction false} CollectOnlyDrops(s: Store, configs: seq<Config>, api: Api)
    ensures var after := Collect(s, configs, api).0;
            forall id :: id in after.ledgers ==> id in s.ledgers && after.ledgers[id] == s.ledgers[id]
  {
    if configs != [] {
      CollectOnlyDrops(s, configs[..|configs| - 1], api);
      var before, cfg := Collect(s, configs[..|configs| - 1], api).0, configs[|configs| - 1];
      if cfg.filter.Some? && api.list(cfg.filter.value).Ok? {
        GetAllOnlyDrops(before, api.list(cfg.filter.value).value, api);
      }
    }
  }

  lemma {:induction false} GetAllOnlyDrops(s: Store, ids: seq<string>, api: Api)
    ensures var after := GetAll(s, ids, api).0;
            forall id :: id in after.ledgers ==> id in s.ledgers && after.ledgers[id] == s.ledgers[id]
  {
    if ids != [] {
      GetAllOnlyDrops(s, ids[..|ids| - 1], api);
    }
  }

  /** A reservation that is configured by its id is reported as it was read, whatever was marked before: its ledger is
      gone by the time it would be laid over the snapshot. */
  lemma {:induction false} ByIdSeesNoLedger(s: Store, configs: seq<Config>, n: nat, api: Api)
    requires n < |configs| && configs[n].id.Some? && Collect(s, configs, api).1.Ok?
    ensures LedgerOf(Collect(s, configs, api).0, configs[n].id.value) == None
    decreases |configs|
  {
    var front := configs[..|configs| - 1];
    if n < |front| {
      ByIdSeesNoLedger(s, front, n, api);
      var before := Collect(s, front, api).0;
      var last := [configs[|configs| - 1]];
      assert last[..0] == [];
      CollectOnlyDrops(before, last, api);
      assert Collect(before, last[..0], api) == (before, Ok([]));
    }
  }

  /** A configuration whose resolution reads the reservation: by its id, or by a selector that is not cached and whose
      listing has it. */
  predicate ReadsReservation(s: Store, cfg: Config, api: Api, id: string) {
    || cfg.id == Some(id)
    || (cfg.id.None? && cfg.filter.Some? && cfg.filter.value !in s.selected
        && api.list(cfg.filter.value).Ok? && id in api.list(cfg.filter.value).value)
  }

  ghost predicate SomeReads(s: Store, configs: seq<Config>, api: Api, id: string) {
    exists cfg :: cfg in configs && ReadsReservation(s, cfg, api, id)
  }

  lemma {:induction false} GetAllDropsListed(s: Store, ids: seq<string>, api: Api, id: string)
    requires GetAll(s, ids, api).1.Ok?
    ensures LedgerOf(GetAll(s, ids, api).0, id) == if id in ids then None else LedgerOf(s, id)
    ensures GetAll(s, ids, api).0.selected == s.selected
  {
    if ids != [] {
      GetAllDropsListed(s, ids[..|ids| - 1], api, id);
      assert ids == ids[..|ids| - 1] + [ids[|ids| - 1]];
    }
  }

  /** A selector is cached after a successful resolution if it was before, or if a configuration named it. */
  lemma {:induction false} SelectedGrows(s: Store, configs: seq<Config>, api: Api, filter: string)
    requires Collect(s, configs, api).1.Ok?
    ensures filter in Collect(s, configs, api).0.selected <==>
              filter in s.selected || exists cfg :: cfg in configs && cfg.id.None? && cfg.filter == Some(filter)
  {
    if configs != [] {
      var front, last := configs[..|configs| - 1], configs[|configs| - 1];
      SelectedGrows(s, front, api, filter);
      assert configs == front + [last];
      var before := Collect(s, front, api).0;
      if last.filter.Some? && last.filter.value !in before.selected {
        GetAllDropsListed(before, api.list(last.filter.value).value, api, "");
      }
      assert last in configs && forall cfg :: cfg in configs <==> cfg in front || cfg == last;
    }
  }

  /** Exactly which resolutions drop a ledger: those that read the reservation.  All others leave it as it was. */
  lemma {:induction false} LedgerDroppedIff(s: Store, configs: seq<Config>, api: Api, id: string)
    requires Collect(s, configs, api).1.Ok?
    ensures LedgerOf(Collect(s, configs, api).0, id) == if SomeReads(s, configs, api, id) then None else LedgerOf(s, id)
  {
    if configs != [] {
      var front, last := configs[..|configs| - 1], configs[|configs| - 1];
      LedgerDroppedIff(s, front, api, id);
      assert forall cfg :: cfg in configs <==> cfg in front || cfg == last by {
        assert configs == front + [last];
      }
      assert SomeReads(s, configs, api, id) <==> SomeReads(s, front, api, id) || ReadsReservation(s, last, api, id);
      LastReads(s, front, last, api, id);
    }
  }

  lemma LastReads(s: Store, front: seq<Config>, last: Config, api: Api, id: string)
    requires Collect(s, front, api).1.Ok? && ForConfig(Collect(s, front, api).0, last, api).1.Ok?
    requires var before := Collect(s, front, api).0;
             LedgerOf(before, id) == if SomeReads(s, front, api, id) then None else LedgerOf(s, id)
    ensures LedgerOf(ForConfig(Collect(s, front, api).0, last, api).0, id) ==
              if SomeReads(s, front, api, id) || ReadsReservation(s, last, api, id) then None else LedgerOf(s, id)
  {
    var before := Collect(s, front, api).0;
    if last.id.None? && last.filter.Some? {
      var filter := last.filter.value;
      SelectedGrows(s, front, api, filter);
      if filter !in before.selected {
        GetAllDropsListed(before, api.list(filter).value, api, id);
      } else if filter !in s.selected {
        var cfg :| cfg in front && cfg.id.None? && cfg.filter == Some(filter);
        assert ReadsReservation(s, cfg, api, id) ==> SomeReads(s, front, api, id);
      }
    }
  }

  /** A reservation that is configured by its id and cached is reported the same before and after any mark. */
  lemma ByIdReportsAgain(s: Store, id: string, api: Api, e: Event, now: int)
    requires id in s.reservations && s.reservations[id].ocid == id
    ensures var (after, all) := Collect(Marked(s, e, now), [Config(Some(id), None)], api);
            && all == Ok([s.reservations[id]])
            && Reported(s.reservations[id], LedgerOf(after, id)) == s.reservations[id].records
  {
    var configs := [Config(Some(id), None)];
    assert configs[..0] == [];
    assert Collect(Marked(s, e, now), configs[..0], api) == (Marked(s, e, now), Ok([]));
    var none: seq<Reservation> := [];
    assert none + [s.reservations[id]] == [s.reservations[id]];
  }

  /** So its last place is given out again: two launches are admitted to a reservation of one. */
  lemma ByIdOvercommits(api: Api)
    ensures var r := Reservation("r", "ad", [Record("ad", None, 1, 0, "s", None, None)], 0);
            var req, i := Request("s", None, None, false), Instance("s", None, None, "fd", Some("r"));
            var s, configs := Store(map["r" := r], map[], map[]), [Config(Some("r"), None)];
            var first := Collect(s, configs, api).0;
            var second := Collect(Marked(first, Used(i), 1), configs, api).0;
            && Admits(Reported(r, LedgerOf(first, "r")), req, None)
            && Admits(Reported(r, LedgerOf(second, "r")), req, None)
            && Increases([Used(i), Used(i)], BookedKey(req), None) > SumTotal(r.records, req, "")
  {
    var r := Reservation("r", "ad", [Record("ad", None, 1, 0, "s", None, None)], 0);
    var req, i := Request("s", None, None, false), Instance("s", None, None, "fd", Some("r"));
    var s, configs := Store(map["r" := r], map[], map[]), [Config(Some("r"), None)];
    assert configs[..0] == [] && Collect(s, configs[..0], api) == (s, Ok([]));
    var first := Collect(s, configs, api).0;
    assert first == Store(map["r" := r], map[], map[] - {"r"});
    ByIdReportsAgain(first, "r", api, Used(i), 1);
    assert r.records[..0] == [];
    assert SumTotal(r.records, req, "") == 1 && SumUsed(r.records, req, "") == 0;
    var events := [Used(i), Used(i)];
    assert events[..1] == [Used(i)] && events[..1][..0] == [];
    assert Increases(events[..1], BookedKey(req), None) == 1;
  }

  // ---- The provider runs as module `Reservations` says ----

  ghost function MarkAll(s: Store, steps: seq<Step>): Store {
    if steps == [] then s
    else
      var step := steps[|steps| - 1];
      Marked(MarkAll(s, steps[..|steps| - 1]), EventOf(step), step.now)
  }

  /** The steps whose instance is in the reservation. */
  function StepsOf(steps: seq<Step>, id: string): seq<Step> {
    if steps == [] then []
    else
      var step := steps[|steps| - 1];
      StepsOf(steps[..|steps| - 1], id) + (if step.instance.reservationId == Some(id) then [step] else [])
  }

  /** After any marks, the ledger of each reservation that had none is that of its own steps. */
  lemma {:induction false} MarksAreLedgers(s: Store, steps: seq<Step>, id: string)
    requires id !in s.ledgers
    ensures MarkAll(s, steps).reservations == s.reservations && MarkAll(s, steps).selected == s.selected
    ensures LedgerOf(MarkAll(s, steps), id) == LedgerAfter(StepsOf(steps, id))
  {
    if steps != [] {
      var front, step := steps[..|steps| - 1], steps[|steps| - 1];
      MarksAreLedgers(s, front, id);
      if step.instance.reservationId == Some(id) {
        var own := StepsOf(front, id);
        var events := Events(own + [step]);
        assert (own + [step])[..|own|] == own;
        assert events == Events(own) + [EventOf(step)] && events[..|own|] == Events(own);
        assert own == [] ==> Replay(Events(own)) == map[];
      } else {
        assert StepsOf(steps, id) == StepsOf(front, id);
      }
    }
  }

  /** Whatever a successful resolution reads besides: of a reservation that it does not read afresh, it reports after
      any launches and terminations what `Reservations.Run` admits by, so that `NeverOvercommitted` applies. */
  lemma ProviderReportsRun(s: Store, steps: seq<Step>, configs: seq<Config>, api: Api, k: nat, out: Reservation)
    requires Collect(MarkAll(s, steps), configs, api).1.Ok?
    requires k < |Collect(MarkAll(s, steps), configs, api).1.value|
    requires var r := Collect(MarkAll(s, steps), configs, api).1.value[k];
             && r.ocid !in s.ledgers && !SomeReads(s, configs, api, r.ocid)
             && Reports(Collect(MarkAll(s, steps), configs, api).0, r, out)
    ensures var r := Collect(MarkAll(s, steps), configs, api).1.value[k];
            out.records == Reported(r, LedgerAfter(StepsOf(steps, r.ocid)))
  {
    var r := Collect(MarkAll(s, steps), configs, api).1.value[k];
    MarksAreLedgers(s, steps, r.ocid);
    LedgerDroppedIff(MarkAll(s, steps), configs, api, r.ocid);
    forall cfg ensures ReadsReservation(MarkAll(s, steps), cfg, api, r.ocid) == ReadsReservation(s, cfg, api, r.ocid) {
    }
  }

  /** In particular if all configurations are selectors that are cached. */
  lemma SelectorsReportRun(s: Store, steps: seq<Step>, configs: seq<Config>, api: Api, k: nat, out: Reservation)
    requires AllCached(s, configs) && k < |Selected(s, configs)|
    requires Selected(s, configs)[k].ocid !in s.ledgers
    requires Reports(MarkAll(s, steps), Selected(s, configs)[k], out)
    ensures Collect(MarkAll(s, steps), configs, api) == (MarkAll(s, steps), Ok(Selected(s, configs)))
    ensures out.records == Reported(Selected(s, configs)[k], LedgerAfter(StepsOf(steps, out.ocid)))
  {
    MarksAreLedgers(s, steps, Selected(s, configs)[k].ocid);
    SelectorHitKeepsLedgers(MarkAll(s, steps), configs, api);
    SameSelected(s, MarkAll(s, steps), configs);
    ProviderReportsRun(s, steps, configs, api, k, out);
  }

  lemma {:induction false} SameSelected(a: Store, b: Store, configs: seq<Config>)
    requires AllCached(a, configs) && AllCached(b, configs) && a.selected == b.selected
    ensures Selected(a, configs) == Selected(b, configs)
  {
    if configs != [] {
      SameSelected(a, b, configs[..|configs| - 1]);
    }
  }
}
