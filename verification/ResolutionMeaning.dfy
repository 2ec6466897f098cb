/** What a resolution of capacity reservations answers, said of the caches before it and of the API. */
module ResolutionMeaning {
  import opened Common
  import opened Reservations
  import opened ReservationProvider

  /** How a reservation reads: as cached, or as the API has it. */
  ghost function Reading(s: Store, api: Api, id: string): Result<Reservation> {
    if id in s.reservations then Ok(s.reservations[id]) else api.get(id)
  }

  /** `rs` are the reservations as they read, id by id. */
  ghost predicate ReadInOrder(s: Store, api: Api, ids: seq<string>, rs: seq<Reservation>) {
    |rs| == |ids| && forall k :: 0 <= k < |ids| ==> Reading(s, api, ids[k]) == Ok(rs[k])
  }

  /** What a configuration answers: for an id that reservation; for a selector what is cached for it, or else all that
      the API lists for it, in order. */
  ghost predicate Answers(s: Store, api: Api, cfg: Config, rs: seq<Reservation>) {
    match cfg
    case Config(Some(id), None) => |rs| == 1 && Reading(s, api, id) == Ok(rs[0])
    case Config(None, Some(filter)) =>
      if filter in s.selected then rs == s.selected[filter]
      else api.list(filter).Ok? && ReadInOrder(s, api, api.list(filter).value, rs)
    case _ => false
  }

  /** Everything that read before reads the same. */
  ghost predicate SameReads(s: Store, t: Store, api: Api) {
    && (forall id :: Reading(t, api, id) == Reading(s, api, id))
    && (forall cfg, rs :: Answers(t, api, cfg, rs) <==> Answers(s, api, cfg, rs))
  }

  lemma SameReadings(s: Store, t: Store, api: Api)
    requires forall id :: Reading(t, api, id) == Reading(s, api, id)
    requires t.selected == s.selected
    ensures SameReads(s, t, api)
  {
    forall cfg, rs ensures Answers(t, api, cfg, rs) <==> Answers(s, api, cfg, rs) {
      assert forall ids :: ReadInOrder(t, api, ids, rs) <==> ReadInOrder(s, api, ids, rs);
    }
  }

  /** Reading a list of reservations succeeds exactly if each reads, and gives them in order. */
  lemma {:induction false} GetAllMeans(s: Store, ids: seq<string>, api: Api)
    ensures var (after, r) := GetAll(s, ids, api);
            && (r.Ok? <==> forall id :: id in ids ==> Reading(s, api, id).Ok?)
            && (r.Ok? ==> ReadInOrder(s, api, ids, r.value))
            && after.selected == s.selected && SameReads(s, after, api)
  {
    if ids == [] {
      SameReadings(s, s, api);
    } else {
      var front, last := ids[..|ids| - 1], ids[|ids| - 1];
      assert ids == front + [last];
      GetAllMeans(s, front, api);
      var before := GetAll(s, front, api).0;
      GetMeans(before, last, api);
      SameReadsOn(s, before, Get(before, last, api).0, api);
    }
  }

  lemma GetMeans(s: Store, id: string, api: Api)
    ensures var (after, r) := Get(s, id, api);
            r == Reading(s, api, id) && after.selected == s.selected && SameReads(s, after, api)
  {
    SameReadings(s, Get(s, id, api).0, api);
  }

  lemma SameReadsOn(s: Store, t: Store, u: Store, api: Api)
    requires SameReads(s, t, api) && SameReads(t, u, api)
    ensures SameReads(s, u, api)
  {
    forall cfg, rs ensures Answers(u, api, cfg, rs) <==> Answers(s, api, cfg, rs) {
      assert Answers(t, api, cfg, rs) <==> Answers(s, api, cfg, rs);
    }
  }

  /** If it fails, the first that does not read gives the error. */
  lemma {:induction false} FirstUnread(s: Store, ids: seq<string>, api: Api) returns (k: nat)
    requires GetAll(s, ids, api).1.Err?
    ensures k < |ids| && Reading(s, api, ids[k]) == Err(GetAll(s, ids, api).1.error)
    ensures forall j :: 0 <= j < k ==> Reading(s, api, ids[j]).Ok?
  {
    var front, last := ids[..|ids| - 1], ids[|ids| - 1];
    GetAllMeans(s, front, api);
    if GetAll(s, front, api).1.Err? {
      k := FirstUnread(s, front, api);
    } else {
      k := |front|;
      GetMeans(GetAll(s, front, api).0, last, api);
      forall j | 0 <= j < k ensures Reading(s, api, ids[j]).Ok? {
        assert ids[j] == front[j] && front[j] in front;
      }
    }
  }

  /** A selector answers what is cached for it, or else all that is listed for it, which is then cached. */
  lemma SelectMeans(s: Store, filter: string, api: Api)
    ensures var (after, r) := Select(s, filter, api);
            && (r.Ok? <==> exists rs :: Answers(s, api, Config(None, Some(filter)), rs))
            && (r.Ok? ==>
                  && Answers(s, api, Config(None, Some(filter)), r.value)
                  && after.selected == s.selected[filter := r.value])
            && (r.Err? ==> after.selected == s.selected)
            && SameReads(s, after, api)
  {
    if filter in s.selected {
      SameReadings(s, s, api);
      assert Answers(s, api, Config(None, Some(filter)), s.selected[filter]);
    } else if api.list(filter).Err? {
      SameReadings(s, s, api);
    } else {
      var ids := api.list(filter).value;
      GetAllMeans(s, ids, api);
      var (after, all) := GetAll(s, ids, api);
      if all.Ok? {
        assert Answers(s, api, Config(None, Some(filter)), all.value);
        SelectorCached(s, after, filter, all.value, api);
      } else {
        NotAllRead(s, api, ids);
      }
    }
  }

  lemma NotAllRead(s: Store, api: Api, ids: seq<string>)
    requires !forall id :: id in ids ==> Reading(s, api, id).Ok?
    ensures forall rs :: !ReadInOrder(s, api, ids, rs)
  {
    var id :| id in ids && Reading(s, api, id).Err?;
    var k :| 0 <= k < |ids| && ids[k] == id;
  }

  /** Caching what a selector answers changes no answer. */
  lemma SelectorCached(s: Store, t: Store, filter: string, rs: seq<Reservation>, api: Api)
    requires SameReads(s, t, api) && Answers(s, api, Config(None, Some(filter)), rs)
    requires t.selected == s.selected && filter !in s.selected
    ensures SameReads(s, t.(selected := t.selected[filter := rs]), api)
  {
    var u := t.(selected := t.selected[filter := rs]);
    forall cfg, other ensures Answers(u, api, cfg, other) <==> Answers(s, api, cfg, other) {
      assert Answers(t, api, cfg, other) <==> Answers(s, api, cfg, other);
      assert forall ids :: ReadInOrder(u, api, ids, other) <==> ReadInOrder(s, api, ids, other);
    }
  }

  /** One configuration answers what it stands for, and fails exactly if that does not read or it is malformed. */
  lemma ForConfigMeans(s: Store, cfg: Config, api: Api)
    ensures var (after, r) := ForConfig(s, cfg, api);
            && (r.Ok? <==> Answerable(s, api, cfg))
            && (r.Ok? ==> Answers(s, api, cfg, r.value))
            && SameReads(s, after, api)
  {
    match cfg {
      case Config(Some(id), None) =>
        GetMeans(s, id, api);
        assert Reading(s, api, id).Ok? ==> Answers(s, api, cfg, [Reading(s, api, id).value]);
      case Config(None, Some(filter)) =>
        SelectMeans(s, filter, api);
      case _ =>
        SameReadings(s, s, api);
    }
  }

  function Flat(parts: seq<seq<Reservation>>): seq<Reservation> {
    if parts == [] then [] else Flat(parts[..|parts| - 1]) + parts[|parts| - 1]
  }

  ghost predicate Answerable(s: Store, api: Api, cfg: Config) {
    exists rs :: Answers(s, api, cfg, rs)
  }

  ghost predicate AllAnswer(s: Store, configs: seq<Config>, api: Api) {
    forall n :: 0 <= n < |configs| ==> Answerable(s, api, configs[n])
  }

  /** A resolution succeeds exactly if every configuration answers, and gives their answers one after the other. */
  lemma {:induction false} CollectMeans(s: Store, configs: seq<Config>, api: Api)
      returns (parts: seq<seq<Reservation>>)
    ensures var (after, r) := Collect(s, configs, api);
            && (r.Ok? <==> AllAnswer(s, configs, api))
            && (r.Ok? ==>
                  && r.value == Flat(parts) && |parts| == |configs|
                  && forall n :: 0 <= n < |configs| ==> Answers(s, api, configs[n], parts[n]))
            && SameReads(s, after, api)
  {
    parts := [];
    if configs == [] {
      SameReadings(s, s, api);
    } else {
      var front, last := configs[..|configs| - 1], configs[|configs| - 1];
      var before := CollectMeans(s, front, api);
      var (between, all) := Collect(s, front, api);
      AllAnswerSplit(s, configs, api);
      if all.Ok? {
        ForConfigMeans(between, last, api);
        var (after, rs) := ForConfig(between, last, api);
        SameReadsOn(s, between, after, api);
        LastAnswers(s, between, last, api);
        if rs.Ok? {
          parts := before + [rs.value];
          assert parts[..|before|] == before;
        }
      }
    }
  }

  lemma AllAnswerSplit(s: Store, configs: seq<Config>, api: Api)
    requires configs != []
    ensures var n := |configs| - 1;
            AllAnswer(s, configs, api) <==> AllAnswer(s, configs[..n], api) && Answerable(s, api, configs[n])
  {
    var front := configs[..|configs| - 1];
    assert forall n :: 0 <= n < |front| ==> front[n] == configs[n];
    if AllAnswer(s, front, api) && Answerable(s, api, configs[|front|]) {
      forall n | 0 <= n < |configs| ensures Answerable(s, api, configs[n]) {
        if n < |front| {
          assert Answerable(s, api, front[n]);
        }
      }
    }
  }

  lemma LastAnswers(s: Store, t: Store, cfg: Config, api: Api)
    requires SameReads(s, t, api)
    ensures Answerable(s, api, cfg) <==> Answerable(t, api, cfg)
  {
    forall rs ensures Answers(t, api, cfg, rs) <==> Answers(s, api, cfg, rs) {
    }
  }

  /** A configuration has one answer. */
  lemma AnswersOnce(s: Store, api: Api, cfg: Config, a: seq<Reservation>, b: seq<Reservation>)
    requires Answers(s, api, cfg, a) && Answers(s, api, cfg, b)
    ensures a == b
  {
    if cfg.id.Some? {
      assert a == [a[0]] && b == [b[0]];
    } else if cfg.filter.value !in s.selected {
      var ids := api.list(cfg.filter.value).value;
      forall k | 0 <= k < |a| ensures a[k] == b[k] {
        assert Reading(s, api, ids[k]) == Ok(a[k]) && Reading(s, api, ids[k]) == Ok(b[k]);
      }
      assert a == b;
    }
  }

  /** What is reported of each reservation: under the ledger it had, unless the resolution reads it. */
  lemma ResolutionReports(s: Store, configs: seq<Config>, api: Api, r: Reservation, out: Reservation)
    requires Collect(s, configs, api).1.Ok? && Reports(Collect(s, configs, api).0, r, out)
    ensures out.records == Reported(r, if SomeReads(s, configs, api, r.ocid) then None else LedgerOf(s, r.ocid))
  {
    LedgerDroppedIff(s, configs, api, r.ocid);
  }
}
