/** The image provider: image selection through three caches, with or without the API behind them. */
module ImageProvider {
  import opened Common
  import opened Cache
  import opened Sorting
  import opened ImageSelection
  import opened ImageCaching

  lemma {:induction false} WarmChainGrows(a: map<string, Image>, b: map<string, Image>, image: string -> Result<Image>,
                                          rank: string -> nat, i: Image)
    requires Acyclic(image, rank) && a.Keys <= b.Keys && WarmChain(a, image, rank, i)
    ensures WarmChain(b, image, rank, i)
    decreases Depth(rank, i)
  {
    if i.k8sTag.None? && i.baseImageId.Some? && image(i.baseImageId.value).Ok? {
      WarmChainGrows(a, b, image, rank, image(i.baseImageId.value).value);
    }
  }

  /** The walk over images in order of preference, one step at a time. */
  lemma {:induction false} WarmShapesPrefix(entries: map<string, set<string>>, view: View, images: seq<Image>,
                                            shape: string, from: nat, n: nat)
    requires from <= n <= |images|
    requires forall k :: from <= k < n ==>
               images[k].id in entries && view.shapes(images[k].id).Ok? && shape !in view.shapes(images[k].id).value
    ensures WarmShapes(entries, view, images[from..], shape) <==> WarmShapes(entries, view, images[n..], shape)
    ensures FirstForShape(view, images[from..], shape) == FirstForShape(view, images[n..], shape)
    decreases n - from
  {
    if from < n {
      assert images[from..][1..] == images[from + 1..];
      WarmShapesPrefix(entries, view, images, shape, from + 1, n);
    }
  }

  class ImageProvider {
    const images: GetOrLoadCache<Image>
    const lists: GetOrLoadCache<seq<Image>>
    const shapes: GetOrLoadCache<set<string>>
    const env: Env
    /** How often a loader was called; no step reads it. */
    ghost var loads: nat

    ghost predicate Valid() {
      && images as object != lists && images as object != shapes && lists as object != shapes
      && (this as object) !in {images as object, lists, shapes}
    }

    ghost function Objects(): set<object> { {images as object, lists, shapes} }

    ghost function View(): Contents
      reads Objects()
    {
      Contents(images.entries, lists.entries, shapes.entries)
    }

    /** How things read with the API behind the caches. */
    ghost function FullView(api: View): View
      reads Objects()
    {
      ReadView(View(), false, api)
    }

    constructor (env: Env)
      ensures Valid() && fresh(Objects()) && this.env == env
      ensures View() == Contents(map[], map[], map[]) && loads == 0
    {
      images := new GetOrLoadCache();
      lists := new GetOrLoadCache();
      shapes := new GetOrLoadCache();
      this.env := env;
      loads := 0;
    }

    /** With the API behind the caches or without it, things read as in `view`. */
    ghost predicate ReadsAs(view: View, cachedOnly: bool, api: View)
      reads Objects()
    {
      && (forall k :: ReadView(View(), cachedOnly, api).image(k) == view.image(k))
      && (forall k :: ReadView(View(), cachedOnly, api).list(k) == view.list(k))
      && (forall k :: ReadView(View(), cachedOnly, api).shapes(k) == view.shapes(k))
    }

    lemma ReadsAsAgrees(view: View, api: View)
      requires ReadsAs(view, false, api)
      ensures Agrees(View(), view)
    {
      var c := View();
      forall k | k in c.images ensures view.image(k) == Ok(c.images[k]) {
        assert ReadView(c, false, api).image(k) == view.image(k);
      }
      forall k | k in c.lists ensures view.list(k) == Ok(c.lists[k]) {
        assert ReadView(c, false, api).list(k) == view.list(k);
      }
      forall k | k in c.shapes ensures view.shapes(k) == Ok(c.shapes[k]) {
        assert ReadView(c, false, api).shapes(k) == view.shapes(k);
      }
    }

    /** One read through one of the caches. */
    method Read<T>(cache: GetOrLoadCache<T>, key: string, cachedOnly: bool, loader: string -> Result<T>)
        returns (r: Result<T>)
      requires (cache as object) != this
      modifies cache, this`loads
      ensures r == Reads(old(cache.entries), cachedOnly, loader)(key)
      ensures cache.entries == if r.Ok? && key !in old(cache.entries) then old(cache.entries)[key := r.value]
                               else old(cache.entries)
      ensures loads == old(loads) + if cachedOnly || key in old(cache.entries) then 0 else 1
    {
      if cachedOnly {
        var cached := cache.GetCached(key);
        return if cached.Some? then Ok(cached.value) else Err(NotCached);
      }
      var called;
      r, called := cache.GetOrLoad(key, loader);
      if called {
        loads := loads + 1;
      }
    }

    /** Walks the base images until one carries a version tag.  Afterwards the chain is cached as far as it reads, and
        a chain that was cached and not broken costs no load. */
    method ExtractKubeletVersion(i: Image, cachedOnly: bool, api: View, ghost view: View, ghost rank: string -> nat)
        returns (r: Result<Version>)
      requires Valid() && Acyclic(view.image, rank) && ReadsAs(view, cachedOnly, api)
      modifies images, this`loads
      ensures r == KubeletVersion(env, view.image, rank, i)
      ensures ReadsAs(view, cachedOnly, api)
      ensures old(images.entries).Keys <= images.entries.Keys
      ensures cachedOnly ==> images.entries == old(images.entries) && loads == old(loads)
      ensures !cachedOnly ==> WarmChain(images.entries, view.image, rank, i)
      ensures WarmChain(old(images.entries), view.image, rank, i) && !ChainBroken(view.image, rank, i)
          ==> images.entries == old(images.entries) && loads == old(loads)
      decreases Depth(rank, i)
    {
      if i.k8sTag.Some? {
        var v := env.parse(i.k8sTag.value);
        return if v.Some? then Ok(v.value) else Err(Failure("invalid version"));
      }
      if i.baseImageId.None? {
        return Err(Failure("missing k8s_version tag"));
      }
      assert ReadView(View(), cachedOnly, api).image(i.baseImageId.value) == view.image(i.baseImageId.value);
      var base := Read(images, i.baseImageId.value, cachedOnly, api.image);
      if base.Err? {
        return Err(base.error);
      }
      r := ExtractKubeletVersion(base.value, cachedOnly, api, view, rank);
    }

    /** The candidates among images that are already sorted by time, with their scores. */
    method Judge(sorted: seq<Image>, cachedOnly: bool, api: View, ghost view: View, ghost rank: string -> nat)
        returns (r: Result<seq<Image>>, scores: map<string, int>)
      requires Valid() && Acyclic(view.image, rank) && ReadsAs(view, cachedOnly, api) && env.k8sVersion.Some?
      modifies images, this`loads
      ensures r == if Abandons(env, view.image, rank, sorted) then Err(NotCached)
                   else Ok(Candidates(env, view.image, rank, sorted))
      ensures r.Ok? ==> scores == Scores(env, view.image, rank, sorted)
      ensures ReadsAs(view, cachedOnly, api)
      ensures old(images.entries).Keys <= images.entries.Keys
      ensures cachedOnly ==> images.entries == old(images.entries) && loads == old(loads)
      ensures !cachedOnly && r.Ok? ==> WarmChains(images.entries, view.image, rank, sorted)
      ensures WarmChains(old(images.entries), view.image, rank, sorted) && NoneBroken(view.image, rank, sorted)
          ==> images.entries == old(images.entries) && loads == old(loads)
    {
      var out: seq<Image> := [];
      scores := map[];
      for n := 0 to |sorted|
        invariant ReadsAs(view, cachedOnly, api)
        invariant out == Candidates(env, view.image, rank, sorted[..n])
        invariant scores == Scores(env, view.image, rank, sorted[..n])
        invariant !Abandons(env, view.image, rank, sorted[..n])
        invariant old(images.entries).Keys <= images.entries.Keys
        invariant cachedOnly ==> images.entries == old(images.entries) && loads == old(loads)
        invariant !cachedOnly ==> WarmChains(images.entries, view.image, rank, sorted[..n])
        invariant WarmChains(old(images.entries), view.image, rank, sorted) && NoneBroken(view.image, rank, sorted)
            ==> images.entries == old(images.entries) && loads == old(loads)
      {
        var i := sorted[n];
        ghost var before := images.entries;
        assert i in sorted && sorted[..n + 1][..n] == sorted[..n] && sorted[..n + 1] == sorted[..n] + [i];
        var version := ExtractKubeletVersion(i, cachedOnly, api, view, rank);
        if version == Err(NotCached) {
          return Err(NotCached), scores;
        }
        WarmChainsGrow(before, images.entries, view.image, rank, sorted[..n], cachedOnly);
        if version.Ok? {
          var score := KubeletVersionCompatibleScore(env.k8sVersion.value, version.value);
          if score >= 0 {
            scores := scores[i.id := score];
            out := out + [i];
          }
        }
      }
      assert sorted[..|sorted|] == sorted;
      r := Ok(out);
    }

    method FilterAndSortImages(found: seq<Image>, cfg: ImageConfig, cachedOnly: bool, api: View, ghost view: View,
                               ghost rank: string -> nat) returns (r: Result<seq<Image>>)
      requires Valid() && Acyclic(view.image, rank) && ReadsAs(view, cachedOnly, api)
      modifies images, this`loads
      ensures r == FilterAndSort(env, view, rank, found, cfg)
      ensures ReadsAs(view, cachedOnly, api)
      ensures old(images.entries).Keys <= images.entries.Keys
      ensures cachedOnly ==> images.entries == old(images.entries) && loads == old(loads)
      ensures !cachedOnly && r.Ok? ==> WarmFilter(env, View(), view, rank, found, cfg)
      ensures WarmFilter(env, old(View()), view, rank, found, cfg) && BasesRead(env, view, rank, found, cfg)
          ==> images.entries == old(images.entries) && loads == old(loads)
    {
      if found == [] {
        return Err(Failure("no image available"));
      }
      var sorted := StableSort(found, NewestFirst());
      if sorted == [] || !IsPreBaked(env, cfg, sorted[0]) {
        return Ok(sorted);
      }
      if env.k8sVersion.None? {
        return Err(Failure("cannot detect cluster version"));
      }
      var out, scores := Judge(sorted, cachedOnly, api, view, rank);
      if out.Err? {
        return out;
      }
      r := Ok(StableSort(out.value, LeastSkewFirst(scores)));
    }

    method ResolveImages(cfg: ImageConfig, cachedOnly: bool, api: View, ghost view: View, ghost rank: string -> nat)
        returns (r: Result<seq<Image>>)
      requires Valid() && Acyclic(view.image, rank) && ReadsAs(view, cachedOnly, api)
      modifies images, lists, this`loads
      ensures r == ImageSelection.ResolveImages(env, view, rank, cfg)
      ensures ReadsAs(view, cachedOnly, api)
      ensures cachedOnly ==> View() == old(View()) && loads == old(loads)
      ensures !cachedOnly && r.Ok? ==> WarmList(View(), view, rank, cfg)
      ensures WarmList(old(View()), view, rank, cfg) && AllBasesRead(env, view, rank, cfg) && Listed(view, cfg).Ok?
          ==> View() == old(View()) && loads == old(loads)
    {
      if cfg.imageId.Some? && cfg.filter.Some? {
        return Err(Failure("cannot define image ocid and image filter together"));
      }
      var found: seq<Image> := [];
      ghost var c := View();
      if cfg.imageId.Some? {
        assert ReadView(c, cachedOnly, api).image(cfg.imageId.value) == view.image(cfg.imageId.value);
        var image := Read(images, cfg.imageId.value, cachedOnly, api.image);
        if image.Err? {
          return Err(image.error);
        }
        found := [image.value];
      } else if cfg.filter.Some? {
        assert ReadView(c, cachedOnly, api).list(cfg.filter.value) == view.list(cfg.filter.value);
        var list := Read(lists, cfg.filter.value, cachedOnly, api.list);
        if list.Err? {
          return list;
        }
        found := list.value;
      }
      ReadKeeps(c, View(), view, cachedOnly, api);
      ghost var d := View();
      var sorted := FilterAndSortImages(found, cfg, cachedOnly, api, view, rank);
      if sorted.Err? {
        return sorted;
      }
      r := if sorted.value == [] then Err(Failure("no image match")) else sorted;
    }

    /** Walks the images in order of preference until one supports the shape. */
    method PickForShape(found: seq<Image>, shape: string, cachedOnly: bool, api: View, ghost view: View)
        returns (r: Result<Image>)
      requires Valid() && ReadsAs(view, cachedOnly, api)
      modifies shapes, this`loads
      ensures r == FirstForShape(view, found, shape)
      ensures ReadsAs(view, cachedOnly, api)
      ensures cachedOnly ==> View() == old(View()) && loads == old(loads)
      ensures old(shapes.entries).Keys <= shapes.entries.Keys
      ensures !cachedOnly && r.Ok? ==> WarmShapes(shapes.entries, view, found, shape)
      ensures WarmShapes(old(shapes.entries), view, found, shape) && r.Ok? ==>
                View() == old(View()) && loads == old(loads)
    {
      ghost var c := View();
      assert found[0..] == found;
      for n := 0 to |found|
        invariant ReadsAs(view, cachedOnly, api)
        invariant forall k :: 0 <= k < n ==> view.shapes(found[k].id).Ok? && shape !in view.shapes(found[k].id).value
        invariant !cachedOnly ==> forall k :: 0 <= k < n ==> found[k].id in shapes.entries
        invariant c.shapes.Keys <= shapes.entries.Keys
        invariant cachedOnly ==> View() == c && loads == old(loads)
        invariant FirstForShape(view, found[n..], shape).Ok? && WarmShapes(c.shapes, view, found, shape) ==>
                    View() == c && loads == old(loads) && WarmShapes(c.shapes, view, found[n..], shape)
        invariant FirstForShape(view, found, shape) == FirstForShape(view, found[n..], shape)
      {
        var i := found[n];
        ghost var d := View();
        assert found[n..][1..] == found[n + 1..] && found[n..][0] == i;
        assert ReadView(d, cachedOnly, api).shapes(i.id) == view.shapes(i.id);
        var supported := Read(shapes, i.id, cachedOnly, api.shapes);
        if supported.Err? {
          return Err(supported.error);
        }
        ReadKeeps(d, View(), view, cachedOnly, api);
        if shape in supported.value {
          if !cachedOnly {
            WarmShapesPrefix(shapes.entries, view, found, shape, 0, n);
          }
          return Ok(i);
        }
      }
      r := Err(Failure("no image suitable for shape"));
    }

    method Resolve(cfg: ImageConfig, shape: string, cachedOnly: bool, api: View, ghost view: View,
                   ghost rank: string -> nat) returns (r: Result<Image>)
      requires Valid() && Acyclic(view.image, rank) && ReadsAs(view, cachedOnly, api)
      modifies Objects(), this`loads
      ensures r == ImageSelection.ResolveImageForShape(env, view, rank, cfg, shape)
      ensures ReadsAs(view, cachedOnly, api)
      ensures cachedOnly ==> View() == old(View()) && loads == old(loads)
      ensures !cachedOnly && r.Ok? ==> WarmResolve(env, View(), view, rank, cfg, shape)
      ensures r.Ok? && WarmResolve(env, old(View()), view, rank, cfg, shape) && AllBasesRead(env, view, rank, cfg)
          ==> View() == old(View()) && loads == old(loads)
    {
      var found := ResolveImages(cfg, cachedOnly, api, view, rank);
      if found.Err? {
        return Err(found.error);
      }
      ghost var c := View();
      r := PickForShape(found.value, shape, cachedOnly, api, view);
      assert WarmList(c, view, rank, cfg) ==> WarmList(View(), view, rank, cfg);
    }

    /** Resolution with the API behind the caches.  If the caches alone would answer, this gives their answer without a
        load; and after a success the caches alone give the same answer, unless a base image could not be read, in
        which case they give none. */
    method ResolveImageForShape(cfg: ImageConfig, shape: string, api: View, ghost rank: string -> nat)
        returns (r: Result<Image>)
      requires Valid() && Foreign(api) && Acyclic(FullView(api).image, rank)
      modifies Objects(), this`loads
      ensures Agrees(View(), old(FullView(api)))
      ensures r == ImageSelection.ResolveImageForShape(env, old(FullView(api)), rank, cfg, shape)
      ensures var before := CachedAnswer(env, old(View()), old(FullView(api)), rank, cfg, shape);
              before.Ok? ==> r == before && View() == old(View()) && loads == old(loads)
      ensures var after := CachedAnswer(env, View(), old(FullView(api)), rank, cfg, shape);
              r.Ok? ==> after == if AllBasesRead(env, old(FullView(api)), rank, cfg) then r else Err(NotCached)
    {
      ghost var c, view := View(), FullView(api);
      r := Resolve(cfg, shape, false, api, view, rank);
      ghost var d := View();
      assert Agrees(d, view) by {
        ReadsAsAgrees(view, api);
      }
      CachedMeetsFull(env, c, d, view, rank, cfg, shape);
    }

    /** Resolution from the caches alone: no load and no change, and an answer only if it is the answer of
        `ResolveImageForShape`. */
    method ResolveImageForShapeCached(cfg: ImageConfig, shape: string, ghost api: View, ghost rank: string -> nat)
        returns (r: Option<Image>)
      requires Valid() && Foreign(api) && Acyclic(FullView(api).image, rank)
      modifies Objects(), this`loads
      ensures View() == old(View()) && loads == old(loads)
      ensures var full := ImageSelection.ResolveImageForShape(env, old(FullView(api)), rank, cfg, shape);
              r.Some? ==> full == Ok(r.value)
      ensures var cached := CachedAnswer(env, View(), old(FullView(api)), rank, cfg, shape);
              r == if cached.Ok? then Some(cached.value) else None
    {
      ghost var c, full := View(), FullView(api);
      CachedAcyclic(c, full, rank);
      var resolved := Resolve(cfg, shape, true, NoApi(), CachedView(c), rank);
      if resolved.Err? {
        return None;
      }
      CachedAnswerIsFull(env, c, full, rank, cfg, shape);
      r := Some(resolved.value);
    }

    /** The listing's part of `WarmResolve`. */
    ghost predicate WarmList(c: Contents, view: View, rank: string -> nat, cfg: ImageConfig)
      requires Acyclic(view.image, rank)
    {
      Listed(view, cfg).Ok? ==>
        && (cfg.imageId.Some? ==> cfg.imageId.value in c.images)
        && (cfg.imageId.None? && cfg.filter.Some? ==> cfg.filter.value in c.lists)
        && WarmFilter(env, c, view, rank, Listed(view, cfg).value, cfg)
    }
  }

  /** Nothing behind the caches. */
  function NoApi(): View {
    View((_: string) => Err(NotCached), (_: string) => Err(NotCached), (_: string) => Err(NotCached))
  }

  lemma WarmChainsGrow(a: map<string, Image>, b: map<string, Image>, image: string -> Result<Image>,
                       rank: string -> nat, sorted: seq<Image>, cachedOnly: bool)
    requires Acyclic(image, rank) && a.Keys <= b.Keys && (!cachedOnly ==> WarmChains(a, image, rank, sorted))
    ensures !cachedOnly ==> WarmChains(b, image, rank, sorted)
  {
    if !cachedOnly {
      forall i | i in sorted ensures WarmChain(b, image, rank, i) {
        WarmChainGrows(a, b, image, rank, i);
      }
    }
  }

  /** Reading through a cache and keeping what was read does not change how things read. */
  lemma ReadKeeps(c: Contents, d: Contents, view: View, cachedOnly: bool, api: View)
    requires forall k :: ReadView(c, cachedOnly, api).image(k) == view.image(k)
    requires forall k :: ReadView(c, cachedOnly, api).list(k) == view.list(k)
    requires forall k :: ReadView(c, cachedOnly, api).shapes(k) == view.shapes(k)
    requires forall k :: k in d.images ==> view.image(k) == Ok(d.images[k])
    requires forall k :: k in d.lists ==> view.list(k) == Ok(d.lists[k])
    requires forall k :: k in d.shapes ==> view.shapes(k) == Ok(d.shapes[k])
    requires c.images.Keys <= d.images.Keys && c.lists.Keys <= d.lists.Keys && c.shapes.Keys <= d.shapes.Keys
    ensures forall k :: ReadView(d, cachedOnly, api).image(k) == view.image(k)
    ensures forall k :: ReadView(d, cachedOnly, api).list(k) == view.list(k)
    ensures forall k :: ReadView(d, cachedOnly, api).shapes(k) == view.shapes(k)
  {
    forall k ensures ReadView(d, cachedOnly, api).image(k) == view.image(k) {
      assert ReadView(c, cachedOnly, api).image(k) == view.image(k);
    }
    forall k ensures ReadView(d, cachedOnly, api).list(k) == view.list(k) {
      assert ReadView(c, cachedOnly, api).list(k) == view.list(k);
    }
    forall k ensures ReadView(d, cachedOnly, api).shapes(k) == view.shapes(k) {
      assert ReadView(c, cachedOnly, api).shapes(k) == view.shapes(k);
    }
  }
}
