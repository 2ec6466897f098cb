/** How the selection through caches relates to the selection with the API: what has to be cached for the one to answer
    as the other. */
module ImageCaching {
  import opened Common
  import opened Sorting
  import opened ImageSelection

  datatype Contents = Contents(images: map<string, Image>, lists: map<string, seq<Image>>, shapes: map<string,
                               set<string>>)

  /** A cache on its own. */
  ghost function FromCache<T>(entries: map<string, T>): string -> Result<T> {
    key => if key in entries then Ok(entries[key]) else Err(NotCached)
  }

  ghost function CachedView(c: Contents): View {
    View(FromCache(c.images), FromCache(c.lists), FromCache(c.shapes))
  }

  /** A cache in front of a loader, or on its own. */
  ghost function Reads<T>(entries: map<string, T>, cachedOnly: bool, loader: string -> Result<T>): string -> Result<T> {
    if cachedOnly then FromCache(entries) else key => if key in entries then Ok(entries[key]) else loader(key)
  }

  /** How things read through caches in front of the API `api`. */
  ghost function ReadView(c: Contents, cachedOnly: bool, api: View): View {
    View(Reads(c.images, cachedOnly, api.image), Reads(c.lists, cachedOnly, api.list),
         Reads(c.shapes, cachedOnly, api.shapes))
  }

  /** What is cached is what `full` reads. */
  ghost predicate Agrees(c: Contents, full: View) {
    && (forall k :: k in c.images ==> full.image(k) == Ok(c.images[k]))
    && (forall k :: k in c.lists ==> full.list(k) == Ok(c.lists[k]))
    && (forall k :: k in c.shapes ==> full.shapes(k) == Ok(c.shapes[k]))
  }

  /** "Not cached" is an error of this provider, which the API does not return. */
  ghost predicate Foreign(full: View) {
    forall id :: full.image(id) != Err(NotCached)
  }

  /** Every base image that the search for a version reads successfully is cached. */
  ghost predicate WarmChain(entries: map<string, Image>, image: string -> Result<Image>, rank: string -> nat, i: Image)
    requires Acyclic(image, rank)
    decreases Depth(rank, i)
  {
    i.k8sTag.None? && i.baseImageId.Some? && image(i.baseImageId.value).Ok? ==>
      i.baseImageId.value in entries && WarmChain(entries, image, rank, image(i.baseImageId.value).value)
  }

  /** The search for a version ends at a base image that cannot be read. */
  ghost predicate ChainBroken(image: string -> Result<Image>, rank: string -> nat, i: Image)
    requires Acyclic(image, rank)
    decreases Depth(rank, i)
  {
    && i.k8sTag.None? && i.baseImageId.Some?
    && (image(i.baseImageId.value).Err? || ChainBroken(image, rank, image(i.baseImageId.value).value))
  }

  ghost predicate WarmChains(entries: map<string, Image>, image: string -> Result<Image>, rank: string -> nat,
                             images: seq<Image>)
    requires Acyclic(image, rank)
  {
    forall i :: i in images ==> WarmChain(entries, image, rank, i)
  }

  ghost predicate NoneBroken(image: string -> Result<Image>, rank: string -> nat, images: seq<Image>)
    requires Acyclic(image, rank)
  {
    forall i :: i in images ==> !ChainBroken(image, rank, i)
  }

  /** The shape sets read until one contains the shape are cached. */
  ghost predicate WarmShapes(entries: map<string, set<string>>, view: View, images: seq<Image>, shape: string) {
    images != [] && view.shapes(images[0].id).Ok? ==>
      && images[0].id in entries
      && (shape !in view.shapes(images[0].id).value ==> WarmShapes(entries, view, images[1..], shape))
  }

  lemma CachedAcyclic(c: Contents, full: View, rank: string -> nat)
    requires Agrees(c, full) && Acyclic(full.image, rank)
    ensures Acyclic(CachedView(c).image, rank)
  {
    forall id | CachedView(c).image(id).Ok? ensures full.image(id) == CachedView(c).image(id) {
    }
  }

  /** From caches alone, a version is found exactly if the chain is cached and not broken, and then it is the same. */
  lemma {:induction false} CachedVersion(env: Env, c: Contents, full: View, rank: string -> nat, i: Image)
    requires Agrees(c, full) && Foreign(full) && Acyclic(full.image, rank) && Acyclic(CachedView(c).image, rank)
    ensures var cached := CachedView(c).image;
            && KubeletVersion(env, full.image, rank, i) != Err(NotCached)
            && KubeletVersion(env, cached, rank, i) ==
                 (if WarmChain(c.images, full.image, rank, i) && !ChainBroken(full.image, rank, i)
                  then KubeletVersion(env, full.image, rank, i) else Err(NotCached))
    decreases Depth(rank, i)
  {
    if i.k8sTag.None? && i.baseImageId.Some? && full.image(i.baseImageId.value).Ok? {
      CachedVersion(env, c, full, rank, full.image(i.baseImageId.value).value);
    }
  }

  lemma {:induction false} SameVersionsSameCandidates(env: Env, f: string -> Result<Image>, g: string -> Result<Image>,
                                                      rank: string -> nat, images: seq<Image>)
    requires Acyclic(f, rank) && Acyclic(g, rank) && env.k8sVersion.Some?
    requires forall i :: i in images ==> KubeletVersion(env, f, rank, i) == KubeletVersion(env, g, rank, i)
    ensures Candidates(env, f, rank, images) == Candidates(env, g, rank, images)
    ensures Scores(env, f, rank, images) == Scores(env, g, rank, images)
  {
    if images != [] {
      SameVersionsSameCandidates(env, f, g, rank, images[..|images| - 1]);
    }
  }

  /** What filtering and sorting reads is cached. */
  ghost predicate WarmFilter(env: Env, c: Contents, view: View, rank: string -> nat, images: seq<Image>,
                             cfg: ImageConfig)
    requires Acyclic(view.image, rank)
  {
    VersionsMatter(env, cfg, images) && env.k8sVersion.Some? ==>
      WarmChains(c.images, view.image, rank, StableSort(images, NewestFirst()))
  }

  /** Every base image that filtering and sorting needs can be read. */
  ghost predicate BasesRead(env: Env, view: View, rank: string -> nat, images: seq<Image>, cfg: ImageConfig)
    requires Acyclic(view.image, rank)
  {
    VersionsMatter(env, cfg, images) && env.k8sVersion.Some? ==>
      NoneBroken(view.image, rank, StableSort(images, NewestFirst()))
  }

  lemma CachedFilterAndSort(env: Env, c: Contents, full: View, rank: string -> nat, images: seq<Image>,
                            cfg: ImageConfig)
    requires Agrees(c, full) && Foreign(full) && Acyclic(full.image, rank) && Acyclic(CachedView(c).image, rank)
    ensures var cached := CachedView(c);
            && FilterAndSort(env, full, rank, images, cfg) != Err(NotCached)
            && FilterAndSort(env, cached, rank, images, cfg) ==
                 (if WarmFilter(env, c, full, rank, images, cfg) && BasesRead(env, full, rank, images, cfg)
                  then FilterAndSort(env, full, rank, images, cfg) else Err(NotCached))
  {
    var cached := CachedView(c);
    var sorted := StableSort(images, NewestFirst());
    forall i | i in sorted ensures
        && KubeletVersion(env, full.image, rank, i) != Err(NotCached)
        && (KubeletVersion(env, cached.image, rank, i) ==
              if WarmChain(c.images, full.image, rank, i) && !ChainBroken(full.image, rank, i)
              then KubeletVersion(env, full.image, rank, i) else Err(NotCached))
    {
      CachedVersion(env, c, full, rank, i);
    }
    if VersionsMatter(env, cfg, images) && env.k8sVersion.Some? {
      if WarmChains(c.images, full.image, rank, sorted) && NoneBroken(full.image, rank, sorted) {
        SameVersionsSameCandidates(env, full.image, cached.image, rank, sorted);
      } else {
        var i :| i in sorted && !(WarmChain(c.images, full.image, rank, i) && !ChainBroken(full.image, rank, i));
        assert KubeletVersion(env, cached.image, rank, i) == Err(NotCached);
      }
    }
  }

  lemma {:induction false} CachedFirstForShape(c: Contents, view: View, images: seq<Image>, shape: string)
    requires Agrees(c, view)
    ensures var full, cached := FirstForShape(view, images, shape), FirstForShape(CachedView(c), images, shape);
            && (cached.Ok? ==> cached == full && WarmShapes(c.shapes, view, images, shape))
            && (full.Ok? && WarmShapes(c.shapes, view, images, shape) ==> cached == full)
  {
    if images != [] {
      CachedFirstForShape(c, view, images[1..], shape);
    }
  }

  /** Everything that a resolution reads successfully is cached. */
  ghost predicate WarmResolve(env: Env, c: Contents, view: View, rank: string -> nat, cfg: ImageConfig, shape: string)
    requires Acyclic(view.image, rank)
  {
    && (Listed(view, cfg).Ok? ==>
          && (cfg.imageId.Some? ==> cfg.imageId.value in c.images)
          && (cfg.imageId.None? && cfg.filter.Some? ==> cfg.filter.value in c.lists)
          && WarmFilter(env, c, view, rank, Listed(view, cfg).value, cfg))
    && (ResolveImages(env, view, rank, cfg).Ok? ==>
          WarmShapes(c.shapes, view, ResolveImages(env, view, rank, cfg).value, shape))
  }

  /** No base image that the resolution needs fails to read. */
  ghost predicate AllBasesRead(env: Env, view: View, rank: string -> nat, cfg: ImageConfig)
    requires Acyclic(view.image, rank)
  {
    Listed(view, cfg).Ok? ==> BasesRead(env, view, rank, Listed(view, cfg).value, cfg)
  }

  /** What the cached-only resolution answers from these contents. */
  ghost function CachedAnswer(env: Env, c: Contents, full: View, rank: string -> nat, cfg: ImageConfig, shape: string)
    : Result<Image>
    requires Agrees(c, full) && Acyclic(full.image, rank)
  {
    CachedAcyclic(c, full, rank);
    ResolveImageForShape(env, CachedView(c), rank, cfg, shape)
  }

  /** A cached-only answer is the full answer, and everything it needs is cached and reads. */
  lemma CachedAnswerIsFull(env: Env, c: Contents, full: View, rank: string -> nat, cfg: ImageConfig, shape: string)
    requires Agrees(c, full) && Foreign(full) && Acyclic(full.image, rank)
    requires CachedAnswer(env, c, full, rank, cfg, shape).Ok?
    ensures CachedAnswer(env, c, full, rank, cfg, shape) == ResolveImageForShape(env, full, rank, cfg, shape)
    ensures WarmResolve(env, c, full, rank, cfg, shape)
    ensures AllBasesRead(env, full, rank, cfg)
  {
    CachedAcyclic(c, full, rank);
    var cached := CachedView(c);
    assert Listed(cached, cfg) == Listed(full, cfg);
    CachedFilterAndSort(env, c, full, rank, Listed(full, cfg).value, cfg);
    CachedFirstForShape(c, full, ResolveImages(env, full, rank, cfg).value, shape);
  }

  /** From contents that hold all that a successful full resolution reads, the cached-only one gives the same image if
      no base image failed to read, and otherwise does not answer. */
  lemma WarmAnswer(env: Env, c: Contents, full: View, rank: string -> nat, cfg: ImageConfig, shape: string)
    requires Agrees(c, full) && Foreign(full) && Acyclic(full.image, rank)
    requires ResolveImageForShape(env, full, rank, cfg, shape).Ok?
    requires WarmResolve(env, c, full, rank, cfg, shape)
    ensures var answer := CachedAnswer(env, c, full, rank, cfg, shape);
            if AllBasesRead(env, full, rank, cfg) then answer == ResolveImageForShape(env, full, rank, cfg, shape)
            else answer == Err(NotCached)
  {
    CachedAcyclic(c, full, rank);
    var cached := CachedView(c);
    assert Listed(cached, cfg) == Listed(full, cfg);
    CachedFilterAndSort(env, c, full, rank, Listed(full, cfg).value, cfg);
    CachedFirstForShape(c, full, ResolveImages(env, full, rank, cfg).value, shape);
  }

  /** A full resolution that took the caches from `c` to `d`, both in agreement with `full`, read against the
      cached-only resolution before it and after it. */
  lemma CachedMeetsFull(env: Env, c: Contents, d: Contents, full: View, rank: string -> nat, cfg: ImageConfig,
                        shape: string)
    requires Agrees(c, full) && Agrees(d, full) && Foreign(full) && Acyclic(full.image, rank)
    requires ResolveImageForShape(env, full, rank, cfg, shape).Ok? ==> WarmResolve(env, d, full, rank, cfg, shape)
    ensures var r, before, after := ResolveImageForShape(env, full, rank, cfg, shape),
              CachedAnswer(env, c, full, rank, cfg, shape), CachedAnswer(env, d, full, rank, cfg, shape);
            && (before.Ok? ==> before == r && WarmResolve(env, c, full, rank, cfg, shape))
            && (before.Ok? ==> AllBasesRead(env, full, rank, cfg))
            && (r.Ok? ==> after == if AllBasesRead(env, full, rank, cfg) then r else Err(NotCached))
  {
    if CachedAnswer(env, c, full, rank, cfg, shape).Ok? {
      CachedAnswerIsFull(env, c, full, rank, cfg, shape);
    }
    if ResolveImageForShape(env, full, rank, cfg, shape).Ok? {
      WarmAnswer(env, d, full, rank, cfg, shape);
    }
  }

  /** The exception occurs: of two images, one carries a version tag and the other has none and a base image that cannot
      be read.  The full resolution selects the first; from no contents does the cached-only one answer. */
  lemma UnreadableBaseSilencesCache(shape: string)
      returns (env: Env, view: View, rank: string -> nat, cfg: ImageConfig)
    ensures Foreign(view) && Acyclic(view.image, rank)
    ensures ResolveImageForShape(env, view, rank, cfg, shape).Ok? && !AllBasesRead(env, view, rank, cfg)
    ensures forall c :: Agrees(c, view) ==> CachedAnswer(env, c, view, rank, cfg, shape).Err?
  {
    var tagged := Image("tagged", 1, None, None, Some("v1.30"));
    var untagged := Image("untagged", 0, None, Some("base"), None);
    var images := [tagged, untagged];
    env := Env("", Some(Version(1, 30)), (_: string) => Some(Version(1, 30)));
    view := View((_: string) => Err(Failure("unreadable")), (_: string) => Ok(images), (_: string) => Ok({shape}));
    rank := (_: string) => 0;
    cfg := ImageConfig(None, Some("filter"), OKEImage);
    SortKeeps(images, NewestFirst());
    var sorted := StableSort(images, NewestFirst());
    assert tagged in images && untagged in images && tagged in sorted && untagged in sorted;
    assert KubeletVersion(env, view.image, rank, tagged) == Ok(Version(1, 30));
    assert Supports(view, tagged, shape);
    SelectsIffEligible(env, view, rank, cfg, shape, images);
    assert ChainBroken(view.image, rank, untagged);
    forall c | Agrees(c, view) ensures CachedAnswer(env, c, view, rank, cfg, shape).Err? {
      if CachedAnswer(env, c, view, rank, cfg, shape).Ok? {
        CachedAnswerIsFull(env, c, view, rank, cfg, shape);
        assert false;
      }
    }
  }
}
