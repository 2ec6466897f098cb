/** Which image is selected, said of the configuration and of what the images themselves carry. */
module ImageMeaning {
  import opened Common
  import opened Sorting
  import opened ImageSelection

  // ---- The version that counts ----

  /** `chain` leads from `i` along base images without a tag to one whose tag reads as `v`. */
  ghost predicate LeadsTo(env: Env, image: string -> Result<Image>, i: Image, chain: seq<Image>, v: Version) {
    && chain != [] && chain[0] == i
    && (forall k :: 0 <= k < |chain| - 1 ==>
          chain[k].k8sTag.None? && chain[k].baseImageId.Some? && image(chain[k].baseImageId.value) == Ok(chain[k + 1]))
    && chain[|chain| - 1].k8sTag.Some? && env.parse(chain[|chain| - 1].k8sTag.value) == Some(v)
  }

  ghost predicate HasVersion(env: Env, image: string -> Result<Image>, i: Image, v: Version) {
    exists chain :: LeadsTo(env, image, i, chain, v)
  }

  lemma LeadsOn(env: Env, image: string -> Result<Image>, i: Image, base: Image, v: Version)
    requires i.k8sTag.None? && i.baseImageId.Some? && image(i.baseImageId.value) == Ok(base)
    ensures HasVersion(env, image, i, v) <==> HasVersion(env, image, base, v)
  {
    if HasVersion(env, image, base, v) {
      var chain :| LeadsTo(env, image, base, chain, v);
      assert LeadsTo(env, image, i, [i] + chain, v);
    }
    if HasVersion(env, image, i, v) {
      var chain :| LeadsTo(env, image, i, chain, v);
      assert LeadsTo(env, image, base, chain[1..], v);
    }
  }

  lemma ChainStarts(env: Env, image: string -> Result<Image>, i: Image, v: Version)
    requires HasVersion(env, image, i, v)
    ensures if i.k8sTag.Some? then env.parse(i.k8sTag.value) == Some(v)
            else i.baseImageId.Some? && image(i.baseImageId.value).Ok?
  {
    var chain: seq<Image> :| LeadsTo(env, image, i, chain, v);
    if |chain| > 1 {
      assert chain[0].k8sTag.None? && image(chain[0].baseImageId.value) == Ok(chain[0 + 1]);
    }
  }

  /** The kubelet version is that of the first tag on the way along the base images, if it reads. */
  lemma {:induction false} KubeletVersionMeans(env: Env, image: string -> Result<Image>, rank: string -> nat, i: Image,
                                               v: Version)
    requires Acyclic(image, rank)
    ensures KubeletVersion(env, image, rank, i) == Ok(v) <==> HasVersion(env, image, i, v)
    decreases Depth(rank, i)
  {
    if HasVersion(env, image, i, v) {
      ChainStarts(env, image, i, v);
    }
    if i.k8sTag.Some? {
      assert env.parse(i.k8sTag.value) == Some(v) ==> LeadsTo(env, image, i, [i], v);
    } else if i.baseImageId.Some? && image(i.baseImageId.value).Ok? {
      var base := image(i.baseImageId.value).value;
      KubeletVersionMeans(env, image, rank, base, v);
      LeadsOn(env, image, i, base, v);
    }
  }

  /** The image has a version that may run against the cluster. */
  ghost predicate Runs(env: Env, image: string -> Result<Image>, i: Image, v: Version) {
    env.k8sVersion.Some? && HasVersion(env, image, i, v) && MayRun(env.k8sVersion.value, v)
  }

  lemma CandidateRuns(env: Env, image: string -> Result<Image>, rank: string -> nat, i: Image)
    requires Acyclic(image, rank) && env.k8sVersion.Some?
    ensures CandidateScore(env, image, rank, i).Some? <==> exists v :: Runs(env, image, i, v)
    ensures forall v :: Runs(env, image, i, v) ==>
              && KubeletVersion(env, image, rank, i) == Ok(v)
              && CandidateScore(env, image, rank, i) == Some(env.k8sVersion.value.minor - v.minor)
  {
    var found := KubeletVersion(env, image, rank, i);
    if found.Ok? {
      KubeletVersionMeans(env, image, rank, i, found.value);
      ScoreIsSkew(env.k8sVersion.value, found.value);
      assert MayRun(env.k8sVersion.value, found.value) ==> Runs(env, image, i, found.value);
    }
    forall v | Runs(env, image, i, v) ensures found == Ok(v) {
      KubeletVersionMeans(env, image, rank, i, v);
    }
  }

  // ---- Whether it counts ----

  /** Image `i` is the newest of the list, and the first such. */
  predicate Newest(images: seq<Image>, i: nat) {
    && i < |images|
    && (forall j :: 0 <= j < |images| ==> images[j].created <= images[i].created)
    && (forall j :: 0 <= j < i ==> images[j].created < images[i].created)
  }

  lemma SortedNewest(images: seq<Image>) returns (i: nat)
    requires images != []
    ensures Newest(images, i)
    ensures StableSort(images, NewestFirst()) != [] && StableSort(images, NewestFirst())[0] == images[i]
  {
    var p := SortedRanks(images);
    i := p[0];
    forall j | 0 <= j < |images| && j != i
      ensures images[i].created > images[j].created || (images[i].created == images[j].created && i < j)
    {
      RangeFacts(|images|);
      assert j in p;
      var k :| 0 <= k < |p| && p[k] == j;
      assert Preferred(NoSkew(), images, p[0], p[k]);
    }
  }

  /** Versions count for an image given by its id exactly if the newest listed, which is that image, is in the
      compartment of the pre-baked images, and for a listing exactly if OKE images are asked for. */
  lemma VersionsMatterMeans(env: Env, cfg: ImageConfig, images: seq<Image>)
    ensures cfg.imageId.Some? ==>
              (VersionsMatter(env, cfg, images) <==>
                 exists i: nat :: Newest(images, i) && images[i].compartmentId == Some(env.preBakedCompartmentId))
    ensures cfg.imageId.None? ==> (VersionsMatter(env, cfg, images) <==> images != [] && cfg.imageType == OKEImage)
  {
    if images != [] {
      var i := SortedNewest(images);
      forall j: nat | Newest(images, j) ensures j == i {
      }
    }
  }

  // ---- What is selected ----

  /** An image given by its id.  Outside the compartment of the pre-baked images it is selected exactly if it supports
      the shape, whatever its tag; inside, exactly if it also has a version that may run. */
  lemma ById(env: Env, view: View, rank: string -> nat, cfg: ImageConfig, shape: string, i: Image)
    requires Acyclic(view.image, rank)
    requires cfg.imageId.Some? && cfg.filter.None? && view.image(cfg.imageId.value) == Ok(i)
    ensures var r := ResolveImageForShape(env, view, rank, cfg, shape);
            && (i.compartmentId != Some(env.preBakedCompartmentId) ==> (r.Ok? <==> Supports(view, i, shape)))
            && (i.compartmentId == Some(env.preBakedCompartmentId) ==>
                  (r.Ok? <==> Supports(view, i, shape) && exists v :: Runs(env, view.image, i, v)))
            && (r.Ok? ==> r.value == i)
  {
    var images := [i];
    SortOne(images, NewestFirst());
    FirstOne(view, i, shape);
    if env.k8sVersion.Some? {
      CandidateRuns(env, view.image, rank, i);
      CandidatesOne(env, view.image, rank, i);
      SortOne(Candidates(env, view.image, rank, images), LeastSkewFirst(Scores(env, view.image, rank, images)));
      assert KubeletVersion(env, view.image, rank, i) == Err(NotCached) <==> Abandons(env, view.image, rank, images);
    }
  }

  lemma SortOne(images: seq<Image>, le: (Image, Image) -> bool)
    requires |images| <= 1
    ensures StableSort(images, le) == images
  {
    if images != [] {
      assert images[1..] == [] && images == [images[0]];
    }
  }

  lemma FirstOne(view: View, i: Image, shape: string)
    ensures FirstForShape(view, [i], shape).Ok? <==> Supports(view, i, shape)
    ensures FirstForShape(view, [i], shape).Ok? ==> FirstForShape(view, [i], shape).value == i
  {
    assert [i][1..] == [];
  }

  lemma CandidatesOne(env: Env, image: string -> Result<Image>, rank: string -> nat, i: Image)
    requires Acyclic(image, rank) && env.k8sVersion.Some?
    ensures Candidates(env, image, rank, [i]) == if CandidateScore(env, image, rank, i).Some? then [i] else []
  {
    assert [i][..0] == [];
  }

  /** Of a listing of OKE images, only one that supports the shape and has a version that may run is selected: the
      latest such version, then the newest image, then the first listed; and the shapes of any that would come before it
      read. */
  lemma OkeListing(env: Env, view: View, rank: string -> nat, cfg: ImageConfig, shape: string, images: seq<Image>)
      returns (i: nat, v: Version)
    requires Acyclic(view.image, rank) && IdsConsistent(images)
    requires cfg.imageId.None? && cfg.filter.Some? && view.list(cfg.filter.value) == Ok(images)
    requires cfg.imageType == OKEImage && ResolveImageForShape(env, view, rank, cfg, shape).Ok?
    ensures i < |images| && ResolveImageForShape(env, view, rank, cfg, shape) == Ok(images[i])
    ensures Supports(view, images[i], shape) && Runs(env, view.image, images[i], v)
    ensures forall j: nat, w ::
              j < |images| && j != i && Runs(env, view.image, images[j], w) ==>
                || Lacks(view, images[j], shape)
                || w.minor < v.minor
                || (w.minor == v.minor
                    && (images[j].created < images[i].created || (images[j].created == images[i].created && i < j)))
  {
    var listed;
    listed, i := SelectedIsBest(env, view, rank, cfg, shape);
    VersionsMatterMeans(env, cfg, images);
    CandidateRuns(env, view.image, rank, images[i]);
    v := KubeletVersion(env, view.image, rank, images[i]).value;
    KubeletVersionMeans(env, view.image, rank, images[i], v);
    forall j: nat, w |
        j < |images| && j != i && Runs(env, view.image, images[j], w)
      ensures || Lacks(view, images[j], shape)
              || w.minor < v.minor
              || (w.minor == v.minor
                  && (images[j].created < images[i].created || (images[j].created == images[i].created && i < j)))
    {
      CandidateRuns(env, view.image, rank, images[j]);
      assert Eligible(env, view, rank, cfg, images, j);
    }
  }

  /** Of any other listing the newest image that supports the shape is selected, whatever its version, and of several as
      new the first listed; and the shapes of any that would come before it read. */
  lemma OtherListing(env: Env, view: View, rank: string -> nat, cfg: ImageConfig, shape: string, images: seq<Image>)
      returns (i: nat)
    requires Acyclic(view.image, rank) && IdsConsistent(images)
    requires cfg.imageId.None? && cfg.filter.Some? && view.list(cfg.filter.value) == Ok(images)
    requires cfg.imageType != OKEImage && ResolveImageForShape(env, view, rank, cfg, shape).Ok?
    ensures i < |images| && ResolveImageForShape(env, view, rank, cfg, shape) == Ok(images[i])
    ensures Supports(view, images[i], shape)
    ensures forall j: nat :: j < |images| && j != i ==>
              || Lacks(view, images[j], shape)
              || images[j].created < images[i].created || (images[j].created == images[i].created && i < j)
  {
    var listed;
    listed, i := SelectedIsBest(env, view, rank, cfg, shape);
    VersionsMatterMeans(env, cfg, images);
    forall j: nat | j < |images| && j != i
      ensures || Lacks(view, images[j], shape)
              || images[j].created < images[i].created || (images[j].created == images[i].created && i < j)
    {
      assert Eligible(env, view, rank, cfg, images, j);
    }
  }

  /** A listing of which all shape sets can be read gives an image exactly if one of its images supports the shape and,
      for OKE images, has a version that may run; no base image being missing from the caches. */
  lemma ListingSelects(env: Env, view: View, rank: string -> nat, cfg: ImageConfig, shape: string, images: seq<Image>)
    requires Acyclic(view.image, rank) && cfg.imageId.None? && cfg.filter.Some?
    requires view.list(cfg.filter.value) == Ok(images)
    requires forall i :: i in images ==> view.shapes(i.id).Ok?
    requires forall i :: i in images ==> KubeletVersion(env, view.image, rank, i) != Err(NotCached)
    ensures ResolveImageForShape(env, view, rank, cfg, shape).Ok? <==>
              exists i :: i in images && Supports(view, i, shape)
                && (cfg.imageType == OKEImage ==> exists v :: Runs(env, view.image, i, v))
  {
    VersionsMatterMeans(env, cfg, images);
    if env.k8sVersion.Some? {
      SelectsIffEligible(env, view, rank, cfg, shape, images);
      forall i ensures CandidateScore(env, view.image, rank, i).Some? <==> exists v :: Runs(env, view.image, i, v) {
        CandidateRuns(env, view.image, rank, i);
      }
      assert forall i :: i in images ==>
        (Suitable(env, view, rank, cfg, images, i) <==>
           (cfg.imageType == OKEImage ==> CandidateScore(env, view.image, rank, i).Some?));
    } else {
      SortKeeps(images, NewestFirst());
      if cfg.imageType != OKEImage && images != [] {
        FirstFinds(view, StableSort(images, NewestFirst()), shape);
      }
    }
  }

  /** Neither or both of an id and a filter give nothing. */
  lemma OneOfIdAndFilter(env: Env, view: View, rank: string -> nat, cfg: ImageConfig, shape: string)
    requires Acyclic(view.image, rank) && ResolveImageForShape(env, view, rank, cfg, shape).Ok?
    ensures cfg.imageId.Some? <==> cfg.filter.None?
  {
    assert cfg.imageId.None? && cfg.filter.None? ==> Listed(view, cfg) == Ok([]);
  }
}
