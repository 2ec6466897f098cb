/**
 Which image a launch uses: candidates are sorted newest first, kept if their kubelet version may run against the
 cluster, sorted by version skew, and the first that supports the shape is taken.  Everything is stated for a `View`:
 how images, image lists and shape sets read, whether from the caches, from the API, or from both.
 */
module ImageSelection {
  import opened Common
  import opened Sorting

  datatype Version = Version(major: nat, minor: nat)

  /** `k8sTag` is the image's `k8s_version` tag. */
  datatype Image = Image(
    id: string, created: int, compartmentId: Option<string>, baseImageId: Option<string>, k8sTag: Option<string>)

  datatype ImageType = OKEImage | Platform | Custom

  /** A filter is known by its hash. */
  datatype ImageConfig = ImageConfig(imageId: Option<string>, filter: Option<string>, imageType: ImageType)

  datatype View = View(
    image: string -> Result<Image>, list: string -> Result<seq<Image>>, shapes: string -> Result<set<string>>)

  /** `parse` reads a version tag; the cluster version may not be known yet. */
  datatype Env = Env(preBakedCompartmentId: string, k8sVersion: Option<Version>, parse: string -> Option<Version>)

  // ---- Version skew ----

  /** -1 if the kubelet must not run against the cluster, otherwise how many minor versions it is behind. */
  function KubeletVersionCompatibleScore(cluster: Version, kubelet: Version): int {
    if kubelet.major != cluster.major then -1
    else if kubelet.minor > cluster.minor then -1
    else
      var diff := cluster.minor - kubelet.minor;
      if kubelet.major == 1 && kubelet.minor < 25 && diff > 2 then -1
      else if diff > 3 then -1
      else diff
  }

  /** The Kubernetes version skew policy for the kubelet: never newer than the API server, and at most three minor
      versions older, or two if it is older than 1.25. */
  predicate MayRun(cluster: Version, kubelet: Version) {
    && kubelet.major == cluster.major
    && kubelet.minor <= cluster.minor <= kubelet.minor + 3
    && (kubelet.major == 1 && kubelet.minor < 25 ==> cluster.minor <= kubelet.minor + 2)
  }

  lemma ScoreIsSkew(cluster: Version, kubelet: Version)
    ensures KubeletVersionCompatibleScore(cluster, kubelet) >= 0 <==> MayRun(cluster, kubelet)
    ensures var oldest := if kubelet.major == 1 && kubelet.minor < 25 then 2 else 3;
            MayRun(cluster, kubelet) <==>
              kubelet.major == cluster.major && 0 <= cluster.minor - kubelet.minor <= oldest
    ensures MayRun(cluster, kubelet) ==>
              KubeletVersionCompatibleScore(cluster, kubelet) == cluster.minor - kubelet.minor
  {
  }

  // ---- The kubelet version of an image ----

  /** Base images form no cycle: `rank` falls along every link. */
  ghost predicate Acyclic(image: string -> Result<Image>, rank: string -> nat) {
    forall id :: image(id).Ok? && image(id).value.baseImageId.Some? ==>
      rank(image(id).value.baseImageId.value) < rank(id)
  }

  ghost function Depth(rank: string -> nat, i: Image): nat {
    if i.baseImageId.Some? then 1 + rank(i.baseImageId.value) else 0
  }

  /** The version tag of the image or of its nearest base image that has one. */
  ghost function KubeletVersion(env: Env, image: string -> Result<Image>, rank: string -> nat, i: Image)
    : Result<Version>
    requires Acyclic(image, rank)
    decreases Depth(rank, i)
  {
    if i.k8sTag.Some? then
      var v := env.parse(i.k8sTag.value);
      if v.Some? then Ok(v.value) else Err(Failure("invalid version"))
    else if i.baseImageId.None? then Err(Failure("missing k8s_version tag"))
    else
      match image(i.baseImageId.value)
      case Err(e) => Err(e)
      case Ok(base) => KubeletVersion(env, image, rank, base)
  }

  /** The score under which an image is a candidate, if it is one. */
  ghost function CandidateScore(env: Env, image: string -> Result<Image>, rank: string -> nat, i: Image): Option<int>
    requires Acyclic(image, rank) && env.k8sVersion.Some?
  {
    match KubeletVersion(env, image, rank, i)
    case Err(_) => None
    case Ok(v) =>
      var score := KubeletVersionCompatibleScore(env.k8sVersion.value, v);
      if score < 0 then None else Some(score)
  }

  ghost function Candidates(env: Env, image: string -> Result<Image>, rank: string -> nat, images: seq<Image>)
    : seq<Image>
    requires Acyclic(image, rank) && env.k8sVersion.Some?
  {
    if images == [] then []
    else
      var last := images[|images| - 1];
      Candidates(env, image, rank, images[..|images| - 1])
        + (if CandidateScore(env, image, rank, last).Some? then [last] else [])
  }

  /** The scores by image id; of images with one id, the last candidate's counts. */
  ghost function Scores(env: Env, image: string -> Result<Image>, rank: string -> nat, images: seq<Image>)
    : map<string, int>
    requires Acyclic(image, rank) && env.k8sVersion.Some?
  {
    if images == [] then map[]
    else
      var last := images[|images| - 1];
      var rest := Scores(env, image, rank, images[..|images| - 1]);
      var score := CandidateScore(env, image, rank, last);
      if score.Some? then rest[last.id := score.value] else rest
  }

  function Score(scores: map<string, int>, i: Image): int {
    if i.id in scores then scores[i.id] else 0
  }

  function NewestFirst(): (Image, Image) -> bool {
    (a: Image, b: Image) => a.created >= b.created
  }

  function LeastSkewFirst(scores: map<string, int>): (Image, Image) -> bool {
    (a: Image, b: Image) => Score(scores, a) <= Score(scores, b)
  }

  // ---- The selection ----

  predicate IsPreBaked(env: Env, cfg: ImageConfig, newest: Image) {
    if cfg.imageId.Some? then newest.compartmentId == Some(env.preBakedCompartmentId) else cfg.imageType == OKEImage
  }

  /** A cached-only pass gives up as soon as a version would have to be fetched. */
  ghost predicate Abandons(env: Env, image: string -> Result<Image>, rank: string -> nat, images: seq<Image>)
    requires Acyclic(image, rank)
  {
    exists i :: i in images && KubeletVersion(env, image, rank, i) == Err(NotCached)
  }

  ghost function FilterAndSort(env: Env, view: View, rank: string -> nat, images: seq<Image>, cfg: ImageConfig)
    : Result<seq<Image>>
    requires Acyclic(view.image, rank)
  {
    if images == [] then Err(Failure("no image available"))
    else
      var sorted := StableSort(images, NewestFirst());
      if sorted == [] || !IsPreBaked(env, cfg, sorted[0]) then Ok(sorted)
      else if env.k8sVersion.None? then Err(Failure("cannot detect cluster version"))
      else if Abandons(env, view.image, rank, sorted) then Err(NotCached)
      else Ok(StableSort(Candidates(env, view.image, rank, sorted),
                         LeastSkewFirst(Scores(env, view.image, rank, sorted))))
  }

  /** The images before filtering and sorting. */
  ghost function Listed(view: View, cfg: ImageConfig): Result<seq<Image>> {
    if cfg.imageId.Some? && cfg.filter.Some? then Err(Failure("cannot define image ocid and image filter together"))
    else if cfg.imageId.Some? then
      match view.image(cfg.imageId.value)
      case Err(e) => Err(e)
      case Ok(i) => Ok([i])
    else if cfg.filter.Some? then view.list(cfg.filter.value)
    else Ok([])
  }

  ghost function ResolveImages(env: Env, view: View, rank: string -> nat, cfg: ImageConfig): Result<seq<Image>>
    requires Acyclic(view.image, rank)
  {
    match Listed(view, cfg)
    case Err(e) => Err(e)
    case Ok(images) =>
      match FilterAndSort(env, view, rank, images, cfg)
      case Err(e) => Err(e)
      case Ok(sorted) => if sorted == [] then Err(Failure("no image match")) else Ok(sorted)
  }

  ghost function FirstForShape(view: View, images: seq<Image>, shape: string): Result<Image> {
    if images == [] then Err(Failure("no image suitable for shape"))
    else
      match view.shapes(images[0].id)
      case Err(e) => Err(e)
      case Ok(shapes) => if shape in shapes then Ok(images[0]) else FirstForShape(view, images[1..], shape)
  }

  ghost function ResolveImageForShape(env: Env, view: View, rank: string -> nat, cfg: ImageConfig, shape: string)
    : Result<Image>
    requires Acyclic(view.image, rank)
  {
    match ResolveImages(env, view, rank, cfg)
    case Err(e) => Err(e)
    case Ok(images) => FirstForShape(view, images, shape)
  }

  // ---- The selected image is the best ----

  /** Positions of candidates, in increasing order. */
  lemma {:induction false} CandidatePositions(env: Env, image: string -> Result<Image>, rank: string -> nat,
                                              images: seq<Image>)
      returns (q: seq<nat>)
    requires Acyclic(image, rank) && env.k8sVersion.Some?
    ensures TakenFrom(Candidates(env, image, rank, images), images, q)
    ensures forall k, l :: 0 <= k < l < |q| ==> q[k] < q[l]
    ensures forall k :: 0 <= k < |q| ==> CandidateScore(env, image, rank, images[q[k]]).Some?
    ensures forall j :: 0 <= j < |images| && CandidateScore(env, image, rank, images[j]).Some? ==> j in q
  {
    if images == [] {
      q := [];
    } else {
      var n := |images| - 1;
      var front := images[..n];
      q := CandidatePositions(env, image, rank, front);
      if CandidateScore(env, image, rank, images[n]).Some? {
        q := q + [n];
      }
      forall j | 0 <= j < |images| && CandidateScore(env, image, rank, images[j]).Some? ensures j in q {
        if j < n {
          assert front[j] == images[j];
        }
      }
    }
  }

  /** An id names one image. */
  ghost predicate IdsConsistent(images: seq<Image>) {
    forall i, j :: 0 <= i < |images| && 0 <= j < |images| && images[i].id == images[j].id ==> images[i] == images[j]
  }

  lemma {:induction false} ScoresAreOwn(env: Env, image: string -> Result<Image>, rank: string -> nat,
                                        images: seq<Image>)
    requires Acyclic(image, rank) && env.k8sVersion.Some? && IdsConsistent(images)
    ensures forall i :: i in images && CandidateScore(env, image, rank, i).Some? ==>
              Score(Scores(env, image, rank, images), i) == CandidateScore(env, image, rank, i).value
    ensures forall id :: id in Scores(env, image, rank, images) ==> exists i :: i in images && i.id == id
  {
    if images != [] {
      ScoresAreOwn(env, image, rank, images[..|images| - 1]);
    }
  }

  /** Image `i` of the list is preferred to image `j`: less skew, or as much and newer, or as old and earlier. */
  ghost predicate Preferred(skew: Image -> int, images: seq<Image>, i: nat, j: nat)
    requires i < |images| && j < |images|
  {
    || skew(images[i]) < skew(images[j])
    || (skew(images[i]) == skew(images[j])
        && (images[i].created > images[j].created || (images[i].created == images[j].created && i < j)))
  }

  /** `ys` holds, once each, the images at the positions in `who`, the preferred before the others. */
  ghost predicate Ranks(ys: seq<Image>, p: seq<nat>, skew: Image -> int, images: seq<Image>, who: set<nat>) {
    && TakenFrom(ys, images, p)
    && (forall k :: 0 <= k < |p| ==> p[k] in who)
    && (forall j :: j in who ==> j in p)
    && (forall k, l :: 0 <= k < l < |p| ==> Preferred(skew, images, p[k], p[l]))
  }

  ghost predicate Supports(view: View, i: Image, shape: string) {
    view.shapes(i.id).Ok? && shape in view.shapes(i.id).value
  }

  /** The image's shapes read, without this one. */
  ghost predicate Lacks(view: View, i: Image, shape: string) {
    view.shapes(i.id).Ok? && shape !in view.shapes(i.id).value
  }

  /** The first of ranked images that supports the shape is preferred to every other, except those read before it. */
  lemma {:induction false} FirstIsPreferred(view: View, ys: seq<Image>, p: seq<nat>, skew: Image -> int,
                                            images: seq<Image>,
                                           who: set<nat>, shape: string, from: nat) returns (i: nat)
    requires Ranks(ys, p, skew, images, who) && from <= |ys|
    requires FirstForShape(view, ys[from..], shape).Ok?
    requires forall k :: 0 <= k < from ==> Lacks(view, ys[k], shape)
    ensures i < |images| && images[i] == FirstForShape(view, ys[from..], shape).value && i in who
    ensures Supports(view, images[i], shape)
    ensures forall j :: j in who && j < |images| && j != i ==>
              Preferred(skew, images, i, j) || Lacks(view, images[j], shape)
    decreases |ys| - from
  {
    assert ys[from..] != [] && ys[from..][0] == ys[from] && ys[from..][1..] == ys[from + 1..];
    if shape in view.shapes(ys[from].id).value {
      i := p[from];
      forall j | j in who && j < |images| && j != i
        ensures Preferred(skew, images, i, j) || Lacks(view, images[j], shape)
      {
        var l :| 0 <= l < |p| && p[l] == j;
        assert ys[l] == images[j];
      }
    } else {
      i := FirstIsPreferred(view, ys, p, skew, images, who, shape, from + 1);
    }
  }

  lemma OrdersArePreorders(scores: map<string, int>)
    ensures TotalPreorder(NewestFirst()) && TotalPreorder(LeastSkewFirst(scores))
  {
    assert forall x, y, z :: Chain(NewestFirst(), x, y, z) ==> NewestFirst()(x, z);
    assert forall x, y, z :: Chain(LeastSkewFirst(scores), x, y, z) ==> LeastSkewFirst(scores)(x, z);
  }

  ghost function NoSkew(): Image -> int { i => 0 }

  /** Minor versions behind the cluster, for candidates. */
  ghost function Skew(env: Env, image: string -> Result<Image>, rank: string -> nat): Image -> int
    requires Acyclic(image, rank) && env.k8sVersion.Some?
  {
    i => var s := CandidateScore(env, image, rank, i); if s.Some? then s.value else 0
  }

  /** Sorted by time alone, the images are ranked newest first and then in list order. */
  lemma SortedRanks(images: seq<Image>) returns (p: seq<nat>)
    ensures Permutes(p, |images|)
    ensures Ranks(StableSort(images, NewestFirst()), p, NoSkew(), images, Range(|images|))
  {
    OrdersArePreorders(map[]);
    p := StableSortPositions(images, NewestFirst());
    RangeFacts(|images|);
    forall j | j in Range(|images|) ensures j in p {
      var k := PermutationReaches(p, |images|, j);
    }
  }

  /** The candidates' positions in the list they were sorted from. */
  ghost function Through(p: seq<nat>, q: seq<nat>): seq<nat>
    requires forall k :: 0 <= k < |q| ==> q[k] < |p|
  {
    seq(|q|, k requires 0 <= k < |q| => p[q[k]])
  }

  ghost function CandidateSet(env: Env, image: string -> Result<Image>, rank: string -> nat, images: seq<Image>)
    : set<nat>
    requires Acyclic(image, rank) && env.k8sVersion.Some?
  {
    set j: nat | j < |images| && CandidateScore(env, image, rank, images[j]).Some?
  }

  /** What is taken from a ranked list in order is ranked. */
  lemma ThroughRanked(images: seq<Image>, sorted: seq<Image>, p: seq<nat>, who: set<nat>, ys: seq<Image>, q: seq<nat>)
    requires Ranks(sorted, p, NoSkew(), images, who) && TakenFrom(ys, sorted, q)
    requires forall k, l :: 0 <= k < l < |q| ==> q[k] < q[l]
    ensures TakenFrom(ys, images, Through(p, q))
    ensures forall k, l :: 0 <= k < l < |q| ==> Preferred(NoSkew(), images, Through(p, q)[k], Through(p, q)[l])
  {
  }

  /** Candidates of the sorted list keep its ranking. */
  lemma CandidatesRank(env: Env, image: string -> Result<Image>, rank: string -> nat, images: seq<Image>,
                       sorted: seq<Image>, p: seq<nat>) returns (r: seq<nat>)
    requires Acyclic(image, rank) && env.k8sVersion.Some?
    requires Ranks(sorted, p, NoSkew(), images, Range(|images|))
    ensures Ranks(Candidates(env, image, rank, sorted), r, NoSkew(), images, CandidateSet(env, image, rank, images))
  {
    var q := CandidatePositions(env, image, rank, sorted);
    ThroughRanked(images, sorted, p, Range(|images|), Candidates(env, image, rank, sorted), q);
    r := Through(p, q);
    var who := CandidateSet(env, image, rank, images);
    forall k | 0 <= k < |r| ensures r[k] in who {
      assert images[r[k]] == sorted[q[k]];
    }
    forall j | j in who ensures j in r {
      assert j in Range(|images|) by { RangeFacts(|images|); }
      var k :| 0 <= k < |p| && p[k] == j;
      assert sorted[k] == images[j];
      var l :| 0 <= l < |q| && q[l] == k;
      assert r[l] == j;
    }
  }

  /** Sorting a ranked list by skew ranks it by skew first. */
  lemma SkewSortRanks(env: Env, image: string -> Result<Image>, rank: string -> nat, images: seq<Image>,
                      ys: seq<Image>, p: seq<nat>, scores: map<string, int>) returns (r: seq<nat>)
    requires Acyclic(image, rank) && env.k8sVersion.Some?
    requires Ranks(ys, p, NoSkew(), images, CandidateSet(env, image, rank, images))
    requires forall i :: i in ys ==> Score(scores, i) == Skew(env, image, rank)(i)
    ensures Ranks(StableSort(ys, LeastSkewFirst(scores)), r, Skew(env, image, rank), images,
                  CandidateSet(env, image, rank, images))
  {
    OrdersArePreorders(scores);
    var q := StableSortPositions(ys, LeastSkewFirst(scores));
    r := Through(p, q);
    var zs := StableSort(ys, LeastSkewFirst(scores));
    forall j | j in CandidateSet(env, image, rank, images) ensures j in r {
      var k :| 0 <= k < |p| && p[k] == j;
      var l := PermutationReaches(q, |ys|, k);
      assert r[l] == j;
    }
    forall k, l | 0 <= k < l < |r| ensures Preferred(Skew(env, image, rank), images, r[k], r[l]) {
      assert zs[k] == ys[q[k]] == images[r[k]] && zs[l] == ys[q[l]] == images[r[l]];
      assert LeastSkewFirst(scores)(zs[k], zs[l]);
      if Score(scores, zs[k]) == Score(scores, zs[l]) {
        assert LeastSkewFirst(scores)(zs[l], zs[k]);
        assert Preferred(NoSkew(), images, p[q[k]], p[q[l]]);
      }
    }
  }

  /** Whether versions matter for this list: decided on its newest image. */
  ghost predicate VersionsMatter(env: Env, cfg: ImageConfig, images: seq<Image>) {
    var sorted := StableSort(images, NewestFirst());
    sorted != [] && IsPreBaked(env, cfg, sorted[0])
  }

  /** Image `j` may run against the cluster, if versions matter. */
  ghost predicate Eligible(env: Env, view: View, rank: string -> nat, cfg: ImageConfig, images: seq<Image>, j: nat)
    requires Acyclic(view.image, rank) && j < |images|
  {
    VersionsMatter(env, cfg, images) ==>
      && env.k8sVersion.Some?
      && KubeletVersion(env, view.image, rank, images[j]).Ok?
      && MayRun(env.k8sVersion.value, KubeletVersion(env, view.image, rank, images[j]).value)
  }

  /** How the choice is made among eligible images. */
  ghost function ChoiceSkew(env: Env, view: View, rank: string -> nat, cfg: ImageConfig, images: seq<Image>)
    : Image -> int
    requires Acyclic(view.image, rank)
  {
    if VersionsMatter(env, cfg, images) && env.k8sVersion.Some? then Skew(env, view.image, rank) else NoSkew()
  }

  /** The candidates are the images whose kubelet version is found and may run. */
  lemma CandidatesMayRun(env: Env, image: string -> Result<Image>, rank: string -> nat, images: seq<Image>)
    requires Acyclic(image, rank) && env.k8sVersion.Some?
    ensures forall j: nat :: j < |images| ==>
              (j in CandidateSet(env, image, rank, images) <==>
                && KubeletVersion(env, image, rank, images[j]).Ok?
                && MayRun(env.k8sVersion.value, KubeletVersion(env, image, rank, images[j]).value))
  {
    forall j: nat | j < |images| && KubeletVersion(env, image, rank, images[j]).Ok? ensures
        j in CandidateSet(env, image, rank, images) <==>
          MayRun(env.k8sVersion.value, KubeletVersion(env, image, rank, images[j]).value)
    {
      ScoreIsSkew(env.k8sVersion.value, KubeletVersion(env, image, rank, images[j]).value);
    }
  }

  /** The image that is selected is eligible and supports the shape, and every other eligible image has more version
      skew, or as much and is older, or is as old and stands later in the list, or its shapes read without this one. */
  lemma SelectedIsBest(env: Env, view: View, rank: string -> nat, cfg: ImageConfig, shape: string)
      returns (images: seq<Image>, i: nat)
    requires Acyclic(view.image, rank) && ResolveImageForShape(env, view, rank, cfg, shape).Ok?
    requires Listed(view, cfg).Ok? ==> IdsConsistent(Listed(view, cfg).value)
    ensures Listed(view, cfg) == Ok(images) && i < |images|
    ensures ResolveImageForShape(env, view, rank, cfg, shape) == Ok(images[i])
    ensures Eligible(env, view, rank, cfg, images, i) && Supports(view, images[i], shape)
    ensures forall j: nat :: j < |images| && j != i && Eligible(env, view, rank, cfg, images, j) ==>
              Preferred(ChoiceSkew(env, view, rank, cfg, images), images, i, j) || Lacks(view, images[j], shape)
  {
    images := Listed(view, cfg).value;
    var sorted := StableSort(images, NewestFirst());
    var p := SortedRanks(images);
    if !VersionsMatter(env, cfg, images) {
      assert sorted[0..] == sorted;
      RangeFacts(|images|);
      i := FirstIsPreferred(view, sorted, p, NoSkew(), images, Range(|images|), shape, 0);
    } else {
      i := BestCandidate(env, view, rank, images, sorted, p, shape);
      CandidatesMayRun(env, view.image, rank, images);
    }
  }

  lemma CandidatesScoreOwn(env: Env, image: string -> Result<Image>, rank: string -> nat, images: seq<Image>)
    requires Acyclic(image, rank) && env.k8sVersion.Some? && IdsConsistent(images)
    ensures forall c :: c in Candidates(env, image, rank, images) ==>
              Score(Scores(env, image, rank, images), c) == Skew(env, image, rank)(c)
  {
    ScoresAreOwn(env, image, rank, images);
    var q := CandidatePositions(env, image, rank, images);
    var ys := Candidates(env, image, rank, images);
    forall c | c in ys ensures Score(Scores(env, image, rank, images), c) == Skew(env, image, rank)(c) {
      var k :| 0 <= k < |ys| && ys[k] == c;
      assert images[q[k]] == c;
    }
  }

  lemma BestCandidate(env: Env, view: View, rank: string -> nat, images: seq<Image>, sorted: seq<Image>, p: seq<nat>,
                      shape: string) returns (i: nat)
    requires Acyclic(view.image, rank) && env.k8sVersion.Some? && IdsConsistent(images)
    requires Ranks(sorted, p, NoSkew(), images, Range(|images|))
    requires FirstForShape(view, StableSort(Candidates(env, view.image, rank, sorted),
                                            LeastSkewFirst(Scores(env, view.image, rank, sorted))), shape).Ok?
    ensures i < |images| && i in CandidateSet(env, view.image, rank, images) && Supports(view, images[i], shape)
    ensures images[i] == FirstForShape(view, StableSort(Candidates(env, view.image, rank, sorted),
                                       LeastSkewFirst(Scores(env, view.image, rank, sorted))), shape).value
    ensures forall j :: j in CandidateSet(env, view.image, rank, images) && j != i ==>
              Preferred(Skew(env, view.image, rank), images, i, j) || Lacks(view, images[j], shape)
  {
    var scores := Scores(env, view.image, rank, sorted);
    var ys := Candidates(env, view.image, rank, sorted);
    var q := CandidatesRank(env, view.image, rank, images, sorted, p);
    assert IdsConsistent(sorted);
    CandidatesScoreOwn(env, view.image, rank, sorted);
    var r := SkewSortRanks(env, view.image, rank, images, ys, q, scores);
    var zs := StableSort(ys, LeastSkewFirst(scores));
    assert zs[0..] == zs;
    i := FirstIsPreferred(view, zs, r, Skew(env, view.image, rank), images,
                          CandidateSet(env, view.image, rank, images), shape, 0);
  }

  // ---- An image is selected if one can be ----

  lemma {:induction false} InsertKeeps<T>(x: T, ys: seq<T>, le: (T, T) -> bool)
    ensures forall z :: z in Insert(x, ys, le) <==> z == x || z in ys
  {
    if ys != [] && !le(x, ys[0]) {
      InsertKeeps(x, ys[1..], le);
      assert ys == [ys[0]] + ys[1..];
    }
  }

  lemma {:induction false} SortKeeps<T>(xs: seq<T>, le: (T, T) -> bool)
    ensures forall z :: z in StableSort(xs, le) <==> z in xs
  {
    if xs != [] {
      SortKeeps(xs[1..], le);
      InsertKeeps(xs[0], StableSort(xs[1..], le), le);
      assert xs == [xs[0]] + xs[1..];
    }
  }

  lemma {:induction false} CandidatesKeep(env: Env, image: string -> Result<Image>, rank: string -> nat,
                                          images: seq<Image>)
    requires Acyclic(image, rank) && env.k8sVersion.Some?
    ensures forall i :: i in Candidates(env, image, rank, images) <==>
              i in images && CandidateScore(env, image, rank, i).Some?
  {
    if images != [] {
      CandidatesKeep(env, image, rank, images[..|images| - 1]);
      assert images == images[..|images| - 1] + [images[|images| - 1]];
    }
  }

  lemma {:induction false} FirstFinds(view: View, images: seq<Image>, shape: string)
    requires forall i :: i in images ==> view.shapes(i.id).Ok?
    ensures FirstForShape(view, images, shape).Ok? <==> exists i :: i in images && Supports(view, i, shape)
  {
    if images == [] {
      assert FirstForShape(view, images, shape).Err?;
    } else {
      var rest := images[1..];
      assert images == [images[0]] + rest;
      FirstFinds(view, rest, shape);
      if Supports(view, images[0], shape) {
        assert images[0] in images;
      } else if FirstForShape(view, rest, shape).Ok? {
        var i :| i in rest && Supports(view, i, shape);
        assert i in images;
      } else {
        assert forall i :: i in images ==> i == images[0] || i in rest;
      }
    }
  }

  /** The image may run against the cluster, if versions matter. */
  ghost predicate Suitable(env: Env, view: View, rank: string -> nat, cfg: ImageConfig, images: seq<Image>, i: Image)
    requires Acyclic(view.image, rank) && env.k8sVersion.Some?
  {
    VersionsMatter(env, cfg, images) ==> CandidateScore(env, view.image, rank, i).Some?
  }

  /** Filtering and sorting keeps exactly the suitable images. */
  lemma FilterKeepsSuitable(env: Env, view: View, rank: string -> nat, cfg: ImageConfig, images: seq<Image>)
      returns (ys: seq<Image>)
    requires Acyclic(view.image, rank) && env.k8sVersion.Some? && images != []
    requires forall i :: i in images ==> KubeletVersion(env, view.image, rank, i) != Err(NotCached)
    ensures FilterAndSort(env, view, rank, images, cfg) == Ok(ys)
    ensures forall i :: i in ys <==> i in images && Suitable(env, view, rank, cfg, images, i)
  {
    var sorted := StableSort(images, NewestFirst());
    SortKeeps(images, NewestFirst());
    if VersionsMatter(env, cfg, images) {
      var candidates := Candidates(env, view.image, rank, sorted);
      var order := LeastSkewFirst(Scores(env, view.image, rank, sorted));
      CandidatesKeep(env, view.image, rank, sorted);
      SortKeeps(candidates, order);
      ys := StableSort(candidates, order);
    } else {
      ys := sorted;
    }
  }

  /** When the list, the shape sets and the cluster version can be read, an image is selected if and only if some listed
      image is suitable and supports the shape: neither sort loses one, and neither filter keeps one too many. */
  lemma SelectsIffEligible(env: Env, view: View, rank: string -> nat, cfg: ImageConfig, shape: string,
                           images: seq<Image>)
    requires Acyclic(view.image, rank) && env.k8sVersion.Some? && Listed(view, cfg) == Ok(images)
    requires forall i :: i in images ==>
               view.shapes(i.id).Ok? && KubeletVersion(env, view.image, rank, i) != Err(NotCached)
    ensures ResolveImageForShape(env, view, rank, cfg, shape).Ok? <==>
              exists i :: i in images && Suitable(env, view, rank, cfg, images, i) && Supports(view, i, shape)
  {
    if images != [] {
      var ys := FilterKeepsSuitable(env, view, rank, cfg, images);
      FirstFinds(view, ys, shape);
      assert ResolveImages(env, view, rank, cfg) == if ys == [] then Err(Failure("no image match")) else Ok(ys);
      assert ResolveImageForShape(env, view, rank, cfg, shape).Ok? <==> FirstForShape(view, ys, shape).Ok?;
    } else {
      assert FilterAndSort(env, view, rank, images, cfg).Err?;
    }
  }
}
