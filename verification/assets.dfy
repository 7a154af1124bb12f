/** The asset stage: the asset index is cached under `indexes/<id>.json`,
    and every object it lists is stored content-addressed under
    `objects/<first two hash characters>/<hash>` and fetched from the
    resource host when missing. Decoding the index is an oracle. */
module Assets {
  import opened Wrappers
  import opened Paths
  import opened Cache
  import Meta
  import Pool

  const ResourcesHost: string := "https://resources.download.minecraft.net/"

  /** The panic of `&hash[0..2]` on a hash shorter than two bytes. */
  const ShortHash: string := "byte index 2 is out of range"

  /** The panic of `unwrap()` on a failed result. */
  const UnwrapErr: string := "called `Result::unwrap()` on an `Err` value"

  /** The panic of `todo!()`. */
  const NotImplemented: string := "not yet implemented"

  type IndexDecoder = Bytes -> Option<seq<Meta.AssetObject>>

  /** `assets_root/indexes/<id>.json`. */
  function IndexPath(root: Path, id: string): (p: Path)
    ensures Under(p, root + ["indexes"]) && |p| == |root| + 2
    ensures p[|root| + 1] == id + ".json"
  {
    root + ["indexes", id + ".json"]
  }

  /** `assets_root/objects/<hash[0..2]>/<hash>`. */
  function ObjectPath(root: Path, hash: string): (p: Path)
    requires |hash| >= 2
    ensures Under(p, root + ["objects"]) && |p| == |root| + 3
    ensures p[|root| + 1] == hash[..2] && p[|root| + 2] == hash
  {
    root + ["objects", hash[..2], hash]
  }

  /** `https://resources.download.minecraft.net/<hash[0..2]>/<hash>`. */
  function ObjectUrl(hash: string): (u: Url)
    requires |hash| >= 2
    ensures ResourcesHost <= u && |u| >= |hash| && u[|u| - |hash|..] == hash
  {
    ResourcesHost + hash[..2] + "/" + hash
  }

  /** Storage is content-addressed: two objects share a file, or a URL,
      exactly when their hashes are equal, and no object file is the index
      file. */
  lemma ContentAddressed(root: Path, h1: string, h2: string, id: string)
    requires |h1| >= 2 && |h2| >= 2
    ensures ObjectPath(root, h1) == ObjectPath(root, h2) <==> h1 == h2
    ensures ObjectUrl(h1) == ObjectUrl(h2) <==> h1 == h2
    ensures IndexPath(root, id) != ObjectPath(root, h1)
  {
    var n := |ResourcesHost| + 3;
    assert ObjectUrl(h1)[n..] == h1;
    assert ObjectUrl(h2)[n..] == h2;
    assert IndexPath(root, id)[|root|] == "indexes";
    assert ObjectPath(root, h1)[|root|] == "objects";
  }

  /** The object is stored at its content address. */
  predicate ObjectStored(root: Path, obj: Meta.AssetObject, fs: map<Path, Bytes>)
  {
    |obj.hash| >= 2 && ObjectPath(root, obj.hash) in fs
  }

  predicate AllStored(root: Path, objs: seq<Meta.AssetObject>, fs: map<Path, Bytes>)
  {
    forall i :: 0 <= i < |objs| ==> ObjectStored(root, objs[i], fs)
  }

  /** One object of the index: a stored object is passed over; a missing one
      is requested and, on success, written at its address. A failed request
      is an error, or with `fetchPanics` a panic. */
  function FetchObject(root: Path, obj: Meta.AssetObject, w: World, net: Network, fetchPanics: bool)
    : (r: (Result<(), Error>, World))
    ensures |obj.hash| < 2 ==> r == (Err(Panic(ShortHash)), w)
    ensures ObjectStored(root, obj, w.fs) ==> r == (Ok(()), w)
    ensures |obj.hash| >= 2 && !ObjectStored(root, obj, w.fs) ==>
      r.1.fetched == w.fetched + [ObjectUrl(obj.hash)]
      && (r.0.Ok? <==> net(ObjectUrl(obj.hash), |w.fetched|).Ok?)
    ensures |obj.hash| >= 2 && !ObjectStored(root, obj, w.fs) && net(ObjectUrl(obj.hash), |w.fetched|).Err? ==>
      r.0 == Err(if fetchPanics then Panic(UnwrapErr) else Download(net(ObjectUrl(obj.hash), |w.fetched|).error))
    ensures r.0.Ok? ==> ObjectStored(root, obj, r.1.fs)
    ensures r.0.Err? && r.0.error.Download? ==> !fetchPanics
    ensures r.0.Err? ==> r.0.error.Download? || r.0.error.Panic?
    ensures r.0.Err? ==> r.1.fs == w.fs
    ensures r.1.fs.Keys <= w.fs.Keys + (if |obj.hash| >= 2 then {ObjectPath(root, obj.hash)} else {})
    ensures Grows(w, r.1)
  {
    if |obj.hash| < 2 then (Err(Panic(ShortHash)), w)
    else
      var p := ObjectPath(root, obj.hash);
      if p in w.fs then (Ok(()), w)
      else
        var (got, w1) := Fetch(ObjectUrl(obj.hash), w, net);
        match got
        case Err(e) => (Err(if fetchPanics then Panic(UnwrapErr) else Download(e)), w1)
        case Ok(bytes) => (Ok(()), World(w1.fs[p := bytes], w1.fetched))
  }

  /** What one object's output says, once the run is over: a success
      leaves the object stored; a failure is the error the network gave to
      a request of the object's URL made during the run. */
  predicate OutputHolds(root: Path, obj: Meta.AssetObject, o: Result<(), Error>, net: Network, w: World, b: World)
  {
    && |obj.hash| >= 2
    && (o.Ok? ==> ObjectStored(root, obj, b.fs))
    && (o.Err? ==> o.error.Download? && exists n ::
          && |w.fetched| <= n < |b.fetched|
          && b.fetched[n] == ObjectUrl(obj.hash)
          && net(ObjectUrl(obj.hash), n) == Err(o.error.cause))
  }

  /** `download_futures` over the objects, in the pool's output order.
      Every object runs, whatever the others did, and leaves its output; a
      hash too short to slice panics and ends the run at once. */
  function ObjectOutputs(root: Path, objs: seq<Meta.AssetObject>, order: seq<nat>, w: World, net: Network)
    : (r: (Result<seq<Result<(), Error>>, Error>, World))
    requires forall k :: 0 <= k < |order| ==> order[k] < |objs|
    ensures Grows(w, r.1)
    ensures r.0.Err? <==> exists k :: 0 <= k < |order| && |objs[order[k]].hash| < 2
    ensures r.0.Err? ==> r.0.error == Panic(ShortHash)
    ensures r.0.Ok? ==> |r.0.value| == |order|
    ensures r.0.Ok? ==> forall k :: 0 <= k < |order| ==> OutputHolds(root, objs[order[k]], r.0.value[k], net, w, r.1)
    ensures AllStored(root, objs, w.fs) ==> r.1 == w && r.0.Ok? && forall k :: 0 <= k < |r.0.value| ==> r.0.value[k].Ok?
    decreases |order|
  {
    if |order| == 0 then (Ok([]), w)
    else
      var (o, w1) := FetchObject(root, objs[order[0]], w, net, false);
      if o.Err? && o.error.Panic? then (o.PropagateFailure(), w1)
      else
        var r := ObjectOutputs(root, objs, order[1..], w1, net);
        assert forall k :: 0 <= k < |order[1..]| ==> order[1..][k] == order[k + 1];
        GrowsTransitive(w, w1, r.1);
        if r.0.Err? then r
        else
          OutputsStep(root, objs, order, o, net, w, w1, r.0.value, r.1);
          (Ok([o] + r.0.value), r.1)
  }

  lemma OutputsStep(root: Path, objs: seq<Meta.AssetObject>, order: seq<nat>, o: Result<(), Error>, net: Network,
                    w: World, w1: World, rest: seq<Result<(), Error>>, b: World)
    requires |order| > 0 && forall k :: 0 <= k < |order| ==> order[k] < |objs|
    requires (o, w1) == FetchObject(root, objs[order[0]], w, net, false) && !(o.Err? && o.error.Panic?)
    requires Grows(w1, b) && |rest| == |order| - 1
    requires forall k :: 0 <= k < |order| - 1 ==> OutputHolds(root, objs[order[k + 1]], rest[k], net, w1, b)
    ensures forall k :: 0 <= k < |order| ==> OutputHolds(root, objs[order[k]], ([o] + rest)[k], net, w, b)
  {
    var obj := objs[order[0]];
    if o.Err? {
      var n := |w.fetched|;
      assert w1.fetched == w.fetched + [ObjectUrl(obj.hash)];
      assert b.fetched[n] == w1.fetched[n];
    }
    forall k | 1 <= k < |order|
      ensures OutputHolds(root, objs[order[k]], ([o] + rest)[k], net, w, b)
    {
      assert ([o] + rest)[k] == rest[k - 1];
      assert OutputHolds(root, objs[order[k]], rest[k - 1], net, w1, b);
    }
  }

  /** The objects one after another in index order; the first failure ends
      the run. */
  function RunObjectsInOrder(root: Path, objs: seq<Meta.AssetObject>, w: World, net: Network, fetchPanics: bool)
    : (r: (Result<(), Error>, World))
    ensures Grows(w, r.1)
    ensures r.0.Ok? ==> AllStored(root, objs, r.1.fs)
    ensures r.0.Err? ==> exists i :: 0 <= i < |objs| && !ObjectStored(root, objs[i], w.fs)
    ensures r.0.Err? && r.0.error.Download? ==> !fetchPanics
    ensures r.0.Err? ==> r.0.error.Download? || r.0.error.Panic?
    ensures AllStored(root, objs, w.fs) ==> r == (Ok(()), w)
    decreases |objs|
  {
    if |objs| == 0 then (Ok(()), w)
    else
      var (o, w1) := FetchObject(root, objs[0], w, net, fetchPanics);
      if o.Err? then (o, w1)
      else
        var r := RunObjectsInOrder(root, objs[1..], w1, net, fetchPanics);
        assert forall i :: 0 <= i < |objs[1..]| ==> objs[1..][i] == objs[i + 1];
        r
  }

  /** The assets are complete: the index file is stored, decodes, and every
      object it lists is stored. */
  predicate Complete(root: Path, index: Meta.Download, indexPath: Path, fs: map<Path, Bytes>, decode: IndexDecoder)
  {
    var p := Target(index, indexPath);
    p in fs && decode(fs[p]).Some? && AllStored(root, decode(fs[p]).value, fs)
  }

  /** Completeness survives any step that keeps every file and the index's
      bytes. */
  lemma CompleteKept(root: Path, index: Meta.Download, indexPath: Path, a: World, b: World, decode: IndexDecoder)
    requires Complete(root, index, indexPath, a.fs, decode)
    requires Covers(a, b)
    requires Target(index, indexPath) in b.fs && b.fs[Target(index, indexPath)] == a.fs[Target(index, indexPath)]
    ensures Complete(root, index, indexPath, b.fs, decode)
  {
  }

  /** `download_assets` of the current launcher: the index is fetched
      through the cache into `indexes/<assets>.json`, decoded (a bad index
      panics), and its objects run through a pool of 20, the first failure
      in output order being reported once all have run. Success leaves the
      assets complete; complete assets are a no-op. */
  function DownloadAssets(root: Path, index: Meta.Download, id: string, w: World, net: Network, decode: IndexDecoder, choose: Pool.Scheduler)
    : (r: (Result<(), Error>, World))
    ensures Grows(w, r.1)
    ensures r.0.Err? ==> r.0.error.Download? || r.0.error.Panic?
    ensures r.0.Ok? ==> Complete(root, index, IndexPath(root, id), r.1.fs, decode)
    ensures Complete(root, index, IndexPath(root, id), w.fs, decode) ==> r == (Ok(()), w)
  {
    var (got, w1) := DownloadIn(index, IndexPath(root, id), w, net);
    match got
    case Err(e) => (Err(Download(e)), w1)
    case Ok(bytes) =>
      match decode(bytes)
      case None => (Err(Panic(UnwrapErr)), w1)
      case Some(objs) =>
        ObjectStage(root, objs, w1, net, choose)
  }

  /** The objects through a pool of 20: every object runs, then the first
      failure in output order is the result. */
  function ObjectStage(root: Path, objs: seq<Meta.AssetObject>, w: World, net: Network, choose: Pool.Scheduler)
    : (r: (Result<(), Error>, World))
    ensures Grows(w, r.1)
    ensures r.0.Ok? ==> AllStored(root, objs, r.1.fs)
    ensures r.0.Err? ==> r.0.error.Download? || r.0.error.Panic?
    ensures AllStored(root, objs, w.fs) ==> r == (Ok(()), w)
  {
    var order := Pool.Schedule(|objs|, 20, choose).order;
    Pool.ScheduleCovers(|objs|, 20, choose);
    var (outs, w1) := ObjectOutputs(root, objs, order, w, net);
    match outs
    case Err(p) => (Err(p), w1)
    case Ok(os) =>
      var r := Pool.FirstError(os);
      StageOutcome(root, objs, order, os, net, w, w1, r);
      (r, w1)
  }

  /** The reporting loop over complete outputs: success means every object
      is stored, an error is a download error, and a run that needed
      nothing reports success. */
  lemma StageOutcome(root: Path, objs: seq<Meta.AssetObject>, order: seq<nat>, os: seq<Result<(), Error>>, net: Network,
                     w: World, w1: World, r: Result<(), Error>)
    requires forall k :: 0 <= k < |order| ==> order[k] < |objs|
    requires forall i :: 0 <= i < |objs| ==> i in order
    requires |os| == |order|
    requires forall k :: 0 <= k < |order| ==> OutputHolds(root, objs[order[k]], os[k], net, w, w1)
    requires AllStored(root, objs, w.fs) ==> forall k :: 0 <= k < |os| ==> os[k].Ok?
    requires r.Ok? <==> forall k :: 0 <= k < |os| ==> os[k].Ok?
    requires r.Err? ==> exists k :: 0 <= k < |os| && os[k] == r
    ensures r.Ok? ==> AllStored(root, objs, w1.fs)
    ensures r.Err? ==> r.error.Download?
    ensures AllStored(root, objs, w.fs) ==> r == Ok(())
  {
    if r.Ok? {
      forall i | 0 <= i < |objs| ensures ObjectStored(root, objs[i], w1.fs) {
        assert i in order;
        var k :| 0 <= k < |order| && order[k] == i;
        assert OutputHolds(root, objs[order[k]], os[k], net, w, w1);
      }
    }
    if r.Err? {
      var k :| 0 <= k < |os| && os[k] == r;
      assert OutputHolds(root, objs[order[k]], os[k], net, w, w1);
    }
    if AllStored(root, objs, w.fs) {
      assert r.Ok? && r.value == ();
    }
  }

  /** `Client::download_assets` of the older launcher: the index goes
      through the older `download_in`, which keeps any response body
      whatever its status; the objects go through `utils::download::get`,
      which refuses a status that is not a success. The objects run one
      after another and the first failure ends the stage. */
  function LegacyDownloadAssets(root: Path, index: Meta.Download, id: string, w: World, http: Http, decode: IndexDecoder)
    : (r: (Result<(), Error>, World))
    ensures Grows(w, r.1)
    ensures r.0.Ok? ==> Complete(root, index, IndexPath(root, id), r.1.fs, decode)
    ensures Complete(root, index, IndexPath(root, id), w.fs, decode) ==> r == (Ok(()), w)
    ensures Target(index, IndexPath(root, id)) !in w.fs && http(index.url, |w.fetched|).Ok? ==>
      && Target(index, IndexPath(root, id)) in r.1.fs
      && r.1.fs[Target(index, IndexPath(root, id))] == http(index.url, |w.fetched|).value.body
  {
    var (got, w1) := DownloadIn(index, IndexPath(root, id), w, Unchecked(http));
    match got
    case Err(e) => (Err(Download(e)), w1)
    case Ok(bytes) =>
      match decode(bytes)
      case None => (Err(Panic(UnwrapErr)), w1)
      case Some(objs) => RunObjectsInOrder(root, objs, w1, Checked(http), false)
  }

  /** `Download::download_indexs`: the index's own `id` names the index
      file, and a missing `id` hits `todo!()`. No request is checked for
      its status: the index keeps any response body, and an object's body
      is written whatever its status; a failed object request panics. */
  function DownloadIndexes(root: Path, index: Meta.Download, w: World, http: Http, decode: IndexDecoder)
    : (r: (Result<(), Error>, World))
    ensures index.id.None? ==> r == (Err(Panic(NotImplemented)), w)
    ensures Grows(w, r.1)
    ensures r.0.Ok? ==> index.id.Some? && Complete(root, index, IndexPath(root, index.id.value), r.1.fs, decode)
    ensures index.id.Some? && Complete(root, index, IndexPath(root, index.id.value), w.fs, decode) ==> r == (Ok(()), w)
    ensures r.0.Err? && r.0.error.Download? ==>
      && Target(index, IndexPath(root, index.id.value)) !in w.fs
      && http(index.url, |w.fetched|) == Err(r.0.error.cause)
    ensures index.id.Some? && Target(index, IndexPath(root, index.id.value)) !in w.fs && http(index.url, |w.fetched|).Ok? ==>
      && Target(index, IndexPath(root, index.id.value)) in r.1.fs
      && r.1.fs[Target(index, IndexPath(root, index.id.value))] == http(index.url, |w.fetched|).value.body
    ensures r.0.Err? ==> r.0.error.Download? || r.0.error.Panic?
  {
    match index.id
    case None => (Err(Panic(NotImplemented)), w)
    case Some(id) =>
      var (got, w1) := DownloadIn(index, IndexPath(root, id), w, Unchecked(http));
      match got
      case Err(e) => (Err(Download(e)), w1)
      case Ok(bytes) =>
        match decode(bytes)
        case None => (Err(Panic(UnwrapErr)), w1)
        case Some(objs) => RunObjectsInOrder(root, objs, w1, Unchecked(http), true)
  }

  /** As written in the older launcher, an error page served for a missing
      asset index is stored as the index: the stage panics on it, and every
      later run reads the stored page and panics again without a request,
      whatever the server would now answer. */
  lemma LegacyIndexErrorPageSticks(root: Path, index: Meta.Download, id: string, w: World, http: Http, decode: IndexDecoder, later: Http)
    requires Target(index, IndexPath(root, id)) !in w.fs
    requires http(index.url, |w.fetched|).Ok? && !IsSuccess(http(index.url, |w.fetched|).value.status)
    requires decode(http(index.url, |w.fetched|).value.body).None?
    ensures var r := LegacyDownloadAssets(root, index, id, w, http, decode);
      && r.0 == Err(Panic(UnwrapErr))
      && r.1.fs[Target(index, IndexPath(root, id))] == http(index.url, |w.fetched|).value.body
      && LegacyDownloadAssets(root, index, id, r.1, later, decode) == (Err(Panic(UnwrapErr)), r.1)
  {
  }

  /** In the current launcher the same answer is a status error, nothing is
      stored, and the next run asks the server again. */
  lemma CheckedIndexErrorRetried(root: Path, index: Meta.Download, id: string, w: World, http: Http, decode: IndexDecoder,
                                 choose: Pool.Scheduler)
    requires Target(index, IndexPath(root, id)) !in w.fs
    requires http(index.url, |w.fetched|).Ok? && !IsSuccess(http(index.url, |w.fetched|).value.status)
    ensures var r := DownloadAssets(root, index, id, w, Checked(http), decode, choose);
      && r.0 == Err(Download(Status(http(index.url, |w.fetched|).value.status)))
      && r.1 == World(w.fs, w.fetched + [index.url])
      && Target(index, IndexPath(root, id)) !in r.1.fs
  {
  }
}
