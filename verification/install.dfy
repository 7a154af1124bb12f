/** Installing a client into a profile directory: assets, then libraries
    (artifact, then the host's native archive, unpacked into `.natives`),
    then `client.jar`. The current launcher runs objects and libraries
    through bounded pools and reports the first error after all have run;
    the older launcher runs them one after another and stops at the first
    failure. */
module Install {
  import opened Wrappers
  import opened Paths
  import opened Platform
  import opened Cache
  import Meta
  import Archive
  import Assets
  import Pool

  /** The panic of `unwrap()` on a missing classifier. */
  const UnwrapNone: string := "called `Option::unwrap()` on a `None` value"

  /** `path.join(".natives")`. */
  function NativesPath(gameDir: Path): (p: Path)
    ensures Under(p, gameDir) && p[|gameDir|..] == [".natives"]
  {
    gameDir + [".natives"]
  }

  /** `path.join("client.jar")`. */
  function ClientJarPath(gameDir: Path): (p: Path)
    ensures Under(p, gameDir) && p[|gameDir|..] == ["client.jar"]
    ensures p != NativesPath(gameDir)
  {
    gameDir + ["client.jar"]
  }

  /** The library's files are stored: its artifact, if it has one, and the
      host's native archive, if it has one; and the host's classifier key,
      if any, names a classifier. */
  predicate LibStored<R>(lib: Meta.Library<R>, libsRoot: Path, h: Host, fs: map<Path, Bytes>)
  {
    && (lib.downloads.artifact.Some? ==> Target(lib.downloads.artifact.value, libsRoot) in fs)
    && !Meta.PlatformNative(lib, h).MissingClassifier?
    && (Meta.PlatformNative(lib, h).Native? ==> Target(Meta.PlatformNative(lib, h).download, libsRoot) in fs)
  }

  predicate AllLibsStored<R>(libs: seq<Meta.Library<R>>, libsRoot: Path, h: Host, fs: map<Path, Bytes>)
  {
    forall i :: 0 <= i < |libs| ==> LibStored(libs[i], libsRoot, h, fs)
  }

  /** The artifact of a library through the cache. */
  function FetchArtifact<R>(lib: Meta.Library<R>, libsRoot: Path, w: World, net: Network): (r: (Result<(), Error>, World))
    ensures Grows(w, r.1)
    ensures r.0.Ok? ==> (lib.downloads.artifact.Some? ==> Target(lib.downloads.artifact.value, libsRoot) in r.1.fs)
    ensures lib.downloads.artifact.None? ==> r == (Ok(()), w)
    ensures lib.downloads.artifact.Some? && Target(lib.downloads.artifact.value, libsRoot) in w.fs ==> r == (Ok(()), w)
    ensures lib.downloads.artifact.Some? && Target(lib.downloads.artifact.value, libsRoot) !in w.fs ==>
      r.1.fetched == w.fetched + [lib.downloads.artifact.value.url]
  {
    match lib.downloads.artifact
    case None => (Ok(()), w)
    case Some(a) =>
      var (got, w1) := DownloadIn(a, libsRoot, w, net);
      if got.Err? then (Err(Download(got.error)), w1) else (Ok(()), w1)
  }

  /** The requests a library makes, appended to `before` to give `after`:
      at most two, each for the artifact or for the host's native archive,
      so no more than one native archive is fetched. */
  predicate LibRequestsOnly<R>(lib: Meta.Library<R>, h: Host, before: seq<Url>, after: seq<Url>)
  {
    && before <= after && |after| <= |before| + 2
    && forall n :: |before| <= n < |after| ==> LibUrl(lib, h, after[n])
  }

  /** An artifact request, if any, followed by a native request, if any,
      are requests of the library. */
  lemma LibRequestsCompose<R>(lib: Meta.Library<R>, h: Host, a: seq<Url>, b: seq<Url>, c: seq<Url>)
    requires b == a || (lib.downloads.artifact.Some? && b == a + [lib.downloads.artifact.value.url])
    requires b <= c && |c| <= |b| + 1
    requires |c| > |b| ==> Meta.PlatformNative(lib, h).Native? && c[|b|] == Meta.PlatformNative(lib, h).download.url
    ensures LibRequestsOnly(lib, h, a, c)
  {
    forall n | |a| <= n < |c| ensures LibUrl(lib, h, c[n]) {
      if n < |b| {
        assert c[n] == b[n];
      }
    }
  }

  /** The URL of the library's artifact or of its host native archive. */
  predicate LibUrl<R>(lib: Meta.Library<R>, h: Host, u: Url)
  {
    || (lib.downloads.artifact.Some? && u == lib.downloads.artifact.value.url)
    || (Meta.PlatformNative(lib, h).Native? && u == Meta.PlatformNative(lib, h).download.url)
  }

  /** Every request between `before` and `after` is for a file of one of
      the libraries. */
  predicate LibsRequestsOnly<R>(libs: seq<Meta.Library<R>>, h: Host, before: seq<Url>, after: seq<Url>)
  {
    before <= after && forall n :: |before| <= n < |after| ==> exists i :: 0 <= i < |libs| && LibUrl(libs[i], h, after[n])
  }

  lemma LibsRequestsStep<R>(libs: seq<Meta.Library<R>>, h: Host, a: seq<Url>, b: seq<Url>, c: seq<Url>)
    requires |libs| > 0
    requires LibRequestsOnly(libs[0], h, a, b)
    requires LibsRequestsOnly(libs[1..], h, b, c)
    ensures LibsRequestsOnly(libs, h, a, c)
  {
    forall n | |a| <= n < |c| ensures exists i :: 0 <= i < |libs| && LibUrl(libs[i], h, c[n]) {
      if n < |b| {
        assert c[n] == b[n];
        assert LibUrl(libs[0], h, c[n]);
      } else {
        var i :| 0 <= i < |libs[1..]| && LibUrl(libs[1..][i], h, c[n]);
        assert libs[1..][i] == libs[i + 1];
      }
    }
  }

  /** The host's native archive of a library, once its artifact is in:
      a host key naming no classifier panics; the archive is fetched
      through the cache and, when the library has extraction rules,
      unpacked into `<game>/.natives`. */
  function FetchNative<R>(lib: Meta.Library<R>, libsRoot: Path, gameDir: Path, h: Host, w: World, net: Network,
                          unzip: Archive.Unzip, dirs: Archive.DirTest, zipPanics: bool): (r: (Result<(), Error>, World))
    ensures Covers(w, r.1)
    ensures KeptOutside(w.fs, r.1.fs, NativesPath(gameDir))
    ensures r.0.Ok? ==> !Meta.PlatformNative(lib, h).MissingClassifier?
    ensures r.0.Ok? && Meta.PlatformNative(lib, h).Native? ==> Target(Meta.PlatformNative(lib, h).download, libsRoot) in r.1.fs
    ensures Meta.PlatformNative(lib, h).Native? && Target(Meta.PlatformNative(lib, h).download, libsRoot) in w.fs ==>
      r.1.fetched == w.fetched
    ensures !Meta.PlatformNative(lib, h).Native? ==> r.1 == w
    ensures r.0.Err? && r.0.error.Zip? ==> !zipPanics && lib.extract.Some?
    ensures r.0.Err? ==> || r.0.error.Download?
                         || r.0.error.Zip?
                         || r.0.error == Panic(UnwrapNone)
                         || (zipPanics && r.0.error == Panic(Assets.UnwrapErr))
    ensures r.0 == Err(Panic(UnwrapNone)) ==> Meta.PlatformNative(lib, h).MissingClassifier?
    ensures w.fetched <= r.1.fetched && |r.1.fetched| <= |w.fetched| + 1
    ensures |r.1.fetched| > |w.fetched| ==>
      Meta.PlatformNative(lib, h).Native? && r.1.fetched[|w.fetched|] == Meta.PlatformNative(lib, h).download.url
    ensures lib.extract.None? ==> Grows(w, r.1)
    ensures r.0.Err? && r.0.error.Download? ==> Grows(w, r.1)
  {
    match Meta.PlatformNative(lib, h)
    case NoNative => (Ok(()), w)
    case MissingClassifier(_) => (Err(Panic(UnwrapNone)), w)
    case Native(d) =>
      var (got, w2) := DownloadIn(d, libsRoot, w, net);
      match got
      case Err(e) => (Err(Download(e)), w2)
      case Ok(bytes) =>
        if lib.extract.None? then (Ok(()), w2)
        else
          var (x, fs3) := Archive.Extract(bytes, NativesPath(gameDir), lib.extract.value.exclude, dirs, w2.fs, unzip);
          var w3 := World(fs3, w2.fetched);
          if x.Err? then (Err(if zipPanics then Panic(Assets.UnwrapErr) else Zip(x.error)), w3)
          else (Ok(()), w3)
  }

  /** One library: the artifact first; then the host's native archive,
      which is unpacked into `<game>/.natives` with the library's exclude
      list when the library has extraction rules, `dirs` deciding which
      entries are directories. A host key naming no classifier panics; an
      extraction failure is an error, or with `zipPanics` a panic. The
      artifact is requested before the native archive, a failed artifact
      ends the library with no further request, at most one native archive
      is fetched, and nothing is extracted without both a host native and
      extraction rules. Only `.natives` can see files replaced, and nothing
      is requested when the library's files are stored. */
  function FetchLibrary<R>(lib: Meta.Library<R>, libsRoot: Path, gameDir: Path, h: Host, w: World, net: Network,
                           unzip: Archive.Unzip, dirs: Archive.DirTest, zipPanics: bool): (r: (Result<(), Error>, World))
    ensures Covers(w, r.1)
    ensures KeptOutside(w.fs, r.1.fs, NativesPath(gameDir))
    ensures r.0.Ok? ==> LibStored(lib, libsRoot, h, r.1.fs)
    ensures LibStored(lib, libsRoot, h, w.fs) ==> r.1.fetched == w.fetched
    ensures r.0.Err? && r.0.error.Zip? ==> !zipPanics && lib.extract.Some?
    ensures r.0.Err? ==> || r.0.error.Download?
                         || r.0.error.Zip?
                         || r.0.error == Panic(UnwrapNone)
                         || (zipPanics && r.0.error == Panic(Assets.UnwrapErr))
    ensures r.0 == Err(Panic(UnwrapNone)) ==> Meta.PlatformNative(lib, h).MissingClassifier?
    ensures LibRequestsOnly(lib, h, w.fetched, r.1.fetched)
    ensures lib.downloads.artifact.Some? && Target(lib.downloads.artifact.value, libsRoot) !in w.fs ==>
      |r.1.fetched| > |w.fetched| && r.1.fetched[|w.fetched|] == lib.downloads.artifact.value.url
    ensures var a := lib.downloads.artifact;
      a.Some? && Target(a.value, libsRoot) !in w.fs && net(a.value.url, |w.fetched|).Err? ==>
        r == (Err(Download(net(a.value.url, |w.fetched|).error)), World(w.fs, w.fetched + [a.value.url]))
    ensures lib.extract.None? || !Meta.PlatformNative(lib, h).Native? ==> Grows(w, r.1)
    ensures r.0.Err? && r.0.error.Download? ==> Grows(w, r.1)
  {
    var (a, w1) := FetchArtifact(lib, libsRoot, w, net);
    if a.Err? then (a, w1)
    else
      var r := FetchNative(lib, libsRoot, gameDir, h, w1, net, unzip, dirs, zipPanics);
      LibRequestsCompose(lib, h, w.fetched, w1.fetched, r.1.fetched);
      assert lib.extract.None? || !Meta.PlatformNative(lib, h).Native? || (r.0.Err? && r.0.error.Download?) ==> Grows(w, r.1) by {
        if lib.extract.None? || !Meta.PlatformNative(lib, h).Native? || (r.0.Err? && r.0.error.Download?) {
          GrowsTransitive(w, w1, r.1);
        }
      }
      r
  }

  lemma AllLibsStoredCovers<R>(libs: seq<Meta.Library<R>>, libsRoot: Path, h: Host, a: map<Path, Bytes>, b: map<Path, Bytes>)
    requires AllLibsStored(libs, libsRoot, h, a) && a.Keys <= b.Keys
    ensures AllLibsStored(libs, libsRoot, h, b)
  {
  }

  /** What one library's output says once the run is over: a success
      leaves the library stored; a failure is a download or an extraction
      error. */
  predicate LibOutputHolds<R>(lib: Meta.Library<R>, o: Result<(), Error>, libsRoot: Path, h: Host, fs: map<Path, Bytes>)
  {
    && (o.Ok? ==> LibStored(lib, libsRoot, h, fs))
    && (o.Err? ==> o.error.Download? || o.error.Zip?)
  }

  /** Output `k` is the output of library `order[k]`. */
  predicate LibOutputsHold<R>(libs: seq<Meta.Library<R>>, order: seq<nat>, outs: seq<Result<(), Error>>, libsRoot: Path, h: Host,
                              fs: map<Path, Bytes>)
    requires forall k :: 0 <= k < |order| ==> order[k] < |libs|
  {
    |outs| == |order| && forall k :: 0 <= k < |order| ==> LibOutputHolds(libs[order[k]], outs[k], libsRoot, h, fs)
  }

  /** Some library of the run has a host key naming no classifier. */
  predicate SomeMissingClassifier<R>(libs: seq<Meta.Library<R>>, order: seq<nat>, h: Host)
    requires forall k :: 0 <= k < |order| ==> order[k] < |libs|
  {
    exists k :: 0 <= k < |order| && Meta.PlatformNative(libs[order[k]], h).MissingClassifier?
  }

  /** `download_futures` over the libraries, in the pool's output order.
      Every library runs, whatever the others did, and leaves its output;
      a host key naming no classifier panics and ends the run at once. */
  function LibOutputs<R>(libs: seq<Meta.Library<R>>, order: seq<nat>, libsRoot: Path, gameDir: Path, h: Host,
                         w: World, net: Network, unzip: Archive.Unzip): (r: (Result<seq<Result<(), Error>>, Error>, World))
    requires forall k :: 0 <= k < |order| ==> order[k] < |libs|
    ensures Covers(w, r.1)
    ensures KeptOutside(w.fs, r.1.fs, NativesPath(gameDir))
    ensures r.0.Err? ==> r.0.error == Panic(UnwrapNone) && SomeMissingClassifier(libs, order, h)
    ensures !SomeMissingClassifier(libs, order, h) ==> r.0.Ok?
    ensures r.0.Ok? ==> LibOutputsHold(libs, order, r.0.value, libsRoot, h, r.1.fs)
    ensures AllLibsStored(libs, libsRoot, h, w.fs) ==> r.1.fetched == w.fetched
    decreases |order|
  {
    if |order| == 0 then (Ok([]), w)
    else
      var (o, w1) := FetchLibrary(libs[order[0]], libsRoot, gameDir, h, w, net, unzip, Archive.EntryFlag, false);
      if o.Err? && o.error.Panic? then (o.PropagateFailure(), w1)
      else
        var r := LibOutputs(libs, order[1..], libsRoot, gameDir, h, w1, net, unzip);
        LibOutputsStep(libs, order, o, w, w1, r.0, r.1, libsRoot, h);
        assert AllLibsStored(libs, libsRoot, h, w.fs) ==> AllLibsStored(libs, libsRoot, h, w1.fs) by {
          if AllLibsStored(libs, libsRoot, h, w.fs) {
            AllLibsStoredCovers(libs, libsRoot, h, w.fs, w1.fs);
          }
        }
        if r.0.Err? then r else (Ok([o] + r.0.value), r.1)
  }

  lemma LibOutputsStep<R>(libs: seq<Meta.Library<R>>, order: seq<nat>, o: Result<(), Error>, w: World, w1: World,
                          rest: Result<seq<Result<(), Error>>, Error>, b: World, libsRoot: Path, h: Host)
    requires |order| > 0 && forall k :: 0 <= k < |order| ==> order[k] < |libs|
    requires o.Ok? ==> LibStored(libs[order[0]], libsRoot, h, w1.fs)
    requires o.Err? ==> o.error.Download? || o.error.Zip?
    requires w1.fs.Keys <= b.fs.Keys
    requires rest.Err? ==> rest.error == Panic(UnwrapNone) && SomeMissingClassifier(libs, order[1..], h)
    requires !SomeMissingClassifier(libs, order[1..], h) ==> rest.Ok?
    requires rest.Ok? ==> LibOutputsHold(libs, order[1..], rest.value, libsRoot, h, b.fs)
    requires Meta.PlatformNative(libs[order[0]], h).MissingClassifier? ==> o.Err?
    ensures rest.Err? ==> SomeMissingClassifier(libs, order, h)
    ensures !SomeMissingClassifier(libs, order, h) ==> rest.Ok?
    ensures rest.Ok? ==> LibOutputsHold(libs, order, [o] + rest.value, libsRoot, h, b.fs)
  {
    assert forall k :: 0 <= k < |order[1..]| ==> order[1..][k] == order[k + 1];
    if rest.Err? {
      var k :| 0 <= k < |order[1..]| && Meta.PlatformNative(libs[order[1..][k]], h).MissingClassifier?;
      assert Meta.PlatformNative(libs[order[k + 1]], h).MissingClassifier?;
    }
    if rest.Ok? {
      var outs := [o] + rest.value;
      assert LibOutputHolds(libs[order[0]], o, libsRoot, h, b.fs);
      forall k | 1 <= k < |order| ensures LibOutputHolds(libs[order[k]], outs[k], libsRoot, h, b.fs) {
        assert outs[k] == rest.value[k - 1] && order[1..][k - 1] == order[k];
      }
    }
  }

  /** `install_libs` of the current launcher: the allowed libraries through
      a pool of 5, every one running, then the first failure in output
      order. Success leaves every allowed library stored; with all of them
      stored nothing is requested. */
  function InstallLibs<R(==,!new)>(libraries: seq<Meta.Library<R>>, allowed: R -> bool, libsRoot: Path, gameDir: Path, h: Host,
                                   w: World, net: Network, unzip: Archive.Unzip, choose: Pool.Scheduler): (r: (Result<(), Error>, World))
    ensures Covers(w, r.1)
    ensures KeptOutside(w.fs, r.1.fs, NativesPath(gameDir))
    ensures r.0.Ok? ==> AllLibsStored(Meta.Libs(libraries, allowed), libsRoot, h, r.1.fs)
    ensures AllLibsStored(Meta.Libs(libraries, allowed), libsRoot, h, w.fs) ==> r.1.fetched == w.fetched
    ensures r.0.Err? ==> r.0.error.Download? || r.0.error.Zip? || r.0.error == Panic(UnwrapNone)
  {
    var libs := Meta.Libs(libraries, allowed);
    var order := Pool.Schedule(|libs|, 5, choose).order;
    Pool.ScheduleCovers(|libs|, 5, choose);
    var (outs, w1) := LibOutputs(libs, order, libsRoot, gameDir, h, w, net, unzip);
    match outs
    case Err(p) => (Err(p), w1)
    case Ok(os) =>
      var r := Pool.FirstError(os);
      assert r.Ok? ==> AllLibsStored(libs, libsRoot, h, w1.fs) by {
        if r.Ok? {
          forall i | 0 <= i < |libs| ensures LibStored(libs[i], libsRoot, h, w1.fs) {
            assert i in order;
            var k :| 0 <= k < |order| && order[k] == i;
            assert LibOutputHolds(libs[order[k]], os[k], libsRoot, h, w1.fs);
          }
        }
      }
      assert r.Err? ==> r.error.Download? || r.error.Zip? by {
        if r.Err? {
          var k :| 0 <= k < |os| && os[k] == r && forall j :: 0 <= j < k ==> os[j].Ok?;
          assert LibOutputHolds(libs[order[k]], os[k], libsRoot, h, w1.fs);
        }
      }
      (r, w1)
  }

  /** The libraries one after another; the first failure ends the run. */
  function RunLibsInOrder<R>(libs: seq<Meta.Library<R>>, libsRoot: Path, gameDir: Path, h: Host,
                             w: World, net: Network, unzip: Archive.Unzip, dirs: Archive.DirTest, zipPanics: bool): (r: (Result<(), Error>, World))
    ensures Covers(w, r.1)
    ensures KeptOutside(w.fs, r.1.fs, NativesPath(gameDir))
    ensures r.0.Ok? ==> AllLibsStored(libs, libsRoot, h, r.1.fs)
    ensures AllLibsStored(libs, libsRoot, h, w.fs) ==> r.1.fetched == w.fetched
    ensures r.0.Err? && r.0.error.Zip? ==> !zipPanics
    ensures LibsRequestsOnly(libs, h, w.fetched, r.1.fetched)
    decreases |libs|
  {
    if |libs| == 0 then (Ok(()), w)
    else
      var (o, w1) := FetchLibrary(libs[0], libsRoot, gameDir, h, w, net, unzip, dirs, zipPanics);
      LibsRequestsStep(libs, h, w.fetched, w1.fetched, w1.fetched);
      if o.Err? then (o, w1)
      else
        var r := RunLibsInOrder(libs[1..], libsRoot, gameDir, h, w1, net, unzip, dirs, zipPanics);
        LibsRequestsStep(libs, h, w.fetched, w1.fetched, r.1.fetched);
        assert forall i :: 0 <= i < |libs[1..]| ==> libs[1..][i] == libs[i + 1];
        assert AllLibsStored(libs, libsRoot, h, w.fs) ==> AllLibsStored(libs[1..], libsRoot, h, w1.fs) by {
          if AllLibsStored(libs, libsRoot, h, w.fs) {
            AllLibsStoredCovers(libs, libsRoot, h, w.fs, w1.fs);
          }
        }
        r
  }

  /** The library loop of `Client::download` in the older JSON model: every
      declared library is visited and the disallowed ones are passed over
      in place; a failed extraction panics. */
  function DownloadLibraries<R(==,!new)>(libraries: seq<Meta.Library<R>>, allowed: R -> bool, libsRoot: Path, gameDir: Path, h: Host,
                                         w: World, net: Network, unzip: Archive.Unzip, dirs: Archive.DirTest): (r: (Result<(), Error>, World))
    decreases |libraries|
  {
    if |libraries| == 0 then (Ok(()), w)
    else if !Meta.LibraryAllowed(libraries[0], allowed) then
      DownloadLibraries(libraries[1..], allowed, libsRoot, gameDir, h, w, net, unzip, dirs)
    else
      var (o, w1) := FetchLibrary(libraries[0], libsRoot, gameDir, h, w, net, unzip, dirs, true);
      if o.Err? then (o, w1) else DownloadLibraries(libraries[1..], allowed, libsRoot, gameDir, h, w1, net, unzip, dirs)
  }

  /** Skipping disallowed libraries in place is the same as running the
      filtered list. */
  lemma {:induction false} DownloadLibrariesFiltered<R(!new)>(libraries: seq<Meta.Library<R>>, allowed: R -> bool, libsRoot: Path, gameDir: Path, h: Host,
                                                               w: World, net: Network, unzip: Archive.Unzip, dirs: Archive.DirTest)
    ensures DownloadLibraries(libraries, allowed, libsRoot, gameDir, h, w, net, unzip, dirs)
         == RunLibsInOrder(Meta.Libs(libraries, allowed), libsRoot, gameDir, h, w, net, unzip, dirs, true)
    decreases |libraries|
  {
    if |libraries| > 0 {
      var libs := Meta.Libs(libraries, allowed);
      if Meta.LibraryAllowed(libraries[0], allowed) {
        assert libs[0] == libraries[0] && libs[1..] == Meta.Libs(libraries[1..], allowed);
        var (o, w1) := FetchLibrary(libraries[0], libsRoot, gameDir, h, w, net, unzip, dirs, true);
        if o.Ok? {
          DownloadLibrariesFiltered(libraries[1..], allowed, libsRoot, gameDir, h, w1, net, unzip, dirs);
        }
      } else {
        DownloadLibrariesFiltered(libraries[1..], allowed, libsRoot, gameDir, h, w, net, unzip, dirs);
      }
    }
  }

  /** `client.jar` through the cache, below the profile directory. */
  function FetchClientJar(client: Meta.Download, gameDir: Path, w: World, net: Network): (r: (Result<(), Error>, World))
    ensures Grows(w, r.1)
    ensures r.0.Ok? <==> Target(client, ClientJarPath(gameDir)) in r.1.fs
    ensures Target(client, ClientJarPath(gameDir)) in w.fs ==> r == (Ok(()), w)
  {
    var (got, w1) := DownloadIn(client, ClientJarPath(gameDir), w, net);
    if got.Err? then (Err(Download(got.error)), w1) else (Ok(()), w1)
  }

  /** The installation inputs that stay fixed between runs. */
  datatype Setup<!R> = Setup(
    assetsRoot: Path,
    libsRoot: Path,
    gameDir: Path,
    host: Host,
    allowed: R -> bool,
    decode: Assets.IndexDecoder,
    unzip: Archive.Unzip)

  /** `install_client`: assets, then libraries, then `client.jar`; the first
      failing stage ends the install with its error. A successful install
      leaves the client jar and every allowed library stored, and the
      assets complete unless the asset index lives inside `.natives`, where
      the library stage could have replaced it. */
  function InstallClient<R(==,!new)>(s: Setup<R>, client: Meta.Client<R>, w: World, net: Network, choose: Pool.Scheduler)
    : (r: (Result<(), Error>, World))
    ensures Covers(w, r.1)
    ensures r.0.Ok? ==> Target(client.clientDownload, ClientJarPath(s.gameDir)) in r.1.fs
    ensures r.0.Ok? ==> AllLibsStored(Meta.Libs(client.libraries, s.allowed), s.libsRoot, s.host, r.1.fs)
    ensures r.0.Ok? && !Under(Target(client.assetIndex, Assets.IndexPath(s.assetsRoot, client.assets)), NativesPath(s.gameDir)) ==>
      Assets.Complete(s.assetsRoot, client.assetIndex, Assets.IndexPath(s.assetsRoot, client.assets), r.1.fs, s.decode)
  {
    var (a, w1) := Assets.DownloadAssets(s.assetsRoot, client.assetIndex, client.assets, w, net, s.decode, choose);
    if a.Err? then (a, w1)
    else
      var (l, w2) := InstallLibs(client.libraries, s.allowed, s.libsRoot, s.gameDir, s.host, w1, net, s.unzip, choose);
      if l.Err? then (l, w2)
      else
        var (c, w3) := FetchClientJar(client.clientDownload, s.gameDir, w2, net);
        AllLibsStoredCovers(Meta.Libs(client.libraries, s.allowed), s.libsRoot, s.host, w2.fs, w3.fs);
        var indexPath := Assets.IndexPath(s.assetsRoot, client.assets);
        if !Under(Target(client.assetIndex, indexPath), NativesPath(s.gameDir)) then
          Assets.CompleteKept(s.assetsRoot, client.assetIndex, indexPath, w1, w3, s.decode);
          (c, w3)
        else (c, w3)
  }

  /** The stage order: a failing asset stage is the whole result, the
      library stage runs on the world the asset stage left, and the client
      jar is requested only after both succeeded. */
  lemma InstallStages<R(!new)>(s: Setup<R>, client: Meta.Client<R>, w: World, net: Network, choose: Pool.Scheduler)
    ensures var a := Assets.DownloadAssets(s.assetsRoot, client.assetIndex, client.assets, w, net, s.decode, choose);
      var l := InstallLibs(client.libraries, s.allowed, s.libsRoot, s.gameDir, s.host, a.1, net, s.unzip, choose);
      var r := InstallClient(s, client, w, net, choose);
      && (a.0.Err? ==> r == a)
      && (a.0.Ok? && l.0.Err? ==> r == l)
      && (a.0.Ok? && l.0.Ok? ==> r == FetchClientJar(client.clientDownload, s.gameDir, l.1, net))
      && w.fetched <= a.1.fetched <= r.1.fetched
  {
  }

  /** A second install after a successful one requests nothing, whatever
      the network and the scheduler do this time, provided the asset index
      does not live inside `.natives`, where extraction could replace it. */
  lemma SecondInstallFetchesNothing<R(!new)>(s: Setup<R>, client: Meta.Client<R>, w: World, net: Network, choose: Pool.Scheduler,
                                             net': Network, choose': Pool.Scheduler)
    requires InstallClient(s, client, w, net, choose).0.Ok?
    requires !Under(Target(client.assetIndex, Assets.IndexPath(s.assetsRoot, client.assets)), NativesPath(s.gameDir))
    ensures var w' := InstallClient(s, client, w, net, choose).1;
      InstallClient(s, client, w', net', choose').1.fetched == w'.fetched
  {
    var indexPath := Assets.IndexPath(s.assetsRoot, client.assets);
    var libs := Meta.Libs(client.libraries, s.allowed);
    var a := Assets.DownloadAssets(s.assetsRoot, client.assetIndex, client.assets, w, net, s.decode, choose);
    var l := InstallLibs(client.libraries, s.allowed, s.libsRoot, s.gameDir, s.host, a.1, net, s.unzip, choose);
    var c := FetchClientJar(client.clientDownload, s.gameDir, l.1, net);
    var w' := c.1;
    assert InstallClient(s, client, w, net, choose) == c;
    // The assets stay complete: every file is kept, and the index's bytes
    // are outside `.natives`.
    Assets.CompleteKept(s.assetsRoot, client.assetIndex, indexPath, a.1, w', s.decode);
    // Second run: the asset stage is a no-op, the library stage requests
    // nothing, and the client jar is a hit.
    var a2 := Assets.DownloadAssets(s.assetsRoot, client.assetIndex, client.assets, w', net', s.decode, choose');
    assert a2 == (Ok(()), w');
    var l2 := InstallLibs(client.libraries, s.allowed, s.libsRoot, s.gameDir, s.host, w', net', s.unzip, choose');
    AllLibsStoredCovers(libs, s.libsRoot, s.host, l.1.fs, w'.fs);
    assert l2.1.fetched == w'.fetched;
    if l2.0.Ok? {
      assert Target(client.clientDownload, ClientJarPath(s.gameDir)) in l2.1.fs;
    }
  }

  /** `Client::install` of the older launcher: the same three stages, each
      run one item after another. Libraries and `client.jar` go through the
      older `download_in`, which keeps a response body whatever its status,
      so a status error can only come from an asset object. */
  function LegacyInstall<R(==,!new)>(s: Setup<R>, client: Meta.Client<R>, w: World, http: Http)
    : (r: (Result<(), Error>, World))
    ensures Covers(w, r.1)
    ensures r.0.Ok? ==> Target(client.clientDownload, ClientJarPath(s.gameDir)) in r.1.fs
    ensures r.0.Ok? ==> AllLibsStored(Meta.Libs(client.libraries, s.allowed), s.libsRoot, s.host, r.1.fs)
    ensures r.0.Ok? && !Under(Target(client.assetIndex, Assets.IndexPath(s.assetsRoot, client.assets)), NativesPath(s.gameDir)) ==>
      Assets.Complete(s.assetsRoot, client.assetIndex, Assets.IndexPath(s.assetsRoot, client.assets), r.1.fs, s.decode)
    ensures r.0.Err? && r.0.error.Download? && r.0.error.cause.Status? ==>
      r.0 == Assets.LegacyDownloadAssets(s.assetsRoot, client.assetIndex, client.assets, w, http, s.decode).0
  {
    var (a, w1) := Assets.LegacyDownloadAssets(s.assetsRoot, client.assetIndex, client.assets, w, http, s.decode);
    if a.Err? then (a, w1)
    else
      var (l, w2) := RunLibsInOrder(Meta.Libs(client.libraries, s.allowed), s.libsRoot, s.gameDir, s.host, w1, Unchecked(http),
                                    s.unzip, Archive.EntryFlag, false);
      if l.Err? then
        UncheckedNoStatus(Meta.Libs(client.libraries, s.allowed), s.libsRoot, s.gameDir, s.host, w1, http, s.unzip, Archive.EntryFlag, false);
        (l, w2)
      else
        var (c, w3) := FetchClientJar(client.clientDownload, s.gameDir, w2, Unchecked(http));
        JarNoStatus(client.clientDownload, s.gameDir, w2, http);
        AllLibsStoredCovers(Meta.Libs(client.libraries, s.allowed), s.libsRoot, s.host, w2.fs, w3.fs);
        var indexPath := Assets.IndexPath(s.assetsRoot, client.assets);
        if !Under(Target(client.assetIndex, indexPath), NativesPath(s.gameDir)) then
          Assets.CompleteKept(s.assetsRoot, client.assetIndex, indexPath, w1, w3, s.decode);
          (c, w3)
        else (c, w3)
  }

  /** `Client::download` of the older JSON model: the index named by the
      asset index's own id, the library loop that skips disallowed
      libraries in place and panics on a failed extraction, then
      `client.jar`. No request is checked for its status, and `extract`
      takes an entry for a directory when the working directory holds a
      directory of that name (`cwdIsDir`). */
  function LegacyDownload<R(==,!new)>(s: Setup<R>, client: Meta.Client<R>, w: World, http: Http, cwdIsDir: Path -> bool)
    : (r: (Result<(), Error>, World))
    ensures Covers(w, r.1)
    ensures client.assetIndex.id.None? ==> r == (Err(Panic(Assets.NotImplemented)), w)
    ensures r.0.Ok? ==> Target(client.clientDownload, ClientJarPath(s.gameDir)) in r.1.fs
    ensures r.0.Ok? ==> AllLibsStored(Meta.Libs(client.libraries, s.allowed), s.libsRoot, s.host, r.1.fs)
    ensures r.0.Err? ==> !r.0.error.Zip?
    ensures r.0.Err? && r.0.error.Download? ==> !r.0.error.cause.Status?
    ensures r.0.Ok? ==> client.assetIndex.id.Some?
    ensures r.0.Ok? && client.assetIndex.id.Some?
            && !Under(Target(client.assetIndex, Assets.IndexPath(s.assetsRoot, client.assetIndex.id.value)), NativesPath(s.gameDir)) ==>
      Assets.Complete(s.assetsRoot, client.assetIndex, Assets.IndexPath(s.assetsRoot, client.assetIndex.id.value), r.1.fs, s.decode)
  {
    var net := Unchecked(http);
    var dirs := Archive.WorkingDir(cwdIsDir);
    var (a, w1) := Assets.DownloadIndexes(s.assetsRoot, client.assetIndex, w, http, s.decode);
    if a.Err? then (a, w1)
    else
      var (l, w2) := DownloadLibraries(client.libraries, s.allowed, s.libsRoot, s.gameDir, s.host, w1, net, s.unzip, dirs);
      DownloadLibrariesFiltered(client.libraries, s.allowed, s.libsRoot, s.gameDir, s.host, w1, net, s.unzip, dirs);
      if l.Err? then
        UncheckedNoStatus(Meta.Libs(client.libraries, s.allowed), s.libsRoot, s.gameDir, s.host, w1, http, s.unzip, dirs, true);
        (l, w2)
      else
        var (c, w3) := FetchClientJar(client.clientDownload, s.gameDir, w2, net);
        JarNoStatus(client.clientDownload, s.gameDir, w2, http);
        AllLibsStoredCovers(Meta.Libs(client.libraries, s.allowed), s.libsRoot, s.host, w2.fs, w3.fs);
        var indexPath := Assets.IndexPath(s.assetsRoot, client.assetIndex.id.value);
        if !Under(Target(client.assetIndex, indexPath), NativesPath(s.gameDir)) then
          Assets.CompleteKept(s.assetsRoot, client.assetIndex, indexPath, w1, w3, s.decode);
          (c, w3)
        else (c, w3)
  }

  /** The stage order of `Client::install` in the older launcher: a failing
      asset stage is the whole result, the library stage runs on the world
      the asset stage left, and `client.jar` is requested only after both
      succeeded. */
  lemma LegacyInstallStages<R(!new)>(s: Setup<R>, client: Meta.Client<R>, w: World, http: Http)
    ensures var a := Assets.LegacyDownloadAssets(s.assetsRoot, client.assetIndex, client.assets, w, http, s.decode);
      var l := RunLibsInOrder(Meta.Libs(client.libraries, s.allowed), s.libsRoot, s.gameDir, s.host, a.1, Unchecked(http),
                              s.unzip, Archive.EntryFlag, false);
      var r := LegacyInstall(s, client, w, http);
      && (a.0.Err? ==> r == a)
      && (a.0.Ok? && l.0.Err? ==> r == l)
      && (a.0.Ok? && l.0.Ok? ==> r == FetchClientJar(client.clientDownload, s.gameDir, l.1, Unchecked(http)))
      && w.fetched <= a.1.fetched <= r.1.fetched
  {
  }

  /** The stage order of `Client::download` in the older JSON model: the
      index stage, then the library loop on the world it left, then
      `client.jar` once both succeeded. */
  lemma LegacyDownloadStages<R(!new)>(s: Setup<R>, client: Meta.Client<R>, w: World, http: Http, cwdIsDir: Path -> bool)
    ensures var a := Assets.DownloadIndexes(s.assetsRoot, client.assetIndex, w, http, s.decode);
      var l := DownloadLibraries(client.libraries, s.allowed, s.libsRoot, s.gameDir, s.host, a.1, Unchecked(http), s.unzip,
                                 Archive.WorkingDir(cwdIsDir));
      var r := LegacyDownload(s, client, w, http, cwdIsDir);
      && (a.0.Err? ==> r == a)
      && (a.0.Ok? && l.0.Err? ==> r == l)
      && (a.0.Ok? && l.0.Ok? ==> r == FetchClientJar(client.clientDownload, s.gameDir, l.1, Unchecked(http)))
      && w.fetched <= a.1.fetched <= r.1.fetched
  {
    var a := Assets.DownloadIndexes(s.assetsRoot, client.assetIndex, w, http, s.decode);
    if a.0.Ok? {
      var dirs := Archive.WorkingDir(cwdIsDir);
      var l := DownloadLibraries(client.libraries, s.allowed, s.libsRoot, s.gameDir, s.host, a.1, Unchecked(http), s.unzip, dirs);
      DownloadLibrariesFiltered(client.libraries, s.allowed, s.libsRoot, s.gameDir, s.host, a.1, Unchecked(http), s.unzip, dirs);
      assert a.1.fetched <= l.1.fetched;
    }
  }

  /** Through the older `download_in`, the library stage never reports a
      status error: only a transport failure is a download error. */
  lemma {:induction false} UncheckedNoStatus<R>(libs: seq<Meta.Library<R>>, libsRoot: Path, gameDir: Path, h: Host,
                                                w: World, http: Http, unzip: Archive.Unzip, dirs: Archive.DirTest, zipPanics: bool)
    ensures var r := RunLibsInOrder(libs, libsRoot, gameDir, h, w, Unchecked(http), unzip, dirs, zipPanics);
      r.0.Err? && r.0.error.Download? ==> !r.0.error.cause.Status?
    decreases |libs|
  {
    if |libs| > 0 {
      var (o, w1) := FetchLibrary(libs[0], libsRoot, gameDir, h, w, Unchecked(http), unzip, dirs, zipPanics);
      if o.Err? {
        LibraryNoStatus(libs[0], libsRoot, gameDir, h, w, http, unzip, dirs, zipPanics);
      } else {
        UncheckedNoStatus(libs[1..], libsRoot, gameDir, h, w1, http, unzip, dirs, zipPanics);
      }
    }
  }

  /** One library through the older `download_in`: a download error is a
      transport failure of one of its requests. */
  lemma LibraryNoStatus<R>(lib: Meta.Library<R>, libsRoot: Path, gameDir: Path, h: Host,
                           w: World, http: Http, unzip: Archive.Unzip, dirs: Archive.DirTest, zipPanics: bool)
    ensures var r := FetchLibrary(lib, libsRoot, gameDir, h, w, Unchecked(http), unzip, dirs, zipPanics);
      r.0.Err? && r.0.error.Download? ==> !r.0.error.cause.Status?
  {
    var net := Unchecked(http);
    var (a, w1) := FetchArtifact(lib, libsRoot, w, net);
    if a.Err? && lib.downloads.artifact.Some? {
      var d := lib.downloads.artifact.value;
      assert net(d.url, |w.fetched|).Err?;
    }
    if a.Ok? && Meta.PlatformNative(lib, h).Native? {
      var d := Meta.PlatformNative(lib, h).download;
      assert DownloadIn(d, libsRoot, w1, net).0.Err? ==> net(d.url, |w1.fetched|).Err?;
    }
  }

  /** `client.jar` through the older `download_in`: a failure is a
      transport failure, never a status. */
  lemma JarNoStatus(client: Meta.Download, gameDir: Path, w: World, http: Http)
    ensures var r := FetchClientJar(client, gameDir, w, Unchecked(http));
      r.0.Err? ==> r.0.error.Download? && !r.0.error.cause.Status?
  {
    var p := Target(client, ClientJarPath(gameDir));
    if p !in w.fs {
      assert DownloadIn(client, ClientJarPath(gameDir), w, Unchecked(http)).0 == Unchecked(http)(client.url, |w.fetched|);
    }
  }
}
