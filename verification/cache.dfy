/** The cache-first download rule over an abstract filesystem. The world is
    the map from path to stored bytes plus the log of every URL requested;
    the network is an oracle that answers the `n`-th request of the log, so
    two requests of one URL may get different answers. */
module Cache {
  import opened Wrappers
  import opened Paths
  import Meta

  datatype World = World(fs: map<Path, Bytes>, fetched: seq<Url>)

  /** The answer the network gives to a request of `url` when `n` requests
      were made before it. */
  type Network = (Url, nat) -> Result<Bytes, DownloadError>

  /** What an HTTP server answers: the status code and the body. */
  datatype Response = Response(status: int, body: Bytes)

  /** A failure of the request itself (a malformed URL, a timeout, a broken
      connection): a bare request never turns a status into an error. */
  type TransportError = e: DownloadError | !e.Status? witness InvalidUrl

  /** The answer of the HTTP layer itself to the `n`-th request of `url`: a
      response of any status, or a transport error. */
  type Http = (Url, nat) -> Result<Response, TransportError>

  /** `StatusCode::is_success`: a status in the 2xx range. */
  predicate IsSuccess(status: int)
  {
    200 <= status < 300
  }

  /** The network as `utils::download::get` sees it: a response whose status
      is not a success becomes `DownloadError::Status`, so only 2xx bodies
      come through. */
  function Checked(http: Http): (net: Network)
    ensures forall url, n :: net(url, n).Ok? <==> http(url, n).Ok? && IsSuccess(http(url, n).value.status)
    ensures forall url, n :: net(url, n).Ok? ==> net(url, n).value == http(url, n).value.body
    ensures forall url, n :: http(url, n).Ok? && !IsSuccess(http(url, n).value.status) ==>
      net(url, n) == Err(Status(http(url, n).value.status))
  {
    (url, n) =>
      match http(url, n)
      case Err(e) => Err(e)
      case Ok(resp) => if IsSuccess(resp.status) then Ok(resp.body) else Err(Status(resp.status))
  }

  /** The network as a bare `reqwest::blocking::get(url)?` followed by a read
      of the body sees it: any status is accepted, so an error page comes
      through as if it were the file. */
  function Unchecked(http: Http): (net: Network)
    ensures forall url, n :: net(url, n).Ok? <==> http(url, n).Ok?
    ensures forall url, n :: http(url, n).Ok? ==> net(url, n) == Ok(http(url, n).value.body)
    ensures forall url, n :: http(url, n).Err? ==> net(url, n) == Err(http(url, n).error)
  {
    (url, n) =>
      match http(url, n)
      case Err(e) => Err(e)
      case Ok(resp) => Ok(resp.body)
  }

  /** The two readings differ exactly on the answers whose status is not a
      success. */
  lemma CheckedAgreesOnSuccess(http: Http, url: Url, n: nat)
    ensures Checked(http)(url, n) == Unchecked(http)(url, n)
        <==> http(url, n).Err? || IsSuccess(http(url, n).value.status)
  {
  }

  /** One logged request. */
  function Fetch(url: Url, w: World, net: Network): (r: (Result<Bytes, DownloadError>, World))
    ensures r.0 == net(url, |w.fetched|)
    ensures r.1 == World(w.fs, w.fetched + [url])
  {
    (net(url, |w.fetched|), World(w.fs, w.fetched + [url]))
  }

  /** The file a download is stored at below `base`: `base.join(sub_path)`
      when the download names a sub-path, `base` itself otherwise. */
  function Target(d: Meta.Download, base: Path): (p: Path)
    ensures Under(p, base)
    ensures d.subPath.None? ==> p == base
    ensures d.subPath.Some? ==> p[|base|..] == d.subPath.value
  {
    if d.subPath.Some? then base + d.subPath.value else base
  }

  /** Every stored file is still stored with the same bytes, and the request
      log has only grown. */
  predicate Grows(a: World, b: World)
  {
    && (forall p :: p in a.fs ==> p in b.fs && b.fs[p] == a.fs[p])
    && a.fetched <= b.fetched
  }

  /** Every stored file is still stored, perhaps with other bytes, and the
      request log has only grown. */
  predicate Covers(a: World, b: World)
  {
    a.fs.Keys <= b.fs.Keys && a.fetched <= b.fetched
  }

  lemma GrowsTransitive(a: World, b: World, c: World)
    requires Grows(a, b) && Grows(b, c)
    ensures Grows(a, c)
  {
  }

  /** `download_in`: a stored target is returned as it is, without a request
      and without a write. Otherwise the URL is requested; a failed request
      returns its error with nothing written, and a successful one stores the
      bytes at the target and returns them. No other file is touched. */
  function DownloadIn(d: Meta.Download, base: Path, w: World, net: Network): (r: (Result<Bytes, DownloadError>, World))
    ensures Target(d, base) in w.fs ==> r == (Ok(w.fs[Target(d, base)]), w)
    ensures Target(d, base) !in w.fs ==> r.0 == net(d.url, |w.fetched|) && r.1.fetched == w.fetched + [d.url]
    ensures r.0.Err? ==> r.1.fs == w.fs
    ensures r.0.Ok? ==> Target(d, base) in r.1.fs && r.1.fs[Target(d, base)] == r.0.value
    ensures r.1.fs.Keys <= w.fs.Keys + {Target(d, base)}
    ensures Grows(w, r.1)
  {
    var p := Target(d, base);
    if p in w.fs then (Ok(w.fs[p]), w)
    else
      var (got, w1) := Fetch(d.url, w, net);
      match got
      case Err(e) => (Err(e), w1)
      case Ok(bytes) => (Ok(bytes), World(w1.fs[p := bytes], w1.fetched))
  }

  /** Idempotence: once a download has succeeded, repeating it, whatever the
      network would now answer, requests nothing, writes nothing and returns
      the same bytes. */
  lemma DownloadInIdempotent(d: Meta.Download, base: Path, w: World, net: Network, later: Network)
    requires DownloadIn(d, base, w, net).0.Ok?
    ensures DownloadIn(d, base, DownloadIn(d, base, w, net).1, later) == DownloadIn(d, base, w, net)
  {
  }

  /** The cache decides by presence alone: whether a download requests
      anything depends only on whether its target is stored. */
  lemma DownloadInFetchesIffMissing(d: Meta.Download, base: Path, w: World, net: Network)
    ensures DownloadIn(d, base, w, net).1.fetched != w.fetched <==> Target(d, base) !in w.fs
  {
    if Target(d, base) !in w.fs {
      assert |DownloadIn(d, base, w, net).1.fetched| == |w.fetched| + 1;
    }
  }

  /** Through the status check a download stores only a success's body: a
      target that was missing is present afterwards only when the answer
      was a 2xx response, and it holds that response's body. */
  lemma CheckedStoresOnlySuccess(d: Meta.Download, base: Path, w: World, http: Http)
    requires Target(d, base) !in w.fs
    ensures var r := DownloadIn(d, base, w, Checked(http));
      Target(d, base) in r.1.fs <==> http(d.url, |w.fetched|).Ok? && IsSuccess(http(d.url, |w.fetched|).value.status)
    ensures var r := DownloadIn(d, base, w, Checked(http));
      Target(d, base) in r.1.fs ==> r.1.fs[Target(d, base)] == http(d.url, |w.fetched|).value.body
  {
  }

  /** Without the check, whatever the server answers is stored: an error
      page becomes the file, and the cache returns it from then on. */
  lemma UncheckedStoresAnyStatus(d: Meta.Download, base: Path, w: World, http: Http, later: Network)
    requires Target(d, base) !in w.fs && http(d.url, |w.fetched|).Ok?
    ensures var r := DownloadIn(d, base, w, Unchecked(http));
      && r.0 == Ok(http(d.url, |w.fetched|).value.body)
      && r.1.fs[Target(d, base)] == http(d.url, |w.fetched|).value.body
      && DownloadIn(d, base, r.1, later) == (r.0, r.1)
  {
  }
}
