/** The version manifest: looking a version up by id and downloading its
    descriptor (`client.json`), in the current launcher and in the two older
    copies, which report an unknown id as an empty success instead of an
    error and hand back text instead of bytes. */
module Manifests {
  import opened Wrappers
  import opened Paths
  import opened Cache
  import Meta
  import Assets

  /** The first version in `vs` with the id. */
  function FindIn(vs: seq<Meta.Version>, id: string): (r: Option<Meta.Version>)
    ensures r.None? <==> forall i :: 0 <= i < |vs| ==> vs[i].id != id
    ensures r.Some? ==> r.value.id == id
    ensures r.Some? ==> exists i :: 0 <= i < |vs| && vs[i] == r.value && forall j :: 0 <= j < i ==> vs[j].id != id
    decreases |vs|
  {
    if |vs| == 0 then None
    else if vs[0].id == id then Some(vs[0])
    else
      var r := FindIn(vs[1..], id);
      assert forall i :: 0 <= i < |vs[1..]| ==> vs[1..][i] == vs[i + 1];
      r
  }

  /** `versions().find(|x| x.id == version)`: `versions()` walks the
      manifest's versions in stored order, so the first stored version with
      the id is found. */
  function FindVersion(m: Meta.Manifest, id: string): (r: Option<Meta.Version>)
    ensures r.None? <==> forall i :: 0 <= i < |m.versions| ==> m.versions[i].id != id
    ensures r.Some? ==> r.value.id == id
    ensures r.Some? ==> exists i :: 0 <= i < |m.versions| && m.versions[i] == r.value && forall j :: 0 <= j < i ==> m.versions[j].id != id
  {
    FindIn(m.versions, id)
  }

  /** `download_version` of the current launcher: an unknown id is
      `MinecraftVersionNotFound` without a request; a known one requests the
      URL of its first entry and returns the answer's bytes as they are, or
      the download error. Nothing is written. */
  function DownloadVersion(m: Meta.Manifest, id: string, w: World, net: Network): (r: (Result<Bytes, Error>, World))
    ensures FindVersion(m, id).None? ==> r == (Err(VersionNotFound), w)
    ensures FindVersion(m, id).Some? ==> r.1 == World(w.fs, w.fetched + [FindVersion(m, id).value.url])
    ensures FindVersion(m, id).Some? && net(FindVersion(m, id).value.url, |w.fetched|).Ok? ==>
      r.0 == Ok(net(FindVersion(m, id).value.url, |w.fetched|).value)
    ensures FindVersion(m, id).Some? && net(FindVersion(m, id).value.url, |w.fetched|).Err? ==>
      r.0 == Err(Download(net(FindVersion(m, id).value.url, |w.fetched|).error))
  {
    match FindVersion(m, id)
    case None => (Err(VersionNotFound), w)
    case Some(v) =>
      var (got, w1) := Fetch(v.url, w, net);
      match got
      case Err(e) => (Err(Download(e)), w1)
      case Ok(bytes) => (Ok(bytes), w1)
  }

  /** `Manifest::download_version` of `src/manifest.rs`: an unknown id is an
      empty success without a request; a download error is returned; the
      body must be UTF-8 (`utf8` decodes it, or gives nothing), and the
      `unwrap` on a body that is not panics. */
  function LegacyDownloadVersion(m: Meta.Manifest, id: string, w: World, net: Network, utf8: Bytes -> Option<string>)
    : (r: (Result<Option<string>, Error>, World))
    ensures FindVersion(m, id).None? ==> r == (Ok(None), w)
    ensures FindVersion(m, id).Some? ==> r.1 == World(w.fs, w.fetched + [FindVersion(m, id).value.url])
    ensures r.0.Ok? && r.0.value.Some? ==>
      net(FindVersion(m, id).value.url, |w.fetched|).Ok?
      && r.0.value == utf8(net(FindVersion(m, id).value.url, |w.fetched|).value)
    ensures r.0.Err? ==> r.0.error.Download? || r.0.error == Panic(Assets.UnwrapErr)
  {
    match FindVersion(m, id)
    case None => (Ok(None), w)
    case Some(v) =>
      var (got, w1) := Fetch(v.url, w, net);
      match got
      case Err(e) => (Err(Download(e)), w1)
      case Ok(bytes) =>
        match utf8(bytes)
        case None => (Err(Panic(Assets.UnwrapErr)), w1)
        case Some(text) => (Ok(Some(text)), w1)
  }

  /** `Manifest::download_version` of `src/json/manifest.rs`: as above, but
      a bare request with no status check, and the body read as text
      without a UTF-8 check (`text` is that reading): any response, an
      error page included, is a success, and only the request itself can
      fail. */
  function JsonDownloadVersion(m: Meta.Manifest, id: string, w: World, http: Http, text: Bytes -> string)
    : (r: (Result<Option<string>, Error>, World))
    ensures FindVersion(m, id).None? ==> r == (Ok(None), w)
    ensures FindVersion(m, id).Some? ==> r.1 == World(w.fs, w.fetched + [FindVersion(m, id).value.url])
    ensures FindVersion(m, id).Some? ==> (r.0.Ok? <==> http(FindVersion(m, id).value.url, |w.fetched|).Ok?)
    ensures r.0.Ok? && r.0.value.Some? ==> r.0.value.value == text(http(FindVersion(m, id).value.url, |w.fetched|).value.body)
    ensures r.0.Err? ==> r.0 == Err(Download(http(FindVersion(m, id).value.url, |w.fetched|).error))
  {
    match FindVersion(m, id)
    case None => (Ok(None), w)
    case Some(v) =>
      var (got, w1) := Fetch(v.url, w, Unchecked(http));
      match got
      case Err(e) => (Err(Download(e)), w1)
      case Ok(bytes) => (Ok(Some(text(bytes))), w1)
  }

  /** Over one HTTP server the three copies make the same request and leave
      the same world. They differ in how an unknown id is reported, in the
      UTF-8 check of the `src/manifest.rs` copy, and in the status check the
      JSON copy lacks: where the others report a status error, it returns
      the error page as the descriptor. */
  lemma VariantsAgree(m: Meta.Manifest, id: string, w: World, http: Http, utf8: Bytes -> Option<string>, text: Bytes -> string)
    ensures var cur := DownloadVersion(m, id, w, Checked(http));
      var old1 := LegacyDownloadVersion(m, id, w, Checked(http), utf8);
      var old2 := JsonDownloadVersion(m, id, w, http, text);
      && cur.1 == old1.1 == old2.1
      && (cur.0 == Err(VersionNotFound) <==> old1.0 == Ok(None))
      && (cur.0 == Err(VersionNotFound) <==> old2.0 == Ok(None))
      && (cur.0.Ok? ==> old2.0 == Ok(Some(text(cur.0.value))))
      && (cur.0.Ok? && utf8(cur.0.value).Some? ==> old1.0 == Ok(Some(utf8(cur.0.value).value)))
      && (cur.0.Err? && cur.0.error.Download? ==> old1.0 == Err(cur.0.error))
      && (cur.0.Err? && cur.0.error.Download? && !cur.0.error.cause.Status? ==> old2.0 == Err(cur.0.error))
  {
  }

  /** The JSON copy's missing status check: a version whose URL answers
      with an error status is a status error in the current launcher and a
      successful download of the error page in the JSON copy. */
  lemma JsonAcceptsErrorStatus(m: Meta.Manifest, id: string, w: World, http: Http, text: Bytes -> string)
    requires FindVersion(m, id).Some?
    requires http(FindVersion(m, id).value.url, |w.fetched|).Ok?
    requires !IsSuccess(http(FindVersion(m, id).value.url, |w.fetched|).value.status)
    ensures var resp := http(FindVersion(m, id).value.url, |w.fetched|).value;
      && DownloadVersion(m, id, w, Checked(http)).0 == Err(Download(Status(resp.status)))
      && JsonDownloadVersion(m, id, w, http, text).0 == Ok(Some(text(resp.body)))
  {
  }

  /** Only the first entry with an id matters: a later duplicate is never
      requested, whatever its URL. */
  lemma FirstEntryWins(vs: seq<Meta.Version>, v: Meta.Version, id: string, w: World, net: Network)
    requires v.id == id
    ensures DownloadVersion(Meta.Manifest(vs + [v]), id, w, net).1.fetched
         == (if FindIn(vs, id).Some? then w.fetched + [FindIn(vs, id).value.url] else w.fetched + [v.url])
  {
    var all := vs + [v];
    if FindIn(vs, id).Some? {
      var k :| 0 <= k < |vs| && vs[k] == FindIn(vs, id).value && forall j :: 0 <= j < k ==> vs[j].id != id;
      assert all[k] == vs[k];
      FirstIndexUnique(all, id, k);
    } else {
      assert all[|vs|] == v;
      FirstIndexUnique(all, id, |vs|);
    }
  }

  /** The position of the first entry with an id determines the entry
      found. */
  lemma FirstIndexUnique(vs: seq<Meta.Version>, id: string, k: nat)
    requires k < |vs| && vs[k].id == id
    requires forall j :: 0 <= j < k ==> vs[j].id != id
    ensures FindIn(vs, id) == Some(vs[k])
  {
    var r := FindIn(vs, id);
    var i :| 0 <= i < |vs| && vs[i] == r.value && forall j :: 0 <= j < i ==> vs[j].id != id;
    assert !(i < k) && !(k < i);
  }
}
