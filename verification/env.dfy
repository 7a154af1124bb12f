/** The launcher environment of the current launcher: profiles on disk,
    each with a directory holding `client.json` and an optional
    `config.json`; creating a profile, editing its configuration, and
    launching it (install, then run). */
module Env {
  import opened Wrappers
  import opened Paths
  import opened Platform
  import Cache
  import Meta
  import Java
  import Configs
  import Registry
  import Manifests
  import Install
  import Launch
  import Pool
  import Archive
  import Assets

  /** The stored profile list and the contents of every profile's
      `config.json`, by profile name. Directory contents other than the
      configuration live in the world's file map. */
  datatype Profiles = Profiles(list: seq<Registry.Profile>, configs: map<string, Configs.Config>)

  /** `Profile::dir_path`: the profile's directory below the profiles
      root. */
  function ProfileDir(root: Path, name: string): (p: Path)
    ensures Under(p, root) && |p| == |root| + 1 && p[|root|] == name
  {
    root + [name]
  }

  function ClientJsonPath(root: Path, name: string): (p: Path)
    ensures Under(p, ProfileDir(root, name)) && p[|root| + 1..] == ["client.json"]
  {
    ProfileDir(root, name) + ["client.json"]
  }

  /** Distinct profiles have distinct directories, so their descriptors
      never overwrite each other. */
  lemma DirsDistinct(root: Path, a: string, b: string)
    ensures ProfileDir(root, a) == ProfileDir(root, b) <==> a == b
    ensures ClientJsonPath(root, a) == ClientJsonPath(root, b) <==> a == b
  {
    if ClientJsonPath(root, a) == ClientJsonPath(root, b) {
      assert ClientJsonPath(root, a)[|root|] == a;
    }
  }

  /** The panic of `expect("failed to deserialize client.json")`. */
  const ClientJsonInvalid: string := "failed to deserialize client.json"

  /** How the launcher reads a stored descriptor: `text` tells whether the
      bytes are UTF-8 (`read_to_string` fails otherwise), `decode` is the
      JSON decoding, nothing when it fails. */
  datatype Reader<R> = Reader(text: Bytes -> bool, decode: Bytes -> Option<Meta.Client<R>>)

  /** A stored descriptor that `read_to_string` can read. */
  predicate Readable<R>(fs: map<Path, Bytes>, p: Path, rd: Reader<R>)
  {
    p in fs && rd.text(fs[p])
  }

  /** `Profile::read_client`: nothing when `client.json` cannot be read;
      otherwise its decoding, and the `expect` panics when that fails. */
  function ReadClient<R>(root: Path, name: string, fs: map<Path, Bytes>, rd: Reader<R>): (r: Result<Option<Meta.Client<R>>, Error>)
    ensures !Readable(fs, ClientJsonPath(root, name), rd) <==> r == Ok(None)
    ensures r.Ok? && r.value.Some? ==> rd.decode(fs[ClientJsonPath(root, name)]) == r.value
    ensures r.Err? <==> Readable(fs, ClientJsonPath(root, name), rd) && rd.decode(fs[ClientJsonPath(root, name)]).None?
    ensures r.Err? ==> r.error == Panic(ClientJsonInvalid)
  {
    var p := ClientJsonPath(root, name);
    if !Readable(fs, p, rd) then Ok(None)
    else match rd.decode(fs[p])
      case None => Err(Panic(ClientJsonInvalid))
      case Some(c) => Ok(Some(c))
  }

  /** `Profile::read_or_create_client`: a readable `client.json` is decoded;
      otherwise the version's descriptor is downloaded, stored as
      `client.json` and decoded. A failed download is the result and
      nothing is stored; a failed decoding panics. */
  function ReadOrCreateClient<R>(root: Path, p: Registry.Profile, m: Meta.Manifest, w: Cache.World, net: Cache.Network, rd: Reader<R>)
    : (r: (Result<Meta.Client<R>, Error>, Cache.World))
    ensures var path := ClientJsonPath(root, p.name);
      && (Readable(w.fs, path, rd) ==> r.1 == w)
      && (Readable(w.fs, path, rd) && rd.decode(w.fs[path]).Some? ==> r.0 == Ok(rd.decode(w.fs[path]).value))
      && (!Readable(w.fs, path, rd) ==> r.1.fetched == Manifests.DownloadVersion(m, p.version, w, net).1.fetched)
    ensures r.0.Err? ==> r.0.error == Panic(ClientJsonInvalid) || r.0.error == VersionNotFound || r.0.error.Download?
    ensures r.0.Ok? ==> ClientJsonPath(root, p.name) in r.1.fs && rd.decode(r.1.fs[ClientJsonPath(root, p.name)]) == Some(r.0.value)
    ensures forall q :: q in w.fs && q != ClientJsonPath(root, p.name) ==> q in r.1.fs && r.1.fs[q] == w.fs[q]
  {
    var path := ClientJsonPath(root, p.name);
    if Readable(w.fs, path, rd) then
      match rd.decode(w.fs[path])
      case None => (Err(Panic(ClientJsonInvalid)), w)
      case Some(c) => (Ok(c), w)
    else
      var (got, w1) := Manifests.DownloadVersion(m, p.version, w, net);
      match got
      case Err(e) => (Err(e), w1)
      case Ok(bytes) =>
        var w2 := Cache.World(w1.fs[path := bytes], w1.fetched);
        match rd.decode(bytes)
        case None => (Err(Panic(ClientJsonInvalid)), w2)
        case Some(c) => (Ok(c), w2)
  }

  // ---------------------------------------------------------------------
  // Installing and launching a profile

  /** What launching needs besides the profile: the profiles root, the
      version manifest, the installation inputs (their game directory is
      replaced by the profile's directory) and the descriptor reader. */
  datatype Launcher<!R> = Launcher(root: Path, manifest: Meta.Manifest, setup: Install.Setup<R>, reader: Reader<R>)

  function ProfileSetup<R>(l: Launcher<R>, name: string): (s: Install.Setup<R>)
    ensures s.gameDir == ProfileDir(l.root, name)
  {
    l.setup.(gameDir := ProfileDir(l.root, name))
  }

  /** `Profile::install`: the descriptor is read or created, then
      `install_client` runs into the profile's directory; a failure to get
      the descriptor is the result and installs nothing. */
  function InstallProfile<R(==,!new)>(l: Launcher<R>, p: Registry.Profile, w: Cache.World, net: Cache.Network, choose: Pool.Scheduler)
    : (r: (Result<(), Error>, Cache.World))
    ensures var c := ReadOrCreateClient(l.root, p, l.manifest, w, net, l.reader);
      && (c.0.Err? ==> r == (Err(c.0.error), c.1))
      && (c.0.Ok? ==> r == Install.InstallClient(ProfileSetup(l, p.name), c.0.value, c.1, net, choose))
    ensures r.0.Ok? ==> var c := ReadOrCreateClient(l.root, p, l.manifest, w, net, l.reader).0.value;
      Install.AllLibsStored(Meta.Libs(c.libraries, l.setup.allowed), l.setup.libsRoot, l.setup.host, r.1.fs)
  {
    var (c, w1) := ReadOrCreateClient(l.root, p, l.manifest, w, net, l.reader);
    if c.Err? then (Err(c.error), w1)
    else Install.InstallClient(ProfileSetup(l, p.name), c.value, w1, net, choose)
  }

  /** The profile's own configuration, if it has a `config.json`. */
  function ProfileConfig(ps: Profiles, name: string): (r: Option<Configs.Config>)
    ensures r.Some? <==> name in ps.configs
    ensures r.Some? ==> r.value == ps.configs[name]
  {
    if name in ps.configs then Some(ps.configs[name]) else None
  }

  /** `Profile::execute` on the files the install left: the command is
      built from the merged configuration and the descriptor that
      `read_client` finds. A descriptor that fails to decode panics at the
      point where the arguments are generated, so an earlier configuration
      error wins over it. */
  function RunProfile<R(==,!new)>(l: Launcher<R>, ps: Profiles, p: Registry.Profile, global: Result<Configs.Config, Error>,
                                  fs: map<Path, Bytes>, run: Launch.Runner)
    : (r: (Result<(), Error>, Option<Launch.Command>))
    ensures ReadClient(l.root, p.name, fs, l.reader).Ok? ==>
      r == Launch.Execute(global, ProfileConfig(ps, p.name), ReadClient(l.root, p.name, fs, l.reader).value, l.setup.allowed,
                          l.setup.libsRoot, l.setup.assetsRoot, ProfileDir(l.root, p.name), p.version, l.setup.host, run)
    ensures ReadClient(l.root, p.name, fs, l.reader).Err? ==> r.0.Err? && r.1.None?
    ensures r.1.Some? ==> ReadClient(l.root, p.name, fs, l.reader).Ok? && ReadClient(l.root, p.name, fs, l.reader).value.Some?
  {
    var gameDir := ProfileDir(l.root, p.name);
    var pc := ProfileConfig(ps, p.name);
    match ReadClient(l.root, p.name, fs, l.reader)
    case Ok(client) =>
      Launch.Execute(global, pc, client, l.setup.allowed, l.setup.libsRoot, l.setup.assetsRoot, gameDir, p.version, l.setup.host, run)
    case Err(e) =>
      var cmd := Launch.BuildCommand(Launch.GetConfig(global, pc), None, l.setup.allowed, l.setup.libsRoot, l.setup.assetsRoot,
                                     gameDir, p.version, l.setup.host);
      if cmd == Err(Panic(Launch.ReadClientFailed)) then (Err(e), None) else (Err(cmd.error), None)
  }

  /** `Env::execute`: an unknown name is `ProfileNotFound` and touches
      nothing; otherwise the profile is installed, and only a successful
      install is followed by the launch. The last component is the command
      run, if any. */
  function Execute<R(==,!new)>(l: Launcher<R>, ps: Profiles, name: string, global: Result<Configs.Config, Error>,
                               w: Cache.World, net: Cache.Network, choose: Pool.Scheduler, run: Launch.Runner)
    : (r: (Result<(), Error>, Cache.World, Option<Launch.Command>))
    ensures Registry.GetNamed(ps.list, name).None? ==> r == (Err(ProfileNotFound(name)), w, None)
    ensures Registry.GetNamed(ps.list, name).Some? ==>
      var i := InstallProfile(l, Registry.GetNamed(ps.list, name).value, w, net, choose);
      && r.1 == i.1
      && (i.0.Err? ==> r == (i.0, i.1, None))
      && (i.0.Ok? ==> (r.0, r.2) == RunProfile(l, ps, Registry.GetNamed(ps.list, name).value, global, i.1.fs, run))
    ensures r.2.Some? ==>
              Registry.GetNamed(ps.list, name).Some?
              && InstallProfile(l, Registry.GetNamed(ps.list, name).value, w, net, choose).0.Ok?
  {
    match Registry.GetNamed(ps.list, name)
    case None => (Err(ProfileNotFound(name)), w, None)
    case Some(p) =>
      var (i, w1) := InstallProfile(l, p, w, net, choose);
      if i.Err? then (i, w1, None)
      else
        var (o, cmd) := RunProfile(l, ps, p, global, w1.fs, run);
        (o, w1, cmd)
  }

  /** A launched profile finds every library file on its classpath: when
      the descriptor read at launch is the one installed, each classpath
      entry is a stored file. */
  lemma LaunchedAfterInstall<R(!new)>(l: Launcher<R>, ps: Profiles, name: string, global: Result<Configs.Config, Error>,
                                      w: Cache.World, net: Cache.Network, choose: Pool.Scheduler, run: Launch.Runner)
    requires Execute(l, ps, name, global, w, net, choose, run).2.Some?
    ensures var p := Registry.GetNamed(ps.list, name).value;
      var c := ReadOrCreateClient(l.root, p, l.manifest, w, net, l.reader).0.value;
      var fs := Execute(l, ps, name, global, w, net, choose, run).1.fs;
      var entries := Launch.ClasspathEntries(Meta.Libs(c.libraries, l.setup.allowed), l.setup.libsRoot, l.setup.host);
      entries.Ok? ==> forall q :: q in entries.value ==> q in fs
  {
    var p := Registry.GetNamed(ps.list, name).value;
    var c := ReadOrCreateClient(l.root, p, l.manifest, w, net, l.reader).0.value;
    var i := InstallProfile(l, p, w, net, choose);
    Launch.ClasspathAfterInstall(Meta.Libs(c.libraries, l.setup.allowed), l.setup.libsRoot, l.setup.host, i.1.fs);
  }

  // ---------------------------------------------------------------------
  // Editing a profile's configuration

  /** What `config_mut` starts from: the profile's configuration, or an
      empty one when it has none. */
  function StoredConfig(ps: Profiles, name: string): (c: Configs.Config)
    ensures name in ps.configs ==> c == ps.configs[name]
    ensures name !in ps.configs ==> forall k :: Configs.Get(c, k).None?
  {
    if name in ps.configs then ps.configs[name] else Configs.Empty()
  }

  /** `Env::edit`: an unknown profile is refused and nothing changes;
      otherwise the entry is set to the value, or removed when there is
      none, in the profile's configuration, which the handle writes back.
      The profile list and every other profile's configuration are kept. */
  function Edit(ps: Profiles, name: string, entry: string, value: Option<string>): (r: (Result<(), ()>, Profiles))
    ensures r.0.Err? <==> Registry.GetNamed(ps.list, name).None?
    ensures r.0.Err? ==> r.1 == ps
    ensures r.1.list == ps.list
    ensures forall k :: k != name ==> ProfileConfig(r.1, k) == ProfileConfig(ps, k)
    ensures r.0.Ok? ==> name in r.1.configs
    ensures r.0.Ok? ==> Configs.Get(r.1.configs[name], entry) == value
    ensures r.0.Ok? ==> forall k :: k != entry ==> Configs.Get(r.1.configs[name], k) == Configs.Get(StoredConfig(ps, name), k)
  {
    match Registry.GetNamed(ps.list, name)
    case None => (Err(()), ps)
    case Some(p) =>
      var base := StoredConfig(ps, p.name);
      var edited := if value.Some? then Configs.Set(base, entry, value.value) else Configs.Remove(base, entry);
      (Ok(()), ps.(configs := ps.configs[p.name := edited]))
  }

  /** An edit is what the next launch sees: a set entry reads as the value
      whatever the global configuration holds, and a removed entry reads as
      the global configuration's. */
  lemma EditSeenAtLaunch(ps: Profiles, name: string, entry: string, value: Option<string>, global: Configs.Config)
    requires Edit(ps, name, entry, value).0.Ok?
    ensures var cfg := Launch.GetConfig(Ok(global), ProfileConfig(Edit(ps, name, entry, value).1, name));
      && cfg.Ok?
      && (value.Some? ==> Configs.Get(cfg.value, entry) == value)
      && (value.None? ==> Configs.Get(cfg.value, entry) == Configs.Get(global, entry))
  {
  }

  /** Setting an entry and then removing it leaves the profile reading
      every other entry as before, and the removed entry as absent. */
  lemma EditSetThenRemove(ps: Profiles, name: string, entry: string, v: string)
    requires Registry.GetNamed(ps.list, name).Some?
    ensures var once := Edit(ps, name, entry, Some(v)).1;
      var twice := Edit(once, name, entry, None).1;
      && Configs.Get(twice.configs[name], entry).None?
      && forall k :: k != entry ==> Configs.Get(twice.configs[name], k) == Configs.Get(StoredConfig(ps, name), k)
  {
    var once := Edit(ps, name, entry, Some(v)).1;
    assert Registry.GetNamed(once.list, name).Some?;
    assert StoredConfig(once, name) == once.configs[name];
  }

  // ---------------------------------------------------------------------
  // Creating a profile

  /** The first listed Java whose major version, cast `as u16` (so taken
      modulo 2^16), is the requested one. */
  function FindJava(javas: seq<Java.JavaInstallation>, major: nat): (r: Option<Java.JavaInstallation>)
    ensures r.None? <==> forall i :: 0 <= i < |javas| ==> javas[i].version.major % 65536 != major
    ensures r.Some? ==> r.value.version.major % 65536 == major
    ensures r.Some? ==>
              exists i :: 0 <= i < |javas| && javas[i] == r.value &&
                            forall j :: 0 <= j < i ==> javas[j].version.major % 65536 != major
    decreases |javas|
  {
    if |javas| == 0 then None
    else if javas[0].version.major % 65536 == major then Some(javas[0])
    else
      var r := FindJava(javas[1..], major);
      assert forall i :: 0 <= i < |javas[1..]| ==> javas[1..][i] == javas[i + 1];
      r
  }

  /** `Profile::create` followed by `Profiles::add`: the descriptor of the
      version is downloaded (an error ends creation with nothing changed
      but the request) and must decode, else the `expect` panics. When it
      names a Java major version and a listed Java has it, the profile's
      configuration is replaced by one holding only that Java's path. The
      descriptor is stored as `client.json` and the profile appended. */
  function Create<R>(root: Path, ps: Profiles, name: string, version: string, m: Meta.Manifest, w: Cache.World, net: Cache.Network,
                     decode: Bytes -> Option<Meta.Client<R>>, javas: Java.JavaManager)
    : (r: (Result<(), Error>, Profiles, Cache.World))
    ensures var d := Manifests.DownloadVersion(m, version, w, net);
      && r.2.fetched == d.1.fetched
      && (d.0.Err? ==> r == (Err(d.0.error), ps, d.1))
      && (d.0.Ok? && decode(d.0.value).None? ==> r == (Err(Panic(ClientJsonInvalid)), ps, d.1))
    ensures r.0.Ok? <==> r.1.list == Registry.Add(ps.list, Registry.Profile(name, version))
    ensures r.0.Err? ==> r.1 == ps
    ensures r.0.Ok? ==>
              && ClientJsonPath(root, name) in r.2.fs
              && decode(r.2.fs[ClientJsonPath(root, name)]).Some?
              && decode(r.2.fs[ClientJsonPath(root, name)]) == decode(Manifests.DownloadVersion(m, version, w, net).0.value)
    ensures r.0.Ok? ==> forall k :: k != name ==> ProfileConfig(r.1, k) == ProfileConfig(ps, k)
    ensures r.0.Ok? ==> var c := decode(Manifests.DownloadVersion(m, version, w, net).0.value).value;
      && (c.javaMajor.Some? && FindJava(Java.List(javas), c.javaMajor.value).Some? ==>
            ProfileConfig(r.1, name) == Some(Configs.New(map["current_java_path" := FindJava(Java.List(javas), c.javaMajor.value).value.path])))
      && (c.javaMajor.None? || FindJava(Java.List(javas), c.javaMajor.value).None? ==> ProfileConfig(r.1, name) == ProfileConfig(ps, name))
  {
    var (got, w1) := Manifests.DownloadVersion(m, version, w, net);
    match got
    case Err(e) => (Err(e), ps, w1)
    case Ok(bytes) =>
      match decode(bytes)
      case None => (Err(Panic(ClientJsonInvalid)), ps, w1)
      case Some(c) =>
        var java := if c.javaMajor.Some? then FindJava(Java.List(javas), c.javaMajor.value) else None;
        var configs := if java.Some? then ps.configs[name := Configs.New(map["current_java_path" := java.value.path])] else ps.configs;
        var w2 := Cache.World(w1.fs[ClientJsonPath(root, name) := bytes], w1.fetched);
        (Ok(()), Profiles(Registry.Add(ps.list, Registry.Profile(name, version)), configs), w2)
  }

  /** A profile created under a new name is found by that name, and its
      first install finds the stored descriptor: no request for it, and
      the same descriptor. */
  lemma CreateThenInstall<R>(root: Path, ps: Profiles, name: string, version: string, m: Meta.Manifest, w: Cache.World,
                             net: Cache.Network, rd: Reader<R>, javas: Java.JavaManager, net': Cache.Network)
    requires Registry.GetNamed(ps.list, name).None?
    requires Create(root, ps, name, version, m, w, net, rd.decode, javas).0.Ok?
    requires rd.text(Manifests.DownloadVersion(m, version, w, net).0.value)
    ensures var r := Create(root, ps, name, version, m, w, net, rd.decode, javas);
      && Registry.GetNamed(r.1.list, name) == Some(Registry.Profile(name, version))
      && ReadOrCreateClient(root, Registry.Profile(name, version), m, r.2, net', rd)
         == (Ok(rd.decode(Manifests.DownloadVersion(m, version, w, net).0.value).value), r.2)
  {
    Registry.AddKeepsLookup(ps.list, Registry.Profile(name, version), name);
  }

  /** Creating a profile under a name already listed appends a second
      entry that lookups never reach: the name still resolves to the
      earlier profile and its version. Both share one directory, so the
      new descriptor replaces the earlier profile's `client.json`. */
  lemma CreateDuplicateShadowed<R>(root: Path, ps: Profiles, name: string, version: string, m: Meta.Manifest, w: Cache.World,
                                   net: Cache.Network, decode: Bytes -> Option<Meta.Client<R>>, javas: Java.JavaManager)
    requires Registry.GetNamed(ps.list, name).Some?
    requires Create(root, ps, name, version, m, w, net, decode, javas).0.Ok?
    ensures var r := Create(root, ps, name, version, m, w, net, decode, javas);
      && Registry.GetNamed(r.1.list, name) == Registry.GetNamed(ps.list, name)
      && ClientJsonPath(root, Registry.GetNamed(r.1.list, name).value.name) == ClientJsonPath(root, name)
  {
    Registry.AddKeepsLookup(ps.list, Registry.Profile(name, version), name);
  }
}
