/** Launching a profile: the classpath, the argument list with its
    `${name}` placeholders resolved, the configuration a profile sees, the
    Java command line and what its exit status means; and the older
    launcher's fixed command line and required-library list. */
module Launch {
  import opened Wrappers
  import opened Paths
  import opened Platform
  import Text
  import Meta
  import Templates
  import Configs
  import LegacyConfigs
  import Cache
  import Assets
  import Archive
  import Install

  // ---------------------------------------------------------------------
  // Classpath

  /** The library's classpath entries can be named: the host key, if any,
      names a classifier, and the host native and the artifact each carry
      a sub-path. */
  predicate Placeable<R>(lib: Meta.Library<R>, h: Host)
  {
    && !Meta.PlatformNative(lib, h).MissingClassifier?
    && (Meta.PlatformNative(lib, h).Native? ==> Meta.PlatformNative(lib, h).download.subPath.Some?)
    && (lib.downloads.artifact.Some? ==> lib.downloads.artifact.value.subPath.Some?)
  }

  /** `p` is the stored file of the library's host native or of its
      artifact. */
  predicate EntryOf<R>(p: Path, lib: Meta.Library<R>, libsRoot: Path, h: Host)
  {
    || (Meta.PlatformNative(lib, h).Native? && p == Cache.Target(Meta.PlatformNative(lib, h).download, libsRoot))
    || (lib.downloads.artifact.Some? && p == Cache.Target(lib.downloads.artifact.value, libsRoot))
  }

  /** The entries one library contributes: its host native, then its
      artifact, each at its sub-path below the libraries root. A host key
      naming no classifier, or a download without a sub-path, panics on
      `unwrap`. */
  function LibEntries<R>(lib: Meta.Library<R>, libsRoot: Path, h: Host): (r: Result<seq<Path>, Error>)
    ensures r.Ok? <==> Placeable(lib, h)
    ensures r.Err? ==> r.error == Panic(Install.UnwrapNone)
    ensures r.Ok? ==> |r.value| == (if Meta.PlatformNative(lib, h).Native? then 1 else 0) + (if lib.downloads.artifact.Some? then 1 else 0)
    ensures r.Ok? ==> forall k :: 0 <= k < |r.value| ==> EntryOf(r.value[k], lib, libsRoot, h)
    ensures r.Ok? && Meta.PlatformNative(lib, h).Native? ==>
      r.value[0] == Cache.Target(Meta.PlatformNative(lib, h).download, libsRoot)
    ensures r.Ok? && lib.downloads.artifact.Some? ==>
      r.value[|r.value| - 1] == Cache.Target(lib.downloads.artifact.value, libsRoot)
  {
    var native := Meta.PlatformNative(lib, h);
    if !Placeable(lib, h) then Err(Panic(Install.UnwrapNone))
    else
      Ok((if native.Native? then [Cache.Target(native.download, libsRoot)] else [])
         + (if lib.downloads.artifact.Some? then [Cache.Target(lib.downloads.artifact.value, libsRoot)] else []))
  }

  /** The library part of `Profile::classpath`: the entries of each library
      in order. It can be built exactly when every library is placeable;
      then every entry belongs to some library, and every library's native
      and artifact are among the entries. */
  function ClasspathEntries<R>(libs: seq<Meta.Library<R>>, libsRoot: Path, h: Host): (r: Result<seq<Path>, Error>)
    ensures r.Ok? <==> forall i :: 0 <= i < |libs| ==> Placeable(libs[i], h)
    ensures r.Err? ==> r.error == Panic(Install.UnwrapNone)
    ensures r.Ok? ==> forall k :: 0 <= k < |r.value| ==>
      exists i :: 0 <= i < |libs| && EntryOf(r.value[k], libs[i], libsRoot, h)
    ensures r.Ok? ==> forall i :: 0 <= i < |libs| && libs[i].downloads.artifact.Some? ==>
      Cache.Target(libs[i].downloads.artifact.value, libsRoot) in r.value
    ensures r.Ok? ==> forall i :: 0 <= i < |libs| && Meta.PlatformNative(libs[i], h).Native? ==>
      Cache.Target(Meta.PlatformNative(libs[i], h).download, libsRoot) in r.value
    decreases |libs|
  {
    if |libs| == 0 then Ok([])
    else
      var here := LibEntries(libs[0], libsRoot, h);
      var rest := ClasspathEntries(libs[1..], libsRoot, h);
      assert forall i :: 0 <= i < |libs[1..]| ==> libs[1..][i] == libs[i + 1];
      if here.Err? then Err(here.error)
      else if rest.Err? then Err(rest.error)
      else
        var all := here.value + rest.value;
        assert forall k :: |here.value| <= k < |all| ==> all[k] == rest.value[k - |here.value|];
        Ok(all)
  }

  /** The classpath keeps the libraries' order: the entries of a
      concatenation are the concatenation of the entries. */
  lemma {:induction false} ClasspathEntriesAppend<R>(a: seq<Meta.Library<R>>, b: seq<Meta.Library<R>>, libsRoot: Path, h: Host)
    requires ClasspathEntries(a + b, libsRoot, h).Ok?
    ensures ClasspathEntries(a, libsRoot, h).Ok? && ClasspathEntries(b, libsRoot, h).Ok?
    ensures ClasspathEntries(a + b, libsRoot, h).value == ClasspathEntries(a, libsRoot, h).value + ClasspathEntries(b, libsRoot, h).value
    decreases |a|
  {
    if |a| == 0 {
      assert a + b == b;
    } else {
      assert (a + b)[0] == a[0];
      assert (a + b)[1..] == a[1..] + b;
      ClasspathEntriesAppend(a[1..], b, libsRoot, h);
      var here := LibEntries(a[0], libsRoot, h).value;
      assert here + (ClasspathEntries(a[1..], libsRoot, h).value + ClasspathEntries(b, libsRoot, h).value)
          == (here + ClasspathEntries(a[1..], libsRoot, h).value) + ClasspathEntries(b, libsRoot, h).value;
    }
  }

  /** The displayed paths. */
  function Displays(ps: seq<Path>): (r: seq<string>)
    ensures |r| == |ps|
    ensures forall i :: 0 <= i < |ps| ==> r[i] == Display(ps[i])
  {
    seq(|ps|, i requires 0 <= i < |ps| => Display(ps[i]))
  }

  /** The classpath string both launchers build from library entries: the
      entries, then the profile's `client.jar`, displayed and joined with
      the host's path-list separator, so the client jar is at the end. */
  function JoinClasspath(entries: seq<Path>, gameDir: Path, h: Host): (r: string)
    ensures var jar := Display(Install.ClientJarPath(gameDir)); |r| >= |jar| && r[|r| - |jar|..] == jar
  {
    var shown := Displays(entries + [Install.ClientJarPath(gameDir)]);
    Text.JoinEndsWithLast(shown, PathListSeparator(h.os));
    Text.Join(shown, PathListSeparator(h.os))
  }

  /** When no displayed path contains the separator, the classpath splits
      back into exactly the entries followed by the client jar. */
  lemma ClasspathSplits(entries: seq<Path>, gameDir: Path, h: Host)
    requires forall i :: 0 <= i < |entries| ==> PathListSeparator(h.os) !in Display(entries[i])
    requires PathListSeparator(h.os) !in Display(Install.ClientJarPath(gameDir))
    ensures Text.Split(JoinClasspath(entries, gameDir, h), PathListSeparator(h.os))
         == Displays(entries) + [Display(Install.ClientJarPath(gameDir))]
  {
    var all := entries + [Install.ClientJarPath(gameDir)];
    var shown := Displays(all);
    assert forall i :: 0 <= i < |entries| ==> all[i] == entries[i];
    Text.SplitJoin(shown, PathListSeparator(h.os));
    assert shown == Displays(entries) + [Display(Install.ClientJarPath(gameDir))];
  }

  /** `Profile::classpath`: the entries of the allowed libraries, then the
      client jar. */
  function Classpath<R(==,!new)>(client: Meta.Client<R>, allowed: R -> bool, libsRoot: Path, gameDir: Path, h: Host)
    : (r: Result<string, Error>)
    ensures r.Ok? <==> ClasspathEntries(Meta.Libs(client.libraries, allowed), libsRoot, h).Ok?
    ensures r.Err? ==> r.error == Panic(Install.UnwrapNone)
    ensures r.Ok? ==> r.value == JoinClasspath(ClasspathEntries(Meta.Libs(client.libraries, allowed), libsRoot, h).value, gameDir, h)
  {
    var entries := ClasspathEntries(Meta.Libs(client.libraries, allowed), libsRoot, h);
    if entries.Err? then Err(entries.error) else Ok(JoinClasspath(entries.value, gameDir, h))
  }

  /** Launching after installing finds every library file it names: when
      the install stage has stored every library, the classpath names only
      stored files. */
  lemma ClasspathAfterInstall<R>(libs: seq<Meta.Library<R>>, libsRoot: Path, h: Host, fs: map<Path, Bytes>)
    requires Install.AllLibsStored(libs, libsRoot, h, fs)
    ensures ClasspathEntries(libs, libsRoot, h).Ok? ==> forall p :: p in ClasspathEntries(libs, libsRoot, h).value ==> p in fs
  {
    var r := ClasspathEntries(libs, libsRoot, h);
    if r.Ok? {
      forall p | p in r.value ensures p in fs {
        var k :| 0 <= k < |r.value| && r.value[k] == p;
        var i :| 0 <= i < |libs| && EntryOf(r.value[k], libs[i], libsRoot, h);
        assert Install.LibStored(libs[i], libsRoot, h, fs);
      }
    }
  }

  // ---------------------------------------------------------------------
  // The older required-library list

  /** A library that declares natives but no classifiers. */
  predicate OrphanNatives<R>(lib: Meta.Library<R>)
  {
    lib.natives.Some? && lib.downloads.classifiers.None?
  }

  /** The libraries with an orphan natives map left out, in order. */
  function WithoutOrphans<R(==)>(libs: seq<Meta.Library<R>>): (r: seq<Meta.Library<R>>)
    ensures |r| <= |libs|
    ensures forall k :: 0 <= k < |r| ==> !OrphanNatives(r[k]) && r[k] in libs
    ensures (forall i :: 0 <= i < |libs| ==> !OrphanNatives(libs[i])) ==> r == libs
    decreases |libs|
  {
    if |libs| == 0 then []
    else
      var rest := WithoutOrphans(libs[1..]);
      assert forall i :: 0 <= i < |libs[1..]| ==> libs[1..][i] == libs[i + 1];
      if OrphanNatives(libs[0]) then rest
      else
        assert forall k :: 1 <= k < |[libs[0]] + rest| ==> ([libs[0]] + rest)[k] == rest[k - 1];
        [libs[0]] + rest
  }

  /** `Client::get_req_libs` of the older JSON model as written, each path
      joined onto the libraries root as `execute` does: the libraries whose
      rules allow them, each giving its host native and then its artifact
      as the classpath does, except that a library declaring natives but
      no classifiers contributes nothing at all, its artifact included. So
      the list is the classpath's entries of the allowed libraries with
      those left out. */
  function ReqLibPaths<R(==,!new)>(libraries: seq<Meta.Library<R>>, allowed: R -> bool, libsRoot: Path, h: Host)
    : (r: Result<seq<Path>, Error>)
    ensures r == ClasspathEntries(WithoutOrphans(Meta.Libs(libraries, allowed)), libsRoot, h)
    decreases |libraries|
  {
    if |libraries| == 0 then Ok([])
    else
      var rest := ReqLibPaths(libraries[1..], allowed, libsRoot, h);
      ReqLibPathsStep(libraries, allowed, libsRoot, h);
      if !Meta.LibraryAllowed(libraries[0], allowed) || OrphanNatives(libraries[0]) then rest
      else
        var here := LibEntries(libraries[0], libsRoot, h);
        if here.Err? then Err(here.error)
        else if rest.Err? then Err(rest.error)
        else Ok(here.value + rest.value)
  }

  /** How the reference list unfolds at the first library. */
  lemma ReqLibPathsStep<R(!new)>(libraries: seq<Meta.Library<R>>, allowed: R -> bool, libsRoot: Path, h: Host)
    requires |libraries| > 0
    ensures var lib := libraries[0];
      var all := ClasspathEntries(WithoutOrphans(Meta.Libs(libraries, allowed)), libsRoot, h);
      var rest := ClasspathEntries(WithoutOrphans(Meta.Libs(libraries[1..], allowed)), libsRoot, h);
      && (!Meta.LibraryAllowed(lib, allowed) || OrphanNatives(lib) ==> all == rest)
      && (Meta.LibraryAllowed(lib, allowed) && !OrphanNatives(lib) ==>
            all == (var here := LibEntries(lib, libsRoot, h);
                    if here.Err? then Err(here.error) else if rest.Err? then Err(rest.error) else Ok(here.value + rest.value)))
  {
    var lib := libraries[0];
    var tail := Meta.Libs(libraries[1..], allowed);
    if Meta.LibraryAllowed(lib, allowed) {
      var l := [lib] + tail;
      assert Meta.Libs(libraries, allowed) == l;
      assert l[0] == lib && l[1..] == tail;
      if !OrphanNatives(lib) {
        var n := [lib] + WithoutOrphans(tail);
        assert WithoutOrphans(l) == n;
        assert n[0] == lib && n[1..] == WithoutOrphans(tail);
      }
    }
  }

  /** Without an allowed library that declares natives but no classifiers,
      the as-written list is the classpath's library part. */
  lemma ReqLibPathsEqualsClasspath<R(!new)>(libraries: seq<Meta.Library<R>>, allowed: R -> bool, libsRoot: Path, h: Host)
    requires forall i :: 0 <= i < |libraries| && Meta.LibraryAllowed(libraries[i], allowed) ==> !OrphanNatives(libraries[i])
    ensures ReqLibPaths(libraries, allowed, libsRoot, h) == ClasspathEntries(Meta.Libs(libraries, allowed), libsRoot, h)
  {
    var l := Meta.Libs(libraries, allowed);
    forall i | 0 <= i < |l| ensures !OrphanNatives(l[i]) {
      assert l[i] in l;
      var j :| 0 <= j < |libraries| && libraries[j] == l[i];
    }
  }

  /** Whenever the classpath can be built, so can the as-written list, and
      every path on it is a classpath entry. */
  lemma ReqLibPathsWithinClasspath<R(!new)>(libraries: seq<Meta.Library<R>>, allowed: R -> bool, libsRoot: Path, h: Host)
    ensures var cp := ClasspathEntries(Meta.Libs(libraries, allowed), libsRoot, h);
      var r := ReqLibPaths(libraries, allowed, libsRoot, h);
      cp.Ok? ==> r.Ok? && forall p :: p in r.value ==> p in cp.value
  {
    var l := Meta.Libs(libraries, allowed);
    var n := WithoutOrphans(l);
    var cp := ClasspathEntries(l, libsRoot, h);
    if cp.Ok? {
      forall k | 0 <= k < |n| ensures Placeable(n[k], h) {
        var i :| 0 <= i < |l| && l[i] == n[k];
      }
      EntriesWithin(l, n, libsRoot, h);
    }
  }

  lemma EntriesWithin<R>(l: seq<Meta.Library<R>>, n: seq<Meta.Library<R>>, libsRoot: Path, h: Host)
    requires ClasspathEntries(l, libsRoot, h).Ok? && ClasspathEntries(n, libsRoot, h).Ok?
    requires forall k :: 0 <= k < |n| ==> n[k] in l
    ensures forall p :: p in ClasspathEntries(n, libsRoot, h).value ==> p in ClasspathEntries(l, libsRoot, h).value
  {
    var r := ClasspathEntries(n, libsRoot, h).value;
    forall p | p in r ensures p in ClasspathEntries(l, libsRoot, h).value {
      var k :| 0 <= k < |r| && r[k] == p;
      var j :| 0 <= j < |n| && EntryOf(p, n[j], libsRoot, h);
      var i :| 0 <= i < |l| && l[i] == n[j];
    }
  }

  /** The discrepancy: a library with an empty natives map, no classifiers
      and an artifact. The older download loop stores its artifact, but the
      older required-library list leaves it off the classpath, where the
      current classpath has it. */
  lemma ReqLibPathsDropArtifact<R(!new)>(libsRoot: Path, gameDir: Path, h: Host, url: Url, w: Cache.World, net: Cache.Network,
                                         unzip: Archive.Unzip, dirs: Archive.DirTest, allowed: R -> bool)
    ensures var lib: Meta.Library<R> := Meta.Library(
        Meta.LibraryDownload(Some(Meta.Download(None, Some(["lib.jar"]), url)), None), None, Some(map[]), None);
      var fetched := Install.FetchLibrary(lib, libsRoot, gameDir, h, w, net, unzip, dirs, true);
      && (fetched.0.Ok? ==> libsRoot + ["lib.jar"] in fetched.1.fs)
      && ReqLibPaths([lib], allowed, libsRoot, h) == Ok([])
      && ClasspathEntries(Meta.Libs([lib], allowed), libsRoot, h) == Ok([libsRoot + ["lib.jar"]])
  {
    var lib: Meta.Library<R> := Meta.Library(
      Meta.LibraryDownload(Some(Meta.Download(None, Some(["lib.jar"]), url)), None), None, Some(map[]), None);
    assert [lib][1..] == [];
    assert Meta.Libs([lib], allowed) == [lib];
    assert Meta.PlatformNative(lib, h).NoNative?;
    assert OrphanNatives(lib);
    assert WithoutOrphans([lib]) == [];
    assert Placeable(lib, h);
    assert Cache.Target(lib.downloads.artifact.value, libsRoot) == libsRoot + ["lib.jar"];
    assert ClasspathEntries([lib][1..], libsRoot, h) == Ok([]);
    var here := LibEntries(lib, libsRoot, h);
    assert here.Ok? && |here.value| == 1 && here.value[0] == libsRoot + ["lib.jar"];
    assert here.value == [libsRoot + ["lib.jar"]];
    assert here.value + [] == here.value;
  }

  // ---------------------------------------------------------------------
  // Arguments

  /** The panic of `read_client().expect(...)` when `client.json` is
      missing. */
  const ReadClientFailed: string := "failed to read client.json, Self::generate_arguments must be called after Self::install"

  /** The launcher's fixed values for the well-known placeholders of a profile. */
  function Context<R>(client: Meta.Client<R>, classpath: string, gameDir: Path, assetsRoot: Path, version: string)
    : Templates.LaunchContext
  {
    Templates.LaunchContext(
      Display(gameDir), Display(assetsRoot), client.assets, version, classpath, Display(Install.NativesPath(gameDir)))
  }

  /** Every token substituted. */
  function SubstituteAll(tokens: seq<string>, resolve: string -> string): (r: seq<string>)
    ensures |r| == |tokens|
    ensures forall i :: 0 <= i < |tokens| ==> r[i] == Templates.Substitute(tokens[i], resolve)
  {
    seq(|tokens|, i requires 0 <= i < |tokens| => Templates.Substitute(tokens[i], resolve))
  }

  /** `args` is the substituted JVM tokens, the main class, then the
      substituted game tokens. */
  predicate ArgumentsFrom(args: seq<string>, raw: (seq<string>, seq<string>), mainClass: string, resolve: string -> string)
  {
    && |args| == |raw.0| + 1 + |raw.1|
    && args[|raw.0|] == mainClass
    && (forall i :: 0 <= i < |raw.0| ==> args[i] == Templates.Substitute(raw.0[i], resolve))
    && (forall i :: 0 <= i < |raw.1| ==> args[|raw.0| + 1 + i] == Templates.Substitute(raw.1[i], resolve))
  }

  /** The resolver a profile's arguments are substituted with. */
  function ProfileResolver<R(==,!new)>(c: Meta.Client<R>, config: Configs.Config, allowed: R -> bool,
                                       libsRoot: Path, assetsRoot: Path, gameDir: Path, version: string, h: Host): string -> string
    requires Classpath(c, allowed, libsRoot, gameDir, h).Ok?
  {
    Templates.Resolver(Context(c, Classpath(c, allowed, libsRoot, gameDir, h).value, gameDir, assetsRoot, version), config)
  }

  /** The substituted JVM tokens, the main class, the substituted game
      tokens. */
  function Assemble(raw: (seq<string>, seq<string>), mainClass: string, resolve: string -> string): (r: seq<string>)
    ensures ArgumentsFrom(r, raw, mainClass, resolve)
  {
    var jvm := SubstituteAll(raw.0, resolve);
    var game := SubstituteAll(raw.1, resolve);
    AroundIndices(jvm, mainClass, game);
    jvm + [mainClass] + game
  }

  /** `Profile::generate_arguments`: a missing `client.json` panics, so does
      a classpath that cannot be built; otherwise the substituted JVM
      tokens, the main class, then the substituted game tokens. */
  function GenerateArguments<R(==,!new)>(client: Option<Meta.Client<R>>, config: Configs.Config, allowed: R -> bool,
                                         libsRoot: Path, assetsRoot: Path, gameDir: Path, version: string, h: Host)
    : (r: Result<seq<string>, Error>)
    ensures client.None? ==> r == Err(Panic(ReadClientFailed))
    ensures client.Some? ==> (r.Ok? <==> Classpath(client.value, allowed, libsRoot, gameDir, h).Ok?)
    ensures r.Err? ==> r.error.Panic?
    ensures r.Ok? ==> ArgumentsFrom(r.value, Meta.IntoRaw(client.value.arguments, allowed), client.value.mainClass,
                                    ProfileResolver(client.value, config, allowed, libsRoot, assetsRoot, gameDir, version, h))
  {
    match client
    case None => Err(Panic(ReadClientFailed))
    case Some(c) =>
      var cp := Classpath(c, allowed, libsRoot, gameDir, h);
      if cp.Err? then Err(cp.error)
      else Ok(Assemble(Meta.IntoRaw(c.arguments, allowed), c.mainClass,
                       ProfileResolver(c, config, allowed, libsRoot, assetsRoot, gameDir, version, h)))
  }

  /** Where the parts of `before + [x] + after` sit. */
  lemma AroundIndices(before: seq<string>, x: string, after: seq<string>)
    ensures var all := before + [x] + after;
      && |all| == |before| + 1 + |after|
      && all[|before|] == x
      && (forall i :: 0 <= i < |before| ==> all[i] == before[i])
      && (forall i :: 0 <= i < |after| ==> all[|before| + 1 + i] == after[i])
  {
  }

  /** A token without a `$` reaches the command line as it is, in its
      place, in any argument list that `GenerateArguments` produces. */
  lemma PlainTokensKept(args: seq<string>, raw: (seq<string>, seq<string>), mainClass: string, resolve: string -> string)
    requires ArgumentsFrom(args, raw, mainClass, resolve)
    ensures forall i :: 0 <= i < |raw.0| && '$' !in raw.0[i] ==> args[i] == raw.0[i]
    ensures forall i :: 0 <= i < |raw.1| && '$' !in raw.1[i] ==> args[|raw.0| + 1 + i] == raw.1[i]
  {
    forall t | '$' !in t ensures Templates.Substitute(t, resolve) == t {
      Templates.SubstituteLiteral(t, "", resolve);
      assert t + "" == t;
    }
  }

  /** The three JVM tokens synthesised for a legacy argument string, once
      substituted: the natives option with the directory, `-cp`, and the
      classpath. */
  lemma LegacyJvmTokensResolve(resolve: string -> string)
    ensures Templates.Substitute(Meta.LegacyJvmTokens[0], resolve) == "-Djava.library.path=" + resolve("natives_directory")
    ensures Templates.Substitute(Meta.LegacyJvmTokens[1], resolve) == "-cp"
    ensures Templates.Substitute(Meta.LegacyJvmTokens[2], resolve) == resolve("classpath")
  {
    NativesTokenResolves(resolve);
    CpTokenResolves(resolve);
    ClasspathTokenResolves(resolve);
  }

  lemma NativesTokenResolves(resolve: string -> string)
    ensures Templates.Substitute("-Djava.library.path=${natives_directory}", resolve) == "-Djava.library.path=" + resolve("natives_directory")
  {
    NativesTokenParts();
    Templates.SubstituteLiteralThenHole("-Djava.library.path=", "natives_directory", resolve);
  }

  /** The natives token is a `$`-free literal followed by one placeholder. */
  lemma NativesTokenParts()
    ensures '$' !in "-Djava.library.path="
    ensures Templates.IsWord("natives_directory")
    ensures "-Djava.library.path=" + "${" + "natives_directory" + "}" == "-Djava.library.path=${natives_directory}"
  {
    NativesPrefixPlain();
    NativesNameIsWord();
  }

  lemma NativesPrefixPlain()
    ensures '$' !in "-Djava.library.path="
  {
  }

  lemma NativesNameIsWord()
    ensures Templates.IsWord("natives_directory")
  {
  }

  lemma CpTokenResolves(resolve: string -> string)
    ensures Templates.Substitute("-cp", resolve) == "-cp"
  {
    Templates.SubstituteLiteral("-cp", "", resolve);
    assert "-cp" + "" == "-cp";
  }

  lemma ClasspathTokenResolves(resolve: string -> string)
    ensures Templates.Substitute("${classpath}", resolve) == resolve("classpath")
  {
    assert Templates.IsWord("classpath");
    Templates.SubstituteHole("classpath", "", resolve);
    assert "${" + "classpath" + "}" + "" == "${classpath}";
  }

  /** The JVM head of the arguments for a descriptor with a legacy
      argument string: the natives directory option, `-cp`, the classpath
      and the main class. */
  function LegacyJvmHead<R>(client: Meta.Client<R>, classpath: string, gameDir: Path): seq<string>
  {
    ["-Djava.library.path=" + Display(Install.NativesPath(gameDir)), "-cp", classpath, client.mainClass]
  }

  /** For a descriptor with a legacy argument string the arguments start
      with the natives directory option, `-cp`, the classpath and the main
      class. */
  lemma LegacyShapeArguments<R(!new)>(client: Meta.Client<R>, config: Configs.Config, allowed: R -> bool,
                                      libsRoot: Path, assetsRoot: Path, gameDir: Path, version: string, h: Host)
    requires client.arguments.MinecraftArgs?
    requires Classpath(client, allowed, libsRoot, gameDir, h).Ok?
    ensures var r := GenerateArguments(Some(client), config, allowed, libsRoot, assetsRoot, gameDir, version, h);
      && r.Ok? && |r.value| >= 4
      && r.value[..4] == LegacyJvmHead(client, Classpath(client, allowed, libsRoot, gameDir, h).value, gameDir)
  {
    var resolve := ProfileResolver(client, config, allowed, libsRoot, assetsRoot, gameDir, version, h);
    assert resolve("natives_directory") == Display(Install.NativesPath(gameDir));
    assert resolve("classpath") == Classpath(client, allowed, libsRoot, gameDir, h).value;
    var r := GenerateArguments(Some(client), config, allowed, libsRoot, assetsRoot, gameDir, version, h);
    var raw := Meta.IntoRaw(client.arguments, allowed);
    ThreeTokenHead(r.value, raw, client.mainClass, resolve);
    LegacyJvmTokensResolve(resolve);
  }

  /** With three JVM tokens, the arguments start with the three
      substituted tokens and the main class. */
  lemma ThreeTokenHead(args: seq<string>, raw: (seq<string>, seq<string>), mainClass: string, resolve: string -> string)
    requires ArgumentsFrom(args, raw, mainClass, resolve) && |raw.0| == 3
    ensures |args| >= 4
    ensures args[..4] == [Templates.Substitute(raw.0[0], resolve), Templates.Substitute(raw.0[1], resolve),
                          Templates.Substitute(raw.0[2], resolve), mainClass]
  {
    FourPrefix(args, [Templates.Substitute(raw.0[0], resolve), Templates.Substitute(raw.0[1], resolve),
                      Templates.Substitute(raw.0[2], resolve), mainClass]);
  }

  /** Substituting with two resolvers that agree on every name gives the
      same tokens. */
  lemma SubstituteAllCongruent(tokens: seq<string>, f: string -> string, g: string -> string)
    requires forall n :: f(n) == g(n)
    ensures SubstituteAll(tokens, f) == SubstituteAll(tokens, g)
  {
    forall i | 0 <= i < |tokens| ensures Templates.Substitute(tokens[i], f) == Templates.Substitute(tokens[i], g) {
      Templates.SubstituteCongruent(tokens[i], f, g);
    }
  }

  /** Resolvers over two configurations that agree on every name the
      launcher does not fix agree on every name. */
  lemma ResolversAgree(ctx: Templates.LaunchContext, c1: Configs.Config, c2: Configs.Config)
    requires forall k :: k !in Templates.FixedNames ==> Configs.Get(c1, k) == Configs.Get(c2, k)
    ensures forall n :: Templates.Resolver(ctx, c1)(n) == Templates.Resolver(ctx, c2)(n)
  {
    forall n ensures Templates.ResolvePlaceholder(n, ctx, c1) == Templates.ResolvePlaceholder(n, ctx, c2) {
      if n in Templates.FixedNames {
        Templates.FixedNamesIgnoreConfig(n, ctx, c1, c2);
      } else {
        assert Configs.Get(c1, n) == Configs.Get(c2, n);
      }
    }
  }

  /** Configuration values fill only the names the launcher does not fix:
      two configurations that agree on every other name give the same
      arguments. */
  lemma ConfigOnlyFillsFreeNames<R(!new)>(client: Meta.Client<R>, c1: Configs.Config, c2: Configs.Config, allowed: R -> bool,
                                          libsRoot: Path, assetsRoot: Path, gameDir: Path, version: string, h: Host)
    requires forall k :: k !in Templates.FixedNames ==> Configs.Get(c1, k) == Configs.Get(c2, k)
    ensures GenerateArguments(Some(client), c1, allowed, libsRoot, assetsRoot, gameDir, version, h)
         == GenerateArguments(Some(client), c2, allowed, libsRoot, assetsRoot, gameDir, version, h)
  {
    var cp := Classpath(client, allowed, libsRoot, gameDir, h);
    if cp.Ok? {
      var ctx := Context(client, cp.value, gameDir, assetsRoot, version);
      ResolversAgree(ctx, c1, c2);
      var raw := Meta.IntoRaw(client.arguments, allowed);
      SubstituteAllCongruent(raw.0, Templates.Resolver(ctx, c1), Templates.Resolver(ctx, c2));
      SubstituteAllCongruent(raw.1, Templates.Resolver(ctx, c1), Templates.Resolver(ctx, c2));
    }
  }

  // ---------------------------------------------------------------------
  // Configuration

  /** `Profile::get_config`: a failure reading the global configuration is
      the result; otherwise the profile's configuration, if it has one,
      merged over the global one: per key, the profile's value when it has
      the key, the global value otherwise. */
  function GetConfig(global: Result<Configs.Config, Error>, profile: Option<Configs.Config>): (r: Result<Configs.Config, Error>)
    ensures global.Err? ==> r == Err(global.error)
    ensures global.Ok? ==> r.Ok?
    ensures global.Ok? && profile.None? ==> r == global
    ensures global.Ok? && profile.Some? ==>
      forall k :: Configs.Get(profile.value, k).Some? ==> Configs.Get(r.value, k) == Configs.Get(profile.value, k)
    ensures global.Ok? && profile.Some? ==>
      forall k :: Configs.Get(profile.value, k).None? ==> Configs.Get(r.value, k) == Configs.Get(global.value, k)
  {
    match global
    case Err(e) => Err(e)
    case Ok(g) =>
      match profile
      case None => Ok(g)
      case Some(p) => Ok(Configs.Merge(p, g))
  }

  // ---------------------------------------------------------------------
  // Running

  datatype Command = Command(program: string, args: seq<string>)

  /** How a run ends: the process could not be started, it exited with a
      code, or a signal ended it (no code). */
  datatype ExitStatus = SpawnFailed(message: string) | Exited(code: int) | Signalled

  /** Starting a process and waiting for it is outside the model. */
  type Runner = Command -> ExitStatus

  /** `Profile::execute`'s reading of the exit status: success only for
      code 0; another code is `MinecraftFailure(code)`; a failure to start
      is an I/O error; a signal has no code, and `code().unwrap()`
      panics. */
  function Outcome(st: ExitStatus): (r: Result<(), Error>)
    ensures r.Ok? <==> st == Exited(0)
    ensures st.SpawnFailed? ==> r == Err(Io(st.message))
    ensures st.Exited? && st.code != 0 ==> r == Err(MinecraftFailure(st.code))
    ensures st.Signalled? ==> r == Err(Panic(Install.UnwrapNone))
  {
    match st
    case SpawnFailed(m) => Err(Io(m))
    case Exited(c) => if c == 0 then Ok(()) else Err(MinecraftFailure(c))
    case Signalled => Err(Panic(Install.UnwrapNone))
  }

  /** The configuration names a Java and both heap sizes. */
  predicate HeapAndJava(c: Configs.Config)
  {
    && Configs.Get(c, "current_java_path").Some?
    && Configs.Get(c, "max_ram").Some?
    && Configs.Get(c, "min_ram").Some?
  }

  /** The command line of `Profile::execute`: the configuration must hold
      `current_java_path`, `max_ram` and `min_ram` (each `unwrap` panics
      otherwise), and the arguments must be generated; the program is the
      Java path and the arguments are the heap sizes followed by the
      generated arguments. */
  function BuildCommand<R(==,!new)>(config: Result<Configs.Config, Error>, client: Option<Meta.Client<R>>, allowed: R -> bool,
                                    libsRoot: Path, assetsRoot: Path, gameDir: Path, version: string, h: Host)
    : (r: Result<Command, Error>)
    ensures config.Err? ==> r == Err(config.error)
    ensures config.Ok? && !HeapAndJava(config.value) ==> r == Err(Panic(Install.UnwrapNone))
    ensures config.Ok? && HeapAndJava(config.value) ==>
      (r.Ok? <==> GenerateArguments(client, config.value, allowed, libsRoot, assetsRoot, gameDir, version, h).Ok?)
    ensures r.Ok? ==> config.Ok? && HeapAndJava(config.value)
    ensures r.Ok? ==>
      && r.value.program == Configs.Get(config.value, "current_java_path").value
      && r.value.args == ["-Xmx" + Configs.Get(config.value, "max_ram").value + "M",
                          "-Xms" + Configs.Get(config.value, "min_ram").value + "M"]
                         + GenerateArguments(client, config.value, allowed, libsRoot, assetsRoot, gameDir, version, h).value
  {
    match config
    case Err(e) => Err(e)
    case Ok(c) =>
      match (Configs.Get(c, "current_java_path"), Configs.Get(c, "max_ram"), Configs.Get(c, "min_ram"))
      case (Some(java), Some(max), Some(min)) =>
        var args := GenerateArguments(client, c, allowed, libsRoot, assetsRoot, gameDir, version, h);
        if args.Err? then Err(args.error)
        else Ok(Command(java, ["-Xmx" + max + "M", "-Xms" + min + "M"] + args.value))
      case _ => Err(Panic(Install.UnwrapNone))
  }

  /** `Profile::execute`: the configuration, then the command line, then
      the run. The command runs only when it could be built, and the result
      is then the reading of its exit status. The second component is the
      command run, if any. */
  function Execute<R(==,!new)>(global: Result<Configs.Config, Error>, profileConfig: Option<Configs.Config>,
                               client: Option<Meta.Client<R>>, allowed: R -> bool,
                               libsRoot: Path, assetsRoot: Path, gameDir: Path, version: string, h: Host, run: Runner)
    : (r: (Result<(), Error>, Option<Command>))
    ensures var cmd := BuildCommand(GetConfig(global, profileConfig), client, allowed, libsRoot, assetsRoot, gameDir, version, h);
      && (r.1.Some? <==> cmd.Ok?)
      && (cmd.Err? ==> r.0 == Err(cmd.error))
      && (cmd.Ok? ==> r.1 == Some(cmd.value) && r.0 == Outcome(run(cmd.value)))
    ensures r.0.Ok? ==> r.1.Some? && run(r.1.value) == Exited(0)
    ensures global.Err? ==> r == (Err(global.error), None)
  {
    var cmd := BuildCommand(GetConfig(global, profileConfig), client, allowed, libsRoot, assetsRoot, gameDir, version, h);
    if cmd.Err? then (Err(cmd.error), None) else (Outcome(run(cmd.value)), Some(cmd.value))
  }

  // ---------------------------------------------------------------------
  // The older launcher's command line

  /** The configuration the older `Profile::execute` uses: the profile's
      record when it has one, the global record otherwise. */
  function LegacyConfigFor(global: LegacyConfigs.Config, profile: Option<LegacyConfigs.Config>): LegacyConfigs.Config
  {
    if profile.Some? then profile.value else global
  }

  /** The command line of the older `Profile::execute`: the heap sizes, the
      natives directory, `-cp` and the classpath, the main class, then the
      six option pairs for token, user, version, game directory, assets
      directory and asset index. `libPaths` are the required library paths
      below the libraries root. */
  function LegacyCommand<R>(global: LegacyConfigs.Config, profile: Option<LegacyConfigs.Config>, client: Meta.Client<R>,
                            libPaths: seq<Path>, assetsRoot: Path, gameDir: Path, version: string, h: Host): (c: Command)
    ensures var cfg := LegacyConfigFor(global, profile);
      && c.program == cfg.currentJavaPath
      && |c.args| == 18
      && c.args[..6] == LegacyHead(Text.IntToDecimal(cfg.maxRam), Text.IntToDecimal(cfg.minRam), client,
                                   JoinClasspath(libPaths, gameDir, h), gameDir)
      && c.args[6..] == LegacyOptions(cfg, client, assetsRoot, gameDir, version)
  {
    var cfg := LegacyConfigFor(global, profile);
    var head := LegacyHead(Text.IntToDecimal(cfg.maxRam), Text.IntToDecimal(cfg.minRam), client,
                           JoinClasspath(libPaths, gameDir, h), gameDir);
    var options := LegacyOptions(cfg, client, assetsRoot, gameDir, version);
    assert (head + options)[..6] == head && (head + options)[6..] == options;
    Command(cfg.currentJavaPath, head + options)
  }

  /** The six option pairs of the older command line: token, user,
      version, game directory, assets directory and asset index. */
  function LegacyOptions<R>(cfg: LegacyConfigs.Config, client: Meta.Client<R>, assetsRoot: Path, gameDir: Path, version: string)
    : (r: seq<string>)
    ensures |r| == 12
  {
    ["--accessToken", cfg.accessToken, "--username", cfg.username, "--version", version,
     "--gameDir", Display(gameDir), "--assetsDir", Display(assetsRoot), "--assetIndex", client.assets]
  }

  /** The older configuration is a replacement, not a merge: once the
      profile has a record, the global record has no influence on the
      command line. The current launcher's merge, by contrast, lets every
      key the profile lacks show through from the global configuration. */
  lemma ConfigReplacedVersusMerged<R>(g1: LegacyConfigs.Config, g2: LegacyConfigs.Config, p: LegacyConfigs.Config,
                                      client: Meta.Client<R>, libPaths: seq<Path>, assetsRoot: Path, gameDir: Path, version: string, h: Host,
                                      global: Configs.Config, profile: Configs.Config, key: string)
    requires Configs.Get(profile, key).None?
    ensures LegacyCommand(g1, Some(p), client, libPaths, assetsRoot, gameDir, version, h)
         == LegacyCommand(g2, Some(p), client, libPaths, assetsRoot, gameDir, version, h)
    ensures Configs.Get(GetConfig(Ok(global), Some(profile)).value, key) == Configs.Get(global, key)
  {
  }

  /** The older `Profile::execute` ends the same way whatever the exit
      code: `spawn().unwrap()` and `wait().unwrap()` panic when the process
      cannot be run, and the exit status is ignored. */
  function LegacyExecute<R>(global: LegacyConfigs.Config, profile: Option<LegacyConfigs.Config>, client: Meta.Client<R>,
                            libPaths: seq<Path>, assetsRoot: Path, gameDir: Path, version: string, h: Host, run: Runner)
    : (r: Result<(), Error>)
    ensures var st := run(LegacyCommand(global, profile, client, libPaths, assetsRoot, gameDir, version, h));
      && (r.Ok? <==> !st.SpawnFailed?)
      && (r.Err? ==> r.error == Panic(Assets.UnwrapErr))
  {
    match run(LegacyCommand(global, profile, client, libPaths, assetsRoot, gameDir, version, h))
    case SpawnFailed(_) => Err(Panic(Assets.UnwrapErr))
    case _ => Ok(())
  }

  /** The head both launchers put on the command line for a descriptor
      with a legacy argument string. */
  function LegacyHead<R>(maxRam: string, minRam: string, client: Meta.Client<R>, classpath: string, gameDir: Path): (r: seq<string>)
    ensures |r| == 6
  {
    ["-Xmx" + maxRam + "M", "-Xms" + minRam + "M"] + LegacyJvmHead(client, classpath, gameDir)
  }

  lemma CurrentHead<R(!new)>(config: Configs.Config, client: Meta.Client<R>, allowed: R -> bool,
                             libsRoot: Path, assetsRoot: Path, gameDir: Path, version: string, h: Host)
    requires client.arguments.MinecraftArgs?
    requires HeapAndJava(config)
    requires Classpath(client, allowed, libsRoot, gameDir, h).Ok?
    ensures var cur := BuildCommand(Ok(config), Some(client), allowed, libsRoot, assetsRoot, gameDir, version, h);
      && cur.Ok? && |cur.value.args| >= 6
      && cur.value.program == Configs.Get(config, "current_java_path").value
      && cur.value.args[..6] == LegacyHead(Configs.Get(config, "max_ram").value, Configs.Get(config, "min_ram").value, client,
                                           Classpath(client, allowed, libsRoot, gameDir, h).value, gameDir)
  {
    LegacyShapeArguments(client, config, allowed, libsRoot, assetsRoot, gameDir, version, h);
    var gen := GenerateArguments(Some(client), config, allowed, libsRoot, assetsRoot, gameDir, version, h).value;
    var heap := ["-Xmx" + Configs.Get(config, "max_ram").value + "M", "-Xms" + Configs.Get(config, "min_ram").value + "M"];
    PrefixOfConcat(heap, gen, 4);
  }

  /** A prefix of a concatenation reaching into its second part. */
  lemma PrefixOfConcat(a: seq<string>, b: seq<string>, n: nat)
    requires n <= |b|
    ensures (a + b)[..|a| + n] == a + b[..n]
  {
  }

  lemma FourPrefix(s: seq<string>, head: seq<string>)
    requires |s| >= 4 && |head| == 4
    requires s[0] == head[0] && s[1] == head[1] && s[2] == head[2] && s[3] == head[3]
    ensures s[..4] == head
  {
    assert forall k :: 0 <= k < 4 ==> s[..4][k] == head[k];
  }

  /** The two launchers agree on the head of the command line for a
      descriptor with a legacy argument string: with the same Java path,
      heap sizes and library entries, the program and the first six
      arguments coincide. */
  lemma LaunchHeadsAgree<R(!new)>(config: Configs.Config, cfg: LegacyConfigs.Config, client: Meta.Client<R>, allowed: R -> bool,
                                  libsRoot: Path, assetsRoot: Path, gameDir: Path, version: string, h: Host)
    requires client.arguments.MinecraftArgs?
    requires Configs.Get(config, "current_java_path") == Some(cfg.currentJavaPath)
    requires Configs.Get(config, "max_ram") == Some(Text.IntToDecimal(cfg.maxRam))
    requires Configs.Get(config, "min_ram") == Some(Text.IntToDecimal(cfg.minRam))
    requires ClasspathEntries(Meta.Libs(client.libraries, allowed), libsRoot, h).Ok?
    ensures var cur := BuildCommand(Ok(config), Some(client), allowed, libsRoot, assetsRoot, gameDir, version, h);
      var prev := LegacyCommand(cfg, None, client, ClasspathEntries(Meta.Libs(client.libraries, allowed), libsRoot, h).value,
                               assetsRoot, gameDir, version, h);
      && cur.Ok? && |cur.value.args| >= 6
      && cur.value.program == prev.program
      && cur.value.args[..6] == prev.args[..6]
  {
    CurrentHead(config, client, allowed, libsRoot, assetsRoot, gameDir, version, h);
  }
}
