/** The decoded version metadata: downloads, launch arguments in their two
    wire shapes, libraries with their rules and natives, and the client
    descriptor. Argument and library types are generic in the rule type `R`
    so that the current rules and the older string-action rules share one
    definition; the rule verdict is passed in as `allowed`. */
module Meta {
  import opened Wrappers
  import opened Platform
  import opened Rules
  import opened Paths
  import Text

  /** A downloadable file: an optional identifier (asset indexes carry one),
      an optional path relative to the directory it is stored under, and the
      URL. Checksum and size are carried by the metadata but never checked,
      so they are not part of the model. */
  datatype Download = Download(id: Option<string>, subPath: Option<Path>, url: Url)

  // ---------------------------------------------------------------------
  // Launch arguments

  datatype ArgValue = Value(value: string) | Values(values: seq<string>)

  /** A literal token, or tokens guarded by a rule list. */
  datatype Argument<R> = Arg(token: string) | Conditional(rules: seq<R>, value: ArgValue)

  /** The structured shape (separate JVM and game lists) or the legacy
      single space-separated string of game arguments. */
  datatype Arguments<R> = Args(game: seq<Argument<R>>, jvm: seq<Argument<R>>) | MinecraftArgs(line: string)

  function ValueTokens(v: ArgValue): seq<string>
  {
    match v
    case Value(s) => [s]
    case Values(vs) => vs
  }

  /** `Argument::into_raw`: a literal is one token; a conditional gives its
      value(s) when every rule allows (an empty rule list allows) and nothing
      otherwise. */
  function ArgumentTokens<R>(a: Argument<R>, allowed: R -> bool): (r: seq<string>)
    ensures a.Arg? ==> r == [a.token]
    ensures a.Conditional? && (forall i :: 0 <= i < |a.rules| ==> allowed(a.rules[i])) ==> r == ValueTokens(a.value)
    ensures a.Conditional? && (exists i :: 0 <= i < |a.rules| && !allowed(a.rules[i])) ==> r == []
  {
    match a
    case Arg(s) => [s]
    case Conditional(rules, value) => if AllAllowed(rules, allowed) then ValueTokens(value) else []
  }

  /** `args.into_iter().map(into_raw).flatten()`: the tokens of every
      argument, in declared order. */
  function Flatten<R>(args: seq<Argument<R>>, allowed: R -> bool): seq<string>
    decreases |args|
  {
    if |args| == 0 then [] else ArgumentTokens(args[0], allowed) + Flatten(args[1..], allowed)
  }

  /** Flattening distributes over concatenation of argument lists. */
  lemma {:induction false} FlattenAppend<R>(a: seq<Argument<R>>, b: seq<Argument<R>>, allowed: R -> bool)
    ensures Flatten(a + b, allowed) == Flatten(a, allowed) + Flatten(b, allowed)
    decreases |a|
  {
    if |a| == 0 {
      assert a + b == b;
    } else {
      FlattenAppend(a[1..], b, allowed);
      assert (a + b)[1..] == a[1..] + b;
    }
  }

  /** Each argument contributes one contiguous block, between the tokens of
      the arguments before it and those after it. */
  lemma FlattenBlock<R>(args: seq<Argument<R>>, i: nat, allowed: R -> bool)
    requires i < |args|
    ensures Flatten(args, allowed)
         == Flatten(args[..i], allowed) + ArgumentTokens(args[i], allowed) + Flatten(args[i + 1..], allowed)
  {
    assert args == args[..i] + args[i..];
    FlattenAppend(args[..i], args[i..], allowed);
    var before, here, after := Flatten(args[..i], allowed), ArgumentTokens(args[i], allowed), Flatten(args[i + 1..], allowed);
    assert Flatten(args[i..], allowed) == here + after by {
      assert args[i..][0] == args[i];
      assert args[i..][1..] == args[i + 1..];
    }
    assert before + (here + after) == before + here + after;
  }

  /** With only literal arguments, flattening lists the literals in order. */
  lemma {:induction false} FlattenLiterals<R>(args: seq<Argument<R>>, allowed: R -> bool)
    requires forall i :: 0 <= i < |args| ==> args[i].Arg?
    ensures |Flatten(args, allowed)| == |args|
    ensures forall i :: 0 <= i < |args| ==> Flatten(args, allowed)[i] == args[i].token
    decreases |args|
  {
    if |args| > 0 {
      FlattenLiterals(args[1..], allowed);
    }
  }

  /** A conditional whose rules refuse contributes nothing: removing it does
      not change the tokens. */
  lemma RefusedArgumentVanishes<R>(args: seq<Argument<R>>, i: nat, allowed: R -> bool)
    requires i < |args| && args[i].Conditional?
    requires exists k :: 0 <= k < |args[i].rules| && !allowed(args[i].rules[k])
    ensures Flatten(args, allowed) == Flatten(args[..i] + args[i + 1..], allowed)
  {
    FlattenBlock(args, i, allowed);
    FlattenAppend(args[..i], args[i + 1..], allowed);
  }

  /** The JVM tokens synthesised for legacy descriptors, which declare none. */
  const LegacyJvmTokens: seq<string> := ["-Djava.library.path=${natives_directory}", "-cp", "${classpath}"]

  /** `Arguments::into_raw`: `(jvm tokens, game tokens)`. */
  function IntoRaw<R>(args: Arguments<R>, allowed: R -> bool): (r: (seq<string>, seq<string>))
    ensures args.MinecraftArgs? ==> r.0 == LegacyJvmTokens
    ensures args.MinecraftArgs? ==> Text.Join(r.1, ' ') == args.line
    ensures args.MinecraftArgs? ==> |r.1| == Text.Count(args.line, ' ') + 1
    ensures args.MinecraftArgs? ==> forall i :: 0 <= i < |r.1| ==> ' ' !in r.1[i]
    ensures args.Args? ==> r.0 == Flatten(args.jvm, allowed) && r.1 == Flatten(args.game, allowed)
  {
    match args
    case Args(game, jvm) => (Flatten(jvm, allowed), Flatten(game, allowed))
    case MinecraftArgs(line) =>
      Text.JoinSplit(line, ' ');
      (LegacyJvmTokens, Text.Split(line, ' '))
  }

  /** The JVM tokens of the structured shape do not depend on the game list,
      and the game tokens do not depend on the JVM list. */
  lemma ListsIndependent<R>(jvm: seq<Argument<R>>, game: seq<Argument<R>>, game': seq<Argument<R>>, jvm': seq<Argument<R>>, allowed: R -> bool)
    ensures IntoRaw(Args(game, jvm), allowed).0 == IntoRaw(Args(game', jvm), allowed).0
    ensures IntoRaw(Args(game, jvm), allowed).1 == IntoRaw(Args(game, jvm'), allowed).1
  {
  }

  // ---------------------------------------------------------------------
  // Libraries

  datatype LibraryDownload = LibraryDownload(artifact: Option<Download>, classifiers: Option<map<string, Download>>)

  /** `extract.exclude`: paths inside the native archive that are not
      unpacked. */
  datatype Extract = Extract(exclude: Option<seq<Path>>)

  /** A library: its downloads, optional extraction rules, optional map from
      OS to the classifier key of its native archive, optional rules. */
  datatype Library<R> = Library(
    downloads: LibraryDownload,
    extract: Option<Extract>,
    natives: Option<map<OsName, string>>,
    rules: Option<seq<R>>)

  /** `Library::is_allowed`: no rule list allows; otherwise every rule must
      allow, so an empty list allows too. */
  function LibraryAllowed<R>(lib: Library<R>, allowed: R -> bool): (b: bool)
    ensures lib.rules.None? ==> b
    ensures lib.rules.Some? ==> (b <==> forall i :: 0 <= i < |lib.rules.value| ==> allowed(lib.rules.value[i]))
  {
    lib.rules.None? || AllAllowed(lib.rules.value, allowed)
  }

  /** The outcome of `platform_native`; `MissingClassifier` is the panic of
      `classifiers.get(key).unwrap()` when the key names no classifier. */
  datatype NativeChoice = NoNative | Native(download: Download) | MissingClassifier(key: string)

  /** `Library::platform_native`: the classifier named by the host's entry
      of `natives`. The natives map has at most one entry per OS, so "the
      first entry for the host" is the host's entry. */
  function PlatformNative<R>(lib: Library<R>, h: Host): (r: NativeChoice)
    ensures lib.natives.None? || lib.downloads.classifiers.None? ==> r == NoNative
    ensures lib.natives.Some? && h.os !in lib.natives.value ==> r == NoNative
    ensures r.Native? <==>
      && lib.natives.Some? && lib.downloads.classifiers.Some?
      && h.os in lib.natives.value
      && lib.natives.value[h.os] in lib.downloads.classifiers.value
    ensures r.Native? ==> r.download == lib.downloads.classifiers.value[lib.natives.value[h.os]]
    ensures r.MissingClassifier? ==> r.key == lib.natives.value[h.os] && r.key !in lib.downloads.classifiers.value
  {
    if lib.natives.None? || lib.downloads.classifiers.None? then NoNative
    else if h.os !in lib.natives.value then NoNative
    else
      var key := lib.natives.value[h.os];
      if key in lib.downloads.classifiers.value then Native(lib.downloads.classifiers.value[key])
      else MissingClassifier(key)
  }

  /** `Client::libs`: the allowed libraries in declared order. */
  function Libs<R(==,!new)>(libs: seq<Library<R>>, allowed: R -> bool): (r: seq<Library<R>>)
    ensures |r| <= |libs|
    ensures forall l :: l in r <==> l in libs && LibraryAllowed(l, allowed)
    decreases |libs|
  {
    if |libs| == 0 then []
    else if LibraryAllowed(libs[0], allowed) then [libs[0]] + Libs(libs[1..], allowed)
    else Libs(libs[1..], allowed)
  }

  /** Filtering commutes with concatenation, so the filter keeps the
      relative order of the libraries it keeps. */
  lemma {:induction false} LibsAppend<R(!new)>(a: seq<Library<R>>, b: seq<Library<R>>, allowed: R -> bool)
    ensures Libs(a + b, allowed) == Libs(a, allowed) + Libs(b, allowed)
    decreases |a|
  {
    if |a| == 0 {
      assert a + b == b;
    } else {
      LibsAppend(a[1..], b, allowed);
      assert (a + b)[0] == a[0];
      assert (a + b)[1..] == a[1..] + b;
      if LibraryAllowed(a[0], allowed) {
        assert [a[0]] + (Libs(a[1..], allowed) + Libs(b, allowed)) == [a[0]] + Libs(a[1..], allowed) + Libs(b, allowed);
      }
    }
  }

  /** When every library is allowed the filter is the identity. */
  lemma {:induction false} LibsAllAllowed<R(!new)>(libs: seq<Library<R>>, allowed: R -> bool)
    requires forall i :: 0 <= i < |libs| ==> LibraryAllowed(libs[i], allowed)
    ensures Libs(libs, allowed) == libs
    decreases |libs|
  {
    if |libs| > 0 {
      LibsAllAllowed(libs[1..], allowed);
    }
  }

  // ---------------------------------------------------------------------
  // Descriptor, asset index, version manifest

  /** The client descriptor (`client.json`). */
  datatype Client<R> = Client(
    arguments: Arguments<R>,
    assetIndex: Download,
    assets: string,
    clientDownload: Download,
    javaMajor: Option<nat>,
    libraries: seq<Library<R>>,
    mainClass: string)

  /** One asset object of the asset index; only its hash decides where it
      is stored and fetched from. */
  datatype AssetObject = AssetObject(hash: string, size: int)

  datatype Version = Version(id: string, url: Url)

  datatype Manifest = Manifest(versions: seq<Version>)
}
