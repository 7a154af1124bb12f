/** `${name}` placeholders in launch tokens: the scanner that the launcher
    runs as the regular expression `\$\{(\w+)\}` with `replace_all`, the
    resolution of a placeholder name, and a printed-template view that
    states what substitution computes. */
module Templates {
  import opened Wrappers
  import Configs

  /** A character of `\w`, restricted to ASCII. */
  predicate IsWordChar(c: char)
  {
    ('a' <= c <= 'z') || ('A' <= c <= 'Z') || ('0' <= c <= '9') || c == '_'
  }

  predicate IsWord(s: string)
  {
    |s| > 0 && forall i :: 0 <= i < |s| ==> IsWordChar(s[i])
  }

  /** The longest prefix of `s` made of word characters. */
  function WordPrefix(s: string): (r: string)
    ensures r <= s
    ensures forall i :: 0 <= i < |r| ==> IsWordChar(r[i])
    ensures |r| < |s| ==> !IsWordChar(s[|r|])
    decreases |s|
  {
    if |s| == 0 || !IsWordChar(s[0]) then "" else [s[0]] + WordPrefix(s[1..])
  }

  /** The name of the placeholder that begins `s`, if one does: `${`, one or
      more word characters, `}`. The word run is maximal, so the match at a
      position is unique. */
  function PlaceholderAt(s: string): (r: Option<string>)
    ensures r.Some? ==> IsWord(r.value) && |s| >= |r.value| + 3
    ensures r.Some? ==> s[..|r.value| + 3] == "${" + r.value + "}"
  {
    if |s| >= 2 && s[0] == '$' && s[1] == '{' then
      var n := WordPrefix(s[2..]);
      if |n| > 0 && |s| > |n| + 2 && s[|n| + 2] == '}' then
        assert s[..|n| + 3] == "${" + n + "}" by {
          assert s[2..][..|n|] == n;
        }
        Some(n)
      else None
    else None
  }

  /** No position of `s` starts a placeholder. */
  predicate NoPlaceholder(s: string)
  {
    forall i :: 0 <= i < |s| ==> PlaceholderAt(s[i..]).None?
  }

  lemma NoPlaceholderTail(s: string)
    requires |s| > 0 && NoPlaceholder(s)
    ensures NoPlaceholder(s[1..])
  {
    forall i | 0 <= i < |s[1..]| ensures PlaceholderAt(s[1..][i..]).None? {
      assert s[1..][i..] == s[i + 1..];
    }
  }

  /** `regex.replace_all(token, resolve)`: scanning left to right, each
      placeholder is replaced by the resolution of its name and every other
      character is copied. */
  function Substitute(s: string, resolve: string -> string): string
    decreases |s|
  {
    if |s| == 0 then ""
    else match PlaceholderAt(s)
      case Some(n) => resolve(n) + Substitute(s[|n| + 3..], resolve)
      case None => [s[0]] + Substitute(s[1..], resolve)
  }

  /** A token with no placeholder is returned as it is. */
  lemma {:induction false} SubstituteNoPlaceholder(s: string, resolve: string -> string)
    requires NoPlaceholder(s)
    ensures Substitute(s, resolve) == s
    decreases |s|
  {
    if |s| > 0 {
      assert PlaceholderAt(s[0..]).None?;
      assert s[0..] == s;
      NoPlaceholderTail(s);
      SubstituteNoPlaceholder(s[1..], resolve);
      assert [s[0]] + s[1..] == s;
    }
  }

  /** Substitution sees the resolver only through its values: two resolvers
      that agree on every name substitute alike. */
  lemma {:induction false} SubstituteCongruent(s: string, f: string -> string, g: string -> string)
    requires forall n :: f(n) == g(n)
    ensures Substitute(s, f) == Substitute(s, g)
    decreases |s|
  {
    if |s| > 0 {
      match PlaceholderAt(s)
      case Some(n) => SubstituteCongruent(s[|n| + 3..], f, g);
      case None => SubstituteCongruent(s[1..], f, g);
    }
  }

  // ---------------------------------------------------------------------
  // Templates as pieces

  /** A template token seen as literal text and placeholders. */
  datatype Piece = Lit(text: string) | Hole(name: string)

  /** The token text a list of pieces spells. */
  function Print(ps: seq<Piece>): string
    decreases |ps|
  {
    if |ps| == 0 then ""
    else match ps[0]
      case Lit(t) => t + Print(ps[1..])
      case Hole(n) => "${" + n + "}" + Print(ps[1..])
  }

  /** The token that results from resolving every hole. */
  function Render(ps: seq<Piece>, resolve: string -> string): string
    decreases |ps|
  {
    if |ps| == 0 then ""
    else match ps[0]
      case Lit(t) => t + Render(ps[1..], resolve)
      case Hole(n) => resolve(n) + Render(ps[1..], resolve)
  }

  /** Literal text never contains `$` and every hole names a word. */
  predicate WellFormed(ps: seq<Piece>)
  {
    forall i :: 0 <= i < |ps| ==>
      match ps[i]
      case Lit(t) => '$' !in t
      case Hole(n) => IsWord(n)
  }

  lemma {:induction false} WordPrefixOfWord(n: string, rest: string)
    requires forall i :: 0 <= i < |n| ==> IsWordChar(n[i])
    ensures WordPrefix(n + "}" + rest) == n
    decreases |n|
  {
    if |n| > 0 {
      WordPrefixOfWord(n[1..], rest);
      assert (n + "}" + rest)[1..] == n[1..] + "}" + rest;
      assert [n[0]] + n[1..] == n;
    }
  }

  lemma SubstituteHole(n: string, rest: string, resolve: string -> string)
    requires IsWord(n)
    ensures Substitute("${" + n + "}" + rest, resolve) == resolve(n) + Substitute(rest, resolve)
  {
    var s := "${" + n + "}" + rest;
    assert s[2..] == n + "}" + rest;
    WordPrefixOfWord(n, rest);
    assert PlaceholderAt(s) == Some(n);
    assert s[|n| + 3..] == rest;
  }

  lemma {:induction false} SubstituteLiteral(t: string, rest: string, resolve: string -> string)
    requires '$' !in t
    ensures Substitute(t + rest, resolve) == t + Substitute(rest, resolve)
    decreases |t|
  {
    if |t| > 0 {
      var s := t + rest;
      assert s[0] == t[0] && s[0] != '$';
      assert PlaceholderAt(s).None?;
      assert '$' !in t[1..] by {
        forall k | 0 <= k < |t[1..]| ensures t[1..][k] != '$' {
          assert t[1..][k] == t[k + 1];
        }
      }
      SubstituteLiteral(t[1..], rest, resolve);
      assert s[1..] == t[1..] + rest;
      assert [t[0]] + t[1..] == t;
    } else {
      assert t + rest == rest;
    }
  }

  /** Literal text followed by one placeholder renders as the text and the
      placeholder's value. */
  lemma SubstituteLiteralThenHole(t: string, n: string, resolve: string -> string)
    requires '$' !in t && IsWord(n)
    ensures Substitute(t + "${" + n + "}", resolve) == t + resolve(n)
  {
    SubstituteHole(n, "", resolve);
    assert "${" + n + "}" + "" == "${" + n + "}";
    SubstituteLiteral(t, "${" + n + "}", resolve);
    assert t + "${" + n + "}" == t + ("${" + n + "}");
  }

  /** Substitution of a printed well-formed template renders it: literal
      text is kept and each hole becomes the resolution of its name. */
  lemma {:induction false} SubstitutePrinted(ps: seq<Piece>, resolve: string -> string)
    requires WellFormed(ps)
    ensures Substitute(Print(ps), resolve) == Render(ps, resolve)
    decreases |ps|
  {
    if |ps| > 0 {
      assert WellFormed(ps[1..]) by {
        forall i | 0 <= i < |ps[1..]| ensures
          match ps[1..][i]
          case Lit(t) => '$' !in t
          case Hole(n) => IsWord(n)
        {
          assert ps[1..][i] == ps[i + 1];
        }
      }
      SubstitutePrinted(ps[1..], resolve);
      match ps[0]
      case Lit(t) =>
        assert '$' !in t by { assert ps[0] == Lit(t); }
        SubstituteLiteral(t, Print(ps[1..]), resolve);
      case Hole(n) =>
        assert IsWord(n) by { assert ps[0] == Hole(n); }
        SubstituteHole(n, Print(ps[1..]), resolve);
    }
  }

  // ---------------------------------------------------------------------
  // Resolution

  /** The launcher's fixed values for the well-known names. */
  datatype LaunchContext = LaunchContext(
    gameDirectory: string,
    assetsRoot: string,
    assetsIndexName: string,
    versionName: string,
    classpath: string,
    nativesDirectory: string)

  const AuthUuid: string := "e371151a-b6b4-496a-b446-0abcd3e75ec4"

  const FixedNames: set<string> := {
    "game_directory", "assets_root", "game_assets", "assets_index_name",
    "version_name", "classpath", "natives_directory", "auth_uuid"}

  function FixedValue(name: string, ctx: LaunchContext): Option<string>
  {
    if name == "game_directory" then Some(ctx.gameDirectory)
    else if name == "assets_root" || name == "game_assets" then Some(ctx.assetsRoot)
    else if name == "assets_index_name" then Some(ctx.assetsIndexName)
    else if name == "version_name" then Some(ctx.versionName)
    else if name == "classpath" then Some(ctx.classpath)
    else if name == "natives_directory" then Some(ctx.nativesDirectory)
    else if name == "auth_uuid" then Some(AuthUuid)
    else None
  }

  /** `fmt_arg(name).unwrap_or_default()`: a well-known name takes its
      fixed value whatever the configuration holds; any other name is
      looked up in the configuration, and a name found nowhere becomes the
      empty string. */
  function ResolvePlaceholder(name: string, ctx: LaunchContext, config: Configs.Config): (r: string)
    ensures name == "game_directory" ==> r == ctx.gameDirectory
    ensures name == "assets_root" || name == "game_assets" ==> r == ctx.assetsRoot
    ensures name == "assets_index_name" ==> r == ctx.assetsIndexName
    ensures name == "auth_uuid" ==> r == AuthUuid
    ensures name == "classpath" ==> r == ctx.classpath
    ensures name == "natives_directory" ==> r == ctx.nativesDirectory
    ensures name == "version_name" ==> r == ctx.versionName
    ensures name !in FixedNames && Configs.Get(config, name).Some? ==> r == Configs.Get(config, name).value
    ensures name !in FixedNames && Configs.Get(config, name).None? ==> r == ""
  {
    match FixedValue(name, ctx)
    case Some(v) => v
    case None => Configs.Get(config, name).GetOr("")
  }

  /** Well-known names win over the configuration: two configurations give
      the same value for any fixed name. */
  lemma FixedNamesIgnoreConfig(name: string, ctx: LaunchContext, c1: Configs.Config, c2: Configs.Config)
    requires name in FixedNames
    ensures ResolvePlaceholder(name, ctx, c1) == ResolvePlaceholder(name, ctx, c2)
  {
  }

  /** The resolver the launcher applies to every token. */
  function Resolver(ctx: LaunchContext, config: Configs.Config): string -> string
  {
    (name: string) => ResolvePlaceholder(name, ctx, config)
  }

  /** A token that is exactly one placeholder becomes its value; in
      particular `${classpath}` becomes the classpath and an unknown name the
      empty string. */
  lemma WholeTokenPlaceholder(name: string, ctx: LaunchContext, config: Configs.Config)
    requires IsWord(name)
    ensures Substitute("${" + name + "}", Resolver(ctx, config)) == ResolvePlaceholder(name, ctx, config)
    ensures name == "classpath" ==> Substitute("${" + name + "}", Resolver(ctx, config)) == ctx.classpath
    ensures name !in FixedNames && Configs.Get(config, name).None? ==>
      Substitute("${" + name + "}", Resolver(ctx, config)) == ""
  {
    SubstituteHole(name, "", Resolver(ctx, config));
    assert "${" + name + "}" + "" == "${" + name + "}";
  }
}
