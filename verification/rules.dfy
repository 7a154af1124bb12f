/** Platform rules of the version metadata, in the current form (typed
    action, feature flags force a non-match) and the older form (string
    action, feature flags ignored), plus the AND gate over a rule list that
    libraries and conditional arguments share. */
module Rules {
  import opened Wrappers
  import opened Platform

  datatype RuleAction = Allow | Disallow

  /** A rule of the current metadata model. `features` is the optional
      feature-flag map; its contents are never evaluated. */
  datatype Rule = Rule(action: RuleAction, features: Option<map<string, bool>>, os: Option<Os>)

  /** `Rule::matches`: the OS filter (if any) matches the host and there is
      no feature map at all; any feature map, even an empty one, makes the
      rule not match. */
  function Matches(r: Rule, h: Host): (b: bool)
    ensures b ==> r.features.None?
    ensures r.features.None? ==> (b <==> (r.os.Some? ==> OsMatches(r.os.value, h)))
  {
    (r.os.None? || OsMatches(r.os.value, h)) && r.features.None?
  }

  /** `Rule::is_allowed`: `Allow` passes exactly the matching rules and
      `Disallow` exactly the non-matching ones. */
  function IsAllowed(r: Rule, h: Host): (b: bool)
    ensures r.action == Allow ==> (b <==> Matches(r, h))
    ensures r.action == Disallow ==> (b <==> !Matches(r, h))
  {
    match r.action
    case Allow => Matches(r, h)
    case Disallow => !Matches(r, h)
  }

  /** The four rows of the allow/disallow truth table. */
  lemma AllowedTruthTable(r: Rule, h: Host)
    ensures r.action == Allow && Matches(r, h) ==> IsAllowed(r, h)
    ensures r.action == Allow && !Matches(r, h) ==> !IsAllowed(r, h)
    ensures r.action == Disallow && Matches(r, h) ==> !IsAllowed(r, h)
    ensures r.action == Disallow && !Matches(r, h) ==> IsAllowed(r, h)
  {
  }

  /** A `Disallow` rule carrying a feature map never matches, so it always
      allows; an `Allow` rule carrying one never allows. */
  lemma FeaturesDecideAlone(r: Rule, h: Host)
    requires r.features.Some?
    ensures r.action == Disallow ==> IsAllowed(r, h)
    ensures r.action == Allow ==> !IsAllowed(r, h)
  {
  }

  /** `rules.iter().all(allowed)`: the AND of every rule's verdict; the empty
      list passes. */
  function AllAllowed<R>(rules: seq<R>, allowed: R -> bool): (b: bool)
    ensures b <==> forall i :: 0 <= i < |rules| ==> allowed(rules[i])
    decreases |rules|
  {
    |rules| == 0 || (allowed(rules[0]) && AllAllowed(rules[1..], allowed))
  }

  /** The gate of the current model: `IsAllowed` on the given host. */
  function CurrentGate(h: Host): Rule -> bool
  {
    (r: Rule) => IsAllowed(r, h)
  }

  /** The AND gate distributes over concatenation of rule lists. */
  lemma {:induction false} AllAllowedAppend<R>(a: seq<R>, b: seq<R>, allowed: R -> bool)
    ensures AllAllowed(a + b, allowed) == (AllAllowed(a, allowed) && AllAllowed(b, allowed))
    decreases |a|
  {
    if |a| > 0 {
      AllAllowedAppend(a[1..], b, allowed);
      assert (a + b)[1..] == a[1..] + b;
    } else {
      assert a + b == b;
    }
  }

  // ---------------------------------------------------------------------
  // The older rule form

  /** A rule of the older model: the action is free text and the feature
      value is kept as raw JSON text that nothing reads. */
  datatype LegacyRule = LegacyRule(action: string, features: Option<string>, os: Option<Os>)

  /** The older `Rule::matches`: an early `false` for a present name that is
      not the host's, then for a present arch that is not the host's, and
      `true` otherwise. It agrees with `OsMatches` on the filter. */
  function LegacyMatches(r: LegacyRule, h: Host): (b: bool)
    ensures b <==> (r.os.None? || OsMatches(r.os.value, h))
  {
    if r.os.Some? then
      if r.os.value.name.Some? && r.os.value.name.value != h.os then false
      else if r.os.value.arch.Some? && r.os.value.arch.value != h.arch then false
      else true
    else true
  }

  /** The older `Rule::is_allowed`: `"allow"` gives the match, `"disallow"`
      its negation, any other action string gives `false`. */
  function LegacyIsAllowed(r: LegacyRule, h: Host): (b: bool)
    ensures r.action == "allow" ==> (b <==> LegacyMatches(r, h))
    ensures r.action == "disallow" ==> (b <==> !LegacyMatches(r, h))
    ensures r.action != "allow" && r.action != "disallow" ==> !b
  {
    if r.action == "allow" then LegacyMatches(r, h)
    else if r.action == "disallow" then !LegacyMatches(r, h)
    else false
  }

  function LegacyGate(h: Host): LegacyRule -> bool
  {
    (r: LegacyRule) => LegacyIsAllowed(r, h)
  }

  function ActionName(a: RuleAction): string
  {
    match a
    case Allow => "allow"
    case Disallow => "disallow"
  }

  /** The older matcher never looks at the feature value. */
  lemma LegacyIgnoresFeatures(r: LegacyRule, f: Option<string>, h: Host)
    ensures LegacyMatches(r.(features := f), h) == LegacyMatches(r, h)
    ensures LegacyIsAllowed(r.(features := f), h) == LegacyIsAllowed(r, h)
  {
  }

  /** The two generations agree on every rule without feature flags, and
      disagree on a matching rule that carries flags. */
  lemma GenerationsAgreeWithoutFeatures(a: RuleAction, os: Option<Os>, h: Host)
    ensures IsAllowed(Rule(a, None, os), h) == LegacyIsAllowed(LegacyRule(ActionName(a), None, os), h)
  {
  }

  lemma GenerationsDisagreeOnFeatures(a: RuleAction, flags: map<string, bool>, raw: string, os: Option<Os>, h: Host)
    requires os.None? || OsMatches(os.value, h)
    ensures IsAllowed(Rule(a, Some(flags), os), h) != LegacyIsAllowed(LegacyRule(ActionName(a), Some(raw), os), h)
  {
  }
}
