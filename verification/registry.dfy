/** The profile registry: the list of profiles kept in `profiles.json`,
    looked up by name or position, appended to, and walked in order. */
module Registry {
  import opened Wrappers

  datatype Profile = Profile(name: string, version: string)

  /** `Profiles::get_named`: the first profile carrying the name, or nothing
      when no profile does. */
  function GetNamed(ps: seq<Profile>, name: string): (r: Option<Profile>)
    ensures r.None? <==> forall i :: 0 <= i < |ps| ==> ps[i].name != name
    ensures r.Some? ==> r.value.name == name && r.value in ps
    ensures r.Some? ==> exists i :: 0 <= i < |ps| && ps[i] == r.value && forall j :: 0 <= j < i ==> ps[j].name != name
    decreases |ps|
  {
    if |ps| == 0 then None
    else if ps[0].name == name then Some(ps[0])
    else
      var r := GetNamed(ps[1..], name);
      assert forall i :: 0 <= i < |ps[1..]| ==> ps[1..][i] == ps[i + 1];
      r
  }

  /** `Profiles::add`: the profile goes to the end; every earlier profile
      keeps its position. */
  function Add(ps: seq<Profile>, p: Profile): (r: seq<Profile>)
    ensures |r| == |ps| + 1
    ensures r[..|ps|] == ps && r[|ps|] == p
  {
    ps + [p]
  }

  /** Appending never changes what a name already found resolves to, since
      the first match wins; a name not found before resolves to the new
      profile exactly when the new profile carries it. */
  lemma {:induction false} AddKeepsLookup(ps: seq<Profile>, p: Profile, name: string)
    ensures GetNamed(ps, name).Some? ==> GetNamed(Add(ps, p), name) == GetNamed(ps, name)
    ensures GetNamed(ps, name).None? ==> GetNamed(Add(ps, p), name) == (if p.name == name then Some(p) else None)
    decreases |ps|
  {
    if |ps| > 0 {
      assert Add(ps, p)[1..] == Add(ps[1..], p);
      AddKeepsLookup(ps[1..], p, name);
    } else {
      assert Add(ps, p)[1..] == [];
    }
  }

  /** `Profiles::get`: the profile at the position, or nothing past the
      end. */
  function Get(ps: seq<Profile>, index: nat): (r: Option<Profile>)
    ensures r.Some? <==> index < |ps|
    ensures r.Some? ==> r.value == ps[index]
  {
    if index < |ps| then Some(ps[index]) else None
  }

  /** What `ProfilesIter` yields from position `index` on: `get(index)`,
      then the next position, until `get` finds nothing. */
  function IterFrom(ps: seq<Profile>, index: nat): seq<Profile>
    decreases |ps| - index
  {
    match Get(ps, index)
    case None => []
    case Some(p) => [p] + IterFrom(ps, index + 1)
  }

  /** The iterator yields the profiles from its position on, in order, and
      nothing else; from the start it yields the whole list. */
  lemma {:induction false} IterYieldsRest(ps: seq<Profile>, index: nat)
    ensures index <= |ps| ==> IterFrom(ps, index) == ps[index..]
    ensures index > |ps| ==> IterFrom(ps, index) == []
    decreases |ps| - index
  {
    if index < |ps| {
      IterYieldsRest(ps, index + 1);
      assert [ps[index]] + ps[index + 1..] == ps[index..];
    }
  }

  lemma IterYieldsAll(ps: seq<Profile>)
    ensures IterFrom(ps, 0) == ps
  {
    IterYieldsRest(ps, 0);
  }
}
