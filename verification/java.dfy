/** Installed Java runtimes as the launcher keeps them: a list sorted newest
    first by a stable sort, whose head is "the latest". Discovery and
    `-version` parsing are outside the model; versions are taken as given. */
module Java {
  import opened Wrappers

  /** A version, ordered by major, then minor, then patch. */
  datatype SemVer = SemVer(major: nat, minor: nat, patch: nat)

  predicate AtMost(a: SemVer, b: SemVer)
  {
    || a.major < b.major
    || (a.major == b.major && a.minor < b.minor)
    || (a.major == b.major && a.minor == b.minor && a.patch <= b.patch)
  }

  datatype JavaInstallation = JavaInstallation(path: string, version: SemVer)

  /** Newest first: no element is older than one after it. */
  predicate Descending(s: seq<JavaInstallation>)
  {
    forall i, j :: 0 <= i < j < |s| ==> AtMost(s[j].version, s[i].version)
  }

  /** Places `x` after every strictly newer element and before the rest, so
      an element inserted earlier stays ahead of equal ones. */
  function Insert(x: JavaInstallation, s: seq<JavaInstallation>): (r: seq<JavaInstallation>)
    ensures multiset(r) == multiset(s) + multiset{x}
    ensures |r| == |s| + 1
    decreases |s|
  {
    if |s| == 0 || AtMost(s[0].version, x.version) then [x] + s
    else
      assert s == [s[0]] + s[1..];
      [s[0]] + Insert(x, s[1..])
  }

  lemma {:induction false} InsertDescending(x: JavaInstallation, s: seq<JavaInstallation>)
    requires Descending(s)
    ensures Descending(Insert(x, s))
    decreases |s|
  {
    if |s| > 0 && !AtMost(s[0].version, x.version) {
      InsertDescending(x, s[1..]);
      var t := Insert(x, s[1..]);
      assert Insert(x, s) == [s[0]] + t;
      forall k | 0 <= k < |t| ensures AtMost(t[k].version, s[0].version) {
        assert t[k] in multiset(t);
        assert t[k] in multiset(s[1..]) + multiset{x};
        if t[k] in multiset(s[1..]) {
          var m :| 0 <= m < |s[1..]| && s[1..][m] == t[k];
          assert s[m + 1] == t[k];
        }
      }
    }
  }

  /** `list.sort_by(|a, b| b.version.cmp(&a.version))`: a stable sort from
      newest to oldest. */
  function SortByVersion(xs: seq<JavaInstallation>): (r: seq<JavaInstallation>)
    ensures Descending(r)
    ensures multiset(r) == multiset(xs)
    decreases |xs|
  {
    if |xs| == 0 then []
    else
      var rest := SortByVersion(xs[1..]);
      InsertDescending(xs[0], rest);
      assert xs == [xs[0]] + xs[1..];
      Insert(xs[0], rest)
  }

  /** The installations whose version is exactly `v`, in list order. */
  function WithVersion(s: seq<JavaInstallation>, v: SemVer): seq<JavaInstallation>
    decreases |s|
  {
    if |s| == 0 then [] else (if s[0].version == v then [s[0]] else []) + WithVersion(s[1..], v)
  }

  lemma {:induction false} InsertKeepsTies(x: JavaInstallation, s: seq<JavaInstallation>, v: SemVer)
    ensures WithVersion(Insert(x, s), v) == (if x.version == v then [x] else []) + WithVersion(s, v)
    decreases |s|
  {
    if |s| > 0 && !AtMost(s[0].version, x.version) {
      InsertKeepsTies(x, s[1..], v);
      assert Insert(x, s)[1..] == Insert(x, s[1..]);
      // s[0] is strictly newer than x, so it cannot tie with x.
      assert x.version == v ==> s[0].version != v;
    } else {
      assert ([x] + s)[1..] == s;
    }
  }

  /** Stability: installations of equal version keep their relative order. */
  lemma {:induction false} SortIsStable(xs: seq<JavaInstallation>, v: SemVer)
    ensures WithVersion(SortByVersion(xs), v) == WithVersion(xs, v)
    decreases |xs|
  {
    if |xs| > 0 {
      SortIsStable(xs[1..], v);
      InsertKeepsTies(xs[0], SortByVersion(xs[1..]), v);
    }
  }

  datatype JavaManager = JavaManager(installations: seq<JavaInstallation>)

  /** `JavaManager::fetch` via `list()`: the discovered installations,
      sorted. */
  function Fetch(found: seq<JavaInstallation>): (m: JavaManager)
    ensures Descending(m.installations)
    ensures multiset(m.installations) == multiset(found)
  {
    JavaManager(SortByVersion(found))
  }

  /** `JavaManager::list`. */
  function List(m: JavaManager): seq<JavaInstallation>
  {
    m.installations
  }

  /** `JavaManager::latest`: the first installation, if any. */
  function Latest(m: JavaManager): (r: Option<JavaInstallation>)
    ensures r.None? <==> |m.installations| == 0
    ensures r.Some? ==> r.value == m.installations[0]
  {
    if |m.installations| == 0 then None else Some(m.installations[0])
  }

  /** After `list()` has sorted them, the latest installation is at least as
      new as every installation found. */
  lemma LatestIsNewest(found: seq<JavaInstallation>)
    ensures Latest(Fetch(found)).Some? <==> |found| > 0
    ensures Latest(Fetch(found)).Some? ==>
      forall j :: j in found ==> AtMost(j.version, Latest(Fetch(found)).value.version)
  {
    var s := List(Fetch(found));
    assert |s| == |multiset(s)| == |multiset(found)| == |found|;
    forall j | j in found && |s| > 0 ensures AtMost(j.version, s[0].version) {
      assert j in multiset(found);
      assert j in multiset(s);
      var k :| 0 <= k < |s| && s[k] == j;
      if k > 0 {
        assert AtMost(s[k].version, s[0].version);
      }
    }
  }
}
