/** The platform the launcher runs on and the `os` filter that metadata rules
    carry. The host is fixed at compile time in the launcher (a `cfg!`
    constant); here it is an explicit parameter. */
module Platform {
  import opened Wrappers

  datatype OsName = Linux | Windows | Osx

  datatype Arch = X86_64 | X86 | Arm64

  /** The `(OS, ARCH)` pair of the running launcher. */
  datatype Host = Host(os: OsName, arch: Arch)

  /** An `os` filter: every field that is present must equal the host's. */
  datatype Os = Os(name: Option<OsName>, arch: Option<Arch>)

  /** `Os::matches`: true iff every present field names the host's value. */
  function OsMatches(o: Os, h: Host): (r: bool)
    ensures r <==> (o.name.Some? ==> o.name.value == h.os) && (o.arch.Some? ==> o.arch.value == h.arch)
  {
    (o.name.None? || o.name == Some(h.os)) && (o.arch.None? || o.arch == Some(h.arch))
  }

  /** A filter with neither field matches on every host. */
  lemma WildcardMatchesEverywhere(h: Host)
    ensures OsMatches(Os(None, None), h)
  {
  }

  /** A filter naming another OS never matches, whatever its arch says. */
  lemma ForeignNameNeverMatches(o: Os, h: Host)
    requires o.name.Some? && o.name.value != h.os
    ensures !OsMatches(o, h)
    ensures forall a: Option<Arch> :: !OsMatches(o.(arch := a), h)
  {
  }

  /** A filter naming another arch never matches, whatever its name says. */
  lemma ForeignArchNeverMatches(o: Os, h: Host)
    requires o.arch.Some? && o.arch.value != h.arch
    ensures !OsMatches(o, h)
    ensures forall n: Option<OsName> :: !OsMatches(o.(name := n), h)
  {
  }

  /** A filter with both fields present admits exactly one host. */
  lemma FullFilterAdmitsOneHost(o: Os, h: Host)
    requires o.name.Some? && o.arch.Some?
    ensures OsMatches(o, h) <==> h == Host(o.name.value, o.arch.value)
  {
  }

  /** `MULTI_PATH_SEPRATOR`: `;` on Windows and `:` elsewhere. */
  function PathListSeparator(os: OsName): (c: char)
    ensures c == ';' <==> os == Windows
    ensures c == ':' <==> os != Windows
  {
    if os == Windows then ';' else ':'
  }
}
