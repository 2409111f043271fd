/**
 The language of request lines, as parse trees and the text each tree stands for. It is the
 grammar of sections 3.1.1, 5.3.1 and 5.3.2 of RFC 7230, loosened as the machine loosens it:
 blank lines in front, runs of spaces, spaces inside the path, a lone LF, a missing version.
 */
module RequestGrammar {
  import opened Bytes
  import opened Texts
  import opened RequestLine

  datatype Version = Version(major: Bytes, minor: Bytes, pad: nat)

  /** What follows the target: spaces, perhaps a version, and the end of the line. */
  datatype Tail = Tail(gap: nat, version: Option<Version>, eol: Eol)

  datatype Host = Registered(text: Bytes) | Literal(text: Bytes)

  datatype Authority = Authority(schema: Bytes, host: Host, port: Option<Bytes>)

  /** The target; `path` is the text after its leading slash. */
  datatype Target = Target(authority: Option<Authority>, path: Option<Bytes>)

  datatype Request = Request(lead: Bytes, name: Bytes, gap: nat, target: Target, tail: Tail)

  const TTP_SLASH: Bytes := [UPPER_T, UPPER_T, UPPER_P, SLASH]

  /** A version without its leading 'H'. */
  function VersionRest(v: Version): Bytes {
    TTP_SLASH + v.major + [DOT] + v.minor + Spaces(v.pad)
  }

  function VersionText(v: Option<Version>): Bytes {
    if v == None then [] else [UPPER_H] + VersionRest(v.value)
  }

  function TailText(t: Tail): Bytes {
    Spaces(t.gap) + (VersionText(t.version) + EolText(t.eol))
  }

  function HostText(h: Host): Bytes {
    match h
    case Registered(text) => text
    case Literal(text) => [LBRACKET] + text + [RBRACKET]
  }

  function PortText(port: Option<Bytes>): Bytes {
    if port == None then [] else [COLON] + port.value
  }

  function AuthorityText(a: Authority): Bytes {
    a.schema + [COLON, SLASH, SLASH] + HostText(a.host) + PortText(a.port)
  }

  function PathText(path: Option<Bytes>): Bytes {
    if path == None then [] else [SLASH] + path.value
  }

  function TargetText(t: Target): Bytes {
    (if t.authority == None then [] else AuthorityText(t.authority.value)) + PathText(t.path)
  }

  function Text(t: Request): Bytes {
    t.lead + t.name + Spaces(t.gap) + TargetText(t.target) + TailText(t.tail)
  }

  predicate ValidVersion(v: Version) {
    && v.major != [] && All(v.major, IsDigit) && v.major[0] != 48
    && v.minor != [] && All(v.minor, IsDigit)
  }

  /** A path may hold spaces, but none in front of an 'H' and none at its end. */
  predicate ValidPath(s: Bytes) {
    && (forall i :: 0 <= i < |s| ==> s[i] !in {CR, LF, NUL})
    && (forall i :: 0 <= i < |s| && s[i] == SP ==> i + 1 < |s| && s[i + 1] != UPPER_H)
  }

  predicate ValidHost(h: Host) {
    match h
    case Registered(text) => All(text, IsHostByte)
    case Literal(text) => All(text, IsLiteralByte)
  }

  predicate ValidAuthority(a: Authority) {
    && a.schema != [] && All(a.schema, IsLetter)
    && ValidHost(a.host)
    && (a.port.Some? ==> All(a.port.value, IsDigit))
  }

  predicate ValidTarget(t: Target) {
    && (t.authority.Some? ==> ValidAuthority(t.authority.value))
    && (t.path.Some? ==> ValidPath(t.path.value))
    && (t.authority.Some? || t.path.Some?)
  }

  predicate ValidTail(t: Tail) {
    t.version.Some? ==> t.gap > 0 && ValidVersion(t.version.value)
  }

  predicate Valid(t: Request) {
    && All(t.lead, IsLineEnd)
    && t.name != [] && All(t.name, IsMethodByte)
    && t.gap > 0
    && ValidTarget(t.target)
    && ValidTail(t.tail)
    && (t.target.path == None ==> t.tail.gap > 0)
  }

  /** A request without a version is an HTTP/0.9 request, which only GET may make. */
  predicate Accepted(t: Request) {
    Valid(t) && (t.tail.version == None ==> t.name == NAME_GET)
  }

  // ---------- where the parts of a request stand ----------

  function NameAt(t: Request): nat { |t.lead| }

  function TargetAt(t: Request): nat { |t.lead| + |t.name| + t.gap }

  function TailAt(t: Request): nat { TargetAt(t) + |TargetText(t.target)| }

  function VersionAt(t: Request): nat { TailAt(t) + t.tail.gap }

  function EolAt(t: Request): nat { VersionAt(t) + |VersionText(t.tail.version)| }

  /** With no path, the URI is the first slash of "://". */
  function UriAt(t: Request): nat
    requires ValidTarget(t.target)
  {
    TargetAt(t) +
    (if t.target.path.Some? then |TargetText(t.target)| - |PathText(t.target.path)|
     else |t.target.authority.value.schema| + 1)
  }

  function UriLen(t: Request): nat {
    if t.target.path.Some? then 1 + |t.target.path.value| else 1
  }
}
