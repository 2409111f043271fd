/** Pairs of requests of one connection of which the second line shows what the first one has left. */
module StaleRequests {
  import opened Bytes
  import opened Texts
  import opened ParserState
  import opened RequestLine
  import opened G = RequestGrammar
  import opened RequestPath
  import opened RequestLanguage
  import opened RequestReuse
  import RP = RequestProperties

  /** Two lines of one connection, with the blank line that ends the first request between them. */
  function Both(a: Request, b: Request): Bytes { Text(a) + ([CR, LF] + Text(b)) }

  lemma InBoth(a: Request, b: Request)
    ensures Occurs(Both(a, b), 0, Text(a)) && Occurs(Both(a, b), |Text(a)| + 2, Text(b))
  {
    hide Text, Occurs;
    OccursWhole(Both(a, b));
    OccursConcat(Both(a, b), 0, Text(a), [CR, LF] + Text(b));
    OccursConcat(Both(a, b), |Text(a)|, [CR, LF], Text(b));
  }

  /** What the first call leaves. */
  function Left(f: Line, a: Request, b: Request): (l: Line)
    requires Valid(a)
    ensures l.state == Start
  {
    Recorded(f, Both(a, b), 0, a)
  }

  /** What the second call is, made where the second line starts. */
  function Second(f: Line, a: Request, b: Request): Result
    requires Valid(a)
  {
    Run(Left(f, a, b), Both(a, b), |Text(a)| + 2)
  }

  /** The first line is parsed into f, and the second into what that has left. */
  lemma SecondLine(f: Line, a: Request, b: Request)
    requires Fresh(f) && Valid(a) && Valid(b)
    ensures var data, l, q := Both(a, b), Left(f, a, b), |Text(a)| + 2;
            && q + |Text(b)| == |data| && data[..|Text(a)|] == Text(a) && data[q..] == Text(b)
            && (Accepted(a) ==> Run(f, data, 0) == Result(LOK, l, |Text(a)|))
            && Second(f, a, b) ==
               Result(if AcceptedInto(l, b) then LOK else INVALID_09_METHOD, Recorded(l, data, q, b), |data|)
  {
    hide Run, Occurs, Recorded, Text, MethodCode, Valid;
    InBoth(a, b);
    Completeness(f, Both(a, b), 0, a);
    AcceptedFresh(f, a);
    Completeness(Left(f, a, b), Both(a, b), |Text(a)| + 2, b);
  }

  lemma FreshStarts(f: Line)
    requires Fresh(f)
    ensures f.state == Start
  {
  }

  /** The URI part of both. */
  lemma BothUris(f: Line, a: Request, b: Request)
    requires Fresh(f) && Valid(a) && Valid(b)
    ensures var data, l, q := Both(a, b), Left(f, a, b), |Text(a)| + 2;
            && 0 < UriLen(a) && UriAt(a) + UriLen(a) <= |data|
            && l.uri == Scanned(f.uri, data, UriAt(a), UriAt(a) + UriLen(a))
            && 0 < UriLen(b) && q + UriAt(b) + UriLen(b) <= |data| && data[q + UriAt(b)] == SLASH
            && Second(f, a, b).line.uri == Scanned(l.uri, data, q + UriAt(b), q + UriAt(b) + UriLen(b))
  {
    hide Run, Occurs, Text, ValidTarget, ValidTail, UriAt, UriLen, Scanned, Recorded, AcceptedInto, Both, Fresh;
    FreshStarts(f);
    InBoth(a, b);
    Completeness(f, Both(a, b), 0, a);
    RP.RecordedUri(f, Both(a, b), 0, a);
    RP.RecordedUri(Left(f, a, b), Both(a, b), |Text(a)| + 2, b);
  }

  const HTTP11 := Some(Version([49], [49], 0))

  /** "GET /path HTTP/1.1" */
  function Get(path: Bytes, eol: Eol): (t: Request)
    requires ValidPath(path)
    ensures Valid(t) && Accepted(t)
  {
    Request([], NAME_GET, 1, Target(None, Some(path)), Tail(1, HTTP11, eol))
  }

  lemma GetText(path: Bytes, eol: Eol)
    requires ValidPath(path)
    ensures var t := Get(path, eol);
            && NameAt(t) == 0 && UriAt(t) == TargetAt(t) == 4 && UriLen(t) == 1 + |path|
            && VersionAt(t) == 6 + |path| && EolAt(t) == 14 + |path|
            && |Text(t)| == 14 + |path| + |EolText(eol)| && Text(t)[4..5 + |path|] == [SLASH] + path
  {
  }

  /** "GET / HTTP/1.1" with CR LF and then with LF: the second request ends where the first did, before its own start. */
  lemma StaleEnd(f: Line)
    requires Fresh(f)
    ensures var r := Second(f, Get([], CrLf), Get([], Lf));
            r.code == LOK && r.line.requestStart == 18 && r.line.requestEnd == At(14)
  {
    hide Run, Text, TargetUri, TargetAuth, EolAt;
    SecondLine(f, Get([], CrLf), Get([], Lf));
    GetText([], CrLf);
    GetText([], Lf);
  }

  /** "GET /" */
  const GET_09 := Request([], NAME_GET, 1, Target(None, Some([])), Tail(0, None, CrLf))

  /** "GET / HTTP/1.1" and "GET /": the second request has version 1.9, and its protocol is that of the first. */
  lemma StaleProtocol(f: Line)
    requires Fresh(f)
    ensures Valid(GET_09)
    ensures var r := Second(f, Get([], CrLf), GET_09);
            r.code == LOK && r.line.requestStart == 18 && r.line.httpVersion == 1009 && r.line.http.protocol == 6
    ensures Run(f, Text(GET_09), 0).line.httpVersion == 9
  {
    hide Run, Text, TargetUri, TargetAuth, EolAt;
    SecondLine(f, Get([], CrLf), GET_09);
    GetText([], CrLf);
    DecOne(49);
    OccursWhole(Text(GET_09));
    VersionOfUsed(f, Text(GET_09), 0, GET_09);
  }

  /** "POST /" */
  const POST_09 := Request([], NAME_POST, 1, Target(None, Some([])), Tail(0, None, CrLf))

  /** "GET / HTTP/1.1" and "POST /": the second line is accepted, which a fresh request refuses. */
  lemma StaleVersion(f: Line)
    requires Fresh(f)
    ensures Valid(POST_09) && Second(f, Get([], CrLf), POST_09).code == LOK
    ensures Run(f, Text(POST_09), 0).code == INVALID_09_METHOD
  {
    hide Run, Text, TargetUri, TargetAuth, EolAt;
    SecondLine(f, Get([], CrLf), POST_09);
    GetText([], CrLf);
    DecOne(49);
    OccursWhole(Text(POST_09));
    CodeOfUsed(f, Text(POST_09), 0, POST_09);
  }

  /** "FOO / HTTP/1.1" */
  const FOO := Request([], [70, 79, 79], 1, Target(None, Some([])), Tail(1, HTTP11, CrLf))

  /** "GET / HTTP/1.1" and "FOO / HTTP/1.1": the second method is recorded as GET. */
  lemma StaleMethod(f: Line)
    requires Fresh(f)
    ensures Valid(FOO)
    ensures var r := Second(f, Get([], CrLf), FOO);
            r.code == LOK && r.line.requestStart == 18 && r.line.methodCode == METHOD_GET
    ensures Run(f, Text(FOO), 0).line.methodCode != METHOD_GET
  {
    hide Run, Text, TargetUri, TargetAuth, EolAt;
    SecondLine(f, Get([], CrLf), FOO);
    GetText([], CrLf);
    OccursWhole(Text(FOO));
    Completeness(f, Text(FOO), 0, FOO);
  }

  /** "GET http://a/ HTTP/1.1" */
  const ABSOLUTE :=
    Request([], NAME_GET, 1, Target(Some(G.Authority([104, 116, 116, 112], Registered([97]), None)), Some([])),
            Tail(1, HTTP11, CrLf))

  /** "GET http://a/ HTTP/1.1" and "GET / HTTP/1.1": the second request has the host of the first, before its own start. */
  lemma StaleAuthority(f: Line)
    requires Fresh(f)
    ensures Valid(ABSOLUTE)
    ensures var r := Second(f, ABSOLUTE, Get([], CrLf));
            && r.code == LOK && r.line.requestStart == 26
            && r.line.auth.hostStart == 11 && r.line.auth.hostEnd == 12
  {
    hide Run, TargetUri, EolAt, VersionAt, MethodCode;
    SecondLine(f, ABSOLUTE, Get([], CrLf));
  }

  /** "/a.b+ c?d" */
  const MARKED: Bytes := [97, DOT, 98, PLUS, SP, 99, QMARK, 100]

  /** "GET /a.b+ c?d HTTP/1.1" and "GET / HTTP/1.1": the second URI has all marks of the first. */
  lemma StaleMarks(f: Line)
    requires Fresh(f)
    ensures ValidPath(MARKED)
    ensures var r := Second(f, Get(MARKED, CrLf), Get([], CrLf));
            && r.code == LOK && r.line.requestStart == 26
            && r.line.uri.args == At(12) && r.line.uri.ext == At(7) && r.line.uri.plus && r.line.uri.space
  {
    hide Run, Text, TargetUri, TargetAuth, EolAt, Scanned, Both;
    var a, b := Get(MARKED, CrLf), Get([], CrLf);
    GetText(MARKED, CrLf);
    GetText([], CrLf);
    SecondLine(f, a, b);
    BothUris(f, a, b);
    FirstBytes(a, b, 4, 13);
    MarksOfFirst(Both(a, b), f.uri);
    RP.OneSlash(Left(f, a, b).uri, Both(a, b), 30);
  }

  /** The bytes of the first line. */
  lemma FirstBytes(a: Request, b: Request, i: nat, j: nat)
    requires i <= j <= |Text(a)|
    ensures |Text(a)| <= |Both(a, b)| && Both(a, b)[i..j] == Text(a)[i..j]
  {
    hide Text;
    var s := Both(a, b)[..|Text(a)|];
    assert s == Text(a);
    assert s[i..j] == Both(a, b)[i..j];
  }

  /** Where the scan leaves the path is the first byte that takes it out. */
  lemma LeavesUnique(data: Bytes, lo: nat, hi: nat, m: nat)
    requires lo < m <= hi <= |data| && (m < hi ==> Leaves(data, lo, m))
    requires forall j :: lo < j < m ==> !Leaves(data, lo, j)
    ensures LeavesAt(data, lo, hi) == m
  {
    hide Leaves;
  }

  lemma MarksOfFirst(data: Bytes, was: UriPart)
    requires |data| >= 13 && data[4..13] == [SLASH] + MARKED
    ensures var u := Scanned(was, data, 4, 13);
            u.args == At(12) && u.ext == At(7) && u.plus && u.space
  {
    var uri := data[4..13];
    assert data[4] == uri[0] && data[5] == uri[1] && data[6] == uri[2] && data[7] == uri[3];
    assert data[8] == uri[4] && data[9] == uri[5] && data[10] == uri[6] && data[11] == uri[7];
    LeavesUnique(data, 4, 13, 11);
    assert Extension(data, 4, 11) == At(7);
    assert !Lacks(data, 5, 11, DOT) && !Lacks(data, 4, 11, PLUS) && !Lacks(data, 4, 13, SP);
  }

  /** "GET /%# HTTP/1.1" and "GET / HTTP/1.1": the second URI passes for one that needs decoding, in both ways. */
  lemma StaleFlags(f: Line)
    requires Fresh(f)
    ensures ValidPath([PERCENT, HASH])
    ensures var r := Second(f, Get([PERCENT, HASH], CrLf), Get([], CrLf));
            r.code == LOK && r.line.requestStart == 20 && r.line.uri.complex && r.line.uri.quoted
  {
    hide Run, Text, TargetUri, TargetAuth, EolAt, Scanned, Both;
    var a, b := Get([PERCENT, HASH], CrLf), Get([], CrLf);
    GetText([PERCENT, HASH], CrLf);
    GetText([], CrLf);
    SecondLine(f, a, b);
    BothUris(f, a, b);
    FirstBytes(a, b, 4, 7);
    FlagsOfFirst(Both(a, b), f.uri);
    RP.OneSlash(Left(f, a, b).uri, Both(a, b), 24);
  }

  lemma FlagsOfFirst(data: Bytes, was: UriPart)
    requires |data| >= 7 && data[4..7] == [SLASH, PERCENT, HASH]
    ensures var u := Scanned(was, data, 4, 7);
            u.complex && u.quoted
  {
    var uri := data[4..7];
    assert data[5] == uri[1] && data[6] == uri[2];
    LeavesUnique(data, 4, 7, 5);
    assert !Lacks(data, 4, 7, HASH);
  }
}
