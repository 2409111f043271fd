/**
 A request object is used again for the next request of its connection, with what the last one left
 in it. What its next line makes of that: exactly which lines are parsed into it as into a fresh
 object, field by field.
 */
module RequestReuse {
  import opened Bytes
  import opened Texts
  import opened ParserState
  import opened RequestLine
  import opened G = RequestGrammar
  import opened RequestRuns
  import opened RequestPath
  import opened RequestLanguage
  import RP = RequestProperties

  /** All that the round trip needs of a request object: no flag of an earlier, undecoded URI. */
  predicate Reusable(l: Line) { l.state == Start && !l.uri.complex && !l.uri.quoted }

  // ---------- the course of a call does not depend on what was there ----------

  /** The same kind of turn, into the same state. */
  predicate AlikeMoves(m: Move, n: Move) {
    && (m.Next? == n.Next?) && (m.Back? == n.Back?) && (m.Done? == n.Done?)
    && (m.Fail? && n.Fail? ==> m.code == n.code)
    && AlikeLines(m.line, n.line)
  }

  /** All that a turn looks at. */
  predicate AlikeLines(l: Line, f: Line) {
    l.state == f.state && (l.state == Method ==> l.requestStart == f.requestStart)
  }

  lemma FrontAlike(l: Line, f: Line, data: Bytes, p: nat)
    requires p < |data| && WellFormed(l, p) && AlikeLines(l, f)
    requires l.state in {Start, Method, SpacesBeforeUri, Schema, SchemaSlash, SchemaSlashSlash}
    ensures AlikeMoves(Step(l, data, p), Step(f, data, p))
  {
    hide MethodCode, StepHost, StepPath, StepUri, StepHttp09, StepProtocol, StepVersion, StepAlmostDone;
  }

  lemma HostAlike(l: Line, f: Line, data: Bytes, p: nat)
    requires p < |data| && WellFormed(l, p) && AlikeLines(l, f)
    requires l.state in {HostStart, State.Host, HostEnd, HostIpLiteral, Port}
    ensures AlikeMoves(Step(l, data, p), Step(f, data, p))
  {
    hide StepMethod, StepSchema, StepPath, StepUri, StepHttp09, StepProtocol, StepVersion, StepAlmostDone;
  }

  lemma UriAlike(l: Line, f: Line, data: Bytes, p: nat)
    requires p < |data| && WellFormed(l, p) && AlikeLines(l, f)
    requires l.state in {AfterSlashInUri, CheckUri, Uri, HostHttp09, CheckUriHttp09, Http09}
    ensures AlikeMoves(Step(l, data, p), Step(f, data, p))
  {
    hide StepMethod, StepSchema, StepHost, StepProtocol, StepVersion, StepAlmostDone;
  }

  lemma StepAlike(l: Line, f: Line, data: Bytes, p: nat)
    requires p < |data| && WellFormed(l, p) && AlikeLines(l, f)
    ensures AlikeMoves(Step(l, data, p), Step(f, data, p))
  {
    hide StepMethod, StepSchema, StepHost, StepPath, StepUri, StepHttp09;
    match l.state
    case Start | Method | SpacesBeforeUri | Schema | SchemaSlash | SchemaSlashSlash => FrontAlike(l, f, data, p);
    case HostStart | Host | HostEnd | HostIpLiteral | Port => HostAlike(l, f, data, p);
    case AfterSlashInUri | CheckUri | Uri | HostHttp09 | CheckUriHttp09 | Http09 => UriAlike(l, f, data, p);
    case _ =>
  }

  /** Whatever two requests held before, the same bytes take them the same way, but for LOK and the 0.9 error. */
  lemma {:induction false} SameCourse(l: Line, f: Line, data: Bytes, p: nat)
    requires p <= |data| && WellFormed(l, p) && AlikeLines(l, f)
    ensures var r, r' := Run(l, data, p), Run(f, data, p);
            && r.pos == r'.pos && AlikeLines(r.line, r'.line)
            && (Complete(r) <==> Complete(r')) && (!Complete(r) ==> r.code == r'.code)
    decreases |data| - p, Backs(l.state)
  {
    hide Run, Step;
    if p == |data| {
      AtEnd(l, data);
      AtEnd(f, data);
    } else {
      StepAlike(l, f, data, p);
      Turn(l, data, p);
      Turn(f, data, p);
      match Step(l, data, p)
      case Next(l') => SameCourse(l', Step(f, data, p).line, data, p + 1);
      case Back(l') => SameCourse(l', Step(f, data, p).line, data, p);
      case _ =>
    }
  }

  // ---------- when nothing of the last line shows ----------

  /** request_end is right exactly if the line ends with CR LF, or nothing else was there before. */
  lemma EndOfUsed(l: Line, data: Bytes, p: nat, t: Request)
    requires l.state == Start && Valid(t) && Occurs(data, p, Text(t))
    ensures p <= |data|
    ensures Run(l, data, p).line.requestEnd == At(p + EolAt(t)) <==>
              t.tail.eol == CrLf || l.requestEnd in {Null, At(p + EolAt(t))}
  {
    hide Run, Occurs, TargetUri, TargetAuth, MethodCode, Text, EolAt;
    Completeness(l, data, p, t);
  }

  /** A line is accepted if it has a version, or the last one had, or the method code comes out as GET. */
  lemma CodeOfUsed(l: Line, data: Bytes, p: nat, t: Request)
    requires l.state == Start && Valid(t) && Occurs(data, p, Text(t))
    ensures p <= |data|
    ensures Run(l, data, p).code == LOK <==>
              t.tail.version.Some? || l.http.major != 0 || MethodCode(t.name, l.methodCode) == METHOD_GET
    ensures Run(l, data, p).code != LOK ==> Run(l, data, p).code == INVALID_09_METHOD
  {
    hide Run, Occurs, MethodCode, Text, Recorded;
    Completeness(l, data, p, t);
  }

  /** The code alone is that of a fresh request exactly if there is a version, or no stale one or GET decides. */
  lemma CodeAsFresh(l: Line, f: Line, data: Bytes, p: nat, t: Request)
    requires l.state == Start && Fresh(f) && Valid(t) && Occurs(data, p, Text(t))
    ensures p <= |data|
    ensures Run(l, data, p).code == Run(f, data, p).code <==>
              || t.tail.version.Some? || t.name == NAME_GET
              || (l.http.major == 0 && MethodCode(t.name, l.methodCode) != METHOD_GET)
  {
    hide Run, Occurs;
    CodeOfUsed(l, data, p, t);
    CodeOfUsed(f, data, p, t);
  }

  /** The number for http_version that a line asks for: 0.9 if it names none. */
  function VersionNumber(v: Option<Version>): int {
    if v == None then 9 else 1000 * Dec(v.value.major) + Dec(v.value.minor)
  }

  /** http_version is that of the line exactly if the line names one or no major version is left over. */
  lemma VersionOfUsed(l: Line, data: Bytes, p: nat, t: Request)
    requires l.state == Start && Valid(t) && Occurs(data, p, Text(t))
    ensures p <= |data|
    ensures Run(l, data, p).line.httpVersion == VersionNumber(t.tail.version) <==>
              t.tail.version.Some? || l.http.major == 0
    ensures Run(l, data, p).line.http.protocol ==
            if t.tail.version.Some? then p + VersionAt(t) else l.http.protocol
  {
    hide Run, Occurs, TargetUri, TargetAuth, MethodCode, Text, EolAt, VersionAt, Dec;
    Completeness(l, data, p, t);
  }

  /** A method the parser has a code for. */
  predicate Known(name: Bytes) { MethodCode(name, 0) != 0 }

  lemma CodesDiffer(name: Bytes, a: int, b: int)
    ensures MethodCode(name, a) == MethodCode(name, b) <==> Known(name) || a == b
  {
  }

  /** The URI part is right exactly if no mark of the last URI shows in it. */
  lemma FlagsOfUsed(l: Line, data: Bytes, p: nat, t: Request)
    requires l.state == Start && Valid(t) && Occurs(data, p, Text(t))
    ensures p + UriAt(t) + UriLen(t) <= |data|
    ensures var was, u := l.uri, Run(l, data, p).line.uri;
            var lo, hi := p + UriAt(t), p + UriAt(t) + UriLen(t);
            var m := First(data, lo, hi, QMARK);
            && (PlainUri(data, lo, hi) ==>
                  && (!u.complex && !u.quoted <==> !was.complex && !was.quoted)
                  && (u.args == (if m < hi then At(m + 1) else Null) <==> m < hi || was.args == Null)
                  && (u.ext == Extension(data, lo, m) <==> Renewed(data, lo, m) || was.ext == Null)
                  && ((u.plus <==> !Lacks(data, lo, m, PLUS)) <==> !was.plus || !Lacks(data, lo, m, PLUS)))
            && (!PlainUri(data, lo, hi) ==> u.complex || u.quoted)
            && ((u.space <==> !Lacks(data, lo, hi, SP)) <==> !was.space || !Lacks(data, lo, hi, SP))
  {
    hide Run, Occurs, PlainUri, Renewed, Extension, First, LeavesAt, ValidTarget, ValidTail, Text, UriAt, UriLen, Lacks;
    RP.RecordedUri(l, data, p, t);
    var lo, hi := p + UriAt(t), p + UriAt(t) + UriLen(t);
    var m := First(data, lo, hi, QMARK);
    ScannedMeans(l.uri, data, lo, hi);
    if !Renewed(data, lo, m) {
      NoExtension(data, lo, m);
    }
  }

  /** Nothing of the old URI part shows behind the scan of data[lo..hi]. */
  predicate UriUnseen(was: UriPart, f: UriPart, data: Bytes, lo: nat, hi: nat)
    requires lo < hi <= |data|
  {
    var m := LeavesAt(data, lo, hi);
    && (was.ext == Null || Renewed(data, lo, m))
    && (was.args == Null || (m < hi && data[m] == QMARK))
    && (!was.complex || (m < hi && data[m] in {DOT, SLASH}) || !Lacks(data, lo, hi, HASH))
    && (!was.quoted || (m < hi && data[m] == PERCENT))
    && (was.plus == f.plus || !Lacks(data, lo, m, PLUS))
    && (!was.space || !Lacks(data, lo, hi, SP))
  }

  lemma UriOfUsed(was: UriPart, f: UriPart, data: Bytes, lo: nat, hi: nat)
    requires lo < hi <= |data| && CleanFlags(f)
    ensures Scanned(was, data, lo, hi) == Scanned(f, data, lo, hi) <==> UriUnseen(was, f, data, lo, hi)
  {
    var m := LeavesAt(data, lo, hi);
    if Scanned(was, data, lo, hi).ext == Scanned(f, data, lo, hi).ext {
      assert was.ext == Null || Renewed(data, lo, m);
    }
  }

  /** An absolute-form target writes all of the authority but port_end, which takes a port. */
  predicate AuthorityUnseen(was: RequestLine.Authority, f: RequestLine.Authority, t: Target) {
    match t.authority
    case None => was == f
    case Some(a) => a.port.Some? || was.portEnd == f.portEnd
  }

  lemma AuthorityOfUsed(l: Line, f: Line, p: nat, t: Target)
    ensures TargetAuth(l, p, t) == TargetAuth(f, p, t) <==> AuthorityUnseen(l.auth, f.auth, t)
  {
  }

  /** What of the old request the line of t at p does not overwrite is as in the fresh f. */
  predicate Unseen(l: Line, f: Line, data: Bytes, p: nat, t: Request)
    requires Valid(t)
  {
    && (t.tail.eol == CrLf || l.requestEnd in {Null, At(p + EolAt(t))})
    && (t.tail.version.Some? || (l.http.major == 0 && l.http.protocol == f.http.protocol))
    && (Known(t.name) || l.methodCode == f.methodCode)
    && AuthorityUnseen(l.auth, f.auth, t.target)
    && p + UriAt(t) + UriLen(t) <= |data|
    && UriUnseen(l.uri, f.uri, data, p + UriAt(t), p + UriAt(t) + UriLen(t))
  }

  /** A valid line leaves result and every field as in a fresh request exactly if nothing of the old one shows. */
  lemma AsFresh(l: Line, f: Line, data: Bytes, p: nat, t: Request)
    requires l.state == Start && Fresh(f) && Valid(t) && Occurs(data, p, Text(t))
    ensures p <= |data|
    ensures Run(l, data, p) == Run(f, data, p) <==> Unseen(l, f, data, p, t)
  {
    hide Run, Occurs, Text, ValidTarget, ValidTail, MethodCode, UriUnseen, AuthorityUnseen, TargetAuth, TargetUri, Scanned,
         UriAt, UriLen, EolAt, CleanFlags, Dec, Known;
    Completeness(l, data, p, t);
    Completeness(f, data, p, t);
    RP.RecordedUri(l, data, p, t);
    RP.RecordedUri(f, data, p, t);
    UriOfUsed(l.uri, f.uri, data, p + UriAt(t), p + UriAt(t) + UriLen(t));
    AuthorityOfUsed(l, f, p + TargetAt(t), t.target);
    CodesDiffer(t.name, l.methodCode, f.methodCode);
  }
}
