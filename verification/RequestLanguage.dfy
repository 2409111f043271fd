/**
 The request-line machine accepts exactly the language of RequestGrammar, and on acceptance
 records where the parts of the request stand.
 */
module RequestLanguage {
  import opened Bytes
  import opened Texts
  import opened ParserState
  import opened RequestLine
  import opened G = RequestGrammar
  import opened RequestRuns
  import opened RequestPath
  import T = RequestTarget

  /** A request no parser has written to. The code relies on this, and does not establish it. */
  predicate Fresh(l: Line) {
    && l.state == Start && l.requestEnd == Null && CleanFlags(l.uri)
    && l.http.major == 0 && l.methodCode != METHOD_GET
  }

  // ---------- blank lines, method and spaces ----------

  lemma {:induction false} LeadRun(l: Line, data: Bytes, p: nat)
    requires p <= |data| && l.state == Start
    ensures var q := Skip(IsLineEnd, data, p);
            if q < |data| then Run(l, data, p) == Run(l, data, q)
            else !Complete(Run(l, data, p)) && Run(l, data, p).code == LAGAIN
    decreases |data| - p
  {
    hide Run;
    if p == |data| {
      AtEnd(l, data);
    } else if IsLineEnd(data[p]) {
      var l' := l.(requestStart := p);
      var q := Skip(IsLineEnd, data, p);
      Turn(l, data, p);
      LeadRun(l', data, p + 1);
      if q < |data| {
        StartForgets(l, data, p, q);
      }
    }
  }

  /** The start state writes request_start before it reads it. */
  lemma StartForgets(l: Line, data: Bytes, x: int, q: nat)
    requires q < |data| && l.state == Start
    ensures Run(l.(requestStart := x), data, q) == Run(l, data, q)
  {
    hide Run;
    Turn(l, data, q);
    Turn(l.(requestStart := x), data, q);
  }

  function Named(l: Line, data: Bytes, q: nat, n: nat): Line
    requires q <= n <= |data|
  {
    l.(requestStart := q, methodEnd := n - 1, methodCode := MethodCode(data[q..n], l.methodCode),
       state := SpacesBeforeUri)
  }

  lemma NameNext(l: Line, data: Bytes, q: nat)
    requires q < |data| && l.state == Method && l.requestStart == q
    ensures forall i :: q < i < |data| ==>
              Step(l, data, i) == if IsMethodByte(data[i]) then Next(l)
                                  else if data[i] == SP then Next(Named(l, data, q, i))
                                  else Fail(l, INVALID_METHOD)
  {
    hide StepSchema, StepHost, StepPath, StepUri, StepHttp09, StepProtocol, StepVersion, StepAlmostDone, MethodCode;
  }

  lemma NameStarts(l: Line, data: Bytes, q: nat)
    requires q < |data| && l.state == Start && !IsLineEnd(data[q])
    ensures Step(l, data, q) ==
            if IsMethodByte(data[q]) then Next(l.(requestStart := q, state := Method))
            else Fail(l.(requestStart := q), INVALID_METHOD)
  {
    hide StepSchema, StepHost, StepPath, StepUri, StepHttp09, StepProtocol, StepVersion, StepAlmostDone, MethodCode;
  }

  lemma NameRun(l: Line, data: Bytes, q: nat)
    requires q < |data| && l.state == Start && !IsLineEnd(data[q])
    ensures var n := Skip(IsMethodByte, data, q);
            if q < n < |data| && data[n] == SP then Run(l, data, q) == Run(Named(l, data, q, n), data, n + 1)
            else
              && !Complete(Run(l, data, q))
              && Run(l, data, q).code == if n == |data| then LAGAIN else INVALID_METHOD
  {
    hide Run, Step, MethodCode;
    NameStarts(l, data, q);
    Turn(l, data, q);
    if IsMethodByte(data[q]) {
      var n := Skip(IsMethodByte, data, q);
      var l' := l.(requestStart := q, state := Method);
      NameNext(l', data, q);
      SkipRun(IsMethodByte, l', data, q + 1);
      if n < |data| { Turn(l', data, n); } else { AtEnd(l', data); }
    }
  }

  lemma GapRun(l: Line, data: Bytes, p: nat)
    requires p <= |data| && l.state == SpacesBeforeUri
    ensures Run(l, data, p) == Run(l, data, Skip(IsSpace, data, p))
  {
    hide Run;
    SkipRun(IsSpace, l, data, p);
  }

  // ---------- the target ----------

  lemma TargetStartRun(l: Line, data: Bytes, p: nat)
    requires p <= |data| && l.state == SpacesBeforeUri
    requires p < |data| ==> data[p] != SP
    ensures if p < |data| && data[p] == SLASH then
              Run(l, data, p) == Run(l.WithUri(l.uri.(start := p), AfterSlashInUri), data, p + 1)
            else (p < |data| && IsLetter(data[p])) || !Complete(Run(l, data, p))
  {
    hide Run;
    if p < |data| { Turn(l, data, p); } else { AtEnd(l, data); }
  }

  /** What stands in the request when target and tail are past, apart from the URI. */
  function TargetAuth(l: Line, p: nat, t: Target): RequestLine.Authority {
    if t.authority == None then l.auth else T.AuthorityAt(l.auth, t.authority.value, p)
  }

  function PathOffset(t: Target): nat {
    if t.authority == None then 0 else |AuthorityText(t.authority.value)|
  }

  /** The URI part, once `was`: a scanned path, or the first slash of "://". */
  function TargetUri(was: UriPart, data: Bytes, p: nat, t: Target): UriPart
    requires ValidTarget(t) && p + |TargetText(t)| <= |data|
  {
    match t.path
    case Some(path) =>
      var lo := p + PathOffset(t);
      Scanned(was, data, lo, lo + 1 + |path|)
    case None =>
      var s := p + |t.authority.value.schema| + 1;
      was.(start := s, end := s + 1)
  }

  lemma ScannedForgets(was: UriPart, s: int, data: Bytes, lo: nat, hi: nat)
    requires lo < hi <= |data|
    ensures Scanned(was.(start := s), data, lo, hi) == Scanned(was, data, lo, hi)
  {
  }

  /** The machine has seen the first byte of "/path" at p. */
  lemma OriginComplete(l: Line, data: Bytes, p: nat, path: Bytes, tail: Tail)
    requires ValidPath(path) && ValidTail(tail)
    requires Occurs(data, p, [SLASH] + path) && Occurs(data, p + 1 + |path|, TailText(tail))
    ensures var q := p + 1 + |path|;
            && q <= |data|
            && Run(l.WithUri(l.uri.(start := p), AfterSlashInUri), data, p + 1) ==
               Closed(l.(uri := Scanned(l.uri, data, p, q)), q + tail.gap, tail.version, tail.eol)
  {
    hide Run, Step, Occurs, Closed, Scanned;
    OccursConcat(data, p, [SLASH], path);
    OccursConcat(data, p + 1, path, TailText(tail));
    OccursOne(data, p, SLASH);
    var l1 := l.WithUri(l.uri.(start := p), AfterSlashInUri);
    var q := p + 1 + |path|;
    PathComplete(l1, data, p, path, tail);
    ScannedForgets(l.uri, p, data, p, q);
    ClosedAnyState(l.(uri := Scanned(l.uri, data, p, q)), AfterSlashInUri, q + tail.gap, tail.version, tail.eol);
  }

  lemma HostOnlyComplete(l: Line, data: Bytes, q: nat, tail: Tail)
    requires l.state == HostHttp09
    requires ValidTail(tail) && tail.gap > 0 && Occurs(data, q, TailText(tail))
    ensures q + 1 <= |data|
    ensures Run(l, data, q + 1) == Closed(l, q + tail.gap, tail.version, tail.eol)
  {
    hide Run, Step, Occurs;
    TailStops(data, q, tail);
    assert Skip(IsSpace, data, q) == Skip(IsSpace, data, q + 1);
    HostSpacesRun(l, data, q + 1);
    Http09Complete(l, data, q + tail.gap, tail.version, tail.eol);
  }

  lemma HostSpacesRun(l: Line, data: Bytes, p: nat)
    requires p <= |data| && l.state == HostHttp09
    ensures Run(l, data, p) == Run(l, data, Skip(IsSpace, data, p))
  {
    hide Run;
    SkipRun(IsSpace, l, data, p);
  }

  /** The run over target and tail leaves the target recorded. */
  predicate TargetDone(l: Line, data: Bytes, p: nat, t: Target, tail: Tail)
    requires p <= |data| && ValidTarget(t) && WellFormed(l, p)
  {
    && p + |TargetText(t)| <= |data|
    && Run(l, data, p) ==
       Closed(l.(auth := TargetAuth(l, p, t), uri := TargetUri(l.uri, data, p, t)),
              p + |TargetText(t)| + tail.gap, tail.version, tail.eol)
  }

  lemma PathTarget(l: Line, data: Bytes, p: nat, path: Bytes, tail: Tail)
    requires p <= |data| && l.state == SpacesBeforeUri && ValidPath(path) && ValidTail(tail)
    requires Occurs(data, p, [SLASH] + path) && Occurs(data, p + 1 + |path|, TailText(tail))
    ensures TargetDone(l, data, p, Target(None, Some(path)), tail)
  {
    hide Run, Step, Occurs, Closed, Scanned;
    OccursConcat(data, p, [SLASH], path);
    OccursOne(data, p, SLASH);
    TargetStartRun(l, data, p);
    OriginComplete(l, data, p, path, tail);
  }

  lemma AuthorityTarget(l: Line, data: Bytes, p: nat, a: G.Authority, path: Option<Bytes>, tail: Tail)
    requires p <= |data| && l.state == SpacesBeforeUri && ValidTarget(Target(Some(a), path)) && ValidTail(tail)
    requires path == None ==> tail.gap > 0
    requires var e := p + |AuthorityText(a)|;
             && Occurs(data, p, AuthorityText(a)) && Occurs(data, e, PathText(path))
             && Occurs(data, e + |PathText(path)|, TailText(tail))
    ensures TargetDone(l, data, p, Target(Some(a), path), tail)
  {
    hide Run, Step, Occurs, Closed, Scanned, AuthorityText;
    var e := p + |AuthorityText(a)|;
    var l1 := l.(auth := T.AuthorityAt(l.auth, a, p));
    if path.Some? {
      OccursConcat(data, e, [SLASH], path.value);
      OccursOne(data, e, SLASH);
      T.AuthorityComplete(l, data, p, a);
      OriginComplete(l1, data, e, path.value, tail);
    } else {
      TailSpace(data, e, tail);
      T.AuthorityComplete(l, data, p, a);
      var l2 := BorrowSlash(l1);
      HostOnlyComplete(l2, data, e, tail);
      ClosedAnyState(l2, l.state, e + tail.gap, tail.version, tail.eol);
    }
  }

  lemma TailSpace(data: Bytes, e: nat, tail: Tail)
    requires ValidTail(tail) && tail.gap > 0 && Occurs(data, e, TailText(tail))
    ensures e < |data| && data[e] == SP
  {
    TailStops(data, e, tail);
  }

  lemma TargetComplete(l: Line, data: Bytes, p: nat, t: Target, tail: Tail)
    requires p <= |data| && l.state == SpacesBeforeUri && ValidTarget(t) && ValidTail(tail)
    requires t.path == None ==> tail.gap > 0
    requires Occurs(data, p, TargetText(t)) && Occurs(data, p + |TargetText(t)|, TailText(tail))
    ensures TargetDone(l, data, p, t, tail)
  {
    hide Run, Step, Occurs, Closed, TargetDone;
    match t.authority
    case None =>
      assert TargetText(t) == [SLASH] + t.path.value;
      PathTarget(l, data, p, t.path.value, tail);
      assert t == Target(None, Some(t.path.value));
    case Some(a) =>
      OccursConcat(data, p, AuthorityText(a), PathText(t.path));
      AuthorityTarget(l, data, p, a, t.path, tail);
      assert t == Target(Some(a), t.path);
  }

  lemma TargetSound(l: Line, data: Bytes, p: nat) returns (t: Target, tail: Tail)
    requires p <= |data| && l.state == SpacesBeforeUri && (p < |data| ==> data[p] != SP)
    requires Complete(Run(l, data, p))
    ensures ValidTarget(t) && ValidTail(tail) && (t.path == None ==> tail.gap > 0)
    ensures Occurs(data, p, TargetText(t)) && Occurs(data, p + |TargetText(t)|, TailText(tail))
  {
    hide Run, Step, Occurs, Complete;
    TargetStartRun(l, data, p);
    if data[p] == SLASH {
      var l1 := l.WithUri(l.uri.(start := p), AfterSlashInUri);
      var path;
      path, tail := PathSound(l1, data, p);
      t := Target(None, Some(path));
      OccursOne(data, p, SLASH);
      OccursConcat(data, p + 1, path, TailText(tail));
      OccursConcat(data, p, [SLASH], path);
      assert TargetText(t) == [SLASH] + path;
    } else {
      t, tail := AuthorityTargetSound(l, data, p);
    }
  }

  /** An authority, the slash behind it, and a path with its tail. */
  lemma PathBehind(data: Bytes, p: nat, a: G.Authority, path: Bytes, tail: Tail)
    requires Occurs(data, p, AuthorityText(a))
    requires var e := p + |AuthorityText(a)|;
             e < |data| && data[e] == SLASH && Occurs(data, e + 1, path + TailText(tail))
    ensures var t := Target(Some(a), Some(path));
            Occurs(data, p, TargetText(t)) && Occurs(data, p + |TargetText(t)|, TailText(tail))
  {
    hide Occurs, AuthorityText, TailText;
    var e := p + |AuthorityText(a)|;
    OccursOne(data, e, SLASH);
    OccursConcat(data, e + 1, path, TailText(tail));
    OccursConcat(data, e, [SLASH], path);
    OccursConcat(data, p, AuthorityText(a), [SLASH] + path);
  }

  lemma AuthorityTargetSound(l: Line, data: Bytes, p: nat) returns (t: Target, tail: Tail)
    requires p < |data| && l.state == SpacesBeforeUri && IsLetter(data[p])
    requires Complete(Run(l, data, p))
    ensures ValidTarget(t) && ValidTail(tail) && (t.path == None ==> tail.gap > 0)
    ensures Occurs(data, p, TargetText(t)) && Occurs(data, p + |TargetText(t)|, TailText(tail))
  {
    hide Run, Step, Occurs, Complete, AuthorityText, TailText, ValidAuthority, ValidPath, ValidTail, T.AuthorityAt;
    var a := T.AuthoritySound(l, data, p);
    var e := p + |AuthorityText(a)|;
    T.AuthorityComplete(l, data, p, a);
    var l1 := l.(auth := T.AuthorityAt(l.auth, a, p));
    if data[e] == SLASH {
      var path;
      path, tail := PathSound(l1.WithUri(l1.uri.(start := e), AfterSlashInUri), data, e);
      t := Target(Some(a), Some(path));
      PathBehind(data, p, a, path, tail);
    } else {
      tail := HostOnlySound(BorrowSlash(l1), data, e);
      t := Target(Some(a), None);
      assert TargetText(t) == AuthorityText(a);
    }
  }

  lemma HostOnlySound(l: Line, data: Bytes, e: nat) returns (tail: Tail)
    requires l.state == HostHttp09 && e < |data| && data[e] == SP
    requires Complete(Run(l, data, e + 1))
    ensures ValidTail(tail) && tail.gap > 0 && Occurs(data, e, TailText(tail))
  {
    hide Run, Step, Occurs;
    var j := Skip(IsSpace, data, e);
    HostSpacesRun(l, data, e + 1);
    HostHttp09Stops(l, data, j);
    var v, eol := Http09Sound(l, data, j);
    tail := Tail(j - e, v, eol);
    OccursSpaces(data, e, j - e);
    OccursConcat(data, e, Spaces(j - e), VersionText(v) + EolText(eol));
  }

  lemma HostHttp09Stops(l: Line, data: Bytes, j: nat)
    requires l.state == HostHttp09 && j <= |data| && (j < |data| ==> data[j] != SP)
    requires Complete(Run(l, data, j))
    ensures j < |data| && data[j] in {CR, LF, UPPER_H}
  {
    hide Run;
    if j < |data| { Turn(l, data, j); } else { AtEnd(l, data); }
  }

  // ---------- the front of the line ----------

  lemma OccursRequest(data: Bytes, p: nat, t: Request)
    ensures Occurs(data, p, Text(t)) <==>
            && Occurs(data, p, t.lead) && Occurs(data, p + NameAt(t), t.name)
            && Occurs(data, p + NameAt(t) + |t.name|, Spaces(t.gap))
            && Occurs(data, p + TargetAt(t), TargetText(t.target))
            && Occurs(data, p + TailAt(t), TailText(t.tail))
  {
    hide Occurs;
    var a := t.lead + t.name;
    var b := a + Spaces(t.gap);
    OccursConcat(data, p, b + TargetText(t.target), TailText(t.tail));
    OccursConcat(data, p, b, TargetText(t.target));
    OccursConcat(data, p, a, Spaces(t.gap));
    OccursConcat(data, p, t.lead, t.name);
  }

  /** The first byte of a target is a slash or a letter. */
  lemma TargetFirst(data: Bytes, p: nat, t: Target)
    requires ValidTarget(t) && Occurs(data, p, TargetText(t))
    ensures p < |data| && (data[p] == SLASH || IsLetter(data[p]))
  {
    OccursFits(data, p, TargetText(t));
    assert TargetText(t)[0] == if t.authority == None then SLASH else t.authority.value.schema[0];
  }

  lemma GapAt(data: Bytes, p: nat, gap: nat, next: nat)
    requires Occurs(data, p, Spaces(gap)) && gap > 0 && next == p + gap
    requires next < |data| && data[next] != SP
    ensures p < |data| && data[p] == SP && Skip(IsSpace, data, p + 1) == next
  {
    hide Occurs;
    OccursFits(data, p, Spaces(gap));
    forall i | p <= i < next
      ensures data[i] == SP
    {
      assert data[i] == Spaces(gap)[i - p];
    }
    SkipUnique(IsSpace, data, p + 1, next);
  }

  lemma NameComplete(l: Line, data: Bytes, q: nat, name: Bytes, gap: nat)
    requires l.state == Start && name != [] && All(name, IsMethodByte) && gap > 0
    requires var n := q + |name|;
             && n + gap < |data| && data[n + gap] != SP
             && Occurs(data, q, name) && Occurs(data, n, Spaces(gap))
    ensures var n := q + |name|;
            Run(l, data, q) == Run(Named(l, data, q, n), data, n + gap)
  {
    hide Run, Step, Occurs;
    var n := q + |name|;
    GapAt(data, n, gap, n + gap);
    OccursFits(data, q, name);
    OccursClass(IsMethodByte, data, q, name);
    NameRun(l, data, q);
    GapRun(Named(l, data, q, n), data, n + 1);
  }

  /** The front of the line leads to the target, with the method recorded. */
  lemma FrontComplete(l: Line, data: Bytes, p: nat, t: Request)
    requires l.state == Start && Valid(t) && Occurs(data, p, Text(t))
    ensures var q := p + NameAt(t);
            q + |t.name| <= |data| && p + TargetAt(t) <= |data| && data[q..q + |t.name|] == t.name
            && Run(l, data, p) == Run(Named(l, data, q, q + |t.name|), data, p + TargetAt(t))
  {
    hide Run, Step, Occurs, Text, Skip, TargetText, ValidTarget, ValidTail, TailText, MethodCode;
    OccursRequest(data, p, t);
    var q := p + NameAt(t);
    var n := q + |t.name|;
    TargetFirst(data, p + TargetAt(t), t.target);
    OccursFits(data, q, t.name);
    assert n + t.gap == p + TargetAt(t);
    NameComplete(l, data, q, t.name, t.gap);
    assert Run(l, data, q) == Run(Named(l, data, q, n), data, n + t.gap);
    LeadComplete(l, data, p, t.lead, t.name);
    assert Run(l, data, p) == Run(l, data, p + |t.lead|);
  }

  lemma LeadComplete(l: Line, data: Bytes, p: nat, lead: Bytes, name: Bytes)
    requires l.state == Start && All(lead, IsLineEnd) && name != [] && All(name, IsMethodByte)
    requires Occurs(data, p, lead) && Occurs(data, p + |lead|, name)
    ensures p + |lead| <= |data| && Run(l, data, p) == Run(l, data, p + |lead|)
  {
    hide Run, Step, Occurs;
    var q := p + |lead|;
    OccursFits(data, q, name);
    OccursClass(IsLineEnd, data, p, lead);
    LeadRun(l, data, p);
  }

  lemma SpacesAt(data: Bytes, p: nat, gap: nat)
    requires p + gap <= |data| && forall i :: p <= i < p + gap ==> data[i] == SP
    ensures Occurs(data, p, Spaces(gap))
  {
    assert data[p..p + gap] == Spaces(gap);
  }

  lemma FrontSound(l: Line, data: Bytes, p: nat) returns (lead: Bytes, name: Bytes, gap: nat)
    requires p <= |data| && l.state == Start && Complete(Run(l, data, p))
    ensures All(lead, IsLineEnd) && name != [] && All(name, IsMethodByte) && gap > 0
    ensures var q := p + |lead|;
            var n := q + |name|;
            && Occurs(data, p, lead) && Occurs(data, q, name) && Occurs(data, n, Spaces(gap))
            && n + gap <= |data| && (n + gap < |data| ==> data[n + gap] != SP)
            && Run(l, data, p) == Run(Named(l, data, q, n), data, n + gap)
  {
    hide Run, Step, Complete, Occurs, All;
    var q := Skip(IsLineEnd, data, p);
    LeadRun(l, data, p);
    var n := Skip(IsMethodByte, data, q);
    NameRun(l, data, q);
    var g := Skip(IsSpace, data, n + 1);
    GapRun(Named(l, data, q, n), data, n + 1);
    lead, name, gap := data[p..q], data[q..n], g - n;
    SliceOf(IsLineEnd, data, p, q);
    SliceOf(IsMethodByte, data, q, n);
    SpacesAt(data, n, gap);
  }

  // ---------- the language ----------

  /** The lines that are accepted into l: a version, one left over from an earlier line, or GET. */
  predicate AcceptedInto(l: Line, t: Request) {
    Valid(t) && (t.tail.version.Some? || l.http.major != 0 || MethodCode(t.name, l.methodCode) == METHOD_GET)
  }

  /** Every field of the request when the line of t at p has been taken in. */
  function Recorded(l: Line, data: Bytes, p: nat, t: Request): Line
    requires Valid(t) && p + |Text(t)| <= |data|
  {
    var http := match t.tail.version
                case None => l.http.(minor := 9)
                case Some(v) => Http(p + VersionAt(t), Dec(v.major), Dec(v.minor));
    Line(
      Start,
      p + NameAt(t), p + NameAt(t) + |t.name| - 1, MethodCode(t.name, l.methodCode),
      TargetAuth(l, p + TargetAt(t), t.target),
      TargetUri(l.uri, data, p + TargetAt(t), t.target),
      http,
      EndAt(l.requestEnd, p + EolAt(t), t.tail.eol),
      1000 * http.major + http.minor)
  }

  /** Version and end of line complete what front and target have recorded. */
  lemma ClosedIs(l: Line, l1: Line, data: Bytes, p: nat, t: Request)
    requires Valid(t) && p + |Text(t)| <= |data| && p + NameAt(t) + |t.name| <= |data|
    requires data[p + NameAt(t)..p + NameAt(t) + |t.name|] == t.name
    requires l1 == Named(l, data, p + NameAt(t), p + NameAt(t) + |t.name|)
                   .(auth := TargetAuth(l, p + TargetAt(t), t.target),
                     uri := TargetUri(l.uri, data, p + TargetAt(t), t.target))
    ensures Closed(l1, p + VersionAt(t), t.tail.version, t.tail.eol) ==
            Result(if AcceptedInto(l, t) then LOK else INVALID_09_METHOD, Recorded(l, data, p, t), p + |Text(t)|)
  {
    hide TargetUri, TargetAuth, ValidTarget, TargetText, MethodCode, Dec;
    if t.tail.version.Some? {
      DecNonNegative(t.tail.version.value.major);
      DecNonNegative(t.tail.version.value.minor);
    }
  }

  /** A line of the language is taken in, whatever follows it and whatever the request held before. */
  lemma Completeness(l: Line, data: Bytes, p: nat, t: Request)
    requires l.state == Start && Valid(t) && Occurs(data, p, Text(t))
    ensures p + |Text(t)| <= |data|
    ensures Run(l, data, p) ==
            Result(if AcceptedInto(l, t) then LOK else INVALID_09_METHOD, Recorded(l, data, p, t), p + |Text(t)|)
  {
    hide Run, Step, Occurs, TargetUri, T.AuthorityAt, Closed, Recorded, AcceptedInto, MethodCode, Text, TargetText;
    OccursFits(data, p, Text(t));
    FrontComplete(l, data, p, t);
    var q := p + NameAt(t);
    var l1 := Named(l, data, q, q + |t.name|);
    OccursRequest(data, p, t);
    TargetComplete(l1, data, p + TargetAt(t), t.target, t.tail);
    ClosedIs(l, l1.(auth := TargetAuth(l, p + TargetAt(t), t.target),
                    uri := TargetUri(l.uri, data, p + TargetAt(t), t.target)), data, p, t);
  }

  /** Whatever line the machine takes in is a line of the language. */
  lemma Soundness(l: Line, data: Bytes, p: nat) returns (t: Request)
    requires p <= |data| && l.state == Start && Complete(Run(l, data, p))
    ensures Valid(t) && Occurs(data, p, Text(t))
  {
    hide Run, Step, Occurs, Complete, Text, TargetText, TailText, ValidTarget, ValidTail, MethodCode, All;
    var lead, name, gap := FrontSound(l, data, p);
    var n := p + |lead| + |name|;
    var target, tail := TargetSound(Named(l, data, p + |lead|, n), data, n + gap);
    t := Request(lead, name, gap, target, tail);
    OccursRequest(data, p, t);
  }

  /** LOK exactly on the lines accepted into l; the 0.9 error exactly on the rest of the well-formed lines. */
  lemma AcceptsExactly(l: Line, data: Bytes, p: nat)
    requires p <= |data| && l.state == Start
    ensures Run(l, data, p).code == LOK <==> exists t :: AcceptedInto(l, t) && Occurs(data, p, Text(t))
    ensures Run(l, data, p).code == INVALID_09_METHOD <==>
            exists t :: Valid(t) && !AcceptedInto(l, t) && Occurs(data, p, Text(t))
  {
    hide Run, Step, Occurs;
    if Complete(Run(l, data, p)) {
      var t := Soundness(l, data, p);
      Completeness(l, data, p, t);
    }
    forall t | Valid(t) && Occurs(data, p, Text(t))
      ensures Run(l, data, p).code == if AcceptedInto(l, t) then LOK else INVALID_09_METHOD
    {
      Completeness(l, data, p, t);
    }
  }

  /** A fresh request leaves it to the line. */
  lemma AcceptedFresh(l: Line, t: Request)
    requires Fresh(l)
    ensures AcceptedInto(l, t) <==> Accepted(t)
  {
  }

  /** On a fresh request LOK exactly on the language. */
  lemma AcceptsExactlyTheLanguage(l: Line, data: Bytes, p: nat)
    requires p <= |data| && Fresh(l)
    ensures Run(l, data, p).code == LOK <==> exists t :: Accepted(t) && Occurs(data, p, Text(t))
    ensures Run(l, data, p).code == INVALID_09_METHOD <==>
            exists t :: Valid(t) && !Accepted(t) && Occurs(data, p, Text(t))
  {
    hide Run, Step, Occurs, Accepted, AcceptedInto;
    forall t: Request
      ensures AcceptedInto(l, t) <==> Accepted(t)
    {
      AcceptedFresh(l, t);
    }
    AcceptsExactly(l, data, p);
  }
}
