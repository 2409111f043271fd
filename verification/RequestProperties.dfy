/** What holds of every call of the request-line parser, and of every accepted line. */
module RequestProperties {
  import opened Bytes
  import opened Texts
  import opened ParserState
  import opened RequestLine
  import G = RequestGrammar
  import opened RequestRuns
  import opened RequestPath
  import opened RequestLanguage
  import T = RequestTarget

  // ---------- resuming ----------

  /** What a call leaves in request and buffer: an error return saves neither state nor position. */
  function Call(l: Line, data: Bytes, p: nat): (r: Result)
    requires p <= |data| && WellFormed(l, p)
    ensures r.code == LAGAIN ==> r.pos == |data| && WellFormed(r.line, |data|)
  {
    AgainAtEnd(l, data, p);
    var r := Run(l, data, p);
    if IsError(r.code) then Result(r.code, r.line.To(l.state), p) else r
  }

  /** An error keeps the saved state and position, asking for more is done at the end, and a line ends in the start state. */
  lemma CallSaves(l: Line, data: Bytes, p: nat)
    requires p <= |data| && WellFormed(l, p)
    ensures var r := Call(l, data, p);
            && r.code == Run(l, data, p).code
            && (r.code in {INVALID_METHOD, INVALID_REQUEST} ==> r.pos == p && r.line.state == l.state)
            && (r.code == LAGAIN ==> r.pos == |data|)
            && (r.code in {LOK, INVALID_09_METHOD} ==> p < r.pos <= |data| && r.line.state == Start)
  {
    hide Run;
    AgainAtEnd(l, data, p);
  }

  /** The calls made as the pieces arrive one by one, up to the first that does not ask for more. */
  function Calls(l: Line, data: Bytes, p: nat, pieces: seq<Bytes>): Result
    requires p <= |data| && WellFormed(l, p)
    decreases |pieces|
  {
    var r := Call(l, data, p);
    if r.code != LAGAIN || pieces == [] then r
    else Calls(r.line, data + pieces[0], r.pos, pieces[1..])
  }

  lemma {:induction false} AgainAtEnd(l: Line, data: Bytes, p: nat)
    requires p <= |data| && WellFormed(l, p)
    ensures var r := Run(l, data, p);
            && r.code in {LOK, LAGAIN, INVALID_METHOD, INVALID_REQUEST, INVALID_09_METHOD}
            && (r.code == LAGAIN ==> r.pos == |data| && WellFormed(r.line, |data|))
            && (!IsError(r.code) ==> p <= r.pos <= |data|)
            && (r.code in {LOK, INVALID_09_METHOD} ==> p < r.pos && r.line.state == Start)
    decreases |data| - p, Backs(l.state)
  {
    hide Run, Step;
    if p == |data| {
      AtEnd(l, data);
    } else {
      Turn(l, data, p);
      match Step(l, data, p)
      case Next(l') => AgainAtEnd(l', data, p + 1);
      case Back(l') => AgainAtEnd(l', data, p);
      case _ =>
    }
  }

  /** A turn looks at no byte beyond its own. */
  lemma StepIsLocal(l: Line, data: Bytes, more: Bytes, p: nat)
    requires p < |data| && WellFormed(l, p)
    ensures Step(l, data + more, p) == Step(l, data, p)
  {
    hide StepHost, StepPath, StepVersion;
    if l.state == Method {
      assert (data + more)[l.requestStart..p] == data[l.requestStart..p];
    }
  }

  /** More bytes change nothing once a call has ended; until then the next call takes over. */
  lemma {:induction false} Resume(l: Line, data: Bytes, more: Bytes, p: nat)
    requires p <= |data| && WellFormed(l, p)
    ensures var r := Run(l, data, p);
            if r.code == LAGAIN
            then WellFormed(r.line, |data|) && Run(r.line, data + more, |data|) == Run(l, data + more, p)
            else r == Run(l, data + more, p)
    decreases |data| - p, Backs(l.state)
  {
    hide Run, Step;
    AgainAtEnd(l, data, p);
    if p == |data| {
      AtEnd(l, data);
    } else {
      StepIsLocal(l, data, more, p);
      Turn(l, data, p);
      Turn(l, data + more, p);
      match Step(l, data, p)
      case Next(l') => Resume(l', data, more, p + 1);
      case Back(l') => Resume(l', data, more, p);
      case _ =>
    }
  }

  /** The same apart from the state and position an error leaves unsaved. */
  predicate SameOutcome(a: Result, b: Result) {
    && a.code == b.code && a.line.To(Start) == b.line.To(Start)
    && (!IsError(a.code) ==> a == b)
  }

  /** However the input is cut into pieces, the outcome is that of one call on all of it. */
  lemma {:induction false} PiecewiseIsWhole(l: Line, data: Bytes, p: nat, pieces: seq<Bytes>)
    requires p <= |data| && WellFormed(l, p)
    ensures SameOutcome(Calls(l, data, p, pieces), Call(l, data + Concat(pieces), p))
    decreases |pieces|
  {
    hide Run;
    var r := Call(l, data, p);
    if pieces == [] {
      assert data + Concat(pieces) == data;
    } else {
      Resume(l, data, Concat(pieces), p);
      if r.code == LAGAIN {
        PiecewiseIsWhole(r.line, data + pieces[0], |data|, pieces[1..]);
        assert data + Concat(pieces) == data + pieces[0] + Concat(pieces[1..]);
      }
    }
  }

  // ---------- the loop turns at most twice on a byte ----------

  /** How many turns of the loop a call spends on the byte at k. */
  function Visits(l: Line, data: Bytes, p: nat, k: nat): nat
    requires p <= |data| && WellFormed(l, p)
    decreases |data| - p, Backs(l.state)
  {
    hide Step;
    if p == |data| then 0
    else
      (if p == k then 1 else 0) +
      match Step(l, data, p)
      case Next(l') => Visits(l', data, p + 1, k)
      case Back(l') => Visits(l', data, p, k)
      case _ => 0
  }

  /** How many turns a call takes in all. */
  function Turns(l: Line, data: Bytes, p: nat): nat
    requires p <= |data| && WellFormed(l, p)
    decreases |data| - p, Backs(l.state)
  {
    hide Step;
    if p == |data| then 0
    else
      1 + match Step(l, data, p)
          case Next(l') => Turns(l', data, p + 1)
          case Back(l') => Turns(l', data, p)
          case _ => 0
  }

  lemma TurnCounts(l: Line, data: Bytes, p: nat)
    requires p < |data| && WellFormed(l, p)
    ensures match Step(l, data, p)
            case Next(l') => Turns(l, data, p) == 1 + Turns(l', data, p + 1)
            case Back(l') => Turns(l, data, p) == 1 + Turns(l', data, p)
            case _ => Turns(l, data, p) == 1
  {
    hide Step;
  }

  /** Going back happens once per byte: no byte is seen three times. */
  lemma {:induction false} AtMostTwice(l: Line, data: Bytes, p: nat, k: nat)
    requires p <= |data| && WellFormed(l, p)
    ensures Visits(l, data, p, k) <= if k < p then 0 else if k > p then 2 else 1 + Backs(l.state)
    ensures Turns(l, data, p) <= 2 * (|data| - p)
    ensures p < |data| ==> Turns(l, data, p) <= 2 * (|data| - p) - 1 + Backs(l.state)
    decreases |data| - p, Backs(l.state)
  {
    hide Step;
    if p < |data| {
      match Step(l, data, p)
      case Next(l') => AtMostTwice(l', data, p + 1, k);
      case Back(l') => AtMostTwice(l', data, p, k);
      case _ =>
    }
  }

  // ---------- the boundaries of an accepted line ----------

  /** On LOK the boundaries are in order, the URI starts with a slash and holds no line end or NUL. */
  lemma Boundaries(l: Line, data: Bytes, p: nat)
    requires p <= |data| && Fresh(l)
    requires Run(l, data, p).code == LOK
    ensures var r := Run(l, data, p);
            && r.line.requestEnd.At?
            && var u, e := r.line.uri, r.line.requestEnd.pos;
            && p <= r.line.requestStart <= r.line.methodEnd < u.start < u.end <= e < r.pos <= |data|
            && data[u.start] == SLASH
            && (forall i :: u.start <= i < u.end ==> data[i] !in {CR, LF, NUL})
            && (data[e..r.pos] == [LF] || data[e..r.pos] == [CR, LF])
  {
    hide Run, Step, Occurs, TargetAuth, TargetUri, LeavesAt, G.Valid, G.Text, G.UriAt, G.UriLen, Dec, G.EolAt;
    var t := Soundness(l, data, p);
    Completeness(l, data, p, t);
    RecordedUri(l, data, p, t);
    InOrder(t);
    EolBytes(data, p, t);
  }

  /** The parts of a line stand one behind the other. */
  lemma InOrder(t: G.Request)
    requires G.Valid(t)
    ensures t.name != [] && G.NameAt(t) + |t.name| < G.UriAt(t) && G.UriAt(t) + G.UriLen(t) <= G.EolAt(t)
  {
    hide G.ValidPath, G.ValidAuthority, G.ValidTail;
  }

  lemma EolBytes(data: Bytes, p: nat, t: G.Request)
    requires G.Valid(t) && Occurs(data, p, G.Text(t))
    ensures var e := p + G.EolAt(t);
            e + |EolText(t.tail.eol)| == p + |G.Text(t)| <= |data|
            && data[e..p + |G.Text(t)|] == EolText(t.tail.eol)
  {
    hide Occurs, G.ValidTail, G.ValidTarget, StopsAt, Skip, G.TargetText, G.VersionText, EolText;
    OccursRequest(data, p, t);
    TailStops(data, p + G.TailAt(t), t.tail);
    OccursConcat(data, p + G.VersionAt(t), G.VersionText(t.tail.version), EolText(t.tail.eol));
    OccursFits(data, p + G.EolAt(t), EolText(t.tail.eol));
  }

  lemma PathBytes(data: Bytes, tp: nat, a: Bytes, path: Bytes)
    requires G.ValidPath(path) && Occurs(data, tp, a + G.PathText(Some(path)))
    ensures var s := tp + |a|;
            && s + 1 + |path| <= |data| && data[s] == SLASH
            && forall i :: s <= i < s + 1 + |path| ==> data[i] !in {CR, LF, NUL}
  {
    hide Occurs, G.ValidPath;
    var s := tp + |a|;
    OccursConcat(data, tp, a, G.PathText(Some(path)));
    OccursConcat(data, s, [SLASH], path);
    OccursOne(data, s, SLASH);
    PathAt(data, s + 1, path);
  }

  lemma BorrowedByte(data: Bytes, tp: nat, a: G.Authority)
    requires Occurs(data, tp, G.AuthorityText(a))
    ensures var s := tp + |a.schema| + 1;
            s < |data| && data[s] == SLASH
  {
    hide Occurs;
    var s := tp + |a.schema| + 1;
    T.OccursAuthority(data, tp, a);
    OccursConcat(data, s, [SLASH], [SLASH]);
    assert [SLASH, SLASH] == [SLASH] + [SLASH];
    OccursOne(data, s, SLASH);
  }

  lemma PathLength(path: Bytes)
    ensures |G.PathText(Some(path))| == 1 + |path|
  {
  }

  /** The URI of a valid target: a path, or the first slash of "://". */
  lemma TargetBytes(data: Bytes, tp: nat, t: G.Target)
    requires G.ValidTarget(t) && Occurs(data, tp, G.TargetText(t))
    ensures var s := tp + if t.path.Some? then |G.TargetText(t)| - |G.PathText(t.path)| else |t.authority.value.schema| + 1;
            var e := s + if t.path.Some? then 1 + |t.path.value| else 1;
            && e <= tp + |G.TargetText(t)| <= |data| && data[s] == SLASH
            && forall i :: s <= i < e ==> data[i] !in {CR, LF, NUL}
  {
    hide Occurs, G.ValidPath, G.ValidAuthority, G.AuthorityText, G.PathText;
    OccursFits(data, tp, G.TargetText(t));
    if t.path.Some? {
      PathBytes(data, tp, if t.authority == None then [] else G.AuthorityText(t.authority.value), t.path.value);
      PathLength(t.path.value);
    } else {
      NoPath(t);
      BorrowedByte(data, tp, t.authority.value);
    }
  }

  lemma NoPath(t: G.Target)
    requires t.path == None && t.authority.Some?
    ensures G.TargetText(t) == G.AuthorityText(t.authority.value)
    ensures |t.authority.value.schema| + 2 <= |G.TargetText(t)|
  {
  }

  lemma {:induction false} UriBytes(data: Bytes, p: nat, t: G.Request)
    requires G.Valid(t) && Occurs(data, p, G.Text(t))
    ensures var s := p + G.UriAt(t);
            var e := s + G.UriLen(t);
            && s < e <= p + G.TailAt(t) <= |data| && data[s] == SLASH
            && forall i :: s <= i < e ==> data[i] !in {CR, LF, NUL}
  {
    hide Occurs, G.ValidTarget, G.ValidTail, G.Text, G.TailText, G.TargetText, G.PathText;
    OccursRequest(data, p, t);
    TargetBytes(data, p + G.TargetAt(t), t.target);
  }

  // ---------- the flags of an accepted line ----------

  /** Neither flag is set exactly when the target needs no decoding; then the marks in it are right. */
  lemma FlagSoundness(l: Line, data: Bytes, p: nat)
    requires p <= |data| && Fresh(l)
    requires Run(l, data, p).code == LOK
    ensures var u := Run(l, data, p).line.uri;
            0 <= u.start < u.end <= |data|
            && (!u.complex && !u.quoted <==> PlainUri(data, u.start, u.end))
            && (!u.complex && !u.quoted ==>
                  var q := First(data, u.start, u.end, QMARK);
                  && u.args == (if q < u.end then At(q + 1) else Null)
                  && u.ext == Extension(data, u.start, q)
                  && (u.plus <==> l.uri.plus || !Lacks(data, u.start, q, PLUS)))
            && (u.space <==> !Lacks(data, u.start, u.end, SP))
  {
    hide Run, Step, Occurs, PlainUri, Extension, First, Scanned, Lacks, G.ValidTarget, G.ValidTail, G.UriAt, G.UriLen,
         CleanFlags;
    var t := Soundness(l, data, p);
    RecordedUri(l, data, p, t);
    CleanScanned(l.uri, data, p + G.UriAt(t), p + G.UriAt(t) + G.UriLen(t));
  }

  /** What the scan says if no flag was set before. */
  lemma CleanScanned(was: UriPart, data: Bytes, lo: nat, hi: nat)
    requires lo < hi <= |data| && data[lo] == SLASH && CleanFlags(was)
    ensures var u, q := Scanned(was, data, lo, hi), First(data, lo, hi, QMARK);
            && u.start == lo && u.end == hi
            && (!u.complex && !u.quoted <==> PlainUri(data, lo, hi))
            && (PlainUri(data, lo, hi) ==>
                  && u.args == (if q < hi then At(q + 1) else Null)
                  && u.ext == Extension(data, lo, q)
                  && (u.plus <==> was.plus || !Lacks(data, lo, q, PLUS)))
            && (u.space <==> !Lacks(data, lo, hi, SP))
  {
    hide PlainUri, Extension, First, LeavesAt, Lacks;
    ScannedMeans(was, data, lo, hi);
  }

  /** Whatever the request held before, its URI part is what the scan of the URI makes of the old one. */
  lemma RecordedUri(l: Line, data: Bytes, p: nat, t: G.Request)
    requires l.state == Start && G.Valid(t) && Occurs(data, p, G.Text(t))
    ensures var lo := p + G.UriAt(t);
            var hi := lo + G.UriLen(t);
            && p < lo < hi <= |data| && data[lo] == SLASH
            && (forall i :: lo <= i < hi ==> data[i] !in {CR, LF, NUL})
            && Run(l, data, p).line.uri == Scanned(l.uri, data, lo, hi)
  {
    hide Run, Occurs, Scanned, TargetAuth, TargetUri, G.Valid, G.Text, Dec, G.UriAt, G.UriLen;
    Completeness(l, data, p, t);
    UriBytes(data, p, t);
    UriInside(t);
    UriSpan(data, p, t, l.uri);
  }

  lemma UriInside(t: G.Request)
    requires G.Valid(t)
    ensures 0 < G.UriAt(t) && 0 < G.UriLen(t) && G.TargetAt(t) + |G.TargetText(t.target)| <= |G.Text(t)|
  {
    hide G.ValidPath, G.ValidAuthority, G.ValidTail, G.TailText, G.AuthorityText;
  }

  /** The URI of a recorded line stands where the grammar puts it. */
  lemma UriSpan(data: Bytes, p: nat, t: G.Request, was: UriPart)
    requires G.Valid(t) && p + G.TargetAt(t) + |G.TargetText(t.target)| <= |data|
    requires p + G.UriAt(t) < |data| && data[p + G.UriAt(t)] == SLASH
    ensures var lo := p + G.UriAt(t);
            var hi := lo + G.UriLen(t);
            lo < hi <= |data| && TargetUri(was, data, p + G.TargetAt(t), t.target) == Scanned(was, data, lo, hi)
  {
    hide Scanned, G.ValidPath, G.ValidAuthority, G.ValidTail, G.AuthorityText;
    if t.target.path == None {
      OneSlash(was, data, p + G.UriAt(t));
    }
  }

  /** A bare slash sets nothing. */
  lemma OneSlash(was: UriPart, data: Bytes, s: nat)
    requires s < |data| && data[s] == SLASH
    ensures Scanned(was, data, s, s + 1) == was.(start := s, end := s + 1)
    ensures PlainUri(data, s, s + 1)
  {
    FirstGrows(data, s, s, QMARK);
  }

  /** What a plain URI rules out, byte by byte. */
  lemma PlainMeans(data: Bytes, lo: nat, hi: nat, i: nat)
    requires lo <= i < hi <= |data| && PlainUri(data, lo, hi)
    ensures data[i] != HASH
    ensures i < First(data, lo, hi, QMARK) ==>
            && data[i] != PERCENT
            && (lo < i && data[i - 1] == SLASH ==> data[i] != SLASH && data[i] != DOT)
  {
  }
}
