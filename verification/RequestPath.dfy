/**
 The one-pass scan of a path: where it stops, and what its flags say about the bytes. The scan
 keeps a path "plain" when it can be used as it stands in the buffer, without decoding.
 */
module RequestPath {
  import opened Bytes
  import opened Texts
  import opened ParserState
  import opened RequestLine
  import opened RequestGrammar
  import opened RequestRuns

  // ---------- what the flags are about ----------

  /** data[lo..p] ends with a slash and perhaps some '+' behind it. */
  predicate AfterSlash(data: Bytes, lo: nat, p: nat)
    requires lo <= p <= |data|
  {
    lo < p && (data[p - 1] == SLASH || (data[p - 1] == PLUS && AfterSlash(data, lo, p - 1)))
  }

  /** No '%' and no "//", "/./", "/../" or "/.name" in data[lo..hi], nor any hidden behind '+'. */
  predicate NoEscape(data: Bytes, lo: nat, hi: nat)
    requires hi <= |data|
  {
    && Lacks(data, lo, hi, PERCENT)
    && forall j :: lo < j < hi && (data[j] == DOT || data[j] == SLASH) ==> !AfterSlash(data, lo, j)
  }

  /** The path, up to the first '?', needs no decoding, and the URI has no fragment. */
  predicate PlainUri(data: Bytes, lo: nat, hi: nat)
    requires lo <= hi <= |data|
  {
    NoEscape(data, lo, First(data, lo, hi, QMARK)) && Lacks(data, lo, hi, HASH)
  }

  /** Just past the last '.' of the last segment of data[lo..hi], or Null. */
  function Extension(data: Bytes, lo: nat, hi: nat): (e: Ptr)
    requires lo <= hi <= |data|
    ensures match e
            case Null => forall i :: lo <= i < hi && data[i] == DOT ==> !Lacks(data, i, hi, SLASH)
            case At(p) => lo < p <= hi && data[p - 1] == DOT && Lacks(data, p, hi, DOT) && Lacks(data, p, hi, SLASH)
  {
    if lo == hi || data[hi - 1] == SLASH then Null
    else if data[hi - 1] == DOT then At(hi)
    else Extension(data, lo, hi - 1)
  }

  /** The scan of data[lo..m] writes `uri_ext` at a dot or a further slash. */
  predicate Renewed(data: Bytes, lo: nat, m: nat)
    requires m <= |data|
  {
    !Lacks(data, lo + 1, m, DOT) || !Lacks(data, lo + 1, m, SLASH)
  }

  /** The byte at p takes the scan out of the path of a URI that began at lo. */
  predicate Leaves(data: Bytes, lo: nat, p: nat)
    requires lo <= p < |data|
  {
    data[p] in {PERCENT, QMARK, HASH} || (data[p] in {DOT, SLASH} && AfterSlash(data, lo, p))
  }

  /** The first byte behind the leading slash that does, or hi. */
  function LeavesAt(data: Bytes, lo: nat, hi: nat): (m: nat)
    requires lo < hi <= |data|
    ensures lo < m <= hi
    ensures m < hi ==> Leaves(data, lo, m)
    ensures forall j :: lo < j < m ==> !Leaves(data, lo, j)
    decreases hi
  {
    if hi == lo + 1 then hi
    else
      var m := LeavesAt(data, lo, hi - 1);
      if m < hi - 1 || Leaves(data, lo, hi - 1) then m else hi
  }

  /** What a URI part that was `was` becomes when the URI is data[lo..hi]. */
  function Scanned(was: UriPart, data: Bytes, lo: nat, hi: nat): UriPart
    requires lo < hi <= |data|
  {
    var m := LeavesAt(data, lo, hi);
    UriPart(
      lo, hi,
      if Renewed(data, lo, m) then Extension(data, lo, m) else was.ext,
      if m < hi && data[m] == QMARK then At(m + 1) else was.args,
      was.complex || (m < hi && data[m] in {DOT, SLASH}) || !Lacks(data, lo, hi, HASH),
      was.quoted || (m < hi && data[m] == PERCENT),
      was.plus || !Lacks(data, lo, m, PLUS),
      was.space || !Lacks(data, lo, hi, SP))
  }

  predicate CleanFlags(u: UriPart) {
    !u.complex && !u.quoted && !u.space && u.args == Null && u.ext == Null
  }

  /** A URI is plain if the scan leaves its path at its first '?' or not at all, and meets no '#'. */
  lemma PlainLeaves(data: Bytes, lo: nat, hi: nat)
    requires lo < hi <= |data| && data[lo] == SLASH
    ensures var m := LeavesAt(data, lo, hi);
            && (PlainUri(data, lo, hi) <==> (m == hi || data[m] == QMARK) && Lacks(data, lo, hi, HASH))
            && (PlainUri(data, lo, hi) ==> m == First(data, lo, hi, QMARK))
  {
    hide AfterSlash;
    var m := LeavesAt(data, lo, hi);
    var q := First(data, lo, hi, QMARK);
    assert q < hi ==> Leaves(data, lo, q);
    if (m == hi || data[m] == QMARK) && Lacks(data, lo, hi, HASH) {
      assert Lacks(data, lo, m, QMARK) && Lacks(data, lo, m, PERCENT) by {
        forall j | lo < j < m
          ensures data[j] != QMARK && data[j] != PERCENT
        {
          assert !Leaves(data, lo, j);
        }
      }
      forall j | lo < j < m && (data[j] == DOT || data[j] == SLASH)
        ensures !AfterSlash(data, lo, j)
      {
        assert !Leaves(data, lo, j);
      }
    }
  }

  /** No dot and no slash behind the first: no extension. */
  lemma NoExtension(data: Bytes, lo: nat, m: nat)
    requires lo <= m <= |data| && (lo < m ==> data[lo] == SLASH) && !Renewed(data, lo, m)
    ensures Extension(data, lo, m) == Null
  {
  }

  /** Whatever was there before: the flags are clear exactly if they were and the URI is plain; then the marks are right. */
  lemma ScannedMeans(was: UriPart, data: Bytes, lo: nat, hi: nat)
    requires lo < hi <= |data| && data[lo] == SLASH
    ensures var u, m := Scanned(was, data, lo, hi), First(data, lo, hi, QMARK);
            && (!u.complex && !u.quoted <==> !was.complex && !was.quoted && PlainUri(data, lo, hi))
            && (PlainUri(data, lo, hi) ==>
                  && u.args == (if m < hi then At(m + 1) else was.args)
                  && u.ext == (if Renewed(data, lo, m) then Extension(data, lo, m) else was.ext)
                  && (was.ext == Null ==> u.ext == Extension(data, lo, m))
                  && (u.plus <==> was.plus || !Lacks(data, lo, m, PLUS)))
  {
    hide PlainUri, Renewed, Extension, AfterSlash;
    PlainLeaves(data, lo, hi);
    var m := LeavesAt(data, lo, hi);
    if !Renewed(data, lo, m) {
      NoExtension(data, lo, m);
    }
  }

  // ---------- the scan keeps them right ----------

  predicate Scanning(s: State) { s in {AfterSlashInUri, CheckUri, Uri} }

  /** At p, in a URI that began at lo. */
  predicate ScanInv(was: UriPart, l: Line, data: Bytes, lo: nat, p: nat)
    requires lo < p <= |data|
  {
    && Scanning(l.state)
    && l.uri == Scanned(was, data, lo, p).(end := l.uri.end)
    && (l.state == Uri <==> LeavesAt(data, lo, p) < p)
    && (l.state == AfterSlashInUri <==> l.state != Uri && AfterSlash(data, lo, p))
  }

  /** The bytes the scan takes in its stride. */
  predicate IsPathByte(b: Byte) { b !in {SP, CR, LF, NUL} }

  /** What one byte more does to the parts of the flags. */
  lemma ByteGrows(data: Bytes, lo: nat, p: nat)
    requires lo < p < |data|
    ensures Lacks(data, lo, p + 1, SP) == (Lacks(data, lo, p, SP) && data[p] != SP)
    ensures Lacks(data, lo, p + 1, HASH) == (Lacks(data, lo, p, HASH) && data[p] != HASH)
    ensures Lacks(data, lo, p + 1, PLUS) == (Lacks(data, lo, p, PLUS) && data[p] != PLUS)
    ensures Renewed(data, lo, p + 1) == (Renewed(data, lo, p) || data[p] == DOT || data[p] == SLASH)
    ensures Extension(data, lo, p + 1) ==
            if data[p] == DOT then At(p + 1) else if data[p] == SLASH then Null else Extension(data, lo, p)
    ensures AfterSlash(data, lo, p + 1) == (data[p] == SLASH || (data[p] == PLUS && AfterSlash(data, lo, p)))
    ensures LeavesAt(data, lo, p + 1) ==
            if LeavesAt(data, lo, p) < p || Leaves(data, lo, p) then LeavesAt(data, lo, p) else p + 1
  {
  }

  /** One byte more of the path, or the byte that ends it. */
  lemma PathByte(was: UriPart, data: Bytes, lo: nat, p: nat)
    requires lo < p < |data| && LeavesAt(data, lo, p) == p && IsPathByte(data[p])
    ensures LeavesAt(data, lo, p + 1) == if Leaves(data, lo, p) then p else p + 1
    ensures AfterSlash(data, lo, p + 1) == (data[p] == SLASH || (data[p] == PLUS && AfterSlash(data, lo, p)))
    ensures var u, ch := Scanned(was, data, lo, p).(end := p + 1), data[p];
            Scanned(was, data, lo, p + 1) ==
            if ch == PERCENT then u.(quoted := true)
            else if ch == QMARK then u.(args := At(p + 1))
            else if ch == HASH || Leaves(data, lo, p) then u.(complex := true)
            else if ch == PLUS then u.(plus := true)
            else if ch == SLASH then u.(ext := Null)
            else if ch == DOT then u.(ext := At(p + 1))
            else u
  {
    hide Lacks, Renewed, Extension, AfterSlash, LeavesAt;
    ByteGrows(data, lo, p);
  }

  lemma PathTurn(was: UriPart, l: Line, data: Bytes, lo: nat, p: nat)
    requires lo < p < |data| && ScanInv(was, l, data, lo, p) && l.state != Uri && IsPathByte(data[p])
    ensures var m := StepPath(l, data[p], p);
            && m.Next? && ScanInv(was, m.line, data, lo, p + 1)
            && m.line == l.WithUri(m.line.uri, m.line.state)
  {
    hide StepUriEnd, Scanned, AfterSlash, LeavesAt;
    PathByte(was, data, lo, p);
  }

  lemma UriTurn(was: UriPart, l: Line, data: Bytes, lo: nat, p: nat)
    requires lo < p < |data| && ScanInv(was, l, data, lo, p) && l.state == Uri && IsPathByte(data[p])
    ensures var m := StepUri(l, data[p], p);
            && m.Next? && ScanInv(was, m.line, data, lo, p + 1)
            && m.line == l.WithUri(m.line.uri, m.line.state)
  {
    hide StepUriEnd, Lacks, Renewed, Extension, AfterSlash, LeavesAt;
    ByteGrows(data, lo, p);
  }

  /** One turn of the scan. */
  lemma ScanTurn(was: UriPart, l: Line, data: Bytes, lo: nat, p: nat) returns (l': Line)
    requires lo < p < |data| && ScanInv(was, l, data, lo, p) && IsPathByte(data[p])
    ensures Step(l, data, p) == Next(l') && ScanInv(was, l', data, lo, p + 1)
    ensures l' == l.WithUri(l'.uri, l'.state)
  {
    hide StepPath, StepUri, Scanned, AfterSlash, LeavesAt;
    l' := Step(l, data, p).line;
    if l.state == Uri {
      UriTurn(was, l, data, lo, p);
    } else {
      PathTurn(was, l, data, lo, p);
    }
  }

  /** A run of spaces the scan goes back from: it is part of the URI. */
  function OverSpaces(l: Line, p: nat): Line {
    l.WithUri(l.uri.(end := p, space := true), if l.state == Uri then Uri else CheckUri)
  }

  lemma {:induction false} SpacesGrow(data: Bytes, lo: nat, p: nat, j: nat)
    requires lo < p <= j <= |data|
    requires forall i :: p <= i < j ==> data[i] == SP
    ensures LeavesAt(data, lo, j) == if LeavesAt(data, lo, p) < p then LeavesAt(data, lo, p) else j
    ensures Extension(data, lo, j) == Extension(data, lo, p) && Renewed(data, lo, j) == Renewed(data, lo, p)
    ensures Lacks(data, lo, j, HASH) == Lacks(data, lo, p, HASH) && Lacks(data, lo, j, PLUS) == Lacks(data, lo, p, PLUS)
    decreases j
  {
    hide LeavesAt, Extension, Renewed, Lacks, AfterSlash;
    if p < j {
      SpacesGrow(data, lo, p, j - 1);
      ByteGrows(data, lo, j - 1);
    }
  }

  lemma OverSpacesInv(was: UriPart, l: Line, data: Bytes, lo: nat, p: nat, j: nat)
    requires lo < p < j <= |data| && ScanInv(was, l, data, lo, p)
    requires forall i :: p <= i < j ==> data[i] == SP
    ensures ScanInv(was, OverSpaces(l, p), data, lo, j)
  {
    hide LeavesAt, Extension, Renewed;
    SpacesGrow(data, lo, p, j);
    assert data[j - 1] == SP;
  }

  /** The scan has met a space, which may end the target. */
  function Spaced(l: Line, q: nat): Line {
    l.WithUri(l.uri.(end := q), if l.state == Uri then Http09 else CheckUriHttp09)
  }

  lemma SpaceTurn(l: Line, data: Bytes, p: nat)
    requires p < |data| && Scanning(l.state) && data[p] == SP
    ensures Step(l, data, p) == Next(Spaced(l, p))
  {
    hide StepMethod, StepSchema, StepHost, StepVersion, StepProtocol, StepHttp09;
  }

  lemma BackTurn(l: Line, data: Bytes, p: nat, j: nat)
    requires j < |data| && Scanning(l.state) && data[j] !in {SP, CR, LF, UPPER_H}
    ensures Step(Spaced(l, p), data, j) == Back(OverSpaces(l, p))
  {
    hide StepMethod, StepSchema, StepHost, StepVersion, StepProtocol, StepPath, StepUri;
  }

  lemma PassesSpaces(l: Line, data: Bytes)
    requires AfterSpace(l.state)
    ensures forall i :: 0 <= i < |data| && IsSpace(data[i]) ==> Step(l, data, i) == Next(l)
  {
    hide StepMethod, StepSchema, StepHost, StepVersion, StepProtocol, StepPath, StepUri;
  }

  /** The scan meets a space, and goes back from the first byte that is none. */
  lemma OverSpacesRun(l: Line, data: Bytes, p: nat)
    requires p < |data| && Scanning(l.state) && data[p] == SP
    ensures var j := Skip(IsSpace, data, p);
            j < |data| && data[j] !in {CR, LF, UPPER_H} ==>
              Run(l, data, p) == Run(OverSpaces(l, p), data, j)
  {
    hide Run;
    hide Step, OverSpaces;
    var j := Skip(IsSpace, data, p);
    SpaceTurn(l, data, p);
    Turn(l, data, p);
    PassesSpaces(Spaced(l, p), data);
    SkipRun(IsSpace, Spaced(l, p), data, p + 1);
    if j < |data| && data[j] !in {CR, LF, UPPER_H} {
      BackTurn(l, data, p, j);
      Turn(Spaced(l, p), data, j);
    }
  }

  /** Where the scan that stands at p ends: at a line end or NUL, or at spaces that end the target. */
  function PathEnd(data: Bytes, p: nat): (q: nat)
    requires p <= |data|
    ensures p <= q <= |data|
    ensures q < |data| ==> !IsPathByte(data[q])
    ensures forall i :: p <= i < q ==> data[i] !in {CR, LF, NUL}
    decreases |data| - p
  {
    if p == |data| then p
    else if IsPathByte(data[p]) then PathEnd(data, p + 1)
    else
      var j := Skip(IsSpace, data, p);
      if p < j < |data| && data[j] !in {CR, LF, UPPER_H} then PathEnd(data, j) else p
  }

  /** The scan as a whole. */
  lemma {:induction false} ScanRun(was: UriPart, l: Line, data: Bytes, lo: nat, p: nat) returns (l': Line)
    requires lo < p <= |data| && ScanInv(was, l, data, lo, p)
    ensures var q := PathEnd(data, p);
            ScanInv(was, l', data, lo, q) && Run(l, data, p) == Run(l', data, q)
    ensures l' == l.WithUri(l'.uri, l'.state)
    decreases |data| - p
  {
    hide Run, Step, ScanInv;
    if p == |data| {
      l' := l;
    } else if IsPathByte(data[p]) {
      var l1 := ScanTurn(was, l, data, lo, p);
      ScanInvState(was, l, data, lo, p);
      Turn(l, data, p);
      l' := ScanRun(was, l1, data, lo, p + 1);
    } else {
      var j := Skip(IsSpace, data, p);
      if p < j < |data| && data[j] !in {CR, LF, UPPER_H} {
        ScanInvState(was, l, data, lo, p);
        OverSpacesRun(l, data, p);
        OverSpacesInv(was, l, data, lo, p, j);
        l' := ScanRun(was, OverSpaces(l, p), data, lo, j);
      } else {
        l' := l;
      }
    }
  }

  lemma ScanInvState(was: UriPart, l: Line, data: Bytes, lo: nat, p: nat)
    requires lo < p <= |data| && ScanInv(was, l, data, lo, p)
    ensures Scanning(l.state)
  {
  }

  // ---------- the path as a text, and what follows it ----------

  /** ValidPath of data[p..q], by position. */
  predicate ValidPathAt(data: Bytes, p: nat, q: nat)
    requires q <= |data|
  {
    && (forall i :: p <= i < q ==> data[i] !in {CR, LF, NUL})
    && (forall i :: p <= i < q && data[i] == SP ==> i + 1 < q && data[i + 1] != UPPER_H)
  }

  lemma ValidPathText(data: Bytes, p: nat, q: nat)
    requires p <= q <= |data|
    ensures ValidPathAt(data, p, q) <==> ValidPath(data[p..q])
  {
    var s := data[p..q];
    if ValidPath(s) {
      forall i | p <= i < q
        ensures data[i] !in {CR, LF, NUL}
        ensures data[i] == SP ==> i + 1 < q && data[i + 1] != UPPER_H
      {
        assert s[i - p] == data[i];
        if data[i] == SP { assert s[i - p + 1] == data[i + 1]; }
      }
    }
  }

  /** The scan that stands at q ends there. */
  predicate StopsAt(data: Bytes, q: nat) {
    && q < |data|
    && (|| data[q] == CR || data[q] == LF
        || (data[q] == SP &&
            var j := Skip(IsSpace, data, q);
            j < |data| && data[j] in {CR, LF, UPPER_H}))
  }

  lemma {:induction false} PathEndComplete(data: Bytes, p: nat, q: nat)
    requires p <= q && StopsAt(data, q) && ValidPathAt(data, p, q)
    ensures PathEnd(data, p) == q
    decreases q - p
  {
    if p < q {
      if data[p] == SP {
        var j := Skip(IsSpace, data, p);
        assert j <= q - 1 by { assert data[q - 1] != SP; }
        assert data[j - 1] == SP;
        PathEndComplete(data, j, q);
      } else {
        PathEndComplete(data, p + 1, q);
      }
    }
  }

  lemma {:induction false} PathEndSound(data: Bytes, p: nat)
    requires p <= |data|
    ensures var q := PathEnd(data, p);
            q < |data| && data[q] != NUL ==> ValidPathAt(data, p, q)
    decreases |data| - p
  {
    if p < |data| {
      if IsPathByte(data[p]) {
        PathEndSound(data, p + 1);
      } else {
        var j := Skip(IsSpace, data, p);
        if p < j < |data| && data[j] !in {CR, LF, UPPER_H} {
          PathEndSound(data, j);
        }
      }
    }
  }

  lemma TailStops(data: Bytes, q: nat, t: Tail)
    requires ValidTail(t) && Occurs(data, q, TailText(t))
    ensures StopsAt(data, q)
    ensures var j := q + t.gap;
            Skip(IsSpace, data, q) == j && Occurs(data, j, VersionText(t.version) + EolText(t.eol))
  {
    var rest := VersionText(t.version) + EolText(t.eol);
    OccursConcat(data, q, Spaces(t.gap), rest);
    var j := q + t.gap;
    assert data[j] == rest[0];
    OccursSpaces(data, q, t.gap);
  }

  /** The scan meets the end of the line. */
  lemma LineEndTurn(l: Line, data: Bytes, q: nat)
    requires q < |data| && Scanning(l.state) && IsLineEnd(data[q])
    ensures var l' := l.(uri := l.uri.(end := q), http := l.http.(minor := 9));
            Step(l, data, q) == if data[q] == CR then Next(l'.To(AlmostDone)) else Done(l')
  {
    hide StepMethod, StepSchema, StepHost, StepVersion, StepProtocol, StepHttp09;
  }

  lemma LineEndRun(l: Line, data: Bytes, q: nat)
    requires q < |data| && Scanning(l.state) && IsLineEnd(data[q])
    ensures Complete(Run(l, data, q)) <==> exists e :: Occurs(data, q, EolText(e))
    ensures forall e :: Occurs(data, q, EolText(e)) ==>
                          Run(l, data, q) == Closed(l.(uri := l.uri.(end := q)), q, None, e)
  {
    hide Run, Step, Occurs;
    LineEndTurn(l, data, q);
    Turn(l, data, q);
    OccursEol(data, q, Lf);
    OccursEol(data, q, CrLf);
    if data[q] == CR {
      var l' := l.(uri := l.uri.(end := q), http := l.http.(minor := 9)).To(AlmostDone);
      AtEnd(l', data);
      if q + 1 < |data| { AlmostDoneRun(l', data, q + 1); }
    } else {
      assert Occurs(data, q, EolText(Lf));
    }
  }

  lemma SpacedRun(l: Line, data: Bytes, q: nat)
    requires q < |data| && Scanning(l.state) && data[q] == SP
    ensures Run(l, data, q) == Run(Spaced(l, q), data, Skip(IsSpace, data, q))
  {
    hide Run, Step;
    SpaceTurn(l, data, q);
    Turn(l, data, q);
    PassesSpaces(Spaced(l, q), data);
    SkipRun(IsSpace, Spaced(l, q), data, q + 1);
  }

  lemma TailComplete(l: Line, data: Bytes, q: nat, t: Tail)
    requires Scanning(l.state)
    requires ValidTail(t) && Occurs(data, q, TailText(t))
    ensures Run(l, data, q) == Closed(l.(uri := l.uri.(end := q)), q + t.gap, t.version, t.eol)
  {
    hide Run, Step;
    TailStops(data, q, t);
    if t.gap == 0 {
      assert VersionText(t.version) + EolText(t.eol) == EolText(t.eol);
      LineEndRun(l, data, q);
    } else {
      SpacedRun(l, data, q);
      Http09Complete(Spaced(l, q), data, q + t.gap, t.version, t.eol);
    }
  }

  /** If the scan stops at a space, a line end or a version follows the spaces. */
  lemma StopsAtSpace(data: Bytes, q: nat)
    requires q < |data| && PathEnd(data, q) == q && data[q] == SP
    ensures var j := Skip(IsSpace, data, q);
            j < |data| ==> data[j] in {CR, LF, UPPER_H}
  {
  }

  lemma SpacedSound(l: Line, data: Bytes, q: nat) returns (t: Tail)
    requires Scanning(l.state) && q < |data| && data[q] == SP
    requires PathEnd(data, q) == q && Complete(Run(l, data, q))
    ensures ValidTail(t) && Occurs(data, q, TailText(t))
  {
    hide Run, Step, Occurs, PathEnd, Complete;
    var j := Skip(IsSpace, data, q);
    SpacedRun(l, data, q);
    StopsAtSpace(data, q);
    if j == |data| {
      AtEnd(Spaced(l, q), data);
      LagainIncomplete(Spaced(l, q), |data|);
    }
    var v, e := Http09Sound(Spaced(l, q), data, j);
    t := Tail(j - q, v, e);
    OccursSpaces(data, q, j - q);
    OccursConcat(data, q, Spaces(j - q), VersionText(v) + EolText(e));
  }

  lemma LagainIncomplete(l: Line, p: nat)
    ensures !Complete(Result(LAGAIN, l, p))
  {
  }

  lemma NotNul(l: Line, data: Bytes, q: nat)
    requires Scanning(l.state) && q <= |data| && Complete(Run(l, data, q))
    ensures q < |data| && data[q] != NUL
  {
    hide Run;
    if q == |data| {
      AtEnd(l, data);
    } else if data[q] == NUL {
      Turn(l, data, q);
    }
  }

  lemma TailSound(l: Line, data: Bytes, q: nat) returns (t: Tail)
    requires Scanning(l.state)
    requires q <= |data| && PathEnd(data, q) == q && Complete(Run(l, data, q))
    ensures ValidTail(t) && Occurs(data, q, TailText(t)) && q < |data| && data[q] != NUL
  {
    hide Run, Step;
    NotNul(l, data, q);
    if data[q] == SP {
      t := SpacedSound(l, data, q);
    } else {
      LineEndRun(l, data, q);
      var e :| Occurs(data, q, EolText(e));
      t := Tail(0, None, e);
      assert TailText(t) == EolText(e);
    }
  }

  // ---------- the whole path ----------

  lemma {:induction false} PathEndTwice(data: Bytes, p: nat)
    requires p <= |data|
    ensures PathEnd(data, PathEnd(data, p)) == PathEnd(data, p)
    decreases |data| - p
  {
    if p < |data| {
      if IsPathByte(data[p]) {
        PathEndTwice(data, p + 1);
      } else {
        var j := Skip(IsSpace, data, p);
        if p < j < |data| && data[j] !in {CR, LF, UPPER_H} {
          PathEndTwice(data, j);
        }
      }
    }
  }

  /** The machine has just seen the slash at lo. */
  predicate PathStart(l: Line, data: Bytes, lo: nat) {
    && lo < |data| && data[lo] == SLASH
    && l.state == AfterSlashInUri && l.uri.start == lo
  }

  lemma PathStartInv(l: Line, data: Bytes, lo: nat)
    requires PathStart(l, data, lo)
    ensures ScanInv(l.uri, l, data, lo, lo + 1)
  {
  }

  /** A valid path and tail behind the slash: the run ends, with the URI part as scanned. */
  lemma PathComplete(l: Line, data: Bytes, lo: nat, path: Bytes, t: Tail)
    requires PathStart(l, data, lo)
    requires ValidPath(path) && ValidTail(t) && Occurs(data, lo + 1, path + TailText(t))
    ensures var q := lo + 1 + |path|;
            && q <= |data|
            && Run(l, data, lo + 1) ==
               Closed(l.(uri := Scanned(l.uri, data, lo, q)), q + t.gap, t.version, t.eol)
  {
    hide Run, Step, Closed, Scanned, LeavesAt, Occurs;
    var q := lo + 1 + |path|;
    OccursConcat(data, lo + 1, path, TailText(t));
    PathAt(data, lo + 1, path);
    TailStops(data, q, t);
    PathEndComplete(data, lo + 1, q);
    PathStartInv(l, data, lo);
    var l' := ScanRun(l.uri, l, data, lo, lo + 1);
    TailComplete(l', data, q, t);
    ScanEnds(l.uri, l', data, lo, q);
    ClosedAnyState(l'.(uri := l'.uri.(end := q)), l.state, q + t.gap, t.version, t.eol);
  }

  lemma ScanEnds(was: UriPart, l: Line, data: Bytes, lo: nat, q: nat)
    requires lo < q <= |data| && ScanInv(was, l, data, lo, q)
    ensures l.uri.(end := q) == Scanned(was, data, lo, q)
  {
  }

  lemma PathAt(data: Bytes, p: nat, path: Bytes)
    requires Occurs(data, p, path)
    ensures p + |path| <= |data|
    ensures ValidPathAt(data, p, p + |path|) <==> ValidPath(path)
  {
    ValidPathText(data, p, p + |path|);
  }

  lemma ClosedAnyState(l: Line, s: State, p: nat, v: Option<Version>, e: Eol)
    ensures Closed(l, p, v, e) == Closed(l.To(s), p, v, e)
  {
  }

  lemma PathSound(l: Line, data: Bytes, lo: nat) returns (path: Bytes, t: Tail)
    requires PathStart(l, data, lo) && Complete(Run(l, data, lo + 1))
    ensures ValidPath(path) && ValidTail(t) && Occurs(data, lo + 1, path + TailText(t))
  {
    hide Run, Step, Occurs, PathEnd, ValidTail, TailText, ValidPath, ValidPathAt, Scanned, LeavesAt, Complete;
    PathStartInv(l, data, lo);
    var l' := ScanRun(l.uri, l, data, lo, lo + 1);
    var q := PathEnd(data, lo + 1);
    PathEndTwice(data, lo + 1);
    t := TailSound(l', data, q);
    PathEndSound(data, lo + 1);
    path := data[lo + 1..q];
    SliceAt(data, lo + 1, q);
    assert lo + 1 + |path| == q;
    ValidPathText(data, lo + 1, q);
    OccursConcat(data, lo + 1, path, TailText(t));
  }
}
