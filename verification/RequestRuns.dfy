/** Runs of the request-line machine over whole stretches of input. */
module RequestRuns {
  import opened Bytes
  import opened Texts
  import opened ParserState
  import opened RequestLine
  import opened RequestGrammar

  /** One turn of the loop, as a fact about Run. */
  lemma Turn(l: Line, data: Bytes, p: nat)
    requires p < |data| && WellFormed(l, p)
    ensures match Step(l, data, p)
            case Next(l') => Run(l, data, p) == Run(l', data, p + 1)
            case Back(l') => Run(l, data, p) == Run(l', data, p)
            case Done(l') => Run(l, data, p) == Finish(l', p)
            case Fail(l', code) => Run(l, data, p) == Result(code, l', p)
  {
    hide Step;
  }

  /** A state that passes over a class of bytes unchanged passes over a whole run of them. */
  lemma {:induction false} SkipRun(ok: Byte -> bool, l: Line, data: Bytes, p: nat)
    requires p <= |data| && WellFormed(l, p)
    requires forall i :: p <= i < |data| && ok(data[i]) ==> Step(l, data, i) == Next(l)
    ensures Run(l, data, p) == Run(l, data, Skip(ok, data, p))
    decreases |data| - p
  {
    hide Run, Step;
    if p < |data| && ok(data[p]) {
      Turn(l, data, p);
      SkipRun(ok, l, data, p + 1);
    }
  }

  /** The machine has taken in a whole line. */
  predicate Complete(r: Result) { r.code == LOK || r.code == INVALID_09_METHOD }

  // ---------- the version and the end of the line ----------

  /** The line is over: its end was at p. */
  function Ended(l: Line, p: nat, e: Eol): Result {
    Finish(l.(requestEnd := EndAt(l.requestEnd, p, e)), p + |EolText(e)| - 1)
  }

  /** What the machine has recorded when the optional version at p and the end of line are past. */
  function Closed(l: Line, p: nat, v: Option<Version>, e: Eol): Result {
    match v
    case None => Ended(l.(http := l.http.(minor := 9)), p, e)
    case Some(v) =>
      Ended(l.(http := Http(p, Dec(v.major), Dec(v.minor))),
            p + |VersionText(Some(v))|, e)
  }

  lemma AlmostDoneRun(l: Line, data: Bytes, p: nat)
    requires 0 < p < |data| && l.state == AlmostDone
    ensures Run(l, data, p) ==
            if data[p] == LF then Ended(l, p - 1, CrLf)
            else Result(INVALID_REQUEST, l.(requestEnd := At(p - 1)), p)
  {
    hide Run, StepMethod, StepSchema, StepHost, StepPath, StepUri, StepHttp09, StepProtocol, StepVersion;
    Turn(l, data, p);
  }

  lemma AtEnd(l: Line, data: Bytes)
    requires WellFormed(l, |data|)
    ensures Run(l, data, |data|) == Result(LAGAIN, l, |data|)
  {
    hide Step;
  }

  /** A further digit of the version. */
  lemma DigitTurn(l: Line, data: Bytes, p: nat)
    requires p < |data| && IsDigit(data[p])
    ensures l.state == MajorDigit ==>
              Step(l, data, p) == Next(l.(http := l.http.(major := 10 * l.http.major + data[p] - 48)))
    ensures l.state == MinorDigit ==>
              Step(l, data, p) == Next(l.(http := l.http.(minor := 10 * l.http.minor + data[p] - 48)))
  {
    hide StepMethod, StepSchema, StepHost, StepPath, StepUri, StepHttp09, StepProtocol, StepAlmostDone;
  }

  lemma {:induction false} MajorRun(l: Line, data: Bytes, from: nat, p: nat)
    requires from <= p <= |data| && l.state == MajorDigit
    requires l.http.major == Dec(data[from..p])
    ensures var q := Skip(IsDigit, data, p);
            Run(l, data, p) == Run(l.(http := l.http.(major := Dec(data[from..q]))), data, q)
    decreases |data| - p
  {
    hide Run, Step, Dec;
    if p < |data| && IsDigit(data[p]) {
      DigitTurn(l, data, p);
      Turn(l, data, p);
      DecGrows(data, from, p);
      MajorRun(l.(http := l.http.(major := Dec(data[from..p + 1]))), data, from, p + 1);
    }
  }

  lemma {:induction false} MinorRun(l: Line, data: Bytes, from: nat, p: nat)
    requires from <= p <= |data| && l.state == MinorDigit
    requires l.http.minor == Dec(data[from..p])
    ensures var q := Skip(IsDigit, data, p);
            Run(l, data, p) == Run(l.(http := l.http.(minor := Dec(data[from..q]))), data, q)
    decreases |data| - p
  {
    hide Run, Step, Dec;
    if p < |data| && IsDigit(data[p]) {
      DigitTurn(l, data, p);
      Turn(l, data, p);
      DecGrows(data, from, p);
      MinorRun(l.(http := l.http.(minor := Dec(data[from..p + 1]))), data, from, p + 1);
    }
  }

  // ---------- after the minor version: spaces and the end of the line ----------

  /** The end of the line, seen after the minor version or the spaces behind it. */
  lemma EolRun(l: Line, data: Bytes, p: nat, e: Eol)
    requires (l.state == MinorDigit || l.state == SpacesAfterDigit)
    requires Occurs(data, p, EolText(e))
    ensures Run(l, data, p) == Ended(l, p, e)
  {
    hide Run, StepMethod, StepSchema, StepHost, StepPath, StepUri, StepHttp09, StepProtocol, StepAlmostDone;
    Turn(l, data, p);
    OccursEol(data, p, e);
    if e == CrLf {
      AlmostDoneRun(l.To(AlmostDone), data, p + 1);
    }
  }

  lemma EolSound(l: Line, data: Bytes, p: nat) returns (e: Eol)
    requires (l.state == MinorDigit || l.state == SpacesAfterDigit) && p < |data|
    requires !IsSpace(data[p]) && (l.state == MinorDigit ==> !IsDigit(data[p]))
    requires Complete(Run(l, data, p))
    ensures Occurs(data, p, EolText(e))
  {
    hide Run, StepMethod, StepSchema, StepHost, StepPath, StepUri, StepHttp09, StepProtocol, StepAlmostDone;
    Turn(l, data, p);
    e := if data[p] == LF then Lf else CrLf;
    OccursEol(data, p, e);
    if data[p] == CR {
      AtEnd(l.To(AlmostDone), data);
      AlmostDoneRun(l.To(AlmostDone), data, p + 1);
    }
  }

  lemma PadRun(l: Line, data: Bytes, p: nat)
    requires l.state == MinorDigit && p < |data| && data[p] == SP
    ensures Run(l, data, p) == Run(l.To(SpacesAfterDigit), data, Skip(IsSpace, data, p))
  {
    hide Run, StepMethod, StepSchema, StepHost, StepPath, StepUri, StepHttp09, StepProtocol, StepAlmostDone;
    Turn(l, data, p);
    SkipRun(IsSpace, l.To(SpacesAfterDigit), data, p + 1);
  }

  lemma PadComplete(l: Line, data: Bytes, p: nat, pad: nat, e: Eol)
    requires l.state == MinorDigit
    requires Occurs(data, p, Spaces(pad) + EolText(e))
    ensures Run(l, data, p) == Ended(l, p + pad, e)
  {
    hide Run, Step;
    OccursConcat(data, p, Spaces(pad), EolText(e));
    OccursEol(data, p + pad, e);
    OccursSpaces(data, p, pad);
    if pad > 0 {
      PadRun(l, data, p);
      EolRun(l.To(SpacesAfterDigit), data, p + pad, e);
    } else {
      EolRun(l, data, p, e);
    }
  }

  lemma PadSound(l: Line, data: Bytes, p: nat) returns (pad: nat, e: Eol)
    requires l.state == MinorDigit && p < |data| && !IsDigit(data[p])
    requires Complete(Run(l, data, p))
    ensures Occurs(data, p, Spaces(pad) + EolText(e))
  {
    hide Run, Step;
    var q := Skip(IsSpace, data, p);
    pad := q - p;
    if pad > 0 {
      PadRun(l, data, p);
      AtEnd(l.To(SpacesAfterDigit), data);
      e := EolSound(l.To(SpacesAfterDigit), data, q);
    } else {
      e := EolSound(l, data, p);
    }
    OccursEol(data, q, e);
    OccursSpaces(data, p, pad);
    OccursConcat(data, p, Spaces(pad), EolText(e));
  }

  // ---------- the version ----------

  /** A state that waits for one byte only. */
  lemma ExpectRun(l: Line, data: Bytes, p: nat, b: Byte, next: State)
    requires p <= |data|
    requires (l.state, b, next) in {
               (HttpH, UPPER_T, HttpHT), (HttpHT, UPPER_T, HttpHTT), (HttpHTT, UPPER_P, HttpHTTP),
               (HttpHTTP, SLASH, FirstMajorDigit),
               (SchemaSlash, SLASH, SchemaSlashSlash), (SchemaSlashSlash, SLASH, HostStart)}
    ensures if Occurs(data, p, [b]) then Run(l, data, p) == Run(l.To(next), data, p + 1)
            else !Complete(Run(l, data, p))
  {
    hide Run, StepMethod, StepHost, StepPath, StepUri, StepHttp09, StepVersion, StepAlmostDone;
    if p < |data| {
      Turn(l, data, p);
      assert data[p..p + 1] == [data[p]];
    } else {
      AtEnd(l, data);
    }
  }

  lemma ProtocolRun(l: Line, data: Bytes, p: nat)
    requires l.state == HttpH && p <= |data|
    ensures if Occurs(data, p, TTP_SLASH) then Run(l, data, p) == Run(l.To(FirstMajorDigit), data, p + 4)
            else !Complete(Run(l, data, p))
  {
    hide Run, Step, Complete, WellFormed;
    OccursConcat(data, p, [UPPER_T], [UPPER_T, UPPER_P, SLASH]);
    OccursConcat(data, p + 1, [UPPER_T], [UPPER_P, SLASH]);
    OccursConcat(data, p + 2, [UPPER_P], [SLASH]);
    assert TTP_SLASH == [UPPER_T] + [UPPER_T, UPPER_P, SLASH];
    assert [UPPER_T, UPPER_P, SLASH] == [UPPER_T] + [UPPER_P, SLASH];
    assert [UPPER_P, SLASH] == [UPPER_P] + [SLASH];
    ExpectRun(l, data, p, UPPER_T, HttpHT);
    if Occurs(data, p, [UPPER_T]) {
      ExpectRun(l.To(HttpHT), data, p + 1, UPPER_T, HttpHTT);
      if Occurs(data, p + 1, [UPPER_T]) {
        ExpectRun(l.To(HttpHTT), data, p + 2, UPPER_P, HttpHTTP);
        if Occurs(data, p + 2, [UPPER_P]) {
          ExpectRun(l.To(HttpHTTP), data, p + 3, SLASH, FirstMajorDigit);
        }
      }
    }
  }

  lemma FirstDigitTurn(l: Line, data: Bytes, p: nat)
    requires p < |data| && IsDigit(data[p])
    ensures l.state == FirstMajorDigit && data[p] != 48 ==>
              Step(l, data, p) == Next(l.WithHttp(l.http.(major := data[p] - 48), MajorDigit))
    ensures l.state == FirstMinorDigit ==>
              Step(l, data, p) == Next(l.WithHttp(l.http.(minor := data[p] - 48), MinorDigit))
  {
    hide StepMethod, StepSchema, StepHost, StepPath, StepUri, StepHttp09, StepProtocol, StepAlmostDone;
  }

  /** One or more digits: the first digit d, and the rest of the run. */
  lemma FirstDigitRun(l: Line, data: Bytes, p: nat)
    requires p < |data| && (l.state == FirstMajorDigit || l.state == FirstMinorDigit)
    requires IsDigit(data[p]) && (l.state == FirstMajorDigit ==> data[p] != 48)
    ensures var q := Skip(IsDigit, data, p);
            Run(l, data, p) ==
            if l.state == FirstMajorDigit
            then Run(l.WithHttp(l.http.(major := Dec(data[p..q])), MajorDigit), data, q)
            else Run(l.WithHttp(l.http.(minor := Dec(data[p..q])), MinorDigit), data, q)
  {
    hide Run, Step, Dec;
    FirstDigitTurn(l, data, p);
    Turn(l, data, p);
    DecFirst(data, p);
    if l.state == FirstMajorDigit {
      MajorRun(l.WithHttp(l.http.(major := data[p] - 48), MajorDigit), data, p, p + 1);
    } else {
      MinorRun(l.WithHttp(l.http.(minor := data[p] - 48), MinorDigit), data, p, p + 1);
    }
  }

  /** Where the parts of a version and the line end behind it stand. */
  lemma OccursVersion(data: Bytes, p: nat, v: Version, e: Eol)
    ensures Occurs(data, p, VersionRest(v) + EolText(e)) <==>
            && Occurs(data, p, TTP_SLASH)
            && Occurs(data, p + 4, v.major)
            && Occurs(data, p + 4 + |v.major|, [DOT])
            && Occurs(data, p + 5 + |v.major|, v.minor)
            && Occurs(data, p + 5 + |v.major| + |v.minor|, Spaces(v.pad) + EolText(e))
  {
    var tail := Spaces(v.pad) + EolText(e);
    var a := v.minor + tail;
    var b := [DOT] + a;
    var c := v.major + b;
    hide Occurs;
    assert VersionRest(v) + EolText(e) == TTP_SLASH + c;
    OccursConcat(data, p, TTP_SLASH, c);
    OccursConcat(data, p + 4, v.major, b);
    OccursConcat(data, p + 4 + |v.major|, [DOT], a);
    OccursConcat(data, p + 5 + |v.major|, v.minor, tail);
  }

  /** The first byte behind the minor version is no digit. */
  lemma OccursPad(data: Bytes, p: nat, pad: nat, e: Eol)
    requires Occurs(data, p, Spaces(pad) + EolText(e))
    ensures p < |data| && data[p] in {SP, CR, LF}
  {
    assert data[p] == (Spaces(pad) + EolText(e))[0];
  }

  lemma DotRun(l: Line, data: Bytes, p: nat)
    requires p <= |data| && l.state == MajorDigit
    requires p < |data| ==> !IsDigit(data[p])
    ensures if p < |data| && data[p] == DOT then Run(l, data, p) == Run(l.To(FirstMinorDigit), data, p + 1)
            else !Complete(Run(l, data, p))
  {
    hide Run, StepMethod, StepSchema, StepHost, StepPath, StepUri, StepHttp09, StepProtocol, StepAlmostDone;
    if p < |data| { Turn(l, data, p); } else { AtEnd(l, data); }
  }

  lemma FirstDigitSound(l: Line, data: Bytes, p: nat)
    requires p <= |data| && (l.state == FirstMajorDigit || l.state == FirstMinorDigit)
    requires Complete(Run(l, data, p))
    ensures p < |data| && IsDigit(data[p]) && (l.state == FirstMajorDigit ==> data[p] != 48)
  {
    hide Run, StepMethod, StepSchema, StepHost, StepPath, StepUri, StepHttp09, StepProtocol, StepAlmostDone;
    if p < |data| { Turn(l, data, p); } else { AtEnd(l, data); }
  }

  lemma MinorComplete(l: Line, data: Bytes, p: nat, minor: Bytes, pad: nat, e: Eol)
    requires l.state == FirstMinorDigit
    requires minor != [] && All(minor, IsDigit) && Occurs(data, p, minor)
    requires Occurs(data, p + |minor|, Spaces(pad) + EolText(e))
    ensures Run(l, data, p) == Ended(l.(http := l.http.(minor := Dec(minor))), p + |minor| + pad, e)
  {
    hide Run, Step, WellFormed, Occurs, Dec;
    var q := p + |minor|;
    OccursPad(data, q, pad, e);
    OccursClass(IsDigit, data, p, minor);
    OccursFits(data, p, minor);
    FirstDigitRun(l, data, p);
    PadComplete(l.WithHttp(l.http.(minor := Dec(minor)), MinorDigit), data, q, pad, e);
  }

  lemma MajorComplete(l: Line, data: Bytes, p: nat, major: Bytes)
    requires l.state == FirstMajorDigit
    requires major != [] && All(major, IsDigit) && major[0] != 48 && Occurs(data, p, major)
    requires Occurs(data, p + |major|, [DOT])
    ensures Run(l, data, p) ==
            Run(l.WithHttp(l.http.(major := Dec(major)), FirstMinorDigit), data, p + |major| + 1)
  {
    hide Run, Step, WellFormed, Occurs, Dec;
    OccursOne(data, p + |major|, DOT);
    OccursClass(IsDigit, data, p, major);
    OccursFits(data, p, major);
    FirstDigitRun(l, data, p);
    DotRun(l.WithHttp(l.http.(major := Dec(major)), MajorDigit), data, p + |major|);
  }

  lemma VersionComplete(l: Line, data: Bytes, p: nat, v: Version, e: Eol)
    requires l.state == HttpH
    requires ValidVersion(v) && Occurs(data, p, VersionRest(v) + EolText(e))
    ensures Run(l, data, p) ==
            Ended(l.(http := Http(l.http.protocol, Dec(v.major), Dec(v.minor))), p + |VersionRest(v)|, e)
  {
    hide Run, Step, WellFormed, Dec, Finish;
    OccursVersion(data, p, v, e);
    ProtocolRun(l, data, p);
    MajorComplete(l.To(FirstMajorDigit), data, p + 4, v.major);
    var l1 := l.WithHttp(l.http.(major := Dec(v.major)), FirstMinorDigit);
    MinorComplete(l1, data, p + 5 + |v.major|, v.minor, v.pad, e);
    EndedAnyState(l1.(http := l1.http.(minor := Dec(v.minor))), HttpH, p + |VersionRest(v)|, e);
  }

  lemma EndedAnyState(l: Line, s: State, p: nat, e: Eol)
    ensures Ended(l, p, e) == Ended(l.To(s), p, e)
  {
  }

  lemma MinorSound(l: Line, data: Bytes, p: nat) returns (minor: Bytes, pad: nat, e: Eol)
    requires l.state == FirstMinorDigit && p <= |data|
    requires Complete(Run(l, data, p))
    ensures minor != [] && All(minor, IsDigit) && Occurs(data, p, minor)
    ensures Occurs(data, p + |minor|, Spaces(pad) + EolText(e))
  {
    hide Run, Step;
    FirstDigitSound(l, data, p);
    FirstDigitRun(l, data, p);
    var q := Skip(IsDigit, data, p);
    minor := data[p..q];
    var l' := l.WithHttp(l.http.(minor := Dec(minor)), MinorDigit);
    if q == |data| { AtEnd(l', data); }
    pad, e := PadSound(l', data, q);
  }

  lemma MajorSound(l: Line, data: Bytes, p: nat) returns (major: Bytes)
    requires l.state == FirstMajorDigit && p <= |data|
    requires Complete(Run(l, data, p))
    ensures major != [] && All(major, IsDigit) && major[0] != 48 && Occurs(data, p, major)
    ensures Occurs(data, p + |major|, [DOT])
  {
    hide Run, Step, WellFormed;
    FirstDigitSound(l, data, p);
    FirstDigitRun(l, data, p);
    var q := Skip(IsDigit, data, p);
    major := data[p..q];
    DotRun(l.WithHttp(l.http.(major := Dec(major)), MajorDigit), data, q);
    OccursOne(data, q, DOT);
  }

  lemma VersionSound(l: Line, data: Bytes, p: nat) returns (v: Version, e: Eol)
    requires l.state == HttpH && p <= |data|
    requires Complete(Run(l, data, p))
    ensures ValidVersion(v) && Occurs(data, p, VersionRest(v) + EolText(e))
  {
    hide Run, Step, WellFormed, Dec;
    ProtocolRun(l, data, p);
    var major := MajorSound(l.To(FirstMajorDigit), data, p + 4);
    MajorComplete(l.To(FirstMajorDigit), data, p + 4, major);
    var minor, pad;
    var l1 := l.WithHttp(l.http.(major := Dec(major)), FirstMinorDigit);
    minor, pad, e := MinorSound(l1, data, p + 5 + |major|);
    v := Version(major, minor, pad);
    OccursVersion(data, p, v, e);
  }

  // ---------- behind the spaces that follow the target ----------

  /** The states that have seen a space after the target. */
  predicate AfterSpace(s: State) { s in {HostHttp09, CheckUriHttp09, Http09} }

  /** What comes behind the spaces: the end of the line, or a version. */
  lemma Http09Turn(l: Line, data: Bytes, p: nat)
    requires AfterSpace(l.state) && p < |data|
    ensures data[p] == UPPER_H ==> Step(l, data, p) == Next(l.WithHttp(l.http.(protocol := p), HttpH))
    ensures data[p] == CR ==> Step(l, data, p) == Next(l.WithHttp(l.http.(minor := 9), AlmostDone))
    ensures data[p] == LF ==> Step(l, data, p) == Done(l.(http := l.http.(minor := 9)))
  {
    hide StepHost, StepPath, StepUri, StepVersion, StepMethod, StepSchema, StepProtocol, StepAlmostDone;
  }

  lemma Http09Complete(l: Line, data: Bytes, p: nat, v: Option<Version>, e: Eol)
    requires AfterSpace(l.state)
    requires v.Some? ==> ValidVersion(v.value)
    requires Occurs(data, p, VersionText(v) + EolText(e))
    ensures Run(l, data, p) == Closed(l, p, v, e)
  {
    hide Run, Step, Occurs, ValidVersion, Dec, VersionRest;
    match v
    case None =>
      assert VersionText(v) + EolText(e) == EolText(e);
      OccursEol(data, p, e);
      Http09Turn(l, data, p);
      Turn(l, data, p);
      if e == CrLf {
        AlmostDoneRun(l.WithHttp(l.http.(minor := 9), AlmostDone), data, p + 1);
      }
    case Some(v') =>
      assert VersionText(v) + EolText(e) == [UPPER_H] + (VersionRest(v') + EolText(e));
      OccursConcat(data, p, [UPPER_H], VersionRest(v') + EolText(e));
      OccursOne(data, p, UPPER_H);
      Http09Turn(l, data, p);
      Turn(l, data, p);
      VersionComplete(l.WithHttp(l.http.(protocol := p), HttpH), data, p + 1, v', e);
  }

  lemma Http09Sound(l: Line, data: Bytes, p: nat) returns (v: Option<Version>, e: Eol)
    requires AfterSpace(l.state) && p < |data|
    requires data[p] in {CR, LF, UPPER_H} && Complete(Run(l, data, p))
    ensures v.Some? ==> ValidVersion(v.value)
    ensures Occurs(data, p, VersionText(v) + EolText(e))
  {
    hide Run, Step, Occurs, ValidVersion, Dec, VersionRest;
    Http09Turn(l, data, p);
    Turn(l, data, p);
    if data[p] == UPPER_H {
      var v';
      v', e := VersionSound(l.WithHttp(l.http.(protocol := p), HttpH), data, p + 1);
      v := Some(v');
      OccursOne(data, p, UPPER_H);
      OccursConcat(data, p, [UPPER_H], VersionRest(v') + EolText(e));
      assert VersionText(v) + EolText(e) == [UPPER_H] + (VersionRest(v') + EolText(e));
    } else {
      v, e := None, if data[p] == LF then Lf else CrLf;
      var l' := l.WithHttp(l.http.(minor := 9), AlmostDone);
      if data[p] == CR {
        AtEnd(l', data);
        if p + 1 < |data| { AlmostDoneRun(l', data, p + 1); }
      }
      OccursEol(data, p, e);
      assert VersionText(v) + EolText(e) == EolText(e);
    }
  }
}
