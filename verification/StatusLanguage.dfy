/**
 The language of status lines: section 3.1.2 of RFC 7230, loosened by spaces between the digits
 of the code, by a '.' in place of the space behind them, and by a lone LF.
 */
module StatusLanguage {
  import opened Bytes
  import opened Texts
  import opened ParserState
  import opened StatusLine

  /** A digit of the code and the spaces in front of it. */
  datatype CodeDigit = CodeDigit(gap: nat, digit: Byte)

  /** `reason` is what stands between the code and the line end, its first byte included. */
  datatype StatusTree = StatusTree(major: Bytes, minor: Bytes, code: seq<CodeDigit>, reason: Bytes, eol: Eol)

  const HTTP_SLASH: Bytes := [UPPER_H, UPPER_T, UPPER_T, UPPER_P, SLASH]

  function DigitText(d: CodeDigit): Bytes { Spaces(d.gap) + [d.digit] }

  function VersionText(t: StatusTree): Bytes {
    HTTP_SLASH + (t.major + ([DOT] + (t.minor + [SP])))
  }

  function CodeText(ds: seq<CodeDigit>): Bytes {
    if ds == [] then [] else DigitText(ds[0]) + CodeText(ds[1..])
  }

  function Text(t: StatusTree): Bytes {
    VersionText(t) + (CodeText(t.code) + (t.reason + EolText(t.eol)))
  }

  predicate NoLineEnd(b: Byte) { !IsLineEnd(b) }

  predicate ValidCode(ds: seq<CodeDigit>) {
    ds != [] && forall i :: 0 <= i < |ds| ==> IsDigit(ds[i].digit)
  }

  /** A status line, but for the number of its code digits. */
  predicate Shaped(t: StatusTree) {
    && t.major != [] && All(t.major, IsDigit) && t.major[0] != 48
    && t.minor != [] && All(t.minor, IsDigit)
    && ValidCode(t.code)
    && All(t.reason, NoLineEnd)
    && (t.reason != [] ==> t.reason[0] == SP || t.reason[0] == DOT)
  }

  predicate Valid(t: StatusTree) { Shaped(t) && |t.code| == 3 }

  /** The number that the digits make behind those of `was`. */
  function CodeFrom(was: int, ds: seq<CodeDigit>): int
    decreases |ds|
  {
    if ds == [] then was else CodeFrom(was * 10 + ds[0].digit - 48, ds[1..])
  }

  function Digits(ds: seq<CodeDigit>): Bytes { seq(|ds|, i requires 0 <= i < |ds| => ds[i].digit) }

  /** The decimal value of the digits. */
  function CodeOf(t: StatusTree): int { Dec(Digits(t.code)) }

  function CodeAt(t: StatusTree): nat { |VersionText(t)| }

  function ReasonAt(t: StatusTree): nat { CodeAt(t) + |CodeText(t.code)| }

  function EolAt(t: StatusTree): nat { ReasonAt(t) + |t.reason| }

  // ---------- the protocol and the version ----------

  lemma ExpectRun(s: Status, data: Bytes, p: nat, b: Byte, next: State)
    requires p <= |data|
    requires (s.state, b, next) in {
               (HttpH, UPPER_T, HttpHT), (HttpHT, UPPER_T, HttpHTT), (HttpHTT, UPPER_P, HttpHTTP),
               (HttpHTTP, SLASH, FirstMajorDigit)}
    ensures if Occurs(data, p, [b]) then Run(s, data, p) == Run(s.To(next), data, p + 1)
            else Run(s, data, p).code != LOK
  {
    hide Run;
    OccursOne(data, p, b);
    if p < |data| { Turn(s, data, p); } else { AtEnd(s, data); }
  }

  function Started(s: Status, p: nat): Status {
    s.(requestStart := p, protocol := p, state := FirstMajorDigit)
  }

  lemma StartRun(s: Status, data: Bytes, p: nat)
    requires p <= |data| && s.state == Start
    ensures if Occurs(data, p, [UPPER_H])
            then Run(s, data, p) == Run(Started(s, p).To(HttpH), data, p + 1)
            else Run(s, data, p).code != LOK
  {
    hide Run;
    OccursOne(data, p, UPPER_H);
    if p < |data| { Turn(s, data, p); } else { AtEnd(s, data); }
  }

  lemma ProtocolRun(s: Status, data: Bytes, p: nat)
    requires p <= |data| && s.state == Start
    ensures if Occurs(data, p, HTTP_SLASH) then Run(s, data, p) == Run(Started(s, p), data, p + 5)
            else Run(s, data, p).code != LOK
  {
    hide Run, Step, Occurs;
    var w4, w3, w2 := [UPPER_T, UPPER_T, UPPER_P, SLASH], [UPPER_T, UPPER_P, SLASH], [UPPER_P, SLASH];
    assert HTTP_SLASH == [UPPER_H] + w4 && w4 == [UPPER_T] + w3 && w3 == [UPPER_T] + w2
           && w2 == [UPPER_P] + [SLASH];
    OccursConcat(data, p, [UPPER_H], w4);
    OccursConcat(data, p + 1, [UPPER_T], w3);
    OccursConcat(data, p + 2, [UPPER_T], w2);
    OccursConcat(data, p + 3, [UPPER_P], [SLASH]);
    StartRun(s, data, p);
    var s' := Started(s, p);
    if Occurs(data, p, [UPPER_H]) {
      OccursFits(data, p, [UPPER_H]);
      ExpectRun(s'.To(HttpH), data, p + 1, UPPER_T, HttpHT);
      if Occurs(data, p + 1, [UPPER_T]) {
        OccursFits(data, p + 1, [UPPER_T]);
        ExpectRun(s'.To(HttpHT), data, p + 2, UPPER_T, HttpHTT);
        if Occurs(data, p + 2, [UPPER_T]) {
          OccursFits(data, p + 2, [UPPER_T]);
          ExpectRun(s'.To(HttpHTT), data, p + 3, UPPER_P, HttpHTTP);
          if Occurs(data, p + 3, [UPPER_P]) {
            OccursFits(data, p + 3, [UPPER_P]);
            ExpectRun(s'.To(HttpHTTP), data, p + 4, SLASH, FirstMajorDigit);
          }
        }
      }
    }
  }

  lemma {:induction false} MajorDigits(s: Status, data: Bytes, from: nat, p: nat)
    requires from <= p <= |data| && s.state == MajorDigit && s.major == Dec(data[from..p])
    ensures var q := Skip(IsDigit, data, p);
            Run(s, data, p) == Run(s.(major := Dec(data[from..q])), data, q)
    decreases |data| - p
  {
    hide Run, StepProtocol, StepCode, StepText, Dec;
    if p < |data| && IsDigit(data[p]) {
      Turn(s, data, p);
      DecGrows(data, from, p);
      MajorDigits(s.(major := Dec(data[from..p + 1])), data, from, p + 1);
    }
  }

  lemma {:induction false} MinorDigits(s: Status, data: Bytes, from: nat, p: nat)
    requires from <= p <= |data| && s.state == MinorDigit && s.minor == Dec(data[from..p])
    ensures var q := Skip(IsDigit, data, p);
            Run(s, data, p) == Run(s.(minor := Dec(data[from..q])), data, q)
    decreases |data| - p
  {
    hide Run, StepProtocol, StepCode, StepText, Dec;
    if p < |data| && IsDigit(data[p]) {
      Turn(s, data, p);
      DecGrows(data, from, p);
      MinorDigits(s.(minor := Dec(data[from..p + 1])), data, from, p + 1);
    }
  }

  /** A byte of the version. */
  lemma VersionTurn(s: Status, ch: Byte, p: nat)
    ensures s.state == FirstMajorDigit ==>
              Step(s, ch, p) == if IsDigit(ch) && ch != 48 then Next(s.(major := ch - 48, state := MajorDigit)) else Fail(s)
    ensures s.state == MajorDigit && !IsDigit(ch) ==>
              Step(s, ch, p) == if ch == DOT then Next(s.To(FirstMinorDigit)) else Fail(s)
    ensures s.state == FirstMinorDigit ==>
              Step(s, ch, p) == if IsDigit(ch) then Next(s.(minor := ch - 48, state := MinorDigit)) else Fail(s)
    ensures s.state == MinorDigit && !IsDigit(ch) ==>
              Step(s, ch, p) == if ch == SP then Next(s.(state := StatusCode, protocolEnd := p - 1)) else Fail(s)
  {
    hide StepProtocol, StepCode, StepText;
  }

  lemma FirstMajorRun(s: Status, data: Bytes, p: nat)
    requires p < |data| && s.state == FirstMajorDigit && IsDigit(data[p]) && data[p] != 48
    ensures var q := Skip(IsDigit, data, p);
            Run(s, data, p) == Run(s.(major := Dec(data[p..q]), state := MajorDigit), data, q)
  {
    hide Run, Step, Dec;
    VersionTurn(s, data[p], p);
    Turn(s, data, p);
    DecFirst(data, p);
    MajorDigits(s.(major := data[p] - 48, state := MajorDigit), data, p, p + 1);
  }

  lemma FirstMinorRun(s: Status, data: Bytes, p: nat)
    requires p < |data| && s.state == FirstMinorDigit && IsDigit(data[p])
    ensures var q := Skip(IsDigit, data, p);
            Run(s, data, p) == Run(s.(minor := Dec(data[p..q]), state := MinorDigit), data, q)
  {
    hide Run, Step, Dec;
    VersionTurn(s, data[p], p);
    Turn(s, data, p);
    DecFirst(data, p);
    MinorDigits(s.(minor := data[p] - 48, state := MinorDigit), data, p, p + 1);
  }

  /** The first digit of a version number is one. */
  lemma DigitNeeded(s: Status, data: Bytes, p: nat)
    requires p <= |data| && s.state in {FirstMajorDigit, FirstMinorDigit} && Run(s, data, p).code == LOK
    ensures p < |data| && IsDigit(data[p]) && (s.state == FirstMajorDigit ==> data[p] != 48)
  {
    hide Run, Step;
    if p < |data| {
      VersionTurn(s, data[p], p);
      Turn(s, data, p);
    } else {
      AtEnd(s, data);
    }
  }

  /** Behind the digits of the major version. */
  lemma DotRun(s: Status, data: Bytes, q: nat)
    requires q <= |data| && s.state == MajorDigit && (q < |data| ==> !IsDigit(data[q]))
    ensures if q < |data| && data[q] == DOT then Run(s, data, q) == Run(s.To(FirstMinorDigit), data, q + 1)
            else Run(s, data, q).code != LOK
  {
    hide Run, Step;
    if q < |data| {
      VersionTurn(s, data[q], q);
      Turn(s, data, q);
    } else {
      AtEnd(s, data);
    }
  }

  /** Behind the digits of the minor version. */
  lemma SpaceRun(s: Status, data: Bytes, q: nat)
    requires q <= |data| && s.state == MinorDigit && (q < |data| ==> !IsDigit(data[q]))
    ensures if q < |data| && data[q] == SP
            then Run(s, data, q) == Run(s.(protocolEnd := q - 1, state := StatusCode), data, q + 1)
            else Run(s, data, q).code != LOK
  {
    hide Run, Step;
    if q < |data| {
      VersionTurn(s, data[q], q);
      Turn(s, data, q);
    } else {
      AtEnd(s, data);
    }
  }

  /** The major version and the dot behind it. */
  lemma MajorRun(s: Status, data: Bytes, p: nat)
    requires p <= |data| && s.state == FirstMajorDigit
    ensures var q := Skip(IsDigit, data, p);
            if p < q < |data| && data[p] != 48 && data[q] == DOT
            then Run(s, data, p) == Run(s.(major := Dec(data[p..q]), state := FirstMinorDigit), data, q + 1)
            else Run(s, data, p).code != LOK
  {
    hide Run, Step, Dec, Skip;
    if p < |data| && IsDigit(data[p]) && data[p] != 48 {
      FirstMajorRun(s, data, p);
      var q := Skip(IsDigit, data, p);
      DotRun(s.(major := Dec(data[p..q]), state := MajorDigit), data, q);
    } else if Run(s, data, p).code == LOK {
      DigitNeeded(s, data, p);
    }
  }

  /** The minor version and the space behind it. */
  lemma MinorRun(s: Status, data: Bytes, p: nat)
    requires p <= |data| && s.state == FirstMinorDigit
    ensures var q := Skip(IsDigit, data, p);
            if p < q < |data| && data[q] == SP
            then Run(s, data, p) ==
                 Run(s.(minor := Dec(data[p..q]), protocolEnd := q - 1, state := StatusCode), data, q + 1)
            else Run(s, data, p).code != LOK
  {
    hide Run, Step, Dec, Skip;
    if p < |data| && IsDigit(data[p]) {
      FirstMinorRun(s, data, p);
      var q := Skip(IsDigit, data, p);
      SpaceRun(s.(minor := Dec(data[p..q]), state := MinorDigit), data, q);
    } else if Run(s, data, p).code == LOK {
      DigitNeeded(s, data, p);
    }
  }

  // ---------- the code ----------

  /** A digit of the code has been taken at q. */
  function Counted(s: Status, d: Byte, q: nat): Status {
    var s := s.(code := s.code * 10 + d - 48, count := s.count + 1);
    if s.count == 3 then s.(state := SpaceAfterStatus, start := q - 2) else s
  }

  lemma {:induction false} CodeSpaces(s: Status, data: Bytes, p: nat)
    requires p <= |data| && s.state == StatusCode
    ensures Run(s, data, p) == Run(s, data, Skip(IsSpace, data, p))
    decreases |data| - p
  {
    hide Run;
    if p < |data| && data[p] == SP {
      Turn(s, data, p);
      CodeSpaces(s, data, p + 1);
    }
  }

  lemma DigitRun(s: Status, data: Bytes, p: nat)
    requires p <= |data| && s.state == StatusCode
    ensures var q := Skip(IsSpace, data, p);
            if q < |data| && IsDigit(data[q])
            then Run(s, data, p) == Run(Counted(s, data[q], q), data, q + 1)
            else Run(s, data, p).code != LOK
  {
    hide Run;
    var q := Skip(IsSpace, data, p);
    CodeSpaces(s, data, p);
    if q < |data| { Turn(s, data, q); } else { AtEnd(s, data); }
  }

  lemma OccursDigit(data: Bytes, p: nat, d: CodeDigit)
    requires IsDigit(d.digit)
    ensures Occurs(data, p, DigitText(d)) <==>
            p + d.gap < |data| && Skip(IsSpace, data, p) == p + d.gap && data[p + d.gap] == d.digit
  {
    OccursConcat(data, p, Spaces(d.gap), [d.digit]);
    OccursOne(data, p + d.gap, d.digit);
    if p + d.gap < |data| && data[p + d.gap] == d.digit {
      OccursSpaces(data, p, d.gap);
    }
  }

  // ---------- the reason and the end of the line ----------

  lemma {:induction false} TextRun(s: Status, data: Bytes, p: nat)
    requires p <= |data| && s.state == StatusText
    ensures Run(s, data, p) == Run(s, data, Skip(NoLineEnd, data, p))
    decreases |data| - p
  {
    hide Run;
    if p < |data| && NoLineEnd(data[p]) {
      Turn(s, data, p);
      TextRun(s, data, p + 1);
    }
  }

  /** A byte seen at the end of the line. */
  lemma EndTurn(s: Status, ch: Byte, p: nat)
    ensures (s.state == SpaceAfterStatus || s.state == StatusText) && ch == CR ==> Step(s, ch, p) == Next(s.To(AlmostDone))
    ensures (s.state == SpaceAfterStatus || s.state == StatusText) && ch == LF ==> Step(s, ch, p) == Done(s)
    ensures s.state == AlmostDone ==>
              var s' := s.(end := At(p - 1));
              Step(s, ch, p) == if ch == LF then Done(s') else Fail(s')
  {
    hide StepProtocol, StepVersion, StepCode;
  }

  lemma EolRun(s: Status, data: Bytes, p: nat)
    requires p < |data| && IsLineEnd(data[p])
    requires s.state == SpaceAfterStatus || s.state == StatusText
    ensures forall e :: Occurs(data, p, EolText(e)) ==>
                          Run(s, data, p) == Finish(s.(end := EndAt(s.end, p, e)), p + |EolText(e)| - 1)
    ensures Run(s, data, p).code == LOK ==> Occurs(data, p, EolText(if data[p] == LF then Lf else CrLf))
  {
    hide Run, Step, Occurs;
    OccursEol(data, p, Lf);
    OccursEol(data, p, CrLf);
    EndTurn(s, data[p], p);
    Turn(s, data, p);
    if data[p] == CR {
      var s' := s.To(AlmostDone);
      if p + 1 < |data| { EndTurn(s', data[p + 1], p + 1); }
      if p + 1 < |data| { Turn(s', data, p + 1); } else { AtEnd(s', data); }
    }
  }

  /** From behind the code to the line end, which is the first one. */
  lemma ReasonRun(s: Status, data: Bytes, p: nat)
    requires p <= |data| && s.state == SpaceAfterStatus
    ensures var q := Skip(NoLineEnd, data, p);
            if q < |data| && (p < q ==> data[p] == SP || data[p] == DOT)
            then Run(s, data, p) == Run(s.To(if p < q then StatusText else SpaceAfterStatus), data, q)
            else Run(s, data, p).code != LOK
  {
    hide Run;
    var q := Skip(NoLineEnd, data, p);
    if p == |data| {
      AtEnd(s, data);
    } else {
      Turn(s, data, p);
      var s' := s.To(StatusText);
      if p < q && (data[p] == SP || data[p] == DOT) {
        TextRun(s', data, p + 1);
        if q == |data| { AtEnd(s', data); }
      }
    }
  }

  // ---------- the language ----------

  /** A request whose status no parser has written to. The code relies on this. */
  predicate Fresh(s: Status) {
    s.state == Start && s.end == Null && s.code == 0 && s.count == 0
  }

  /** The lines that are taken into s: as many code digits as are missing from three. */
  predicate AcceptedInto(s: Status, t: StatusTree) { Shaped(t) && s.count + |t.code| == 3 }

  /** Every field when the line t at p has been taken in. */
  function Recorded(s: Status, p: nat, t: StatusTree): Status {
    Status(
      Start, p, p, p + CodeAt(t) - 2, Dec(t.major), Dec(t.minor),
      CodeFrom(s.code, t.code), 3, p + ReasonAt(t) - 3, EndAt(s.end, p + EolAt(t), t.eol),
      1000 * Dec(t.major) + Dec(t.minor))
  }

  lemma OccursStatus(data: Bytes, p: nat, t: StatusTree)
    ensures Occurs(data, p, Text(t)) <==>
            && Occurs(data, p, VersionText(t))
            && Occurs(data, p + CodeAt(t), CodeText(t.code))
            && Occurs(data, p + ReasonAt(t), t.reason)
            && Occurs(data, p + EolAt(t), EolText(t.eol))
  {
    hide Occurs;
    OccursConcat(data, p, VersionText(t), CodeText(t.code) + (t.reason + EolText(t.eol)));
    OccursConcat(data, p + CodeAt(t), CodeText(t.code), t.reason + EolText(t.eol));
    OccursConcat(data, p + ReasonAt(t), t.reason, EolText(t.eol));
  }

  lemma OccursVersion(data: Bytes, p: nat, major: Bytes, minor: Bytes)
    ensures Occurs(data, p, HTTP_SLASH + (major + ([DOT] + (minor + [SP])))) <==>
            && Occurs(data, p, HTTP_SLASH)
            && Occurs(data, p + 5, major) && Occurs(data, p + 5 + |major|, [DOT])
            && Occurs(data, p + 6 + |major|, minor) && Occurs(data, p + 6 + |major| + |minor|, [SP])
  {
    hide Occurs;
    var a := minor + [SP];
    OccursConcat(data, p, HTTP_SLASH, major + ([DOT] + a));
    OccursConcat(data, p + 5, major, [DOT] + a);
    OccursConcat(data, p + 5 + |major|, [DOT], a);
    OccursConcat(data, p + 6 + |major|, minor, [SP]);
  }

  /** The state in front of the code. */
  function Versioned(s: Status, p: nat, major: Bytes, minor: Bytes): Status {
    Started(s, p).(major := Dec(major), minor := Dec(minor),
                   protocolEnd := p + 5 + |major| + |minor|, state := StatusCode)
  }

  lemma VersionValid(t: StatusTree)
    requires Shaped(t)
    ensures t.major != [] && All(t.major, IsDigit) && t.major[0] != 48 && t.minor != [] && All(t.minor, IsDigit)
    ensures VersionText(t) == HTTP_SLASH + (t.major + ([DOT] + (t.minor + [SP])))
    ensures |VersionText(t)| == 7 + |t.major| + |t.minor|
  {
  }

  lemma VersionParts(data: Bytes, p: nat, t: StatusTree)
    requires Shaped(t) && Occurs(data, p, VersionText(t))
    ensures Occurs(data, p, HTTP_SLASH) && p + CodeAt(t) <= |data|
    ensures var a, b, c := p + 5, p + 5 + |t.major|, p + 6 + |t.major| + |t.minor|;
            && a < b && b + 1 < c < |data| && c + 1 == p + CodeAt(t)
            && Skip(IsDigit, data, a) == b && data[a..b] == t.major && data[a] != 48 && data[b] == DOT
            && Skip(IsDigit, data, b + 1) == c && data[b + 1..c] == t.minor && data[c] == SP
  {
    hide Occurs, Skip, Shaped, VersionText, All;
    VersionValid(t);
    OccursVersion(data, p, t.major, t.minor);
    DigitsAt(data, p + 5, t.major, DOT);
    DigitsAt(data, p + 6 + |t.major|, t.minor, SP);
  }

  lemma DigitsAt(data: Bytes, p: nat, digits: Bytes, next: Byte)
    requires digits != [] && All(digits, IsDigit) && !IsDigit(next)
    requires Occurs(data, p, digits) && Occurs(data, p + |digits|, [next])
    ensures var q := p + |digits|;
            && q < |data| && Skip(IsDigit, data, p) == q && data[p..q] == digits
            && data[p] == digits[0] && data[q] == next
  {
    OccursOne(data, p + |digits|, next);
    OccursClass(IsDigit, data, p, digits);
  }

  lemma VersionComplete(s: Status, data: Bytes, p: nat, t: StatusTree)
    requires s.state == Start && Shaped(t) && Occurs(data, p, VersionText(t))
    ensures p + CodeAt(t) <= |data|
    ensures Run(s, data, p) == Run(Versioned(s, p, t.major, t.minor), data, p + CodeAt(t))
  {
    hide Run, Step, Occurs, Dec, Shaped, VersionText;
    VersionParts(data, p, t);
    ProtocolRun(s, data, p);
    MajorRun(Started(s, p), data, p + 5);
    MinorRun(Started(s, p).(major := Dec(t.major), state := FirstMinorDigit), data, p + 6 + |t.major|);
  }

  lemma VersionSound(s: Status, data: Bytes, p: nat) returns (major: Bytes, minor: Bytes)
    requires p <= |data| && s.state == Start && Run(s, data, p).code == LOK
    ensures major != [] && All(major, IsDigit) && major[0] != 48 && minor != [] && All(minor, IsDigit)
    ensures var c := p + 7 + |major| + |minor|;
            c <= |data| && Occurs(data, p, HTTP_SLASH + (major + ([DOT] + (minor + [SP]))))
            && Run(s, data, p) == Run(Versioned(s, p, major, minor), data, c)
  {
    hide Run, Step, Occurs, All, Dec, Skip;
    ProtocolRun(s, data, p);
    OccursFits(data, p, HTTP_SLASH);
    var a := p + 5;
    MajorRun(Started(s, p), data, a);
    var b := Skip(IsDigit, data, a);
    major := data[a..b];
    MinorRun(Started(s, p).(major := Dec(major), state := FirstMinorDigit), data, b + 1);
    var c := Skip(IsDigit, data, b + 1);
    minor := data[b + 1..c];
    SliceOf(IsDigit, data, a, b);
    SliceOf(IsDigit, data, b + 1, c);
    OccursOne(data, b, DOT);
    OccursOne(data, c, SP);
    OccursVersion(data, p, major, minor);
  }

  /** The state behind the code, which ends at q. */
  function Coded(s: Status, code: int, q: nat): Status {
    s.(code := code, count := 3, start := q - 3, state := SpaceAfterStatus)
  }

  /** Missing digits are found one after the other, spaces in front of each. */
  lemma {:induction false} CodeComplete(s: Status, data: Bytes, p: nat, ds: seq<CodeDigit>)
    requires p <= |data| && s.state == StatusCode && ValidCode(ds) && s.count + |ds| == 3
    requires Occurs(data, p, CodeText(ds))
    ensures var q := p + |CodeText(ds)|;
            q <= |data| && Run(s, data, p) == Run(Coded(s, CodeFrom(s.code, ds), q), data, q)
    decreases |ds|
  {
    hide Run, Step, Occurs, Skip;
    OccursFits(data, p, CodeText(ds));
    OccursConcat(data, p, DigitText(ds[0]), CodeText(ds[1..]));
    OccursDigit(data, p, ds[0]);
    DigitRun(s, data, p);
    var s' := Counted(s, ds[0].digit, p + ds[0].gap);
    if |ds| > 1 {
      CodeComplete(s', data, p + ds[0].gap + 1, ds[1..]);
    } else {
      assert CodeFrom(s.code, ds) == s'.code;
    }
  }

  lemma {:induction false} CodeSound(s: Status, data: Bytes, p: nat) returns (ds: seq<CodeDigit>)
    requires p <= |data| && s.state == StatusCode && Run(s, data, p).code == LOK
    ensures ValidCode(ds) && s.count + |ds| == 3 && Occurs(data, p, CodeText(ds))
    decreases |data| - p
  {
    hide Run, Step, Occurs, Skip;
    DigitRun(s, data, p);
    var q := Skip(IsSpace, data, p);
    var d := CodeDigit(q - p, data[q]);
    OccursDigit(data, p, d);
    var s' := Counted(s, data[q], q);
    var rest := [];
    if s.count + 1 == 3 {
      OccursNone(data, q + 1);
    } else {
      rest := CodeSound(s', data, q + 1);
    }
    ds := [d] + rest;
    assert ds[1..] == rest;
    OccursConcat(data, p, DigitText(d), CodeText(rest));
  }

  lemma OccursNone(data: Bytes, p: nat)
    requires p <= |data|
    ensures Occurs(data, p, CodeText([]))
  {
  }

  /** From nothing, the number is the decimal value of the digits. */
  lemma {:induction false} CodeFromIs(was: Bytes, ds: seq<CodeDigit>)
    ensures CodeFrom(Dec(was), ds) == Dec(was + Digits(ds))
    decreases |ds|
  {
    if ds == [] {
      assert was + Digits(ds) == was;
    } else {
      var more := was + [ds[0].digit];
      assert more[..|more| - 1] == was;
      CodeFromIs(more, ds[1..]);
      assert more + Digits(ds[1..]) == was + Digits(ds);
    }
  }

  /** A status line that is accepted is taken in, whatever follows it, and recorded. */
  lemma Completeness(s: Status, data: Bytes, p: nat, t: StatusTree)
    requires s.state == Start && AcceptedInto(s, t) && Occurs(data, p, Text(t))
    ensures p + |Text(t)| <= |data|
    ensures Run(s, data, p) == Result(LOK, Recorded(s, p, t), p + |Text(t)|)
    ensures Fresh(s) ==> Recorded(s, p, t).code == CodeOf(t) && Recorded(s, p, t).end == At(p + EolAt(t))
  {
    hide Run, Step, Occurs, CodeText, CodeFrom, CodeOf;
    OccursFits(data, p, Text(t));
    OccursStatus(data, p, t);
    VersionComplete(s, data, p, t);
    var s1 := Versioned(s, p, t.major, t.minor);
    CodeComplete(s1, data, p + CodeAt(t), t.code);
    var q := p + ReasonAt(t);
    ReasonComplete(Coded(s1, CodeFrom(s.code, t.code), q), data, q, t);
    if Fresh(s) {
      CodeIs(t);
    }
  }

  lemma CodeIs(t: StatusTree)
    ensures CodeFrom(0, t.code) == CodeOf(t)
  {
    CodeFromIs([], t.code);
    assert [] + Digits(t.code) == Digits(t.code);
  }

  lemma ReasonValid(data: Bytes, p: nat, t: StatusTree)
    requires Shaped(t) && Occurs(data, p, t.reason)
    ensures All(t.reason, NoLineEnd) && p + |t.reason| <= |data|
    ensures t.reason != [] ==> data[p] == SP || data[p] == DOT
  {
    OccursFits(data, p, t.reason);
  }

  lemma ReasonComplete(s: Status, data: Bytes, p: nat, t: StatusTree)
    requires p <= |data| && s.state == SpaceAfterStatus && Shaped(t)
    requires Occurs(data, p, t.reason) && Occurs(data, p + |t.reason|, EolText(t.eol))
    ensures var q := p + |t.reason|;
            Run(s, data, p) == Finish(s.(end := EndAt(s.end, q, t.eol)), q + |EolText(t.eol)| - 1)
  {
    hide Run, Step, Occurs, Shaped, Skip;
    var q := p + |t.reason|;
    OccursFits(data, p, t.reason);
    ReasonValid(data, p, t);
    OccursEol(data, q, t.eol);
    OccursClass(NoLineEnd, data, p, t.reason);
    ReasonRun(s, data, p);
    EolRun(s.To(if p < q then StatusText else SpaceAfterStatus), data, q);
  }

  /** Whatever the machine takes in is a status line with the digits that were missing. */
  lemma Soundness(s: Status, data: Bytes, p: nat) returns (t: StatusTree)
    requires p <= |data| && s.state == Start && Run(s, data, p).code == LOK
    ensures AcceptedInto(s, t) && Occurs(data, p, Text(t))
  {
    hide Run, Step, Occurs, CodeText, ValidCode;
    var major, minor := VersionSound(s, data, p);
    var c := p + 7 + |major| + |minor|;
    var s1 := Versioned(s, p, major, minor);
    var code := CodeSound(s1, data, c);
    CodeComplete(s1, data, c, code);
    var q := c + |CodeText(code)|;
    var reason, eol := ReasonSound(Coded(s1, CodeFrom(s1.code, code), q), data, q);
    t := StatusTree(major, minor, code, reason, eol);
    OccursStatus(data, p, t);
  }

  lemma ReasonSound(s: Status, data: Bytes, p: nat) returns (reason: Bytes, eol: Eol)
    requires p <= |data| && s.state == SpaceAfterStatus
    requires Run(s, data, p).code == LOK
    ensures All(reason, NoLineEnd) && (reason != [] ==> reason[0] == SP || reason[0] == DOT)
    ensures Occurs(data, p, reason) && Occurs(data, p + |reason|, EolText(eol))
  {
    hide Run, Step;
    ReasonRun(s, data, p);
    var q := Skip(NoLineEnd, data, p);
    EolRun(s.To(if p < q then StatusText else SpaceAfterStatus), data, q);
    reason := data[p..q];
    eol := if data[q] == LF then Lf else CrLf;
  }

  /** LOK exactly on the lines accepted into s. */
  lemma AcceptsExactly(s: Status, data: Bytes, p: nat)
    requires p <= |data| && s.state == Start
    ensures Run(s, data, p).code == LOK <==> exists t :: AcceptedInto(s, t) && Occurs(data, p, Text(t))
  {
    hide Run, Step, Occurs, AcceptedInto, Recorded;
    if Run(s, data, p).code == LOK {
      var t := Soundness(s, data, p);
    }
    forall t | AcceptedInto(s, t) && Occurs(data, p, Text(t))
      ensures Run(s, data, p).code == LOK
    {
      Completeness(s, data, p, t);
    }
  }

  /** On a fresh status LOK exactly on the status lines. */
  lemma AcceptsExactlyTheLanguage(s: Status, data: Bytes, p: nat)
    requires p <= |data| && Fresh(s)
    ensures Run(s, data, p).code == LOK <==> exists t :: Valid(t) && Occurs(data, p, Text(t))
  {
    hide Run, Occurs;
    forall t: StatusTree
      ensures AcceptedInto(s, t) <==> Valid(t)
    {
    }
    AcceptsExactly(s, data, p);
  }

  // ---------- a status that has been used ----------

  /** A status that has taken in a line takes in no other: its count is not set back. */
  lemma TakesOneLine(s: Status, data: Bytes, p: nat, next: Bytes, q: nat)
    requires p <= |data| && q <= |next| && s.state == Start && Run(s, data, p).code == LOK
    ensures Run(Run(s, data, p).s, next, q).code != LOK
  {
    hide Run, Occurs, Text;
    var t := Soundness(s, data, p);
    Completeness(s, data, p, t);
    AcceptsExactly(Run(s, data, p).s, next, q);
  }

  /** "HTTP/1.1 200 OK" */
  const OK_LINE := StatusTree([49], [49], [CodeDigit(0, 50), CodeDigit(0, 48), CodeDigit(0, 48)], [SP, 79, 75], CrLf)

  /** "HTTP/1.1 20 OK" */
  const SHORT_LINE := OK_LINE.(code := [CodeDigit(0, 50), CodeDigit(0, 48)])

  /** A status that an error has left with the one digit 1 takes "HTTP/1.1 20 OK", and its code for 120. */
  lemma CountLeft(s: Status)
    requires s.state == Start && s.count == 1 && s.code == 1
    ensures var r := Run(s, Text(SHORT_LINE), 0);
            r.code == LOK && r.s.code == 120
  {
    hide Run, Occurs, Text;
    OccursWhole(Text(SHORT_LINE));
    var ds := SHORT_LINE.code;
    assert ds[1..] == [CodeDigit(0, 48)] && ds[1..][1..] == [];
    Completeness(s, Text(SHORT_LINE), 0, SHORT_LINE);
  }
}
