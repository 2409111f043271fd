/** The status-line machine of ngx_http_parse_status_line, one byte at a time. */
module StatusLine {
  import opened Bytes
  import opened ParserState

  /** The part of a request and of its status that the status-line parser writes. */
  datatype Status = Status(
    state: State, requestStart: int, protocol: int, protocolEnd: int, major: int, minor: int,
    code: int, count: int, start: int, end: Ptr, version: int)
  {
    function To(s: State): Status { this.(state := s) }
  }

  /** One turn of the loop: `p++`, `goto done` or the error return. */
  datatype Move = Next(s: Status) | Done(s: Status) | Fail(s: Status)

  datatype Result = Result(code: int, s: Status, pos: nat)

  function StepProtocol(s: Status, ch: Byte, p: nat): Move {
    if s.state == Start && ch == UPPER_H then
      Next(s.(requestStart := p, protocol := p, state := HttpH))
    else if s.state == HttpH && ch == UPPER_T then Next(s.To(HttpHT))
    else if s.state == HttpHT && ch == UPPER_T then Next(s.To(HttpHTT))
    else if s.state == HttpHTT && ch == UPPER_P then Next(s.To(HttpHTTP))
    else if s.state == HttpHTTP && ch == SLASH then Next(s.To(FirstMajorDigit))
    else Fail(s)
  }

  function StepVersion(s: Status, ch: Byte, p: nat): Move {
    match s.state
    case FirstMajorDigit =>
      if ch < 49 || ch > 57 then Fail(s) else Next(s.(major := ch - 48, state := MajorDigit))
    case MajorDigit =>
      if ch == DOT then Next(s.To(FirstMinorDigit))
      else if !IsDigit(ch) then Fail(s)
      else Next(s.(major := s.major * 10 + ch - 48))
    case FirstMinorDigit =>
      if !IsDigit(ch) then Fail(s) else Next(s.(minor := ch - 48, state := MinorDigit))
    case _ => // MinorDigit
      if ch == SP then Next(s.(state := StatusCode, protocolEnd := p - 1))
      else if !IsDigit(ch) then Fail(s)
      else Next(s.(minor := s.minor * 10 + ch - 48))
  }

  function StepCode(s: Status, ch: Byte, p: nat): Move {
    if ch == SP then Next(s)
    else if !IsDigit(ch) then Fail(s)
    else
      var s := s.(code := s.code * 10 + ch - 48, count := s.count + 1);
      if s.count == 3 then Next(s.(state := SpaceAfterStatus, start := p - 2)) else Next(s)
  }

  function StepText(s: Status, ch: Byte, p: nat): Move {
    match s.state
    case SpaceAfterStatus =>
      if ch == SP || ch == DOT then Next(s.To(StatusText))
      else if ch == CR then Next(s.To(AlmostDone))
      else if ch == LF then Done(s)
      else Fail(s)
    case StatusText =>
      if ch == CR then Next(s.To(AlmostDone)) else if ch == LF then Done(s) else Next(s)
    case _ => // AlmostDone
      var s := s.(end := At(p - 1));
      if ch == LF then Done(s) else Fail(s)
  }

  /** One turn of the loop. */
  function Step(s: Status, ch: Byte, p: nat): Move {
    match s.state
    case Start | HttpH | HttpHT | HttpHTT | HttpHTTP => StepProtocol(s, ch, p)
    case FirstMajorDigit | MajorDigit | FirstMinorDigit | MinorDigit => StepVersion(s, ch, p)
    case StatusCode => StepCode(s, ch, p)
    case SpaceAfterStatus | StatusText | AlmostDone => StepText(s, ch, p)
    case _ => Next(s)
  }

  /** The code after the label `done`. */
  function Finish(s: Status, p: nat): Result {
    Result(LOK, s.(end := if s.end == Null then At(p) else s.end,
                   version := s.major * 1000 + s.minor, state := Start), p + 1)
  }

  /** The whole call on the bytes in sight. */
  function Run(s: Status, data: Bytes, p: nat): Result
    requires p <= |data|
    decreases |data| - p
  {
    if p == |data| then Result(LAGAIN, s, p)
    else
      match Step(s, data[p], p)
      case Next(s') => Run(s', data, p + 1)
      case Done(s') => Finish(s', p)
      case Fail(s') => Result(LERROR, s', p)
  }

  /** One turn of the loop, as a fact about Run. */
  lemma Turn(s: Status, data: Bytes, p: nat)
    requires p < |data|
    ensures match Step(s, data[p], p)
            case Next(s') => Run(s, data, p) == Run(s', data, p + 1)
            case Done(s') => Run(s, data, p) == Finish(s', p)
            case Fail(s') => Run(s, data, p) == Result(LERROR, s', p)
  {
    hide Step;
  }

  lemma AtEnd(s: Status, data: Bytes)
    ensures Run(s, data, |data|) == Result(LAGAIN, s, |data|)
  {
    hide Step;
  }

  // ---------- resuming ----------

  /** What a call leaves behind: an error return saves neither state nor position. */
  function Call(s: Status, data: Bytes, p: nat): (r: Result)
    requires p <= |data|
    ensures r.code == LAGAIN ==> r.pos == |data|
  {
    hide Run;
    AgainAtEnd(s, data, p);
    var r := Run(s, data, p);
    if r.code == LERROR then Result(r.code, r.s.To(s.state), p) else r
  }

  /** An error keeps the saved state and position. */
  lemma CallSaves(s: Status, data: Bytes, p: nat)
    requires p <= |data|
    ensures var r := Call(s, data, p);
            && r.code == Run(s, data, p).code
            && (r.code == LERROR ==> r.pos == p && r.s.state == s.state)
            && (r.code == LAGAIN ==> r.pos == |data|)
            && (r.code == LOK ==> p < r.pos <= |data| && r.s.state == Start)
  {
    hide Run;
    AgainAtEnd(s, data, p);
  }

  /** The calls made as the pieces arrive one by one. */
  function Calls(s: Status, data: Bytes, p: nat, pieces: seq<Bytes>): Result
    requires p <= |data|
    decreases |pieces|
  {
    var r := Call(s, data, p);
    if r.code != LAGAIN || pieces == [] then r
    else Calls(r.s, data + pieces[0], r.pos, pieces[1..])
  }

  lemma {:induction false} AgainAtEnd(s: Status, data: Bytes, p: nat)
    requires p <= |data|
    ensures var r := Run(s, data, p);
            && r.code in {LOK, LAGAIN, LERROR}
            && (r.code == LAGAIN ==> r.pos == |data|)
            && (r.code == LOK ==> p < r.pos <= |data| && r.s.state == Start)
    decreases |data| - p
  {
    hide Run, Step;
    if p == |data| {
      AtEnd(s, data);
    } else {
      Turn(s, data, p);
      match Step(s, data[p], p)
      case Next(s') => AgainAtEnd(s', data, p + 1);
      case _ =>
    }
  }

  /** More bytes change nothing once a call has ended; until then the next call takes over. */
  lemma {:induction false} Resume(s: Status, data: Bytes, more: Bytes, p: nat)
    requires p <= |data|
    ensures var r := Run(s, data, p);
            if r.code == LAGAIN then Run(r.s, data + more, |data|) == Run(s, data + more, p)
            else r == Run(s, data + more, p)
    decreases |data| - p
  {
    hide Run, Step;
    if p == |data| {
      AtEnd(s, data);
    } else {
      Turn(s, data, p);
      Turn(s, data + more, p);
      match Step(s, data[p], p)
      case Next(s') => Resume(s', data, more, p + 1);
      case _ =>
    }
  }

  /** The same apart from the state and position an error leaves unsaved. */
  predicate SameOutcome(a: Result, b: Result) {
    a.code == b.code && a.s.To(Start) == b.s.To(Start) && (a.code != LERROR ==> a == b)
  }

  /** However the input is cut into pieces, the outcome is that of one call on all of it. */
  lemma {:induction false} PiecewiseIsWhole(s: Status, data: Bytes, p: nat, pieces: seq<Bytes>)
    requires p <= |data|
    ensures SameOutcome(Calls(s, data, p, pieces), Call(s, data + Concat(pieces), p))
    decreases |pieces|
  {
    hide Run;
    var r := Call(s, data, p);
    if pieces == [] {
      assert data + Concat(pieces) == data;
    } else {
      Resume(s, data, Concat(pieces), p);
      if r.code == LAGAIN {
        PiecewiseIsWhole(r.s, data + pieces[0], |data|, pieces[1..]);
        assert data + Concat(pieces) == data + pieces[0] + Concat(pieces[1..]);
      }
    }
  }
}
