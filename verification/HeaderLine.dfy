/** The header-line machine of ngx_http_parse_header_line, one byte at a time. */
module HeaderLine {
  import opened Bytes
  import opened ParserState

  const INVALID_HEADER := 13
  const RING: nat := 32

  /** What the parser reads and never writes: `r->upstream != NULL` and `allow_underscores`. */
  datatype Env = Env(upstream: bool, underscores: bool)

  /**
   The part of a request that the header-line parser writes. `hash` and `index` are the locals
   `hash` and `i` while a call runs, and `header_hash` and `lowcase_index` between calls.
   */
  datatype Header = Header(
    state: State, hash: int, index: int, ring: Bytes,
    nameStart: int, nameEnd: int, start: int, end: int,
    invalid: bool, length: int)
  {
    function To(s: State): Header { this.(state := s) }

    function Span(from: int, to: int, s: State): Header { this.(start := from, end := to, state := s) }
  }

  /** One turn of the loop: `p++`, `goto done`, `goto header_done` or the error return. */
  datatype Move = Next(h: Header) | Done(h: Header) | DoneAll(h: Header) | Fail(h: Header)

  datatype Result = Result(code: int, h: Header, pos: nat)

  const HTTP: Bytes := [UPPER_H, UPPER_T, UPPER_T, UPPER_P]

  /** The ring position stays in the ring, and a name that is being read started before p. */
  predicate WellFormed(h: Header, p: nat) {
    && 0 <= h.index < RING && |h.ring| == RING
    && (h.state == Name ==> 0 <= h.nameStart < p)
  }

  /** The first byte of a name starts hash and ring anew. */
  function FirstByte(h: Header, c: Byte): Header
    requires |h.ring| == RING
  {
    h.(hash := HashStep(0, c), ring := h.ring[0 := c], index := 1)
  }

  function NextByte(h: Header, c: Byte): Header
    requires 0 <= h.index < RING && |h.ring| == RING
  {
    h.(hash := HashStep(h.hash, c), ring := h.ring[h.index := c], index := (h.index + 1) % RING)
  }

  /** The byte as the parser stores it, or 0 if it makes the header invalid. */
  function NameByte(env: Env, b: Byte): Byte {
    if b == UNDERSCORE then (if env.underscores then b else 0) else Lowcase(b)
  }

  function StepStart(env: Env, h: Header, ch: Byte, p: nat): Move
    requires |h.ring| == RING
  {
    var h := h.(nameStart := p, invalid := false);
    var c := NameByte(env, ch);
    if ch == CR then Next(h.(end := p, state := HeaderAlmostDone))
    else if ch == LF then DoneAll(h.(end := p))
    else if c != 0 then Next(FirstByte(h.To(Name), c))
    else if ch == NUL then Fail(h)
    else Next(h.(invalid := true, state := Name))
  }

  function StepName(env: Env, h: Header, data: Bytes, p: nat): Move
    requires p < |data| && WellFormed(h, p) && h.state == Name
  {
    var ch := data[p];
    var c := NameByte(env, ch);
    if c != 0 then Next(NextByte(h, c))
    else if ch == COLON then Next(h.(nameEnd := p, state := SpaceBeforeValue))
    else if ch == CR then Next(h.(nameEnd := p).Span(p, p, AlmostDone))
    else if ch == LF then Done(h.(nameEnd := p).Span(p, p, Name))
    else if ch == SLASH && env.upstream && p - h.nameStart == 4 && data[h.nameStart..p] == HTTP then
      Next(h.To(IgnoreLine))
    else if ch == NUL then Fail(h)
    else Next(h.(invalid := true))
  }

  function StepValue(h: Header, ch: Byte, p: nat): Move {
    match h.state
    case SpaceBeforeValue =>
      if ch == SP then Next(h)
      else if ch == CR then Next(h.Span(p, p, AlmostDone))
      else if ch == LF then Done(h.(start := p, end := p))
      else if ch == NUL then Fail(h)
      else Next(h.(start := p, state := Value))
    case Value =>
      if ch == SP then Next(h.(end := p, state := SpaceAfterValue))
      else if ch == CR then Next(h.(end := p, state := AlmostDone))
      else if ch == LF then Done(h.(end := p))
      else if ch == NUL then Fail(h)
      else Next(h)
    case _ => // SpaceAfterValue
      if ch == SP then Next(h)
      else if ch == CR then Next(h.To(AlmostDone))
      else if ch == LF then Done(h)
      else if ch == NUL then Fail(h)
      else Next(h.To(Value))
  }

  /** One turn of the loop. */
  function Step(env: Env, h: Header, data: Bytes, p: nat): (m: Move)
    requires p < |data| && WellFormed(h, p)
    ensures WellFormed(m.h, p + 1)
  {
    var ch := data[p];
    match h.state
    case Start => StepStart(env, h, ch, p)
    case Name => StepName(env, h, data, p)
    case SpaceBeforeValue | Value | SpaceAfterValue => StepValue(h, ch, p)
    case IgnoreLine => Next(if ch == LF then h.To(Start) else h)
    case AlmostDone =>
      if ch == LF then Done(h) else if ch == CR then Next(h) else Fail(h)
    case HeaderAlmostDone =>
      if ch == LF then DoneAll(h) else Fail(h)
    case _ => Next(h)
  }

  /** The code after the label `done`. */
  function Finish(h: Header, p: nat): Result {
    Result(LOK, h.(state := Start, length := h.end - h.nameStart + 2), p + 1)
  }

  /** The whole call on the bytes in sight. */
  function Run(env: Env, h: Header, data: Bytes, p: nat): Result
    requires p <= |data| && WellFormed(h, p)
    decreases |data| - p
  {
    hide Step;
    if p == |data| then Result(LAGAIN, h, p)
    else
      match Step(env, h, data, p)
      case Next(h') => Run(env, h', data, p + 1)
      case Done(h') => Finish(h', p)
      case DoneAll(h') => Result(HEADER_DONE, h'.To(Start), p + 1)
      case Fail(h') => Result(INVALID_HEADER, h', p)
  }

  /** One turn of the loop, as a fact about Run. */
  lemma Turn(env: Env, h: Header, data: Bytes, p: nat)
    requires p < |data| && WellFormed(h, p)
    ensures match Step(env, h, data, p)
            case Next(h') => Run(env, h, data, p) == Run(env, h', data, p + 1)
            case Done(h') => Run(env, h, data, p) == Finish(h', p)
            case DoneAll(h') => Run(env, h, data, p) == Result(HEADER_DONE, h'.To(Start), p + 1)
            case Fail(h') => Run(env, h, data, p) == Result(INVALID_HEADER, h', p)
  {
    hide Step;
  }

  lemma AtEnd(env: Env, h: Header, data: Bytes)
    requires WellFormed(h, |data|)
    ensures Run(env, h, data, |data|) == Result(LAGAIN, h, |data|)
  {
    hide Step;
  }

  // ---------- resuming ----------

  /** What a call leaves behind: only LOK and LAGAIN save hash and index, an error saves no state either. */
  function Call(env: Env, h: Header, data: Bytes, p: nat): (r: Result)
    requires p <= |data| && WellFormed(h, p)
    ensures r.code == LAGAIN ==> r.pos == |data| && WellFormed(r.h, |data|)
  {
    hide Run;
    AgainAtEnd(env, h, data, p);
    var r := Run(env, h, data, p);
    if r.code == HEADER_DONE then r.(h := r.h.(hash := h.hash, index := h.index))
    else if r.code == INVALID_HEADER then
      Result(r.code, r.h.(state := h.state, hash := h.hash, index := h.index), p)
    else r
  }

  /** Hash and index are saved by LOK and LAGAIN only, and an error keeps state and position too. */
  lemma CallSaves(env: Env, h: Header, data: Bytes, p: nat)
    requires p <= |data| && WellFormed(h, p)
    ensures var r := Call(env, h, data, p);
            && r.code == Run(env, h, data, p).code
            && (r.code == INVALID_HEADER ==> r.pos == p && r.h.state == h.state)
            && (r.code in {INVALID_HEADER, HEADER_DONE} ==> r.h.hash == h.hash && r.h.index == h.index)
            && (r.code == LAGAIN ==> r.pos == |data|)
            && (r.code in {LOK, HEADER_DONE} ==> p < r.pos <= |data| && r.h.state == Start)
  {
    hide Run;
    AgainAtEnd(env, h, data, p);
  }

  /** The calls made as the pieces arrive one by one. */
  function Calls(env: Env, h: Header, data: Bytes, p: nat, pieces: seq<Bytes>): Result
    requires p <= |data| && WellFormed(h, p)
    decreases |pieces|
  {
    var r := Call(env, h, data, p);
    if r.code != LAGAIN || pieces == [] then r
    else Calls(env, r.h, data + pieces[0], r.pos, pieces[1..])
  }

  lemma {:induction false} AgainAtEnd(env: Env, h: Header, data: Bytes, p: nat)
    requires p <= |data| && WellFormed(h, p)
    ensures var r := Run(env, h, data, p);
            && r.code in {LOK, LAGAIN, HEADER_DONE, INVALID_HEADER}
            && (r.code == LAGAIN ==> r.pos == |data|)
            && (r.code in {LOK, HEADER_DONE} ==> p < r.pos <= |data|)
            && |r.h.ring| == RING && 0 <= r.h.index < RING
            && (r.code == LAGAIN ==> WellFormed(r.h, |data|))
            && (r.code in {LOK, HEADER_DONE} ==> r.h.state == Start)
    decreases |data| - p
  {
    hide Run, Step;
    if p == |data| {
      AtEnd(env, h, data);
    } else {
      Turn(env, h, data, p);
      match Step(env, h, data, p)
      case Next(h') => AgainAtEnd(env, h', data, p + 1);
      case _ =>
    }
  }

  /** A turn looks at no byte beyond its own. */
  lemma StepIsLocal(env: Env, h: Header, data: Bytes, more: Bytes, p: nat)
    requires p < |data| && WellFormed(h, p)
    ensures Step(env, h, data + more, p) == Step(env, h, data, p)
  {
    hide StepValue, StepStart;
    if h.state == Name {
      assert (data + more)[h.nameStart..p] == data[h.nameStart..p];
    }
  }

  /** More bytes change nothing once a call has ended; until then the next call takes over. */
  lemma {:induction false} Resume(env: Env, h: Header, data: Bytes, more: Bytes, p: nat)
    requires p <= |data| && WellFormed(h, p)
    ensures var r := Run(env, h, data, p);
            if r.code == LAGAIN
            then WellFormed(r.h, |data|) && Run(env, r.h, data + more, |data|) == Run(env, h, data + more, p)
            else r == Run(env, h, data + more, p)
    decreases |data| - p
  {
    hide Run, Step;
    AgainAtEnd(env, h, data, p);
    if p == |data| {
      AtEnd(env, h, data);
    } else {
      StepIsLocal(env, h, data, more, p);
      Turn(env, h, data, p);
      Turn(env, h, data + more, p);
      match Step(env, h, data, p)
      case Next(h') => Resume(env, h', data, more, p + 1);
      case _ =>
    }
  }

  /** The same in all that a call with this code saves. */
  predicate SameOutcome(a: Result, b: Result) {
    && a.code == b.code
    && a.h.(state := Start, hash := 0, index := 0) == b.h.(state := Start, hash := 0, index := 0)
    && (a.code in {LOK, LAGAIN} ==> a == b)
    && (a.code == HEADER_DONE ==> a.pos == b.pos && a.h.state == b.h.state)
  }

  /** However the input is cut into pieces, the outcome is that of one call on all of it. */
  lemma {:induction false} PiecewiseIsWhole(env: Env, h: Header, data: Bytes, p: nat, pieces: seq<Bytes>)
    requires p <= |data| && WellFormed(h, p)
    ensures SameOutcome(Calls(env, h, data, p, pieces), Call(env, h, data + Concat(pieces), p))
    decreases |pieces|
  {
    hide Run;
    var r := Call(env, h, data, p);
    if pieces == [] {
      assert data + Concat(pieces) == data;
    } else {
      Resume(env, h, data, Concat(pieces), p);
      if r.code == LAGAIN {
        PiecewiseIsWhole(env, r.h, data + pieces[0], |data|, pieces[1..]);
        assert data + Concat(pieces) == data + pieces[0] + Concat(pieces[1..]);
      }
    }
  }
}
