/**
 When http_process_request_line comes back at all (http.c:329-350). It calls itself once for every
 request of the buffer, and between two calls the header loop runs, which ends on a complete block only.
 */
module RequestLoops {
  import opened Bytes
  import opened Texts
  import opened ParserState
  import opened HeaderBlocks
  import RL = RequestLine
  import RR = RequestRuns
  import RP = RequestProperties
  import G = RequestGrammar
  import Lang = RequestLanguage
  import HL = HeaderLine
  import HT = HeaderLanguage

  /** Line and headers of a request object between two requests, at p. */
  predicate Ready(l: RL.Line, h: HL.Header, data: Bytes, p: nat) {
    p <= |data| && l.state == Start && h.state == Start && HL.WellFormed(h, p)
  }

  lemma LineFits(l: RL.Line, data: Bytes, p: nat)
    requires p <= |data| && l.state == Start
    ensures var r := RP.Call(l, data, p);
            r.code == LOK ==> p <= r.pos <= |data| && r.line.state == Start
  {
    hide RL.Run, Occurs, G.Text, G.Valid;
    RP.AgainAtEnd(l, data, p);
    if RL.Run(l, data, p).code == LOK {
      var t := Lang.Soundness(l, data, p);
      Lang.Completeness(l, data, p, t);
    }
  }

  /** The function comes back after at most n calls of itself. */
  ghost predicate Returns(l: RL.Line, h: HL.Header, data: Bytes, p: nat, n: nat)
    requires Ready(l, h, data, p)
    decreases n, 1
  {
    n > 0 &&
    var r := RP.Call(l, data, p);
    LineFits(l, data, p);
    r.code == LOK ==> exists k :: HeadersThenReturns(r.line, h, data, r.pos, k, n)
  }

  /** The header loop ends after k calls of the parser, and then the function comes back. */
  ghost predicate HeadersThenReturns(l: RL.Line, h: HL.Header, data: Bytes, p: nat, k: nat, n: nat)
    requires Ready(l, h, data, p) && n > 0
    decreases n, 0
  {
    EndsWithin(h, data, p, k) &&
    var e := LoopEnd(h, data, p, k);
    Returns(l, e.h, data, e.pos, n - 1)
  }

  /** The lines and the blank line of a block stand at p. */
  predicate Block(data: Bytes, p: nat, lines: seq<HT.HeaderText>, blank: Eol) {
    ValidLines(lines) && Occurs(data, p, BlockText(lines, blank))
  }

  /** Behind every line that is accepted from p on there is a complete block of headers. */
  ghost predicate AllComplete(l: RL.Line, data: Bytes, p: nat)
    requires p <= |data|
    decreases |data| - p, 1
  {
    forall t :: Lang.AcceptedInto(l, t) && Occurs(data, p, G.Text(t)) ==>
                  CompleteBehind(l, data, p, t)
  }

  ghost predicate CompleteBehind(l: RL.Line, data: Bytes, p: nat, t: G.Request)
    requires p <= |data| && Lang.AcceptedInto(l, t) && Occurs(data, p, G.Text(t))
    decreases |data| - p, 0
  {
    var q := p + |G.Text(t)|;
    exists lines, blank ::
      && Block(data, q, lines, blank)
      && AllComplete(Lang.Recorded(l, data, p, t), data, q + |BlockText(lines, blank)|)
  }

  /** The call on a line that is accepted. */
  lemma AcceptedCall(l: RL.Line, data: Bytes, p: nat, t: G.Request)
    requires p <= |data| && l.state == Start && Lang.AcceptedInto(l, t) && Occurs(data, p, G.Text(t))
    ensures p + |G.Text(t)| <= |data|
    ensures RP.Call(l, data, p) == RL.Result(LOK, Lang.Recorded(l, data, p, t), p + |G.Text(t)|)
  {
    hide RL.Run, Occurs, G.Text, Lang.Recorded;
    Lang.Completeness(l, data, p, t);
  }

  /** Each turn of the function costs one call, and a complete block lets the header loop end. */
  lemma {:induction false} ReturnsIf(l: RL.Line, h: HL.Header, data: Bytes, p: nat) returns (n: nat)
    requires Ready(l, h, data, p) && AllComplete(l, data, p)
    ensures Returns(l, h, data, p, n)
    decreases |data| - p
  {
    hide RP.Call, Occurs, G.Text, G.Valid, Lang.Recorded, EndsWithin, LoopEnd, BlockText, AllComplete;
    LineFits(l, data, p);
    var r := RP.Call(l, data, p);
    n := 1;
    if r.code == LOK {
      var t, lines, blank := NextBlock(l, data, p);
      EndsOnBlock(h, data, r.pos, lines, blank);
      var k := |lines| + 1;
      var e := LoopEnd(h, data, r.pos, k);
      var m := ReturnsIf(r.line, e.h, data, e.pos);
      n := m + 1;
      assert HeadersThenReturns(r.line, h, data, r.pos, k, n);
    }
  }

  lemma TextNotEmpty(t: G.Request)
    requires G.Valid(t)
    ensures |G.Text(t)| > 0
  {
    hide G.TargetText, G.TailText, G.ValidTarget, G.ValidTail;
  }

  lemma AcceptedLine(l: RL.Line, data: Bytes, p: nat) returns (t: G.Request)
    requires p <= |data| && l.state == Start && RP.Call(l, data, p).code == LOK
    ensures Lang.AcceptedInto(l, t) && Occurs(data, p, G.Text(t)) && |G.Text(t)| > 0
  {
    hide RL.Run, Occurs, G.Text, G.Valid, Lang.Recorded;
    t := Lang.Soundness(l, data, p);
    Lang.Completeness(l, data, p, t);
    TextNotEmpty(t);
  }

  lemma BlockFits(data: Bytes, p: nat, lines: seq<HT.HeaderText>, blank: Eol)
    requires Block(data, p, lines, blank)
    ensures p < p + |BlockText(lines, blank)| <= |data|
  {
  }

  /** The line that a call has accepted, and the block behind it. */
  lemma NextBlock(l: RL.Line, data: Bytes, p: nat) returns (t: G.Request, lines: seq<HT.HeaderText>, blank: Eol)
    requires p <= |data| && l.state == Start && AllComplete(l, data, p) && RP.Call(l, data, p).code == LOK
    ensures var r := RP.Call(l, data, p);
            && p < r.pos <= |data| && r.line.state == Start
            && Block(data, r.pos, lines, blank) && r.pos + |BlockText(lines, blank)| <= |data|
            && AllComplete(r.line, data, r.pos + |BlockText(lines, blank)|)
  {
    hide RP.Call, G.Text, G.Valid, Lang.Recorded, BlockText, ValidLines;
    t := AcceptedLine(l, data, p);
    AcceptedCall(l, data, p, t);
    LineFits(l, data, p);
    assert CompleteBehind(l, data, p, t);
    lines, blank :| Block(data, p + |G.Text(t)|, lines, blank)
                    && AllComplete(Lang.Recorded(l, data, p, t), data, p + |G.Text(t)| + |BlockText(lines, blank)|);
  }

  /** If the function comes back, the header loop has ended behind every accepted line. */
  lemma {:induction false} CompleteIfReturns(l: RL.Line, h: HL.Header, data: Bytes, p: nat, n: nat)
    requires Ready(l, h, data, p) && Returns(l, h, data, p, n)
    ensures AllComplete(l, data, p)
    decreases n
  {
    hide RP.Call, Occurs, G.Text, G.Valid, Lang.Recorded, EndsWithin, LoopEnd, BlockText, CompleteBehind, ValidLines;
    forall t | Lang.AcceptedInto(l, t) && Occurs(data, p, G.Text(t))
      ensures CompleteBehind(l, data, p, t)
    {
      BlockBehind(l, h, data, p, n, t);
    }
  }

  lemma {:induction false} BlockBehind(l: RL.Line, h: HL.Header, data: Bytes, p: nat, n: nat, t: G.Request)
    requires Ready(l, h, data, p) && Returns(l, h, data, p, n)
    requires Lang.AcceptedInto(l, t) && Occurs(data, p, G.Text(t))
    ensures CompleteBehind(l, data, p, t)
    decreases n, 0
  {
    hide RP.Call, Occurs, G.Text, G.Valid, Lang.Recorded, Lang.AcceptedInto, EndsWithin, LoopEnd, BlockText, AllComplete,
         ValidLines;
    AcceptedCall(l, data, p, t);
    LineFits(l, data, p);
    var r := RP.Call(l, data, p);
    var k :| HeadersThenReturns(r.line, h, data, r.pos, k, n);
    var e := LoopEnd(h, data, r.pos, k);
    var lines, blank := BlockIfEnds(h, data, r.pos, k);
    CompleteIfReturns(r.line, e.h, data, e.pos, n - 1);
    assert Block(data, r.pos, lines, blank);
  }

  /** http_process_request_line comes back if and only if every line it accepts has its headers complete behind it. */
  lemma {:induction false} ReturnsExactly(l: RL.Line, h: HL.Header, data: Bytes, p: nat)
    requires Ready(l, h, data, p)
    ensures (exists n :: Returns(l, h, data, p, n)) <==> AllComplete(l, data, p)
  {
    hide Returns, AllComplete;
    if n :| Returns(l, h, data, p, n) {
      CompleteIfReturns(l, h, data, p, n);
    }
    if AllComplete(l, data, p) {
      var n := ReturnsIf(l, h, data, p);
    }
  }

  /** A buffer that ends with its request line: the function does not come back. */
  lemma NeverReturns(l: RL.Line, h: HL.Header, t: G.Request, n: nat)
    requires Lang.AcceptedInto(l, t) && Ready(l, h, G.Text(t), 0)
    ensures !Returns(l, h, G.Text(t), 0, n)
  {
    hide Occurs, G.Text, Returns, Lang.AcceptedInto, Lang.Recorded;
    var data := G.Text(t);
    OccursWhole(data);
    if Returns(l, h, data, 0, n) {
      CompleteIfReturns(l, h, data, 0, n);
      assert CompleteBehind(l, data, 0, t);
      var lines, blank :| Block(data, |data|, lines, blank);
      BlockFits(data, |data|, lines, blank);
    }
  }

  // ---------- rewriting behind the parsers ----------

  /** The same bytes from q on: all that in-place lowercasing of earlier headers leaves alone. */
  predicate SameFrom(data: Bytes, data': Bytes, q: nat) { q <= |data| == |data'| && data[q..] == data'[q..] }

  lemma SameByte(data: Bytes, data': Bytes, q: nat, p: nat)
    requires SameFrom(data, data', q) && q <= p < |data|
    ensures data[p] == data'[p]
  {
    assert data[q..][p - q] == data'[q..][p - q];
  }

  /** A name that is being read begins here or has begun before. */
  lemma NameBegins(l: RL.Line, data: Bytes, p: nat)
    requires p < |data| && RL.WellFormed(l, p)
    ensures var m := RL.Step(l, data, p);
            (m.Next? || m.Back?) && m.line.state == Method ==>
              m.line.requestStart == if l.state == Method then l.requestStart else p
  {
    hide RL.MethodCode;
  }

  lemma LineStepBehind(l: RL.Line, data: Bytes, data': Bytes, q: nat, p: nat)
    requires SameFrom(data, data', q) && q <= p < |data| && RL.WellFormed(l, p)
    requires l.state == Method ==> q <= l.requestStart
    ensures RL.Step(l, data, p) == RL.Step(l, data', p)
    ensures var m := RL.Step(l, data, p);
            (m.Next? || m.Back?) && m.line.state == Method ==> q <= m.line.requestStart
  {
    hide RL.StepSchema, RL.StepHost, RL.StepPath, RL.StepUri, RL.StepHttp09, RL.StepProtocol, RL.StepVersion, RL.MethodCode;
    SameByte(data, data', q, p);
    NameBegins(l, data, p);
    if l.state == Method {
      TailSlice(data, l.requestStart, p - l.requestStart);
      TailSlice(data', l.requestStart, p - l.requestStart);
      assert data[l.requestStart..] == data[q..][l.requestStart - q..];
      assert data'[l.requestStart..] == data'[q..][l.requestStart - q..];
    }
  }

  lemma {:induction false} LineRunBehind(l: RL.Line, data: Bytes, data': Bytes, q: nat, p: nat)
    requires SameFrom(data, data', q) && q <= p <= |data| && RL.WellFormed(l, p)
    requires l.state == Method ==> q <= l.requestStart
    ensures RL.Run(l, data, p) == RL.Run(l, data', p)
    decreases |data| - p, RL.Backs(l.state)
  {
    hide RL.Run, RL.Step;
    if p == |data| {
      RR.AtEnd(l, data);
      RR.AtEnd(l, data');
    } else {
      LineStepBehind(l, data, data', q, p);
      RR.Turn(l, data, p);
      RR.Turn(l, data', p);
      match RL.Step(l, data, p)
      case Next(l') => LineRunBehind(l', data, data', q, p + 1);
      case Back(l') => LineRunBehind(l', data, data', q, p);
      case _ =>
    }
  }

  lemma {:induction false} HeaderRunBehind(h: HL.Header, data: Bytes, data': Bytes, p: nat)
    requires SameFrom(data, data', p) && HL.WellFormed(h, p)
    ensures HL.Run(REQUEST_ENV, h, data, p) == HL.Run(REQUEST_ENV, h, data', p)
    decreases |data| - p
  {
    hide HL.Run;
    if p == |data| {
      HL.AtEnd(REQUEST_ENV, h, data);
      HL.AtEnd(REQUEST_ENV, h, data');
    } else {
      SameByte(data, data', p, p);
      assert data[p + 1..] == data[p..][1..] && data'[p + 1..] == data'[p..][1..];
      HL.Turn(REQUEST_ENV, h, data, p);
      HL.Turn(REQUEST_ENV, h, data', p);
      var m := HL.Step(REQUEST_ENV, h, data, p);
      assert m == HL.Step(REQUEST_ENV, h, data', p);
      if m.Next? {
        HeaderRunBehind(m.h, data, data', p + 1);
      }
    }
  }

  lemma SameLater(data: Bytes, data': Bytes, q: nat, p: nat)
    requires SameFrom(data, data', q) && q <= p <= |data|
    ensures SameFrom(data, data', p)
  {
    assert data[p..] == data[q..][p - q..] && data'[p..] == data'[q..][p - q..];
  }

  lemma {:induction false} LoopBehind(h: HL.Header, data: Bytes, data': Bytes, p: nat, k: nat)
    requires SameFrom(data, data', p) && HL.WellFormed(h, p)
    ensures EndsWithin(h, data, p, k) == EndsWithin(h, data', p, k)
    ensures EndsWithin(h, data, p, k) ==> LoopEnd(h, data, p, k) == LoopEnd(h, data', p, k)
    decreases k
  {
    hide HL.Run, SameFrom;
    if k > 0 {
      HeaderRunBehind(h, data, data', p);
      Lengths(data, data', p);
      NextCallFits(h, data, p);
      var r := HL.Call(REQUEST_ENV, h, data, p);
      SameLater(data, data', p, r.pos);
      LoopBehind(r.h, data, data', r.pos, k - 1);
    }
  }

  lemma Lengths(data: Bytes, data': Bytes, p: nat)
    requires SameFrom(data, data', p)
    ensures p <= |data| == |data'|
  {
  }

  /** What stands in front of p, and may have been lowercased there, has no say in whether the function comes back. */
  lemma {:induction false} ReturnsBehind(l: RL.Line, h: HL.Header, data: Bytes, data': Bytes, p: nat, n: nat)
    requires SameFrom(data, data', p) && Ready(l, h, data, p) && Returns(l, h, data, p, n)
    ensures Ready(l, h, data', p) && Returns(l, h, data', p, n)
    decreases n
  {
    hide RL.Run, SameFrom, EndsWithin, LoopEnd;
    Lengths(data, data', p);
    LineRunBehind(l, data, data', p, p);
    LineFits(l, data, p);
    var r := RP.Call(l, data, p);
    if r.code == LOK {
      var k :| HeadersThenReturns(r.line, h, data, r.pos, k, n);
      SameLater(data, data', p, r.pos);
      LoopBehind(h, data, data', r.pos, k);
      var e := LoopEnd(h, data, r.pos, k);
      SameLater(data, data', r.pos, e.pos);
      ReturnsBehind(r.line, e.h, data, data', e.pos, n - 1);
      assert HeadersThenReturns(r.line, h, data', r.pos, k, n);
    }
  }
}
