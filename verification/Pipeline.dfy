/**
 http_process_request_line on a connection: request after request is parsed, rewritten in place and
 handed on as a gather list, with one request object for all of them.
 */
module Pipelines {
  import opened Bytes
  import opened Texts
  import opened ParserState
  import opened Buffers
  import opened HeaderBlocks
  import opened Chains
  import opened Requests
  import opened RoundTrips
  import RL = RequestLine
  import RU = RequestReuse
  import Stale = StaleRequests
  import RP = RequestProperties
  import RQ = RequestPath
  import RR = RequestRuns
  import G = RequestGrammar
  import HL = HeaderLine
  import HT = HeaderLanguage
  import Http
  import SL = StatusLine
  import ST = StatusLanguage

  /** A request with its header lines. */
  datatype Message = Message(line: G.Request, headers: seq<HT.HeaderText>)

  predicate Canonical(m: Message) {
    CanonicalRequest(m.line) && m.headers != [] && CanonicalLines(m.headers)
  }

  function Input(m: Message): Bytes { G.Text(m.line) + BlockText(m.headers, CrLf) }

  function Output(m: Message): Bytes { RequestOutput(m.line, m.headers) }

  function Inputs(ms: seq<Message>): Bytes {
    if ms == [] then [] else Input(ms[0]) + Inputs(ms[1..])
  }

  function Outputs(ms: seq<Message>): seq<Bytes> {
    if ms == [] then [] else [Output(ms[0])] + Outputs(ms[1..])
  }

  /** "Name: v" with one space and CR LF. */
  function Field(name: Bytes, value: Bytes): HT.HeaderText { HT.HeaderText(name, Some([SP] + value), 1) }

  /** A request with a Host line is canonical: its hash is another than the one taken for Host. */
  lemma HostIsCanonical()
    ensures Canonical(Message(Stale.Get([], CrLf), [Field([72, 111, 115, 116], [97])]))
  {
    var t := Field([72, 111, 115, 116], [97]);
    assert LowerAll(t.name) == HOST;
    HostHashMisses(t.name);
    SlashIsPlain();
  }

  lemma SlashIsPlain()
    ensures G.PathText(Some([])) == [SLASH] && RQ.PlainUri([SLASH], 0, 1)
  {
    FirstGrows([SLASH], 0, 0, QMARK);
  }

  /** A request object at the start of a line, new or used. */
  ghost predicate Ready(r: Request, b: Buffer)
    reads r, r.lowcaseHeader, b
  {
    !r.complexUri && !r.quotedUri && Http.BetweenLines(r, b)
  }

  /** The strings of the request line, and the elements that the lines at q will become, print the message. */
  predicate Prints(data: Bytes, q: nat, name: Str, uri: Str, protocol: Str, m: Message) {
    && q + |LinesText(m.headers)| <= |data|
    && var (data', es) := BlockEffect(HOST_HASH, data, q, m.headers);
       var iovs := RequestIovs(name, uri, protocol, es);
       var end := q + |BlockText(m.headers, CrLf)|;
       && |iovs| == 3 + 2 * |m.headers| && Flatten(data', iovs) == Output(m)
       && end <= |data'| == |data| && data'[end..] == data[end..]
  }

  lemma {:induction false} LinePrints(l: RL.Line, data: Bytes, p: nat, m: Message)
    requires RU.Reusable(l) && Canonical(m) && Occurs(data, p, Input(m))
    ensures p <= |data|
    ensures var r := RL.Run(l, data, p);
            && r.code == LOK && r.pos == p + |G.Text(m.line)| && r.line.requestEnd.At?
            && RU.Reusable(r.line) && r.line.requestStart == p + |m.line.lead|
            && Prints(data, r.pos, NameStr(r.line), UriStr(r.line), ProtocolStr(r.line), m)
  {
    hide RL.Run, BlockEffect, Flatten, RequestOutput, CanonicalRequest, CanonicalLines, RequestIovs, BlockText, Occurs, G.Text;
    RequestRoundTrip(l, data, p, m.line, m.headers);
  }

  /** What a parsed line has to say for the message to be printed from q. */
  predicate Parsed(l: RL.Line, data: Bytes, q: nat, start: nat, m: Message) {
    && l.requestEnd.At? && RU.Reusable(l) && l.requestStart == start
    && Prints(data, q, NameStr(l), UriStr(l), ProtocolStr(l), m)
  }

  lemma {:induction false} LineParsed(l: RL.Line, data: Bytes, p: nat, m: Message)
    requires RU.Reusable(l) && Canonical(m) && Occurs(data, p, Input(m))
    ensures p <= |data|
    ensures var r := RP.Call(l, data, p);
            r.code == LOK && r.pos == p + |G.Text(m.line)| && Parsed(r.line, data, r.pos, p + |m.line.lead|, m)
  {
    hide RL.Run, Prints, Canonical, Occurs, G.Text, Input;
    LinePrints(l, data, p, m);
  }

  /** The parser takes in the next line of a stream, or asks for more at its end. */
  predicate NextLine(r: RL.Result, data: Bytes, p: nat, ms: seq<Message>) {
    && RU.Reusable(r.line)
    && if ms == [] then r.code == LAGAIN && r.pos == p
       else r.code == LOK && r.pos == p + |G.Text(ms[0].line)|
            && Parsed(r.line, data, r.pos, p + |ms[0].line.lead|, ms[0])
  }

  lemma LineOrEnd(l: RL.Line, data: Bytes, p: nat, ms: seq<Message>)
    requires RU.Reusable(l)
    requires if ms == [] then p == |data| else Canonical(ms[0]) && Occurs(data, p, Input(ms[0]))
    ensures p <= |data| && NextLine(RP.Call(l, data, p), data, p, ms)
  {
    hide RL.Run, Prints, Canonical, Occurs, G.Text, Input;
    if ms == [] {
      RR.AtEnd(l, data);
    } else {
      LineParsed(l, data, p, ms[0]);
    }
  }

  lemma StartsLine(r: Request, b: Buffer)
    requires Ready(r, b)
    ensures RU.Reusable(r.Line(r.state)) && 0 <= r.lowcaseIndex < HL.RING == r.lowcaseHeader.Length
  {
  }

  lemma CleanLine(res: RL.Result, data: Bytes, p: nat, ms: seq<Message>)
    requires NextLine(res, data, p, ms)
    ensures RU.Reusable(res.line)
  {
  }

  lemma StillReady(r: Request, b: Buffer)
    requires b.Valid() && b.start != r.lowcaseHeader && !r.upstream
    requires RU.Reusable(r.Line(r.state)) && 0 <= r.lowcaseIndex < HL.RING == r.lowcaseHeader.Length
    ensures Ready(r, b)
  {
  }

  /** The parser is called on what is left of a stream of requests. */
  method ReadRequestLine(r: Request, b: Buffer, ghost ms: seq<Message>) returns (rc: int)
    requires Ready(r, b)
    requires if ms == [] then b.pos == b.last else Canonical(ms[0]) && Occurs(b.Seen(), b.pos, Input(ms[0]))
    modifies b`pos, r`state, r`requestStart, r`methodEnd, r`methodCode, r`schemaStart, r`schemaEnd,
             r`hostStart, r`hostEnd, r`portEnd, r`uriStart, r`uriEnd, r`uriExt,
             r`argsStart, r`complexUri, r`quotedUri, r`plusInUri, r`spaceInUri,
             r`protocol, r`httpMajor, r`httpMinor, r`requestEnd, r`httpVersion
    ensures Ready(r, b) && NextLine(RL.Result(rc, r.Line(r.state), b.pos), b.Seen(), old(b.pos), ms)
  {
    hide RP.Call, NextLine, Canonical, Occurs, Input, HL.WellFormed, RU.Reusable;
    StartsLine(r, b);
    LineOrEnd(r.Line(r.state), b.Seen(), b.pos, ms);
    ghost var turns;
    rc, turns := r.ParseRequestLine(b);
    CleanLine(RL.Result(rc, r.Line(r.state), b.pos), b.Seen(), old(b.pos), ms);
    StillReady(r, b);
  }

  /** The same said of the fields of the request. */
  lemma ParsedIs(r: Request, b: Buffer, start: nat, m: Message)
    requires b.Valid() && Parsed(r.Line(r.state), b.Seen(), b.pos, start, m)
    ensures r.requestEnd.At? && r.requestStart == start && !r.complexUri && !r.quotedUri
    ensures Prints(b.Seen(), b.pos, Str(r.methodEnd - r.requestStart + 1, r.requestStart),
                   Str(r.uriEnd - r.uriStart, r.uriStart), Str(r.requestEnd.pos - r.protocol, r.protocol), m)
  {
    hide Prints;
  }

  /** The boundaries of the line just parsed become strings. */
  method NameParts(r: Request, b: Buffer, ghost start: nat, ghost m: Message)
    requires Ready(r, b) && Parsed(r.Line(r.state), b.Seen(), b.pos, start, m)
    modifies r`requestLine, r`methodName, r`protocolLength, r`uri, r`unparsedUri, r`validUnparsedUri, r`requestLength
    ensures Ready(r, b)
    ensures r.requestLength == b.pos - r.requestStart && r.requestStart == start
    ensures Prints(b.Seen(), b.pos, r.methodName, r.uri, Str(r.protocolLength, r.protocol), m)
  {
    hide Prints, Parsed, HL.WellFormed;
    ParsedIs(r, b, start, m);
    Http.RequestLineParsed(r, b);
  }

  lemma {:induction false} PrintsMeans(data: Bytes, q: nat, name: Str, uri: Str, protocol: Str, m: Message)
    requires Prints(data, q, name, uri, protocol, m)
    ensures q + |LinesText(m.headers)| <= |data|
    ensures var (data', es) := BlockEffect(HOST_HASH, data, q, m.headers);
            var iovs := RequestIovs(name, uri, protocol, es);
            var end := q + |BlockText(m.headers, CrLf)|;
            && |iovs| == 3 + 2 * |m.headers| && Flatten(data', iovs) == Output(m)
            && end <= |data'| == |data| && data'[end..] == data[end..]
  {
    hide BlockEffect, Flatten, RequestIovs, Output, BlockText;
  }

  lemma Parts(data: Bytes, p: nat, m: Message)
    requires Canonical(m) && Occurs(data, p, Input(m))
    ensures ValidLines(m.headers) && Occurs(data, p + |G.Text(m.line)|, BlockText(m.headers, CrLf))
    ensures |Input(m)| == |G.Text(m.line)| + |BlockText(m.headers, CrLf)|
    ensures |BlockText(m.headers, CrLf)| == |LinesText(m.headers)| + 2
  {
    hide Occurs, G.Text, CanonicalRequest;
    OccursConcat(data, p, G.Text(m.line), BlockText(m.headers, CrLf));
    forall i | 0 <= i < |m.headers|
      ensures HT.ValidText(m.headers[i])
    {
      assert CanonicalLine(m.headers[i]);
    }
  }

  /** The headers behind a parsed line, and the gather list (http.c:340-342). */
  method TakeHeaders(r: Request, b: Buffer, ghost m: Message) returns (head: Chain, ghost nodes: seq<Chain>)
    requires Ready(r, b) && Canonical(m)
    requires ValidLines(m.headers) && Occurs(b.Seen(), b.pos, BlockText(m.headers, CrLf))
    requires Prints(b.Seen(), b.pos, r.methodName, r.uri, Str(r.protocolLength, r.protocol), m)
    modifies b`pos, b.start, r`state, r`headerHash, r`lowcaseIndex, r`headerNameStart, r`headerNameEnd,
             r`headerStart, r`headerEnd, r`invalidHeader, r`headerLength, r.lowcaseHeader,
             r`elementHead, r`elementTail, r`requestLength
    ensures Ready(r, b) && b.pos == old(b.pos) + |BlockText(m.headers, CrLf)|
    ensures b.Seen()[b.pos..] == old(b.Seen())[b.pos..] && |b.Seen()| == |old(b.Seen())|
    ensures r.requestLength == old(r.requestLength) + |LinesText(m.headers)|
    ensures Chained(nodes) && nodes != [] && nodes[0] == head && |nodes| == 3 + 2 * |m.headers| == head.chainLen
    ensures Flatten(b.Seen(), Iovs(nodes)) == Output(m)
  {
    hide Prints, Canonical, Occurs, HL.WellFormed, ValidLines, BlockText, LinesText, BlockEffect, Linked,
         Flatten, Output, Iovs, Chained, RequestIovs, Contents;
    PrintsMeans(b.Seen(), b.pos, r.methodName, r.uri, Str(r.protocolLength, r.protocol), m);
    var rc;
    ghost var elems;
    rc, elems := Http.ProcessRequestHeaders(r, b, m.headers, CrLf);
    head, nodes := ConstructRequestChains(r, elems);
  }

  /** The strings, the headers and the gather list of a request whose line has just been parsed. */
  method Finish(r: Request, b: Buffer, ghost p: nat, ghost m: Message) returns (head: Chain, ghost nodes: seq<Chain>)
    requires Ready(r, b) && Canonical(m) && Occurs(b.Seen(), p, Input(m)) && b.pos == p + |G.Text(m.line)|
    requires Parsed(r.Line(r.state), b.Seen(), b.pos, p + |m.line.lead|, m)
    modifies b`pos, b.start, r, r.lowcaseHeader
    ensures Ready(r, b) && b.pos == p + |Input(m)|
    ensures b.Seen()[b.pos..] == old(b.Seen())[b.pos..] && |b.Seen()| == |old(b.Seen())|
    ensures r.requestStart == p + |m.line.lead| && r.requestStart + r.requestLength + 2 == b.pos
    ensures Chained(nodes) && nodes != [] && nodes[0] == head && |nodes| == 3 + 2 * |m.headers| == head.chainLen
    ensures Flatten(b.Seen(), Iovs(nodes)) == Output(m)
  {
    hide Prints, Canonical, Occurs, G.Text, Input, HL.WellFormed, ValidLines, BlockText, LinesText,
         Flatten, Output, Iovs, Chained, Parsed;
    Parts(b.Seen(), p, m);
    NameParts(r, b, p + |m.line.lead|, m);
    head, nodes := TakeHeaders(r, b, m);
  }

  /** The first of the requests still to come, and the others behind it. */
  lemma StreamStart(data: Bytes, p: nat, ms: seq<Message>)
    requires p <= |data| && data[p..] == Inputs(ms)
    ensures ms == [] ==> p == |data|
    ensures ms != [] ==>
              && Occurs(data, p, Input(ms[0])) && p + |Input(ms[0])| <= |data|
              && data[p + |Input(ms[0])|..] == Inputs(ms[1..])
  {
    hide Input;
    if ms != [] {
      var a, rest := Input(ms[0]), Inputs(ms[1..]);
      assert data[p..] == a + rest;
      TailSlice(data, p, |a|);
      assert data[p..][..|a|] == a && data[p..][|a|..] == rest;
    }
  }

  /**
   http_process_request_line on a stream of canonical requests: every one is handed on with the bytes
   its gather list points at, in order, and then the parser waits for more. The call at the end is
   the one by which the source comes to the next request.
   */
  method ProcessRequestLine(r: Request, b: Buffer, ghost ms: seq<Message>) returns (rc: int, ghost sent: seq<Bytes>)
    requires Ready(r, b) && forall i :: 0 <= i < |ms| ==> Canonical(ms[i])
    requires b.Seen()[b.pos..] == Inputs(ms)
    modifies b`pos, b.start, r, r.lowcaseHeader
    ensures rc == LAGAIN && sent == Outputs(ms)
    ensures Ready(r, b) && b.pos == b.last == old(b.last)
    decreases |ms|
  {
    hide Canonical, Occurs, Input, Inputs, Output, HL.WellFormed, Flatten, Iovs, Chained, Parsed, G.Text;
    StreamStart(b.Seen(), b.pos, ms);
    rc := ReadRequestLine(r, b, ms);
    sent := [];
    if rc == LOK {
      var head;
      ghost var nodes;
      head, nodes := Finish(r, b, old(b.pos), ms[0]);
      ghost var first := Flatten(b.Seen(), Iovs(nodes));
      rc, sent := ProcessRequestLine(r, b, ms[1..]);
      sent := [first] + sent;
    }
  }

  // ---------- responses ----------

  /** A status line with its header lines. */
  datatype Reply = Reply(line: ST.StatusTree, headers: seq<HT.HeaderText>)

  predicate CanonicalReply(m: Reply) {
    ST.Valid(m.line) && m.line.eol == CrLf && m.headers != [] && CanonicalLines(m.headers)
  }

  function ReplyInput(m: Reply): Bytes { ST.Text(m.line) + BlockText(m.headers, CrLf) }

  /** A response with a one-letter field is canonical. */
  lemma OkIsCanonical()
    ensures CanonicalReply(Reply(ST.OK_LINE, [Field([65], [98])]))
  {
    hide Hash;
    var t := Field([65], [98]);
    assert LowerAll(t.name) == [97];
    HashNone();
    HashOf([], 97, 0);
    assert [] + [97] == [97];
    HostHashMisses(HOST);
  }

  /** The parsed status line and the lines at q will print the reply. */
  predicate Replies(s: SL.Status, data: Bytes, q: nat, m: Reply) {
    && s.end.At? && s.state == Start
    && s.code == ST.CodeOf(m.line) && s.version == 1000 * Dec(m.line.major) + Dec(m.line.minor)
    && q + |LinesText(m.headers)| <= |data|
    && var (data', es) := BlockEffect(HOST_HASH, data, q, m.headers);
       var iovs := ResponseIovs(StatusStr(s), es);
       |iovs| == 1 + 2 * |m.headers| && Flatten(data', iovs) == ResponseOutput(m.line, m.headers)
  }

  lemma StatusReplies(s: SL.Status, data: Bytes, p: nat, m: Reply)
    requires ST.Fresh(s) && CanonicalReply(m) && Occurs(data, p, ReplyInput(m))
    ensures p <= |data|
    ensures var r := SL.Call(s, data, p);
            r.code == LOK && r.pos == p + |ST.Text(m.line)| && Replies(r.s, data, r.pos, m)
  {
    hide SL.Run, BlockEffect, Flatten, ResponseOutput, ResponseIovs, CanonicalLines, Occurs, BlockText, ST.Valid, ST.Text,
         ST.CodeOf, Dec;
    ResponseRoundTrip(s, data, p, m.line, m.headers);
    StatusEnds(s, data, p, m);
  }

  lemma StatusEnds(s: SL.Status, data: Bytes, p: nat, m: Reply)
    requires ST.Fresh(s) && CanonicalReply(m) && Occurs(data, p, ReplyInput(m))
    ensures p <= |data| && SL.Run(s, data, p).s.state == Start
  {
    hide SL.Run, Occurs, ST.Text, BlockText, ST.CodeOf;
    OccursConcat(data, p, ST.Text(m.line), BlockText(m.headers, CrLf));
    ST.Completeness(s, data, p, m.line);
  }

  lemma ReplyParts(data: Bytes, p: nat, m: Reply)
    requires CanonicalReply(m) && Occurs(data, p, ReplyInput(m))
    ensures ValidLines(m.headers) && Occurs(data, p + |ST.Text(m.line)|, BlockText(m.headers, CrLf))
    ensures |ReplyInput(m)| == |ST.Text(m.line)| + |BlockText(m.headers, CrLf)| && m.headers != []
  {
    hide Occurs, ST.Text, ST.Valid;
    OccursConcat(data, p, ST.Text(m.line), BlockText(m.headers, CrLf));
    forall i | 0 <= i < |m.headers|
      ensures HT.ValidText(m.headers[i])
    {
      assert CanonicalLine(m.headers[i]);
    }
  }

  /** Away from a name, any position will do for a header to start. */
  lemma AnyStart(h: HL.Header, p: nat, q: nat)
    requires h.state == Start && HL.WellFormed(h, p)
    ensures HL.WellFormed(h, q)
  {
  }

  lemma IovCount(line: Str, es: seq<Element>)
    ensures |ResponseIovs(line, es)| == 1 + 2 * |es|
  {
  }

  lemma RepliesMeans(r: Request, data: Bytes, q: nat, m: Reply)
    requires Replies(r.Status(r.state), data, q, m)
    ensures r.statusEnd.At? && r.statusCode == ST.CodeOf(m.line)
    ensures r.statusVersion == 1000 * Dec(m.line.major) + Dec(m.line.minor)
    ensures q + |LinesText(m.headers)| <= |data|
    ensures var (data', es) := BlockEffect(HOST_HASH, data, q, m.headers);
            var iovs := ResponseIovs(Str(r.statusEnd.pos - r.requestStart, r.requestStart), es);
            |iovs| == 1 + 2 * |m.headers| && Flatten(data', iovs) == ResponseOutput(m.line, m.headers)
  {
    hide BlockEffect, ResponseIovs, Flatten, ResponseOutput, LinesText, ST.CodeOf, Dec;
  }

  /** What follows a status line that has been parsed (http.c:298-305). */
  method FinishReply(r: Request, b: Buffer, ghost m: Reply) returns (rc: int, head: Chain?, ghost nodes: seq<Chain>)
    requires Http.BetweenLines(r, b) && m.headers != []
    requires ValidLines(m.headers) && Occurs(b.Seen(), b.pos, BlockText(m.headers, CrLf))
    requires Replies(r.Status(r.state), b.Seen(), b.pos, m)
    modifies b`pos, b.start, r`requestLine, r`protocolLength,
             r`state, r`headerHash, r`lowcaseIndex, r`headerNameStart, r`headerNameEnd,
             r`headerStart, r`headerEnd, r`invalidHeader, r`headerLength, r.lowcaseHeader,
             r`elementHead, r`elementTail, r`requestLength
    ensures rc == LOK && Http.BetweenLines(r, b) && b.pos == old(b.pos) + |BlockText(m.headers, CrLf)|
    ensures r.statusEnd.At? && r.requestLine == Str(r.statusEnd.pos - r.requestStart, r.requestStart)
    ensures r.protocolLength == r.protocolEnd - r.protocol
    ensures r.statusCode == ST.CodeOf(m.line) && r.statusVersion == 1000 * Dec(m.line.major) + Dec(m.line.minor)
    ensures Chained(nodes) && nodes != [] && nodes[0] == head
    ensures |nodes| == 1 + 2 * |m.headers| == head.chainLen
    ensures Flatten(b.Seen(), Iovs(nodes)) == ResponseOutput(m.line, m.headers)
  {
    hide Replies, Occurs, HL.WellFormed, ST.CodeOf, Dec, Flatten, ResponseOutput, ValidLines, BlockText, LinesText,
         BlockEffect, Linked, Iovs, Chained, ResponseIovs, Contents;
    RepliesMeans(r, b.Seen(), b.pos, m);
    r.requestLine := Str(r.statusEnd.pos - r.requestStart, r.requestStart);
    r.protocolLength := r.protocolEnd - r.protocol;
    ghost var elems;
    head, nodes := null, [];
    rc, elems := Http.ProcessRequestHeaders(r, b, m.headers, CrLf);
    if rc == LOK {
      IovCount(r.requestLine, Contents(elems));
      head, nodes := ConstructResponseChains(r, elems);
    }
  }

  /** http_process_response_line (http.c:291-311), up to the list that is sent to the client. */
  method ProcessResponseLine(r: Request, b: Buffer, ghost m: Reply) returns (rc: int, head: Chain?, ghost nodes: seq<Chain>)
    requires Http.BetweenLines(r, b) && ST.Fresh(r.Status(r.state))
    requires CanonicalReply(m) && Occurs(b.Seen(), b.pos, ReplyInput(m))
    modifies b`pos, b.start, r, r.lowcaseHeader
    ensures rc == LOK && Http.BetweenLines(r, b) && b.pos == old(b.pos) + |ReplyInput(m)|
    ensures r.statusEnd.At? && r.requestLine == Str(r.statusEnd.pos - r.requestStart, r.requestStart)
    ensures r.protocolLength == r.protocolEnd - r.protocol
    ensures r.statusCode == ST.CodeOf(m.line) && r.statusVersion == 1000 * Dec(m.line.major) + Dec(m.line.minor)
    ensures Chained(nodes) && nodes != [] && nodes[0] == head
    ensures |nodes| == 1 + 2 * |m.headers| == head.chainLen
    ensures Flatten(b.Seen(), Iovs(nodes)) == ResponseOutput(m.line, m.headers)
  {
    hide CanonicalReply, Occurs, ReplyInput, HL.WellFormed, ST.CodeOf, Dec, SL.Call, Flatten, ResponseOutput,
         ValidLines, BlockText, Iovs, Chained, ST.Text, Replies;
    StatusReplies(r.Status(r.state), b.Seen(), b.pos, m);
    ReplyParts(b.Seen(), b.pos, m);
    head, nodes := null, [];
    rc := r.ParseStatusLine(b);
    if rc == LOK {
      AnyStart(r.SavedHeader(), old(b.pos), b.pos);
      rc, head, nodes := FinishReply(r, b, m);
    }
  }
}
