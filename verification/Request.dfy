/** The request object and its three parsers, which work in place on its fields. */
module Requests {
  import opened Bytes
  import opened ParserState
  import opened Buffers
  import opened HeaderBlocks
  import RL = RequestLine
  import RR = RequestRuns
  import RP = RequestProperties
  import HL = HeaderLine
  import SL = StatusLine

  /** How a turn of a parse loop ends: break, `p--` and break, goto done, goto header_done, return. */
  datatype Verdict = Proceed | GoBack | GotoDone | GotoHeaderDone | Return(code: int)

  function LineMove(v: Verdict, l: RL.Line): RL.Move {
    match v
    case Proceed => RL.Next(l)
    case GoBack => RL.Back(l)
    case Return(code) => RL.Fail(l, code)
    case _ => RL.Done(l)
  }

  function HeaderMove(v: Verdict, h: HL.Header): HL.Move {
    match v
    case Proceed => HL.Next(h)
    case GotoDone => HL.Done(h)
    case GotoHeaderDone => HL.DoneAll(h)
    case _ => HL.Fail(h)
  }

  function StatusMove(v: Verdict, s: SL.Status): SL.Move {
    match v
    case Proceed => SL.Next(s)
    case GotoDone => SL.Done(s)
    case _ => SL.Fail(s)
  }

  /** The loop of the request-line parser has come from l0 at p0 to l at p in so many turns. */
  ghost predicate LineOnTrack(l: RL.Line, data: Bytes, p: nat, l0: RL.Line, p0: nat, turns: nat) {
    && p <= |data| && p0 <= |data| && RL.WellFormed(l, p) && RL.WellFormed(l0, p0)
    && RL.Run(l, data, p) == RL.Run(l0, data, p0)
    && turns + RP.Turns(l, data, p) == RP.Turns(l0, data, p0) <= 2 * (|data| - p0)
  }

  lemma LineStarts(l0: RL.Line, data: Bytes, p0: nat)
    requires p0 <= |data| && RL.WellFormed(l0, p0)
    ensures LineOnTrack(l0, data, p0, l0, p0, 0)
  {
    hide RL.Run, RP.Turns;
    RP.AtMostTwice(l0, data, p0, p0);
  }

  /** One turn more: the loop goes on, or ends with the result of the whole call. */
  lemma LineTurn(l: RL.Line, data: Bytes, p: nat, l0: RL.Line, p0: nat, turns: nat)
    requires LineOnTrack(l, data, p, l0, p0, turns) && p < |data|
    ensures RL.WellFormed(l, p) && p0 <= |data| && RL.WellFormed(l0, p0) && turns + 1 <= 2 * (|data| - p0)
    ensures match RL.Step(l, data, p)
            case Next(l') => LineOnTrack(l', data, p + 1, l0, p0, turns + 1)
            case Back(l') => LineOnTrack(l', data, p, l0, p0, turns + 1) && RL.Backs(l'.state) < RL.Backs(l.state)
            case Done(l') => RP.Call(l0, data, p0) == RL.Finish(l', p)
            case Fail(l', code) => RP.Call(l0, data, p0) == RL.Result(code, l'.To(l0.state), p0)
  {
    hide RL.Run, RP.Turns, RL.Step, RL.WellFormed;
    RR.Turn(l, data, p);
    RP.TurnCounts(l, data, p);
  }

  lemma LineStops(l: RL.Line, data: Bytes, l0: RL.Line, p0: nat, turns: nat)
    requires LineOnTrack(l, data, |data|, l0, p0, turns)
    ensures p0 <= |data| && RL.WellFormed(l0, p0) && turns <= 2 * (|data| - p0)
    ensures RP.Call(l0, data, p0) == RL.Result(LAGAIN, l, |data|)
  {
    hide RL.Run, RP.Turns;
    RR.AtEnd(l, data);
  }

  predicate IsMark(ch: Byte) { ch == PERCENT || ch == QMARK || ch == HASH || ch == PLUS }

  /** struct http_header_element: `lowcaseKey` shares its bytes with `key`. */
  class HeaderElement {
    var hash: int
    var length: int
    var key: Str
    var value: Str
    var lowcaseKey: Str
    var next: HeaderElement?

    constructor (hash: int, key: Str, value: Str)
      ensures this.hash == hash && this.key == key && this.value == value
    {
      this.hash, this.key, this.value := hash, key, value;
    }

    ghost function Content(): Element
      reads this
    {
      Element(hash, length, key, value)
    }
  }

  /** The list from head to tail is `elems`; what the tail links to does not matter. */
  ghost predicate Linked(elems: seq<HeaderElement>, head: HeaderElement?, tail: HeaderElement?)
    reads elems
  {
    && (elems == [] ==> head == null)
    && (elems != [] ==> head == elems[0] && tail == elems[|elems| - 1])
    && (forall i :: 0 <= i < |elems| - 1 ==> elems[i].next == elems[i + 1])
    && (forall i, j :: 0 <= i < j < |elems| ==> elems[i] != elems[j])
  }

  ghost function Contents(elems: seq<HeaderElement>): (r: seq<Element>)
    reads elems
    ensures |r| == |elems| && forall i :: 0 <= i < |elems| ==> r[i] == elems[i].Content()
  {
    if elems == [] then [] else Contents(elems[..|elems| - 1]) + [elems[|elems| - 1].Content()]
  }

  class Request {
    var state: State

    // request line
    var requestStart: int
    var methodEnd: int
    var methodCode: int
    var schemaStart: int
    var schemaEnd: int
    var hostStart: int
    var hostEnd: int
    var portEnd: int
    var uriStart: int
    var uriEnd: int
    var uriExt: Ptr
    var argsStart: Ptr
    var complexUri: bool
    var quotedUri: bool
    var plusInUri: bool
    var spaceInUri: bool
    var protocol: int
    var protocolEnd: int
    var httpMajor: int
    var httpMinor: int
    var requestEnd: Ptr
    var httpVersion: int

    // header lines
    var headerHash: int
    var lowcaseIndex: int
    const lowcaseHeader: array<Byte>
    var headerNameStart: int
    var headerNameEnd: int
    var headerStart: int
    var headerEnd: int
    var invalidHeader: bool
    var headerLength: int
    var upstream: bool

    // what the line and its headers become
    var requestLine: Str
    var methodName: Str
    var protocolLength: int
    var uri: Str
    var unparsedUri: Str
    var validUnparsedUri: bool
    var requestLength: int
    var elementHead: HeaderElement?
    var elementTail: HeaderElement?

    // `status`, the http_status_t of a response
    var statusVersion: int
    var statusCode: int
    var statusCount: int
    var statusStart: int
    var statusEnd: Ptr

    /** http_create_request sets the state of a request, and nothing else a parser reads. */
    constructor ()
      ensures state == Start && fresh(lowcaseHeader) && lowcaseHeader.Length == HL.RING
    {
      state := Start;
      lowcaseHeader := new Byte[HL.RING];
    }

    /** The fields the request-line parser works on, with the state its loop is in. */
    ghost function Line(s: State): RL.Line
      reads this`requestStart, this`methodEnd, this`methodCode, this`schemaStart, this`schemaEnd,
            this`hostStart, this`hostEnd, this`portEnd, this`uriStart, this`uriEnd, this`uriExt,
            this`argsStart, this`complexUri, this`quotedUri, this`plusInUri, this`spaceInUri,
            this`protocol, this`httpMajor, this`httpMinor, this`requestEnd, this`httpVersion
    {
      RL.Line(s, requestStart, methodEnd, methodCode,
              RL.Authority(schemaStart, schemaEnd, hostStart, hostEnd, portEnd),
              RL.UriPart(uriStart, uriEnd, uriExt, argsStart, complexUri, quotedUri, plusInUri, spaceInUri),
              RL.Http(protocol, httpMajor, httpMinor), requestEnd, httpVersion)
    }

    /**
     The switch on the length of the method name data[m..p] (ngx_http_parse.c:161-264): byte by byte,
     and among the four-letter names by their second byte first.
     */
    method ReadMethod(b: Buffer, m: nat, p: nat)
      requires m <= p <= b.start.Length
      modifies this`methodCode
      ensures methodCode == RL.MethodCode(b.start[m..p], old(methodCode))
    {
      var s := b.start;
      ghost var name := s[m..p];
      if p - m == 3 {
        assert name == [s[m], s[m + 1], s[m + 2]];
        if s[m] == 71 && s[m + 1] == 69 && s[m + 2] == 84 { methodCode := RL.METHOD_GET; }
        else if s[m] == 80 && s[m + 1] == 85 && s[m + 2] == 84 { methodCode := RL.METHOD_PUT; }
      } else if p - m == 4 {
        assert name == [s[m], s[m + 1], s[m + 2], s[m + 3]];
        if s[m + 1] == 79 {
          if s[m] == 80 && s[m + 2] == 83 && s[m + 3] == 84 { methodCode := RL.METHOD_POST; }
          else if s[m] == 67 && s[m + 2] == 80 && s[m + 3] == 89 { methodCode := RL.METHOD_COPY; }
          else if s[m] == 77 && s[m + 2] == 86 && s[m + 3] == 69 { methodCode := RL.METHOD_MOVE; }
          else if s[m] == 76 && s[m + 2] == 67 && s[m + 3] == 75 { methodCode := RL.METHOD_LOCK; }
        } else if s[m] == 72 && s[m + 1] == 69 && s[m + 2] == 65 && s[m + 3] == 68 {
          methodCode := RL.METHOD_HEAD;
        }
      } else if p - m == 5 {
        assert name == [s[m], s[m + 1], s[m + 2], s[m + 3], s[m + 4]];
        if Spells(b, m, RL.NAME_MKCOL) { methodCode := RL.METHOD_MKCOL; }
        else if Spells(b, m, RL.NAME_PATCH) { methodCode := RL.METHOD_PATCH; }
        else if Spells(b, m, RL.NAME_TRACE) { methodCode := RL.METHOD_TRACE; }
      } else if p - m == 6 {
        if Spells(b, m, RL.NAME_DELETE) { methodCode := RL.METHOD_DELETE; }
        else if Spells(b, m, RL.NAME_UNLOCK) { methodCode := RL.METHOD_UNLOCK; }
      } else if p - m == 7 {
        if Spells(b, m, RL.NAME_OPTIONS) { methodCode := RL.METHOD_OPTIONS; }
      } else if p - m == 8 {
        if Spells(b, m, RL.NAME_PROPFIND) { methodCode := RL.METHOD_PROPFIND; }
      } else if p - m == 9 {
        if Spells(b, m, RL.NAME_PROPPATCH) { methodCode := RL.METHOD_PROPPATCH; }
      }
    }

    /** `ngx_strNcmp`: the bytes at m spell w. */
    predicate Spells(b: Buffer, m: nat, w: Bytes)
      requires m + |w| <= b.start.Length
      reads b.start
    {
      b.start[m..m + |w|] == w
    }

    /** sw_method */
    method TurnMethodName(b: Buffer, p: nat) returns (next: State, v: Verdict)
      requires p < b.last <= b.start.Length && RL.WellFormed(Line(Method), p)
      modifies this`methodEnd, this`methodCode
      ensures LineMove(v, Line(next)) == RL.StepMethod(old(Line(Method)), b.Seen(), p)
      ensures v in {Proceed, Return(RL.INVALID_METHOD)}
    {
      hide RL.MethodCode;
      next, v := Method, Proceed;
      var ch := b.start[p];
      if ch == SP {
        methodEnd := p - 1;
        b.SeenSlice(requestStart, p);
        ReadMethod(b, requestStart, p);
        next := SpacesBeforeUri;
      } else if (ch < 65 || ch > 90) && ch != UNDERSCORE {
        v := Return(RL.INVALID_METHOD);
      }
    }

    /** sw_start, sw_method, sw_spaces_before_uri */
    method TurnMethod(b: Buffer, p: nat, st: State) returns (next: State, v: Verdict)
      requires st in {Start, Method, SpacesBeforeUri}
      requires p < b.last <= b.start.Length && RL.WellFormed(Line(st), p)
      modifies this`requestStart, this`methodEnd, this`methodCode, this`uriStart, this`schemaStart
      ensures LineMove(v, Line(next)) == RL.StepMethod(old(Line(st)), b.Seen(), p)
      ensures v in {Proceed, Return(RL.INVALID_METHOD), Return(RL.INVALID_REQUEST)}
    {
      hide RL.MethodCode, RL.GoesOn;
      next, v := st, Proceed;
      var ch := b.start[p];
      if st == Start {
        requestStart := p;
        if ch == CR || ch == LF { return; }
        if (ch < 65 || ch > 90) && ch != UNDERSCORE { v := Return(RL.INVALID_METHOD); return; }
        next := Method;
      } else if st == Method {
        next, v := TurnMethodName(b, p);
      } else {
        OrBit5IsLetterTest(ch);
        if ch == SLASH {
          uriStart := p;
          next := AfterSlashInUri;
        } else if 97 <= OrBit5(ch) <= 122 {
          schemaStart := p;
          next := Schema;
        } else if ch != SP {
          v := Return(RL.INVALID_REQUEST);
        }
      }
    }

    /** sw_schema, sw_schema_slash, sw_schema_slash_slash */
    method TurnSchema(ch: Byte, p: nat, st: State) returns (next: State, v: Verdict)
      requires st in {Schema, SchemaSlash, SchemaSlashSlash}
      modifies this`schemaEnd
      ensures LineMove(v, Line(next)) == RL.StepSchema(old(Line(st)), ch, p)
      ensures v in {Proceed, Return(RL.INVALID_REQUEST)}
    {
      next, v := st, Proceed;
      if st == Schema {
        OrBit5IsLetterTest(ch);
        if 97 <= OrBit5(ch) <= 122 {
        } else if ch == COLON {
          schemaEnd := p;
          next := SchemaSlash;
        } else {
          v := Return(RL.INVALID_REQUEST);
        }
      } else if ch == SLASH {
        next := if st == SchemaSlash then SchemaSlashSlash else HostStart;
      } else {
        v := Return(RL.INVALID_REQUEST);
      }
    }

    /** sw_host_start, sw_host, sw_host_end, which fall through to each other */
    method TurnHost(ch: Byte, p: nat, st: State) returns (next: State, v: Verdict)
      requires st in {HostStart, Host, HostEnd}
      modifies this`hostStart, this`hostEnd, this`uriStart, this`uriEnd
      ensures LineMove(v, Line(next)) == RL.StepHost(old(Line(st)), ch, p)
      ensures v in {Proceed, Return(RL.INVALID_REQUEST)}
    {
      next, v := st, Proceed;
      if next == HostStart {
        hostStart := p;
        if ch == LBRACKET { next := HostIpLiteral; return; }
        next := Host;
      }
      if next == Host {
        OrBit5IsLetterTest(ch);
        if 97 <= OrBit5(ch) <= 122 { return; }
        if (48 <= ch <= 57) || ch == DOT || ch == DASH { return; }
      }
      next, v := EndHost(ch, p, next);
    }

    /** The part of sw_host_end that all three host states fall through to. */
    method EndHost(ch: Byte, p: nat, st: State) returns (next: State, v: Verdict)
      modifies this`hostEnd, this`uriStart, this`uriEnd
      ensures LineMove(v, Line(next)) == RL.StepHostEnd(old(Line(st)), ch, p)
      ensures v in {Proceed, Return(RL.INVALID_REQUEST)}
    {
      hide RL.GoesOn, RL.BorrowSlash;
      next, v := st, Proceed;
      hostEnd := p;
      if ch == COLON {
        next := Port;
      } else if ch == SLASH {
        uriStart := p;
        next := AfterSlashInUri;
      } else if ch == SP {
        BorrowSlash(st);
        next := HostHttp09;
      } else {
        v := Return(RL.INVALID_REQUEST);
      }
    }

    /** A target without a path takes the first slash of "://" for its URI. */
    method BorrowSlash(ghost st: State)
      modifies this`uriStart, this`uriEnd
      ensures Line(HostHttp09) == RL.BorrowSlash(old(Line(st)))
    {
      uriStart := schemaEnd + 1;
      uriEnd := schemaEnd + 2;
    }

    /** sw_host_ip_literal, sw_port */
    method TurnPort(ch: Byte, p: nat, st: State) returns (next: State, v: Verdict)
      requires st in {HostIpLiteral, Port}
      modifies this`portEnd, this`uriStart, this`uriEnd
      ensures LineMove(v, Line(next)) == RL.StepHost(old(Line(st)), ch, p)
      ensures v in {Proceed, Return(RL.INVALID_REQUEST)}
    {
      next, v := st, Proceed;
      if st == HostIpLiteral {
        OrBit5IsLetterTest(ch);
        if 48 <= ch <= 57 { return; }
        if 97 <= OrBit5(ch) <= 122 { return; }
        if ch == COLON || ch in {45, 46, 95, 126} || ch in {33, 36, 38, 39, 40, 41, 42, 43, 44, 59, 61} { return; }
        if ch == RBRACKET { next := HostEnd; } else { v := Return(RL.INVALID_REQUEST); }
      } else if 48 <= ch <= 57 {
      } else if ch == SLASH {
        portEnd := p;
        uriStart := p;
        next := AfterSlashInUri;
      } else if ch == SP {
        portEnd := p;
        BorrowSlash(st);
        next := HostHttp09;
      } else {
        v := Return(RL.INVALID_REQUEST);
      }
    }

    /** The cases '%', '?', '#' and '+', which sw_after_slash_in_uri and sw_check_uri share. */
    method MarkUri(ch: Byte, p: nat, st: State) returns (next: State)
      requires IsMark(ch) && st in {AfterSlashInUri, CheckUri}
      modifies this`argsStart, this`complexUri, this`quotedUri, this`plusInUri
      ensures RL.Next(Line(next)) == RL.StepPath(old(Line(st)), ch, p)
    {
      hide RL.GoesOn, RL.WellFormed;
      next := Uri;
      if ch == PERCENT {
        quotedUri := true;
      } else if ch == QMARK {
        argsStart := At(p + 1);
      } else if ch == HASH {
        complexUri := true;
      } else {
        plusInUri := true;
        next := st;
      }
    }

    /** sw_after_slash_in_uri */
    method TurnAfterSlash(ch: Byte, p: nat) returns (next: State, v: Verdict)
      modifies this`uriEnd, this`argsStart, this`complexUri, this`quotedUri, this`plusInUri, this`httpMinor
      ensures LineMove(v, Line(next)) == RL.StepPath(old(Line(AfterSlashInUri)), ch, p)
      ensures v in {Proceed, GotoDone, Return(RL.INVALID_REQUEST)}
    {
      next, v := AfterSlashInUri, Proceed;
      UsualIsPlain(ch);
      hide Usual, RL.GoesOn, RL.WellFormed;
      if Usual(ch) {
        next := CheckUri;
      } else if ch == SP {
        uriEnd := p;
        next := CheckUriHttp09;
      } else if ch == CR {
        uriEnd := p;
        httpMinor := 9;
        next := AlmostDone;
      } else if ch == LF {
        uriEnd := p;
        httpMinor := 9;
        v := GotoDone;
      } else if ch == DOT || ch == SLASH {
        complexUri := true;
        next := Uri;
      } else if IsMark(ch) {
        next := MarkUri(ch, p, AfterSlashInUri);
      } else if ch == NUL {
        v := Return(RL.INVALID_REQUEST);
      } else {
        next := CheckUri;
      }
    }

    /** sw_check_uri */
    method TurnCheckUri(ch: Byte, p: nat) returns (next: State, v: Verdict)
      modifies this`uriEnd, this`uriExt, this`argsStart, this`complexUri, this`quotedUri, this`plusInUri, this`httpMinor
      ensures LineMove(v, Line(next)) == RL.StepPath(old(Line(CheckUri)), ch, p)
      ensures v in {Proceed, GotoDone, Return(RL.INVALID_REQUEST)}
    {
      next, v := CheckUri, Proceed;
      UsualIsPlain(ch);
      hide Usual, RL.GoesOn, RL.WellFormed;
      if Usual(ch) {
      } else if ch == SLASH {
        uriExt := Null;
        next := AfterSlashInUri;
      } else if ch == DOT {
        uriExt := At(p + 1);
      } else if ch == SP {
        uriEnd := p;
        next := CheckUriHttp09;
      } else if ch == CR {
        uriEnd := p;
        httpMinor := 9;
        next := AlmostDone;
      } else if ch == LF {
        uriEnd := p;
        httpMinor := 9;
        v := GotoDone;
      } else if IsMark(ch) {
        next := MarkUri(ch, p, CheckUri);
      } else if ch == NUL {
        v := Return(RL.INVALID_REQUEST);
      }
    }

    /** sw_uri */
    method TurnUri(ch: Byte, p: nat) returns (next: State, v: Verdict)
      modifies this`uriEnd, this`complexUri, this`httpMinor
      ensures LineMove(v, Line(next)) == RL.StepUri(old(Line(Uri)), ch, p)
      ensures v in {Proceed, GotoDone, Return(RL.INVALID_REQUEST)}
    {
      next, v := Uri, Proceed;
      UsualIsPlain(ch);
      hide Usual, RL.GoesOn, RL.WellFormed;
      if Usual(ch) {
      } else if ch == SP {
        uriEnd := p;
        next := Http09;
      } else if ch == CR {
        uriEnd := p;
        httpMinor := 9;
        next := AlmostDone;
      } else if ch == LF {
        uriEnd := p;
        httpMinor := 9;
        v := GotoDone;
      } else if ch == HASH {
        complexUri := true;
      } else if ch == NUL {
        v := Return(RL.INVALID_REQUEST);
      }
    }

    /** sw_host_http_09, sw_check_uri_http_09, sw_http_09 */
    method TurnHttp09(ch: Byte, p: nat, st: State) returns (next: State, v: Verdict)
      requires st in {HostHttp09, CheckUriHttp09, Http09}
      modifies this`httpMinor, this`protocol, this`spaceInUri
      ensures LineMove(v, Line(next)) == RL.StepHttp09(old(Line(st)), ch, p)
      ensures v in {Proceed, GoBack, GotoDone, Return(RL.INVALID_REQUEST)}
    {
      next, v := st, Proceed;
      if ch == SP {
      } else if ch == CR {
        httpMinor := 9;
        next := AlmostDone;
      } else if ch == LF {
        httpMinor := 9;
        v := GotoDone;
      } else if ch == UPPER_H {
        protocol := p;
        next := HttpH;
      } else if st == HostHttp09 {
        v := Return(RL.INVALID_REQUEST);
      } else {
        spaceInUri := true;
        next := if st == Http09 then Uri else CheckUri;
        v := GoBack;
      }
    }

    /** sw_http_H ... sw_spaces_after_digit */
    method TurnVersion(ch: Byte, p: nat, st: State) returns (next: State, v: Verdict)
      requires st in {FirstMajorDigit, MajorDigit, FirstMinorDigit, MinorDigit, SpacesAfterDigit}
      modifies this`httpMajor, this`httpMinor
      ensures LineMove(v, Line(next)) == RL.StepVersion(old(Line(st)), ch, p)
      ensures v in {Proceed, GotoDone, Return(RL.INVALID_REQUEST)}
    {
      next, v := st, Proceed;
      match st
      case FirstMajorDigit =>
        if ch < 49 || ch > 57 { v := Return(RL.INVALID_REQUEST); return; }
        httpMajor := ch - 48;
        next := MajorDigit;
      case MajorDigit =>
        if ch == DOT { next := FirstMinorDigit; return; }
        if ch < 48 || ch > 57 { v := Return(RL.INVALID_REQUEST); return; }
        httpMajor := httpMajor * 10 + ch - 48;
      case FirstMinorDigit =>
        if ch < 48 || ch > 57 { v := Return(RL.INVALID_REQUEST); return; }
        httpMinor := ch - 48;
        next := MinorDigit;
      case MinorDigit =>
        if ch == CR { next := AlmostDone; return; }
        if ch == LF { v := GotoDone; return; }
        if ch == SP { next := SpacesAfterDigit; return; }
        if ch < 48 || ch > 57 { v := Return(RL.INVALID_REQUEST); return; }
        httpMinor := httpMinor * 10 + ch - 48;
      case SpacesAfterDigit =>
        if ch == CR { next := AlmostDone; }
        else if ch == LF { v := GotoDone; }
        else if ch != SP { v := Return(RL.INVALID_REQUEST); }
    }

    /** sw_http_H, sw_http_HT, sw_http_HTT, sw_http_HTTP */
    method TurnProtocol(ch: Byte, st: State) returns (next: State, v: Verdict)
      requires st in {HttpH, HttpHT, HttpHTT, HttpHTTP}
      ensures LineMove(v, Line(next)) == RL.StepProtocol(Line(st), ch)
      ensures v in {Proceed, Return(RL.INVALID_REQUEST)}
    {
      next, v := st, Proceed;
      match st
      case HttpH => if ch == UPPER_T { next := HttpHT; } else { v := Return(RL.INVALID_REQUEST); }
      case HttpHT => if ch == UPPER_T { next := HttpHTT; } else { v := Return(RL.INVALID_REQUEST); }
      case HttpHTT => if ch == UPPER_P { next := HttpHTTP; } else { v := Return(RL.INVALID_REQUEST); }
      case HttpHTTP => if ch == SLASH { next := FirstMajorDigit; } else { v := Return(RL.INVALID_REQUEST); }
    }

    /** sw_almost_done */
    method TurnAlmostDone(ch: Byte, p: nat) returns (v: Verdict)
      modifies this`requestEnd
      ensures LineMove(v, Line(AlmostDone)) == RL.StepAlmostDone(old(Line(AlmostDone)), ch, p)
      ensures v in {GotoDone, Return(RL.INVALID_REQUEST)}
    {
      requestEnd := At(p - 1);
      v := if ch == LF then GotoDone else Return(RL.INVALID_REQUEST);
    }

    lemma LineState(s: State)
      ensures Line(s).state == s && forall s' :: Line(s).To(s') == Line(s')
    {
    }

    /** One turn of the switch of ngx_http_parse_request_line on the byte at p. */
    method TurnLine(b: Buffer, p: nat, st: State) returns (next: State, v: Verdict)
      requires p < b.last <= b.start.Length && RL.WellFormed(Line(st), p)
      modifies this`requestStart, this`methodEnd, this`methodCode, this`schemaStart, this`schemaEnd,
               this`hostStart, this`hostEnd, this`portEnd, this`uriStart, this`uriEnd, this`uriExt,
               this`argsStart, this`complexUri, this`quotedUri, this`plusInUri, this`spaceInUri,
               this`protocol, this`httpMajor, this`httpMinor, this`requestEnd
      ensures LineMove(v, Line(next)) == RL.Step(old(Line(st)), b.Seen(), p)
      ensures v != GotoHeaderDone
    {
      hide RL.StepMethod, RL.StepSchema, RL.StepHost, RL.StepPath, RL.StepUri, RL.StepHttp09,
           RL.StepProtocol, RL.StepVersion, RL.StepAlmostDone, RL.WellFormed, Line;
      LineState(st);
      var ch := b.start[p];
      assert b.Seen()[p] == ch;
      match st
      case Start | Method | SpacesBeforeUri => next, v := TurnMethod(b, p, st);
      case Schema | SchemaSlash | SchemaSlashSlash => next, v := TurnSchema(ch, p, st);
      case HostStart | Host | HostEnd => next, v := TurnHost(ch, p, st);
      case HostIpLiteral | Port => next, v := TurnPort(ch, p, st);
      case AfterSlashInUri => next, v := TurnAfterSlash(ch, p);
      case CheckUri => next, v := TurnCheckUri(ch, p);
      case Uri => next, v := TurnUri(ch, p);
      case HostHttp09 | CheckUriHttp09 | Http09 => next, v := TurnHttp09(ch, p, st);
      case HttpH | HttpHT | HttpHTT | HttpHTTP => next, v := TurnProtocol(ch, st);
      case FirstMajorDigit | MajorDigit | FirstMinorDigit | MinorDigit | SpacesAfterDigit =>
        next, v := TurnVersion(ch, p, st);
      case AlmostDone =>
        next := st;
        v := TurnAlmostDone(ch, p);
      case _ => next, v := st, Proceed;
    }

    /** The code after the label `done` (ngx_http_parse.c:804-820). */
    method LineDone(b: Buffer, p: nat, ghost st: State) returns (rc: int)
      modifies b`pos, this`requestEnd, this`httpVersion, this`state
      ensures RL.Result(rc, Line(state), b.pos) == RL.Finish(old(Line(st)), p) && b.pos == p + 1 && state == Start
    {
      b.pos := p + 1;
      if requestEnd == Null {
        requestEnd := At(p);
      }
      httpVersion := httpMajor * 1000 + httpMinor;
      state := Start;
      rc := if httpVersion == 9 && methodCode != RL.METHOD_GET then RL.INVALID_09_METHOD else LOK;
    }

    /** ngx_http_parse_request_line: the call that RequestProperties.Call describes, in at most two turns a byte. */
    method ParseRequestLine(b: Buffer) returns (rc: int, ghost turns: nat)
      requires b.Valid() && RL.WellFormed(Line(state), b.pos)
      modifies b`pos, this`state,
               this`requestStart, this`methodEnd, this`methodCode, this`schemaStart, this`schemaEnd,
               this`hostStart, this`hostEnd, this`portEnd, this`uriStart, this`uriEnd, this`uriExt,
               this`argsStart, this`complexUri, this`quotedUri, this`plusInUri, this`spaceInUri,
               this`protocol, this`httpMajor, this`httpMinor, this`requestEnd, this`httpVersion
      ensures RL.Result(rc, Line(state), b.pos) == RP.Call(old(Line(state)), b.Seen(), old(b.pos))
      ensures rc in {RL.INVALID_METHOD, RL.INVALID_REQUEST} ==> b.pos == old(b.pos) && state == old(state)
      ensures rc == LAGAIN ==> b.pos == b.last
      ensures rc in {LOK, RL.INVALID_09_METHOD} ==> b.pos > old(b.pos) && state == Start
      ensures b.Valid()
      ensures turns <= 2 * (b.last - old(b.pos))
    {
      hide RL.Step, RL.Finish, RL.WellFormed, LineOnTrack, RP.Call, Line;
      ghost var data, l0, p0 := b.Seen(), Line(state), b.pos;
      var st := state;
      var p := b.pos;
      turns := 0;
      LineStarts(l0, data, p0);
      RP.CallSaves(l0, data, p0);
      LineState(st);
      while p < b.last
        invariant p <= b.last && b.pos == p0 && b.Seen() == data && state == l0.state
        invariant LineOnTrack(Line(st), data, p, l0, p0, turns)
        decreases b.last - p, RL.Backs(st)
      {
        LineTurn(Line(st), data, p, l0, p0, turns);
        LineState(st);
        turns := turns + 1;
        var next, v := TurnLine(b, p, st);
        LineState(next);
        match v
        case Proceed =>
          st, p := next, p + 1;
        case GoBack =>
          st := next;
        case Return(code) =>
          rc := code;
          return;
        case GotoDone =>
          rc := LineDone(b, p, next);
          return;
      }
      LineStops(Line(st), data, l0, p0, turns);
      b.pos := p;
      state := st;
      rc := LAGAIN;
    }

    // ---------- header lines ----------

    /** The fields the header-line parser works on, with the locals of its loop. */
    ghost function Header(s: State, hash: int, i: int): HL.Header
      reads this, lowcaseHeader
    {
      HL.Header(s, hash, i, lowcaseHeader[..], headerNameStart, headerNameEnd, headerStart, headerEnd,
                invalidHeader, headerLength)
    }

    /** The same between two calls. */
    ghost function SavedHeader(): HL.Header
      reads this, lowcaseHeader
    {
      Header(state, headerHash, lowcaseIndex)
    }

    /** sw_start of a header line */
    method TurnHeaderStart(ch: Byte, p: nat, underscores: bool, hash: int, i: int)
      returns (next: State, v: Verdict, hash': int, i': int)
      requires lowcaseHeader.Length == HL.RING
      modifies this`headerNameStart, this`invalidHeader, this`headerEnd, lowcaseHeader
      ensures HeaderMove(v, Header(next, hash', i')) ==
              HL.StepStart(HL.Env(upstream, underscores), old(Header(Start, hash, i)), ch, p)
      ensures v in {Proceed, GotoHeaderDone, Return(HL.INVALID_HEADER)}
    {
      next, v, hash', i' := Start, Proceed, hash, i;
      headerNameStart := p;
      invalidHeader := false;
      if ch == CR {
        headerEnd := p;
        next := HeaderAlmostDone;
      } else if ch == LF {
        headerEnd := p;
        v := GotoHeaderDone;
      } else {
        var c := Lowcase(ch);
        if c != 0 {
          next := Name;
          hash' := HashStep(0, c);
          lowcaseHeader[0] := c;
          i' := 1;
        } else if ch == UNDERSCORE {
          next := Name;
          if underscores {
            hash' := HashStep(0, ch);
            lowcaseHeader[0] := ch;
            i' := 1;
          } else {
            invalidHeader := true;
          }
        } else if ch == NUL {
          v := Return(HL.INVALID_HEADER);
        } else {
          next := Name;
          invalidHeader := true;
        }
      }
    }

    /** sw_name */
    method TurnName(b: Buffer, p: nat, underscores: bool, hash: int, i: int)
      returns (next: State, v: Verdict, hash': int, i': int)
      requires b.start != lowcaseHeader
      requires p < b.last <= b.start.Length && HL.WellFormed(Header(Name, hash, i), p)
      modifies this`headerNameEnd, this`headerStart, this`headerEnd, this`invalidHeader, lowcaseHeader
      ensures b.Seen() == old(b.Seen())
      ensures HeaderMove(v, Header(next, hash', i')) ==
              HL.StepName(HL.Env(upstream, underscores), old(Header(Name, hash, i)), b.Seen(), p)
      ensures v in {Proceed, GotoDone, Return(HL.INVALID_HEADER)}
    {
      next, v, hash', i' := Name, Proceed, hash, i;
      var ch := b.start[p];
      var c := Lowcase(ch);
      if c != 0 {
        hash' := HashStep(hash, c);
        lowcaseHeader[i] := c;
        i' := (i + 1) % HL.RING;
      } else if ch == UNDERSCORE {
        if underscores {
          hash' := HashStep(hash, ch);
          lowcaseHeader[i] := ch;
          i' := (i + 1) % HL.RING;
        } else {
          invalidHeader := true;
        }
      } else if ch == COLON {
        headerNameEnd := p;
        next := SpaceBeforeValue;
      } else if ch == CR {
        headerNameEnd := p;
        headerStart := p;
        headerEnd := p;
        next := AlmostDone;
      } else if ch == LF {
        headerNameEnd := p;
        headerStart := p;
        headerEnd := p;
        v := GotoDone;
      } else if ch == SLASH && upstream && p - headerNameStart == 4
                && b.start[headerNameStart..headerNameStart + 4] == HL.HTTP {
        b.SeenSlice(headerNameStart, p);
        next := IgnoreLine;
      } else if ch == NUL {
        v := Return(HL.INVALID_HEADER);
      } else {
        b.SeenSlice(headerNameStart, p);
        invalidHeader := true;
      }
    }

    /** sw_space_before_value, sw_value, sw_space_after_value */
    method TurnValue(ch: Byte, p: nat, st: State, ghost hash: int, ghost i: int) returns (next: State, v: Verdict)
      requires st in {SpaceBeforeValue, Value, SpaceAfterValue}
      modifies this`headerStart, this`headerEnd
      ensures HeaderMove(v, Header(next, hash, i)) == HL.StepValue(old(Header(st, hash, i)), ch, p)
      ensures v in {Proceed, GotoDone, Return(HL.INVALID_HEADER)}
    {
      next, v := st, Proceed;
      if ch == NUL {
        v := Return(HL.INVALID_HEADER);
        return;
      }
      match st
      case SpaceBeforeValue =>
        if ch == CR {
          headerStart := p;
          headerEnd := p;
          next := AlmostDone;
        } else if ch == LF {
          headerStart := p;
          headerEnd := p;
          v := GotoDone;
        } else if ch != SP {
          headerStart := p;
          next := Value;
        }
      case Value =>
        if ch == SP {
          headerEnd := p;
          next := SpaceAfterValue;
        } else if ch == CR {
          headerEnd := p;
          next := AlmostDone;
        } else if ch == LF {
          headerEnd := p;
          v := GotoDone;
        }
      case SpaceAfterValue =>
        if ch == CR {
          next := AlmostDone;
        } else if ch == LF {
          v := GotoDone;
        } else if ch != SP {
          next := Value;
        }
    }

    /** One turn of the switch of ngx_http_parse_header_line on the byte at p. */
    method TurnHeader(b: Buffer, p: nat, underscores: bool, st: State, hash: int, i: int)
      returns (next: State, v: Verdict, hash': int, i': int)
      requires b.start != lowcaseHeader
      requires p < b.last <= b.start.Length && HL.WellFormed(Header(st, hash, i), p)
      modifies this`headerNameStart, this`headerNameEnd, this`headerStart, this`headerEnd, this`invalidHeader,
               lowcaseHeader
      ensures b.Seen() == old(b.Seen())
      ensures HeaderMove(v, Header(next, hash', i')) ==
              HL.Step(HL.Env(upstream, underscores), old(Header(st, hash, i)), b.Seen(), p)
      ensures v in {Proceed, GotoDone, GotoHeaderDone, Return(HL.INVALID_HEADER)}
    {
      hide HL.StepStart, HL.StepName, HL.StepValue;
      var ch := b.start[p];
      assert b.Seen()[p] == ch;
      next, v, hash', i' := st, Proceed, hash, i;
      match st
      case Start => next, v, hash', i' := TurnHeaderStart(ch, p, underscores, hash, i);
      case Name => next, v, hash', i' := TurnName(b, p, underscores, hash, i);
      case SpaceBeforeValue | Value | SpaceAfterValue => next, v := TurnValue(ch, p, st, hash, i);
      case IgnoreLine => if ch == LF { next := Start; }
      case AlmostDone =>
        if ch == LF { v := GotoDone; } else if ch != CR { v := Return(HL.INVALID_HEADER); }
      case HeaderAlmostDone =>
        if ch == LF { v := GotoHeaderDone; } else { v := Return(HL.INVALID_HEADER); }
      case _ =>
    }

    /** The code after the label `done` of a header line (ngx_http_parse.c:1074-1082). */
    method HeaderDone(b: Buffer, p: nat, ghost st: State, hash: int, i: int) returns (rc: int)
      modifies b`pos, this`state, this`headerHash, this`lowcaseIndex, this`headerLength
      ensures HL.Result(rc, SavedHeader(), b.pos) == HL.Finish(old(Header(st, hash, i)), p) && b.pos == p + 1 && rc == LOK
    {
      b.pos := p + 1;
      state := Start;
      headerHash := hash;
      headerLength := headerEnd - headerNameStart + 2;
      lowcaseIndex := i;
      rc := LOK;
    }

    /** ngx_http_parse_header_line: the call that HeaderLine.Call describes. */
    method ParseHeaderLine(b: Buffer, underscores: bool) returns (rc: int)
      requires b.Valid() && b.start != lowcaseHeader && HL.WellFormed(SavedHeader(), b.pos)
      modifies b`pos, this`state, this`headerHash, this`lowcaseIndex, this`headerNameStart, this`headerNameEnd,
               this`headerStart, this`headerEnd, this`invalidHeader, this`headerLength, lowcaseHeader
      ensures HL.Result(rc, SavedHeader(), b.pos) ==
              HL.Call(HL.Env(upstream, underscores), old(SavedHeader()), old(b.Seen()), old(b.pos))
      ensures rc == HL.INVALID_HEADER ==> b.pos == old(b.pos) && state == old(state)
      ensures rc in {HL.INVALID_HEADER, HEADER_DONE} ==>
                headerHash == old(headerHash) && lowcaseIndex == old(lowcaseIndex)
      ensures rc == LAGAIN ==> b.pos == b.last
      ensures rc in {LOK, HEADER_DONE} ==> b.pos > old(b.pos) && state == Start
      ensures b.Valid() && b.Seen() == old(b.Seen())
    {
      hide HL.Run, HL.Step, HL.WellFormed, HL.Finish;
      ghost var env, data, h0, p0 := HL.Env(upstream, underscores), b.Seen(), SavedHeader(), b.pos;
      var st, hash, i := state, headerHash, lowcaseIndex;
      var p := b.pos;
      HL.AgainAtEnd(env, h0, data, p0);
      HL.CallSaves(env, h0, data, p0);
      while p < b.last
        invariant p <= b.last && b.pos == p0 && b.Seen() == data
        invariant state == h0.state && headerHash == h0.hash && lowcaseIndex == h0.index
        invariant HL.WellFormed(Header(st, hash, i), p)
        invariant HL.Run(env, Header(st, hash, i), data, p) == HL.Run(env, h0, data, p0)
      {
        HL.Turn(env, Header(st, hash, i), data, p);
        var next, v;
        next, v, hash, i := TurnHeader(b, p, underscores, st, hash, i);
        match v
        case Proceed =>
          st, p := next, p + 1;
        case GotoDone =>
          rc := HeaderDone(b, p, next, hash, i);
          return;
        case GotoHeaderDone =>
          b.pos := p + 1;
          state := Start;
          rc := HEADER_DONE;
          return;
        case Return(code) =>
          rc := code;
          return;
      }
      HL.AtEnd(env, Header(st, hash, i), data);
      b.pos := p;
      state := st;
      headerHash := hash;
      lowcaseIndex := i;
      rc := LAGAIN;
    }

    // ---------- status lines ----------

    /** The fields the status-line parser works on, with the state its loop is in. */
    ghost function Status(s: State): SL.Status
      reads this
    {
      SL.Status(s, requestStart, protocol, protocolEnd, httpMajor, httpMinor,
                statusCode, statusCount, statusStart, statusEnd, statusVersion)
    }

    /** sw_start ... sw_HTTP of a status line */
    method TurnStatusProtocol(ch: Byte, p: nat, st: State) returns (next: State, v: Verdict)
      requires st in {Start, HttpH, HttpHT, HttpHTT, HttpHTTP}
      modifies this`requestStart, this`protocol
      ensures StatusMove(v, Status(next)) == SL.StepProtocol(old(Status(st)), ch, p)
      ensures v in {Proceed, Return(LERROR)}
    {
      next, v := st, Proceed;
      match st
      case Start =>
        if ch == UPPER_H {
          requestStart := p;
          protocol := p;
          next := HttpH;
        } else {
          v := Return(LERROR);
        }
      case HttpH => if ch == UPPER_T { next := HttpHT; } else { v := Return(LERROR); }
      case HttpHT => if ch == UPPER_T { next := HttpHTT; } else { v := Return(LERROR); }
      case HttpHTT => if ch == UPPER_P { next := HttpHTTP; } else { v := Return(LERROR); }
      case HttpHTTP => if ch == SLASH { next := FirstMajorDigit; } else { v := Return(LERROR); }
    }

    /** sw_first_major_digit ... sw_minor_digit of a status line */
    method TurnStatusVersion(ch: Byte, p: nat, st: State) returns (next: State, v: Verdict)
      requires st in {FirstMajorDigit, MajorDigit, FirstMinorDigit, MinorDigit}
      modifies this`httpMajor, this`httpMinor, this`protocolEnd
      ensures StatusMove(v, Status(next)) == SL.StepVersion(old(Status(st)), ch, p)
      ensures v in {Proceed, Return(LERROR)}
    {
      next, v := st, Proceed;
      match st
      case FirstMajorDigit =>
        if ch < 49 || ch > 57 { v := Return(LERROR); return; }
        httpMajor := ch - 48;
        next := MajorDigit;
      case MajorDigit =>
        if ch == DOT { next := FirstMinorDigit; return; }
        if ch < 48 || ch > 57 { v := Return(LERROR); return; }
        httpMajor := httpMajor * 10 + ch - 48;
      case FirstMinorDigit =>
        if ch < 48 || ch > 57 { v := Return(LERROR); return; }
        httpMinor := ch - 48;
        next := MinorDigit;
      case MinorDigit =>
        if ch == SP {
          next := StatusCode;
          protocolEnd := p - 1;
          return;
        }
        if ch < 48 || ch > 57 { v := Return(LERROR); return; }
        httpMinor := httpMinor * 10 + ch - 48;
    }

    /** sw_status ... sw_almost_done of a status line */
    method TurnStatusText(ch: Byte, p: nat, st: State) returns (next: State, v: Verdict)
      requires st in {StatusCode, SpaceAfterStatus, StatusText, AlmostDone}
      modifies this`statusCode, this`statusCount, this`statusStart, this`statusEnd
      ensures StatusMove(v, Status(next)) == SL.Step(old(Status(st)), ch, p)
      ensures v in {Proceed, GotoDone, Return(LERROR)}
    {
      next, v := st, Proceed;
      match st
      case StatusCode =>
        if ch == SP { return; }
        if ch < 48 || ch > 57 { v := Return(LERROR); return; }
        statusCode := statusCode * 10 + ch - 48;
        statusCount := statusCount + 1;
        if statusCount == 3 {
          next := SpaceAfterStatus;
          statusStart := p - 2;
        }
      case SpaceAfterStatus =>
        if ch == SP || ch == DOT { next := StatusText; }
        else if ch == CR { next := AlmostDone; }
        else if ch == LF { v := GotoDone; }
        else { v := Return(LERROR); }
      case StatusText =>
        if ch == CR { next := AlmostDone; } else if ch == LF { v := GotoDone; }
      case AlmostDone =>
        statusEnd := At(p - 1);
        v := if ch == LF then GotoDone else Return(LERROR);
    }

    /** One turn of the switch of ngx_http_parse_status_line on the byte at p. */
    method TurnStatus(ch: Byte, p: nat, st: State) returns (next: State, v: Verdict)
      modifies this`requestStart, this`protocol, this`httpMajor, this`httpMinor, this`protocolEnd,
               this`statusCode, this`statusCount, this`statusStart, this`statusEnd
      ensures StatusMove(v, Status(next)) == SL.Step(old(Status(st)), ch, p)
      ensures v in {Proceed, GotoDone, Return(LERROR)}
    {
      hide SL.StepProtocol, SL.StepVersion;
      next, v := st, Proceed;
      match st
      case Start | HttpH | HttpHT | HttpHTT | HttpHTTP => next, v := TurnStatusProtocol(ch, p, st);
      case FirstMajorDigit | MajorDigit | FirstMinorDigit | MinorDigit => next, v := TurnStatusVersion(ch, p, st);
      case StatusCode | SpaceAfterStatus | StatusText | AlmostDone => next, v := TurnStatusText(ch, p, st);
      case _ =>
    }

    /** The code after the label `done` of a status line (ngx_http_parse.c:1298-1310). */
    method StatusDone(b: Buffer, p: nat, ghost st: State) returns (rc: int)
      modifies b`pos, this`state, this`statusEnd, this`statusVersion
      ensures SL.Result(rc, Status(state), b.pos) == SL.Finish(old(Status(st)), p) && b.pos == p + 1 && rc == LOK
    {
      b.pos := p + 1;
      if statusEnd == Null {
        statusEnd := At(p);
      }
      statusVersion := httpMajor * 1000 + httpMinor;
      state := Start;
      rc := LOK;
    }

    /** ngx_http_parse_status_line: the call that StatusLine.Call describes. */
    method ParseStatusLine(b: Buffer) returns (rc: int)
      requires b.Valid()
      modifies b`pos, this`state, this`requestStart, this`protocol, this`httpMajor, this`httpMinor, this`protocolEnd,
               this`statusCode, this`statusCount, this`statusStart, this`statusEnd, this`statusVersion
      ensures SL.Result(rc, Status(state), b.pos) == SL.Call(old(Status(state)), b.Seen(), old(b.pos))
      ensures rc == LERROR ==> b.pos == old(b.pos) && state == old(state)
      ensures rc == LAGAIN ==> b.pos == b.last
      ensures rc == LOK ==> b.pos > old(b.pos) && state == Start
      ensures b.Valid()
    {
      hide SL.Run, SL.Step;
      ghost var data, s0, p0 := b.Seen(), Status(state), b.pos;
      var st := state;
      var p := b.pos;
      SL.AgainAtEnd(s0, data, p0);
      SL.CallSaves(s0, data, p0);
      while p < b.last
        invariant p <= b.last && b.pos == p0 && b.Seen() == data && state == s0.state
        invariant SL.Run(Status(st), data, p) == SL.Run(s0, data, p0)
      {
        SL.Turn(Status(st), data, p);
        assert b.start[p] == data[p];
        var next, v := TurnStatus(b.start[p], p, st);
        match v
        case Proceed =>
          st, p := next, p + 1;
        case GotoDone =>
          rc := StatusDone(b, p, next);
          return;
        case Return(code) =>
          rc := code;
          return;
      }
      SL.AtEnd(Status(st), data);
      b.pos := p;
      state := st;
      rc := LAGAIN;
    }
  }
}
