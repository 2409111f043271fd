/** The request-line machine of ngx_http_parse_request_line, one byte at a time. */
module RequestLine {
  import opened Bytes
  import opened ParserState

  const METHOD_GET := 0x0002
  const METHOD_HEAD := 0x0004
  const METHOD_POST := 0x0008
  const METHOD_PUT := 0x0010
  const METHOD_DELETE := 0x0020
  const METHOD_MKCOL := 0x0040
  const METHOD_COPY := 0x0080
  const METHOD_MOVE := 0x0100
  const METHOD_OPTIONS := 0x0200
  const METHOD_PROPFIND := 0x0400
  const METHOD_PROPPATCH := 0x0800
  const METHOD_LOCK := 0x1000
  const METHOD_UNLOCK := 0x2000
  const METHOD_PATCH := 0x4000
  const METHOD_TRACE := 0x8000

  const INVALID_METHOD := 10
  const INVALID_REQUEST := 11
  const INVALID_09_METHOD := 12

  /** `schema_start` ... `port_end`: where an absolute-form target keeps its authority. */
  datatype Authority = Authority(schemaStart: int, schemaEnd: int, hostStart: int, hostEnd: int, portEnd: int)

  /** `uri_start` ... `space_in_uri`. */
  datatype UriPart = UriPart(start: int, end: int, ext: Ptr, args: Ptr,
                             complex: bool, quoted: bool, plus: bool, space: bool)

  /** `http_protocol.data`, `http_major`, `http_minor`. */
  datatype Http = Http(protocol: int, major: int, minor: int)

  /** The part of a request that the request-line parser writes. */
  datatype Line = Line(
    state: State,
    requestStart: int, methodEnd: int, methodCode: int,
    auth: Authority, uri: UriPart, http: Http,
    requestEnd: Ptr, httpVersion: int)
  {
    function To(s: State): Line { this.(state := s) }

    function WithUri(u: UriPart, s: State): Line { this.(uri := u, state := s) }

    function WithAuth(a: Authority, s: State): Line { this.(auth := a, state := s) }

    function WithHttp(h: Http, s: State): Line { this.(http := h, state := s) }
  }

  /** What one turn of the parse loop does: `p++`, `p--; p++`, `goto done` or an error return. */
  datatype Move = Next(line: Line) | Back(line: Line) | Done(line: Line) | Fail(line: Line, code: int)

  /** What a call leaves: `pos` counts only when the call saves it. */
  datatype Result = Result(code: int, line: Line, pos: nat)

  const NAME_GET: Bytes := [71, 69, 84]
  const NAME_PUT: Bytes := [80, 85, 84]
  const NAME_POST: Bytes := [80, 79, 83, 84]
  const NAME_COPY: Bytes := [67, 79, 80, 89]
  const NAME_MOVE: Bytes := [77, 79, 86, 69]
  const NAME_LOCK: Bytes := [76, 79, 67, 75]
  const NAME_HEAD: Bytes := [72, 69, 65, 68]
  const NAME_MKCOL: Bytes := [77, 75, 67, 79, 76]
  const NAME_PATCH: Bytes := [80, 65, 84, 67, 72]
  const NAME_TRACE: Bytes := [84, 82, 65, 67, 69]
  const NAME_DELETE: Bytes := [68, 69, 76, 69, 84, 69]
  const NAME_UNLOCK: Bytes := [85, 78, 76, 79, 67, 75]
  const NAME_OPTIONS: Bytes := [79, 80, 84, 73, 79, 78, 83]
  const NAME_PROPFIND: Bytes := [80, 82, 79, 80, 70, 73, 78, 68]
  const NAME_PROPPATCH: Bytes := [80, 82, 79, 80, 80, 65, 84, 67, 72]

  /** The code of a method name; an unknown name leaves the field as it was. */
  function MethodCode(name: Bytes, unset: int): int {
    if name == NAME_GET then METHOD_GET
    else if name == NAME_PUT then METHOD_PUT
    else if name == NAME_POST then METHOD_POST
    else if name == NAME_COPY then METHOD_COPY
    else if name == NAME_MOVE then METHOD_MOVE
    else if name == NAME_LOCK then METHOD_LOCK
    else if name == NAME_HEAD then METHOD_HEAD
    else if name == NAME_MKCOL then METHOD_MKCOL
    else if name == NAME_PATCH then METHOD_PATCH
    else if name == NAME_TRACE then METHOD_TRACE
    else if name == NAME_DELETE then METHOD_DELETE
    else if name == NAME_UNLOCK then METHOD_UNLOCK
    else if name == NAME_OPTIONS then METHOD_OPTIONS
    else if name == NAME_PROPFIND then METHOD_PROPFIND
    else if name == NAME_PROPPATCH then METHOD_PROPPATCH
    else unset
  }

  function Ascii(s: string): (r: Bytes)
    requires forall i :: 0 <= i < |s| ==> s[i] as int < 256
    ensures |r| == |s| && forall i :: 0 <= i < |s| ==> r[i] == s[i] as int
  {
    seq(|s|, i requires 0 <= i < |s| => s[i] as int)
  }

  /** The names as texts. */
  lemma MethodNames()
    ensures NAME_GET == Ascii("GET") && NAME_HEAD == Ascii("HEAD") && NAME_POST == Ascii("POST")
    ensures NAME_PUT == Ascii("PUT") && NAME_DELETE == Ascii("DELETE") && NAME_MKCOL == Ascii("MKCOL")
    ensures NAME_COPY == Ascii("COPY") && NAME_MOVE == Ascii("MOVE") && NAME_OPTIONS == Ascii("OPTIONS")
    ensures NAME_PROPFIND == Ascii("PROPFIND") && NAME_PROPPATCH == Ascii("PROPPATCH") && NAME_LOCK == Ascii("LOCK")
    ensures NAME_UNLOCK == Ascii("UNLOCK") && NAME_PATCH == Ascii("PATCH") && NAME_TRACE == Ascii("TRACE")
  {
  }

  /** The bits that ngx_http_request.h gives them. */
  lemma MethodCodes(unset: int)
    ensures MethodCode(NAME_GET, unset) == 0x0002 && MethodCode(NAME_HEAD, unset) == 0x0004
    ensures MethodCode(NAME_POST, unset) == 0x0008 && MethodCode(NAME_PUT, unset) == 0x0010
    ensures MethodCode(NAME_DELETE, unset) == 0x0020 && MethodCode(NAME_MKCOL, unset) == 0x0040
    ensures MethodCode(NAME_COPY, unset) == 0x0080 && MethodCode(NAME_MOVE, unset) == 0x0100
    ensures MethodCode(NAME_OPTIONS, unset) == 0x0200 && MethodCode(NAME_PROPFIND, unset) == 0x0400
    ensures MethodCode(NAME_PROPPATCH, unset) == 0x0800 && MethodCode(NAME_LOCK, unset) == 0x1000
    ensures MethodCode(NAME_UNLOCK, unset) == 0x2000 && MethodCode(NAME_PATCH, unset) == 0x4000
    ensures MethodCode(NAME_TRACE, unset) == 0x8000
  {
  }

  /** Any other name leaves the field as it was. */
  lemma OtherMethods(name: Bytes, a: int, b: int)
    requires a != b && name !in {NAME_GET, NAME_PUT, NAME_POST, NAME_COPY, NAME_MOVE, NAME_LOCK, NAME_HEAD, NAME_MKCOL,
                                 NAME_PATCH, NAME_TRACE, NAME_DELETE, NAME_UNLOCK, NAME_OPTIONS, NAME_PROPFIND,
                                 NAME_PROPPATCH}
    ensures MethodCode(name, a) == a && MethodCode(name, b) == b
  {
  }

  /** A saved state a call may resume from: the method name lies before p. */
  predicate WellFormed(l: Line, p: nat) {
    l.state == Method ==> 0 <= l.requestStart < p
  }

  /** The early returns, which save neither the state nor the position. */
  predicate IsError(code: int) { code == INVALID_METHOD || code == INVALID_REQUEST }

  /** A turn leaves a well-formed state; it goes back only from the two "spaces after URI" states. */
  predicate GoesOn(m: Move, l: Line, p: nat) {
    && (m.Next? ==> WellFormed(m.line, p + 1))
    && (m.Back? ==> Backs(l.state) == 1 && Backs(m.line.state) == 0 && WellFormed(m.line, p))
    && (m.Fail? ==> IsError(m.code))
  }

  function StepMethod(l: Line, data: Bytes, p: nat): (m: Move)
    requires p < |data| && WellFormed(l, p)
    ensures GoesOn(m, l, p)
  {
    var ch := data[p];
    if l.state == Start then
      if ch == CR || ch == LF then Next(l.(requestStart := p))
      else if !IsMethodByte(ch) then Fail(l.(requestStart := p), INVALID_METHOD)
      else Next(l.(requestStart := p, state := Method))
    else if l.state == Method then
      if ch == SP then
        Next(l.(methodEnd := p - 1, methodCode := MethodCode(data[l.requestStart..p], l.methodCode),
                state := SpacesBeforeUri))
      else if !IsMethodByte(ch) then Fail(l, INVALID_METHOD)
      else Next(l)
    else // SpacesBeforeUri
      if ch == SLASH then Next(l.WithUri(l.uri.(start := p), AfterSlashInUri))
      else if IsLetter(ch) then Next(l.WithAuth(l.auth.(schemaStart := p), Schema))
      else if ch == SP then Next(l)
      else Fail(l, INVALID_REQUEST)
  }

  /** With no path after the authority, the URI is the first slash of "://". */
  function BorrowSlash(l: Line): Line {
    l.WithUri(l.uri.(start := l.auth.schemaEnd + 1, end := l.auth.schemaEnd + 2), HostHttp09)
  }

  /** The byte that ends a host: ':' '/' or ' '. */
  function StepHostEnd(l: Line, ch: Byte, p: nat): (m: Move)
    ensures l.state != Method ==> GoesOn(m, l, p)
  {
    var l := l.(auth := l.auth.(hostEnd := p));
    if ch == COLON then Next(l.To(Port))
    else if ch == SLASH then Next(l.WithUri(l.uri.(start := p), AfterSlashInUri))
    else if ch == SP then Next(BorrowSlash(l))
    else Fail(l, INVALID_REQUEST)
  }

  function StepSchema(l: Line, ch: Byte, p: nat): (m: Move)
    ensures l.state != Method ==> GoesOn(m, l, p)
  {
    match l.state
    case Schema =>
      if IsLetter(ch) then Next(l)
      else if ch == COLON then Next(l.WithAuth(l.auth.(schemaEnd := p), SchemaSlash))
      else Fail(l, INVALID_REQUEST)
    case SchemaSlash =>
      if ch == SLASH then Next(l.To(SchemaSlashSlash)) else Fail(l, INVALID_REQUEST)
    case _ => // SchemaSlashSlash
      if ch == SLASH then Next(l.To(HostStart)) else Fail(l, INVALID_REQUEST)
  }

  function StepHost(l: Line, ch: Byte, p: nat): (m: Move)
    ensures l.state != Method ==> GoesOn(m, l, p)
  {
    match l.state
    case HostStart =>
      var l := l.(auth := l.auth.(hostStart := p));
      if ch == LBRACKET then Next(l.To(HostIpLiteral))
      else if IsHostByte(ch) then Next(l.To(Host))
      else StepHostEnd(l.To(Host), ch, p)
    case Host =>
      if IsHostByte(ch) then Next(l) else StepHostEnd(l, ch, p)
    case HostIpLiteral =>
      if IsLiteralByte(ch) then Next(l)
      else if ch == RBRACKET then Next(l.To(HostEnd))
      else Fail(l, INVALID_REQUEST)
    case HostEnd =>
      StepHostEnd(l, ch, p)
    case _ => // Port
      if IsDigit(ch) then Next(l)
      else if ch == SLASH then
        Next(l.(auth := l.auth.(portEnd := p)).WithUri(l.uri.(start := p), AfterSlashInUri))
      else if ch == SP then Next(BorrowSlash(l.(auth := l.auth.(portEnd := p))))
      else Fail(l, INVALID_REQUEST)
  }

  /** A byte that ends a path, seen by the scan. */
  function StepUriEnd(l: Line, ch: Byte, p: nat, after: State): Move {
    var u := l.uri.(end := p);
    if ch == SP then Next(l.WithUri(u, after))
    else if ch == CR then Next(l.WithUri(u, AlmostDone).(http := l.http.(minor := 9)))
    else if ch == LF then Done(l.(uri := u, http := l.http.(minor := 9)))
    else Fail(l, INVALID_REQUEST) // NUL
  }

  /** The scan of a path, up to its end or the first byte that makes it complex or starts arguments. */
  function StepPath(l: Line, ch: Byte, p: nat): (m: Move)
    ensures l.state != Method ==> GoesOn(m, l, p)
  {
    var u := l.uri;
    if ch == PERCENT then Next(l.WithUri(u.(quoted := true), Uri))
    else if ch == QMARK then Next(l.WithUri(u.(args := At(p + 1)), Uri))
    else if ch == HASH then Next(l.WithUri(u.(complex := true), Uri))
    else if ch == PLUS then Next(l.(uri := u.(plus := true)))
    else if ch == SP || ch == CR || ch == LF || ch == NUL then StepUriEnd(l, ch, p, CheckUriHttp09)
    else if l.state == AfterSlashInUri then
      if ch == DOT || ch == SLASH then Next(l.WithUri(u.(complex := true), Uri))
      else Next(l.To(CheckUri))
    else
      if ch == SLASH then Next(l.WithUri(u.(ext := Null), AfterSlashInUri))
      else if ch == DOT then Next(l.(uri := u.(ext := At(p + 1))))
      else Next(l)
  }

  function StepUri(l: Line, ch: Byte, p: nat): (m: Move)
    ensures l.state != Method ==> GoesOn(m, l, p)
  {
    if ch == HASH then Next(l.(uri := l.uri.(complex := true)))
    else if ch == SP || ch == CR || ch == LF || ch == NUL then StepUriEnd(l, ch, p, Http09)
    else Next(l)
  }

  /** Behind spaces that may end the target: the line ends, a version starts, or the scan goes back. */
  function StepHttp09(l: Line, ch: Byte, p: nat): (m: Move)
    ensures l.state in {HostHttp09, CheckUriHttp09, Http09} ==> GoesOn(m, l, p)
  {
    if ch == SP then Next(l)
    else if ch == CR then Next(l.WithHttp(l.http.(minor := 9), AlmostDone))
    else if ch == LF then Done(l.(http := l.http.(minor := 9)))
    else if ch == UPPER_H then Next(l.WithHttp(l.http.(protocol := p), HttpH))
    else if l.state == HostHttp09 then Fail(l, INVALID_REQUEST)
    else Back(l.WithUri(l.uri.(space := true), if l.state == Http09 then Uri else CheckUri))
  }

  /** "HTTP/", after its 'H'. */
  function StepProtocol(l: Line, ch: Byte): (m: Move)
    ensures l.state != Method ==> GoesOn(m, l, 0)
  {
    if l.state == HttpH && ch == UPPER_T then Next(l.To(HttpHT))
    else if l.state == HttpHT && ch == UPPER_T then Next(l.To(HttpHTT))
    else if l.state == HttpHTT && ch == UPPER_P then Next(l.To(HttpHTTP))
    else if l.state == HttpHTTP && ch == SLASH then Next(l.To(FirstMajorDigit))
    else Fail(l, INVALID_REQUEST)
  }

  function StepVersion(l: Line, ch: Byte, p: nat): (m: Move)
    ensures l.state != Method ==> GoesOn(m, l, p)
  {
    var h := l.http;
    match l.state
    case FirstMajorDigit =>
      if ch < 49 || ch > 57 then Fail(l, INVALID_REQUEST)
      else Next(l.WithHttp(h.(major := ch - 48), MajorDigit))
    case MajorDigit =>
      if ch == DOT then Next(l.To(FirstMinorDigit))
      else if !IsDigit(ch) then Fail(l, INVALID_REQUEST)
      else Next(l.(http := h.(major := h.major * 10 + ch - 48)))
    case FirstMinorDigit =>
      if !IsDigit(ch) then Fail(l, INVALID_REQUEST)
      else Next(l.WithHttp(h.(minor := ch - 48), MinorDigit))
    case MinorDigit =>
      if ch == CR then Next(l.To(AlmostDone))
      else if ch == LF then Done(l)
      else if ch == SP then Next(l.To(SpacesAfterDigit))
      else if !IsDigit(ch) then Fail(l, INVALID_REQUEST)
      else Next(l.(http := h.(minor := h.minor * 10 + ch - 48)))
    case _ => // SpacesAfterDigit
      if ch == SP then Next(l)
      else if ch == CR then Next(l.To(AlmostDone))
      else if ch == LF then Done(l)
      else Fail(l, INVALID_REQUEST)
  }

  function StepAlmostDone(l: Line, ch: Byte, p: nat): Move {
    var l := l.(requestEnd := At(p - 1));
    if ch == LF then Done(l) else Fail(l, INVALID_REQUEST)
  }

  /** One turn of the loop. A state of another parser is passed over, as a C switch does. */
  function Step(l: Line, data: Bytes, p: nat): (m: Move)
    requires p < |data| && WellFormed(l, p)
    ensures GoesOn(m, l, p)
  {
    var ch := data[p];
    match l.state
    case Start | Method | SpacesBeforeUri => StepMethod(l, data, p)
    case Schema | SchemaSlash | SchemaSlashSlash => StepSchema(l, ch, p)
    case HostStart | Host | HostEnd | HostIpLiteral | Port => StepHost(l, ch, p)
    case AfterSlashInUri | CheckUri => StepPath(l, ch, p)
    case Uri => StepUri(l, ch, p)
    case HostHttp09 | CheckUriHttp09 | Http09 => StepHttp09(l, ch, p)
    case HttpH | HttpHT | HttpHTT | HttpHTTP => StepProtocol(l, ch)
    case FirstMajorDigit | MajorDigit | FirstMinorDigit | MinorDigit | SpacesAfterDigit =>
      StepVersion(l, ch, p)
    case AlmostDone => StepAlmostDone(l, ch, p)
    case _ => Next(l)
  }

  /** The code after the label `done`. */
  function Finish(l: Line, p: nat): (r: Result)
    ensures r.code == LOK || r.code == INVALID_09_METHOD
  {
    var l := l.(requestEnd := if l.requestEnd == Null then At(p) else l.requestEnd,
                httpVersion := l.http.major * 1000 + l.http.minor,
                state := Start);
    Result(if l.httpVersion == 9 && l.methodCode != METHOD_GET then INVALID_09_METHOD else LOK, l, p + 1)
  }

  /** How often the loop may still go back on the present byte. */
  function Backs(s: State): nat {
    if s == CheckUriHttp09 || s == Http09 then 1 else 0
  }

  /** The whole call on the bytes in sight. */
  function Run(l: Line, data: Bytes, p: nat): Result
    requires p <= |data| && WellFormed(l, p)
    decreases |data| - p, Backs(l.state)
  {
    hide Step;
    if p == |data| then Result(LAGAIN, l, p)
    else
      match Step(l, data, p)
      case Next(l') => Run(l', data, p + 1)
      case Back(l') => Run(l', data, p)
      case Done(l') => Finish(l', p)
      case Fail(l', code) => Result(code, l', p)
  }
}
