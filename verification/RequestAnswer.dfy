/**
 What the request-line parser answers to every input. It asks for more exactly on the beginnings of
 valid lines, and which error it gives on the rest is decided by the byte that ends the method.
 */
module RequestAnswers {
  import opened Bytes
  import opened Texts
  import opened ParserState
  import opened RequestLine
  import opened G = RequestGrammar
  import opened RequestRuns
  import opened RequestLanguage
  import RP = RequestProperties

  // ---------- from every state a line can be completed ----------

  /** The states that a request line passes through. */
  predicate Live(s: State) {
    s in {Start, Method, SpacesBeforeUri, Schema, SchemaSlash, SchemaSlashSlash,
          HostStart, State.Host, HostEnd, HostIpLiteral, Port, HostHttp09,
          AfterSlashInUri, CheckUri, CheckUriHttp09, Uri, Http09, SpacesAfterDigit,
          HttpH, HttpHT, HttpHTT, HttpHTTP, FirstMajorDigit, MajorDigit, FirstMinorDigit, MinorDigit, AlmostDone}
  }

  /** How many bytes are missing before a LF may end the line. */
  function Missing(s: State): nat {
    match s
    case HttpH => 7
    case HttpHT => 6
    case HttpHTT => 5
    case HttpHTTP | Schema => 4
    case FirstMajorDigit | SchemaSlash | Start => 3
    case MajorDigit | HostIpLiteral | SchemaSlashSlash | Method => 2
    case FirstMinorDigit | Port | Host | HostEnd | HostStart | SpacesBeforeUri => 1
    case _ => 0
  }

  /** One of them. */
  function Onward(s: State): Byte {
    match s
    case HttpH | HttpHT => UPPER_T
    case HttpHTT | Start => UPPER_P
    case FirstMajorDigit | FirstMinorDigit => 49
    case MajorDigit => DOT
    case Method => SP
    case Schema => COLON
    case HostIpLiteral => RBRACKET
    case _ => SLASH
  }

  lemma OnwardTurn(l: Line, data: Bytes, p: nat)
    requires p < |data| && WellFormed(l, p) && Live(l.state)
    ensures var m := Step(l, data, p);
            && (Missing(l.state) > 0 && data[p] == Onward(l.state) ==>
                  m.Next? && Missing(m.line.state) == Missing(l.state) - 1)
            && (Missing(l.state) == 0 && data[p] == LF ==> m.Done?)
  {
    hide MethodCode;
  }

  /** Some bytes more, and the line is complete. */
  lemma {:induction false} CanComplete(l: Line, data: Bytes) returns (more: Bytes)
    requires WellFormed(l, |data|) && Live(l.state)
    ensures Complete(Run(l, data + more, |data|))
    decreases Missing(l.state)
  {
    hide Run, Step;
    var c := if Missing(l.state) > 0 then Onward(l.state) else LF;
    var data1 := data + [c];
    OnwardTurn(l, data1, |data|);
    LiveTurn(l, data1, |data|);
    if Missing(l.state) > 0 {
      var l1 := Step(l, data1, |data|).line;
      var rest := CanComplete(l1, data1);
      more := [c] + rest;
      assert data + more == data1 + rest;
      RP.StepIsLocal(l, data1, rest, |data|);
      Turn(l, data + more, |data|);
    } else {
      more := [c];
      Turn(l, data1, |data|);
    }
  }

  lemma LiveTurn(l: Line, data: Bytes, p: nat)
    requires p < |data| && WellFormed(l, p) && Live(l.state)
    ensures var m := Step(l, data, p);
            m.Next? || m.Back? ==> Live(m.line.state)
  {
    hide MethodCode;
  }

  lemma {:induction false} StaysLive(l: Line, data: Bytes, p: nat)
    requires p <= |data| && WellFormed(l, p) && Live(l.state)
    ensures Run(l, data, p).code == LAGAIN ==> Live(Run(l, data, p).line.state)
    decreases |data| - p, Backs(l.state)
  {
    hide Run, Step;
    if p == |data| {
      AtEnd(l, data);
    } else {
      LiveTurn(l, data, p);
      Turn(l, data, p);
      match Step(l, data, p)
      case Next(l') => StaysLive(l', data, p + 1);
      case Back(l') => StaysLive(l', data, p);
      case _ =>
    }
  }

  // ---------- asking for more ----------

  /** With `more` behind it, the line of t stands at p, and data alone does not hold all of it. */
  predicate Begins(data: Bytes, more: Bytes, p: nat, t: Request) {
    Occurs(data + more, p, Text(t)) && p + |Text(t)| > |data|
  }

  /** The bytes from p on are the beginning of a valid line. */
  ghost predicate Pending(data: Bytes, p: nat) {
    exists more, t :: Valid(t) && Begins(data, more, p, t)
  }

  lemma {:induction false} PendingIfAgain(l: Line, data: Bytes, p: nat)
    requires p <= |data| && l.state == Start && Run(l, data, p).code == LAGAIN
    ensures Pending(data, p)
  {
    hide Run, Occurs, Text, Valid, Recorded;
    RP.AgainAtEnd(l, data, p);
    StaysLive(l, data, p);
    var more := CanComplete(Run(l, data, p).line, data);
    RP.Resume(l, data, more, p);
    var t := Soundness(l, data + more, p);
    Completeness(l, data + more, p, t);
    RP.Resume(l, data, more, p);
    if p + |Text(t)| <= |data| {
      OccursShorter(data, more, p, Text(t));
      Completeness(l, data, p, t);
    }
    assert Begins(data, more, p, t);
  }

  lemma AgainIfPending(l: Line, data: Bytes, more: Bytes, p: nat, t: Request)
    requires p <= |data| && l.state == Start && Valid(t) && Begins(data, more, p, t)
    ensures Run(l, data, p).code == LAGAIN
  {
    hide Run, Occurs, Text, Valid, Recorded;
    Completeness(l, data + more, p, t);
    RP.Resume(l, data, more, p);
    RP.AgainAtEnd(l, data, p);
  }

  // ---------- the two errors ----------

  /** The byte behind the blank lines and the method bytes is no space that ends a name. */
  predicate BadMethod(data: Bytes, p: nat)
    requires p <= |data|
  {
    var q := Skip(IsLineEnd, data, p);
    var n := Skip(IsMethodByte, data, q);
    n < |data| && (n == q || data[n] != SP)
  }

  lemma BehindMethod(l: Line, data: Bytes, p: nat)
    requires p < |data| && WellFormed(l, p) && l.state !in {Start, Method}
    ensures var m := Step(l, data, p);
            (m.Next? || m.Back? ==> m.line.state !in {Start, Method}) && (m.Fail? ==> m.code == INVALID_REQUEST)
  {
    hide MethodCode;
  }

  lemma {:induction false} RequestErrors(l: Line, data: Bytes, p: nat)
    requires p <= |data| && WellFormed(l, p) && l.state !in {Start, Method}
    ensures Run(l, data, p).code != INVALID_METHOD
    decreases |data| - p, Backs(l.state)
  {
    hide Run, Step;
    if p == |data| {
      AtEnd(l, data);
    } else {
      BehindMethod(l, data, p);
      Turn(l, data, p);
      match Step(l, data, p)
      case Next(l') => RequestErrors(l', data, p + 1);
      case Back(l') => RequestErrors(l', data, p);
      case _ =>
    }
  }

  lemma MethodErrors(l: Line, data: Bytes, p: nat)
    requires p <= |data| && l.state == Start
    ensures Run(l, data, p).code == INVALID_METHOD <==> BadMethod(data, p)
  {
    hide Run, Skip, MethodCode;
    var q := Skip(IsLineEnd, data, p);
    LeadRun(l, data, p);
    if q < |data| {
      var n := Skip(IsMethodByte, data, q);
      NameRun(l, data, q);
      if q < n < |data| && data[n] == SP {
        RequestErrors(Named(l, data, q, n), data, n + 1);
      }
    }
  }

  /** Every answer but LOK and the 0.9 error, of any request at the start of a line. */
  lemma AnswersExactly(l: Line, data: Bytes, p: nat)
    requires p <= |data| && l.state == Start
    ensures Run(l, data, p).code == LAGAIN <==> Pending(data, p)
    ensures Run(l, data, p).code == INVALID_METHOD <==> BadMethod(data, p)
    ensures Run(l, data, p).code == INVALID_REQUEST <==>
            && !Pending(data, p) && !BadMethod(data, p)
            && !exists t :: Valid(t) && Occurs(data, p, Text(t))
  {
    hide Run, Occurs, Text, Valid, Begins, BadMethod, AcceptedInto;
    RP.AgainAtEnd(l, data, p);
    MethodErrors(l, data, p);
    if Run(l, data, p).code == LAGAIN {
      PendingIfAgain(l, data, p);
    }
    if more, t :| Valid(t) && Begins(data, more, p, t) {
      AgainIfPending(l, data, more, p, t);
    }
    forall t | Valid(t) && Occurs(data, p, Text(t))
      ensures Complete(Run(l, data, p))
    {
      Completeness(l, data, p, t);
    }
    if Complete(Run(l, data, p)) {
      var t := Soundness(l, data, p);
    }
  }

  /** "OPTIONS * HTTP/1.1" is refused at once: the asterisk-form of a target is none the parser knows. */
  lemma AsteriskRefused(l: Line, data: Bytes)
    requires l.state == Start && Occurs(data, 0, NAME_OPTIONS + [SP, 42])
    ensures Run(l, data, 0).code == INVALID_REQUEST
  {
    hide Run, Step, MethodCode;
    var s := data[0..9];
    assert forall i :: 0 <= i < 9 ==> data[i] == s[i];
    SkipUnique(IsLineEnd, data, 0, 0);
    SkipUnique(IsMethodByte, data, 0, 7);
    LeadRun(l, data, 0);
    NameRun(l, data, 0);
    AsteriskTurn(Named(l, data, 0, 7), data, 8);
    Turn(Named(l, data, 0, 7), data, 8);
  }

  lemma AsteriskTurn(l: Line, data: Bytes, p: nat)
    requires p < |data| && l.state == SpacesBeforeUri && data[p] == 42
    ensures Step(l, data, p) == Fail(l, INVALID_REQUEST)
  {
  }
}
