/** What the status-line parser answers to every input: it asks for more exactly on the beginnings of status lines. */
module StatusAnswers {
  import opened Bytes
  import opened Texts
  import opened ParserState
  import opened StatusLine
  import opened StatusLanguage

  // ---------- from every state a line can be completed ----------

  /** The states in front of the end of the code. */
  predicate InFront(s: State) {
    s in {Start, HttpH, HttpHT, HttpHTT, HttpHTTP, FirstMajorDigit, MajorDigit, FirstMinorDigit, MinorDigit, StatusCode}
  }

  /** A status that a line may still be taken into. */
  predicate Live(s: Status) {
    (InFront(s.state) && s.count < 3) || s.state in {SpaceAfterStatus, StatusText, AlmostDone}
  }

  /** How many bytes are missing before a LF may end the line. */
  function Missing(s: Status): int {
    match s.state
    case Start => 12 - s.count
    case HttpH => 11 - s.count
    case HttpHT => 10 - s.count
    case HttpHTT => 9 - s.count
    case HttpHTTP => 8 - s.count
    case FirstMajorDigit => 7 - s.count
    case MajorDigit => 6 - s.count
    case FirstMinorDigit => 5 - s.count
    case MinorDigit => 4 - s.count
    case StatusCode => 3 - s.count
    case _ => 0
  }

  /** One of them. */
  function Onward(s: State): Byte {
    match s
    case Start => UPPER_H
    case HttpH | HttpHT => UPPER_T
    case HttpHTT => UPPER_P
    case HttpHTTP => SLASH
    case MajorDigit => DOT
    case MinorDigit => SP
    case _ => 49
  }

  lemma OnwardTurn(s: Status, ch: Byte, p: nat)
    requires Live(s)
    ensures var m := Step(s, ch, p);
            && (m.Next? ==> Live(m.s))
            && (InFront(s.state) && ch == Onward(s.state) ==> m.Next? && 0 <= Missing(m.s) == Missing(s) - 1)
            && (!InFront(s.state) && ch == LF ==> m.Done?)
  {
  }

  /** Some bytes more, and the line is complete. */
  lemma {:induction false} CanComplete(s: Status, data: Bytes) returns (more: Bytes)
    requires Live(s)
    ensures Run(s, data + more, |data|).code == LOK
    decreases Missing(s)
  {
    hide Run, Step;
    var c := if InFront(s.state) then Onward(s.state) else LF;
    OnwardTurn(s, c, |data|);
    more := [c];
    if InFront(s.state) {
      var rest := CanComplete(Step(s, c, |data|).s, data + [c]);
      assert data + ([c] + rest) == data + [c] + rest;
      more := [c] + rest;
    }
    Turn(s, data + more, |data|);
  }

  lemma {:induction false} StaysLive(s: Status, data: Bytes, p: nat)
    requires p <= |data| && Live(s)
    ensures Run(s, data, p).code == LAGAIN ==> Live(Run(s, data, p).s)
    decreases |data| - p
  {
    hide Run, Step;
    if p == |data| {
      AtEnd(s, data);
    } else {
      OnwardTurn(s, data[p], p);
      Turn(s, data, p);
      match Step(s, data[p], p)
      case Next(s') => StaysLive(s', data, p + 1);
      case _ =>
    }
  }

  // ---------- asking for more ----------

  /** With `more` behind it, the line of t stands at p, and data alone does not hold all of it. */
  predicate Begins(data: Bytes, more: Bytes, p: nat, t: StatusTree) {
    Occurs(data + more, p, Text(t)) && p + |Text(t)| > |data|
  }

  lemma {:induction false} BeginsIfAgain(s: Status, data: Bytes, p: nat) returns (more: Bytes, t: StatusTree)
    requires p <= |data| && s.state == Start && s.count < 3 && Run(s, data, p).code == LAGAIN
    ensures AcceptedInto(s, t) && Begins(data, more, p, t)
  {
    hide Run, Occurs, Text, AcceptedInto, Recorded;
    AgainAtEnd(s, data, p);
    StaysLive(s, data, p);
    more := CanComplete(Run(s, data, p).s, data);
    Resume(s, data, more, p);
    t := Soundness(s, data + more, p);
    Completeness(s, data + more, p, t);
    if p + |Text(t)| <= |data| {
      OccursShorter(data, more, p, Text(t));
      Completeness(s, data, p, t);
    }
  }

  lemma AgainIfBegins(s: Status, data: Bytes, more: Bytes, p: nat, t: StatusTree)
    requires p <= |data| && s.state == Start && AcceptedInto(s, t) && Begins(data, more, p, t)
    ensures Run(s, data, p).code == LAGAIN
  {
    hide Run, Occurs, Text, AcceptedInto, Recorded;
    Completeness(s, data + more, p, t);
    Resume(s, data, more, p);
    AgainAtEnd(s, data, p);
  }

  // ---------- a count that is never three ----------

  /** Two counts that no digit in sight makes three: the parser cannot tell them apart. */
  lemma {:induction false} NeverThree(s: Status, s': Status, data: Bytes, p: nat)
    requires p <= |data| && InFront(s.state) && s' == s.(count := s'.count)
    requires s.count >= 3 && s'.count + |data| - p < 3
    ensures Run(s, data, p).code == Run(s', data, p).code
    decreases |data| - p
  {
    hide Run;
    if p == |data| {
      AtEnd(s, data);
      AtEnd(s', data);
    } else {
      Turn(s, data, p);
      Turn(s', data, p);
      match Step(s, data[p], p)
      case Next(s1) => NeverThree(s1, Step(s', data[p], p).s, data, p + 1);
      case _ =>
    }
  }

  /** The lines that s waits for: with the missing digits or, if the count is past three, with more than are in sight. */
  predicate Awaited(s: Status, data: Bytes, t: StatusTree) {
    if s.count < 3 then AcceptedInto(s, t) else Shaped(t) && |t.code| > |data|
  }

  /** The bytes from p on are the beginning of a line that s waits for. */
  ghost predicate Pending(s: Status, data: Bytes, p: nat) {
    exists more, t :: Awaited(s, data, t) && Begins(data, more, p, t)
  }

  lemma AgainExactly(s: Status, data: Bytes, p: nat)
    requires p <= |data| && s.state == Start
    ensures Run(s, data, p).code == LAGAIN <==> Pending(s, data, p)
  {
    hide Run, Begins, Shaped;
    if Run(s, data, p).code == LAGAIN {
      var s' := if s.count < 3 then s else s.(count := 2 - |data|);
      if s.count >= 3 {
        NeverThree(s, s', data, p);
      }
      var more, t := BeginsIfAgain(s', data, p);
      assert Awaited(s, data, t);
    }
    if more, t :| Awaited(s, data, t) && Begins(data, more, p, t) {
      var s' := if s.count < 3 then s else s.(count := 3 - |t.code|);
      AgainIfBegins(s', data, more, p, t);
      if s.count >= 3 {
        NeverThree(s, s', data, p);
      }
    }
  }

  /** Every answer but LOK, of any status at the start of a line; on a fresh one it waits for the valid lines. */
  lemma AnswersExactly(s: Status, data: Bytes, p: nat)
    requires p <= |data| && s.state == Start
    ensures Run(s, data, p).code == LAGAIN <==> Pending(s, data, p)
    ensures Run(s, data, p).code == LERROR <==>
            !Pending(s, data, p) && !exists t :: AcceptedInto(s, t) && Occurs(data, p, Text(t))
    ensures Fresh(s) ==> forall t :: Awaited(s, data, t) <==> Valid(t)
  {
    hide Run, Occurs, Text, Pending, Shaped;
    AgainAtEnd(s, data, p);
    AgainExactly(s, data, p);
    AcceptsExactly(s, data, p);
  }

  /** "ICY 200 OK" is refused at once. */
  lemma IcyRefused(s: Status, data: Bytes)
    requires s.state == Start && data != [] && data[0] == 'I' as int
    ensures Run(s, data, 0).code == LERROR
  {
    hide Run;
    Turn(s, data, 0);
  }
}
