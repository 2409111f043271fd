/** What the header-line parser answers to every input of a request with no upstream. */
module HeaderAnswers {
  import opened Bytes
  import opened Texts
  import opened ParserState
  import opened HeaderLine
  import opened HeaderLanguage

  /** The states that a header line passes through; a LF may end it in every one of them. */
  predicate Live(s: State) {
    s in {Start, Name, SpaceBeforeValue, Value, SpaceAfterValue, AlmostDone, HeaderAlmostDone}
  }

  lemma LiveTurn(env: Env, h: Header, data: Bytes, p: nat)
    requires p < |data| && WellFormed(h, p) && Live(h.state) && !env.upstream
    ensures var m := Step(env, h, data, p);
            && (m.Next? ==> Live(m.h.state))
            && (data[p] == LF ==> m.Done? || m.DoneAll?)
  {
  }

  lemma {:induction false} StaysLive(env: Env, h: Header, data: Bytes, p: nat)
    requires p <= |data| && WellFormed(h, p) && Live(h.state) && !env.upstream
    ensures Run(env, h, data, p).code == LAGAIN ==> Live(Run(env, h, data, p).h.state)
    decreases |data| - p
  {
    hide Run, Step;
    if p == |data| {
      AtEnd(env, h, data);
    } else {
      LiveTurn(env, h, data, p);
      Turn(env, h, data, p);
      match Step(env, h, data, p)
      case Next(h') => StaysLive(env, h', data, p + 1);
      case _ =>
    }
  }

  /** A call that asks for more needs no more than a LF. */
  lemma {:induction false} LfEnds(env: Env, h: Header, data: Bytes, p: nat)
    requires p <= |data| && WellFormed(h, p) && Live(h.state) && !env.upstream
    requires Run(env, h, data, p).code == LAGAIN
    ensures Run(env, h, data + [LF], p).code in {LOK, HEADER_DONE}
  {
    hide Run, Step, WellFormed;
    var r := Run(env, h, data, p);
    StaysLive(env, h, data, p);
    Resume(env, h, data, [LF], p);
    LiveTurn(env, r.h, data + [LF], |data|);
    Turn(env, r.h, data + [LF], |data|);
  }

  /** With `more` behind it, the text w stands at p, and data alone does not hold all of it. */
  predicate Begins(data: Bytes, more: Bytes, p: nat, w: Bytes) {
    Occurs(data + more, p, w) && p + |w| > |data|
  }

  /** The bytes from p on are the beginning of a header line or of a blank line. */
  ghost predicate Pending(data: Bytes, p: nat) {
    || (exists more, t :: ValidText(t) && Begins(data, more, p, Text(t)))
    || (exists more, blank :: Begins(data, more, p, EolText(blank)))
  }

  lemma {:induction false} PendingIfAgain(env: Env, h: Header, data: Bytes, p: nat)
    requires p <= |data| && WellFormed(h, p) && h.state == Start && !env.upstream
    requires Run(env, h, data, p).code == LAGAIN
    ensures Pending(data, p)
  {
    hide Run, WellFormed, Occurs, Text, ValidText, Recorded;
    LfEnds(env, h, data, p);
    var d := data + [LF];
    if Run(env, h, d, p).code == LOK {
      var t := Soundness(env, h, d, p);
      if p + |Text(t)| <= |data| {
        OccursShorter(data, [LF], p, Text(t));
        Completeness(env, h, data, p, t);
      }
      OccursFits(d, p, Text(t));
      assert Begins(data, [LF], p, Text(t));
    } else {
      AcceptsExactlyTheLanguage(env, h, d, p);
      AcceptsExactlyTheLanguage(env, h, data, p);
      var blank := if Occurs(d, p, [LF]) then Lf else CrLf;
      if p + |EolText(blank)| <= |data| {
        OccursShorter(data, [LF], p, EolText(blank));
      }
      assert Begins(data, [LF], p, EolText(blank));
    }
  }

  lemma AgainIfLine(env: Env, h: Header, data: Bytes, more: Bytes, p: nat, t: HeaderText)
    requires p <= |data| && WellFormed(h, p) && h.state == Start && !env.upstream
    requires ValidText(t) && Begins(data, more, p, Text(t))
    ensures Run(env, h, data, p).code == LAGAIN
  {
    hide Run, WellFormed, Occurs, Text, ValidText, Recorded;
    Completeness(env, h, data + more, p, t);
    Resume(env, h, data, more, p);
    AgainAtEnd(env, h, data, p);
  }

  lemma AgainIfBlank(env: Env, h: Header, data: Bytes, more: Bytes, p: nat, blank: Eol)
    requires p <= |data| && WellFormed(h, p) && h.state == Start && !env.upstream
    requires Begins(data, more, p, EolText(blank))
    ensures Run(env, h, data, p).code == LAGAIN
  {
    hide Run, WellFormed, Occurs;
    StartSound(env, h, data + more, p);
    Resume(env, h, data, more, p);
    AgainAtEnd(env, h, data, p);
  }

  /** It asks for more exactly on the beginnings of a header line or blank line, and fails on the rest. */
  lemma AnswersExactly(env: Env, h: Header, data: Bytes, p: nat)
    requires p <= |data| && WellFormed(h, p) && h.state == Start && !env.upstream
    ensures Run(env, h, data, p).code == LAGAIN <==> Pending(data, p)
    ensures Run(env, h, data, p).code == INVALID_HEADER <==>
            && !Pending(data, p) && !Occurs(data, p, [LF]) && !Occurs(data, p, [CR, LF])
            && !exists t :: ValidText(t) && Occurs(data, p, Text(t))
  {
    hide Run, WellFormed, Occurs, Text, ValidText, Begins;
    AgainAtEnd(env, h, data, p);
    AcceptsExactlyTheLanguage(env, h, data, p);
    if Run(env, h, data, p).code == LAGAIN {
      PendingIfAgain(env, h, data, p);
    }
    if more, t :| ValidText(t) && Begins(data, more, p, Text(t)) {
      AgainIfLine(env, h, data, more, p, t);
    }
    if more, blank :| Begins(data, more, p, EolText(blank)) {
      AgainIfBlank(env, h, data, more, p, blank);
    }
  }

  // ---------- with an upstream: a second status line is skipped ----------

  /** The rest of a line that is skipped. */
  lemma {:induction false} SkipLine(env: Env, h: Header, data: Bytes, p: nat)
    requires p <= |data| && WellFormed(h, p) && h.state == IgnoreLine
    ensures var e := First(data, p, |data|, LF);
            if e < |data| then Run(env, h, data, p) == Run(env, h.To(Start), data, e + 1)
            else Run(env, h, data, p).code == LAGAIN
    decreases |data| - p
  {
    hide Run;
    if p == |data| {
      AtEnd(env, h, data);
    } else {
      Turn(env, h, data, p);
      if data[p] != LF {
        SkipLine(env, h, data, p + 1);
      }
    }
  }

  /** Where an upstream sends a line that starts with "HTTP/" among its headers, the parser goes on behind it. */
  lemma StatusLineSkipped(env: Env, h: Header, data: Bytes, p: nat) returns (h': Header)
    requires WellFormed(h, p) && h.state == Start && env.upstream && Occurs(data, p, HTTP + [SLASH])
    ensures p + 5 <= |data| && h'.state == Start && WellFormed(h', p)
    ensures var e := First(data, p + 5, |data|, LF);
            if e < |data| then Run(env, h, data, p) == Run(env, h', data, e + 1)
            else Run(env, h, data, p).code == LAGAIN
  {
    hide Run, Step, WellFormed;
    var h0 := h;
    for i := 0 to 4
      invariant WellFormed(h0, p + i) && Run(env, h, data, p) == Run(env, h0, data, p + i)
      invariant if i == 0 then h0.state == Start else h0.state == Name && h0.nameStart == p
    {
      UpperTurn(env, h0, data, p + i);
      Turn(env, h0, data, p + i);
      h0 := Step(env, h0, data, p + i).h;
    }
    SlashTurn(env, h0, data, p);
    Turn(env, h0, data, p + 4);
    SkipLine(env, h0.To(IgnoreLine), data, p + 5);
    h' := h0.To(Start);
    AnyPosition(h0, p + 4, h', p);
  }

  lemma AnyPosition(h: Header, q: nat, h': Header, p: nat)
    requires WellFormed(h, q) && h' == h.To(Start)
    ensures WellFormed(h', p)
  {
  }

  lemma UpperTurn(env: Env, h: Header, data: Bytes, p: nat)
    requires p < |data| && WellFormed(h, p) && h.state in {Start, Name} && IsUpper(data[p])
    ensures var m := Step(env, h, data, p);
            m.Next? && m.h.state == Name && m.h.nameStart == if h.state == Start then p else h.nameStart
  {
  }

  lemma SlashTurn(env: Env, h: Header, data: Bytes, p: nat)
    requires Occurs(data, p, HTTP + [SLASH]) && env.upstream
    requires WellFormed(h, p + 4) && h.state == Name && h.nameStart == p
    ensures p + 4 < |data| && Step(env, h, data, p + 4) == Next(h.To(IgnoreLine))
  {
    OccursConcat(data, p, HTTP, [SLASH]);
  }

  /** Any other line is parsed as it is with no upstream. */
  lemma {:induction false} UpstreamElse(env: Env, h: Header, data: Bytes, from: nat, p: nat)
    requires p <= |data| && WellFormed(h, p) && Live(h.state) && !Occurs(data, from, HTTP + [SLASH])
    requires (h.state == Start ==> p == from) && (h.state == Name ==> h.nameStart == from)
    ensures Run(env.(upstream := true), h, data, p) == Run(env.(upstream := false), h, data, p)
    decreases |data| - p
  {
    hide Run, Step, Occurs;
    var up, down := env.(upstream := true), env.(upstream := false);
    if p == |data| {
      AtEnd(up, h, data);
      AtEnd(down, h, data);
    } else {
      SameTurn(env, h, data, from, p);
      Turn(up, h, data, p);
      Turn(down, h, data, p);
      match Step(up, h, data, p)
      case Next(h') => UpstreamElse(env, h', data, from, p + 1);
      case _ =>
    }
  }

  lemma SameTurn(env: Env, h: Header, data: Bytes, from: nat, p: nat)
    requires p < |data| && WellFormed(h, p) && Live(h.state) && !Occurs(data, from, HTTP + [SLASH])
    requires (h.state == Start ==> p == from) && (h.state == Name ==> h.nameStart == from)
    ensures var m := Step(env.(upstream := true), h, data, p);
            && m == Step(env.(upstream := false), h, data, p)
            && (m.Next? ==>
                  && Live(m.h.state) && m.h.state != Start
                  && (m.h.state == Name ==> m.h.nameStart == from))
  {
    if h.state == Name && data[p] == SLASH && p - from == 4 {
      OccursConcat(data, from, HTTP, [SLASH]);
      OccursOne(data, p, SLASH);
    }
  }
}
