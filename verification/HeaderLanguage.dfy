/**
 The language of header lines (section 3.2 of RFC 7230, loosened), and what the machine records
 of a line: the spans of name and value, the hash of the name and its last 32 bytes. An
 upstream's duplicate status lines, which the machine skips, are outside this language.
 */
module HeaderLanguage {
  import opened Bytes
  import opened Texts
  import opened ParserState
  import opened HeaderLine

  /** A header line: its name, the text between ':' and the line end, and the CRs before the LF. */
  datatype HeaderText = HeaderText(name: Bytes, value: Option<Bytes>, crs: nat)

  function ValueText(value: Option<Bytes>): Bytes {
    if value == None then [] else [COLON] + value.value
  }

  function EndText(crs: nat): Bytes { Repeat(CR, crs) + [LF] }

  function Text(t: HeaderText): Bytes {
    t.name + (ValueText(t.value) + EndText(t.crs))
  }

  predicate IsValueByte(b: Byte) { b !in {CR, LF, NUL} }

  /** The bytes that go on with a name, valid or not. */
  predicate IsNameRun(b: Byte) { IsValueByte(b) && b != COLON }

  predicate ValidText(t: HeaderText) {
    && t.name != [] && IsValueByte(t.name[0]) && All(t.name[1..], IsNameRun)
    && (t.value.Some? ==> All(t.value.value, IsValueByte))
  }

  /** The bytes of a header name: letters, digits and '-', and '_' where it is allowed. */
  predicate IsNameByte(env: Env, b: Byte) {
    var c := b as char;
    || 'a' <= c <= 'z' || 'A' <= c <= 'Z' || '0' <= c <= '9' || c == '-'
    || (c == '_' && env.underscores)
  }

  predicate ValidName(env: Env, name: Bytes) {
    forall i :: 0 <= i < |name| ==> IsNameByte(env, name[i])
  }

  /** The table of the parser marks exactly the bytes of names, and on them it is tolower. */
  lemma NameByteIsLower(env: Env, b: Byte)
    ensures NameByte(env, b) == if IsNameByte(env, b) then Lower(b) else 0
    ensures NameByte(env, b) != 0 <==> IsNameByte(env, b)
  {
  }

  // ---------- the name ----------

  /** The bag of facts about a name data[from..p] while the machine reads it. */
  predicate NameInv(env: Env, h: Header, data: Bytes, from: nat, p: nat)
    requires from <= p <= |data|
  {
    && h.state == Name && h.nameStart == from
    && (h.invalid <==> !ValidName(env, data[from..p]))
    && (!h.invalid ==> NameRight(h, data[from..p]))
  }

  /** Hash, index and ring are those of the lowercased name. */
  predicate NameRight(h: Header, name: Bytes) {
    && h.hash == Hash(LowerAll(name))
    && h.index == |name| % RING && |h.ring| == RING
    && forall j :: |name| - RING <= j < |name| && 0 <= j ==> RingHolds(h.ring, name, j)
  }

  predicate RingHolds(ring: Bytes, name: Bytes, j: nat)
    requires j < |name| && |ring| == RING
  {
    ring[j % RING] == Lower(name[j])
  }

  lemma {:induction false} NameGrows(env: Env, h: Header, name: Bytes, b: Byte)
    requires NameRight(h, name) && NameByte(env, b) != 0
    ensures 0 <= h.index < RING && NameRight(NextByte(h, NameByte(env, b)), name + [b])
  {
    NameByteIsLower(env, b);
    var n := |name|;
    var name' := name + [b];
    var h' := NextByte(h, Lower(b));
    assert LowerAll(name')[..n] == LowerAll(name);
    assert (n % RING + 1) % RING == (n + 1) % RING;
    forall j | n + 1 - RING <= j < n + 1 && 0 <= j ensures RingHolds(h'.ring, name', j) {
      if j < n {
        assert RingHolds(h.ring, name, j);
        assert j % RING != n % RING by { SlotsDiffer(j, n); }
      }
    }
  }

  lemma SlotsDiffer(j: nat, n: nat)
    requires n - RING < j < n
    ensures j % RING != n % RING
  {
  }

  lemma FirstNameByte(env: Env, h: Header, b: Byte)
    requires |h.ring| == RING && NameByte(env, b) != 0
    ensures NameRight(FirstByte(h, NameByte(env, b)), [b])
  {
    NameByteIsLower(env, b);
    var l := LowerAll([b]);
    assert l[..0] == [] && l[0] == Lower(b);
    assert Hash(l) == HashStep(Hash(l[..0]), l[0]);
  }

  lemma {:induction false} NameRun(env: Env, h: Header, data: Bytes, from: nat, p: nat) returns (h': Header)
    requires from < p <= |data| && WellFormed(h, p) && !env.upstream && NameInv(env, h, data, from, p)
    ensures var q := Skip(IsNameRun, data, p);
            && WellFormed(h', q) && NameInv(env, h', data, from, q)
            && Run(env, h, data, p) == Run(env, h', data, q)
    decreases |data| - p
  {
    hide Run, WellFormed;
    h' := h;
    if p < |data| && IsNameRun(data[p]) {
      Turn(env, h, data, p);
      var h1 := Step(env, h, data, p).h;
      NameTurn(env, h, data, from, p);
      h' := NameRun(env, h1, data, from, p + 1);
    }
  }

  lemma ValidGrows(env: Env, name: Bytes, b: Byte)
    ensures ValidName(env, name + [b]) <==> ValidName(env, name) && IsNameByte(env, b)
  {
    hide IsNameByte;
    var name' := name + [b];
    assert name'[|name|] == b;
    if ValidName(env, name') {
      forall i | 0 <= i < |name|
        ensures IsNameByte(env, name[i])
      {
        assert name'[i] == name[i];
      }
    }
  }

  lemma NameTurn(env: Env, h: Header, data: Bytes, from: nat, p: nat)
    requires from < p < |data| && WellFormed(h, p) && !env.upstream && NameInv(env, h, data, from, p)
    requires IsNameRun(data[p])
    ensures var m := Step(env, h, data, p);
            m.Next? && NameInv(env, m.h, data, from, p + 1)
  {
    var name, b := data[from..p], data[p];
    SliceGrows(data, from, p);
    NameByteIsLower(env, b);
    ValidGrows(env, name, b);
    if NameByte(env, b) != 0 && !h.invalid {
      NameGrows(env, h, name, b);
    }
  }

  lemma NameStart(env: Env, h: Header, data: Bytes, p: nat)
    requires p < |data| && WellFormed(h, p) && h.state == Start && IsValueByte(data[p])
    ensures var m := Step(env, h, data, p);
            m.Next? && NameInv(env, m.h, data, p, p + 1)
  {
    assert data[p..p + 1] == [data[p]];
    NameByteIsLower(env, data[p]);
    if NameByte(env, data[p]) != 0 {
      FirstNameByte(env, h.(nameStart := p, invalid := false, state := Name), data[p]);
    } else {
      assert !ValidName(env, [data[p]]) by { assert [data[p]][0] == data[p]; }
    }
  }

  // ---------- the value ----------

  /** Just past the last byte of data[a..p] that is no space. */
  function TrimEnd(data: Bytes, a: nat, p: nat): (e: nat)
    requires a <= p <= |data|
    ensures a <= e <= p
  {
    if a == p then a else if data[p - 1] == SP then TrimEnd(data, a, p - 1) else p
  }

  /** A text without the spaces at either end. */
  function Trim(s: Bytes): Bytes {
    if s != [] && s[0] == SP then Trim(s[1..])
    else if s != [] && s[|s| - 1] == SP then Trim(s[..|s| - 1])
    else s
  }

  /** Only spaces are taken away, and none is left at either end. */
  lemma {:induction false} TrimMeans(s: Bytes) returns (a: nat, b: nat)
    ensures s == Spaces(a) + Trim(s) + Spaces(b)
    ensures Trim(s) != [] ==> Trim(s)[0] != SP && Trim(s)[|Trim(s)| - 1] != SP
    decreases |s|
  {
    a, b := 0, 0;
    if s != [] && s[0] == SP {
      a, b := TrimMeans(s[1..]);
      a := a + 1;
    } else if s != [] && s[|s| - 1] == SP {
      a, b := TrimMeans(s[..|s| - 1]);
      b := b + 1;
    }
  }

  lemma {:induction false} TrimFront(data: Bytes, v: nat, te: nat)
    requires v <= te <= |data| && (te < |data| ==> data[te] != SP)
    ensures var a := Skip(IsSpace, data, v);
            a <= te && Trim(data[v..te]) == Trim(data[a..te])
    decreases te - v
  {
    if v < te && data[v] == SP {
      assert data[v..te][1..] == data[v + 1..te];
      TrimFront(data, v + 1, te);
    }
  }

  lemma {:induction false} TrimBack(data: Bytes, a: nat, p: nat)
    requires a <= p <= |data| && (a < p ==> data[a] != SP)
    ensures Trim(data[a..p]) == data[a..TrimEnd(data, a, p)]
    decreases p
  {
    if a < p && data[p - 1] == SP {
      assert data[a..p][..p - 1 - a] == data[a..p - 1];
      TrimBack(data, a, p - 1);
    }
  }

  /** Where the trimmed value starts and ends in the text between ':' and the line end. */
  function ValueFrom(raw: Bytes): (a: nat)
    ensures a <= |raw|
  {
    Skip(IsSpace, raw, 0)
  }

  function ValueTo(raw: Bytes): (e: nat)
    ensures ValueFrom(raw) <= e <= |raw|
  {
    TrimEnd(raw, ValueFrom(raw), |raw|)
  }

  lemma {:induction false} SkipInSlice(ok: Byte -> bool, data: Bytes, v: nat, te: nat, i: nat)
    requires v + i <= te <= |data| && Skip(ok, data, v + i) <= te
    ensures Skip(ok, data[v..te], i) == Skip(ok, data, v + i) - v
    decreases te - i
  {
    SkipUnique(ok, data[v..te], i, Skip(ok, data, v + i) - v);
  }

  lemma {:induction false} TrimEndInSlice(data: Bytes, v: nat, te: nat, a: nat, p: nat)
    requires v <= a <= p <= te <= |data|
    ensures TrimEnd(data[v..te], a - v, p - v) == TrimEnd(data, a, p) - v
    decreases p
  {
    if a < p && data[p - 1] == SP {
      TrimEndInSlice(data, v, te, a, p - 1);
    }
  }

  /** The machine's value span, as offsets into the text of the value. */
  lemma SpanInValue(data: Bytes, v: nat, te: nat)
    requires v <= te <= |data| && Skip(IsSpace, data, v) <= te
    ensures var raw := data[v..te];
            && ValueFrom(raw) == Skip(IsSpace, data, v) - v
            && ValueTo(raw) == TrimEnd(data, Skip(IsSpace, data, v), te) - v
  {
    hide Skip, TrimEnd;
    SkipInSlice(IsSpace, data, v, te, 0);
    TrimEndInSlice(data, v, te, Skip(IsSpace, data, v), te);
  }

  predicate InValue(s: State) { s == Value || s == SpaceAfterValue }

  /** Inside a value that began at a. */
  predicate ValueInv(h: Header, data: Bytes, a: nat, p: nat)
    requires a <= p <= |data|
  {
    && InValue(h.state) && h.start == a
    && var e := TrimEnd(data, a, p);
       if h.state == Value then e == p else h.end == e < p
  }

  lemma {:induction false} ValueRun(env: Env, h: Header, data: Bytes, a: nat, p: nat) returns (h': Header)
    requires a < p <= |data| && WellFormed(h, p) && ValueInv(h, data, a, p)
    ensures var q := Skip(IsValueByte, data, p);
            && WellFormed(h', q) && ValueInv(h', data, a, q)
            && h' == h.(end := h'.end, state := h'.state)
            && Run(env, h, data, p) == Run(env, h', data, q)
    decreases |data| - p
  {
    hide Run;
    h' := h;
    if p < |data| && IsValueByte(data[p]) {
      Turn(env, h, data, p);
      h' := ValueRun(env, Step(env, h, data, p).h, data, a, p + 1);
    }
  }

  /** The states a line end may be met in, and what each then records. */
  function AtLineEnd(h: Header, q: nat): Header {
    match h.state
    case Name => h.(nameEnd := q, start := q, end := q)
    case SpaceBeforeValue => h.(start := q, end := q)
    case Value => h.(end := q)
    case _ => h
  }

  predicate MeetsLineEnd(s: State) { s == Name || s == SpaceBeforeValue || InValue(s) }

  lemma LineEndTurn(env: Env, h: Header, data: Bytes, q: nat)
    requires q < |data| && WellFormed(h, q) && MeetsLineEnd(h.state)
    ensures data[q] == CR ==> Step(env, h, data, q) == Next(AtLineEnd(h, q).To(AlmostDone))
    ensures data[q] == LF ==> Step(env, h, data, q) == Done(AtLineEnd(h, q))
    ensures data[q] == NUL ==> Step(env, h, data, q).Fail?
    ensures WellFormed(AtLineEnd(h, q).To(AlmostDone), q + 1)
    ensures forall j: nat :: Finish(AtLineEnd(h, q).To(AlmostDone), j) == Finish(AtLineEnd(h, q), j)
  {
  }

  lemma CrLfRun(env: Env, h: Header, data: Bytes, p: nat)
    requires p <= |data| && WellFormed(h, p) && h.state == AlmostDone
    ensures var j := Skip(IsCr, data, p);
            if j < |data| && data[j] == LF then Run(env, h, data, p) == Finish(h, j)
            else Run(env, h, data, p).code != LOK
  {
    hide Run;
    var j := Skip(IsCr, data, p);
    CrRun(env, h, data, p);
    if j < |data| { Turn(env, h, data, j); } else { AtEnd(env, h, data); }
  }

  /** The line end at q: the line is complete if CRs and an LF stand there, and only then. */
  lemma LineEndRun(env: Env, h: Header, data: Bytes, q: nat)
    requires q < |data| && WellFormed(h, q) && MeetsLineEnd(h.state)
    requires IsLineEnd(data[q]) || data[q] == NUL
    ensures var j := Skip(IsCr, data, q);
            if j < |data| && data[j] == LF then Run(env, h, data, q) == Finish(AtLineEnd(h, q), j)
            else Run(env, h, data, q).code != LOK
  {
    hide Run, Step, AtLineEnd, WellFormed, Finish, MeetsLineEnd;
    Turn(env, h, data, q);
    LineEndTurn(env, h, data, q);
    if data[q] == CR {
      CrLfRun(env, AtLineEnd(h, q).To(AlmostDone), data, q + 1);
    }
  }

  predicate IsCr(b: Byte) { b == CR }

  lemma {:induction false} CrRun(env: Env, h: Header, data: Bytes, p: nat)
    requires p <= |data| && WellFormed(h, p) && h.state == AlmostDone
    ensures Run(env, h, data, p) == Run(env, h, data, Skip(IsCr, data, p))
    decreases |data| - p
  {
    hide Run;
    if p < |data| && data[p] == CR {
      Turn(env, h, data, p);
      CrRun(env, h, data, p + 1);
    }
  }

  lemma {:induction false} SpaceRun(env: Env, h: Header, data: Bytes, p: nat)
    requires p <= |data| && WellFormed(h, p) && h.state == SpaceBeforeValue
    ensures Run(env, h, data, p) == Run(env, h, data, Skip(IsSpace, data, p))
    decreases |data| - p
  {
    hide Run;
    if p < |data| && data[p] == SP {
      Turn(env, h, data, p);
      SpaceRun(env, h, data, p + 1);
    }
  }

  /** From the colon to the end of the value: the span is the text between, trimmed. */
  lemma {:induction false} WholeValueRun(env: Env, h: Header, data: Bytes, v: nat) returns (h': Header)
    requires v <= |data| && WellFormed(h, v) && h.state == SpaceBeforeValue
    ensures var te := Skip(IsValueByte, data, v);
            var a := Skip(IsSpace, data, v);
            && a <= te && WellFormed(h', te)
            && Run(env, h, data, v) == Run(env, h', data, te)
            && MeetsLineEnd(h'.state)
            && AtLineEnd(h', te) == h.(start := a, end := TrimEnd(data, a, te), state := h'.state)
  {
    hide Run, Step, Skip, TrimEnd;
    var te := Skip(IsValueByte, data, v);
    var a := Skip(IsSpace, data, v);
    SpacesAreValue(data, v);
    SpaceRun(env, h, data, v);
    if a == te {
      h' := h;
    } else {
      ValueTurn(env, h, data, a);
      Turn(env, h, data, a);
      h' := ValueRun(env, h.(start := a, state := Value), data, a, a + 1);
    }
  }

  /** The first byte of a value. */
  lemma ValueTurn(env: Env, h: Header, data: Bytes, a: nat)
    requires a < |data| && WellFormed(h, a) && h.state == SpaceBeforeValue && IsValueByte(data[a]) && data[a] != SP
    ensures Step(env, h, data, a) == Next(h.(start := a, state := Value))
    ensures TrimEnd(data, a, a + 1) == a + 1
  {
    hide StepStart, StepName;
  }

  lemma SpacesAreValue(data: Bytes, v: nat)
    requires v <= |data|
    ensures var a := Skip(IsSpace, data, v);
            a <= Skip(IsValueByte, data, v) == Skip(IsValueByte, data, a)
            && (a < Skip(IsValueByte, data, v) ==> Skip(IsValueByte, data, a + 1) == Skip(IsValueByte, data, a))
  {
    var te := Skip(IsValueByte, data, v);
    var a := Skip(IsSpace, data, v);
    assert forall i :: v <= i < a ==> IsValueByte(data[i]);
    SkipUnique(IsValueByte, data, a, te);
  }

  // ---------- the language ----------

  lemma EndComplete(data: Bytes, e: nat, crs: nat)
    requires Occurs(data, e, EndText(crs))
    ensures e < |data| && IsLineEnd(data[e]) && Skip(IsCr, data, e) == e + crs < |data| && data[e + crs] == LF
  {
    OccursConcat(data, e, Repeat(CR, crs), [LF]);
    OccursFits(data, e + crs, [LF]);
    OccursClass(IsCr, data, e, Repeat(CR, crs));
  }

  lemma EndSound(data: Bytes, e: nat)
    requires e < |data| && var j := Skip(IsCr, data, e); j < |data| && data[j] == LF
    ensures Occurs(data, e, EndText(Skip(IsCr, data, e) - e))
  {
    var j := Skip(IsCr, data, e);
    assert data[e..j] == Repeat(CR, j - e);
    assert data[j..j + 1] == [LF];
    OccursConcat(data, e, Repeat(CR, j - e), [LF]);
  }

  lemma OccursText(data: Bytes, p: nat, t: HeaderText)
    ensures Occurs(data, p, Text(t)) <==>
            var q := p + |t.name|;
            && Occurs(data, p, t.name) && Occurs(data, q, ValueText(t.value))
            && Occurs(data, q + |ValueText(t.value)|, EndText(t.crs))
  {
    hide Occurs;
    OccursConcat(data, p, t.name, ValueText(t.value) + EndText(t.crs));
    OccursConcat(data, p + |t.name|, ValueText(t.value), EndText(t.crs));
  }

  /** The run over a name, from the start state. */
  lemma WholeNameRun(env: Env, h: Header, data: Bytes, p: nat) returns (h': Header)
    requires p < |data| && WellFormed(h, p) && h.state == Start && !env.upstream && IsValueByte(data[p])
    ensures var q := Skip(IsNameRun, data, p + 1);
            && WellFormed(h', q) && NameInv(env, h', data, p, q)
            && Run(env, h, data, p) == Run(env, h', data, q)
  {
    hide Run, Step;
    Turn(env, h, data, p);
    NameStart(env, h, data, p);
    h' := NameRun(env, Step(env, h, data, p).h, data, p, p + 1);
  }

  lemma ColonTurn(env: Env, h: Header, data: Bytes, q: nat)
    requires q < |data| && WellFormed(h, q) && h.state == Name && data[q] == COLON
    ensures Run(env, h, data, q) == Run(env, h.(nameEnd := q, state := SpaceBeforeValue), data, q + 1)
  {
    hide Run;
    Turn(env, h, data, q);
  }

  /** Recorded, but for the length and the state. */
  predicate LineSpans(env: Env, data: Bytes, p: nat, t: HeaderText, r: Header) {
    var q := p + |t.name|;
    var e := q + |ValueText(t.value)|;
    && r.nameStart == p && r.nameEnd == q
    && (r.invalid <==> !ValidName(env, t.name))
    && (!r.invalid ==> NameRight(r, t.name))
    && q <= r.start <= r.end <= e <= |data|
    && (match t.value
        case None => r.start == e
        case Some(raw) =>
          && r.start == q + 1 + ValueFrom(raw) && r.end == q + 1 + ValueTo(raw)
          && data[r.start..r.end] == Trim(raw))
  }

  function LineEndAt(p: nat, t: HeaderText): nat { p + |t.name| + |ValueText(t.value)| }

  /** The machine has read name and value of the line t at p, and stands before the line end in h'. */
  predicate LineSeen(env: Env, data: Bytes, p: nat, t: HeaderText, h': Header) {
    var e := LineEndAt(p, t);
    && ValidText(t) && Occurs(data, p, t.name) && Occurs(data, p + |t.name|, ValueText(t.value))
    && e <= |data| && (e < |data| ==> !IsValueByte(data[e]))
    && WellFormed(h', e) && MeetsLineEnd(h'.state)
    && LineSpans(env, data, p, t, AtLineEnd(h', e))
  }

  lemma NameRightKept(h: Header, h': Header, name: Bytes)
    requires h'.hash == h.hash && h'.index == h.index && h'.ring == h.ring
    ensures NameRight(h', name) == NameRight(h, name)
  {
  }

  lemma {:induction false} NameOnly(env: Env, h: Header, data: Bytes, p: nat, q: nat) returns (t: HeaderText)
    requires p < q <= |data| && q == Skip(IsNameRun, data, p + 1) && IsValueByte(data[p])
    requires WellFormed(h, q) && NameInv(env, h, data, p, q) && (q < |data| ==> data[q] != COLON)
    ensures LineSeen(env, data, p, t, h) && LineEndAt(p, t) == q
  {
    hide NameRight, ValidName;
    t := HeaderText(data[p..q], None, 0);
    NameRightKept(h, AtLineEnd(h, q), data[p..q]);
  }

  lemma TextSeen(data: Bytes, p: nat, q: nat, te: nat)
    requires p < q < te <= |data| && IsValueByte(data[p])
    requires forall i :: p < i < q ==> IsNameRun(data[i])
    requires data[q] == COLON && forall i :: q < i < te ==> IsValueByte(data[i])
    ensures var t := HeaderText(data[p..q], Some(data[q + 1..te]), 0);
            && ValidText(t) && Occurs(data, p, t.name) && Occurs(data, q, ValueText(t.value))
            && LineEndAt(p, t) == te
  {
    assert data[q..te] == [COLON] + data[q + 1..te];
  }

  /** The value that the machine records is the trimmed text behind the colon. */
  lemma TrimmedValue(data: Bytes, v: nat, te: nat)
    requires v <= te <= |data| && Skip(IsSpace, data, v) <= te && (te < |data| ==> data[te] != SP)
    ensures var raw, a := data[v..te], Skip(IsSpace, data, v);
            && a == v + ValueFrom(raw) && TrimEnd(data, a, te) == v + ValueTo(raw)
            && data[a..TrimEnd(data, a, te)] == Trim(raw)
  {
    hide ValueFrom, ValueTo, Trim, TrimEnd, Skip;
    TrimFront(data, v, te);
    TrimBack(data, Skip(IsSpace, data, v), te);
    SpanInValue(data, v, te);
  }

  lemma {:induction false} NameValueRun(env: Env, h: Header, data: Bytes, p: nat, q: nat) returns (h': Header)
    requires p < q < |data| && WellFormed(h, q) && NameInv(env, h, data, p, q) && data[q] == COLON
    ensures var te := Skip(IsValueByte, data, q + 1);
            && WellFormed(h', te) && MeetsLineEnd(h'.state)
            && Run(env, h, data, q) == Run(env, h', data, te)
            && LineSpans(env, data, p, HeaderText(data[p..q], Some(data[q + 1..te]), 0), AtLineEnd(h', te))
  {
    hide Run, Step, NameRight, ValidName, ValueFrom, ValueTo, Skip, TrimEnd, Trim;
    ColonTurn(env, h, data, q);
    h' := WholeValueRun(env, h.(nameEnd := q, state := SpaceBeforeValue), data, q + 1);
    var te := Skip(IsValueByte, data, q + 1);
    TrimmedValue(data, q + 1, te);
    NameRightKept(h, AtLineEnd(h', te), data[p..q]);
  }

  lemma {:induction false} NameAndValue(env: Env, h: Header, data: Bytes, p: nat, q: nat) returns (t: HeaderText, h': Header)
    requires p < q < |data| && q == Skip(IsNameRun, data, p + 1) && IsValueByte(data[p])
    requires WellFormed(h, q) && NameInv(env, h, data, p, q) && data[q] == COLON
    ensures LineSeen(env, data, p, t, h') && Run(env, h, data, q) == Run(env, h', data, LineEndAt(p, t))
  {
    hide Run, Step, LineSpans, AtLineEnd, WellFormed, ValidText, Occurs, LineEndAt, NameInv;
    h' := NameValueRun(env, h, data, p, q);
    var te := Skip(IsValueByte, data, q + 1);
    t := HeaderText(data[p..q], Some(data[q + 1..te]), 0);
    TextSeen(data, p, q, te);
  }

  /** The whole of a line, read off the input: where the parts are and what is recorded. */
  lemma LineRun(env: Env, h: Header, data: Bytes, p: nat) returns (t: HeaderText, h': Header)
    requires p < |data| && WellFormed(h, p) && h.state == Start && !env.upstream && IsValueByte(data[p])
    ensures LineSeen(env, data, p, t, h')
    ensures Run(env, h, data, p) == Run(env, h', data, LineEndAt(p, t))
  {
    hide Run, Step, NameInv;
    var h1 := WholeNameRun(env, h, data, p);
    var q := Skip(IsNameRun, data, p + 1);
    hide LineSpans, Occurs, ValidText, ValueText, WellFormed, LineEndAt;
    if q < |data| && data[q] == COLON {
      t, h' := NameAndValue(env, h1, data, p, q);
    } else {
      h' := h1;
      t := NameOnly(env, h1, data, p, q);
    }
  }

  /** What LOK leaves in the request for the line t at p. */
  predicate Recorded(env: Env, data: Bytes, p: nat, t: HeaderText, r: Header) {
    LineSpans(env, data, p, t, r) && r.state == Start && r.length == r.end - p + 2
  }

  /** Name and value of a line are determined by the input. */
  lemma PartsAt(data: Bytes, p: nat, t: HeaderText)
    requires ValidText(t) && Occurs(data, p, t.name) && Occurs(data, p + |t.name|, ValueText(t.value))
    requires var e := LineEndAt(p, t); e < |data| ==> !IsValueByte(data[e])
    ensures var q := p + |t.name|;
            && p < q <= |data| && IsValueByte(data[p])
            && q == Skip(IsNameRun, data, p + 1) && t.name == data[p..q]
            && (t.value == None ==> q == |data| || data[q] != COLON)
            && (t.value.Some? ==> q < |data| && data[q] == COLON &&
                                  t.value.value == data[q + 1..Skip(IsValueByte, data, q + 1)])
  {
    hide Occurs;
    var q := p + |t.name|;
    if t.value.Some? {
      OccursConcat(data, q, [COLON], t.value.value);
      OccursOne(data, q, COLON);
      OccursFits(data, q + 1, t.value.value);
      OccursClass(IsValueByte, data, q + 1, t.value.value);
    }
    NamePartAt(data, p, t);
  }

  lemma NamePartAt(data: Bytes, p: nat, t: HeaderText)
    requires ValidText(t) && Occurs(data, p, t.name)
    requires var q := p + |t.name|; q < |data| ==> !IsNameRun(data[q])
    ensures var q := p + |t.name|;
            p < q <= |data| && IsValueByte(data[p]) && t.name == data[p..q] && q == Skip(IsNameRun, data, p + 1)
  {
    var rest := t.name[1..];
    assert data[p] == t.name[0];
    assert data[p + 1..p + |t.name|] == rest;
    OccursClass(IsNameRun, data, p + 1, rest);
  }

  lemma SameParts(data: Bytes, p: nat, t: HeaderText, t': HeaderText)
    requires ValidText(t) && Occurs(data, p, t.name) && Occurs(data, p + |t.name|, ValueText(t.value))
    requires ValidText(t') && Occurs(data, p, t'.name) && Occurs(data, p + |t'.name|, ValueText(t'.value))
    requires var e := LineEndAt(p, t); e < |data| ==> !IsValueByte(data[e])
    requires var e := LineEndAt(p, t'); e < |data| ==> !IsValueByte(data[e])
    ensures t.name == t'.name && t.value == t'.value
  {
    hide Occurs, ValidText;
    PartsAt(data, p, t);
    PartsAt(data, p, t');
  }

  lemma StartSound(env: Env, h: Header, data: Bytes, p: nat)
    requires p <= |data| && WellFormed(h, p) && h.state == Start
    ensures p == |data| || data[p] == NUL ==> Run(env, h, data, p).code !in {LOK, HEADER_DONE}
    ensures p < |data| && IsLineEnd(data[p]) ==>
              Run(env, h, data, p).code != LOK
    ensures Occurs(data, p, [LF]) || Occurs(data, p, [CR, LF]) ==>
              Run(env, h, data, p).code == HEADER_DONE && Run(env, h, data, p).h.end == p
    ensures p < |data| && IsLineEnd(data[p]) && Run(env, h, data, p).code == HEADER_DONE ==>
              Occurs(data, p, if data[p] == LF then [LF] else [CR, LF])
    ensures Occurs(data, p, [LF]) ==> Run(env, h, data, p).pos == p + 1
    ensures Occurs(data, p, [CR, LF]) ==> Run(env, h, data, p).pos == p + 2
  {
    hide Run;
    if p == |data| {
      AtEnd(env, h, data);
    } else {
      Turn(env, h, data, p);
      if data[p] == CR {
        BlankCrLf(env, h.(nameStart := p, invalid := false, end := p, state := HeaderAlmostDone), data, p + 1);
        assert p + 1 < |data| ==> data[p..p + 2] == [data[p], data[p + 1]];
      }
      assert data[p..p + 1] == [data[p]];
    }
  }

  lemma BlankCrLf(env: Env, h: Header, data: Bytes, p: nat)
    requires p <= |data| && WellFormed(h, p) && h.state == HeaderAlmostDone
    ensures var r := Run(env, h, data, p);
            && r.code != LOK
            && (r.code == HEADER_DONE <==> p < |data| && data[p] == LF)
            && (r.code == HEADER_DONE ==> r == Result(HEADER_DONE, h.To(Start), p + 1))
  {
    hide Run;
    if p < |data| { Turn(env, h, data, p); } else { AtEnd(env, h, data); }
  }

  /** The run up to the line end of a line of the language. */
  lemma NameFirst(data: Bytes, p: nat, t: HeaderText)
    requires ValidText(t) && Occurs(data, p, t.name)
    ensures p < |data| && IsValueByte(data[p])
  {
    OccursFits(data, p, t.name);
  }

  /** What is recorded up to the line end does not depend on the line end. */
  lemma SameSpans(env: Env, data: Bytes, p: nat, t: HeaderText, t': HeaderText, r: Header)
    requires t.name == t'.name && t.value == t'.value
    ensures LineSpans(env, data, p, t, r) == LineSpans(env, data, p, t', r) && LineEndAt(p, t) == LineEndAt(p, t')
  {
  }

  lemma {:induction false} UpToLineEnd(env: Env, h: Header, data: Bytes, p: nat, t: HeaderText) returns (h': Header)
    requires WellFormed(h, p) && h.state == Start && !env.upstream
    requires ValidText(t) && Occurs(data, p, t.name) && Occurs(data, p + |t.name|, ValueText(t.value))
    requires var e := LineEndAt(p, t); e < |data| && !IsValueByte(data[e])
    ensures var e := LineEndAt(p, t);
            && WellFormed(h', e) && MeetsLineEnd(h'.state)
            && Run(env, h, data, p) == Run(env, h', data, e)
            && LineSpans(env, data, p, t, AtLineEnd(h', e))
  {
    hide Run, Step, Occurs, WellFormed, AtLineEnd, LineSpans, ValidText, LineEndAt;
    NameFirst(data, p, t);
    var t';
    t', h' := LineRun(env, h, data, p);
    SameParts(data, p, t, t');
    SameSpans(env, data, p, t, t', AtLineEnd(h', LineEndAt(p, t')));
  }

  /** A line of the language is taken in, whatever follows it, and recorded. */
  lemma {:induction false} Completeness(env: Env, h: Header, data: Bytes, p: nat, t: HeaderText)
    requires WellFormed(h, p) && h.state == Start && !env.upstream
    requires ValidText(t) && Occurs(data, p, Text(t))
    ensures p + |Text(t)| <= |data|
    ensures var r := Run(env, h, data, p);
            r.code == LOK && r.pos == p + |Text(t)| && Recorded(env, data, p, t, r.h)
  {
    hide Run, Step, Occurs, WellFormed, LineSpans, ValidText, AtLineEnd, MeetsLineEnd;
    OccursFits(data, p, Text(t));
    OccursText(data, p, t);
    var e := LineEndAt(p, t);
    EndComplete(data, e, t.crs);
    var h' := UpToLineEnd(env, h, data, p, t);
    LineEndRun(env, h', data, e);
    SpansFrom(env, data, p, t, AtLineEnd(h', e));
  }

  lemma SpansFrom(env: Env, data: Bytes, p: nat, t: HeaderText, r: Header)
    requires LineSpans(env, data, p, t, r)
    ensures Recorded(env, data, p, t, r.(state := Start, length := r.end - r.nameStart + 2))
  {
    NameRightKept(r, r.(state := Start, length := r.end - r.nameStart + 2), t.name);
  }

  /** Whatever the machine takes in as a header line is a line of the language. */
  lemma {:induction false} Soundness(env: Env, h: Header, data: Bytes, p: nat) returns (t: HeaderText)
    requires p <= |data| && WellFormed(h, p) && h.state == Start && !env.upstream
    requires Run(env, h, data, p).code == LOK
    ensures ValidText(t) && Occurs(data, p, Text(t))
  {
    hide Run, Step, Occurs, WellFormed, LineSpans;
    StartSound(env, h, data, p);
    var h';
    t, h' := LineRun(env, h, data, p);
    var e := LineEndAt(p, t);
    LineEndNeeded(env, h', data, e);
    LineEndRun(env, h', data, e);
    t := t.(crs := Skip(IsCr, data, e) - e);
    EndSound(data, e);
    OccursText(data, p, t);
  }

  lemma LineEndNeeded(env: Env, h: Header, data: Bytes, e: nat)
    requires e <= |data| && WellFormed(h, e)
    requires Run(env, h, data, e).code == LOK
    ensures e < |data|
  {
    hide Run;
    if e == |data| { AtEnd(env, h, data); }
  }

  /** LOK exactly on the header lines, HEADER_DONE exactly on the blank line. */
  lemma {:induction false} AcceptsExactlyTheLanguage(env: Env, h: Header, data: Bytes, p: nat)
    requires p <= |data| && WellFormed(h, p) && h.state == Start && !env.upstream
    ensures Run(env, h, data, p).code == LOK <==> exists t :: ValidText(t) && Occurs(data, p, Text(t))
    ensures Run(env, h, data, p).code == HEADER_DONE <==>
            Occurs(data, p, [LF]) || Occurs(data, p, [CR, LF])
  {
    hide Run, Step, Occurs, WellFormed;
    StartSound(env, h, data, p);
    if Run(env, h, data, p).code == LOK {
      var t := Soundness(env, h, data, p);
    }
    forall t | ValidText(t) && Occurs(data, p, Text(t)) ensures Run(env, h, data, p).code == LOK {
      Completeness(env, h, data, p, t);
    }
    if Run(env, h, data, p).code == HEADER_DONE && !IsLineEnd(data[p]) {
      var t, h' := LineRun(env, h, data, p);
      NoBlankInside(env, h', data, LineEndAt(p, t));
    }
  }

  /** Once a name has begun, the machine does not report the end of the headers. */
  lemma {:induction false} NoBlankInside(env: Env, h: Header, data: Bytes, p: nat)
    requires p <= |data| && WellFormed(h, p) && !env.upstream
    requires MeetsLineEnd(h.state) || h.state == AlmostDone
    ensures Run(env, h, data, p).code != HEADER_DONE
    decreases |data| - p
  {
    hide Run;
    if p == |data| {
      AtEnd(env, h, data);
    } else {
      Turn(env, h, data, p);
      var m := Step(env, h, data, p);
      if m.Next? {
        NoBlankInside(env, m.h, data, p + 1);
      }
    }
  }
}
