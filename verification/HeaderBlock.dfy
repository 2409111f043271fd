/**
 A block of header lines and its blank line: what http_process_request_headers makes of it, in the
 buffer, whose names it lowercases in place, and in the list of elements it builds.
 */
module HeaderBlocks {
  import opened Bytes
  import opened Texts
  import opened ParserState
  import opened HeaderLine
  import opened HeaderLanguage
  import Hosts

  /** `lt_string_t`: a length and where the bytes are. */
  datatype Str = Str(length: int, data: int)

  /** What an element of the header list holds. */
  datatype Element = Element(hash: int, length: int, key: Str, value: Str)

  /** The loop reads header lines of a request: no upstream, underscores allowed (http.c:236). */
  const REQUEST_ENV := Env(false, true)

  /** BKDRhash("Host", sizeof("Host")): over the NUL as well, and not lowercased (http.c:457). */
  const HOST_HASH := Hash([72, 111, 115, 116, 0])

  predicate ValidLines(lines: seq<HeaderText>) {
    forall i :: 0 <= i < |lines| ==> ValidText(lines[i])
  }

  function LinesText(lines: seq<HeaderText>): Bytes {
    if lines == [] then [] else Text(lines[0]) + LinesText(lines[1..])
  }

  function BlockText(lines: seq<HeaderText>, blank: Eol): Bytes {
    LinesText(lines) + EolText(blank)
  }

  /** Where the value of a line stands, counted from the start of the line. */
  function ValueAt(t: HeaderText): nat {
    |t.name| + if t.value == None then 0 else 1 + ValueFrom(t.value.value)
  }

  function ValueEnd(t: HeaderText): (e: nat)
    ensures ValueAt(t) <= e <= |t.name| + |ValueText(t.value)|
  {
    |t.name| + if t.value == None then 0 else 1 + ValueTo(t.value.value)
  }

  /** The element of a valid line at p, before its host is looked at. */
  function LineElement(p: nat, t: HeaderText): Element {
    Element(Hash(LowerAll(t.name)), ValueEnd(t) + 2, Str(|t.name|, p), Str(ValueEnd(t) - ValueAt(t), p + ValueAt(t)))
  }

  /** The buffer when the name of the line at p is lowercased. */
  function NameLowered(data: Bytes, p: nat, t: HeaderText): (r: Bytes)
    requires p + |Text(t)| <= |data|
    ensures |r| == |data| && r[p + |t.name|..] == data[p + |t.name|..] && r[..p] == data[..p]
  {
    Hosts.LowerRange(data, p, p + |t.name|)
  }

  /** The value of a line in the buffer. */
  function HostValue(data: Bytes, p: nat, t: HeaderText): Bytes
    requires p + |Text(t)| <= |data|
  {
    data[p + ValueAt(t)..p + ValueEnd(t)]
  }

  /** A Host value is cut and lowercased if it is valid, and left alone if not (http.c:194-213). */
  function HostEffect(hostHash: int, low: Bytes, p: nat, t: HeaderText): (r: (Bytes, Element))
    requires p + |Text(t)| <= |low|
    ensures |r.0| == |low| && r.0[p + |Text(t)|..] == low[p + |Text(t)|..]
  {
    var e := LineElement(p, t);
    if e.hash != hostHash then (low, e)
    else
      var n := Hosts.HostLength(HostValue(low, p, t));
      if n == None then (low, e)
      else
        (Hosts.LowerRange(low, p + ValueAt(t), p + ValueEnd(t)), e.(value := e.value.(length := n.value)))
  }

  /** The element of a line, and the buffer behind it. */
  function LineEffect(hostHash: int, data: Bytes, p: nat, t: HeaderText): (r: (Bytes, Element))
    requires p + |Text(t)| <= |data|
    ensures |r.0| == |data| && r.0[p + |Text(t)|..] == data[p + |Text(t)|..]
  {
    HostEffect(hostHash, NameLowered(data, p, t), p, t)
  }

  /** "host" */
  const HOST: Bytes := [104, 111, 115, 116]

  /** One more byte, as long as the hash does not wrap. */
  lemma HashOf(s: Bytes, c: Byte, hash: nat)
    requires Hash(s) == hash && hash * 31 + c < TWO32
    ensures Hash(s + [c]) == hash * 31 + c
  {
    assert (s + [c])[..|s|] == s;
  }

  lemma HashFour(a: Byte, b: Byte, c: Byte, d: Byte)
    ensures Hash([a, b, c, d]) == ((a * 31 + b) * 31 + c) * 31 + d
  {
    hide Hash;
    HashNone();
    assert [] + [a] == [a] && [a] + [b] == [a, b] && [a, b] + [c] == [a, b, c] && [a, b, c] + [d] == [a, b, c, d];
    HashOf([], a, 0);
    HashOf([a], b, a);
    HashOf([a, b], c, a * 31 + b);
    HashOf([a, b, c], d, (a * 31 + b) * 31 + c);
  }

  lemma HashNone()
    ensures Hash([]) == 0
  {
  }

  /** The hash of a Host line is not the one taken for Host, however the name is written. */
  lemma HostHashMisses(name: Bytes)
    requires LowerAll(name) == HOST
    ensures Hash(LowerAll(name)) == 3208616 && HOST_HASH == 69914424
  {
    hide Hash;
    HashFour(104, 111, 115, 116);
    HashFour(72, 111, 115, 116);
    HashOf([72, 111, 115, 116], 0, 2255304);
    assert [72, 111, 115, 116] + [0] == [72, 111, 115, 116, 0];
  }

  /** So the value of a Host line is never looked at: only its name is lowercased. */
  lemma HostValueKept(data: Bytes, p: nat, t: HeaderText)
    requires LowerAll(t.name) == HOST && p + |Text(t)| <= |data|
    ensures LineEffect(HOST_HASH, data, p, t) == (NameLowered(data, p, t), LineElement(p, t))
  {
    HostHashMisses(t.name);
  }

  /** The buffer and the elements when all the lines from p on are done; invalid names are skipped. */
  function BlockEffect(hostHash: int, data: Bytes, p: nat, lines: seq<HeaderText>): (r: (Bytes, seq<Element>))
    requires p + |LinesText(lines)| <= |data|
    ensures |r.0| == |data|
    decreases |lines|
  {
    if lines == [] then (data, [])
    else
      var t := lines[0];
      var next := p + |Text(t)|;
      if !ValidName(REQUEST_ENV, t.name) then BlockEffect(hostHash, data, next, lines[1..])
      else
        var (data', e) := LineEffect(hostHash, data, p, t);
        var (data'', es) := BlockEffect(hostHash, data', next, lines[1..]);
        (data'', [e] + es)
  }

  lemma BlockSplit(lines: seq<HeaderText>, blank: Eol)
    requires lines != []
    ensures BlockText(lines, blank) == Text(lines[0]) + BlockText(lines[1..], blank)
    ensures |LinesText(lines)| == |Text(lines[0])| + |LinesText(lines[1..])|
  {
    hide Text, EolText;
    assert Text(lines[0]) + (LinesText(lines[1..]) + EolText(blank)) ==
           Text(lines[0]) + LinesText(lines[1..]) + EolText(blank);
  }

  /** The block at p starts with its first line or, if there is none, with the blank line. */
  lemma {:induction false} BlockStart(data: Bytes, p: nat, lines: seq<HeaderText>, blank: Eol)
    requires Occurs(data, p, BlockText(lines, blank))
    ensures |BlockText(lines, blank)| == |LinesText(lines)| + |EolText(blank)|
    ensures p + |LinesText(lines)| + |EolText(blank)| <= |data|
    ensures lines != [] ==> |LinesText(lines)| == |Text(lines[0])| + |LinesText(lines[1..])|
    ensures lines == [] ==> |LinesText(lines)| == 0 && Occurs(data, p, EolText(blank))
    ensures lines != [] ==>
              Occurs(data, p, Text(lines[0])) && Occurs(data, p + |Text(lines[0])|, BlockText(lines[1..], blank))
  {
    hide Occurs, Text, EolText;
    OccursFits(data, p, BlockText(lines, blank));
    if lines == [] {
      assert BlockText(lines, blank) == EolText(blank);
    } else {
      BlockSplit(lines, blank);
      OccursConcat(data, p, Text(lines[0]), BlockText(lines[1..], blank));
    }
  }

  /** What stands behind p is all that counts for a text there. */
  lemma OccursBehind(data: Bytes, data': Bytes, p: nat, w: Bytes)
    requires p <= |data| == |data'| && data[p..] == data'[p..]
    ensures Occurs(data, p, w) <==> Occurs(data', p, w)
  {
    if p + |w| <= |data| {
      TailSlice(data, p, |w|);
      TailSlice(data', p, |w|);
    }
  }

  // ---------- the loop ends exactly on a complete block ----------

  /** The loop of http_process_request_headers ends after at most n calls of the header parser. */
  predicate EndsWithin(h: Header, data: Bytes, p: nat, n: nat)
    requires p <= |data| && WellFormed(h, p)
    decreases n
  {
    n > 0 &&
    var r := Call(REQUEST_ENV, h, data, p);
    NextCallFits(h, data, p);
    r.code == HEADER_DONE || EndsWithin(r.h, data, r.pos, n - 1)
  }

  /** Where it ends, and with what. */
  function LoopEnd(h: Header, data: Bytes, p: nat, n: nat): (r: Result)
    requires p <= |data| && WellFormed(h, p) && EndsWithin(h, data, p, n)
    ensures r.code == HEADER_DONE && p < r.pos <= |data| && r.h.state == Start && WellFormed(r.h, r.pos)
    decreases n
  {
    hide Run;
    var r := Call(REQUEST_ENV, h, data, p);
    NextCallFits(h, data, p);
    AgainAtEnd(REQUEST_ENV, h, data, p);
    if r.code == HEADER_DONE then r else LoopEnd(r.h, data, r.pos, n - 1)
  }

  lemma NextCallFits(h: Header, data: Bytes, p: nat)
    requires p <= |data| && WellFormed(h, p)
    ensures var r := Call(REQUEST_ENV, h, data, p);
            p <= r.pos <= |data| && WellFormed(r.h, r.pos)
  {
    hide Run;
    AgainAtEnd(REQUEST_ENV, h, data, p);
    if Call(REQUEST_ENV, h, data, p).code == INVALID_HEADER && h.state == Name {
      NameStartKept(h, data, p);
    }
  }

  /** A name that is being read keeps its start. */
  lemma {:induction false} NameStartKept(h: Header, data: Bytes, p: nat)
    requires p <= |data| && WellFormed(h, p)
    requires h.state !in {Start, IgnoreLine}
    ensures Run(REQUEST_ENV, h, data, p).h.nameStart == h.nameStart
    decreases |data| - p
  {
    hide Run;
    if p == |data| {
      AtEnd(REQUEST_ENV, h, data);
    } else {
      Turn(REQUEST_ENV, h, data, p);
      var m := Step(REQUEST_ENV, h, data, p);
      if m.Next? {
        NameStartKept(m.h, data, p + 1);
      }
    }
  }

  /** The code of a call depends on the state alone, not on what earlier calls left in other fields. */
  lemma {:induction false} CodeForgets(h: Header, h': Header, data: Bytes, p: nat)
    requires p <= |data| && WellFormed(h, p) && WellFormed(h', p) && h.state == h'.state
    ensures Run(REQUEST_ENV, h, data, p).code == Run(REQUEST_ENV, h', data, p).code
    ensures !(Run(REQUEST_ENV, h, data, p).code == INVALID_HEADER) ==>
              Run(REQUEST_ENV, h, data, p).pos == Run(REQUEST_ENV, h', data, p).pos
    decreases |data| - p
  {
    hide Run, Step;
    if p == |data| {
      AtEnd(REQUEST_ENV, h, data);
      AtEnd(REQUEST_ENV, h', data);
    } else {
      Turn(REQUEST_ENV, h, data, p);
      Turn(REQUEST_ENV, h', data, p);
      SameTurn(h, h', data, p);
      var m, m' := Step(REQUEST_ENV, h, data, p), Step(REQUEST_ENV, h', data, p);
      if m.Next? {
        CodeForgets(m.h, m'.h, data, p + 1);
      }
    }
  }

  lemma SameTurn(h: Header, h': Header, data: Bytes, p: nat)
    requires p < |data| && WellFormed(h, p) && WellFormed(h', p) && h.state == h'.state
    ensures var m, m' := Step(REQUEST_ENV, h, data, p), Step(REQUEST_ENV, h', data, p);
            && m.Next? == m'.Next? && m.Done? == m'.Done? && m.DoneAll? == m'.DoneAll?
            && (m.Next? ==> m.h.state == m'.h.state)
  {
  }

  /** A call that asks for more, or fails, is repeated with the same outcome for ever. */
  lemma {:induction false} Spins(h: Header, data: Bytes, p: nat, n: nat)
    requires p <= |data| && WellFormed(h, p)
    requires Run(REQUEST_ENV, h, data, p).code in {LAGAIN, INVALID_HEADER}
    ensures !EndsWithin(h, data, p, n)
    decreases n
  {
    hide Run;
    if n > 0 {
      var r := Call(REQUEST_ENV, h, data, p);
      NextCallFits(h, data, p);
      if r.code == LAGAIN {
        AtEnd(REQUEST_ENV, r.h, data);
      } else {
        CodeForgets(h, r.h, data, p);
      }
      Spins(r.h, data, r.pos, n - 1);
    }
  }

  lemma {:induction false} EndsOnBlock(h: Header, data: Bytes, p: nat, lines: seq<HeaderText>, blank: Eol)
    requires p <= |data| && WellFormed(h, p) && h.state == Start
    requires ValidLines(lines) && Occurs(data, p, BlockText(lines, blank))
    ensures EndsWithin(h, data, p, |lines| + 1)
    ensures LoopEnd(h, data, p, |lines| + 1).pos == p + |BlockText(lines, blank)|
    decreases |lines|
  {
    hide Run, Occurs, BlockText, LinesText, Text, LineSpans;
    BlockStart(data, p, lines, blank);
    NextCallFits(h, data, p);
    AgainAtEnd(REQUEST_ENV, h, data, p);
    if lines == [] {
      StartSound(REQUEST_ENV, h, data, p);
    } else {
      Completeness(REQUEST_ENV, h, data, p, lines[0]);
      var r := Call(REQUEST_ENV, h, data, p);
      EndsOnBlock(r.h, data, r.pos, lines[1..], blank);
      BlockSplit(lines, blank);
    }
  }

  /** A first call that is not the last takes in a line. */
  lemma FirstLine(h: Header, data: Bytes, p: nat, n: nat) returns (t: HeaderText)
    requires p <= |data| && WellFormed(h, p) && h.state == Start
    requires EndsWithin(h, data, p, n) && Call(REQUEST_ENV, h, data, p).code != HEADER_DONE
    ensures ValidText(t) && Occurs(data, p, Text(t))
    ensures var r := Call(REQUEST_ENV, h, data, p);
            r.pos == p + |Text(t)| <= |data| && r.h.state == Start && WellFormed(r.h, r.pos)
            && n > 0 && EndsWithin(r.h, data, r.pos, n - 1)
  {
    hide Run, Occurs;
    AgainAtEnd(REQUEST_ENV, h, data, p);
    NextCallFits(h, data, p);
    if Call(REQUEST_ENV, h, data, p).code != LOK {
      Spins(h, data, p, n);
    }
    t := Soundness(REQUEST_ENV, h, data, p);
    Completeness(REQUEST_ENV, h, data, p, t);
  }

  lemma LastLine(h: Header, data: Bytes, p: nat) returns (blank: Eol)
    requires p <= |data| && WellFormed(h, p) && h.state == Start
    requires Call(REQUEST_ENV, h, data, p).code == HEADER_DONE
    ensures Occurs(data, p, BlockText([], blank)) && Call(REQUEST_ENV, h, data, p).pos == p + |BlockText([], blank)|
  {
    hide Run, Occurs;
    StartSound(REQUEST_ENV, h, data, p);
    AcceptsExactlyTheLanguage(REQUEST_ENV, h, data, p);
    blank := if Occurs(data, p, [LF]) then Lf else CrLf;
    assert BlockText([], blank) == EolText(blank);
  }

  lemma {:induction false} BlockIfEnds(h: Header, data: Bytes, p: nat, n: nat) returns (lines: seq<HeaderText>, blank: Eol)
    requires p <= |data| && WellFormed(h, p) && h.state == Start
    requires EndsWithin(h, data, p, n)
    ensures ValidLines(lines) && Occurs(data, p, BlockText(lines, blank))
    ensures LoopEnd(h, data, p, n).pos == p + |BlockText(lines, blank)|
    decreases n
  {
    hide Run, Call, Occurs, EndsWithin, WellFormed, ValidText;
    var r := Call(REQUEST_ENV, h, data, p);
    if r.code == HEADER_DONE {
      lines := [];
      blank := LastLine(h, data, p);
    } else {
      var t := FirstLine(h, data, p, n);
      var rest;
      rest, blank := BlockIfEnds(r.h, data, r.pos, n - 1);
      lines := [t] + rest;
      assert lines[1..] == rest;
      OccursConcat(data, p, Text(t), BlockText(rest, blank));
      assert BlockText(lines, blank) == Text(t) + BlockText(rest, blank);
    }
  }

  /** The header loop ends if and only if the buffer holds a complete block of lines and a blank line. */
  lemma {:induction false} EndsExactlyOnBlocks(h: Header, data: Bytes, p: nat)
    requires p <= |data| && WellFormed(h, p) && h.state == Start
    ensures (exists n :: EndsWithin(h, data, p, n)) <==>
            exists lines, blank :: ValidLines(lines) && Occurs(data, p, BlockText(lines, blank))
  {
    hide Occurs, EndsWithin;
    if n :| EndsWithin(h, data, p, n) {
      var lines, blank := BlockIfEnds(h, data, p, n);
    }
    if lines, blank :| ValidLines(lines) && Occurs(data, p, BlockText(lines, blank)) {
      EndsOnBlock(h, data, p, lines, blank);
    }
  }
}
