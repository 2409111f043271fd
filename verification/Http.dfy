/** What http.c makes of a parsed request or response. */
module Http {
  import opened Bytes
  import opened Texts
  import opened ParserState
  import opened Buffers
  import opened HeaderBlocks
  import opened Requests
  import HL = HeaderLine
  import HT = HeaderLanguage
  import Hosts

  /** http_request_line_parsed: boundaries become strings. A decoded URI is left unset, as in the source. */
  method RequestLineParsed(r: Request, b: Buffer)
    requires r.requestEnd.At?
    modifies r`requestLine, r`methodName, r`protocolLength, r`uri, r`unparsedUri, r`validUnparsedUri,
             r`requestLength
    ensures r.requestLine == Str(r.requestEnd.pos - r.requestStart, r.requestStart)
    ensures r.requestLength == b.pos - r.requestStart
    ensures r.methodName == Str(r.methodEnd - r.requestStart + 1, r.requestStart)
    ensures r.protocolLength == r.requestEnd.pos - r.protocol
    ensures r.uri == Str(r.uriEnd - r.uriStart,
                         if r.complexUri || r.quotedUri then old(r.uri.data) else r.uriStart)
    ensures r.unparsedUri == Str(r.uriEnd - r.uriStart, r.uriStart)
    ensures r.validUnparsedUri == !r.spaceInUri
  {
    r.requestLine := Str(r.requestEnd.pos - r.requestStart, r.requestStart);
    r.requestLength := b.pos - r.requestStart;
    r.methodName := Str(r.methodEnd - r.requestStart + 1, r.requestLine.data);
    r.protocolLength := r.requestEnd.pos - r.protocol;
    r.uri := r.uri.(length := r.uriEnd - r.uriStart);
    if r.complexUri || r.quotedUri {
    } else {
      r.uri := r.uri.(data := r.uriStart);
    }
    r.unparsedUri := Str(r.uriEnd - r.uriStart, r.uriStart);
    r.validUnparsedUri := !r.spaceInUri;
  }

  /** The header parser has just recorded the valid line t at p. */
  ghost predicate JustRead(r: Request, p: nat, t: HT.HeaderText)
    reads r`headerNameStart, r`headerNameEnd, r`headerStart, r`headerEnd, r`headerLength, r`headerHash
  {
    && r.headerNameStart == p && r.headerNameEnd == p + |t.name|
    && r.headerStart == p + ValueAt(t) && r.headerEnd == p + ValueEnd(t)
    && r.headerLength == ValueEnd(t) + 2
    && r.headerHash == Hash(LowerAll(t.name))
  }

  lemma LowerRangePrefix(data: Bytes, lo: nat, hi: nat, last: nat)
    requires lo <= hi <= last <= |data|
    ensures Hosts.LowerRange(data, lo, hi)[..last] == Hosts.LowerRange(data[..last], lo, hi)
  {
  }

  /** http_process_element: the length, and the validation of a Host value. */
  method ProcessElement(r: Request, b: Buffer, e: HeaderElement, ghost p: nat, ghost t: HT.HeaderText)
    requires b.Valid() && JustRead(r, p, t) && p + |HT.Text(t)| <= b.last
    requires Element(e.hash, r.headerLength, e.key, e.value) == LineElement(p, t)
    modifies e`length, e`value, b.start
    ensures (b.Seen(), e.Content()) == HostEffect(HOST_HASH, old(b.Seen()), p, t)
  {
    hide Hosts.HostLength, HT.ValueFrom, HT.ValueTo, JustRead;
    e.length := r.headerLength;
    if e.hash == HOST_HASH {
      var v := e.value;
      assert HostValue(b.Seen(), p, t) == b.start[v.data..v.data + v.length];
      LowerRangePrefix(b.start[..], v.data, v.data + v.length, b.last);
      var rc, n := Hosts.ProcessHost(b.start, v.data, v.length);
      e.value := v.(length := n);
    }
  }

  /** The element for the line just read (http.c:257-268): its key is lowercased where it stands. */
  method NewElement(r: Request, b: Buffer, ghost p: nat, ghost t: HT.HeaderText) returns (e: HeaderElement)
    requires b.Valid() && JustRead(r, p, t) && p + |HT.Text(t)| <= b.last
    modifies b.start
    ensures fresh(e) && e.lowcaseKey == e.key
    ensures (b.Seen(), e.Content()) == LineEffect(HOST_HASH, old(b.Seen()), p, t)
  {
    hide HostEffect, HT.ValueFrom, HT.ValueTo;
    e := new HeaderElement(r.headerHash, Str(r.headerNameEnd - r.headerNameStart, r.headerNameStart),
                           Str(r.headerEnd - r.headerStart, r.headerStart));
    LowerRangePrefix(b.start[..], p, p + |t.name|, b.last);
    Hosts.LowerInPlace(b.start, e.key.data, e.key.data + e.key.length);
    e.lowcaseKey := e.key;
    ProcessElement(r, b, e, p, t);
  }

  /** The request is between two header lines, and its buffer is not its own ring. */
  ghost predicate BetweenLines(r: Request, b: Buffer)
    reads r, r.lowcaseHeader, b
  {
    && b.Valid() && b.start != r.lowcaseHeader && !r.upstream
    && r.state == Start && HL.WellFormed(r.SavedHeader(), b.pos)
  }

  /** One call of the header parser in a block: it takes in the next line, or at last the blank line. */
  method ReadNext(r: Request, b: Buffer, ghost rest: seq<HT.HeaderText>, ghost blank: Eol) returns (rc: int)
    requires BetweenLines(r, b) && ValidLines(rest) && Occurs(b.Seen(), b.pos, BlockText(rest, blank))
    modifies b`pos, r`state, r`headerHash, r`lowcaseIndex, r`headerNameStart, r`headerNameEnd,
             r`headerStart, r`headerEnd, r`invalidHeader, r`headerLength, r.lowcaseHeader
    ensures BetweenLines(r, b) && b.Seen() == old(b.Seen())
    ensures rest == [] ==> rc == HEADER_DONE && b.pos == old(b.pos) + |EolText(blank)|
    ensures rest != [] ==>
              && rc == LOK && b.pos == old(b.pos) + |HT.Text(rest[0])| && r.headerNameStart == old(b.pos)
              && (r.invalidHeader <==> !HT.ValidName(REQUEST_ENV, rest[0].name))
              && (!r.invalidHeader ==> JustRead(r, old(b.pos), rest[0]))
  {
    hide HL.Run, HL.Step, Occurs, HT.ValidText, HT.ValidName, BlockText, HT.Text;
    ghost var h, data, p := r.SavedHeader(), b.Seen(), b.pos;
    BlockStart(data, p, rest, blank);
    if rest == [] {
      HT.StartSound(REQUEST_ENV, h, data, p);
    } else {
      HT.Completeness(REQUEST_ENV, h, data, p, rest[0]);
    }
    HL.AgainAtEnd(REQUEST_ENV, h, data, p);
    rc := r.ParseHeaderLine(b, true);
  }

  /** What is still to come of a block adds to what there is already. */
  ghost predicate Progress(whole: (Bytes, seq<Element>), done: seq<Element>, data: Bytes, p: nat, lines: seq<HT.HeaderText>)
  {
    && p + |LinesText(lines)| <= |data|
    && var rest := BlockEffect(HOST_HASH, data, p, lines);
       whole == (rest.0, done + rest.1)
  }

  lemma ProgressSkip(whole: (Bytes, seq<Element>), done: seq<Element>, data: Bytes, p: nat, lines: seq<HT.HeaderText>)
    requires lines != [] && !HT.ValidName(REQUEST_ENV, lines[0].name)
    requires Progress(whole, done, data, p, lines)
    ensures Progress(whole, done, data, p + |HT.Text(lines[0])|, lines[1..])
  {
  }

  lemma ProgressTake(whole: (Bytes, seq<Element>), done: seq<Element>, data: Bytes, p: nat, lines: seq<HT.HeaderText>)
    requires lines != [] && HT.ValidName(REQUEST_ENV, lines[0].name)
    requires Progress(whole, done, data, p, lines)
    ensures p + |HT.Text(lines[0])| <= |data|
    ensures var (data', e) := LineEffect(HOST_HASH, data, p, lines[0]);
            Progress(whole, done + [e], data', p + |HT.Text(lines[0])|, lines[1..])
  {
    hide LineEffect;
    var (data', e) := LineEffect(HOST_HASH, data, p, lines[0]);
    var rest := BlockEffect(HOST_HASH, data', p + |HT.Text(lines[0])|, lines[1..]);
    assert done + ([e] + rest.1) == done + [e] + rest.1;
  }

  /** A new element at the end of the list. */
  lemma LinkedGrows(elems: seq<HeaderElement>, head: HeaderElement, e: HeaderElement)
    requires e !in elems
    requires forall i :: 0 <= i < |elems| - 1 ==> elems[i].next == elems[i + 1]
    requires forall i, j :: 0 <= i < j < |elems| ==> elems[i] != elems[j]
    requires elems != [] ==> head == elems[0] && elems[|elems| - 1].next == e
    requires elems == [] ==> head == e
    ensures Linked(elems + [e], head, e)
    ensures Contents(elems + [e]) == Contents(elems) + [e.Content()]
  {
    assert (elems + [e])[..|elems|] == elems;
  }

  /** Linking an element changes no content. */
  twostate lemma ContentsKept(elems: seq<HeaderElement>)
    requires forall e :: e in elems ==> e.Content() == old(e.Content())
    ensures Contents(elems) == old(Contents(elems))
  {
  }

  /** The list grows at its tail (http.c:246-255). */
  method AppendElement(r: Request, ghost elems: seq<HeaderElement>, e: HeaderElement)
    requires Linked(elems, r.elementHead, r.elementTail) && e !in elems
    modifies r`elementHead, r`elementTail, elems, e`next
    ensures Linked(elems + [e], r.elementHead, r.elementTail)
    ensures Contents(elems + [e]) == old(Contents(elems + [e]))
    ensures forall x :: x in elems || x == e ==> x.Content() == old(x.Content())
  {
    if r.elementHead == null {
      r.elementHead := e;
      r.elementTail := e;
    } else {
      r.elementTail.next := e;
      r.elementTail := e;
      e.next := null;
    }
    LinkedGrows(elems, r.elementHead, e);
    ContentsKept(elems + [e]);
  }

  /** A valid line that has just been read becomes the last element of the list. */
  method AddElement(r: Request, b: Buffer, ghost elems: seq<HeaderElement>, ghost p: nat, ghost t: HT.HeaderText)
    returns (ghost elems': seq<HeaderElement>)
    requires b.Valid() && JustRead(r, p, t) && p + |HT.Text(t)| <= b.last
    requires Linked(elems, r.elementHead, r.elementTail)
    modifies b.start, r`elementHead, r`elementTail, elems
    ensures elems <= elems' && |elems'| <= |elems| + 1 && (|elems'| > |elems| ==> fresh(elems'[|elems|]))
    ensures Linked(elems', r.elementHead, r.elementTail)
    ensures var (data, e) := LineEffect(HOST_HASH, old(b.Seen()), p, t);
            b.Seen() == data && Contents(elems') == old(Contents(elems)) + [e]
  {
    hide LineEffect, JustRead;
    var e := NewElement(r, b, p, t);
    elems' := elems + [e];
    AppendElement(r, elems, e);
  }

  /** The lines still to come stand at the position of the buffer, and what was done is in the list. */
  ghost predicate InBlock(r: Request, b: Buffer, elems: seq<HeaderElement>, whole: (Bytes, seq<Element>),
                          rest: seq<HT.HeaderText>, blank: Eol)
    reads r, b, b.start, elems
    requires b.last <= b.start.Length
  {
    && ValidLines(rest) && Occurs(b.Seen(), b.pos, BlockText(rest, blank))
    && Linked(elems, r.elementHead, r.elementTail)
    && Progress(whole, Contents(elems), b.Seen(), b.pos, rest)
  }

  /** What the loop does with a line that the parser has taken in (http.c:240-269). */
  method TakeLine(r: Request, b: Buffer, ghost elems: seq<HeaderElement>, ghost whole: (Bytes, seq<Element>),
                  ghost p: nat, ghost rest: seq<HT.HeaderText>, ghost blank: Eol)
    returns (ghost elems': seq<HeaderElement>)
    requires BetweenLines(r, b) && rest != [] && b.pos == p + |HT.Text(rest[0])|
    requires r.invalidHeader <==> !HT.ValidName(REQUEST_ENV, rest[0].name)
    requires !r.invalidHeader ==> JustRead(r, p, rest[0])
    requires ValidLines(rest) && Occurs(b.Seen(), b.pos, BlockText(rest[1..], blank))
    requires Linked(elems, r.elementHead, r.elementTail)
    requires Progress(whole, Contents(elems), b.Seen(), p, rest)
    modifies b.start, r`elementHead, r`elementTail, elems
    ensures BetweenLines(r, b)
    ensures elems <= elems' && |elems'| <= |elems| + 1 && (|elems'| > |elems| ==> fresh(elems'[|elems|]))
    ensures InBlock(r, b, elems', whole, rest[1..], blank)
  {
    hide Occurs, HT.ValidText, HT.ValidName, LineEffect, JustRead, Progress, Linked, BlockText;
    assert ValidLines(rest[1..]);
    elems' := elems;
    if r.invalidHeader {
      ProgressSkip(whole, Contents(elems), b.Seen(), p, rest);
    } else {
      ProgressTake(whole, Contents(elems), b.Seen(), p, rest);
      elems' := AddElement(r, b, elems, p, rest[0]);
      OccursBehind(old(b.Seen()), b.Seen(), b.pos, BlockText(rest[1..], blank));
    }
  }

  /** One turn of the loop of http_process_request_headers. */
  method HeaderTurn(r: Request, b: Buffer, ghost elems: seq<HeaderElement>, ghost whole: (Bytes, seq<Element>),
                    ghost rest: seq<HT.HeaderText>, ghost blank: Eol)
    returns (rc: int, ghost elems': seq<HeaderElement>)
    requires BetweenLines(r, b) && InBlock(r, b, elems, whole, rest, blank)
    modifies b`pos, b.start, r`state, r`headerHash, r`lowcaseIndex, r`headerNameStart, r`headerNameEnd,
             r`headerStart, r`headerEnd, r`invalidHeader, r`headerLength, r.lowcaseHeader,
             r`elementHead, r`elementTail, r`requestLength, elems
    ensures BetweenLines(r, b)
    ensures elems <= elems' && |elems'| <= |elems| + 1 && (|elems'| > |elems| ==> fresh(elems'[|elems|]))
    ensures rest == [] ==>
              && rc == HEADER_DONE && elems' == elems && Linked(elems, r.elementHead, r.elementTail)
              && whole == (b.Seen(), Contents(elems))
              && b.pos == old(b.pos) + |EolText(blank)| && r.requestLength == old(r.requestLength)
    ensures rest != [] ==>
              && rc == LOK && InBlock(r, b, elems', whole, rest[1..], blank)
              && b.pos == old(b.pos) + |HT.Text(rest[0])|
              && r.requestLength == old(r.requestLength) + |HT.Text(rest[0])|
  {
    hide Occurs, HT.ValidText, HT.ValidName, BlockEffect, JustRead, HL.WellFormed, Linked, Progress, BlockText,
         LinesText, HT.Text, EolText;
    ghost var p := b.pos;
    BlockStart(b.Seen(), p, rest, blank);
    elems' := elems;
    rc := ReadNext(r, b, rest, blank);
    if rc == LOK {
      r.requestLength := r.requestLength + b.pos - r.headerNameStart;
      elems' := TakeLine(r, b, elems, whole, p, rest, blank);
    } else {
      NoMore(whole, Contents(elems), b.Seen(), p);
    }
  }

  /**
   http_process_request_headers on a buffer that holds a complete block of lines: the loop ends
   behind the blank line; the list holds the elements of the valid lines in order; request_length
   has grown by the lines, skipped ones included.
   */
  method ProcessRequestHeaders(r: Request, b: Buffer, ghost lines: seq<HT.HeaderText>, ghost blank: Eol)
    returns (rc: int, ghost elems: seq<HeaderElement>)
    requires BetweenLines(r, b)
    requires ValidLines(lines) && Occurs(b.Seen(), b.pos, BlockText(lines, blank))
    modifies b`pos, b.start, r`state, r`headerHash, r`lowcaseIndex, r`headerNameStart, r`headerNameEnd,
             r`headerStart, r`headerEnd, r`invalidHeader, r`headerLength, r.lowcaseHeader,
             r`elementHead, r`elementTail, r`requestLength
    ensures rc == LOK && BetweenLines(r, b)
    ensures b.pos == old(b.pos) + |BlockText(lines, blank)|
    ensures r.requestLength == old(r.requestLength) + |LinesText(lines)|
    ensures fresh(elems) && Linked(elems, r.elementHead, r.elementTail)
    ensures old(b.pos) + |LinesText(lines)| <= old(b.last) == b.last
    ensures (b.Seen(), Contents(elems)) == BlockEffect(HOST_HASH, old(b.Seen()), old(b.pos), lines)
  {
    hide Occurs, BlockEffect, HL.WellFormed, Linked, Contents, Progress, BlockText, ValidLines, InBlock, HT.Text;
    r.elementHead := null;
    r.elementTail := null;
    elems := [];
    ghost var rest := lines;
    BlockStart(b.Seen(), b.pos, lines, blank);
    ghost var whole := BlockEffect(HOST_HASH, b.Seen(), b.pos, lines);
    StartInBlock(r, b, whole, lines, blank);
    while true
      invariant BetweenLines(r, b) && b.last == old(b.last)
      invariant fresh(elems)
      invariant InBlock(r, b, elems, whole, rest, blank)
      invariant b.pos + |LinesText(rest)| == old(b.pos) + |LinesText(lines)|
      invariant r.requestLength - b.pos == old(r.requestLength) - old(b.pos)
      decreases |rest|
    {
      rc, elems := HeaderTurn(r, b, elems, whole, rest, blank);
      if rc == HEADER_DONE {
        return LOK, elems;
      }
      rest := rest[1..];
    }
  }

  lemma StartInBlock(r: Request, b: Buffer, whole: (Bytes, seq<Element>), lines: seq<HT.HeaderText>, blank: Eol)
    requires b.Valid() && r.elementHead == null
    requires ValidLines(lines) && Occurs(b.Seen(), b.pos, BlockText(lines, blank))
    requires b.pos + |LinesText(lines)| <= b.last
    requires whole == BlockEffect(HOST_HASH, b.Seen(), b.pos, lines)
    ensures InBlock(r, b, [], whole, lines, blank)
  {
    hide BlockEffect;
    assert [] + whole.1 == whole.1;
  }

  lemma NoMore(whole: (Bytes, seq<Element>), done: seq<Element>, data: Bytes, p: nat)
    requires Progress(whole, done, data, p, [])
    ensures whole == (data, done)
  {
    assert done + [] == done;
  }
}
