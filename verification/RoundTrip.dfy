/**
 Parsing and printing again: the gather list built for a canonical request or response points at
 the bytes that came in, with the header names lowercased and nothing else changed.
 */
module RoundTrips {
  import opened Bytes
  import opened Texts
  import opened HeaderBlocks
  import opened Chains
  import HL = HeaderLine
  import HT = HeaderLanguage
  import Hosts
  import RL = RequestLine
  import G = RequestGrammar
  import RP = RequestPath
  import Lang = RequestLanguage
  import RU = RequestReuse
  import SL = StatusLine
  import ST = StatusLanguage

  // ---------- gather lists ----------

  /** The bytes a gather list points at; a pair outside the buffer has none. */
  function Flatten(data: Bytes, iovs: seq<Iov>): Bytes {
    if iovs == [] then []
    else
      var v := iovs[0];
      (if 0 <= v.base <= v.base + v.len <= |data| then data[v.base..v.base + v.len] else [])
      + Flatten(data, iovs[1..])
  }

  /** The pairs cover p..q one behind the other. */
  predicate Adjacent(iovs: seq<Iov>, p: int, q: int) {
    if iovs == [] then p == q
    else iovs[0].base == p && iovs[0].len >= 0 && Adjacent(iovs[1..], p + iovs[0].len, q)
  }

  lemma {:induction false} AdjacentFlatten(data: Bytes, iovs: seq<Iov>, p: nat, q: nat)
    requires Adjacent(iovs, p, q) && q <= |data|
    ensures p <= q && Flatten(data, iovs) == data[p..q]
    decreases |iovs|
  {
    if iovs != [] {
      AdjacentFlatten(data, iovs[1..], p + iovs[0].len, q);
    }
  }

  lemma {:induction false} AdjacentConcat(a: seq<Iov>, b: seq<Iov>, p: int, m: int, q: int)
    requires Adjacent(a, p, m) && Adjacent(b, m, q)
    ensures Adjacent(a + b, p, q)
    decreases |a|
  {
    if a == [] {
      assert a + b == b;
    } else {
      AdjacentConcat(a[1..], b, p + a[0].len, m, q);
      assert (a + b)[1..] == a[1..] + b;
    }
  }

  /** A longer last pair reaches further. */
  lemma {:induction false} AdjacentLonger(iovs: seq<Iov>, p: int, q: int, more: nat)
    requires iovs != [] && Adjacent(iovs, p, q)
    ensures var n := |iovs| - 1;
            Adjacent(iovs[n := Iov(iovs[n].base, iovs[n].len + more)], p, q + more)
    decreases |iovs|
  {
    var n := |iovs| - 1;
    var longer := iovs[n := Iov(iovs[n].base, iovs[n].len + more)];
    if n > 0 {
      AdjacentLonger(iovs[1..], p + iovs[0].len, q, more);
      assert longer[1..] == iovs[1..][n - 1 := Iov(iovs[n].base, iovs[n].len + more)];
    } else {
      assert longer[1..] == [];
    }
  }

  lemma {:induction false} PairsCons(e: Element, es: seq<Element>)
    ensures Pairs([e] + es) == Pairs([e]) + Pairs(es)
    decreases |es|
  {
    var all := [e] + es;
    if es == [] {
      assert all == [e];
    } else {
      PairsCons(e, es[..|es| - 1]);
      assert all[..|all| - 1] == [e] + es[..|es| - 1];
    }
  }

  // ---------- canonical header lines ----------

  /** "Name: value" with a valid name, one space, no spaces around the value, and CR LF. */
  predicate CanonicalLine(t: HT.HeaderText) {
    && HT.ValidText(t) && HT.ValidName(REQUEST_ENV, t.name) && t.crs == 1
    && t.value.Some?
    && var raw := t.value.value;
       && raw != [] && raw[0] == SP
       && (|raw| > 1 ==> raw[1] != SP && raw[|raw| - 1] != SP)
  }

  /** The hypothesis of the round trip: no name hashes to the hash taken for Host. */
  predicate NoHostHash(lines: seq<HT.HeaderText>) {
    forall i :: 0 <= i < |lines| ==> Hash(LowerAll(lines[i].name)) != HOST_HASH
  }

  predicate CanonicalLines(lines: seq<HT.HeaderText>) {
    NoHostHash(lines) && forall i :: 0 <= i < |lines| ==> CanonicalLine(lines[i])
  }

  function LowerLine(t: HT.HeaderText): HT.HeaderText { t.(name := LowerAll(t.name)) }

  function LowerLines(lines: seq<HT.HeaderText>): (r: seq<HT.HeaderText>)
    ensures |r| == |lines| && forall i :: 0 <= i < |lines| ==> r[i] == LowerLine(lines[i])
  {
    seq(|lines|, i requires 0 <= i < |lines| => LowerLine(lines[i]))
  }

  /** The elements of a block of valid lines at p whose host is not looked at. */
  function Elements(p: nat, lines: seq<HT.HeaderText>): (r: seq<Element>)
    ensures |r| == |lines|
    decreases |lines|
  {
    if lines == [] then [] else [LineElement(p, lines[0])] + Elements(p + |HT.Text(lines[0])|, lines[1..])
  }

  /** The two pairs of a canonical line cover it: the name with ": ", the value with CR LF. */
  lemma LinePairs(p: nat, t: HT.HeaderText)
    requires CanonicalLine(t)
    ensures Adjacent(Pairs([LineElement(p, t)]), p, p + |HT.Text(t)|)
  {
    var raw, e := t.value.value, LineElement(p, t);
    assert HT.ValueFrom(raw) == 1 by { SkipUnique(IsSpace, raw, 0, 1); }
    assert HT.ValueTo(raw) == |raw|;
    assert Pairs([e]) == [Iov(p, |t.name| + 2), Iov(p + |t.name| + 2, |raw| - 1 + 2)] by {
      assert [e][..0] == [];
    }
  }

  lemma {:induction false} BlockPairs(p: nat, lines: seq<HT.HeaderText>)
    requires forall i :: 0 <= i < |lines| ==> CanonicalLine(lines[i])
    ensures Adjacent(Pairs(Elements(p, lines)), p, p + |LinesText(lines)|)
    decreases |lines|
  {
    hide HT.Text, LineElement, CanonicalLine;
    hide Pairs;
    if lines != [] {
      var next := p + |HT.Text(lines[0])|;
      var e, es := LineElement(p, lines[0]), Elements(next, lines[1..]);
      LinePairs(p, lines[0]);
      BlockPairs(next, lines[1..]);
      PairsCons(e, es);
      AdjacentConcat(Pairs([e]), Pairs(es), p, next, p + |LinesText(lines)|);
    }
  }

  /** The header part of a gather list covers the lines and the blank line. */
  lemma BlockIovs(p: nat, lines: seq<HT.HeaderText>)
    requires lines != [] && forall i :: 0 <= i < |lines| ==> CanonicalLine(lines[i])
    ensures Adjacent(ElementIovs(Elements(p, lines)), p, p + |LinesText(lines)| + 2)
  {
    hide LinesText, Elements, Adjacent, CanonicalLine, Pairs;
    BlockPairs(p, lines);
    AdjacentLonger(Pairs(Elements(p, lines)), p, p + |LinesText(lines)|, 2);
  }

  // ---------- what lowercasing in place leaves ----------

  lemma LowerAllParts(a: Bytes)
    ensures LowerAll(LowerAll(a)) == LowerAll(a)
  {
    forall i | 0 <= i < |a| ensures Lower(Lower(a[i])) == Lower(a[i]) {
      Hosts.LowerKeeps(a[i]);
    }
  }

  /** Lowercasing the name at p turns the text of the line there into that of the lowered line. */
  lemma LineLowered(data: Bytes, p: nat, t: HT.HeaderText)
    requires Occurs(data, p, HT.Text(t))
    ensures p + |HT.Text(t)| <= |data|
    ensures var data' := NameLowered(data, p, t);
            && Replaced(data, data', p, HT.Text(LowerLine(t)))
            && data'[p + |HT.Text(t)|..] == data[p + |HT.Text(t)|..]
  {
    OccursFits(data, p, HT.Text(t));
    var data' := NameLowered(data, p, t);
    var n := p + |t.name|;
    var rest := HT.ValueText(t.value) + HT.EndText(t.crs);
    OccursConcat(data, p, t.name, rest);
    OccursBehind(data, data', n, rest);
    assert data'[p..n] == LowerAll(t.name);
    OccursConcat(data', p, LowerAll(t.name), rest);
    TailSlice(data, n, |rest|);
    TailSlice(data', n, |rest|);
  }

  /** What lowercasing leaves at p..q: a text there, and the rest as it was. */
  predicate Replaced(data: Bytes, data': Bytes, p: nat, w: Bytes) {
    && |data'| == |data| && p + |w| <= |data|
    && data'[..p] == data[..p] && Occurs(data', p, w) && data'[p + |w|..] == data[p + |w|..]
  }

  lemma ReplacedBehind(data: Bytes, data': Bytes, p: nat, w: Bytes)
    requires Replaced(data, data', p, w)
    ensures p + |w| <= |data'| == |data| && data'[p + |w|..] == data[p + |w|..]
  {
  }

  /** What stands in front of p is all that counts for a text there. */
  lemma OccursInFront(data: Bytes, data': Bytes, p: nat, w: Bytes, q: nat)
    requires p + |w| <= q <= |data| == |data'| && data[..q] == data'[..q]
    ensures Occurs(data, p, w) <==> Occurs(data', p, w)
  {
    HeadSlice(data, p, |w|, q);
    HeadSlice(data', p, |w|, q);
  }

  lemma ReplacedTwice(data: Bytes, data1: Bytes, data2: Bytes, p: nat, w1: Bytes, w2: Bytes)
    requires Replaced(data, data1, p, w1) && Replaced(data1, data2, p + |w1|, w2)
    ensures Replaced(data, data2, p, w1 + w2)
  {
    var next, end := p + |w1|, p + |w1| + |w2|;
    OccursInFront(data1, data2, p, w1, next);
    OccursConcat(data2, p, w1, w2);
    HeadSlice(data2, p, |w1|, next);
    HeadSlice(data1, p, |w1|, next);
    TailSlice(data1, next, |w2|);
    TailSlice(data, next, |w2|);
    assert data2[end..] == data1[end..];
  }

  /** The loop on a canonical line lowercases the name, and goes on behind the line. */
  lemma CanonicalTurn(data: Bytes, p: nat, lines: seq<HT.HeaderText>)
    requires lines != [] && CanonicalLines(lines) && p + |LinesText(lines)| <= |data|
    ensures CanonicalLines(lines[1..])
    ensures var next := p + |HT.Text(lines[0])|;
            && next + |LinesText(lines[1..])| == p + |LinesText(lines)|
            && var (data', es) := BlockEffect(HOST_HASH, NameLowered(data, p, lines[0]), next, lines[1..]);
               BlockEffect(HOST_HASH, data, p, lines) == (data', [LineElement(p, lines[0])] + es)
  {
    hide NameLowered, HT.Text;
    assert CanonicalLine(lines[0]);
  }

  lemma NoLines(data: Bytes, p: nat)
    requires p <= |data|
    ensures BlockEffect(HOST_HASH, data, p, []) == (data, []) && Replaced(data, data, p, [])
    ensures LinesText([]) == [] && LowerLines([]) == []
  {
  }

  lemma LowerLinesCons(lines: seq<HT.HeaderText>)
    requires lines != []
    ensures LinesText(LowerLines(lines)) == HT.Text(LowerLine(lines[0])) + LinesText(LowerLines(lines[1..]))
  {
    hide HT.Text;
    assert LowerLines(lines)[1..] == LowerLines(lines[1..]);
  }

  /** The loop over a block of canonical lines lowercases the names, and changes nothing else. */
  lemma {:induction false} BlockLowered(data: Bytes, p: nat, lines: seq<HT.HeaderText>)
    requires CanonicalLines(lines) && Occurs(data, p, LinesText(lines))
    ensures p + |LinesText(lines)| <= |data|
    ensures var r := BlockEffect(HOST_HASH, data, p, lines);
            r.1 == Elements(p, lines) && Replaced(data, r.0, p, LinesText(LowerLines(lines)))
    decreases |lines|
  {
    hide Occurs, NameLowered, HT.Text, Replaced, CanonicalLines, BlockEffect, LowerLines, LineElement;
    OccursFits(data, p, LinesText(lines));
    if lines == [] {
      NoLines(data, p);
    } else {
      var t, rest := lines[0], lines[1..];
      OccursConcat(data, p, HT.Text(t), LinesText(rest));
      LineLowered(data, p, t);
      LoweredLength(t);
      CanonicalTurn(data, p, lines);
      LowerLinesCons(lines);
      var next := p + |HT.Text(t)|;
      var data1 := NameLowered(data, p, t);
      LineBehind(data, data1, next, LinesText(rest));
      BlockLowered(data1, next, rest);
      var data2 := BlockEffect(HOST_HASH, data1, next, rest).0;
      ReplacedTwice(data, data1, data2, p, HT.Text(LowerLine(t)), LinesText(LowerLines(rest)));
    }
  }

  lemma LineBehind(data: Bytes, data1: Bytes, next: nat, w: Bytes)
    requires next <= |data| == |data1| && data1[next..] == data[next..] && Occurs(data, next, w)
    ensures Occurs(data1, next, w)
  {
    OccursBehind(data, data1, next, w);
  }

  lemma LoweredLength(t: HT.HeaderText)
    ensures |HT.Text(LowerLine(t))| == |HT.Text(t)|
  {
  }

  lemma {:induction false} LoweredLengths(lines: seq<HT.HeaderText>)
    ensures |LinesText(LowerLines(lines))| == |LinesText(lines)|
    decreases |lines|
  {
    if lines != [] {
      LoweredLengths(lines[1..]);
      LoweredLength(lines[0]);
      assert LowerLines(lines)[1..] == LowerLines(lines[1..]);
    }
  }

  /** From the block in the buffer to its printed form. */
  lemma {:induction false} BlockPrinted(data: Bytes, p: nat, lines: seq<HT.HeaderText>) returns (data': Bytes)
    requires lines != [] && CanonicalLines(lines) && Occurs(data, p, BlockText(lines, CrLf))
    ensures p + |BlockText(lines, CrLf)| <= |data|
    ensures BlockEffect(HOST_HASH, data, p, lines) == (data', Elements(p, lines))
    ensures Replaced(data, data', p, BlockText(LowerLines(lines), CrLf))
    ensures Adjacent(ElementIovs(Elements(p, lines)), p, p + |BlockText(lines, CrLf)|)
    ensures |BlockText(LowerLines(lines), CrLf)| == |BlockText(lines, CrLf)|
  {
    hide Occurs, Elements, BlockEffect, LinesText, CanonicalLine, ElementIovs, Adjacent, Replaced;
    OccursFits(data, p, BlockText(lines, CrLf));
    OccursConcat(data, p, LinesText(lines), EolText(CrLf));
    BlockLowered(data, p, lines);
    data' := BlockEffect(HOST_HASH, data, p, lines).0;
    LoweredLengths(lines);
    BlankKept(data, data', p, LinesText(LowerLines(lines)), EolText(CrLf));
    BlockIovs(p, lines);
  }

  /** The text behind a replaced one is still there. */
  lemma BlankKept(data: Bytes, data': Bytes, p: nat, w: Bytes, blank: Bytes)
    requires Replaced(data, data', p, w) && Occurs(data, p + |w|, blank)
    ensures Replaced(data, data', p, w + blank)
  {
    OccursFits(data, p + |w|, blank);
    OccursBehind(data, data', p + |w|, blank);
    OccursConcat(data', p, w, blank);
    TailSlice(data, p + |w|, |blank|);
    TailSlice(data', p + |w|, |blank|);
  }

  // ---------- requests ----------

  /** Single spaces, CR LF, an origin-form target that needs no decoding, and a version. */
  predicate CanonicalRequest(t: G.Request) {
    && G.Valid(t) && t.gap == 1
    && t.target.authority == None
    && RP.PlainUri(G.PathText(t.target.path), 0, |G.PathText(t.target.path)|)
    && t.tail.gap == 1 && t.tail.version.Some? && t.tail.version.value.pad == 0 && t.tail.eol == CrLf
  }

  /** A request as it is printed: without the blank lines in front. */
  function Stripped(t: G.Request): G.Request { t.(lead := []) }

  function RequestOutput(t: G.Request, lines: seq<HT.HeaderText>): Bytes {
    G.Text(Stripped(t)) + BlockText(LowerLines(lines), CrLf)
  }

  /** The strings http_request_line_parsed makes of a parsed line. */
  function NameStr(l: RL.Line): Str { Str(l.methodEnd - l.requestStart + 1, l.requestStart) }

  function UriStr(l: RL.Line): Str { Str(l.uri.end - l.uri.start, l.uri.start) }

  function ProtocolStr(l: RL.Line): Str
    requires l.requestEnd.At?
  {
    Str(l.requestEnd.pos - l.http.protocol, l.http.protocol)
  }

  /** A plain URI is as plain where it stands in the buffer. */
  lemma PlainShift(data: Bytes, lo: nat, w: Bytes)
    requires Occurs(data, lo, w) && RP.PlainUri(w, 0, |w|)
    ensures lo + |w| <= |data| && RP.PlainUri(data, lo, lo + |w|)
  {
    hide RP.NoEscape, First;
    ShiftedBytes(data, lo, w);
    FirstShift(data, lo, w, 0, QMARK);
    NoEscapeShift(data, lo, w, First(w, 0, |w|, QMARK));
  }

  lemma ShiftedBytes(data: Bytes, lo: nat, w: Bytes)
    requires Occurs(data, lo, w)
    ensures lo + |w| <= |data|
    ensures forall b :: Lacks(w, 0, |w|, b) ==> Lacks(data, lo, lo + |w|, b)
  {
  }

  lemma NoEscapeShift(data: Bytes, lo: nat, w: Bytes, m: nat)
    requires Occurs(data, lo, w) && m <= |w| && RP.NoEscape(w, 0, m)
    ensures lo + |w| <= |data| && RP.NoEscape(data, lo, lo + m)
  {
    hide RP.AfterSlash, Occurs;
    OccursFits(data, lo, w);
    forall k | lo <= k < lo + m
      ensures data[k] != PERCENT
      ensures lo < k && (data[k] == DOT || data[k] == SLASH) ==> !RP.AfterSlash(data, lo, k)
    {
      assert data[k] == w[k - lo];
      AfterSlashShift(data, lo, w, k - lo);
    }
  }

  lemma {:induction false} FirstShift(data: Bytes, lo: nat, w: Bytes, j: nat, b: Byte)
    requires j <= |w| && Occurs(data, lo, w)
    ensures lo + |w| <= |data| && First(data, lo + j, lo + |w|, b) == lo + First(w, j, |w|, b)
    decreases |w| - j
  {
    OccursFits(data, lo, w);
    if j < |w| {
      assert data[lo + j] == w[j];
      FirstShift(data, lo, w, j + 1, b);
    }
  }

  lemma {:induction false} AfterSlashShift(data: Bytes, lo: nat, w: Bytes, j: nat)
    requires j <= |w| && Occurs(data, lo, w)
    ensures lo + |w| <= |data| && RP.AfterSlash(data, lo, lo + j) == RP.AfterSlash(w, 0, j)
  {
    OccursFits(data, lo, w);
    if j > 0 {
      assert data[lo + (j - 1)] == w[j - 1];
      AfterSlashShift(data, lo, w, j - 1);
    }
  }

  lemma PathAt(data: Bytes, p: nat, t: G.Request)
    requires CanonicalRequest(t) && Occurs(data, p, G.Text(t))
    ensures Occurs(data, p + |t.lead| + |t.name| + 1, G.PathText(t.target.path))
  {
    hide Occurs, RP.PlainUri, G.ValidVersion, G.TailText;
    var a, b, c, d, e := t.lead, t.name, Spaces(t.gap), G.TargetText(t.target), G.TailText(t.tail);
    OccursConcat(data, p, a + b + c + d, e);
    OccursConcat(data, p, a + b + c, d);
    assert d == [] + G.PathText(t.target.path) == G.PathText(t.target.path);
    assert |a + b + c| == |t.lead| + |t.name| + 1;
  }

  /** The fields of a canonical request, by offsets; the object may have been used before. */
  lemma CanonicalFields(l: RL.Line, data: Bytes, p: nat, t: G.Request)
    requires RU.Reusable(l) && CanonicalRequest(t) && Occurs(data, p, G.Text(t))
    ensures p + |G.Text(t)| <= |data| && t.target.path.Some?
    ensures var r := RL.Run(l, data, p);
            var s := p + |t.lead|;
            var u := s + |t.name| + 1;
            var v := u + 1 + |t.target.path.value| + 1;
            && r.code == LOK && r.pos == p + |G.Text(t)| && r.line.requestEnd.At? && RU.Reusable(r.line)
            && r.line.requestStart == s && NameStr(r.line) == Str(|t.name|, s)
            && UriStr(r.line) == Str(1 + |t.target.path.value|, u)
            && ProtocolStr(r.line) == Str(|G.VersionText(t.tail.version)|, v)
            && v + |G.VersionText(t.tail.version)| + 2 == r.pos
            && r.line.methodCode == RL.MethodCode(t.name, l.methodCode)
            && r.line.http.major == Dec(t.tail.version.value.major)
            && r.line.http.minor == Dec(t.tail.version.value.minor)
            && r.line.httpVersion == 1000 * r.line.http.major + r.line.http.minor
  {
    hide RL.Run, Occurs, G.VersionText, G.PathText, RP.Scanned, RP.PlainUri, G.ValidVersion, Dec;
    OccursFits(data, p, G.Text(t));
    Lang.Completeness(l, data, p, t);
    PathAt(data, p, t);
    CanonicalPath(t);
    var u := p + |t.lead| + |t.name| + 1;
    PlainShift(data, u, G.PathText(t.target.path));
    PlainClean(l.uri, data, u, G.PathText(t.target.path));
  }

  /** A plain path sets no flag. */
  lemma PlainClean(was: RL.UriPart, data: Bytes, lo: nat, w: Bytes)
    requires Occurs(data, lo, w) && w != [] && w[0] == SLASH
    requires lo + |w| <= |data| && RP.PlainUri(data, lo, lo + |w|)
    ensures var u := RP.Scanned(was, data, lo, lo + |w|);
            && u.start == lo && u.end == lo + |w|
            && (!was.complex && !was.quoted ==> !u.complex && !u.quoted)
  {
    OccursFits(data, lo, w);
    RP.ScannedMeans(was, data, lo, lo + |w|);
  }

  lemma CanonicalPath(t: G.Request)
    requires CanonicalRequest(t)
    ensures t.target.path.Some? && |G.PathText(t.target.path)| == 1 + |t.target.path.value|
    ensures G.PathText(t.target.path)[0] == SLASH
    ensures RP.PlainUri(G.PathText(t.target.path), 0, |G.PathText(t.target.path)|)
  {
    hide RP.PlainUri;
  }

  lemma AdjacentOne(v: Iov)
    requires v.len >= 0
    ensures Adjacent([v], v.base, v.base + v.len)
  {
  }

  /** Method, URI and version cover the request line. */
  lemma FrontPairs(s: int, name: int, path: int, version: int)
    requires name >= 0 && path >= 0 && version >= 0
    ensures var u := s + name + 1;
            var v := u + 1 + path + 1;
            Adjacent([Iov(s, name + 1), Iov(u, 1 + path + 1), Iov(v, version + 2)], s, v + version + 2)
  {
    var u := s + name + 1;
    var v := u + 1 + path + 1;
    var a, b, c := Iov(s, name + 1), Iov(u, 1 + path + 1), Iov(v, version + 2);
    AdjacentOne(a);
    AdjacentOne(b);
    AdjacentOne(c);
    AdjacentConcat([a], [b], s, u, v);
    AdjacentConcat([a] + [b], [c], s, v, v + version + 2);
    assert [a, b, c] == [a] + [b] + [c];
  }

  lemma LeadAside(a: Bytes, b: Bytes, c: Bytes, d: Bytes, e: Bytes)
    ensures a + b + c + d + e == a + ([] + b + c + d + e)
  {
  }

  /** The text without its blank lines stands where request_start points. */
  lemma StrippedAt(data: Bytes, p: nat, t: G.Request)
    requires Occurs(data, p, G.Text(t))
    ensures Occurs(data, p + |t.lead|, G.Text(Stripped(t)))
    ensures |G.Text(t)| == |t.lead| + |G.Text(Stripped(t))|
  {
    LeadAside(t.lead, t.name, Spaces(t.gap), G.TargetText(t.target), G.TailText(t.tail));
    OccursConcat(data, p, t.lead, G.Text(Stripped(t)));
  }

  /**
   The request round trip: parse the line and the headers, build the gather list, and it holds
   exactly the bytes from request_start through the blank line with the header names lowercased.
   */
  lemma {:induction false} RequestRoundTrip(l: RL.Line, data: Bytes, p: nat, t: G.Request, lines: seq<HT.HeaderText>)
    requires RU.Reusable(l) && CanonicalRequest(t) && lines != [] && CanonicalLines(lines)
    requires Occurs(data, p, G.Text(t) + BlockText(lines, CrLf))
    ensures p + |G.Text(t)| + |LinesText(lines)| <= |data|
    ensures var r := RL.Run(l, data, p);
            r.code == LOK && r.pos == p + |G.Text(t)| && r.line.requestEnd.At?
            && RU.Reusable(r.line) && r.line.requestStart == p + |t.lead|
            && var (data', es) := BlockEffect(HOST_HASH, data, r.pos, lines);
               var iovs := RequestIovs(NameStr(r.line), UriStr(r.line), ProtocolStr(r.line), es);
               |iovs| == 3 + 2 * |lines| && Flatten(data', iovs) == RequestOutput(t, lines)
               && r.pos + |BlockText(lines, CrLf)| <= |data'| == |data|
               && data'[r.pos + |BlockText(lines, CrLf)|..] == data[r.pos + |BlockText(lines, CrLf)|..]
  {
    hide RL.Run, Occurs, BlockEffect, Flatten, Adjacent, ElementIovs, CanonicalRequest, CanonicalLines, G.Text,
         G.VersionText, LowerLines, LinesText, BlockText, Replaced, Elements;
    OccursConcat(data, p, G.Text(t), BlockText(lines, CrLf));
    CanonicalFields(l, data, p, t);
    var q, n := p + |G.Text(t)|, |BlockText(lines, CrLf)|;
    BlockLength(lines);
    var data' := BlockPrinted(data, q, lines);
    ReplacedBehind(data, data', q, BlockText(LowerLines(lines), CrLf));
    var s := p + |t.lead|;
    ListCovers(data', s, |t.name|, 1 + |t.target.path.value|, |G.VersionText(t.tail.version)|, Elements(q, lines), q, n);
    StrippedAt(data, p, t);
    JoinedAt(data, data', s, G.Text(Stripped(t)), BlockText(LowerLines(lines), CrLf));
  }

  /** The gather list of a request covers the request line and the lines behind it. */
  lemma ListCovers(data: Bytes, s: nat, name: nat, uri: nat, version: nat, es: seq<Element>, q: nat, n: nat)
    requires uri > 0 && q == s + name + uri + version + 4 && q + n <= |data|
    requires Adjacent(ElementIovs(es), q, q + n)
    ensures var u := s + name + 1;
            Flatten(data, RequestIovs(Str(name, s), Str(uri, u), Str(version, u + uri + 1), es)) == data[s..q + n]
  {
    hide Flatten, Adjacent, ElementIovs;
    FrontPairs(s, name, uri - 1, version);
    var u := s + name + 1;
    var front := [Iov(s, name + 1), Iov(u, uri + 1), Iov(u + uri + 1, version + 2)];
    AdjacentConcat(front, ElementIovs(es), s, q, q + n);
    AdjacentFlatten(data, front + ElementIovs(es), s, q + n);
  }

  lemma BlockLength(lines: seq<HT.HeaderText>)
    ensures |BlockText(lines, CrLf)| == |LinesText(lines)| + 2
  {
  }

  /** A text in front and a replaced one behind it make one text. */
  lemma JoinedAt(data: Bytes, data': Bytes, s: nat, a: Bytes, b: Bytes)
    requires Occurs(data, s, a) && Replaced(data, data', s + |a|, b)
    ensures s + |a| + |b| <= |data'| && data'[s..s + |a| + |b|] == a + b
  {
    OccursInFront(data, data', s, a, s + |a|);
    OccursConcat(data', s, a, b);
    OccursFits(data', s, a + b);
  }

  // ---------- the printed request parses again ----------

  lemma LowerNameValid(t: HT.HeaderText)
    requires CanonicalLine(t)
    ensures CanonicalLine(LowerLine(t)) && LowerLine(LowerLine(t)) == LowerLine(t)
  {
    LowerAllParts(t.name);
    var name, low := t.name, LowerAll(t.name);
    forall i | 0 <= i < |low|
      ensures HT.IsNameByte(REQUEST_ENV, low[i]) && HT.IsValueByte(low[i])
      ensures i > 0 ==> HT.IsNameRun(low[i])
    {
      assert HT.IsNameByte(REQUEST_ENV, name[i]);
    }
    assert forall i :: 0 <= i < |low[1..]| ==> low[1..][i] == low[i + 1];
  }

  lemma LowerCanonical(lines: seq<HT.HeaderText>)
    requires CanonicalLines(lines)
    ensures CanonicalLines(LowerLines(lines)) && LowerLines(LowerLines(lines)) == LowerLines(lines)
  {
    hide CanonicalLine;
    forall i | 0 <= i < |lines|
      ensures CanonicalLine(LowerLine(lines[i])) && LowerLine(LowerLine(lines[i])) == LowerLine(lines[i])
      ensures Hash(LowerAll(LowerLine(lines[i]).name)) == Hash(LowerAll(lines[i].name))
    {
      LowerNameValid(lines[i]);
      LowerAllParts(lines[i].name);
    }
  }

  /** The string d bytes further back. */
  function Back(s: Str, d: int): Str { s.(data := s.data - d) }

  function BackElement(e: Element, d: int): Element { e.(key := Back(e.key, d), value := Back(e.value, d)) }

  lemma LineBack(p: nat, d: nat, t: HT.HeaderText)
    requires d <= p
    ensures LineElement(p - d, LowerLine(t)) == BackElement(LineElement(p, t), d)
  {
    LowerAllParts(t.name);
  }

  lemma {:induction false} ElementsBack(p: nat, d: nat, lines: seq<HT.HeaderText>)
    requires d <= p
    ensures var es, es' := Elements(p, lines), Elements(p - d, LowerLines(lines));
            |es| == |es'| && forall i :: 0 <= i < |es| ==> es'[i] == BackElement(es[i], d)
    decreases |lines|
  {
    hide HT.Text, LineElement, BackElement, LowerLine;
    if lines != [] {
      var t, next := lines[0], p + |HT.Text(lines[0])|;
      ElementsBack(next, d, lines[1..]);
      LoweredLength(t);
      LineBack(p, d, t);
      assert LowerLines(lines)[1..] == LowerLines(lines[1..]);
    }
  }

  /** Two parses of one request agree, the second d bytes nearer to the start of its buffer. */
  predicate SameFields(r: RL.Line, r': RL.Line, d: int) {
    && r.requestEnd.At? && r'.requestEnd.At?
    && NameStr(r') == Back(NameStr(r), d) && UriStr(r') == Back(UriStr(r), d)
    && ProtocolStr(r') == Back(ProtocolStr(r), d)
    && r'.methodCode == r.methodCode && r'.http.major == r.http.major && r'.http.minor == r.http.minor
    && r'.httpVersion == r.httpVersion
  }

  /** The printed request is canonical again: parsing it gives the same fields, and printing it the same bytes. */
  lemma {:induction false} Reparse(l: RL.Line, data: Bytes, p: nat, t: G.Request, lines: seq<HT.HeaderText>, l': RL.Line)
    requires RU.Reusable(l) && CanonicalRequest(t) && lines != [] && CanonicalLines(lines)
    requires Occurs(data, p, G.Text(t) + BlockText(lines, CrLf))
    requires RU.Reusable(l') && l'.methodCode == l.methodCode
    ensures p <= |data|
    ensures var out := RequestOutput(t, lines);
            var r, r' := RL.Run(l, data, p), RL.Run(l', out, 0);
            var d := p + |t.lead|;
            && r'.code == LOK && r'.pos == r.pos - d && SameFields(r.line, r'.line, d)
            && CanonicalRequest(Stripped(t)) && CanonicalLines(LowerLines(lines))
            && RequestOutput(Stripped(t), LowerLines(lines)) == out
            && r'.pos + |LinesText(LowerLines(lines))| <= |out|
            && var es' := BlockEffect(HOST_HASH, out, r'.pos, LowerLines(lines)).1;
               |es'| == |lines| && forall i :: 0 <= i < |lines| ==>
                 es'[i] == BackElement(Elements(r.pos, lines)[i], d)
  {
    hide RL.Run, Occurs, BlockEffect, G.Text, G.VersionText, LinesText, BlockText, Elements, LowerLines,
         RP.PlainUri, CanonicalLine, G.Valid;
    OccursConcat(data, p, G.Text(t), BlockText(lines, CrLf));
    CanonicalFields(l, data, p, t);
    StrippedAt(data, p, t);
    StrippedValid(t);
    LowerCanonical(lines);
    var low := LowerLines(lines);
    var out := RequestOutput(t, lines);
    var q := |G.Text(Stripped(t))|;
    OccursWhole(out);
    OccursConcat(out, 0, G.Text(Stripped(t)), BlockText(low, CrLf));
    CanonicalFields(l', out, 0, Stripped(t));
    BlockLength(low);
    var data' := BlockPrinted(out, q, low);
    ElementsBack(p + |G.Text(t)|, p + |t.lead|, lines);
  }

  lemma StrippedValid(t: G.Request)
    requires G.Valid(t)
    ensures G.Valid(Stripped(t))
  {
  }

  // ---------- responses ----------

  function ResponseOutput(t: ST.StatusTree, lines: seq<HT.HeaderText>): Bytes {
    ST.Text(t) + BlockText(LowerLines(lines), CrLf)
  }

  /** `request_line` of a response (http.c:298-299). */
  function StatusStr(s: SL.Status): Str
    requires s.end.At?
  {
    Str(s.end.pos - s.requestStart, s.requestStart)
  }

  lemma StatusFields(s: SL.Status, data: Bytes, p: nat, t: ST.StatusTree)
    requires ST.Fresh(s) && ST.Valid(t) && t.eol == CrLf && Occurs(data, p, ST.Text(t))
    ensures p + |ST.Text(t)| <= |data|
    ensures var r := SL.Run(s, data, p);
            && r.code == LOK && r.pos == p + |ST.Text(t)| && r.s.end.At?
            && StatusStr(r.s) == Str(|ST.Text(t)| - 2, p)
            && r.s.code == ST.CodeOf(t) && r.s.version == 1000 * Dec(t.major) + Dec(t.minor)
  {
    hide SL.Run, Occurs, ST.VersionText, ST.CodeText, ST.CodeOf;
    ST.Completeness(s, data, p, t);
  }

  /** The response round trip: status line and headers come out as they came in, but for the case of names. */
  lemma {:induction false} ResponseRoundTrip(s: SL.Status, data: Bytes, p: nat, t: ST.StatusTree, lines: seq<HT.HeaderText>)
    requires ST.Fresh(s) && ST.Valid(t) && t.eol == CrLf && lines != [] && CanonicalLines(lines)
    requires Occurs(data, p, ST.Text(t) + BlockText(lines, CrLf))
    ensures p + |ST.Text(t)| + |LinesText(lines)| <= |data|
    ensures var r := SL.Run(s, data, p);
            r.code == LOK && r.pos == p + |ST.Text(t)| && r.s.end.At?
            && r.s.code == ST.CodeOf(t) && r.s.version == 1000 * Dec(t.major) + Dec(t.minor)
            && var (data', es) := BlockEffect(HOST_HASH, data, r.pos, lines);
               var iovs := ResponseIovs(StatusStr(r.s), es);
               |iovs| == 1 + 2 * |lines| && Flatten(data', iovs) == ResponseOutput(t, lines)
  {
    hide SL.Run, Occurs, BlockEffect, Flatten, Adjacent, ElementIovs, CanonicalLines, ST.Text, ST.CodeOf, ST.Valid,
         LowerLines, LinesText, BlockText;
    var block := BlockText(lines, CrLf);
    OccursConcat(data, p, ST.Text(t), block);
    StatusFields(s, data, p, t);
    var q := p + |ST.Text(t)|;
    OccursFits(data, q, block);
    BlockLength(lines);
    var data' := BlockPrinted(data, q, lines);
    var es := Elements(q, lines);
    var front := Iov(p, |ST.Text(t)|);
    AdjacentOne(front);
    AdjacentConcat([front], ElementIovs(es), p, q, q + |block|);
    AdjacentFlatten(data', [front] + ElementIovs(es), p, q + |block|);
    JoinedAt(data, data', p, ST.Text(t), BlockText(LowerLines(lines), CrLf));
  }

  /** The printed response parses to the same status and elements, p bytes nearer to the start, and prints to itself. */
  lemma {:induction false} ReparseResponse(s: SL.Status, data: Bytes, p: nat, t: ST.StatusTree,
                                           lines: seq<HT.HeaderText>, s': SL.Status)
    requires ST.Fresh(s) && ST.Fresh(s') && ST.Valid(t) && t.eol == CrLf && lines != [] && CanonicalLines(lines)
    requires Occurs(data, p, ST.Text(t) + BlockText(lines, CrLf))
    ensures p <= |data|
    ensures var out := ResponseOutput(t, lines);
            var r, r' := SL.Run(s, data, p), SL.Run(s', out, 0);
            && r'.code == LOK && r'.pos == r.pos - p && r.s.end.At? && r'.s.end.At?
            && StatusStr(r'.s) == Back(StatusStr(r.s), p)
            && r'.s.code == r.s.code && r'.s.version == r.s.version
            && CanonicalLines(LowerLines(lines)) && ResponseOutput(t, LowerLines(lines)) == out
            && r'.pos + |LinesText(LowerLines(lines))| <= |out|
            && var es' := BlockEffect(HOST_HASH, out, r'.pos, LowerLines(lines)).1;
               |es'| == |lines| && forall i :: 0 <= i < |lines| ==>
                 es'[i] == BackElement(Elements(r.pos, lines)[i], p)
  {
    hide SL.Run, Occurs, BlockEffect, ST.Text, LinesText, BlockText, Elements, LowerLines, CanonicalLine, ST.Valid,
         ST.CodeOf;
    OccursConcat(data, p, ST.Text(t), BlockText(lines, CrLf));
    StatusFields(s, data, p, t);
    LowerCanonical(lines);
    var low := LowerLines(lines);
    var out := ResponseOutput(t, lines);
    var q := |ST.Text(t)|;
    OccursWhole(out);
    OccursConcat(out, 0, ST.Text(t), BlockText(low, CrLf));
    StatusFields(s', out, 0, t);
    BlockLength(low);
    var data' := BlockPrinted(out, q, low);
    ElementsBack(p + q, p, lines);
  }
}
