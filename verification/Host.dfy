/** Validation of a Host value, http_process_host: section 5.4 of RFC 7230, section 3.2.2 of RFC 3986. */
module Hosts {
  import opened Bytes
  import opened Texts

  datatype HostState = InName | InLiteral | InRest

  /** Bytes and byte pairs no host may hold. */
  predicate Clean(h: Bytes, n: nat)
    requires n <= |h|
  {
    && (forall i :: 0 <= i < n ==> h[i] != NUL && h[i] != SLASH)
    && (forall i :: 1 <= i < n && h[i] == DOT ==> h[i - 1] != DOT)
  }

  /** The host proper ends behind the bracket that closes a literal, or else before the first ':'. */
  function Cut(h: Bytes): (c: nat)
    ensures c <= |h|
  {
    if h != [] && h[0] == LBRACKET then
      var j := First(h, 0, |h|, RBRACKET);
      if j < |h| then j + 1 else |h|
    else First(h, 0, |h|, COLON)
  }

  /** `dot_pos` behind i bytes: the last dot among them, or the length of the host. */
  function DotPos(h: Bytes, i: nat): (d: nat)
    requires i <= |h|
    ensures d == |h| || (d < i && h[d] == DOT)
    ensures forall k :: d < k < i ==> h[k] != DOT
    ensures d == |h| ==> forall k :: 0 <= k < i ==> h[k] != DOT
  {
    if i == 0 then |h| else if h[i - 1] == DOT then i - 1 else DotPos(h, i - 1)
  }

  /** The length a valid host is cut to: up to the cut, without the last dot if that ends it. */
  function HostLength(h: Bytes): Option<nat> {
    var c := Cut(h);
    var n := if DotPos(h, |h|) == c - 1 then c - 1 else c;
    if Clean(h, |h|) && n > 0 then Some(n) else None
  }

  /** What the scan knows after i bytes. */
  predicate ScanInv(h: Bytes, i: nat, state: HostState, hostLen: nat)
    requires i <= |h|
  {
    match state
    case InName => hostLen == |h| && (i > 0 ==> h[0] != LBRACKET) && Lacks(h, 0, i, COLON)
    case InLiteral => hostLen == |h| && i > 0 && h[0] == LBRACKET && Lacks(h, 0, i, RBRACKET)
    case InRest => i > 0 && hostLen == Cut(h)
  }

  /** The byte that ends the host is the one the scan stops looking at. */
  lemma CutFound(h: Bytes, i: nat, state: HostState, hostLen: nat)
    requires i < |h| && ScanInv(h, i, state, hostLen)
    ensures state == InName && h[i] == COLON ==> Cut(h) == i
    ensures state == InLiteral && h[i] == RBRACKET ==> Cut(h) == i + 1
  {
    CutAt(h, i);
  }

  lemma NoCut(h: Bytes, state: HostState, hostLen: nat)
    requires ScanInv(h, |h|, state, hostLen)
    ensures hostLen == Cut(h)
  {
    CutAt(h, |h|);
  }

  /** The scan of http_process_host: whether the value is clean, the last dot and the cut. */
  method ScanHost(h: Bytes) returns (ok: bool, dotPos: nat, hostLen: nat)
    ensures ok == Clean(h, |h|)
    ensures ok ==> dotPos == DotPos(h, |h|) && hostLen == Cut(h)
  {
    hide Cut;
    var state := InName;
    ok, dotPos, hostLen := false, |h|, |h|;
    for i := 0 to |h|
      invariant Clean(h, i) && dotPos == DotPos(h, i) && ScanInv(h, i, state, hostLen)
    {
      var ch := h[i];
      CutFound(h, i, state, hostLen);
      if ch == DOT {
        if dotPos == i - 1 { return; }
        dotPos := i;
      } else if ch == COLON {
        if state == InName { hostLen, state := i, InRest; }
      } else if ch == LBRACKET {
        if i == 0 { state := InLiteral; }
      } else if ch == RBRACKET {
        if state == InLiteral { hostLen, state := i + 1, InRest; }
      } else if ch == NUL {
        return;
      } else if ch == SLASH {
        return;
      }
    }
    NoCut(h, state, hostLen);
    ok := true;
  }

  /** http_process_host on the value at data[at..at + len], which it lowercases in place. */
  method ProcessHost(data: array<Byte>, at: nat, len: nat) returns (rc: int, hostLength: nat)
    requires at + len <= data.Length
    modifies data
    ensures rc == (if HostLength(old(data[at..at + len])) == None then LERROR else LOK)
    ensures rc == LERROR ==> data[..] == old(data[..]) && hostLength == len
    ensures rc == LOK ==> hostLength == HostLength(old(data[at..at + len])).value
    ensures rc == LOK ==> data[..] == LowerRange(old(data[..]), at, at + len)
  {
    hide Cut, DotPos, Clean;
    hostLength := len;
    var ok, dotPos, hostLen := ScanHost(data[at..at + len]);
    if !ok {
      rc := LERROR;
      return;
    }
    if dotPos + 1 == hostLen {
      hostLen := hostLen - 1;
    }
    if hostLen == 0 {
      rc := LERROR;
      return;
    }
    LowerInPlace(data, at, at + len);
    hostLength := hostLen;
    rc := LOK;
  }

  lemma CutAt(h: Bytes, i: nat)
    requires i <= |h|
    ensures i < |h| && h[i] == COLON && Lacks(h, 0, i, COLON) ==> First(h, 0, |h|, COLON) == i
    ensures i < |h| && h[i] == RBRACKET && Lacks(h, 0, i, RBRACKET) ==> First(h, 0, |h|, RBRACKET) == i
    ensures i == |h| && Lacks(h, 0, i, COLON) ==> First(h, 0, |h|, COLON) == i
    ensures i == |h| && Lacks(h, 0, i, RBRACKET) ==> First(h, 0, |h|, RBRACKET) == i
  {
  }

  /** The bytes data[lo..hi] lowercased, the others as they are. */
  function LowerRange(data: Bytes, lo: nat, hi: nat): (r: Bytes)
    requires lo <= hi <= |data|
    ensures |r| == |data|
    ensures forall k :: 0 <= k < |data| ==> r[k] == if lo <= k < hi then Lower(data[k]) else data[k]
  {
    data[..lo] + LowerAll(data[lo..hi]) + data[hi..]
  }

  /** lowcase_key_copy_from_origin (http.c:184-192): the key and its lowercased copy share their bytes. */
  method LowerInPlace(data: array<Byte>, lo: nat, hi: nat)
    requires lo <= hi <= data.Length
    modifies data
    ensures data[..] == LowerRange(old(data[..]), lo, hi)
  {
    for i := lo to hi
      invariant forall k :: 0 <= k < data.Length ==>
                  data[k] == if lo <= k < i then Lower(old(data[k])) else old(data[k])
    {
      data[i] := Lower(data[i]);
    }
  }

  // ---------- what a valid host is ----------

  /** The result is a non-empty prefix up to the cut, a last dot dropped, of a clean value. */
  lemma HostIsPrefix(h: Bytes)
    requires HostLength(h).Some?
    ensures var n := HostLength(h).value;
            var c := Cut(h);
            && 0 < n <= c && Clean(h, |h|)
            && (n == c || (n == c - 1 && h[n] == DOT && Lacks(h, c, |h|, DOT)))
            && (h[0] != LBRACKET ==> Lacks(h, 0, n, COLON) && (c < |h| ==> h[c] == COLON))
            && (h[0] == LBRACKET && c < |h| ==> h[c - 1] == RBRACKET && Lacks(h, 0, c - 1, RBRACKET))
            && (n == c && h[n - 1] == DOT ==> !Lacks(h, c, |h|, DOT))
  {
    if h[0] == LBRACKET && Cut(h) == |h| && First(h, 0, |h|, RBRACKET) < |h| {
      assert h[|h| - 1] == RBRACKET;
    }
  }

  /** A value is refused exactly if it is not clean or nothing is left: empty, in front of a ':', or a last dot alone. */
  lemma HostAccepted(h: Bytes)
    ensures HostLength(h) == None <==>
              || !Clean(h, |h|) || h == [] || h[0] == COLON
              || (h[0] == DOT && (|h| == 1 || h[1] == COLON) && Lacks(h, 1, |h|, DOT))
  {
    if h != [] && h[0] == DOT {
      if |h| > 1 && h[1] == COLON {
        CutAt(h, 1);
      }
      if |h| > 1 && h[1] != COLON {
        assert Lacks(h, 0, 2, COLON);
      }
    }
  }

  /** The host as it is left in the buffer. */
  function Cleaned(h: Bytes): Bytes
    requires HostLength(h).Some?
  {
    LowerAll(h)[..HostLength(h).value]
  }

  lemma LowerKeeps(b: Byte)
    ensures Lower(Lower(b)) == Lower(b)
    ensures (Lower(b) == NUL <==> b == NUL) && (Lower(b) == SLASH <==> b == SLASH)
    ensures (Lower(b) == DOT <==> b == DOT) && (Lower(b) == COLON <==> b == COLON)
    ensures (Lower(b) == LBRACKET <==> b == LBRACKET) && (Lower(b) == RBRACKET <==> b == RBRACKET)
  {
  }

  lemma CleanedBytes(h: Bytes)
    requires HostLength(h).Some?
    ensures var r := Cleaned(h);
            && LowerAll(r) == r && Clean(r, |r|)
            && forall i :: 0 <= i < |r| ==>
                 (r[i] == DOT <==> h[i] == DOT) && (r[i] == COLON <==> h[i] == COLON)
                 && (r[i] == LBRACKET <==> h[i] == LBRACKET) && (r[i] == RBRACKET <==> h[i] == RBRACKET)
  {
    var r := Cleaned(h);
    forall i | 0 <= i < |r|
      ensures Lower(r[i]) == r[i]
      ensures (r[i] == DOT <==> h[i] == DOT) && (r[i] == COLON <==> h[i] == COLON)
      ensures (r[i] == LBRACKET <==> h[i] == LBRACKET) && (r[i] == RBRACKET <==> h[i] == RBRACKET)
      ensures r[i] != NUL && r[i] != SLASH
    {
      LowerKeeps(h[i]);
    }
  }

  /** The scan of a cleaned host cuts nothing more off. */
  lemma CleanedCut(h: Bytes)
    requires HostLength(h).Some?
    ensures Cut(Cleaned(h)) == |Cleaned(h)|
  {
    var r := Cleaned(h);
    CleanedBytes(h);
    HostIsPrefix(h);
    if r[0] == LBRACKET {
      var j := First(h, 0, |h|, RBRACKET);
      CutAt(r, |r|);
      if j < |r| {
        assert Lacks(r, 0, j, RBRACKET);
        CutAt(r, j);
      } else {
        assert Lacks(r, 0, |r|, RBRACKET);
      }
    } else {
      assert Lacks(r, 0, |r|, COLON);
      CutAt(r, |r|);
    }
  }

  /**
   A second application changes nothing exactly when the first did not leave a dot at the end, which
   it does when a dot ends the host and another stands beyond the cut.
   */
  lemma Idempotent(h: Bytes)
    requires HostLength(h).Some?
    ensures var r := Cleaned(h);
            LowerAll(r) == r &&
            (HostLength(r) == Some(|r|) <==>
             !(h[Cut(h) - 1] == DOT && !Lacks(h, Cut(h), |h|, DOT)))
  {
    var r := Cleaned(h);
    CleanedBytes(h);
    CleanedCut(h);
    HostIsPrefix(h);
    var n := |r|;
    assert HostLength(r) == Some(n) <==> r[n - 1] != DOT;
  }

  /** "a.:8.0" is cut to "a.", and that to "a". */
  lemma NotAlwaysIdempotent()
    ensures var h: Bytes := [97, DOT, COLON, 56, DOT, 48];
            && HostLength(h) == Some(2) && Cleaned(h) == [97, DOT]
            && HostLength(Cleaned(h)) == Some(1)
  {
    var h: Bytes := [97, DOT, COLON, 56, DOT, 48];
    CutAt(h, 2);
    var r: Bytes := [97, DOT];
    CutAt(r, 2);
    assert DotPos(h, 6) == 4 by { assert h[4] == DOT && h[5] != DOT; }
    assert LowerAll(h)[..2] == r;
  }
}
