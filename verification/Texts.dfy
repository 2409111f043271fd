/** Texts that stand in a buffer: line ends, runs of spaces and of other classes, numbers. */
module Texts {
  import opened Bytes

  datatype Eol = Lf | CrLf

  function EolText(e: Eol): Bytes {
    if e == Lf then [LF] else [CR, LF]
  }

  /** Where a line ends: CR LF sets the pointer at its start, a lone LF only where nothing was set before. */
  function EndAt(was: Ptr, p: nat, e: Eol): Ptr {
    if e == CrLf || was == Null then At(p) else was
  }

  function Spaces(n: nat): Bytes { Repeat(SP, n) }

  /** A slice of what is left behind p. */
  lemma TailSlice(data: Bytes, p: nat, n: nat)
    requires p + n <= |data|
    ensures data[p..][..n] == data[p..p + n] && data[p..][n..] == data[p + n..]
  {
    forall i | 0 <= i < n
      ensures data[p..][..n][i] == data[p..p + n][i]
    {
      assert data[p..][i] == data[p + i];
    }
  }

  /** A slice of what is in front of q. */
  lemma HeadSlice(data: Bytes, p: nat, n: nat, q: nat)
    requires p + n <= q <= |data|
    ensures data[..q][p..p + n] == data[p..p + n] && data[..q][..p] == data[..p]
  {
    var head := data[..q];
    forall i | p <= i < p + n
      ensures head[i] == data[i]
    {
    }
  }

  lemma SliceGrows(data: Bytes, from: nat, p: nat)
    requires from <= p < |data|
    ensures data[from..p + 1] == data[from..p] + [data[p]]
  {
  }

  lemma OccursFits(data: Bytes, p: nat, w: Bytes)
    ensures Occurs(data, p, w) ==> p + |w| <= |data| && data[p..p + |w|] == w
    ensures Occurs(data, p, w) && w != [] ==> data[p] == w[0]
  {
  }

  lemma SliceAt(data: Bytes, p: nat, q: nat)
    requires p <= q <= |data|
    ensures Occurs(data, p, data[p..q]) && |data[p..q]| == q - p
  {
  }

  lemma OccursWhole(w: Bytes)
    ensures Occurs(w, 0, w)
  {
  }

  lemma OccursShorter(data: Bytes, more: Bytes, p: nat, w: Bytes)
    requires Occurs(data + more, p, w) && p + |w| <= |data|
    ensures Occurs(data, p, w)
  {
    assert (data + more)[p..p + |w|] == data[p..p + |w|];
  }

  /** A run of a class of bytes. */
  lemma SliceOf(ok: Byte -> bool, data: Bytes, p: nat, q: nat)
    requires p <= q <= |data| && forall i :: p <= i < q ==> ok(data[i])
    ensures All(data[p..q], ok) && (p < q ==> data[p..q][0] == data[p])
    ensures Occurs(data, p, data[p..q]) && |data[p..q]| == q - p
  {
  }

  lemma OccursOne(data: Bytes, p: nat, b: Byte)
    ensures Occurs(data, p, [b]) <==> p < |data| && data[p] == b
  {
  }

  lemma OccursEol(data: Bytes, p: nat, e: Eol)
    ensures Occurs(data, p, EolText(e)) <==>
            match e
            case Lf => p < |data| && data[p] == LF
            case CrLf => p + 1 < |data| && data[p] == CR && data[p + 1] == LF
  {
  }

  /** A text of a class of bytes, in front of a byte outside the class. */
  lemma OccursClass(ok: Byte -> bool, data: Bytes, p: nat, text: Bytes)
    requires All(text, ok) && Occurs(data, p, text)
    requires p + |text| < |data| ==> !ok(data[p + |text|])
    ensures Skip(ok, data, p) == p + |text|
  {
    forall i | p <= i < p + |text| ensures ok(data[i]) {
      assert data[i] == text[i - p];
    }
    SkipUnique(ok, data, p, p + |text|);
  }

  /** Spaces at p, and then the byte at p + n, which is no space. */
  lemma OccursSpaces(data: Bytes, p: nat, n: nat)
    requires p + n < |data| && data[p + n] != SP
    ensures Occurs(data, p, Spaces(n)) <==> Skip(IsSpace, data, p) == p + n
  {
    if Occurs(data, p, Spaces(n)) {
      OccursClass(IsSpace, data, p, Spaces(n));
    }
  }

  /** One more digit. */
  lemma DecGrows(data: Bytes, from: nat, p: nat)
    requires from <= p < |data|
    ensures Dec(data[from..p + 1]) == 10 * Dec(data[from..p]) + data[p] - 48
  {
    assert data[from..p + 1][..p - from] == data[from..p];
  }

  lemma DecOne(d: Byte)
    ensures Dec([d]) == d - 48
  {
    assert [d][..0] == [];
  }

  lemma DecFirst(data: Bytes, p: nat)
    requires p < |data|
    ensures Dec(data[p..p + 1]) == data[p] as int - 48
  {
    DecOne(data[p]);
    assert data[p..p + 1] == [data[p]];
  }

  lemma {:induction false} DecNonNegative(s: Bytes)
    requires All(s, IsDigit)
    ensures Dec(s) >= 0
    ensures s != [] && s[0] != 48 ==> Dec(s) >= 1
  {
    if s != [] {
      DecNonNegative(s[..|s| - 1]);
    }
  }

  // ---------- the first of a byte ----------

  predicate Lacks(data: Bytes, lo: nat, hi: nat, b: Byte)
    requires hi <= |data|
  {
    forall i :: lo <= i < hi ==> data[i] != b
  }

  /** The first b in data[lo..hi], or hi. */
  function First(data: Bytes, lo: nat, hi: nat, b: Byte): (m: nat)
    requires lo <= hi <= |data|
    ensures lo <= m <= hi && Lacks(data, lo, m, b)
    ensures m < hi ==> data[m] == b
    decreases hi - lo
  {
    if lo == hi || data[lo] == b then lo else First(data, lo + 1, hi, b)
  }

  lemma {:induction false} FirstGrows(data: Bytes, lo: nat, p: nat, b: Byte)
    requires lo <= p < |data|
    ensures First(data, lo, p + 1, b) ==
            if First(data, lo, p, b) < p then First(data, lo, p, b) else if data[p] == b then p else p + 1
    decreases p - lo
  {
    if lo < p && data[lo] != b {
      FirstGrows(data, lo + 1, p, b);
    }
  }
}
