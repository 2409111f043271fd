/** Bytes, the character classes of the parsers, and the scans they amount to. */
module Bytes {

  /** The parsers declare plain `char`; their 256-entry tables fix the intent to 0..255. */
  type Byte = b: int | 0 <= b < 256
  type Bytes = seq<Byte>

  /** A pointer the source compares with NULL: an offset into the buffer, or nothing. */
  datatype Ptr = Null | At(pos: int)

  datatype Option<+T> = None | Some(value: T)

  // Return codes (event_lea.h:206-216, http.h:20).
  const LOK := 0
  const LERROR := -2
  const LAGAIN := -3
  const LCLOSE := -5
  const HEADER_DONE := 1

  const NUL: Byte := 0
  const LF: Byte := 10
  const CR: Byte := 13
  const SP: Byte := 32
  const HASH: Byte := 35
  const PERCENT: Byte := 37
  const PLUS: Byte := 43
  const DASH: Byte := 45
  const DOT: Byte := 46
  const SLASH: Byte := 47
  const COLON: Byte := 58
  const QMARK: Byte := 63
  const UPPER_H: Byte := 72
  const UPPER_P: Byte := 80
  const UPPER_T: Byte := 84
  const LBRACKET: Byte := 91
  const RBRACKET: Byte := 93
  const UNDERSCORE: Byte := 95

  predicate IsSpace(b: Byte) { b == SP }

  predicate IsLineEnd(b: Byte) { b == CR || b == LF }

  predicate IsDigit(b: Byte) { 48 <= b <= 57 }

  predicate IsUpper(b: Byte) { 65 <= b <= 90 }

  predicate IsLetter(b: Byte) { 65 <= b <= 90 || 97 <= b <= 122 }

  /** The bytes an HTTP method may hold. */
  predicate IsMethodByte(b: Byte) { IsUpper(b) || b == UNDERSCORE }

  /** The bytes of a registered name or a dotted address. */
  predicate IsHostByte(b: Byte) { IsLetter(b) || IsDigit(b) || b == DOT || b == DASH }

  /** The bytes between the brackets of an address literal: unreserved, sub-delims and ':'. */
  predicate IsLiteralByte(b: Byte) {
    || IsLetter(b) || IsDigit(b) || b == COLON || b == DASH || b == DOT || b == UNDERSCORE
    || b in {126, 33, 36, 38, 39, 40, 41, 42, 43, 44, 59, 61} // ~ ! $ & ' ( ) * + , ; =
  }

  /** The bytes the URI scan passes over without a second look. */
  predicate IsPlain(b: Byte) {
    b !in {NUL, LF, CR, SP, HASH, PERCENT, PLUS, DOT, SLASH, QMARK}
  }

  /** The named bytes as characters. */
  lemma Characters()
    ensures NUL == '\0' as int && LF == '\n' as int && CR == '\r' as int && SP == ' ' as int
    ensures HASH == '#' as int && PERCENT == '%' as int && PLUS == '+' as int && DASH == '-' as int
    ensures DOT == '.' as int && SLASH == '/' as int && COLON == ':' as int && QMARK == '?' as int
    ensures UPPER_H == 'H' as int && UPPER_P == 'P' as int && UPPER_T == 'T' as int
    ensures LBRACKET == '[' as int && RBRACKET == ']' as int && UNDERSCORE == '_' as int
  {
  }

  /** The classes as sets of characters. */
  lemma Classes(b: Byte)
    ensures var c := b as char;
            && (IsSpace(b) <==> c == ' ') && (IsLineEnd(b) <==> c == '\r' || c == '\n')
            && (IsDigit(b) <==> '0' <= c <= '9')
            && (IsUpper(b) <==> 'A' <= c <= 'Z')
            && (IsLetter(b) <==> 'a' <= c <= 'z' || 'A' <= c <= 'Z')
            && (IsMethodByte(b) <==> 'A' <= c <= 'Z' || c == '_')
            && (IsHostByte(b) <==> 'a' <= c <= 'z' || 'A' <= c <= 'Z' || '0' <= c <= '9' || c == '.' || c == '-')
            && (IsLiteralByte(b) <==>
                  || 'a' <= c <= 'z' || 'A' <= c <= 'Z' || '0' <= c <= '9'
                  || c in {':', '-', '.', '_', '~', '!', '$', '&', '\'', '(', ')', '*', '+', ',', ';', '='})
            && (IsPlain(b) <==> c !in {'\0', '\n', '\r', ' ', '#', '%', '+', '.', '/', '?'})
  {
  }

  /** `ch | 0x20` on a byte. */
  function OrBit5(b: Byte): Byte {
    if b / 32 % 2 == 1 then b else b + 32
  }

  /** The letter test `c = ch | 0x20; c >= 'a' && c <= 'z'` accepts exactly the letters. */
  lemma OrBit5IsLetterTest(b: Byte)
    ensures 97 <= OrBit5(b) <= 122 <==> IsLetter(b)
  {
    assert b == 32 * (b / 32) + b % 32;
    if b / 32 == 2 || b / 32 == 3 {
    } else {
      assert b / 32 < 2 || 4 <= b / 32;
    }
  }

  /** The 256-bit table `usual`, one word per 32 bytes. */
  function UsualWord(i: nat): bv32 {
    if i == 0 then 0xffffdbfe
    else if i == 1 then 0x7fff37d6
    else 0xffffffff
  }

  /** `usual[ch >> 5] & (1 << (ch & 0x1f))` */
  predicate Usual(b: Byte) {
    UsualWord(b / 32) & (1 << (b % 32)) != 0
  }

  /** The table `usual` marks exactly the plain bytes. */
  lemma UsualIsPlain(b: Byte)
    ensures Usual(b) <==> IsPlain(b)
  {
    assert b == 32 * (b / 32) + b % 32;
    var k := b % 32;
    if k == 0 {} else if k == 1 {} else if k == 2 {} else if k == 3 {} else if k == 4 {}
    else if k == 5 {} else if k == 6 {} else if k == 7 {} else if k == 8 {} else if k == 9 {}
    else if k == 10 {} else if k == 11 {} else if k == 12 {} else if k == 13 {} else if k == 14 {}
    else if k == 15 {} else if k == 16 {} else if k == 17 {} else if k == 18 {} else if k == 19 {}
    else if k == 20 {} else if k == 21 {} else if k == 22 {} else if k == 23 {} else if k == 24 {}
    else if k == 25 {} else if k == 26 {} else if k == 27 {} else if k == 28 {} else if k == 29 {}
    else if k == 30 {} else { assert k == 31; }
  }

  /** `tolower` in the C locale. */
  function Lower(b: Byte): Byte {
    if IsUpper(b) then b + 32 else b
  }

  function LowerAll(s: Bytes): (r: Bytes)
    ensures |r| == |s|
    ensures forall i :: 0 <= i < |s| ==> r[i] == Lower(s[i])
  {
    seq(|s|, i requires 0 <= i < |s| => Lower(s[i]))
  }

  /** No upper-case letter is left, and only those change, by 32. */
  lemma LowerMeans(s: Bytes, i: nat)
    requires i < |s|
    ensures |LowerAll(s)| == |s|
    ensures var b, r := s[i] as char, LowerAll(s)[i] as char;
            && !('A' <= r <= 'Z')
            && ('A' <= b <= 'Z' ==> 'a' <= r <= 'z' && LowerAll(s)[i] == s[i] + 32)
            && (!('A' <= b <= 'Z') ==> r == b)
  {
  }

  /** The table `lowcase` of the header parser: 0 for a byte no header name may hold. */
  function Lowcase(b: Byte): Byte {
    if IsUpper(b) then b + 32
    else if IsLetter(b) || IsDigit(b) || b == DASH then b
    else 0
  }

  /** The decimal value of a run of digits. */
  function Dec(s: Bytes): int {
    if s == [] then 0 else 10 * Dec(s[..|s| - 1]) + s[|s| - 1] - 48
  }

  const TWO32 := 0x1_0000_0000

  /** One step of the rolling hash, `key * 31 + c`, in a 32-bit word. */
  function HashStep(hash: int, c: Byte): (r: int)
    ensures 0 <= r < TWO32
  {
    (hash * 31 + c) % TWO32
  }

  /** The hash of a whole string. */
  function Hash(s: Bytes): (r: int)
    ensures 0 <= r < TWO32
  {
    if s == [] then 0 else HashStep(Hash(s[..|s| - 1]), s[|s| - 1])
  }

  function Power31(n: nat): nat {
    if n == 0 then 1 else 31 * Power31(n - 1)
  }

  /** The sum of s[i] * 31^(|s| - 1 - i), which never wraps. */
  function Sum(s: Bytes): int {
    if s == [] then 0 else s[0] * Power31(|s| - 1) + Sum(s[1..])
  }

  lemma {:induction false} SumGrows(s: Bytes, c: Byte)
    ensures Sum(s + [c]) == 31 * Sum(s) + c
  {
    if s == [] {
      assert Sum([c][1..]) == 0 && Power31(0) == 1;
    } else {
      var t := s + [c];
      SumGrows(s[1..], c);
      assert t[1..] == s[1..] + [c] && Power31(|s|) == 31 * Power31(|s| - 1);
      assert s[0] * (31 * Power31(|s| - 1)) == 31 * (s[0] * Power31(|s| - 1));
    }
  }

  /** Wrapping at every step is wrapping once. */
  lemma WrapOnce(sum: int, c: Byte)
    ensures (sum % TWO32 * 31 + c) % TWO32 == (31 * sum + c) % TWO32
  {
    var k := sum / TWO32;
    assert sum == TWO32 * k + sum % TWO32;
    assert 31 * sum + c == TWO32 * (31 * k) + (sum % TWO32 * 31 + c);
  }

  /** The rolling hash is the sum modulo 2^32. */
  lemma {:induction false} HashIsSum(s: Bytes)
    ensures Hash(s) == Sum(s) % 0x1_0000_0000
    decreases |s|
  {
    if s != [] {
      var front, c := s[..|s| - 1], s[|s| - 1];
      HashIsSum(front);
      SumGrows(front, c);
      WrapOnce(Sum(front), c);
      assert s == front + [c];
    }
  }

  /** BKDRhash (http.c:14-22). */
  method BKDRhash(str: Bytes) returns (hash: int)
    ensures hash == Hash(str) == Sum(str) % 0x1_0000_0000
  {
    hash := 0;
    for i := 0 to |str|
      invariant hash == Hash(str[..i])
    {
      assert str[..i + 1][..i] == str[..i];
      hash := HashStep(hash, str[i]);
    }
    assert str[..|str|] == str;
    HashIsSum(str);
  }

  predicate All(s: Bytes, ok: Byte -> bool) {
    forall i :: 0 <= i < |s| ==> ok(s[i])
  }

  /** The first position from p on whose byte is not in the class, or the end. */
  function Skip(ok: Byte -> bool, data: Bytes, p: nat): (q: nat)
    requires p <= |data|
    ensures p <= q <= |data|
    ensures forall i :: p <= i < q ==> ok(data[i])
    ensures q < |data| ==> !ok(data[q])
    decreases |data| - p
  {
    if p < |data| && ok(data[p]) then Skip(ok, data, p + 1) else p
  }

  /** Skip is determined by what it promises. */
  lemma {:induction false} SkipUnique(ok: Byte -> bool, data: Bytes, p: nat, q: nat)
    requires p <= q <= |data|
    requires forall i :: p <= i < q ==> ok(data[i])
    requires q < |data| ==> !ok(data[q])
    ensures Skip(ok, data, p) == q
    decreases q - p
  {
    if p < q {
      SkipUnique(ok, data, p + 1, q);
    }
  }

  /** The text w stands in data at p. */
  predicate Occurs(data: Bytes, p: nat, w: Bytes) {
    p + |w| <= |data| && data[p..p + |w|] == w
  }

  lemma OccursConcat(data: Bytes, p: nat, a: Bytes, b: Bytes)
    ensures Occurs(data, p, a + b) <==> Occurs(data, p, a) && Occurs(data, p + |a|, b)
  {
    if p + |a| + |b| <= |data| {
      var ab := data[p..p + |a| + |b|];
      assert ab == data[p..p + |a|] + data[p + |a|..p + |a| + |b|];
      assert ab[..|a|] == data[p..p + |a|] && ab[|a|..] == data[p + |a|..p + |a| + |b|];
      assert (a + b)[..|a|] == a && (a + b)[|a|..] == b;
    }
  }

  /** A text of n copies of one byte. */
  function Repeat(b: Byte, n: nat): (r: Bytes)
    ensures |r| == n && forall i :: 0 <= i < n ==> r[i] == b
  {
    seq(n, _ => b)
  }

  /** The text that arrives in pieces. */
  function Concat(pieces: seq<Bytes>): Bytes {
    if pieces == [] then [] else pieces[0] + Concat(pieces[1..])
  }
}
