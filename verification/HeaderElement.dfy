/** What the effect of a block of header lines is, line by line and byte by byte. */
module HeaderElements {
  import opened Bytes
  import opened HeaderLine
  import opened HeaderLanguage
  import opened HeaderBlocks
  import Hosts

  /** The names that the header loop keeps: it allows the underscore. */
  lemma KeptNames(name: Bytes)
    ensures ValidName(REQUEST_ENV, name) <==>
              forall i :: 0 <= i < |name| ==>
                var c := name[i] as char;
                'a' <= c <= 'z' || 'A' <= c <= 'Z' || '0' <= c <= '9' || c == '-' || c == '_'
  {
  }

  /** A name is lowercased where it stands, and nothing else. */
  lemma NameLoweredAt(data: Bytes, p: nat, t: HeaderText, k: nat)
    requires p + |Text(t)| <= |data| && k < |data|
    ensures NameLowered(data, p, t)[k] == if p <= k < p + |t.name| then Lower(data[k]) else data[k]
  {
  }

  /** Most elements: hash and place of the name, place of the value, and the length through the line end. */
  lemma ElementOfLine(data: Bytes, p: nat, t: HeaderText)
    requires p + |Text(t)| <= |data| && Hash(LowerAll(t.name)) != HOST_HASH
    ensures var (data', e) := LineEffect(HOST_HASH, data, p, t);
            && data' == NameLowered(data, p, t)
            && e.hash == Sum(LowerAll(t.name)) % TWO32 && e.key == Str(|t.name|, p)
            && e.value == Str(ValueEnd(t) - ValueAt(t), p + ValueAt(t)) && e.length == ValueEnd(t) + 2
  {
    hide Hash, Sum, NameLowered;
    HashIsSum(LowerAll(t.name));
  }

  /** A value whose name has the hash of Host is lowercased and cut if it is a valid host, and else left alone. */
  lemma ElementOfHost(data: Bytes, p: nat, t: HeaderText)
    requires p + |Text(t)| <= |data| && Hash(LowerAll(t.name)) == HOST_HASH
    ensures var (data', e) := LineEffect(HOST_HASH, data, p, t);
            var low := NameLowered(data, p, t);
            var host := Hosts.HostLength(low[p + ValueAt(t)..p + ValueEnd(t)]);
            && e.key == Str(|t.name|, p) && e.value.data == p + ValueAt(t) && e.length == ValueEnd(t) + 2
            && e.value.length == (if host.Some? then host.value else ValueEnd(t) - ValueAt(t))
            && |data'| == |data|
            && forall k :: 0 <= k < |data| ==>
                 data'[k] == if host.Some? && p + ValueAt(t) <= k < p + ValueEnd(t) then Lower(low[k]) else low[k]
  {
    hide Hash, NameLowered, Hosts.HostLength;
  }

  /** How many of the first i lines are valid. */
  function ValidCount(lines: seq<HeaderText>, i: nat): nat
    requires i <= |lines|
  {
    if i == 0 then 0
    else ValidCount(lines, i - 1) + if ValidName(REQUEST_ENV, lines[i - 1].name) then 1 else 0
  }

  lemma {:induction false} CountBehind(lines: seq<HeaderText>, i: nat)
    requires 0 < i <= |lines|
    ensures ValidCount(lines, i) ==
            ValidCount(lines[1..], i - 1) + if ValidName(REQUEST_ENV, lines[0].name) then 1 else 0
  {
    if i > 1 {
      CountBehind(lines, i - 1);
    }
  }

  /** The valid lines, and no others, become elements, in the order of the lines. */
  lemma {:induction false} ElementInOrder(data: Bytes, p: nat, lines: seq<HeaderText>, i: nat)
    requires p + |LinesText(lines)| <= |data| && i < |lines| && ValidName(REQUEST_ENV, lines[i].name)
    ensures var es, k := BlockEffect(HOST_HASH, data, p, lines).1, ValidCount(lines, i);
            var at := p + |LinesText(lines[..i])|;
            && k < |es| && es[k].key == Str(|lines[i].name|, at)
            && es[k].value.data == at + ValueAt(lines[i]) && es[k].length == ValueEnd(lines[i]) + 2
            && es[k].hash == Sum(LowerAll(lines[i].name)) % TWO32
    decreases |lines|
  {
    hide Hash, Sum, NameLowered, ValidName, Text, ValueAt, ValueEnd, Hosts.HostLength;
    var t := lines[0];
    if i == 0 {
      assert lines[..0] == [];
      HashIsSum(LowerAll(t.name));
    } else {
      CountBehind(lines, i);
      assert lines[..i][1..] == lines[1..][..i - 1] && lines[..i][0] == t;
      var data' := if ValidName(REQUEST_ENV, t.name) then LineEffect(HOST_HASH, data, p, t).0 else data;
      ElementInOrder(data', p + |Text(t)|, lines[1..], i - 1);
    }
  }

  lemma {:induction false} ElementsCounted(data: Bytes, p: nat, lines: seq<HeaderText>)
    requires p + |LinesText(lines)| <= |data|
    ensures |BlockEffect(HOST_HASH, data, p, lines).1| == ValidCount(lines, |lines|)
    decreases |lines|
  {
    hide LineEffect, ValidName, Text;
    if lines != [] {
      var t := lines[0];
      CountBehind(lines, |lines|);
      var data' := if ValidName(REQUEST_ENV, t.name) then LineEffect(HOST_HASH, data, p, t).0 else data;
      ElementsCounted(data', p + |Text(t)|, lines[1..]);
    }
  }

  /** Outside the lines no byte changes, and inside none but by lowercasing. */
  lemma {:induction false} BytesKept(data: Bytes, p: nat, lines: seq<HeaderText>, k: nat)
    requires p + |LinesText(lines)| <= |data| && k < |data|
    ensures var data' := BlockEffect(HOST_HASH, data, p, lines).0;
            && (data'[k] == data[k] || data'[k] == Lower(data[k]))
            && (k < p || p + |LinesText(lines)| <= k ==> data'[k] == data[k])
    decreases |lines|
  {
    hide LineEffect, ValidName, Text, Lower;
    if lines != [] {
      var t := lines[0];
      var data' := if ValidName(REQUEST_ENV, t.name) then LineEffect(HOST_HASH, data, p, t).0 else data;
      LineKept(data, p, t, k);
      LowerTwice(data[k]);
      BytesKept(data', p + |Text(t)|, lines[1..], k);
    }
  }

  lemma LowerTwice(b: Byte)
    ensures Lower(Lower(b)) == Lower(b)
  {
  }

  lemma LineKept(data: Bytes, p: nat, t: HeaderText, k: nat)
    requires p + |Text(t)| <= |data| && k < |data|
    ensures var data' := LineEffect(HOST_HASH, data, p, t).0;
            && (data'[k] == data[k] || data'[k] == Lower(data[k]))
            && (k < p || p + |Text(t)| <= k ==> data'[k] == data[k])
  {
    hide Hosts.HostLength, Hash;
    NameLoweredAt(data, p, t, k);
    LowerTwice(data[k]);
  }
}
