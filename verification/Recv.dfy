/** lt_recv (buffer_op_lea.c:288-328): reading from a socket into a chain of buffers. */
module Receiving {
  import opened Bytes
  import opened Buffers

  /** What a socket still has to give: bytes (none at the end of the stream), or an error. */
  datatype Answer = Data(bytes: Bytes) | Again | Failed

  /** How a script ends: at its first answer without bytes. Behind its last answer there is nothing yet. */
  function Ending(script: seq<Answer>): (a: Answer)
    ensures a.Data? ==> a.bytes == []
  {
    if script == [] then Again
    else if script[0].Data? && script[0].bytes != [] then Ending(script[1..])
    else script[0]
  }

  /** The bytes that come before that. */
  function Delivered(script: seq<Answer>): Bytes {
    if script != [] && script[0].Data? then
      script[0].bytes + if script[0].bytes == [] then [] else Delivered(script[1..])
    else []
  }

  /** The script behind its ending. */
  function Beyond(script: seq<Answer>): seq<Answer> {
    if script == [] then []
    else if script[0].Data? && script[0].bytes != [] then Beyond(script[1..])
    else script[1..]
  }

  function Weight(script: seq<Answer>): nat {
    if script == [] then 0 else (if script[0].Data? then |script[0].bytes| else 0) + 1 + Weight(script[1..])
  }

  /** Taking part of the first answer leaves the stream as it was. */
  lemma Split(script: seq<Answer>, k: nat)
    requires script != [] && script[0].Data? && 0 < k <= |script[0].bytes|
    ensures var bs := script[0].bytes;
            var rest := if k == |bs| then script[1..] else [Data(bs[k..])] + script[1..];
            && Delivered(script) == bs[..k] + Delivered(rest)
            && Ending(rest) == Ending(script) && Beyond(rest) == Beyond(script) && Weight(rest) < Weight(script)
  {
    var bs := script[0].bytes;
    if k < |bs| {
      var rest := [Data(bs[k..])] + script[1..];
      assert rest[1..] == script[1..];
      assert bs[..k] + (bs[k..] + Delivered(script[1..])) == bs + Delivered(script[1..]);
    }
  }

  /** What an answer without bytes tells the caller. */
  function Failure(n: int, again: bool): Answer {
    if n == 0 then Data([]) else if again then Again else Failed
  }

  class Socket {
    var script: seq<Answer>

    /** recv: at most `length` bytes to `at`; -1 for an error, which `again` says more of. */
    method Recv(buf: array<Byte>, at: nat, length: nat) returns (n: int, again: bool)
      requires at + length <= buf.Length
      modifies this, buf
      ensures buf[..at] == old(buf[..at]) && n <= length
      ensures length == 0 ==> n == 0 && script == old(script)
      ensures length > 0 && n > 0 ==>
                && Delivered(old(script)) == buf[at..at + n] + Delivered(script)
                && Ending(script) == Ending(old(script)) && Beyond(script) == Beyond(old(script))
                && Weight(script) < Weight(old(script))
      ensures length > 0 && n <= 0 ==>
                && Delivered(old(script)) == [] && script == Beyond(old(script))
                && Ending(old(script)) == Failure(n, again)
    {
      n, again := -1, false;
      if length == 0 {
        n := 0;
      } else if script == [] {
        again := true;
      } else {
        match script[0]
        case Data(bs) =>
          n := if |bs| <= length then |bs| else length;
          for i := 0 to n
            invariant buf[..at] == old(buf[..at]) && buf[at..at + i] == bs[..i]
            invariant script == old(script)
          {
            buf[at + i] := bs[i];
          }
          if n > 0 {
            Split(script, n);
            script := if n == |bs| then script[1..] else [Data(bs[n..])] + script[1..];
          } else {
            script := script[1..];
          }
        case Again =>
          again := true;
          script := script[1..];
        case Failed =>
          script := script[1..];
      }
    }
  }

  /** Buffers linked one behind the other, each with its own bytes. */
  ghost predicate Linked(chain: seq<Buffer>)
    reads chain
  {
    && (forall i :: 0 <= i < |chain| - 1 ==> chain[i].next == chain[i + 1])
    && (forall i, j :: 0 <= i < j < |chain| ==> chain[i] != chain[j] && chain[i].start != chain[j].start)
    && AllValid(chain)
  }

  ghost predicate AllValid(chain: seq<Buffer>)
    reads chain
  {
    forall b :: b in chain ==> b.Valid()
  }

  /** The bytes received, over a whole chain. */
  ghost function Contents(chain: seq<Buffer>): Bytes
    reads chain, set b | b in chain :: b.start
    requires AllValid(chain)
  {
    if chain == [] then []
    else
      var b := chain[|chain| - 1];
      assert b in chain;
      Contents(chain[..|chain| - 1]) + b.Seen()
  }

  /** All buffers but the last are full. */
  ghost predicate Packed(chain: seq<Buffer>)
    reads chain
  {
    forall i :: 0 <= i < |chain| - 1 ==> chain[i].last == chain[i].start.Length
  }

  lemma ContentsGrow(chain: seq<Buffer>, b: Buffer)
    requires AllValid(chain) && b.Valid()
    ensures Contents(chain + [b]) == Contents(chain) + b.Seen()
  {
    assert (chain + [b])[..|chain|] == chain;
  }

  /** The bytes received and those still to come are `all`; then the script ends in `ending`. */
  predicate Flow(got: Bytes, script: seq<Answer>, all: Bytes, ending: Answer, beyond: seq<Answer>) {
    got + Delivered(script) == all && Ending(script) == ending && Beyond(script) == beyond
  }

  lemma FlowStep(got: Bytes, taken: Bytes, script: seq<Answer>, script': seq<Answer>,
                 all: Bytes, ending: Answer, beyond: seq<Answer>)
    requires Flow(got, script, all, ending, beyond)
    requires Delivered(script) == taken + Delivered(script')
    requires Ending(script') == Ending(script) && Beyond(script') == Beyond(script)
    ensures Flow(got + taken, script', all, ending, beyond)
  {
    assert got + (taken + Delivered(script')) == got + taken + Delivered(script');
  }

  /** One call of recv, into the free end of a buffer. */
  method TakeIn(fd: Socket, cur: Buffer, length: nat) returns (n: int, again: bool, ghost taken: Bytes)
    requires cur.Valid() && length == cur.start.Length - cur.last
    modifies fd, cur`last, cur.start
    ensures cur.Valid() && n <= length && cur.Seen() == old(cur.Seen()) + taken
    ensures cur.last == old(cur.last) + if n > 0 then n else 0
    ensures |taken| == if n > 0 then n else 0
    ensures length == 0 ==> n == 0 && fd.script == old(fd.script)
    ensures n > 0 ==>
              && Delivered(old(fd.script)) == taken + Delivered(fd.script)
              && Ending(fd.script) == Ending(old(fd.script)) && Beyond(fd.script) == Beyond(old(fd.script))
              && Weight(fd.script) < Weight(old(fd.script))
    ensures length > 0 && n <= 0 ==>
              && Delivered(old(fd.script)) == [] && fd.script == Beyond(old(fd.script))
              && Ending(old(fd.script)) == Failure(n, again)
  {
    hide Delivered, Ending, Beyond, Weight, Failure;
    n, again := fd.Recv(cur.start, cur.last, length);
    taken := [];
    if n > 0 {
      cur.last := cur.last + n;
      taken := cur.start[old(cur.last)..cur.last];
    }
  }

  /** One turn of the loop: the last buffer of the chain takes some bytes, or the script ends. */
  method ReadInto(fd: Socket, cur: Buffer, length: nat, ghost chain: seq<Buffer>,
                  ghost all: Bytes, ghost ending: Answer, ghost beyond: seq<Answer>)
    returns (n: int, again: bool)
    requires chain != [] && chain[|chain| - 1] == cur && Linked(chain) && Packed(chain)
    requires length == cur.start.Length - cur.last
    requires Flow(Contents(chain), fd.script, all, ending, beyond)
    modifies fd, cur`last, cur.start
    ensures Linked(chain) && Packed(chain) && n <= length
    ensures n > 0 ==> cur.last == old(cur.last) + n
    ensures n <= 0 ==> cur.last == old(cur.last)
    ensures length == 0 ==> n == 0 && fd.script == old(fd.script) && cur.Seen() == old(cur.Seen())
    ensures n > 0 ==> Flow(Contents(chain), fd.script, all, ending, beyond)
    ensures n > 0 ==> |Contents(chain)| == |old(Contents(chain))| + n && Weight(fd.script) < Weight(old(fd.script))
    ensures length > 0 && n <= 0 ==>
              Contents(chain) == old(Contents(chain)) == all && fd.script == beyond && Failure(n, again) == ending
  {
    hide Delivered, Ending, Beyond, Weight, Contents, Flow, Failure;
    ghost var got, script, front := Contents(chain), fd.script, chain[..|chain| - 1];
    assert chain == front + [cur];
    ContentsGrow(front, cur);
    ghost var before, seen, taken := Contents(front), cur.Seen(), [];
    n, again, taken := TakeIn(fd, cur, length);
    ContentsKept(front);
    ContentsGrow(front, cur);
    Regroup(before, seen, taken);
    if n > 0 {
      FlowStep(got, taken, script, fd.script, all, ending, beyond);
    } else {
      FlowEnd(got, script, all, ending, beyond);
    }
  }

  lemma Regroup(a: Bytes, b: Bytes, c: Bytes)
    ensures a + (b + c) == a + b + c
    ensures a + b + [] == a + b
  {
  }

  lemma FlowEnd(got: Bytes, script: seq<Answer>, all: Bytes, ending: Answer, beyond: seq<Answer>)
    requires Flow(got, script, all, ending, beyond)
    ensures Delivered(script) == [] ==> got == all
    ensures Ending(script) == ending && Beyond(script) == beyond
  {
    assert got + [] == got;
  }

  /** A full buffer gets a new one behind it. */
  method Extend(cur: Buffer, ghost chain: seq<Buffer>) returns (next: Buffer, ghost longer: seq<Buffer>)
    requires chain != [] && chain[|chain| - 1] == cur && Linked(chain) && Packed(chain) && cur.last == cur.start.Length
    modifies cur`next
    ensures fresh(next) && fresh(next.start) && longer == chain + [next] && Linked(longer) && Packed(longer)
    ensures Contents(longer) == old(Contents(chain))
    ensures next.pos == 0 && next.last == 0 && next.start.Length == DEFAULT_BUF_SIZE
  {
    next := new Buffer();
    cur.next := next;
    longer := chain + [next];
    ContentsGrow(chain, next);
    ContentsKept(chain);
  }

  /** Received bytes stay where nothing is written and no end moves. */
  twostate lemma ContentsKept(chain: seq<Buffer>)
    requires old(AllValid(chain))
    requires forall b :: b in chain ==>
               b.last == old(b.last) && b.pos == old(b.pos) && b.start[..] == old(b.start[..])
    ensures AllValid(chain) && Contents(chain) == old(Contents(chain))
  {
    if chain != [] {
      ContentsKept(chain[..|chain| - 1]);
    }
  }

  /**
   lt_recv: the chain from the buffer on takes up the delivered bytes in order, whatever the pieces
   they come in. A buffer that has no room to begin with is taken for the end of the stream.
   */
  method Receive(fd: Socket, buf: Buffer) returns (rc: int, ghost chain: seq<Buffer>)
    requires buf.Valid()
    modifies fd, buf`last, buf`next, buf.start
    ensures chain != [] && chain[0] == buf && Linked(chain) && Packed(chain)
    ensures fresh(chain[1..])
    ensures forall i :: 1 <= i < |chain| ==> chain[i].pos == 0 && chain[i].start.Length == DEFAULT_BUF_SIZE
    ensures old(buf.last) == buf.start.Length ==>
              && rc == LCLOSE && chain == [buf] && fd.script == old(fd.script)
              && buf.last == old(buf.last) && buf.Seen() == old(buf.Seen()) && buf.next == old(buf.next)
    ensures old(buf.last) < buf.start.Length ==>
              && Contents(chain) == old(buf.Seen()) + Delivered(old(fd.script))
              && (rc > 0 <==> Ending(old(fd.script)) == Again && Delivered(old(fd.script)) != [])
              && (rc > 0 ==> rc == |Delivered(old(fd.script))|)
              && (rc == LAGAIN <==> Ending(old(fd.script)) == Again && Delivered(old(fd.script)) == [])
              && (rc == LERROR <==> Ending(old(fd.script)) == Failed)
              && (rc == LCLOSE <==> Ending(old(fd.script)).Data?)
              && fd.script == Beyond(old(fd.script))
              && chain[|chain| - 1].last < chain[|chain| - 1].start.Length
  {
    hide Delivered, Ending, Beyond, Weight, Contents, Flow;
    rc, chain := 0, [buf];
    var cur := buf;
    ghost var seen, coming := buf.Seen(), Delivered(fd.script);
    ghost var ending, beyond := Ending(fd.script), Beyond(fd.script);
    OneBuffer(buf, fd.script);
    while true
      invariant chain != [] && chain[0] == buf && chain[|chain| - 1] == cur
      invariant Linked(chain) && Packed(chain) && fresh(chain[1..])
      invariant forall i :: 1 <= i < |chain| ==> fresh(chain[i].start)
      invariant forall i :: 1 <= i < |chain| ==> chain[i].pos == 0 && chain[i].start.Length == DEFAULT_BUF_SIZE
      invariant Flow(Contents(chain), fd.script, seen + coming, ending, beyond)
      invariant |Contents(chain)| == |seen| + rc && 0 <= rc
      invariant old(buf.last) < buf.start.Length ==> cur.last < cur.start.Length
      invariant old(buf.last) == buf.start.Length ==>
                  && chain == [buf] && fd.script == old(fd.script)
                  && buf.last == old(buf.last) && buf.Seen() == seen && buf.next == old(buf.next)
      decreases Weight(fd.script)
    {
      var length: nat := cur.start.Length - cur.last;
      var n, again := ReadInto(fd, cur, length, chain, seen + coming, ending, beyond);
      if n == 0 {
        return LCLOSE, chain;
      } else if n > 0 {
        rc := rc + n;
        if n == length {
          cur, chain := Extend(cur, chain);
        }
      } else if again {
        return if rc > 0 then rc else LAGAIN, chain;
      } else {
        return LERROR, chain;
      }
    }
  }

  lemma OneBuffer(buf: Buffer, script: seq<Answer>)
    requires buf.Valid()
    ensures Contents([buf]) == buf.Seen()
    ensures Flow(buf.Seen(), script, buf.Seen() + Delivered(script), Ending(script), Beyond(script))
  {
    assert [buf][..0] == [];
  }
}
