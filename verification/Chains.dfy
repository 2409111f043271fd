/** The gather lists of http.c: chains of (base, length) pairs that point back into the buffer. */
module Chains {
  import opened HeaderBlocks
  import opened Requests
  import opened Pools

  /** struct iovec; the base is an offset into the buffer. */
  datatype Iov = Iov(base: int, len: int)

  class Chain {
    var buf: Iov
    var next: Chain?
    var chainLen: int
  }

  /** Name and value of each element, with the two bytes behind each. */
  function Pairs(es: seq<Element>): (r: seq<Iov>)
    ensures |r| == 2 * |es|
  {
    if es == [] then []
    else
      var e := es[|es| - 1];
      Pairs(es[..|es| - 1]) + [Iov(e.key.data, e.key.length + 2), Iov(e.value.data, e.value.length + 2)]
  }

  /** The last value takes the blank line with it. */
  function ElementIovs(es: seq<Element>): (r: seq<Iov>)
    ensures |r| == 2 * |es|
  {
    if es == [] then []
    else
      var r := Pairs(es);
      r[|r| - 1 := Iov(r[|r| - 1].base, r[|r| - 1].len + 2)]
  }

  function RequestIovs(name: Str, uri: Str, protocol: Str, es: seq<Element>): seq<Iov> {
    [Iov(name.data, name.length + 1), Iov(uri.data, uri.length + 1), Iov(protocol.data, protocol.length + 2)]
    + ElementIovs(es)
  }

  function ResponseIovs(line: Str, es: seq<Element>): seq<Iov> {
    [Iov(line.data, line.length + 2)] + ElementIovs(es)
  }

  /** The nodes, in the order of their links; what the last links to does not matter. */
  ghost predicate Chained(nodes: seq<Chain>)
    reads nodes
  {
    && (forall i :: 0 <= i < |nodes| - 1 ==> nodes[i].next == nodes[i + 1])
    && (forall i, j :: 0 <= i < j < |nodes| ==> nodes[i] != nodes[j])
  }

  ghost function Iovs(nodes: seq<Chain>): (r: seq<Iov>)
    reads nodes
    ensures |r| == |nodes| && forall i :: 0 <= i < |nodes| ==> r[i] == nodes[i].buf
  {
    seq(|nodes|, i requires 0 <= i < |nodes| reads nodes => nodes[i].buf)
  }

  /** Fills the node at the end of a chain. */
  method Fill(last: Chain, buf: Iov, ghost nodes: seq<Chain>)
    requires nodes != [] && Chained(nodes) && nodes[|nodes| - 1] == last
    modifies last`buf
    ensures Chained(nodes) && Iovs(nodes) == old(Iovs(nodes))[|nodes| - 1 := buf]
  {
    last.buf := buf;
  }

  /** Puts a new node behind the last one. */
  method Extend(last: Chain, ghost nodes: seq<Chain>) returns (node: Chain)
    requires nodes != [] && Chained(nodes) && nodes[|nodes| - 1] == last
    modifies last`next
    ensures fresh(node) && Chained(nodes + [node]) && Iovs(nodes + [node]) == old(Iovs(nodes)) + [node.buf]
  {
    node := new Chain;
    last.next := node;
  }

  /** The two nodes of an element: the last node of the chain, and a new one. */
  method ChainPair(cur: Chain, element: HeaderElement, ghost nodes: seq<Chain>) returns (second: Chain)
    requires nodes != [] && Chained(nodes) && nodes[|nodes| - 1] == cur
    modifies cur
    ensures fresh(second) && Chained(nodes + [second])
    ensures Iovs(nodes + [second]) ==
            old(Iovs(nodes))[..|nodes| - 1] + [Iov(element.key.data, element.key.length + 2),
                                               Iov(element.value.data, element.value.length + 2)]
  {
    hide Chained, Iovs;
    Fill(cur, Iov(element.key.data, element.key.length + 2), nodes);
    second := Extend(cur, nodes);
    Fill(second, Iov(element.value.data, element.value.length + 2), nodes + [second]);
  }

  /** The header part of both chains: two nodes an element, from the node `first` on. */
  method ChainElements(first: Chain, head: HeaderElement, tail: HeaderElement, ghost elems: seq<HeaderElement>)
    returns (chainLen: int, ghost nodes: seq<Chain>)
    requires elems != [] && Linked(elems, head, tail)
    modifies first
    ensures Chained(nodes) && |nodes| == 2 * |elems| == chainLen && nodes[0] == first
    ensures forall i :: 1 <= i < |nodes| ==> fresh(nodes[i])
    ensures Iovs(nodes) == ElementIovs(Contents(elems))
  {
    hide Chained, Iovs, ElementIovs, Pairs, Linked, Contents;
    LinkedFacts(elems, head, tail);
    OneChained(first);
    var element := head;
    var cur := first;
    nodes, chainLen := [first], 0;
    ghost var k := 0;
    ghost var es := Contents(elems);
    assert es[..0] == [];
    while true
      invariant 0 <= k < |elems| && element == elems[k] && chainLen == 2 * k == |nodes| - 1
      invariant Linked(elems, head, tail) && Contents(elems) == es
      invariant Chained(nodes) && nodes[0] == first && nodes[2 * k] == cur
      invariant forall i :: 1 <= i < |nodes| ==> fresh(nodes[i])
      invariant Iovs(nodes)[..2 * k] == Pairs(es[..k])
      decreases |elems| - k
    {
      PairsGrow(es, k);
      var second := ChainPair(cur, element, nodes);
      nodes := nodes + [second];
      chainLen := chainLen + 2;
      assert Iovs(nodes) == Pairs(es[..k + 1]);
      if element == tail {
        LastElement(es, k, Iovs(nodes));
        Fill(second, Iov(second.buf.base, second.buf.len + 2), nodes);
        break;
      }
      LinkedNext(elems, head, tail, k);
      element := element.next;
      cur := Extend(second, nodes);
      nodes := nodes + [cur];
      k := k + 1;
    }
  }

  lemma LinkedFacts(elems: seq<HeaderElement>, head: HeaderElement, tail: HeaderElement)
    requires elems != [] && Linked(elems, head, tail)
    ensures elems[0] == head
    ensures forall k :: 0 <= k < |elems| ==> (elems[k] == tail <==> k == |elems| - 1)
  {
  }

  lemma LinkedNext(elems: seq<HeaderElement>, head: HeaderElement, tail: HeaderElement, k: nat)
    requires Linked(elems, head, tail) && k < |elems| - 1
    ensures elems[k].next == elems[k + 1]
  {
  }

  lemma OneChained(node: Chain)
    ensures Chained([node])
  {
  }

  lemma LastElement(es: seq<Element>, k: nat, pairs: seq<Iov>)
    requires k == |es| - 1 && pairs == Pairs(es[..k + 1])
    ensures |pairs| == 2 * |es| && ElementIovs(es) ==
            pairs[|pairs| - 1 := Iov(pairs[|pairs| - 1].base, pairs[|pairs| - 1].len + 2)]
  {
    assert es[..k + 1] == es;
  }

  lemma PairsGrow(es: seq<Element>, k: nat)
    requires k < |es|
    ensures Pairs(es[..k + 1]) ==
            Pairs(es[..k]) + [Iov(es[k].key.data, es[k].key.length + 2), Iov(es[k].value.data, es[k].value.length + 2)]
  {
    assert es[..k + 1][..k] == es[..k];
  }

  /** Links a second chain behind a first. */
  method Link(last: Chain, first: Chain, ghost front: seq<Chain>, ghost rest: seq<Chain>)
    requires front != [] && Chained(front) && front[|front| - 1] == last
    requires rest != [] && Chained(rest) && rest[0] == first
    requires forall i, j :: 0 <= i < |front| && 0 <= j < |rest| ==> front[i] != rest[j]
    modifies last`next
    ensures Chained(front + rest) && Iovs(front + rest) == old(Iovs(front)) + old(Iovs(rest))
  {
    last.next := first;
  }

  /** Puts the header part behind the last node of a chain. */
  method AppendElements(last: Chain, head: HeaderElement, tail: HeaderElement,
                        ghost front: seq<Chain>, ghost elems: seq<HeaderElement>)
    returns (chainLen: int, ghost nodes: seq<Chain>)
    requires elems != [] && Linked(elems, head, tail)
    requires front != [] && Chained(front) && front[|front| - 1] == last
    modifies last`next
    ensures Chained(nodes) && front <= nodes && |nodes| == |front| + 2 * |elems| && chainLen == 2 * |elems|
    ensures forall i :: |front| <= i < |nodes| ==> fresh(nodes[i])
    ensures Iovs(nodes) == old(Iovs(front)) + ElementIovs(Contents(elems))
  {
    hide Linked, Contents, ElementIovs, Chained, Iovs;
    var first := new Chain;
    ghost var rest;
    chainLen, rest := ChainElements(first, head, tail, elems);
    Link(last, first, front, rest);
    nodes := front + rest;
  }

  /** The nodes for method, URI and version. */
  method RequestFront(r: Request) returns (head: Chain, version: Chain, ghost nodes: seq<Chain>)
    ensures Chained(nodes) && |nodes| == 3 && nodes[0] == head && nodes[2] == version
    ensures forall i :: 0 <= i < 3 ==> fresh(nodes[i])
    ensures Iovs(nodes) == RequestIovs(r.methodName, r.uri, Str(r.protocolLength, r.protocol), [])
  {
    head := new Chain;
    head.buf := Iov(r.methodName.data, r.methodName.length + 1);
    var uri := new Chain;
    head.next := uri;
    uri.buf := Iov(r.uri.data, r.uri.length + 1);
    version := new Chain;
    uri.next := version;
    version.buf := Iov(r.protocol, r.protocolLength + 2);
    nodes := [head, uri, version];
  }

  /** http_construct_request_chains (http.c:555-621): 3 + 2h nodes, which chain_len says. */
  method ConstructRequestChains(r: Request, ghost elems: seq<HeaderElement>)
    returns (head: Chain, ghost nodes: seq<Chain>)
    requires Linked(elems, r.elementHead, r.elementTail)
    ensures Chained(nodes) && |nodes| == 3 + 2 * |elems| == head.chainLen && nodes[0] == head
    ensures forall i :: 0 <= i < |nodes| ==> fresh(nodes[i])
    ensures Iovs(nodes) == RequestIovs(r.methodName, r.uri, Str(r.protocolLength, r.protocol), Contents(elems))
  {
    hide ElementIovs, Contents, Iovs, Chained;
    var version;
    head, version, nodes := RequestFront(r);
    var chainLen := 3;
    if r.elementHead != null {
      var n;
      n, nodes := AppendElements(version, r.elementHead, r.elementTail, nodes, elems);
      chainLen := chainLen + n;
    }
    SetLength(head, chainLen, nodes);
  }

  method SetLength(head: Chain, chainLen: int, ghost nodes: seq<Chain>)
    requires Chained(nodes)
    modifies head`chainLen
    ensures head.chainLen == chainLen && Chained(nodes) && Iovs(nodes) == old(Iovs(nodes))
  {
    head.chainLen := chainLen;
  }

  /** construct_response_chains (http.c:478-520): 1 + 2h nodes; it reads the first element without a test. */
  method ConstructResponseChains(r: Request, ghost elems: seq<HeaderElement>)
    returns (head: Chain, ghost nodes: seq<Chain>)
    requires elems != [] && Linked(elems, r.elementHead, r.elementTail)
    ensures Chained(nodes) && |nodes| == 1 + 2 * |elems| == head.chainLen && nodes[0] == head
    ensures forall i :: 0 <= i < |nodes| ==> fresh(nodes[i])
    ensures Iovs(nodes) == ResponseIovs(r.requestLine, Contents(elems))
  {
    hide ElementIovs, Contents;
    head := new Chain;
    head.buf := Iov(r.requestLine.data, r.requestLine.length + 2);
    nodes := [head];
    var n;
    n, nodes := AppendElements(head, r.elementHead, r.elementTail, nodes, elems);
    SetLength(head, 1 + n, nodes);
  }

  // ---------- the pool the nodes come from ----------

  // sizeof(lt_chain_t) on a 64-bit machine, and CHAIN_POOL_LENGTH.
  const NODE_SIZE: nat := 40
  const CHAIN_POOL_LENGTH: nat := 32

  /** The first n nodes lie inside the pool that a new manager starts with at start. */
  predicate NodesFit(start: nat, n: nat) {
    forall k :: 0 <= k < n ==> Inside(start, NODE_SIZE, CHAIN_POOL_LENGTH, k)
  }

  lemma NodesFitIs(start: nat, n: nat)
    requires start % ALIGNMENT == 0
    ensures NodesFit(start, n) <==> n <= CHAIN_POOL_LENGTH
  {
    hide Inside;
    forall k: nat
      ensures Inside(start, NODE_SIZE, CHAIN_POOL_LENGTH, k) <==> k < CHAIN_POOL_LENGTH
    {
      HoldsItsCount(start, NODE_SIZE, CHAIN_POOL_LENGTH, k);
    }
    if n > CHAIN_POOL_LENGTH {
      assert !Inside(start, NODE_SIZE, CHAIN_POOL_LENGTH, CHAIN_POOL_LENGTH);
    }
  }

  /** So a gather list keeps to its pool up to 14 headers of a request, or 15 of a response. */
  lemma HeadersThatFit(start: nat, name: Str, uri: Str, protocol: Str, line: Str, es: seq<Element>)
    requires start % ALIGNMENT == 0
    ensures NodesFit(start, |RequestIovs(name, uri, protocol, es)|) <==> |es| <= 14
    ensures NodesFit(start, |ResponseIovs(line, es)|) <==> |es| <= 15
  {
    hide NodesFit;
    NodesFitIs(start, |RequestIovs(name, uri, protocol, es)|);
    NodesFitIs(start, |ResponseIovs(line, es)|);
  }
}
