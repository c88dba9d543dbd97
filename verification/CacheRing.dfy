/** The circular list that threads all buffers of the cache, as links between indices. */
module CacheRing {
  import opened Common

  /** Position i of the ring: its forward link and the backward link that answers it. */
  ghost predicate LinkOk(nodes: seq<nat>, next: seq<nat>, prev: seq<nat>, i: nat)
    requires i < |nodes|
  {
    var a, b := nodes[i], nodes[Succ(i, |nodes|)];
    a < |next| == |prev| && b < |prev| && next[a] == b && prev[b] == a
  }

  /** The links form the ring of these nodes, in this order. */
  ghost predicate Ring(nodes: seq<nat>, next: seq<nat>, prev: seq<nat>) {
    && |nodes| > 0 && Distinct(nodes) && |next| == |prev|
    && forall i {:trigger LinkOk(nodes, next, prev, i)} :: 0 <= i < |nodes| ==> LinkOk(nodes, next, prev, i)
  }

  /** Linking the neighbours of a node to each other takes it out of the ring. */
  lemma Unlink(nodes: seq<nat>, next: seq<nat>, prev: seq<nat>, i: nat)
    requires Ring(nodes, next, prev) && 0 < i < |nodes|
    ensures var b := nodes[i];
      && b < |next| && next[b] < |prev| && prev[b] < |next|
      && Ring(Without(nodes, i), next[prev[b] := next[b]], prev[next[b] := prev[b]])
  {
    var b := nodes[i];
    assert LinkOk(nodes, next, prev, i) && LinkOk(nodes, next, prev, i - 1);
    var r := Without(nodes, i);
    var next', prev' := next[prev[b] := next[b]], prev[next[b] := prev[b]];
    forall k | 0 <= k < |r| ensures LinkOk(r, next', prev', k) {
      var k' := if k < i then k else k + 1;
      assert LinkOk(nodes, next, prev, k') && r[k] == nodes[k'];
    }
  }

  /** Linking a node in behind the first one. */
  lemma PushFront(nodes: seq<nat>, next: seq<nat>, prev: seq<nat>, b: nat)
    requires Ring(nodes, next, prev) && b !in nodes && b < |next|
    ensures var head := nodes[0];
      && head < |next| && next[head] < |prev|
      && Ring([head, b] + nodes[1..], next[b := next[head]][head := b], prev[b := head][next[head] := b])
  {
    var head := nodes[0];
    assert LinkOk(nodes, next, prev, 0);
    var first := next[head];
    var r := [head, b] + nodes[1..];
    var next', prev' := next[b := first][head := b], prev[b := head][first := b];
    forall k | 0 <= k < |r| ensures LinkOk(r, next', prev', k) {
      if k >= 2 {
        assert LinkOk(nodes, next, prev, k - 1) && r[k] == nodes[k - 1];
      }
    }
  }

  /** Moving a node to the front of the list, as brelse does. */
  function MovedFront(nodes: seq<nat>, i: nat): (r: seq<nat>)
    requires 0 < i < |nodes|
  {
    [nodes[0], nodes[i]] + nodes[1..i] + nodes[i + 1..]
  }

  /** The forward links after the six assignments that move node b behind the head. */
  function FrontNext(next: seq<nat>, prev: seq<nat>, head: nat, b: nat): (r: seq<nat>)
    requires b < |next| && b < |prev| && prev[b] < |next| && head < |next|
  {
    var next1 := next[prev[b] := next[b]];
    next1[b := next1[head]][head := b]
  }

  /** The backward links. */
  function FrontPrev(next: seq<nat>, prev: seq<nat>, head: nat, b: nat): (r: seq<nat>)
    requires b < |next| == |prev| && prev[b] < |next| && next[b] < |prev| && head < |next|
    requires next[prev[b] := next[b]][head] < |prev|
  {
    prev[next[b] := prev[b]][b := head][next[prev[b] := next[b]][head] := b]
  }

  ghost predicate CanMove(next: seq<nat>, prev: seq<nat>, head: nat, b: nat) {
    && b < |next| == |prev| && next[b] < |prev| && prev[b] < |next| && head < |next|
    && next[prev[b] := next[b]][head] < |prev|
  }

  lemma MoveFront(nodes: seq<nat>, next: seq<nat>, prev: seq<nat>, i: nat)
    requires Ring(nodes, next, prev) && 0 < i < |nodes|
    ensures var b, head := nodes[i], nodes[0];
      && CanMove(next, prev, head, b)
      && Ring(MovedFront(nodes, i), FrontNext(next, prev, head, b), FrontPrev(next, prev, head, b))
  {
    var b := nodes[i];
    Unlink(nodes, next, prev, i);
    assert LinkOk(nodes, next, prev, 0);
    var r := Without(nodes, i);
    assert b !in r;
    PushFront(r, next[prev[b] := next[b]], prev[next[b] := prev[b]], b);
    assert [r[0], b] + r[1..] == MovedFront(nodes, i);
  }
}
