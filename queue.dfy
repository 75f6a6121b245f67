/**
 * The two-level active queue of the max-flow solver as lists of node slots.
 * A queue is reached from its first node by the nodes' `next` links; its
 * last node links to itself or to nothing, and a node whose `next` is set
 * counts as active.
 */
module ActiveQueues {
  import opened Graph

  /**
   * The node slots reached from `l`, in order: `next` links are followed up
   * to a node that links to itself or to nothing; at most `fuel` nodes.
   */
  ghost function Chain(nodes: seq<Node>, l: Link, fuel: nat): (q: seq<nat>)
    ensures |q| <= fuel
    decreases fuel
  {
    if fuel == 0 || l.Nil? || l.index >= |nodes| then []
    else if nodes[l.index].next == l || nodes[l.index].next.Nil? then [l.index]
    else [l.index] + Chain(nodes, nodes[l.index].next, fuel - 1)
  }

  /** The queue that starts at `l`. */
  ghost function Queued(nodes: seq<Node>, l: Link): seq<nat>
  {
    Chain(nodes, l, |nodes|)
  }

  /** Node `n` closes a queue: it links to itself or to nothing. */
  ghost predicate Ends(nodes: seq<Node>, n: nat)
    requires n < |nodes|
  {
    nodes[n].next == Ptr(n) || nodes[n].next.Nil?
  }

  /**
   * `q` is a queue starting at `l`: slots of `nodes`, none twice, each
   * linked to the one after it, the last one closing the queue.
   */
  ghost predicate IsQueue(nodes: seq<Node>, l: Link, q: seq<nat>)
  {
    && (forall k :: 0 <= k < |q| ==> q[k] < |nodes|)
    && (forall j, k :: 0 <= j < k < |q| ==> q[j] != q[k])
    && (forall k :: 0 <= k < |q| - 1 ==> nodes[q[k]].next == Ptr(q[k + 1]))
    && (q == [] <==> l.Nil?)
    && (q != [] ==> l == Ptr(q[0]) && Ends(nodes, q[|q| - 1]))
  }

  /**
   * The current-pass queue from `first0` and the next-pass queue from
   * `first1` are lists, and a node on both closes each of them.
   */
  ghost predicate Queues(nodes: seq<Node>, first0: Link, first1: Link)
  {
    && IsQueue(nodes, first0, Queued(nodes, first0))
    && IsQueue(nodes, first1, Queued(nodes, first1))
    && forall k :: k in Queued(nodes, first0) && k in Queued(nodes, first1) ==> k < |nodes| && Ends(nodes, k)
  }

  /** A list from `l` is the queue `Chain` walks from `l`, given fuel for all of it. */
  lemma {:induction false} ChainOf(nodes: seq<Node>, l: Link, q: seq<nat>, fuel: nat)
    requires IsQueue(nodes, l, q) && |q| <= fuel
    ensures Chain(nodes, l, fuel) == q
    decreases |q|
  {
    if q != [] && |q| > 1 {
      assert nodes[q[0]].next == Ptr(q[1]) && q[0] != q[1];
      ChainOf(nodes, Ptr(q[1]), q[1..], fuel - 1);
    }
  }

  /** The new `nodes` after the head `i` of the current-pass queue is taken: a node linked onwards is left linked to nothing. */
  function PopNodes(nodes: seq<Node>, i: nat): (r: seq<Node>)
    requires i < |nodes|
    ensures |r| == |nodes| && r[i].parent == nodes[i].parent
    ensures forall k :: 0 <= k < |nodes| && k != i ==> r[k] == nodes[k]
  {
    if nodes[i].next == Ptr(i) then nodes else nodes[i := nodes[i].(next := Nil)]
  }

  /** The new head of the current-pass queue after its head `i` is taken: nothing after a self-linked node, else its successor. */
  function PopHead(nodes: seq<Node>, i: nat): Link
    requires i < |nodes|
  {
    if nodes[i].next == Ptr(i) then Nil else nodes[i].next
  }

  /** Taking the head `i` of a list leaves the rest of it, still a list. */
  lemma PopLeavesTail(nodes: seq<Node>, i: nat, q: seq<nat>)
    requires IsQueue(nodes, Ptr(i), q)
    ensures i < |nodes| && q != [] && q[0] == i
    ensures IsQueue(PopNodes(nodes, i), PopHead(nodes, i), q[1..])
  {
    var nodes', rest := PopNodes(nodes, i), q[1..];
    forall k | 0 <= k < |rest|
      ensures rest[k] != i && nodes'[rest[k]] == nodes[rest[k]]
    {
      assert q[0] != q[k + 1];
    }
    if |q| > 1 {
      assert nodes[i].next == Ptr(q[1]) && q[1] != i;
    }
  }

  /** Taking node `i` off leaves a list that does not pass through it unchanged; so does a list that `i` closes. */
  lemma PopKeepsOther(nodes: seq<Node>, i: nat, l: Link, q: seq<nat>)
    requires IsQueue(nodes, l, q) && i < |nodes| && (i !in q || Ends(nodes, i))
    ensures IsQueue(PopNodes(nodes, i), l, q)
  {
    var nodes' := PopNodes(nodes, i);
    if i in q && nodes[i].next.Nil? {
      assert nodes'[i] == nodes[i];
      assert nodes' == nodes;
    }
  }

  /**
   * Taking the head `i` of the current-pass queue takes the first node of
   * the two queues in order and leaves the rest, still two lists.
   */
  lemma PopTakesFirst(nodes: seq<Node>, i: nat, first1: Link)
    requires Queues(nodes, Ptr(i), first1)
    ensures i < |nodes| && Queued(nodes, Ptr(i)) != [] && Queued(nodes, Ptr(i))[0] == i
    ensures Queues(PopNodes(nodes, i), PopHead(nodes, i), first1)
    ensures Queued(PopNodes(nodes, i), PopHead(nodes, i)) + Queued(PopNodes(nodes, i), first1)
            == (Queued(nodes, Ptr(i)) + Queued(nodes, first1))[1..]
    ensures Queued(PopNodes(nodes, i), first1) == Queued(nodes, first1)
  {
    var q0, q1 := Queued(nodes, Ptr(i)), Queued(nodes, first1);
    var nodes', head := PopNodes(nodes, i), PopHead(nodes, i);
    PopLeavesTail(nodes, i, q0);
    ChainOf(nodes', head, q0[1..], |nodes'|);
    PopKeepsOther(nodes, i, first1, q1);
    ChainOf(nodes', first1, q1, |nodes'|);
    forall k | k in q0[1..] && k in q1
      ensures k < |nodes'| && Ends(nodes', k)
    {
      assert k in q0;
    }
    TailOfConcat(q0, q1);
  }

  /** Dropping the first element of `x + y`, for a non-empty `x`, drops it from `x`. */
  lemma TailOfConcat(x: seq<nat>, y: seq<nat>)
    requires x != []
    ensures (x + y)[1..] == x[1..] + y
  {
  }

  /** The position in `q` of the first node that has a parent; `|q|` when none has. */
  ghost function FirstActive(nodes: seq<Node>, q: seq<nat>): (n: nat)
    ensures n <= |q|
    ensures forall k :: 0 <= k < n ==> q[k] >= |nodes| || nodes[q[k]].parent.Free?
    ensures n < |q| ==> q[n] < |nodes| && !nodes[q[n]].parent.Free?
  {
    if q == [] then 0
    else if q[0] < |nodes| && !nodes[q[0]].parent.Free? then 0
    else 1 + FirstActive(nodes, q[1..])
  }

  /**
   * `r` and the queues from `first0'`, `first1'` in `nodes'` are what taking
   * the next active node from the queues from `first0`, `first1` in `nodes`
   * leaves: `r` is the first node of the two queues in order that has a
   * parent, `Nil` when none has, and the queues are lists holding exactly
   * the nodes after it, in the same order. The next-pass queue was moved
   * into the current-pass slot (`refilled`) exactly when no node of the
   * current-pass queue had a parent; otherwise it is kept as it was.
   */
  ghost predicate TakesFirstActive(nodes: seq<Node>, first0: Link, first1: Link,
                                   nodes': seq<Node>, first0': Link, first1': Link, r: Link, refilled: bool)
  {
    var q := Queued(nodes, first0) + Queued(nodes, first1);
    var n := FirstActive(nodes, q);
    && r == (if n < |q| then Ptr(q[n]) else Nil)
    && Queues(nodes', first0', first1')
    && Queued(nodes', first0') + Queued(nodes', first1') == q[if n < |q| then n + 1 else n..]
    && refilled == (n >= |Queued(nodes, first0)|)
    && (!refilled ==> first1' == first1 && Queued(nodes', first1') == Queued(nodes, first1))
  }

  /**
   * The ends of the queues after taking the next active node, from
   * `first0`, `last0`, `first1`, `last1` to the primed ones: after a refill
   * the next-pass queue is empty at both ends and the current-pass queue
   * ends where the next-pass queue ended; otherwise the next-pass queue is
   * untouched and the current-pass queue keeps its end. Popping the last
   * node of the current-pass queue may leave it empty at both ends.
   */
  ghost predicate QueueEnds(first0: Link, last0: Link, first1: Link, last1: Link,
                            first0': Link, last0': Link, first1': Link, last1': Link, refilled: bool)
  {
    && (refilled ==> first1' == Nil && last1' == Nil)
    && (!refilled ==> first1' == first1 && last1' == last1)
    && (last0' == (if refilled then last1 else last0) || (first0' == Nil && last0' == Nil))
  }

  /** The first active position in `q` is `t` when every node before it has no parent and the one at `t`, if any, has one. */
  lemma FirstActiveIs(nodes: seq<Node>, q: seq<nat>, t: nat)
    requires t <= |q| && forall k :: 0 <= k < t ==> q[k] < |nodes| && nodes[q[k]].parent.Free?
    requires t < |q| ==> q[t] < |nodes| && !nodes[q[t]].parent.Free?
    ensures FirstActive(nodes, q) == t
  {
  }

  /**
   * Taking active nodes from the queues `q` of `start` has reached `nodes`:
   * the first `taken` nodes of `q` are gone and had no parent, no parent
   * changed, and the queues from `first0`, `first1` are lists holding the
   * rest of `q` in order.
   */
  ghost predicate Draining(start: seq<Node>, nodes: seq<Node>, first0: Link, first1: Link, q: seq<nat>, taken: nat)
  {
    && taken <= |q| && |nodes| == |start|
    && (forall k :: 0 <= k < taken ==> q[k] < |start| && start[q[k]].parent.Free?)
    && (forall k :: 0 <= k < |start| ==> nodes[k].parent == start[k].parent)
    && Queues(nodes, first0, first1)
    && Queued(nodes, first0) + Queued(nodes, first1) == q[taken..]
  }

  /**
   * `Draining` from the queues `first0`, `first1` of `start`, now at `f0`,
   * `f1`: before a refill the next-pass queue is the one `start` had, and
   * after it the next-pass queue is empty and every node of the first
   * current-pass queue has been taken.
   */
  ghost predicate Drained(start: seq<Node>, first0: Link, first1: Link, nodes: seq<Node>, f0: Link, f1: Link,
                          q: seq<nat>, taken: nat, refilled: bool)
  {
    && q == Queued(start, first0) + Queued(start, first1)
    && Draining(start, nodes, f0, f1, q, taken)
    && (!refilled ==> f1 == first1 && Queued(nodes, f1) == Queued(start, first1))
    && (refilled ==> f1 == Nil && taken >= |Queued(start, first0)|)
  }

  /** Moving the next-pass queue into the empty current-pass slot keeps the drain, now refilled. */
  lemma DrainingRefill(start: seq<Node>, first0: Link, first1: Link, nodes: seq<Node>, f1: Link,
                       q: seq<nat>, taken: nat, refilled: bool)
    requires Drained(start, first0, first1, nodes, Nil, f1, q, taken, refilled)
    ensures Drained(start, first0, first1, nodes, f1, Nil, q, taken, true)
  {
    QueuesSwap(nodes, f1);
    assert Queued(nodes, f1) + Queued(nodes, Nil) == q[taken..];
    if !refilled {
      assert |q[taken..]| == |Queued(start, first1)|;
      assert taken == |Queued(start, first0)|;
    }
  }

  /** Moving the only queue from the current-pass slot to the next-pass slot keeps both queues well formed. */
  lemma QueuesSwap(nodes: seq<Node>, f1: Link)
    requires Queues(nodes, Nil, f1)
    ensures Queues(nodes, f1, Nil) && Queued(nodes, Nil) == []
  {
  }

  /**
   * Taking the head `i` of the current-pass queue: it is the next node of
   * `q`; without a parent it is skipped, with one it is the first active
   * node of the queues `first0`, `first1` of `start`.
   */
  lemma DrainingPop(start: seq<Node>, first0: Link, first1: Link, nodes: seq<Node>, i: nat, f1: Link,
                    q: seq<nat>, taken: nat, refilled: bool)
    requires Drained(start, first0, first1, nodes, Ptr(i), f1, q, taken, refilled)
    ensures i < |nodes| && PopNodes(nodes, i)[i].parent == start[i].parent
    ensures start[i].parent.Free? ==>
      Drained(start, first0, first1, PopNodes(nodes, i), PopHead(nodes, i), f1, q, taken + 1, refilled)
    ensures !start[i].parent.Free? ==>
      TakesFirstActive(start, first0, first1, PopNodes(nodes, i), PopHead(nodes, i), f1, Ptr(i), refilled)
  {
    PopTakesFirst(nodes, i, f1);
    assert q[taken..][0] == i && q[taken..][1..] == q[taken + 1..];
    if !refilled {
      assert |Queued(nodes, Ptr(i))| + |Queued(start, first1)| == |q| - taken;
    }
    if !start[i].parent.Free? {
      FirstActiveIs(start, q, taken);
    }
  }

  /**
   * With both queues empty after a refill every node of `q` was taken
   * without a parent: there is no active node.
   */
  lemma DrainingEmpty(start: seq<Node>, first0: Link, first1: Link, nodes: seq<Node>, q: seq<nat>, taken: nat)
    requires Drained(start, first0, first1, nodes, Nil, Nil, q, taken, true)
    ensures TakesFirstActive(start, first0, first1, nodes, Nil, Nil, Nil, true)
  {
    assert Queued(nodes, Nil) == [];
    FirstActiveIs(start, q, taken);
  }
}
