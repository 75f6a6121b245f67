/**
 * The Boykov-Kolmogorov augmenting-path max-flow solver (section 3 of Boykov
 * and Kolmogorov, "An Experimental Comparison of Min-Cut/Max-Flow Algorithms
 * for Energy Minimization in Vision", TPAMI 2004), over the arena of module Graph.
 *
 * The solver's own state is the two-level active queue (`queueFirst`,
 * `queueLast`, linked through the nodes' `next` fields), the orphan list, the
 * search timestamp and the accumulated flow.
 */
module MaxFlow {
  import opened Graph
  import opened Augmentation
  import opened Adoption
  import opened Distances
  import opened ActiveQueues

  /** The sets of nodes whose `next` link is set: the "in some queue" marks. */
  ghost function Linked(nodes: seq<Node>): set<nat>
  {
    set k | 0 <= k < |nodes| && nodes[k].next.Ptr?
  }

  /** No node is an ORPHAN: every node has a parent or is free. */
  ghost predicate NoOrphans(nodes: seq<Node>)
  {
    forall k :: 0 <= k < |nodes| ==> nodes[k].parent != Orphan
  }

  /**
   * The adoption phase of `findMaxFlow` from the nodes and next-pass queue
   * ends: `queue` holds the orphans being processed first in first out
   * (processing appends the orphans it makes) and `pending` the rest of the
   * list, each of which starts a new queue when the current one runs dry.
   * Each orphan processed uses one unit of `fuel`. Returns the nodes, the
   * queue ends, the orphan list left, the fuel left and whether the list ran
   * empty (`false` only once the fuel is spent).
   */
  ghost function Adopted(nodes: seq<Node>, arcs: seq<Arc>, first1: Link, last1: Link,
                         queue: seq<nat>, pending: seq<nat>, ts: int, fuel: nat): (r: (seq<Node>, Link, Link, seq<nat>, nat, bool))
    requires Walkable(nodes, arcs) && LinkIn(first1, |nodes|) && LinkIn(last1, |nodes|)
    requires forall k :: 0 <= k < |queue| ==> queue[k] < |nodes|
    requires forall k :: 0 <= k < |pending| ==> pending[k] < |nodes|
    ensures |r.0| == |nodes| && r.4 <= fuel
    ensures r.5 ==> r.3 == []
    ensures !r.5 ==> r.4 == 0 && r.3 != []
    decreases fuel, |pending|, 1
  {
    if queue == [] then
      if pending == [] then (nodes, first1, last1, [], fuel, true)
      else Adopted(nodes, arcs, first1, last1, [pending[0]], pending[1..], ts, fuel)
    else if fuel == 0 then (nodes, first1, last1, queue, 0, false)
    else AdoptedFirst(nodes, arcs, first1, last1, queue, pending, ts, fuel)
  }

  /** `Adopted` once the first orphan of `queue` is processed with one unit of `fuel`. */
  ghost function AdoptedFirst(nodes: seq<Node>, arcs: seq<Arc>, first1: Link, last1: Link,
                              queue: seq<nat>, pending: seq<nat>, ts: int, fuel: nat): (r: (seq<Node>, Link, Link, seq<nat>, nat, bool))
    requires Walkable(nodes, arcs) && LinkIn(first1, |nodes|) && LinkIn(last1, |nodes|)
    requires queue != [] && fuel > 0
    requires forall k :: 0 <= k < |queue| ==> queue[k] < |nodes|
    requires forall k :: 0 <= k < |pending| ==> pending[k] < |nodes|
    ensures |r.0| == |nodes| && r.4 < fuel
    ensures r.5 ==> r.3 == []
    ensures !r.5 ==> r.4 == 0 && r.3 != []
    decreases fuel, |pending|, 0
  {
    var s := ProcessedOrphan(nodes, arcs, first1, last1, queue[1..], queue[0], ts);
    Adopted(s.0, arcs, s.1, s.2, s.3, pending, ts, fuel - 1)
  }

  /** Every ORPHAN node is waiting on the orphan list `queue` or on `pending`. */
  ghost predicate Listed(nodes: seq<Node>, queue: seq<nat>, pending: seq<nat>)
  {
    forall k :: 0 <= k < |nodes| && nodes[k].parent == Orphan ==> k in queue || k in pending
  }

  /** `b` is the bottleneck of the augmenting path through arc `p.2` of the arena `p.0`, `p.1`. */
  ghost predicate Pushes(p: (seq<Node>, seq<Arc>, nat), b: real)
  {
    TreeLinks(p.0, p.1) && p.2 < |p.1| && IsBottleneck(p.0, p.1, p.2, b)
  }

  /** Each path in `paths` pushed the amount at the same position of `bottlenecks`. */
  ghost predicate Accounted(paths: seq<(seq<Node>, seq<Arc>, nat)>, bottlenecks: seq<real>)
    decreases |paths|
  {
    && |paths| == |bottlenecks|
    && (paths != [] ==>
          && Accounted(paths[..|paths| - 1], bottlenecks[..|paths| - 1])
          && Pushes(paths[|paths| - 1], bottlenecks[|paths| - 1]))
  }

  /** Read position by position, the account says that the `k`-th path pushed the `k`-th amount. */
  lemma {:induction false} AccountedAll(paths: seq<(seq<Node>, seq<Arc>, nat)>, bottlenecks: seq<real>, k: nat)
    requires Accounted(paths, bottlenecks) && k < |paths|
    ensures Pushes(paths[k], bottlenecks[k])
    decreases |paths|
  {
    if k < |paths| - 1 {
      AccountedAll(paths[..|paths| - 1], bottlenecks[..|paths| - 1], k);
    }
  }

  /** One more augmentation, with its path and bottleneck, keeps the account and adds the bottleneck to the sum. */
  lemma AccountedAppend(paths: seq<(seq<Node>, seq<Arc>, nat)>, bottlenecks: seq<real>, p: (seq<Node>, seq<Arc>, nat), b: real)
    requires Accounted(paths, bottlenecks) && Pushes(p, b)
    ensures Accounted(paths + [p], bottlenecks + [b])
    ensures Sum(bottlenecks + [b]) == Sum(bottlenecks) + b
  {
    assert (bottlenecks + [b])[..|bottlenecks|] == bottlenecks;
    assert (paths + [p])[..|paths|] == paths;
  }

  /** The account after a pass that pushed `b` along `path` when `pushed`, and nothing otherwise. */
  lemma AccountStep(paths: seq<(seq<Node>, seq<Arc>, nat)>, bottlenecks: seq<real>, pushed: bool,
                    path: (seq<Node>, seq<Arc>, nat), b: real)
    returns (paths': seq<(seq<Node>, seq<Arc>, nat)>, bottlenecks': seq<real>)
    requires Accounted(paths, bottlenecks) && (pushed ==> Pushes(path, b)) && (!pushed ==> b == 0.0)
    ensures Accounted(paths', bottlenecks') && Sum(bottlenecks') == Sum(bottlenecks) + b
  {
    paths', bottlenecks' := paths, bottlenecks;
    if pushed {
      AccountedAppend(paths, bottlenecks, path, b);
      paths', bottlenecks' := paths + [path], bottlenecks + [b];
    }
  }

  /** The sum of the amounts in `s`. */
  ghost function Sum(s: seq<real>): real
  {
    if s == [] then 0.0 else Sum(s[..|s| - 1]) + s[|s| - 1]
  }

  /** The state of a max-flow finder: the arena, the ends of both queues, the orphan list, the timestamp and the flow. */
  datatype Finder = Finder(nodes: seq<Node>, arcs: seq<Arc>, first0: Link, last0: Link, first1: Link, last1: Link,
                           orphans: seq<nat>, timestamp: int, flow: real)

  /**
   * What `init` makes of the finder `s`, over the node slots `slots`, when it
   * leaves `t`: see `Init`.
   */
  ghost predicate Inits(slots: seq<nat>, s: Finder, t: Finder)
  {
    && t.arcs == s.arcs && |t.nodes| == |s.nodes| && t.flow == s.flow
    && t.timestamp == 0 && t.orphans == [] && t.first0 == Nil && t.last0 == Nil
    && (t.last1 == s.last1 || s.last1.Nil?)
    && (s.last1.Nil? ==> t.first1 == t.last1)
    && (forall k :: 0 <= k < |t.nodes| && k in slots ==>
          Initialised(s.nodes[k], t.nodes[k]) && (t.nodes[k].next.Nil? || t.last1 == Ptr(k)))
    && (forall k :: 0 <= k < |t.nodes| && k !in slots ==>
          t.nodes[k] == s.nodes[k] || (Ptr(k) == s.last1 && t.nodes[k] == s.nodes[k].(next := t.nodes[k].next)))
  }

  /**
   * Choosing the node `i` to grow from, with `cur` the node that found the
   * last path, takes the finder `s` to `t`: see `PickActive`.
   */
  ghost predicate Picks(s: Finder, cur: Link, t: Finder, i: Link, refilled: bool)
  {
    && t.arcs == s.arcs && t.orphans == s.orphans && t.timestamp == s.timestamp && t.flow == s.flow
    && OnlyNextChanged(s.nodes, t.nodes)
    && (i.Ptr? ==> i.index < |t.nodes| && !t.nodes[i.index].parent.Free?)
    && (i.Nil? ==> t.first0.Nil? && t.first1.Nil? && refilled)
    && (cur.Ptr? && cur.index < |s.nodes| && !s.nodes[cur.index].parent.Free? ==>
          && i == cur && !refilled && t.nodes == s.nodes[cur.index := s.nodes[cur.index].(next := Nil)]
          && t.first0 == s.first0 && t.last0 == s.last0 && t.first1 == s.first1 && t.last1 == s.last1)
    && (cur.Nil? || (cur.index < |s.nodes| && s.nodes[cur.index].parent.Free?) ==>
          && QueueEnds(s.first0, s.last0, s.first1, s.last1, t.first0, t.last0, t.first1, t.last1, refilled)
          && var cleared := if cur.Ptr? then s.nodes[cur.index := s.nodes[cur.index].(next := Nil)] else s.nodes;
             Queues(cleared, s.first0, s.first1) ==>
               TakesFirstActive(cleared, s.first0, s.first1, t.nodes, t.first0, t.first1, i, refilled))
  }

  /**
   * Growth from the active node `i` takes the finder `s` to `t`, leaving
   * `cur`, and the timestamp advances: with no path found that is all;
   * with a path through arc `m`, `i` is marked active and the path is
   * augmented by its bottleneck, which the flow gains, putting the cut-off
   * nodes on the orphan list. See `Pass`.
   */
  ghost predicate Grows(s: Finder, i: nat, t: Finder, cur: Link)
  {
    && Walkable(s.nodes, s.arcs) && i < |s.nodes| && LinkIn(s.nodes[i].first, |s.arcs|)
    && LinkIn(s.first1, |s.nodes|) && LinkIn(s.last1, |s.nodes|)
    && var r := Grown(s.nodes, s.arcs, s.first1, s.last1, s.nodes[i].first, i, s.nodes[i].sink);
       && t.timestamp == s.timestamp + 1 && t.first0 == s.first0 && t.last0 == s.last0
       && t.first1 == r.1 && t.last1 == r.2
       && (r.3.Nil? ==>
             cur == Nil && t.nodes == r.0 && t.arcs == s.arcs && t.orphans == s.orphans && t.flow == s.flow)
       && (r.3.Ptr? ==>
             && cur == Ptr(i)
             && AugmentedBy(r.0[i := r.0[i].(next := Ptr(i))], s.arcs, s.orphans, s.flow, r.3.index,
                            t.nodes, t.arcs, t.orphans, t.flow))
  }

  /**
   * Adoption of the orphan list of `s` with `fuel` takes the finder `s` to
   * `t`, with `left` fuel left and `done` saying the list ran empty (see
   * `Adopted`); nothing else changes.
   */
  ghost predicate Adopts(s: Finder, fuel: nat, t: Finder, left: nat, done: bool)
  {
    && Walkable(s.nodes, s.arcs) && LinkIn(s.first1, |s.nodes|) && LinkIn(s.last1, |s.nodes|)
    && (forall k :: 0 <= k < |s.orphans| ==> s.orphans[k] < |s.nodes|)
    && t.arcs == s.arcs && t.first0 == s.first0 && t.last0 == s.last0 && t.timestamp == s.timestamp && t.flow == s.flow
    && Adopted(s.nodes, s.arcs, s.first1, s.last1, [], s.orphans, s.timestamp, fuel)
       == (t.nodes, t.first1, t.last1, t.orphans, left, done)
  }

  /**
   * A pass read off the contracts of growth, augmentation and adoption:
   * growth takes `s` to `mid`, adoption `mid` to `t`.
   */
  lemma PassIs(s: Finder, i: nat, fuel: nat, mid: Finder, t: Finder, cur: Link, left: nat, done: bool)
    requires Walkable(s.nodes, s.arcs) && i < |s.nodes| && LinkIn(s.nodes[i].first, |s.arcs|)
    requires LinkIn(s.first1, |s.nodes|) && LinkIn(s.last1, |s.nodes|) && s.orphans == []
    requires mid.timestamp == s.timestamp + 1 && mid.first0 == s.first0 && mid.last0 == s.last0
    requires t.arcs == mid.arcs && t.first0 == mid.first0 && t.last0 == mid.last0
    requires t.timestamp == mid.timestamp && t.flow == mid.flow
    requires var r := Grown(s.nodes, s.arcs, s.first1, s.last1, s.nodes[i].first, i, s.nodes[i].sink);
      && mid.first1 == r.1 && mid.last1 == r.2
      && (r.3.Nil? ==>
            && cur == Nil && left == fuel && done && t == mid
            && mid.nodes == r.0 && mid.arcs == s.arcs && mid.orphans == [] && mid.flow == s.flow)
    requires var r := Grown(s.nodes, s.arcs, s.first1, s.last1, s.nodes[i].first, i, s.nodes[i].sink);
      r.3.Ptr? ==>
        && cur == Ptr(i)
        && AugmentedBy(r.0[i := r.0[i].(next := Ptr(i))], s.arcs, [], s.flow, r.3.index, mid.nodes, mid.arcs, mid.orphans, mid.flow)
        && Walkable(mid.nodes, mid.arcs) && LinkIn(mid.first1, |mid.nodes|) && LinkIn(mid.last1, |mid.nodes|)
        && (forall k :: 0 <= k < |mid.orphans| ==> mid.orphans[k] < |mid.nodes|)
        && Adopted(mid.nodes, mid.arcs, mid.first1, mid.last1, [], mid.orphans, mid.timestamp, fuel)
           == (t.nodes, t.first1, t.last1, t.orphans, left, done)
    ensures Grows(s, i, mid, cur) && Adopts(mid, fuel, t, left, done)
  {
  }

  /**
   * One round of `findMaxFlow` with `fuel` left: from `before`, with `cur`
   * the node that found the last path, one unit of fuel is spent, `active`
   * is picked (reaching `picked`, after a refill of the current-pass
   * queue when `refilled`), growth from it reaches `grown` and
   * adoption with the rest of the fuel leaves `after`, `kept`, `left` and
   * `done`.
   */
  datatype Round = Round(before: Finder, cur: Link, fuel: nat, picked: Finder, active: nat, refilled: bool,
                         grown: Finder, after: Finder, kept: Link, left: nat, done: bool)

  ghost predicate RoundOk(r: Round)
  {
    && r.fuel > 0 && Picks(r.before, r.cur, r.picked, Ptr(r.active), r.refilled)
    && Grows(r.picked, r.active, r.grown, r.kept) && Adopts(r.grown, r.fuel - 1, r.after, r.left, r.done)
  }

  /**
   * `rounds` are the rounds of `findMaxFlow` from `s0` with `fuel`: each
   * starts where the ones before it leave off, after a round that finished
   * its adoption.
   */
  ghost predicate Rounds(s0: Finder, fuel: nat, rounds: seq<Round>)
    decreases 2 * |rounds| + 1
  {
    rounds == [] || LastRound(s0, fuel, rounds)
  }

  /** `Rounds` for all but the last of `rounds`, and the last one starts where they leave off. */
  ghost predicate LastRound(s0: Finder, fuel: nat, rounds: seq<Round>)
    requires rounds != []
    decreases 2 * |rounds|
  {
    var init, r := rounds[..|rounds| - 1], rounds[|rounds| - 1];
    && Rounds(s0, fuel, init) && (init == [] || init[|init| - 1].done)
    && (r.before, r.cur, r.fuel) == Reached(s0, fuel, init) && RoundOk(r)
  }

  /** Where the rounds from `s0` with `fuel` leave off: the state, `cur` and the fuel. */
  function Reached(s0: Finder, fuel: nat, rounds: seq<Round>): (Finder, Link, nat)
  {
    if rounds == [] then (s0, Nil, fuel)
    else var r := rounds[|rounds| - 1]; (r.after, r.kept, r.left)
  }

  /**
   * A whole run of `findMaxFlow`: the state `init` left, the rounds played,
   * whether the queues ran empty, the fuel left, the account of the
   * augmenting paths and the state the run ended in.
   */
  datatype FlowRun = FlowRun(s0: Finder, rounds: seq<Round>, finished: bool, left: nat,
                             paths: seq<(seq<Node>, seq<Arc>, nat)>, bottlenecks: seq<real>, end: Finder)

  /**
   * `run` is what `findMaxFlow` with `fuel` does to the finder `start` over
   * the node slots `slots`: `init`, then rounds each starting where the one
   * before left off, until the pick finds no active node (`finished`) or
   * the fuel is spent; the flow gains the sum of the bottlenecks pushed.
   */
  ghost predicate MaxFlowRun(slots: seq<nat>, start: Finder, fuel: nat, run: FlowRun)
  {
    && Inits(slots, start, run.s0) && Rounds(run.s0, fuel, run.rounds)
    && (run.rounds == [] || run.rounds[|run.rounds| - 1].done || !run.finished)
    && Accounted(run.paths, run.bottlenecks) && run.end.flow == start.flow + Sum(run.bottlenecks)
    && |run.end.nodes| == |start.nodes| && run.left <= fuel
    && (run.finished ==> run.end.first0.Nil? && run.end.first1.Nil? && run.end.orphans == [])
    && var e := Reached(run.s0, fuel, run.rounds);
       && (run.finished ==> Ended(run.s0, fuel, run.rounds, run.end, run.left))
       && (!run.finished ==> e.2 == 0 && run.end == e.0 && run.left == 0)
  }

  /**
   * The run from `s0` with `fuel` ends after `rounds` in `t` with `left`
   * fuel: the pick that followed them, spending one unit of fuel, found no
   * active node.
   */
  ghost predicate Ended(s0: Finder, fuel: nat, rounds: seq<Round>, t: Finder, left: nat)
  {
    var e := Reached(s0, fuel, rounds);
    e.2 > 0 && left == e.2 - 1 && Picks(e.0, e.1, t, Nil, true)
  }

  /** A pick, a grow and an adoption with one round's fuel less make up a round. */
  lemma RoundOf(before: Finder, cur: Link, fuel: nat, picked: Finder, i: nat, refilled: bool, grown: Finder, rest: nat,
                after: Finder, kept: Link, left: nat, done: bool)
    requires fuel == rest + 1 && Picks(before, cur, picked, Ptr(i), refilled)
    requires Grows(picked, i, grown, kept) && Adopts(grown, rest, after, left, done)
    ensures RoundOk(Round(before, cur, fuel, picked, i, refilled, grown, after, kept, left, done))
  {
    var r := Round(before, cur, fuel, picked, i, refilled, grown, after, kept, left, done);
    assert r.fuel - 1 == rest;
  }

  /** A round that starts where `rounds` leave off extends them. */
  lemma RoundsAppend(s0: Finder, fuel0: nat, rounds: seq<Round>, r: Round)
    requires Rounds(s0, fuel0, rounds) && (rounds == [] || rounds[|rounds| - 1].done)
    requires (r.before, r.cur, r.fuel) == Reached(s0, fuel0, rounds) && RoundOk(r)
    ensures Rounds(s0, fuel0, rounds + [r]) && Reached(s0, fuel0, rounds + [r]) == (r.after, r.kept, r.left)
  {
    assert (rounds + [r])[..|rounds|] == rounds;
  }

  lemma InitialisedAgain(a: Node, b: Node, c: Node)
    requires Initialised(a, b) && Initialised(b, c)
    ensures Initialised(a, c)
  {
  }

  /**
   * What `init` leaves in a node with terminal capacity `c`: timestamp 0; a
   * positive `c` makes a source-tree root, a negative one a sink-tree root
   * (parent TERMINAL, distance 1); zero leaves it free.
   */
  ghost predicate Initialised(before: Node, after: Node)
  {
    && after.timestamp == 0
    && after.index == before.index && after.first == before.first
    && after.residualCapacity == before.residualCapacity
    && (before.residualCapacity > 0.0 ==>
          after.parent == Terminal && !after.sink && after.distance == 1)
    && (before.residualCapacity < 0.0 ==>
          after.parent == Terminal && after.sink && after.distance == 1)
    && (before.residualCapacity == 0.0 ==>
          after.parent == Free && after.sink == before.sink && after.distance == before.distance)
  }

  /**
   * One step of `init` on node `n`, from the nodes and next-pass queue ends
   * `before`, `first1`, `last1` to `after`, `first1'`, `last1'`: `n` is
   * initialised and either left out of the queue or its last node; the queue
   * ends are kept or, from an empty queue, both become `n`; any other node
   * is unchanged except that the old last node may now link to `n`.
   */
  ghost predicate InitNodeStep(before: seq<Node>, after: seq<Node>, n: nat,
                               first1: Link, last1: Link, first1': Link, last1': Link)
  {
    && |after| == |before| && n < |before|
    && Initialised(before[n], after[n])
    && (after[n].next.Nil? || last1' == Ptr(n))
    && ((first1' == first1 && last1' == last1) || (last1.Nil? && first1' == last1' == Ptr(n)))
    && forall s :: 0 <= s < |before| && s != n ==>
         after[s] == before[s] || (Ptr(s) == last1 && after[s] == before[s].(next := Ptr(n)))
  }

  /**
   * `init` has initialised `nodes[..p]` from `start`: each is initialised and
   * either out of the queue or its last node, every other node is as it was
   * but for the `next` link of the stale last node `last0`, which `init`
   * never clears.
   */
  ghost predicate InitProgress(start: seq<Node>, cur: seq<Node>, nodes: seq<nat>, p: nat,
                               last0: Link, first1: Link, last1: Link)
  {
    && p <= |nodes| && |cur| == |start|
    && (last1 == last0 || last0.Nil?)
    && (last0.Nil? ==> first1 == last1)
    && (last1.Ptr? && last1 != last0 ==> last1.index in nodes[..p])
    && (forall s :: 0 <= s < |cur| && s in nodes[..p] ==>
          Initialised(start[s], cur[s]) && (cur[s].next.Nil? || last1 == Ptr(s)))
    && (forall s :: 0 <= s < |cur| && s !in nodes[..p] ==>
          cur[s] == start[s] || (Ptr(s) == last0 && cur[s] == start[s].(next := cur[s].next)))
  }

  lemma InitProgressStep(start: seq<Node>, before: seq<Node>, after: seq<Node>, nodes: seq<nat>, p: nat,
                         last0: Link, first1: Link, last1: Link, first1': Link, last1': Link)
    requires InitProgress(start, before, nodes, p, last0, first1, last1) && p < |nodes|
    requires InitNodeStep(before, after, nodes[p], first1, last1, first1', last1')
    ensures InitProgress(start, after, nodes, p + 1, last0, first1', last1')
  {
    var n := nodes[p];
    assert nodes[..p + 1] == nodes[..p] + [n];
    forall s | 0 <= s < |after| && s in nodes[..p + 1]
      ensures Initialised(start[s], after[s]) && (after[s].next.Nil? || last1' == Ptr(s))
    {
      if s == n && n in nodes[..p] {
        InitialisedAgain(start[n], before[n], after[n]);
      }
    }
  }

  class MaxFlowFinder {
    const g: Network
    /** The node array handed to the solver, as arena slots (it may repeat a slot). */
    const nodes: seq<nat>
    const queueFirst: array<Link>
    const queueLast: array<Link>
    /** The orphan list, first element first. */
    var orphans: seq<nat>
    var timestamp: int
    var flow: real

    ghost predicate Valid()
      reads this, g, queueFirst, queueLast
    {
      && g.Valid()
      && queueFirst.Length == 2 && queueLast.Length == 2 && queueFirst != queueLast
      && (forall k :: 0 <= k < |nodes| ==> nodes[k] < |g.nodes|)
      && LinkIn(queueFirst[0], |g.nodes|) && LinkIn(queueFirst[1], |g.nodes|)
      && LinkIn(queueLast[0], |g.nodes|) && LinkIn(queueLast[1], |g.nodes|)
      && (forall k :: 0 <= k < |orphans| ==> orphans[k] < |g.nodes|)
    }

    /** This finder's state. */
    ghost function State(): Finder
      reads this, g, queueFirst, queueLast
      requires Valid()
    {
      Finder(g.nodes, g.arcs, queueFirst[0], queueLast[0], queueFirst[1], queueLast[1], orphans, timestamp, flow)
    }

    constructor (g: Network, nodes: seq<nat>)
      requires g.Valid()
      requires forall k :: 0 <= k < |nodes| ==> nodes[k] < |g.nodes|
      ensures Valid() && fresh(queueFirst) && fresh(queueLast)
      ensures this.g == g && this.nodes == nodes
      ensures queueFirst[..] == [Nil, Nil] && queueLast[..] == [Nil, Nil]
      ensures orphans == [] && timestamp == 0 && flow == 0.0
    {
      this.g := g;
      this.nodes := nodes;
      queueFirst := new Link[2](_ => Nil);
      queueLast := new Link[2](_ => Nil);
      orphans := [];
      timestamp := 0;
      flow := 0.0;
    }

    /**
     * Sets node `i`'s terminal capacities: the common part `min(source, sink)`
     * is flow already pushed, the difference is kept as the signed terminal capacity.
     */
    method SetTweights(i: nat, sourceCapacity: real, sinkCapacity: real)
      requires Valid() && i < |g.nodes|
      modifies this`flow, g
      ensures Valid()
      ensures flow == old(flow) + Min(sourceCapacity, sinkCapacity)
      ensures g.nodes == old(g.nodes)[i := old(g.nodes)[i].(residualCapacity := sourceCapacity - sinkCapacity)]
      ensures g.arcs == old(g.arcs)
    {
      flow := flow + if sourceCapacity < sinkCapacity then sourceCapacity else sinkCapacity;
      NodeUpdateKeepsShape(g.nodes, g.arcs, i, g.nodes[i].(residualCapacity := sourceCapacity - sinkCapacity));
      g.nodes := g.nodes[i := g.nodes[i].(residualCapacity := sourceCapacity - sinkCapacity)];
    }

    /** Adds terminal capacities on top of what node `i` already holds. */
    method AddTweights(i: nat, sourceCapacity: real, sinkCapacity: real)
      requires Valid() && i < |g.nodes|
      modifies this`flow, g
      ensures Valid()
      ensures var d := old(g.nodes[i].residualCapacity);
        flow == old(flow) + (if d > 0.0 then Min(sourceCapacity + d, sinkCapacity)
                             else Min(sourceCapacity, sinkCapacity - d))
      ensures |g.nodes| == |old(g.nodes)|
      ensures g.nodes[i].residualCapacity ==
              old(g.nodes[i].residualCapacity) + sourceCapacity - sinkCapacity
      ensures g.nodes == old(g.nodes)[i := g.nodes[i]]
      ensures g.nodes[i] == old(g.nodes[i]).(residualCapacity := g.nodes[i].residualCapacity)
      ensures g.arcs == old(g.arcs)
    {
      var source, sink := sourceCapacity, sinkCapacity;
      var delta := g.nodes[i].residualCapacity;
      if delta > 0.0 {
        source := source + delta;
      } else {
        sink := sink - delta;
      }
      SetTweights(i, source, sink);
    }

    /**
     * Marks node `i` active for the next pass. As written, a non-empty
     * next-pass queue only gets `queueLast[1].next := i`: neither `queueLast[1]`
     * nor `i.next` is updated.
     */
    method SetActive(i: nat)
      requires Valid() && i < |g.nodes|
      modifies g, queueFirst, queueLast
      ensures Valid() && g.arcs == old(g.arcs)
      ensures old(g.nodes[i].next).Ptr? ==>
        g.nodes == old(g.nodes) && queueFirst[..] == old(queueFirst[..]) && queueLast[..] == old(queueLast[..])
      ensures old(g.nodes[i].next).Nil? && old(queueLast[1]).Ptr? ==>
        && g.nodes == old(g.nodes)[old(queueLast[1]).index := old(g.nodes)[old(queueLast[1]).index].(next := Ptr(i))]
        && queueFirst[..] == old(queueFirst[..]) && queueLast[..] == old(queueLast[..])
      ensures old(g.nodes[i].next).Nil? && old(queueLast[1]).Nil? ==>
        && g.nodes == old(g.nodes)[i := old(g.nodes)[i].(next := Ptr(i))]
        && queueFirst[..] == [old(queueFirst[0]), Ptr(i)] && queueLast[..] == [old(queueLast[0]), Ptr(i)]
    {
      if g.nodes[i].next.Nil? {
        if queueLast[1].Ptr? {
          var last := queueLast[1].index;
          g.nodes := g.nodes[last := g.nodes[last].(next := Ptr(i))];
        } else {
          queueFirst[1] := Ptr(i);
          queueLast[1] := Ptr(i);
          g.nodes := g.nodes[i := g.nodes[i].(next := Ptr(i))];
        }
      }
    }

    /** Moves the next-pass queue into the current-pass slot and empties it. */
    method Refill()
      requires Valid()
      modifies queueFirst, queueLast
      ensures Valid()
      ensures queueFirst[0] == old(queueFirst[1]) && queueFirst[1] == Nil
      ensures queueLast[0] == old(queueLast[1]) && queueLast[1] == Nil
    {
      queueFirst[0] := queueFirst[1];
      queueLast[0] := queueLast[1];
      queueFirst[1] := Nil;
      queueLast[1] := Nil;
    }

    /**
     * Unlinks the head `n` of the current-pass queue: a self-linked node was
     * the last one and empties the queue; otherwise its successor becomes the
     * head and `n` is left linked to nothing.
     */
    method PopFront(n: nat)
      requires Valid() && queueFirst[0] == Ptr(n)
      modifies g, queueFirst, queueLast
      ensures Valid() && g.arcs == old(g.arcs)
      ensures queueFirst[1] == old(queueFirst[1]) && queueLast[1] == old(queueLast[1])
      ensures queueLast[0] == old(queueLast[0]) || (queueFirst[0].Nil? && queueLast[0].Nil?)
      ensures g.nodes == PopNodes(old(g.nodes), n) && queueFirst[0] == PopHead(old(g.nodes), n)
      ensures OnlyNextChanged(old(g.nodes), g.nodes)
      ensures Linked(g.nodes) < old(Linked(g.nodes)) || (Linked(g.nodes) == old(Linked(g.nodes)) && queueFirst[0].Nil?)
    {
      if g.nodes[n].next == Ptr(n) {
        queueFirst[0] := Nil;
        queueLast[0] := Nil;
      } else {
        var before := g.nodes;
        queueFirst[0] := g.nodes[n].next;
        NodeUpdateKeepsShape(g.nodes, g.arcs, n, g.nodes[n].(next := Nil));
        g.nodes := g.nodes[n := g.nodes[n].(next := Nil)];
        if before[n].next.Ptr? {
          assert n in Linked(before) && n !in Linked(g.nodes);
          assert Linked(g.nodes) == Linked(before) - {n};
        } else {
          assert Linked(g.nodes) == Linked(before);
        }
      }
    }

    /**
     * Unlinks the head `n` of the current-pass queue, as `PopFront`, while
     * draining the queues of `start` (see `Drained`).
     */
    method TakeHead(n: nat, ghost nodes: seq<Node>, ghost lists: bool, ghost start: seq<Node>, ghost first0: Link,
                    ghost first1: Link, ghost q: seq<nat>, ghost taken: nat, ghost refilled: bool)
      requires Valid() && queueFirst[0] == Ptr(n) && g.nodes == nodes
      requires lists ==> Drained(start, first0, first1, nodes, Ptr(n), queueFirst[1], q, taken, refilled)
      modifies g, queueFirst, queueLast
      ensures Valid() && g.arcs == old(g.arcs)
      ensures queueFirst[1] == old(queueFirst[1]) && queueLast[1] == old(queueLast[1])
      ensures queueLast[0] == old(queueLast[0]) || (queueFirst[0].Nil? && queueLast[0].Nil?)
      ensures OnlyNextChanged(nodes, g.nodes) && n < |nodes| && g.nodes[n].parent == nodes[n].parent
      ensures Linked(g.nodes) < Linked(nodes) || (Linked(g.nodes) == Linked(nodes) && queueFirst[0].Nil?)
      ensures lists ==> g.nodes[n].parent == start[n].parent
      ensures lists && start[n].parent.Free? ==>
        Drained(start, first0, first1, g.nodes, queueFirst[0], queueFirst[1], q, taken + 1, refilled)
      ensures lists && !start[n].parent.Free? ==>
        TakesFirstActive(start, first0, first1, g.nodes, queueFirst[0], queueFirst[1], Ptr(n), refilled)
    {
      if lists {
        DrainingPop(start, first0, first1, nodes, n, queueFirst[1], q, taken, refilled);
      }
      PopFront(n);
    }

    /**
     * The refill of `NextActive` once the current-pass queue has run dry:
     * the draining goes on from the next-pass queue, and when that is empty
     * too no node of the queues `first0`, `first1` of `start` is active.
     */
    method SwitchQueues(ghost lists: bool, ghost start: seq<Node>, ghost first0: Link, ghost first1: Link,
                        ghost q: seq<nat>, ghost taken: nat, ghost refilled: bool)
      requires Valid() && queueFirst[0] == Nil
      requires lists ==> Drained(start, first0, first1, g.nodes, Nil, queueFirst[1], q, taken, refilled)
      modifies queueFirst, queueLast
      ensures Valid()
      ensures queueFirst[0] == old(queueFirst[1]) && queueFirst[1] == Nil
      ensures queueLast[0] == old(queueLast[1]) && queueLast[1] == Nil
      ensures lists ==> Drained(start, first0, first1, g.nodes, queueFirst[0], Nil, q, taken, true)
      ensures lists && queueFirst[0].Nil? ==> TakesFirstActive(start, first0, first1, g.nodes, Nil, Nil, Nil, true)
    {
      ghost var nodes, f1 := g.nodes, queueFirst[1];
      if lists {
        DrainingRefill(start, first0, first1, nodes, f1, q, taken, refilled);
        if f1.Nil? {
          DrainingEmpty(start, first0, first1, nodes, q, taken);
        }
      }
      Refill();
      assert g.nodes == nodes && queueFirst[0] == f1;
    }

    /**
     * Pops the next active node: the current-pass queue is refilled from the
     * next-pass queue when it runs dry (`refilled`, which leaves the
     * next-pass queue empty at both ends); popped nodes without a parent are
     * skipped. `Nil` means both queues are empty. When the two queues are
     * lists, the node returned is the first queued node, current pass first,
     * that has a parent, and the queues keep exactly the nodes after it.
     */
    method NextActive() returns (r: Link, ghost refilled: bool)
      requires Valid()
      modifies g, queueFirst, queueLast
      ensures Valid() && g.arcs == old(g.arcs)
      ensures OnlyNextChanged(old(g.nodes), g.nodes)
      ensures r.Ptr? ==> r.index < |g.nodes| && !g.nodes[r.index].parent.Free?
      ensures r.Nil? ==> queueFirst[0] == Nil && queueFirst[1] == Nil && refilled
      ensures QueueEnds(old(queueFirst[0]), old(queueLast[0]), old(queueFirst[1]), old(queueLast[1]),
                        queueFirst[0], queueLast[0], queueFirst[1], queueLast[1], refilled)
      ensures Queues(old(g.nodes), old(queueFirst[0]), old(queueFirst[1])) ==>
        TakesFirstActive(old(g.nodes), old(queueFirst[0]), old(queueFirst[1]), g.nodes, queueFirst[0], queueFirst[1], r, refilled)
    {
      ghost var start, first0, first1 := g.nodes, queueFirst[0], queueFirst[1];
      ghost var last0, last1 := queueLast[0], queueLast[1];
      ghost var lists := Queues(g.nodes, queueFirst[0], queueFirst[1]);
      ghost var q := Queued(g.nodes, queueFirst[0]) + Queued(g.nodes, queueFirst[1]);
      ghost var taken := 0;
      refilled := false;
      while true
        invariant Valid() && g.arcs == old(g.arcs)
        invariant OnlyNextChanged(start, g.nodes)
        invariant QueueEnds(first0, last0, first1, last1, queueFirst[0], queueLast[0], queueFirst[1], queueLast[1], refilled)
        invariant lists ==> Drained(start, first0, first1, g.nodes, queueFirst[0], queueFirst[1], q, taken, refilled)
        decreases (if queueFirst[1].Ptr? then 1 else 0), Linked(g.nodes), (if queueFirst[0].Ptr? then 1 else 0)
      {
        var i := queueFirst[0];
        ghost var nodes := g.nodes;
        if i.Nil? {
          SwitchQueues(lists, start, first0, first1, q, taken, refilled);
          refilled := true;
          i := queueFirst[0];
          if i.Nil? {
            return Nil, refilled;
          }
        }
        TakeHead(i.index, nodes, lists, start, first0, first1, q, taken, refilled);
        // A node in the list is active iff it has a parent.
        if !g.nodes[i.index].parent.Free? {
          return i, refilled;
        }
        taken := taken + 1;
      }
    }

    /**
     * `augment(middle)`: pushes the bottleneck of the path through arc
     * `middle` from the source tree to the sink tree, adds it to the flow and
     * pushes every node it cuts off at the front of the orphan list.
     */
    method Augment(middle: nat)
      requires Valid() && middle < |g.arcs|
      modifies this`orphans, this`flow, g
      ensures Valid()
      ensures AugmentedBy(old(g.nodes), old(g.arcs), old(orphans), old(flow), middle, g.nodes, g.arcs, orphans, flow)
      ensures SameArcLinks(old(g.arcs), g.arcs) && SameSums(old(g.arcs), g.arcs) && |g.nodes| == |old(g.nodes)|
      ensures forall k :: 0 <= k < |g.nodes| && g.nodes[k].parent == Orphan ==> old(g.nodes)[k].parent == Orphan || k in orphans
    {
      var nodes, arcs, orphans0, flow0 := g.nodes, g.arcs, orphans, flow;
      ShapeTreeLinks(nodes, arcs);
      var nodes', arcs', orphans', b := AugmentArena(nodes, arcs, orphans, middle);
      AugmentKeepsLists(nodes, arcs, orphans, middle, b, nodes', arcs', orphans');
      assert AugmentedBy(nodes, arcs, orphans0, flow0, middle, nodes', arcs', orphans', flow0 + b);
      Install(nodes', arcs', orphans');
      flow := flow + b;
    }

    /** Replaces the arena and the orphan list by a well-formed pair. */
    method Install(nodes': seq<Node>, arcs': seq<Arc>, orphans': seq<nat>)
      requires Valid() && Shape(nodes', arcs') && |nodes'| == |g.nodes|
      requires forall k :: 0 <= k < |orphans'| ==> orphans'[k] < |nodes'|
      modifies this`orphans, g
      ensures Valid() && g.nodes == nodes' && g.arcs == arcs' && orphans == orphans'
    {
      g.nodes, g.arcs := nodes', arcs';
      orphans := orphans';
    }

    /** Replaces the nodes, the next-pass queue ends and the orphan list. */
    method InstallNodes(nodes': seq<Node>, first1: Link, last1: Link, orphans': seq<nat>)
      requires Valid() && Shape(nodes', g.arcs) && |nodes'| == |g.nodes|
      requires LinkIn(first1, |nodes'|) && LinkIn(last1, |nodes'|)
      requires forall k :: 0 <= k < |orphans'| ==> orphans'[k] < |nodes'|
      modifies this`orphans, g`nodes, queueFirst, queueLast
      ensures Valid() && g.nodes == nodes' && g.arcs == old(g.arcs) && orphans == orphans'
      ensures queueFirst[..] == [old(queueFirst[0]), first1] && queueLast[..] == [old(queueLast[0]), last1]
    {
      g.nodes := nodes';
      queueFirst[1], queueLast[1] := first1, last1;
      orphans := orphans';
    }

    /**
     * `processSourceOrphan(i)` / `processSinkOrphan(i)`, chosen by `i`'s side:
     * the parent search over `i`'s list with the current timestamp, then
     * either adoption through the best arc or freeing and releasing `i`.
     */
    method ProcessOrphan(i: nat)
      requires Valid() && i < |g.nodes|
      modifies this`orphans, g`nodes, queueFirst, queueLast
      ensures Valid() && g.arcs == old(g.arcs)
      ensures var r := ProcessedOrphan(old(g.nodes), g.arcs, old(queueFirst[1]), old(queueLast[1]), old(orphans), i, timestamp);
        && g.nodes == r.0 && orphans == r.3
        && queueFirst[..] == [old(queueFirst[0]), r.1] && queueLast[..] == [old(queueLast[0]), r.2]
      // within an adoption stage: the orphan is freed exactly when no arc of its list offers a parent,
      // and an adopted orphan hangs one step below a parent of least distance
      ensures AdoptionStage(old(g.nodes), g.arcs, i, timestamp) ==>
        && StampedExact(g.nodes, g.arcs, timestamp)
        && (g.nodes[i].parent.Free? <==>
              forall a :: a in ArcList(g.arcs, old(g.nodes[i].first)) ==> !ParentCandidate(old(g.nodes), g.arcs, a, old(g.nodes[i].sink)))
        && (g.nodes[i].parent.Arc? ==>
              && g.nodes[i].timestamp == timestamp
              && g.nodes[i].distance == g.nodes[g.arcs[g.nodes[i].parent.arc].head].distance + 1
              && forall a :: a in ArcList(g.arcs, old(g.nodes[i].first)) && ParentCandidate(old(g.nodes), g.arcs, a, old(g.nodes[i].sink)) ==>
                   g.nodes[g.arcs[a].head].timestamp == timestamp && g.nodes[i].distance <= g.nodes[g.arcs[a].head].distance + 1)
    {
      var nodes, arcs, f1, l1 := g.nodes, g.arcs, queueFirst[1], queueLast[1];
      ShapeWalkable(nodes, arcs);
      if AdoptionStage(nodes, arcs, i, timestamp) {
        ProcessedOrphanExact(nodes, arcs, f1, l1, orphans, i, timestamp);
        ProcessedOrphanNearest(nodes, arcs, f1, l1, orphans, i, timestamp);
      }
      var searched, best, dMin := FindParent(nodes, arcs, i, timestamp);
      StampsKeepWalkable(nodes, searched, arcs);
      var nodes', f1', l1', orphans';
      if best.Ptr? {
        // adopt through the best arc
        nodes' := searched[i := searched[i].(parent := Parent.Arc(best.index), timestamp := timestamp, distance := dMin + 1)];
        NodeUpdateWalkable(searched, arcs, i, nodes'[i]);
        f1', l1', orphans' := f1, l1, orphans;
      } else {
        // no parent found: free `i` and release its children
        var freed := searched[i := searched[i].(parent := Free, timestamp := 0)];
        NodeUpdateWalkable(searched, arcs, i, freed[i]);
        nodes', f1', l1', orphans' := ReleaseChildren(freed, arcs, f1, l1, orphans, i);
      }
      assert (nodes', f1', l1', orphans') == ProcessedOrphan(nodes, arcs, f1, l1, orphans, i, timestamp);
      WalkableShape(nodes, nodes', arcs);
      InstallNodes(nodes', f1', l1', orphans');
    }

    /**
     * The growth phase of `findMaxFlow` from active node `i` on its side:
     * returns the middle arc of an augmenting path, or `Nil`.
     */
    method Grow(i: nat) returns (middle: Link)
      requires Valid() && i < |g.nodes|
      modifies this`orphans, g`nodes, queueFirst, queueLast
      ensures Valid() && g.arcs == old(g.arcs) && orphans == old(orphans)
      ensures var r := Grown(old(g.nodes), g.arcs, old(queueFirst[1]), old(queueLast[1]),
                             old(g.nodes[i].first), i, old(g.nodes[i].sink));
        && g.nodes == r.0 && middle == r.3
        && queueFirst[..] == [old(queueFirst[0]), r.1] && queueLast[..] == [old(queueLast[0]), r.2]
    {
      var nodes, arcs, f1, l1 := g.nodes, g.arcs, queueFirst[1], queueLast[1];
      ShapeWalkable(nodes, arcs);
      var nodes', f1', l1';
      nodes', f1', l1', middle := GrowTree(nodes, arcs, f1, l1, i);
      WalkableShape(nodes, nodes', arcs);
      InstallNodes(nodes', f1', l1', orphans);
    }

    /** Sets node `i`'s `next` link (the active flag). */
    method SetNext(i: nat, l: Link)
      requires Valid() && i < |g.nodes| && LinkIn(l, |g.nodes|)
      modifies g`nodes
      ensures Valid() && g.nodes == old(g.nodes)[i := old(g.nodes)[i].(next := l)]
    {
      NodeUpdateKeepsShape(g.nodes, g.arcs, i, g.nodes[i].(next := l));
      g.nodes := g.nodes[i := g.nodes[i].(next := l)];
    }

    /**
     * The adoption stage from the nodes `nodes0`, next-pass queue ends
     * `first1`, `last1` and orphan list `orphans0` with `fuel` has left this
     * finder's nodes, next-pass queue ends and orphan list, with `left` fuel
     * left and `done` saying the list ran empty (see `Adopted`).
     */
    ghost predicate AdoptedFrom(nodes0: seq<Node>, first1: Link, last1: Link, orphans0: seq<nat>,
                                fuel: nat, left: nat, done: bool)
      reads this, g, queueFirst, queueLast
      requires Valid()
    {
      && Walkable(nodes0, g.arcs) && LinkIn(first1, |nodes0|) && LinkIn(last1, |nodes0|)
      && (forall k :: 0 <= k < |orphans0| ==> orphans0[k] < |nodes0|)
      && var r := Adopted(nodes0, g.arcs, first1, last1, [], orphans0, timestamp, fuel);
         && g.nodes == r.0 && queueFirst[1] == r.1 && queueLast[1] == r.2
         && orphans == r.3 && left == r.4 && done == r.5
    }

    /**
     * The adoption phase of `findMaxFlow`: takes the first orphan off the
     * list, processes it and then every orphan that processing appends, first
     * in first out, before going on with the rest of the original list.
     * Each orphan processed uses up one unit of `fuel`; `done` says the list
     * ran empty, after which no node is left ORPHAN, and is false only when
     * the fuel is spent.
     */
    method Adopt(fuel: nat) returns (left: nat, done: bool)
      requires Valid()
      requires forall k :: 0 <= k < |g.nodes| && g.nodes[k].parent == Orphan ==> k in orphans
      modifies this`orphans, g`nodes, queueFirst, queueLast
      ensures Valid() && g.arcs == old(g.arcs) && |g.nodes| == |old(g.nodes)| && left <= fuel
      ensures queueFirst[0] == old(queueFirst[0]) && queueLast[0] == old(queueLast[0])
      ensures AdoptedFrom(old(g.nodes), old(queueFirst[1]), old(queueLast[1]), old(orphans), fuel, left, done)
      ensures done ==> orphans == [] && NoOrphans(g.nodes)
      ensures !done ==> left == 0
    {
      ghost var result := Adopted(g.nodes, g.arcs, queueFirst[1], queueLast[1], [], orphans, timestamp, fuel);
      left := fuel;
      while orphans != []
        invariant Valid() && g.arcs == old(g.arcs) && |g.nodes| == |old(g.nodes)| && left <= fuel
        invariant queueFirst[0] == old(queueFirst[0]) && queueLast[0] == old(queueLast[0])
        invariant forall k :: 0 <= k < |g.nodes| && g.nodes[k].parent == Orphan ==> k in orphans
        invariant Adopted(g.nodes, g.arcs, queueFirst[1], queueLast[1], [], orphans, timestamp, left) == result
        decreases left, |orphans|
      {
        var pending := orphans[1..];
        orphans := [orphans[0]];
        assert Listed(g.nodes, orphans, pending);
        ShapeWalkable(g.nodes, g.arcs);
        left, done := AdoptQueue(pending, left);
        if !done {
          return;
        }
        orphans := pending;
      }
      done := true;
    }

    /**
     * The inner loop of the adoption phase: processes the orphan list first
     * in first out, with the orphans each one makes appended, until it runs
     * empty (`done`) or `fuel` is spent; `pending` is the rest of the
     * original list, waiting.
     */
    method AdoptQueue(ghost pending: seq<nat>, fuel: nat) returns (left: nat, done: bool)
      requires Valid() && Walkable(g.nodes, g.arcs) && orphans != []
      requires forall k :: 0 <= k < |pending| ==> pending[k] < |g.nodes|
      requires Listed(g.nodes, orphans, pending)
      modifies this`orphans, g`nodes, queueFirst, queueLast
      ensures Valid() && g.arcs == old(g.arcs) && |g.nodes| == |old(g.nodes)| && left <= fuel
      ensures queueFirst[0] == old(queueFirst[0]) && queueLast[0] == old(queueLast[0])
      ensures Adopted(g.nodes, g.arcs, queueFirst[1], queueLast[1], orphans, pending, timestamp, left)
           == Adopted(old(g.nodes), g.arcs, old(queueFirst[1]), old(queueLast[1]), old(orphans), pending, timestamp, fuel)
      ensures done ==> orphans == [] && left < fuel
      ensures done ==> Listed(g.nodes, [], pending)
      ensures !done ==> left == 0 && orphans != []
    {
      ghost var result := Adopted(g.nodes, g.arcs, queueFirst[1], queueLast[1], orphans, pending, timestamp, fuel);
      left := fuel;
      while orphans != []
        invariant Valid() && Walkable(g.nodes, g.arcs) && g.arcs == old(g.arcs) && |g.nodes| == |old(g.nodes)| && left <= fuel
        invariant queueFirst[0] == old(queueFirst[0]) && queueLast[0] == old(queueLast[0])
        invariant left < fuel || orphans != []
        invariant Listed(g.nodes, orphans, pending)
        invariant Adopted(g.nodes, g.arcs, queueFirst[1], queueLast[1], orphans, pending, timestamp, left) == result
        decreases left
      {
        if left == 0 {
          return 0, false;
        }
        ghost var before := Adopted(g.nodes, g.arcs, queueFirst[1], queueLast[1], orphans, pending, timestamp, left);
        AdoptFirst(pending, left);
        left := left - 1;
        assert Adopted(g.nodes, g.arcs, queueFirst[1], queueLast[1], orphans, pending, timestamp, left) == before;
      }
      done := true;
    }

    /** Takes the first orphan off the list and processes it; `fuel` is the fuel before this one. */
    method AdoptFirst(ghost pending: seq<nat>, ghost fuel: nat)
      requires Valid() && Walkable(g.nodes, g.arcs) && orphans != [] && fuel > 0
      requires forall k :: 0 <= k < |pending| ==> pending[k] < |g.nodes|
      requires Listed(g.nodes, orphans, pending)
      modifies this`orphans, g`nodes, queueFirst, queueLast
      ensures Valid() && Walkable(g.nodes, g.arcs) && g.arcs == old(g.arcs) && |g.nodes| == |old(g.nodes)|
      ensures queueFirst[0] == old(queueFirst[0]) && queueLast[0] == old(queueLast[0])
      ensures Listed(g.nodes, orphans, pending)
      ensures Adopted(g.nodes, g.arcs, queueFirst[1], queueLast[1], orphans, pending, timestamp, fuel - 1)
           == Adopted(old(g.nodes), g.arcs, old(queueFirst[1]), old(queueLast[1]), old(orphans), pending, timestamp, fuel)
    {
      var i := orphans[0];
      orphans := orphans[1..];
      ghost var current, list := g.nodes, orphans;
      ProcessedOrphanListed(current, g.arcs, queueFirst[1], queueLast[1], list, i, timestamp);
      ghost var f1, l1 := queueFirst[1], queueLast[1];
      ProcessOrphan(i);
      assert AdoptedFirst(current, g.arcs, f1, l1, [i] + list, pending, timestamp, fuel)
          == Adopted(g.nodes, g.arcs, queueFirst[1], queueLast[1], orphans, pending, timestamp, fuel - 1);
      forall k | k in list
        ensures k in orphans
      {
        var m :| 0 <= m < |list| && list[m] == k;
        assert orphans[..|list|][m] == k;
      }
    }

    /**
     * `findMaxFlow`: seeds the trees with `init`, which leaves `s0`, then
     * runs `rounds`: each spends one unit of `fuel`, takes an active node
     * (see `PickActive`) and runs a pass from it (see `Pass`), which spends
     * one unit more per orphan adopted. `left` is what is left of the fuel.
     * `finished` says the queues ran empty after the rounds, which leaves no
     * node ORPHAN; otherwise the run stops where the rounds leave off, with
     * the fuel spent. The flow found is the flow before plus the bottleneck
     * of every path augmented, in `paths`, in order. Throughout, no arc's
     * links change and every arc pair keeps its total residual capacity.
     */
    method FindMaxFlow(fuel: nat) returns (total: real, finished: bool, left: nat,
                                           ghost paths: seq<(seq<Node>, seq<Arc>, nat)>, ghost bottlenecks: seq<real>,
                                           ghost s0: Finder, ghost rounds: seq<Round>)
      requires Valid() && NoOrphans(g.nodes)
      modifies this`orphans, this`timestamp, this`flow, g, queueFirst, queueLast
      ensures Valid() && |g.nodes| == |old(g.nodes)| && total == flow && left <= fuel
      ensures SameArcLinks(old(g.arcs), g.arcs) && SameSums(old(g.arcs), g.arcs)
      ensures finished ==> queueFirst[0].Nil? && queueFirst[1].Nil? && orphans == [] && NoOrphans(g.nodes)
      ensures !finished ==> left == 0
      ensures Accounted(paths, bottlenecks) && total == old(flow) + Sum(bottlenecks)
      ensures Inits(nodes, old(State()), s0) && Rounds(s0, fuel, rounds)
      ensures rounds == [] || rounds[|rounds| - 1].done || !finished
      ensures var e := Reached(s0, fuel, rounds);
        && (finished ==> Ended(s0, fuel, rounds, State(), left))
        && (!finished ==> e.2 == 0 && State() == e.0)
    {
      Init();
      s0 := State();
      total, finished, left, paths, bottlenecks, rounds := Play(s0, fuel);
    }

    /**
     * The main loop of `findMaxFlow` from the state `s0` that `init` left:
     * rounds are played until the pick finds no active node or the fuel is
     * spent (see `FindMaxFlow`).
     */
    method Play(ghost s0: Finder, fuel: nat) returns (total: real, finished: bool, left: nat,
                                                      ghost paths: seq<(seq<Node>, seq<Arc>, nat)>, ghost bottlenecks: seq<real>,
                                                      ghost rounds: seq<Round>)
      requires Valid() && orphans == [] && NoOrphans(g.nodes) && State() == s0
      modifies this`orphans, this`timestamp, this`flow, g, queueFirst, queueLast
      ensures Valid() && |g.nodes| == |old(g.nodes)| && total == flow && left <= fuel
      ensures SameArcLinks(old(g.arcs), g.arcs) && SameSums(old(g.arcs), g.arcs)
      ensures finished ==> queueFirst[0].Nil? && queueFirst[1].Nil? && orphans == [] && NoOrphans(g.nodes)
      ensures !finished ==> left == 0
      ensures Accounted(paths, bottlenecks) && total == old(flow) + Sum(bottlenecks)
      ensures Rounds(s0, fuel, rounds) && (rounds == [] || rounds[|rounds| - 1].done || !finished)
      ensures finished ==> Ended(s0, fuel, rounds, State(), left)
      ensures !finished ==> var e := Reached(s0, fuel, rounds); e.2 == 0 && State() == e.0
    {
      rounds := [];
      ghost var arcs0 := g.arcs;
      var cur: Link := Nil;
      left := fuel;
      paths, bottlenecks := [], [];
      while true
        invariant Valid() && |g.nodes| == |old(g.nodes)| && LinkIn(cur, |g.nodes|) && left <= fuel
        invariant SameArcLinks(arcs0, g.arcs) && SameSums(arcs0, g.arcs)
        invariant orphans == [] && NoOrphans(g.nodes)
        invariant Accounted(paths, bottlenecks) && flow == old(flow) + Sum(bottlenecks)
        invariant Rounds(s0, fuel, rounds) && (rounds == [] || rounds[|rounds| - 1].done)
        invariant Reached(s0, fuel, rounds) == (State(), cur, left)
        decreases left
      {
        if left == 0 {
          return flow, false, 0, paths, bottlenecks, rounds;
        }
        ghost var arcs1 := g.arcs;
        var i, done;
        i, cur, left, done, paths, bottlenecks, rounds := PlayRound(s0, fuel, rounds, cur, left, paths, bottlenecks);
        SameArcLinksTransitive(arcs0, arcs1, g.arcs);
        SameSumsTransitive(arcs0, arcs1, g.arcs);
        if i.Nil? {
          return flow, true, left, paths, bottlenecks, rounds;
        }
        if !done {
          return flow, false, left, paths, bottlenecks, rounds;
        }
      }
    }

    /**
     * One round of `findMaxFlow` with `fuel` left, after `rounds` from `s0`
     * with `fuel0`: one unit of fuel is spent and an active node `i` picked
     * (see `PickActive`); when there is none the run is over, and otherwise
     * a pass from `i` (see `Pass`) is one more round.
     */
    method PlayRound(ghost s0: Finder, ghost fuel0: nat, ghost rounds: seq<Round>, cur: Link, fuel: nat,
                     ghost paths: seq<(seq<Node>, seq<Arc>, nat)>, ghost bottlenecks: seq<real>)
      returns (i: Link, cur': Link, left: nat, done: bool,
               ghost paths': seq<(seq<Node>, seq<Arc>, nat)>, ghost bottlenecks': seq<real>, ghost rounds': seq<Round>)
      requires Valid() && LinkIn(cur, |g.nodes|) && fuel > 0
      requires orphans == [] && NoOrphans(g.nodes) && Accounted(paths, bottlenecks)
      requires Rounds(s0, fuel0, rounds) && (rounds == [] || rounds[|rounds| - 1].done)
      requires Reached(s0, fuel0, rounds) == (State(), cur, fuel)
      modifies this`orphans, this`timestamp, this`flow, g, queueFirst, queueLast
      ensures Valid() && |g.nodes| == |old(g.nodes)| && LinkIn(cur', |g.nodes|) && left < fuel
      ensures SameArcLinks(old(g.arcs), g.arcs) && SameSums(old(g.arcs), g.arcs)
      ensures if i.Nil? then
                && queueFirst[0].Nil? && queueFirst[1].Nil? && orphans == [] && NoOrphans(g.nodes)
                && left == fuel - 1 && rounds' == rounds && paths' == paths && bottlenecks' == bottlenecks
                && flow == old(flow)
                && Ended(s0, fuel0, rounds', State(), left)
              else
                && Rounds(s0, fuel0, rounds') && Reached(s0, fuel0, rounds') == (State(), cur', left)
                && rounds' != [] && rounds'[|rounds'| - 1].done == done
                && (done ==> orphans == [] && NoOrphans(g.nodes)) && (!done ==> left == 0)
                && Accounted(paths', bottlenecks') && flow - Sum(bottlenecks') == old(flow) - Sum(bottlenecks)
    {
      ghost var before := State();
      ghost var refilled;
      i, refilled := PickActive(cur);
      cur', left, done, paths', bottlenecks', rounds' := cur, fuel - 1, true, paths, bottlenecks, rounds;
      if i.Ptr? {
        cur', left, done, paths', bottlenecks', rounds' := PassRound(s0, fuel0, rounds, before, cur, fuel, i.index, refilled, paths, bottlenecks);
      }
    }

    /**
     * The pass of a round of `findMaxFlow` that picked `i`: `rounds` from
     * `s0` with `fuel0` left off at `before`, `cur` and `fuel`, and picking
     * reached this finder's state. The pass makes one more round.
     */
    method PassRound(ghost s0: Finder, ghost fuel0: nat, ghost rounds: seq<Round>,
                     ghost before: Finder, ghost cur: Link, fuel: nat, i: nat, ghost refilled: bool,
                     ghost paths: seq<(seq<Node>, seq<Arc>, nat)>, ghost bottlenecks: seq<real>)
      returns (cur': Link, left: nat, done: bool,
               ghost paths': seq<(seq<Node>, seq<Arc>, nat)>, ghost bottlenecks': seq<real>, ghost rounds': seq<Round>)
      requires Valid() && i < |g.nodes| && !g.nodes[i].parent.Free? && fuel > 0
      requires orphans == [] && NoOrphans(g.nodes) && Accounted(paths, bottlenecks)
      requires Rounds(s0, fuel0, rounds) && (rounds == [] || rounds[|rounds| - 1].done)
      requires Reached(s0, fuel0, rounds) == (before, cur, fuel)
      requires Picks(before, cur, State(), Ptr(i), refilled)
      modifies this`orphans, this`timestamp, this`flow, g, queueFirst, queueLast
      ensures Valid() && |g.nodes| == |old(g.nodes)| && LinkIn(cur', |g.nodes|) && left < fuel
      ensures SameArcLinks(old(g.arcs), g.arcs) && SameSums(old(g.arcs), g.arcs)
      ensures Rounds(s0, fuel0, rounds') && Reached(s0, fuel0, rounds') == (State(), cur', left)
      ensures rounds' != [] && rounds'[|rounds'| - 1].done == done
      ensures done ==> orphans == [] && NoOrphans(g.nodes)
      ensures !done ==> left == 0
      ensures Accounted(paths', bottlenecks') && flow - Sum(bottlenecks') == old(flow) - Sum(bottlenecks)
    {
      ghost var picked := State();
      ghost var grown;
      var rest: nat := fuel - 1;
      cur', left, done, paths', bottlenecks', grown := AccountedPass(i, rest, paths, bottlenecks);
      RoundOf(before, cur, fuel, picked, i, refilled, grown, rest, State(), cur', left, done);
      ghost var r := Round(before, cur, fuel, picked, i, refilled, grown, State(), cur', left, done);
      RoundsAppend(s0, fuel0, rounds, r);
      rounds' := rounds + [r];
    }

    /** A pass (see `Pass`) whose augmenting path, if any, is added to the account. */
    method AccountedPass(i: nat, fuel: nat, ghost paths: seq<(seq<Node>, seq<Arc>, nat)>, ghost bottlenecks: seq<real>)
      returns (cur: Link, left: nat, done: bool, ghost paths': seq<(seq<Node>, seq<Arc>, nat)>, ghost bottlenecks': seq<real>,
               ghost grown: Finder)
      requires Valid() && i < |g.nodes| && !g.nodes[i].parent.Free?
      requires orphans == [] && NoOrphans(g.nodes) && Accounted(paths, bottlenecks)
      modifies this`orphans, this`timestamp, this`flow, g, queueFirst, queueLast
      ensures Valid() && |g.nodes| == |old(g.nodes)| && LinkIn(cur, |g.nodes|) && left <= fuel
      ensures SameArcLinks(old(g.arcs), g.arcs) && SameSums(old(g.arcs), g.arcs)
      ensures done ==> orphans == [] && NoOrphans(g.nodes)
      ensures !done ==> left == 0
      ensures Accounted(paths', bottlenecks') && flow - Sum(bottlenecks') == old(flow) - Sum(bottlenecks)
      ensures Grows(old(State()), i, grown, cur) && Adopts(grown, fuel, State(), left, done)
    {
      ghost var path, augmented, cutOff;
      ghost var flow0 := flow;
      cur, left, done, path, augmented, cutOff, grown := Pass(i, fuel);
      paths', bottlenecks' := AccountStep(paths, bottlenecks, cur.Ptr?, path, flow - flow0);
    }

    /**
     * The choice of the node to grow from: `cur` (the node that found the
     * last path) loses its active flag and is kept while it has a parent;
     * otherwise the next active node, taken from the queues as `cur` left
     * them (see `NextActive`). `Nil` means both queues are empty.
     */
    method PickActive(cur: Link) returns (i: Link, ghost refilled: bool)
      requires Valid() && LinkIn(cur, |g.nodes|)
      modifies g, queueFirst, queueLast
      ensures Valid() && g.arcs == old(g.arcs) && orphans == old(orphans)
      ensures OnlyNextChanged(old(g.nodes), g.nodes)
      ensures i.Ptr? ==> i.index < |g.nodes| && !g.nodes[i.index].parent.Free?
      ensures i.Nil? ==> queueFirst[0].Nil? && queueFirst[1].Nil?
      ensures cur.Ptr? && !old(g.nodes)[cur.index].parent.Free? ==>
        && i == cur && g.nodes == old(g.nodes)[cur.index := old(g.nodes)[cur.index].(next := Nil)]
        && queueFirst[..] == old(queueFirst[..]) && queueLast[..] == old(queueLast[..])
      ensures var cleared := if cur.Ptr? then old(g.nodes)[cur.index := old(g.nodes)[cur.index].(next := Nil)] else old(g.nodes);
        (cur.Nil? || old(g.nodes)[cur.index].parent.Free?) && Queues(cleared, old(queueFirst[0]), old(queueFirst[1])) ==>
          TakesFirstActive(cleared, old(queueFirst[0]), old(queueFirst[1]), g.nodes, queueFirst[0], queueFirst[1], i, refilled)
      ensures Picks(old(State()), cur, State(), i, refilled)
    {
      i, refilled := cur, false;
      if i.Ptr? {
        // remove active flag
        SetNext(i.index, Nil);
        if g.nodes[i.index].parent.Free? {
          i := Nil;
        }
      }
      if i.Nil? {
        i, refilled := NextActive();
      }
    }

    /**
     * One pass from active node `i`: growth, then the timestamp advances.
     * When growth found no path, that is all and `cur` is `Nil`. When it met
     * the other tree through an arc, `i` is marked active again and becomes
     * `cur`, the path (`path`, the arena it was found in and its middle arc)
     * is augmented, giving the nodes `augmented` and the orphan list
     * `cutOff`, and the orphans are adopted with `fuel` (`done` is false only
     * when it ran out).
     */
    method Pass(i: nat, fuel: nat)
      returns (cur: Link, left: nat, done: bool,
               ghost path: (seq<Node>, seq<Arc>, nat), ghost augmented: seq<Node>, ghost cutOff: seq<nat>,
               ghost grown: Finder)
      requires Valid() && i < |g.nodes| && !g.nodes[i].parent.Free?
      requires orphans == [] && NoOrphans(g.nodes)
      modifies this`orphans, this`timestamp, this`flow, g, queueFirst, queueLast
      ensures Valid() && |g.nodes| == |old(g.nodes)| && LinkIn(cur, |g.nodes|) && left <= fuel
      ensures SameArcLinks(old(g.arcs), g.arcs) && SameSums(old(g.arcs), g.arcs)
      ensures done ==> orphans == [] && NoOrphans(g.nodes)
      ensures !done ==> left == 0
      ensures timestamp == old(timestamp) + 1 && queueFirst[0] == old(queueFirst[0]) && queueLast[0] == old(queueLast[0])
      ensures cur.Ptr? ==> Pushes(path, flow - old(flow))
      ensures cur.Nil? ==> flow == old(flow)
      ensures var r := Grown(old(g.nodes), old(g.arcs), old(queueFirst[1]), old(queueLast[1]), old(g.nodes[i].first), i, old(g.nodes[i].sink));
        r.3.Nil? ==>
          && cur == Nil && left == fuel && done && flow == old(flow) && orphans == []
          && g.nodes == r.0 && g.arcs == old(g.arcs) && queueFirst[1] == r.1 && queueLast[1] == r.2
      ensures var r := Grown(old(g.nodes), old(g.arcs), old(queueFirst[1]), old(queueLast[1]), old(g.nodes[i].first), i, old(g.nodes[i].sink));
        r.3.Ptr? ==>
          && cur == Ptr(i) && path == (r.0[i := r.0[i].(next := Ptr(i))], old(g.arcs), r.3.index)
          && AugmentedBy(path.0, path.1, [], old(flow), path.2, augmented, g.arcs, cutOff, flow)
          && AdoptedFrom(augmented, r.1, r.2, cutOff, fuel, left, done)
      ensures Grows(old(State()), i, grown, cur) && Adopts(grown, fuel, State(), left, done)
    {
      ghost var s := State();
      ghost var before, f1, l1 := g.nodes, queueFirst[1], queueLast[1];
      ShapeWalkable(before, g.arcs);
      GrownMakesNoOrphan(before, g.arcs, f1, l1, before[i].first, i, before[i].sink);
      var middle := Grow(i);
      timestamp := timestamp + 1;
      ghost var f1', l1' := queueFirst[1], queueLast[1];
      left, done := fuel, true;
      cur := Nil;
      path, augmented, cutOff := (g.nodes, g.arcs, 0), g.nodes, [];
      if middle.Ptr? {
        path := (g.nodes[i := g.nodes[i].(next := Ptr(i))], g.arcs, middle.index);
        cur, left, done, augmented, cutOff := AugmentAndAdopt(i, middle.index, fuel);
      }
      grown := Finder(augmented, g.arcs, queueFirst[0], queueLast[0], f1', l1', cutOff, timestamp, flow);
      PassIs(s, i, fuel, grown, State(), cur, left, done);
    }

    /**
     * The second half of a pass that found a path through arc `middle`:
     * marks `i` active again (it becomes `cur`), augments along the path,
     * giving the nodes `augmented` and the orphan list `cutOff`, and adopts
     * the orphans with `fuel`.
     */
    method AugmentAndAdopt(i: nat, middle: nat, fuel: nat)
      returns (cur: Link, left: nat, done: bool, ghost augmented: seq<Node>, ghost cutOff: seq<nat>)
      requires Valid() && i < |g.nodes| && middle < |g.arcs|
      requires orphans == [] && NoOrphans(g.nodes)
      modifies this`orphans, this`flow, g, queueFirst, queueLast
      ensures Valid() && |g.nodes| == |old(g.nodes)| && cur == Ptr(i) && left <= fuel
      ensures SameArcLinks(old(g.arcs), g.arcs) && SameSums(old(g.arcs), g.arcs)
      ensures done ==> orphans == [] && NoOrphans(g.nodes)
      ensures !done ==> left == 0
      ensures queueFirst[0] == old(queueFirst[0]) && queueLast[0] == old(queueLast[0])
      ensures AugmentedBy(old(g.nodes)[i := old(g.nodes)[i].(next := Ptr(i))], old(g.arcs), [], old(flow), middle,
                          augmented, g.arcs, cutOff, flow)
      ensures AdoptedFrom(augmented, old(queueFirst[1]), old(queueLast[1]), cutOff, fuel, left, done)
    {
      // set active flag
      SetNext(i, Ptr(i));
      cur := Ptr(i);
      // augmentation
      Augment(middle);
      augmented, cutOff := g.nodes, orphans;
      // adoption
      left, done := Adopt(fuel);
    }

    /** One step of `init`: resets node `n` and makes it a tree root if it has terminal capacity. */
    method InitNode(n: nat)
      requires Valid() && n < |g.nodes|
      modifies g, queueFirst, queueLast
      ensures Valid() && g.arcs == old(g.arcs)
      ensures queueFirst[0] == old(queueFirst[0]) && queueLast[0] == old(queueLast[0])
      ensures InitNodeStep(old(g.nodes), g.nodes, n, old(queueFirst[1]), old(queueLast[1]), queueFirst[1], queueLast[1])
    {
      NodeUpdateKeepsShape(g.nodes, g.arcs, n, g.nodes[n].(next := Nil, timestamp := 0));
      g.nodes := g.nodes[n := g.nodes[n].(next := Nil, timestamp := 0)];
      if g.nodes[n].residualCapacity > 0.0 {
        // connected to the source
        MakeRoot(n, false);
      } else if g.nodes[n].residualCapacity < 0.0 {
        // connected to the sink
        MakeRoot(n, true);
      } else {
        NodeUpdateKeepsShape(g.nodes, g.arcs, n, g.nodes[n].(parent := Free));
        g.nodes := g.nodes[n := g.nodes[n].(parent := Free)];
      }
    }

    /** Makes node `n` a root of the tree on side `sinkSide`, active, at distance 1. */
    method MakeRoot(n: nat, sinkSide: bool)
      requires Valid() && n < |g.nodes|
      modifies g, queueFirst, queueLast
      ensures Valid() && g.arcs == old(g.arcs) && |g.nodes| == |old(g.nodes)|
      ensures queueFirst[0] == old(queueFirst[0]) && queueLast[0] == old(queueLast[0])
      ensures g.nodes[n] == old(g.nodes[n]).(sink := sinkSide, parent := Terminal, distance := 1, next := g.nodes[n].next)
      ensures g.nodes[n].next == old(g.nodes[n].next) || (g.nodes[n].next == Ptr(n) && queueLast[1] == Ptr(n))
      ensures || (queueFirst[1] == old(queueFirst[1]) && queueLast[1] == old(queueLast[1]))
              || (old(g.nodes[n].next).Nil? && old(queueLast[1]).Nil? && queueFirst[1] == queueLast[1] == Ptr(n))
      ensures forall s :: 0 <= s < |g.nodes| && s != n ==>
        g.nodes[s] == old(g.nodes[s]) ||
        (old(g.nodes[n].next).Nil? && Ptr(s) == old(queueLast[1]) && g.nodes[s] == old(g.nodes[s]).(next := Ptr(n)))
    {
      NodeUpdateKeepsShape(g.nodes, g.arcs, n, g.nodes[n].(sink := sinkSide, parent := Terminal));
      g.nodes := g.nodes[n := g.nodes[n].(sink := sinkSide, parent := Terminal)];
      SetActive(n);
      NodeUpdateKeepsShape(g.nodes, g.arcs, n, g.nodes[n].(distance := 1));
      g.nodes := g.nodes[n := g.nodes[n].(distance := 1)];
    }

    /**
     * Seeds the search trees from the terminal capacities. As written,
     * `queueLast[0]` is cleared twice and `queueLast[1]` is never cleared, so
     * only the first and the last active node end up chained.
     */
    method Init()
      requires Valid()
      modifies this`orphans, this`timestamp, g, queueFirst, queueLast
      ensures Valid() && g.arcs == old(g.arcs) && |g.nodes| == |old(g.nodes)|
      ensures timestamp == 0 && orphans == []
      ensures queueFirst[0] == Nil && queueLast[0] == Nil
      ensures queueLast[1] == old(queueLast[1]) || old(queueLast[1]).Nil?
      ensures old(queueLast[1]).Nil? ==> queueFirst[1] == queueLast[1]
      ensures forall s :: 0 <= s < |g.nodes| && s in nodes ==>
        Initialised(old(g.nodes)[s], g.nodes[s]) && (g.nodes[s].next.Nil? || queueLast[1] == Ptr(s))
      ensures forall s :: 0 <= s < |g.nodes| && s !in nodes ==>
        g.nodes[s] == old(g.nodes)[s] || (Ptr(s) == old(queueLast[1]) && g.nodes[s] == old(g.nodes)[s].(next := g.nodes[s].next))
      ensures Inits(nodes, old(State()), State())
    {
      queueFirst[0] := Nil;
      queueFirst[1] := Nil;
      queueLast[0] := Nil;
      queueLast[0] := Nil;
      orphans := [];
      ghost var start := g.nodes;
      ghost var last0 := queueLast[1];
      var p := 0;
      while p < |nodes|
        invariant 0 <= p <= |nodes|
        invariant Valid() && g.arcs == old(g.arcs)
        invariant orphans == [] && queueFirst[0] == Nil && queueLast[0] == Nil
        invariant InitProgress(start, g.nodes, nodes, p, last0, queueFirst[1], queueLast[1])
      {
        ghost var before, f1, l1 := g.nodes, queueFirst[1], queueLast[1];
        InitNode(nodes[p]);
        InitProgressStep(start, before, g.nodes, nodes, p, last0, f1, l1, queueFirst[1], queueLast[1]);
        p := p + 1;
      }
      assert nodes[..p] == nodes;
      timestamp := 0;
    }
  }
}
