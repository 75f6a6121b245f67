# Photomontage energy minimiser — a Dafny model

This project models the optimisation core of a photomontage tool. The tool
takes a stack of aligned photographs of one scene and computes, for every
pixel, which photograph to take that pixel from. The aim is the
"maximum-likelihood" montage, which removes transient objects from the scene.

The core has four parts, and the model follows them file by file:

- **Coordinates** (`coordinate.dfy`): grid points, their component-wise order,
  the grid test and the row-major index. There is also the mutable `Coordinate`
  class with its two increment methods.
- **Histograms** (`histogram.dfy`): a 20-bin histogram of each colour channel
  at each pixel, over every image of the stack. The probability of a colour
  is the product of its three channel frequencies.
- **Costs** (`costs.dfy`, `expansion.dfy`):
  - The data cost of a label is one minus the probability of its colour
    under the pixel's histogram. Outside the grid it is `INFINITE_CAPACITY`.
  - The seam (interaction) cost between two neighbours is the colour
    difference of the two images at both points, divided by 6 and capped.
    A non-zero seam cost is then raised to the Potts constant plus a tenth
    of itself.
  - The energy of a labelling is the data cost of every pixel plus the seam
    cost to its right and upper neighbours, in row-major order. The first
    cost that fails decides the outcome.
- **Alpha-expansion with Boykov–Kolmogorov max-flow** (`graph.dfy`,
  `maxflow.dfy`, `queue.dfy`, `augment.dfy`, `adoption.dfy`, `distance.dfy`,
  `energy.dfy`).
  - For each label `a` in turn, `BVZExpand` builds a graph:
    - a node for every pixel not labelled `a`;
    - the folded seam costs as edges;
    - the remaining costs as terminal capacities.
  - A maximum flow (search trees, augmentation, orphan adoption) gives a cut.
    The pixels on the `termB` side take label `a` when the energy the cut
    stands for is lower.
  - `compute` repeats this round-robin over the labels. It runs up to
    `MAX_ITERATION` rounds. It stops early once as many expansions in a row
    as there are images have left the energy unchanged; such a run of
    expansions may span the end of one round and the start of the next.

How the model is built:

- **The network is an arena.** A `Network` class holds the nodes and arcs as
  sequences of records. Java references become indices: `Link` is a nullable
  index, and `Parent` is `Free`, `Terminal`, `Orphan` or an arc index.
- **The finder is a class.** `MaxFlowFinder` keeps the Java fields: the two
  active queues as arrays, the orphan list as a sequence, the timestamp and
  the flow. Its methods are proved against functions of the old state.
  - Thus `augment` yields `Augmented`, the orphan processing yields
    `ProcessedOrphan`, growth yields `Grown`, and the adoption loop yields
    `Adopted`. A pass is growth, then `Augmented`, then `Adopted`.
  - The active queues are read as lists of node slots (`queue.dfy`).
    `nextActive` is proved to return the first queued node that has a parent
    and to leave the nodes after it, in order.
  - `findMaxFlow` keeps a ghost account of every path it augments. The flow
    it returns is the flow before plus the sum of their bottlenecks.
  - `findMaxFlow` also keeps a ghost record of its run: the state `init`
    leaves, then one `Round` per turn of the main loop. A round is a pick of
    an active node, a growth with augmentation, and an adoption. Each round
    starts where the one before left off. The run ends either with an empty
    pick, with both queues empty, or with the fuel spent.
  - About those functions, lemmas prove what the algorithm relies on:
    - every sister pair keeps its capacity sum;
    - no arc link changes;
    - every new orphan is listed;
    - the marks of the origin check are sound;
    - a freed orphan's children become orphans;
    - during an adoption stage, the parent search settles on a candidate of
      least distance, and frees the orphan only when its list holds no
      candidate (`distance.dfy`).
- **The minimiser is a class over the same values.** `Minimizer` holds the
  image stack and the label array. Its loops are proved equal to recursive
  specification functions: `Energy`, `Built`, `Folded`, `Terminals` and
  `Relabelled`.
  - The main accounting lemma, `ExpansionAccounting`, shows what the graph
    stands for. The energy reached when the graph is built, plus the rests
    the graph cannot represent, is exactly the energy of the current
    labelling. A rest is a non-negative remainder where a pair violates the
    triangle inequality.
  - `Compute` is proved to produce a trace of expansions. Each expansion is
    `Expand`'s outcome on the labels and the energy the one before it left.
    Labels are tried round-robin and the energy never rises. Every expansion
    from the `count`-th on runs because one of the `count` before it changed
    the energy, and an early stop follows `count` unchanged expansions in a
    row (`count` is the number of images).
    Each expansion's flow and cut are those a run of `FindMaxFlow` leaves
    on the graph built for it (`MaxFlowCut`).

Java exceptions become a `Result`/`Status` datatype. These include the
`IllegalStateException` for a label beyond the last image, the
`IllegalArgumentException` for a point off the grid or too few images, and
the array-index failures the code runs into.

The following behaviours are reproduced as the code is written:

- `setActive` only writes `queueLast[1].next` when the next-pass queue is not
  empty. It neither advances `queueLast[1]` nor links the new node, so after
  `init` only the first and the last root are chained. A root in between is never
  taken from the queue and is grown from only if another tree reaches it.
  With roots A, B, C, D set up in that order and B–C the only arc, only A and
  D are grown from, nothing is found, and the flow through B–C is missed.
- `init` clears `queueLast[0]` twice and never clears `queueLast[1]`.
- `addValue` accepts the value 256. Its bin is 20, one past the table, so the
  table update fails (`Admit`). Images deliver 0–255, so this branch is never
  reached from the stack.
- Pixels labelled `a` refer to the static `ACTIVE_NODE` sentinel in the node
  array. `isNode` excludes it.
- The seam-cost base is computed at both points from the images of the two
  labels. The neighbour offsets are `(1, 0)` and `(0, -1)`: the right and the
  upper neighbour.
- `getCurrentMaxInteractionPenalty` starts from `Double.MIN_VALUE` and looks
  at all four neighbours, in the order left, right, above, below.
- The sink-tree root update of `augment` adds the bottleneck to the root's
  negative terminal capacity and then tests `<= 0`. The bottleneck is never
  larger than that capacity, so the test always holds. The sink root is
  therefore orphaned even when terminal capacity remains
  (`SinkRootAlwaysOrphaned`). The source root, by contrast, is orphaned only
  when its capacity is used up.

## Model

| member | source | states |
|---|---|---|
| Coordinates.GreaterThanOrEqualToIsPartialOrder | src/main/java/lee/kyuhae/john/compphoto/algorithm/Coordinate.java:25-27 | `greaterThanOrEqualTo` is reflexive, antisymmetric and transitive on points |
| Coordinates.SmallerThanIsStrict | src/main/java/lee/kyuhae/john/compphoto/algorithm/Coordinate.java:29-31 | `smallerThan` is irreflexive, and `p < q` excludes `p >= q` and `q < p` |
| Coordinates.InGridIff | src/main/java/lee/kyuhae/john/compphoto/algorithm/Coordinate.java:25-31 | the grid test `(0,0) <= p` and `p < (width,height)` holds exactly when `0 <= col < width` and `0 <= row < height` |
| Coordinates.IndexInRange | src/main/java/lee/kyuhae/john/compphoto/algorithm/Coordinate.java:33-35 | the row-major index of an in-grid point lies in `[0, width*height)` |
| Coordinates.IndexInjective | src/main/java/lee/kyuhae/john/compphoto/algorithm/Coordinate.java:33-35 | two in-grid points with the same row-major index are the same point |
| Coordinates.PointAt | src/main/java/lee/kyuhae/john/compphoto/algorithm/Coordinate.java:33-35 | the inverse of the row-major index: the point it returns has that index and a column inside the row |
| Coordinates.PointAtIndex | src/main/java/lee/kyuhae/john/compphoto/algorithm/Coordinate.java:33-35 | recovering the point from its index gives back every point whose column lies in the row |
| Coordinates.PointAtInGrid | src/main/java/lee/kyuhae/john/compphoto/algorithm/Coordinate.java:33-35 | every index below `width*height` names an in-grid point |
| Coordinates.RowsApart | src/main/java/lee/kyuhae/john/compphoto/algorithm/Coordinate.java:33-35 | a point on an earlier row has a smaller index than any point on a later row |
| Coordinates.GreaterThanOrEqualTo | src/main/java/lee/kyuhae/john/compphoto/algorithm/Coordinate.java:25-27 | `greaterThanOrEqualTo`: both the column and the row are at least the other's (its order properties: `GreaterThanOrEqualToIsPartialOrder`) |
| Coordinates.SmallerThan | src/main/java/lee/kyuhae/john/compphoto/algorithm/Coordinate.java:29-31 | `smallerThan`: both the column and the row are below the other's (`SmallerThanIsStrict`) |
| Coordinates.OneDimensionalIndex | src/main/java/lee/kyuhae/john/compphoto/algorithm/Coordinate.java:33-35 | `row * width + col` (range and injectivity: `IndexInRange`, `IndexInjective`, inverse `PointAt`) |
| Coordinates.InGrid | src/main/java/lee/kyuhae/john/compphoto/algorithm/Coordinate.java:25-31 | the grid test `p >= (0,0)` and `p < (width,height)` (`InGridIff`) |
| Coordinates.Coordinate.constructor | src/main/java/lee/kyuhae/john/compphoto/algorithm/Coordinate.java:12-15 | the new cursor holds the given column and row |
| Coordinates.Coordinate.IncrementColumn | src/main/java/lee/kyuhae/john/compphoto/algorithm/Coordinate.java:17-19 | the column goes up by one and the row stays |
| Coordinates.Coordinate.IncrementRow | src/main/java/lee/kyuhae/john/compphoto/algorithm/Coordinate.java:21-23 | the row goes up by one and the column stays |
| Graph.NewNode | src/main/java/lee/kyuhae/john/compphoto/algorithm/maxflow/Node.java:11-22 | a new node has no arcs, no parent, no queue link, timestamp and distance 0, source side and no terminal capacity |
| Graph.MateInvolutive | src/main/java/lee/kyuhae/john/compphoto/algorithm/maxflow/Graph.java:14-15 | each arc's sister is a different arc whose sister is the first arc again |
| Graph.ArcListPrefix | src/main/java/lee/kyuhae/john/compphoto/algorithm/maxflow/Graph.java:16-19 | adding arcs leaves every adjacency list that starts at an existing arc unchanged |
| Graph.ArcListLinks | src/main/java/lee/kyuhae/john/compphoto/algorithm/maxflow/Graph.java:10-24 | changing residual capacities changes no adjacency list |
| Graph.ArcListInRange | src/main/java/lee/kyuhae/john/compphoto/algorithm/maxflow/Graph.java:16-19 | every arc on an adjacency list is an arc of the network |
| Graph.WhatSegment | src/main/java/lee/kyuhae/john/compphoto/algorithm/maxflow/Graph.java:26-31 | a node is on the SOURCE side exactly when it has a parent and is not marked as a sink-tree node; otherwise it is on the SINK side |
| Graph.Network.AddNode | src/main/java/lee/kyuhae/john/compphoto/algorithm/maxflow/Node.java:11-22 | appends one new node with the given index, leaves the arcs unchanged and keeps the network well formed |
| Graph.Network.AddEdge | src/main/java/lee/kyuhae/john/compphoto/algorithm/maxflow/Graph.java:10-24 | appends the sister pair `a`, `a+1` as `EdgeAdded` describes and keeps the network well formed |
| Graph.EdgeAdded | src/main/java/lee/kyuhae/john/compphoto/algorithm/maxflow/Graph.java:10-24 | the arena after `addEdge`: two sister arcs appended and prepended to the two endpoints' lists (`EdgeAddedShape`, `EdgeAddedAdjacency`) |
| Graph.EdgeAddedShape | src/main/java/lee/kyuhae/john/compphoto/algorithm/maxflow/Graph.java:10-24 | the two new arcs are sisters; one points at `to` and one at `from`; they carry the two capacities and link to the old list heads; no old arc changes; nodes other than `from` and `to` are untouched |
| Graph.EdgeAddedAdjacency | src/main/java/lee/kyuhae/john/compphoto/algorithm/maxflow/Graph.java:16-19 | adding an edge puts the new arc at the front of `from`'s list and its sister at the front of `to`'s list; every other list is unchanged |
| MaxFlow.MaxFlowFinder.constructor | src/main/java/lee/kyuhae/john/compphoto/algorithm/maxflow/MaxFlowFinder.java:25-36 | the finder holds the given nodes, both queues and the orphan list are empty, and timestamp and flow are 0 |
| MaxFlow.MaxFlowFinder.SetTweights | src/main/java/lee/kyuhae/john/compphoto/algorithm/maxflow/MaxFlowFinder.java:38-41 | `min(source, sink)` is added to the flow; the node's signed terminal capacity becomes `source - sink`; nothing else changes |
| MaxFlow.MaxFlowFinder.AddTweights | src/main/java/lee/kyuhae/john/compphoto/algorithm/maxflow/MaxFlowFinder.java:43-52 | the node's terminal capacity grows by `source - sink`; the flow grows by the common part after the old capacity is folded in on its own side; nothing else changes |
| MaxFlow.MaxFlowFinder.SetActive | src/main/java/lee/kyuhae/john/compphoto/algorithm/maxflow/MaxFlowFinder.java:54-64 | a queued node changes nothing; with an empty next-pass queue the node becomes its only (self-linked) entry; otherwise only the last node's `next` is set, exactly as written |
| MaxFlow.MaxFlowFinder.Refill | src/main/java/lee/kyuhae/john/compphoto/algorithm/maxflow/MaxFlowFinder.java:70-75 | the next-pass queue moves to the current slot and the next-pass slot becomes empty |
| MaxFlow.MaxFlowFinder.PopFront | src/main/java/lee/kyuhae/john/compphoto/algorithm/maxflow/MaxFlowFinder.java:81-87 | the nodes and the current-pass head become `PopNodes` and `PopHead` of the old nodes: a self-linked head empties the queue, otherwise its successor becomes the head and the old head is left linked to nothing; the next-pass queue is untouched; the set of linked nodes strictly shrinks unless the queue becomes empty |
| MaxFlow.MaxFlowFinder.TakeHead | src/main/java/lee/kyuhae/john/compphoto/algorithm/maxflow/MaxFlowFinder.java:81-92 | the head is unlinked as by `PopFront` and keeps its parent; while the queues of the starting state are being drained, a head without a parent leaves the drain going on one node further (`Drained`), and one with a parent is the first active node, with exactly the nodes after it left queued (`TakesFirstActive`) |
| MaxFlow.MaxFlowFinder.SwitchQueues | src/main/java/lee/kyuhae/john/compphoto/algorithm/maxflow/MaxFlowFinder.java:70-78 | the next-pass queue moves to the current slot and the next-pass slot empties; a drain in progress goes on, now refilled, and when the moved queue is empty there is no active node |
| MaxFlow.MaxFlowFinder.NextActive | src/main/java/lee/kyuhae/john/compphoto/algorithm/maxflow/MaxFlowFinder.java:66-94 | only `next` links change; a node it returns has a parent; `null` means both queues are empty and the next-pass queue was moved in (`refilled`); the queue ends follow `QueueEnds`: after a refill the next-pass queue is empty at both ends and the current one ends where it ended, otherwise the next-pass queue is untouched; when the two queues are lists (`Queues`), the node returned is the first node of the current-pass queue followed by the next-pass queue that has a parent, `null` exactly when none has, `refilled` exactly when no node of the current-pass queue had one, and the queues left are lists holding exactly the nodes after it, in the same order (`TakesFirstActive`) |
| ActiveQueues.ChainOf | src/main/java/lee/kyuhae/john/compphoto/algorithm/maxflow/MaxFlowFinder.java:66-94 | a queue that is a list (distinct nodes, each linked to the next, the last linked to itself or to nothing) is exactly what following `next` links from its head reads |
| ActiveQueues.PopNodes | src/main/java/lee/kyuhae/john/compphoto/algorithm/maxflow/MaxFlowFinder.java:81-87 | taking the head changes no other node and keeps the head's parent |
| ActiveQueues.PopLeavesTail | src/main/java/lee/kyuhae/john/compphoto/algorithm/maxflow/MaxFlowFinder.java:81-87 | taking the head of a list leaves the rest of it, still a list, from the new head |
| ActiveQueues.PopKeepsOther | src/main/java/lee/kyuhae/john/compphoto/algorithm/maxflow/MaxFlowFinder.java:81-87 | a list that does not pass through the taken node, or that the node closes, is unchanged |
| ActiveQueues.PopTakesFirst | src/main/java/lee/kyuhae/john/compphoto/algorithm/maxflow/MaxFlowFinder.java:81-87 | taking the head of the current-pass queue removes exactly the first node of the two queues in order, and both stay lists |
| ActiveQueues.FirstActive | src/main/java/lee/kyuhae/john/compphoto/algorithm/maxflow/MaxFlowFinder.java:89-92 | the position of the first queued node with a parent: every node before it has none, and the node there has one |
| ActiveQueues.FirstActiveIs | src/main/java/lee/kyuhae/john/compphoto/algorithm/maxflow/MaxFlowFinder.java:89-92 | the first position with a parent is `t` when no node before `t` has a parent and the node at `t`, if any, has one |
| ActiveQueues.DrainingRefill | src/main/java/lee/kyuhae/john/compphoto/algorithm/maxflow/MaxFlowFinder.java:70-75 | moving the next-pass queue into the empty current-pass slot keeps the queues holding the untaken nodes in order, now refilled: the next-pass slot is empty and every node of the first current-pass queue has been taken (`Drained`) |
| ActiveQueues.DrainingPop | src/main/java/lee/kyuhae/john/compphoto/algorithm/maxflow/MaxFlowFinder.java:81-92 | taking the head: without a parent it is skipped and the queues hold the nodes after it (`Drained`); with one it is the first active node, the queues hold exactly the nodes after it and `refilled` says whether the first current-pass queue had run dry (`TakesFirstActive`) |
| ActiveQueues.DrainingEmpty | src/main/java/lee/kyuhae/john/compphoto/algorithm/maxflow/MaxFlowFinder.java:70-78 | both queues empty after a refill and after taking nodes without parents: there is no active node, the result is `null` and the queues were refilled |
| MaxFlow.InitProgressStep | src/main/java/lee/kyuhae/john/compphoto/algorithm/maxflow/MaxFlowFinder.java:103-121 | one pass of `init`'s node loop keeps the loop's invariant: the nodes seen so far are initialised and the queue ends are consistent |
| MaxFlow.MaxFlowFinder.InitNode | src/main/java/lee/kyuhae/john/compphoto/algorithm/maxflow/MaxFlowFinder.java:103-121 | one step of `init`: the node is reset and becomes a source or sink root when its terminal capacity is positive or negative |
| MaxFlow.MaxFlowFinder.MakeRoot | src/main/java/lee/kyuhae/john/compphoto/algorithm/maxflow/MaxFlowFinder.java:106-117 | the node becomes an active root on the given side at distance 1; at most one other node, the old last queued node, has its `next` changed |
| MaxFlow.MaxFlowFinder.Init | src/main/java/lee/kyuhae/john/compphoto/algorithm/maxflow/MaxFlowFinder.java:96-124 | every node is initialised from its terminal capacity (root of the matching tree, or free); timestamp 0; no orphans; the current queue is empty; as written, `queueLast[1]` keeps a stale end; `Inits` records the same of the starting snapshot (`Finder`) a run's rounds begin from |
| MaxFlow.MaxFlowFinder.Augment | src/main/java/lee/kyuhae/john/compphoto/algorithm/maxflow/MaxFlowFinder.java:126-242 | the arena becomes the augmented one (`AugmentedBy`); no arc link changes; every sister pair keeps its capacity sum; every new ORPHAN is on the orphan list |
| MaxFlow.MaxFlowFinder.ProcessOrphan | src/main/java/lee/kyuhae/john/compphoto/algorithm/maxflow/MaxFlowFinder.java:244-413 | the nodes, the next-pass queue and the orphan list become exactly `ProcessedOrphan` of the old state; during an adoption stage the stamp invariant is kept, the orphan is freed exactly when no arc of its list offers a parent, and an adopted orphan is stamped and hangs one step below its parent, no farther from the terminal than through any other candidate |
| MaxFlow.MaxFlowFinder.Grow | src/main/java/lee/kyuhae/john/compphoto/algorithm/maxflow/MaxFlowFinder.java:438-484 | the nodes, the next-pass queue and the middle arc it returns are exactly `Grown` of the old state from the active node's list |
| MaxFlow.MaxFlowFinder.Adopt | src/main/java/lee/kyuhae/john/compphoto/algorithm/maxflow/MaxFlowFinder.java:497-517 | the nodes, next-pass queue ends, orphan list, fuel left and `done` are exactly `Adopted` of the old state (`AdoptedFrom`): each orphan taken off the list is processed together with the orphans processing appends before the rest of the list; `done` means the list ran empty and then no node is an ORPHAN; otherwise no fuel is left; the current-pass queue is untouched |
| MaxFlow.Adopted | src/main/java/lee/kyuhae/john/compphoto/algorithm/maxflow/MaxFlowFinder.java:497-516 | the adoption loop as a function: the fuel left is at most the fuel given; when the list ran empty no orphan is left, and otherwise no fuel is left |
| MaxFlow.AdoptedFirst | src/main/java/lee/kyuhae/john/compphoto/algorithm/maxflow/MaxFlowFinder.java:502-514 | processing the first queued orphan uses one unit of fuel and goes on with the queue the processing left |
| MaxFlow.MaxFlowFinder.AdoptQueue | src/main/java/lee/kyuhae/john/compphoto/algorithm/maxflow/MaxFlowFinder.java:501-514 | the inner loop: the state follows `Adopted` from the current queue and pending orphans; when the queue runs dry every ORPHAN is still pending; otherwise no fuel is left |
| MaxFlow.MaxFlowFinder.AdoptFirst | src/main/java/lee/kyuhae/john/compphoto/algorithm/maxflow/MaxFlowFinder.java:502-514 | one inner iteration: `Adopted` from the new state with one unit less fuel equals `Adopted` from the old state, and every ORPHAN is still queued or pending |
| MaxFlow.MaxFlowFinder.PickActive | src/main/java/lee/kyuhae/john/compphoto/algorithm/maxflow/MaxFlowFinder.java:422-436 | `cur` loses its active flag; when it has a parent it is picked again, nothing is refilled and the queues are untouched; otherwise (or with no `cur`) the queue ends follow `QueueEnds` and the pick is the first queued node with a parent, the queues keeping exactly the nodes after it, for queues that are lists (`TakesFirstActive`); the node picked has a parent, none means both queues are empty, and only `next` links change; `Picks` records the same between two snapshots |
| MaxFlow.MaxFlowFinder.Pass | src/main/java/lee/kyuhae/john/compphoto/algorithm/maxflow/MaxFlowFinder.java:438-520 | the timestamp goes up by one and the current-pass queue is untouched; the state is `Grown` of the old one; when growth found no middle arc, nothing else changes and `cur` is `null`; otherwise `cur` is the node, the arena (with the node marked active) is augmented through the middle arc (`AugmentedBy`) and then adopted (`AdoptedFrom`), the flow grows by the bottleneck of that path, and `done` is false only when no fuel is left; sister sums and arc links are kept; the two halves are also recorded between snapshots, growth and augmentation (`Grows`) up to the state `grown`, then adoption (`Adopts`) |
| MaxFlow.MaxFlowFinder.AugmentAndAdopt | src/main/java/lee/kyuhae/john/compphoto/algorithm/maxflow/MaxFlowFinder.java:488-517 | the node is marked active and becomes `cur`; the arena is then exactly the augmented one (`AugmentedBy`) followed by adoption (`AdoptedFrom`); the current-pass queue is untouched; `done` is false only when no fuel is left; when it is true no ORPHAN is left |
| MaxFlow.MaxFlowFinder.FindMaxFlow | src/main/java/lee/kyuhae/john/compphoto/algorithm/maxflow/MaxFlowFinder.java:415-525 | returns the total flow, which is the flow before plus the bottleneck of every path augmented, each path in `paths` with its bottleneck (`Accounted`); arc links and every sister pair's capacity sum are kept; the run is recorded as the snapshot `s0` that `init` leaves (`Inits`) and the `rounds` played from it (`Rounds`), each an active-node pick (`Picks`), a growth with augmentation (`Grows`) and an adoption (`Adopts`), each starting where the one before left off and every one before the last completing its adoption; on completion both queues are empty, no node is an ORPHAN, the last round completed its adoption, and the final state is the empty pick after the rounds, with one unit of fuel spent on it (`Ended`); otherwise the fuel is spent and the state is the one the rounds left; `MaxFlowRun` gathers these facts about one run |
| MaxFlow.MaxFlowFinder.Play | src/main/java/lee/kyuhae/john/compphoto/algorithm/maxflow/MaxFlowFinder.java:420-522 | the main loop from the state `init` left: the rounds played are recorded (`Rounds`), each starting where the one before left off; the flow gains the account's sum of bottlenecks; when the pick finds no active node the queues are empty, no node is an ORPHAN and the run is `Ended`; otherwise the fuel is spent and the state is the one the rounds left |
| MaxFlow.MaxFlowFinder.PlayRound | src/main/java/lee/kyuhae/john/compphoto/algorithm/maxflow/MaxFlowFinder.java:420-521 | one turn of the main loop with one unit of fuel: with no active node the queues are empty, nothing but `next` links changes and the empty pick is recorded (`Picks`); otherwise one more round extends the record, starting where the rounds before left off, and its path joins the account |
| MaxFlow.MaxFlowFinder.PassRound | src/main/java/lee/kyuhae/john/compphoto/algorithm/maxflow/MaxFlowFinder.java:438-520 | the pass from the picked node, recorded as a round after the ones before (`Rounds`, `Reached`); `done` is the round's, and with it no ORPHAN is left |
| MaxFlow.PassIs | src/main/java/lee/kyuhae/john/compphoto/algorithm/maxflow/MaxFlowFinder.java:438-520 | what `Pass` establishes about its arrays, restated between snapshots: growth and augmentation (`Grows`), then adoption from the state between (`Adopts`) |
| MaxFlow.RoundOf | src/main/java/lee/kyuhae/john/compphoto/algorithm/maxflow/MaxFlowFinder.java:420-520 | a pick, a growth with augmentation, and an adoption with one unit of fuel less make up a round (`RoundOk`) |
| MaxFlow.RoundsAppend | src/main/java/lee/kyuhae/john/compphoto/algorithm/maxflow/MaxFlowFinder.java:421-521 | a round that starts where the rounds before left off, after a completed adoption, extends them, and the run then stands where that round ends |
| MaxFlow.AccountStep | src/main/java/lee/kyuhae/john/compphoto/algorithm/maxflow/MaxFlowFinder.java:488-517 | a pass that pushed flow along a path adds that path with its bottleneck to the account; one that did not adds nothing; either way the accounted sum grows by the flow added |
| MaxFlow.MaxFlowFinder.AccountedPass | src/main/java/lee/kyuhae/john/compphoto/algorithm/maxflow/MaxFlowFinder.java:438-520 | a pass whose augmenting path, if any, joins the account with its bottleneck: the flow minus the accounted sum is unchanged; the pass itself is recorded as by `Pass` (`Grows`, then `Adopts`) |
| MaxFlow.AccountedAll | src/main/java/lee/kyuhae/john/compphoto/algorithm/maxflow/MaxFlowFinder.java:415-525 | the `k`-th path of the account pushed the `k`-th amount: it is a tree path through its middle arc and the amount is its bottleneck |
| MaxFlow.AccountedAppend | src/main/java/lee/kyuhae/john/compphoto/algorithm/maxflow/MaxFlowFinder.java:494 | one more augmentation keeps the account and adds its bottleneck to the sum |
| Augmentation.Min | src/main/java/lee/kyuhae/john/compphoto/algorithm/maxflow/MaxFlowFinder.java:39 | the smaller of two capacities |
| Augmentation.PushKeepsSums | src/main/java/lee/kyuhae/john/compphoto/algorithm/maxflow/MaxFlowFinder.java:168-171 | moving capacity from an arc to its sister keeps every pair's sum |
| Augmentation.Walk | src/main/java/lee/kyuhae/john/compphoto/algorithm/maxflow/MaxFlowFinder.java:135-144 | the parent arcs met while walking from a node towards its tree's root |
| Augmentation.Trail | src/main/java/lee/kyuhae/john/compphoto/algorithm/maxflow/MaxFlowFinder.java:135-144 | the nodes the walk passes through, from the start to the root |
| Augmentation.BottleneckWalk | src/main/java/lee/kyuhae/john/compphoto/algorithm/maxflow/MaxFlowFinder.java:132-164 | the bottleneck after walking one tree: never above the start value, never above any tree capacity met on the walk, and equal to the start value or one of them |
| Augmentation.FindBottleneck | src/main/java/lee/kyuhae/john/compphoto/algorithm/maxflow/MaxFlowFinder.java:132-164 | the bottleneck of the path through the middle arc: the least of the middle arc's capacity, every tree capacity on either side and the two roots' terminal capacities (`IsBottleneck`) |
| Augmentation.LeastBound | src/main/java/lee/kyuhae/john/compphoto/algorithm/maxflow/MaxFlowFinder.java:132-164 | `Least` of a non-empty sequence is one of its elements and no larger than any of them |
| Augmentation.LeastIs | src/main/java/lee/kyuhae/john/compphoto/algorithm/maxflow/MaxFlowFinder.java:132-164 | a value of the sequence that no element is below is its `Least` |
| Augmentation.CapacitiesAt | src/main/java/lee/kyuhae/john/compphoto/algorithm/maxflow/MaxFlowFinder.java:135-162 | entry `k` of the capacities along a walk is the tree capacity of the walk's `k`-th arc, on the side the walk is on |
| Augmentation.PathCapacities | src/main/java/lee/kyuhae/john/compphoto/algorithm/maxflow/MaxFlowFinder.java:132-164 | the capacities along the augmenting path, middle arc first, never empty |
| Augmentation.BottleneckOfBounds | src/main/java/lee/kyuhae/john/compphoto/algorithm/maxflow/MaxFlowFinder.java:132-164 | a value no larger than the middle arc, any tree capacity on either walk or either root's terminal capacity, and equal to one of them, is the bottleneck |
| Augmentation.Push | src/main/java/lee/kyuhae/john/compphoto/algorithm/maxflow/MaxFlowFinder.java:179-183 | moves `delta` of residual capacity from an arc's sister onto the arc |
| Augmentation.PushAllKeepsLinks | src/main/java/lee/kyuhae/john/compphoto/algorithm/maxflow/MaxFlowFinder.java:173-193 | pushing along any path changes no arc's head, list link or sister |
| Augmentation.PushAllKeepsSums | src/main/java/lee/kyuhae/john/compphoto/algorithm/maxflow/MaxFlowFinder.java:173-193 | pushing along any path keeps every sister pair's capacity sum |
| Augmentation.PushWalk | src/main/java/lee/kyuhae/john/compphoto/algorithm/maxflow/MaxFlowFinder.java:173-193 | phase 2 on one tree: the arena and orphan list after pushing along the parent arcs from the start node |
| Augmentation.PushWalkArcs | src/main/java/lee/kyuhae/john/compphoto/algorithm/maxflow/MaxFlowFinder.java:173-193 | the arcs after phase 2 are the old arcs pushed along the path the walk took |
| Augmentation.PushWalkOnlyOrphans | src/main/java/lee/kyuhae/john/compphoto/algorithm/maxflow/MaxFlowFinder.java:185-192 | phase 2 changes no node except by making it an ORPHAN |
| Augmentation.PushWalkOrphansMarked | src/main/java/lee/kyuhae/john/compphoto/algorithm/maxflow/MaxFlowFinder.java:185-192 | every node phase 2 puts on the orphan list is now an ORPHAN |
| Augmentation.PushWalkOrphansListed | src/main/java/lee/kyuhae/john/compphoto/algorithm/maxflow/MaxFlowFinder.java:185-192 | every node whose parent phase 2 changed is on the orphan list it made |
| Augmentation.PushWalkFollowsWalk | src/main/java/lee/kyuhae/john/compphoto/algorithm/maxflow/MaxFlowFinder.java:173-193 | phase 2 pushes along a prefix of the walk phase 1 took |
| Augmentation.PushWalkWhole | src/main/java/lee/kyuhae/john/compphoto/algorithm/maxflow/MaxFlowFinder.java:132-193 | when the walk visits no node twice, phase 2 pushes along the whole walk of phase 1 and stops at the same root |
| Augmentation.PushStep | src/main/java/lee/kyuhae/john/compphoto/algorithm/maxflow/MaxFlowFinder.java:179-192 | one step of phase 2: the old arena pushed by `delta` along the parent arc; the node is orphaned and pushed onto the front of the list exactly when the arc's tree capacity is used up |
| Augmentation.PushAlongWalk | src/main/java/lee/kyuhae/john/compphoto/algorithm/maxflow/MaxFlowFinder.java:173-193 | the loop computes `PushWalk` from the start node |
| Augmentation.RootUpdate | src/main/java/lee/kyuhae/john/compphoto/algorithm/maxflow/MaxFlowFinder.java:195-205 | the root's terminal capacity loses `delta`; the root is orphaned when what is left is at most 0 (for the source root: nothing left; for the sink root, which takes a negative `delta`, always: see `SinkRootAlwaysOrphaned`) |
| Augmentation.SinkRootAlwaysOrphaned | src/main/java/lee/kyuhae/john/compphoto/algorithm/maxflow/MaxFlowFinder.java:229-238 | with a negative terminal capacity and a bottleneck no larger than its magnitude, the sink-root update always orphans the root and lists it, and leaves capacity behind whenever the bottleneck is smaller |
| Augmentation.PushTree | src/main/java/lee/kyuhae/john/compphoto/algorithm/maxflow/MaxFlowFinder.java:173-205 | phase 2 on one tree: `PushWalk` then `RootUpdate` at the node where it stopped |
| Augmentation.Augmented | src/main/java/lee/kyuhae/john/compphoto/algorithm/maxflow/MaxFlowFinder.java:166-239 | phase 2 as a whole: the middle arc is pushed, then the source tree and then the sink tree |
| Augmentation.PushAlongTree | src/main/java/lee/kyuhae/john/compphoto/algorithm/maxflow/MaxFlowFinder.java:173-205 | the method computes `PushTree` on the arena and the orphan list |
| Augmentation.PushBottleneck | src/main/java/lee/kyuhae/john/compphoto/algorithm/maxflow/MaxFlowFinder.java:166-239 | the method computes `Augmented` on the arena and the orphan list |
| Augmentation.AugmentedIs | src/main/java/lee/kyuhae/john/compphoto/algorithm/maxflow/MaxFlowFinder.java:166-239 | `Augmented` is the push on the middle arc, then the push along the source tree, then along the sink tree, the orphans of the sink tree listed first |
| Augmentation.AugmentArena | src/main/java/lee/kyuhae/john/compphoto/algorithm/maxflow/MaxFlowFinder.java:126-239 | the arena and orphan list become `Augmented` with a bottleneck no larger than any capacity on the path |
| Augmentation.PushTreeReparents | src/main/java/lee/kyuhae/john/compphoto/algorithm/maxflow/MaxFlowFinder.java:173-205 | phase 2 on one tree changes nodes only by orphaning them and by the root update, and lists every orphan it makes |
| Augmentation.PushTreeKeepsShape | src/main/java/lee/kyuhae/john/compphoto/algorithm/maxflow/MaxFlowFinder.java:173-205 | phase 2 on one tree keeps the network well formed |
| Augmentation.PushTreeKeepsLinks | src/main/java/lee/kyuhae/john/compphoto/algorithm/maxflow/MaxFlowFinder.java:173-205 | phase 2 on one tree changes no arc's head, list link or sister |
| Augmentation.PushTreeKeepsSums | src/main/java/lee/kyuhae/john/compphoto/algorithm/maxflow/MaxFlowFinder.java:173-205 | phase 2 on one tree keeps every sister pair's capacity sum |
| Augmentation.AugmentKeepsShape | src/main/java/lee/kyuhae/john/compphoto/algorithm/maxflow/MaxFlowFinder.java:166-239 | augmentation keeps the network well formed |
| Augmentation.AugmentKeepsLinks | src/main/java/lee/kyuhae/john/compphoto/algorithm/maxflow/MaxFlowFinder.java:166-239 | augmentation changes no arc's head, list link or sister |
| Augmentation.AugmentKeepsPairSums | src/main/java/lee/kyuhae/john/compphoto/algorithm/maxflow/MaxFlowFinder.java:166-239 | augmentation only moves capacity between an arc and its sister: every sister pair's sum is what it was |
| Augmentation.PushTreeSumsFrom | src/main/java/lee/kyuhae/john/compphoto/algorithm/maxflow/MaxFlowFinder.java:173-205 | pushing along a tree walk keeps the sister sums of any earlier arena the arcs agreed with |
| Augmentation.AugmentOrphans | src/main/java/lee/kyuhae/john/compphoto/algorithm/maxflow/MaxFlowFinder.java:166-239 | augmentation changes nodes only by orphaning them and by updating the two roots; every node whose parent it changes is an ORPHAN and on the list |
| Augmentation.AugmentKeepsLists | src/main/java/lee/kyuhae/john/compphoto/algorithm/maxflow/MaxFlowFinder.java:126-242 | after augmentation the network is well formed, every listed orphan is a node, links and pair sums are kept, and every node that is now an ORPHAN was one or is listed |
| Adoption.Origin | src/main/java/lee/kyuhae/john/compphoto/algorithm/maxflow/MaxFlowFinder.java:255-276 | the origin check from a node: follows parents until a node stamped with the current timestamp or a root (the distance) or an ORPHAN (infinite); only stamps and distances change |
| Adoption.Marks | src/main/java/lee/kyuhae/john/compphoto/algorithm/maxflow/MaxFlowFinder.java:285-289 | setting the marks along the checked path changes only stamps and distances |
| Adoption.ParentSearch | src/main/java/lee/kyuhae/john/compphoto/algorithm/maxflow/MaxFlowFinder.java:250-293 | the parent search over the arcs of an orphan's list from `a0` on, as a function: only stamps and distances change, and the arc it settles on is an arc of the network or none |
| Adoption.Activated | src/main/java/lee/kyuhae/john/compphoto/algorithm/maxflow/MaxFlowFinder.java:54-64 | `setActive` on node values: only `next` links change; the queue end stays, or an empty queue gets the node at both ends |
| Adoption.ReleaseStep | src/main/java/lee/kyuhae/john/compphoto/algorithm/maxflow/MaxFlowFinder.java:304-325 | one neighbour of a freed orphan, as a function: the node values stay walkable and keep their count, and the queue ends and listed orphans stay in range |
| Adoption.Released | src/main/java/lee/kyuhae/john/compphoto/algorithm/maxflow/MaxFlowFinder.java:303-325 | the neighbour loop of a freed orphan, as a function: the node values stay walkable and keep their count, and the queue ends and listed orphans stay in range |
| Adoption.GrowStep | src/main/java/lee/kyuhae/john/compphoto/algorithm/maxflow/MaxFlowFinder.java:441-483 | one growth step, as a function: the node values stay walkable and keep their count, and the queue ends and the middle arc stay in range |
| Adoption.Grown | src/main/java/lee/kyuhae/john/compphoto/algorithm/maxflow/MaxFlowFinder.java:438-484 | the growth loop up to the first middle arc, as a function: the node values stay walkable and keep their count, and the queue ends and the middle arc stay in range |
| Adoption.ProcessedOrphan | src/main/java/lee/kyuhae/john/compphoto/algorithm/maxflow/MaxFlowFinder.java:244-413 | processing one orphan, as a function: the node values stay walkable and keep their count, and the queue ends and listed orphans stay in range |
| Adoption.CheckOrigin | src/main/java/lee/kyuhae/john/compphoto/algorithm/maxflow/MaxFlowFinder.java:256-276 | the loop computes `Origin` |
| Adoption.SetMarks | src/main/java/lee/kyuhae/john/compphoto/algorithm/maxflow/MaxFlowFinder.java:286-289 | the loop computes `Marks` |
| Adoption.FindParent | src/main/java/lee/kyuhae/john/compphoto/algorithm/maxflow/MaxFlowFinder.java:250-293 | the loop computes `ParentSearch` over the orphan's whole list |
| Adoption.ReleaseChildren | src/main/java/lee/kyuhae/john/compphoto/algorithm/maxflow/MaxFlowFinder.java:303-325 | the loop computes `Released` |
| Adoption.GrowTree | src/main/java/lee/kyuhae/john/compphoto/algorithm/maxflow/MaxFlowFinder.java:438-484 | the loop computes `Grown` |
| Adoption.OriginatesStep | src/main/java/lee/kyuhae/john/compphoto/algorithm/maxflow/MaxFlowFinder.java:262-275 | a node whose parent is an arc reaches a terminal exactly when the arc's head does |
| Adoption.OriginSound | src/main/java/lee/kyuhae/john/compphoto/algorithm/maxflow/MaxFlowFinder.java:256-279 | a finite distance from the origin check means the node really reaches its terminal through parent arcs |
| Adoption.MarksKeepStamped | src/main/java/lee/kyuhae/john/compphoto/algorithm/maxflow/MaxFlowFinder.java:285-289 | setting the marks from a node that reaches its terminal keeps the invariant that stamped nodes reach their terminal |
| Adoption.ParentSearchSound | src/main/java/lee/kyuhae/john/compphoto/algorithm/maxflow/MaxFlowFinder.java:250-293 | the parent search keeps the stamp invariant; the arc it settles on is from the orphan's list, has residual capacity towards the orphan and leads to a node that reaches the terminal |
| Adoption.ReleasedOrphans | src/main/java/lee/kyuhae/john/compphoto/algorithm/maxflow/MaxFlowFinder.java:303-325 | every node whose parent the release changes was a child of the freed orphan, is now an ORPHAN and is on the list |
| Adoption.ReleasedComplete | src/main/java/lee/kyuhae/john/compphoto/algorithm/maxflow/MaxFlowFinder.java:303-325 | every child of the freed orphan reached by the scanned arcs ends up an ORPHAN |
| Adoption.ProcessedOrphanSound | src/main/java/lee/kyuhae/john/compphoto/algorithm/maxflow/MaxFlowFinder.java:244-413 | processing keeps the stamp invariant; an adopted orphan's parent arc comes from its list, has capacity and reaches the terminal, so the orphan does too |
| Adoption.GrownChanges | src/main/java/lee/kyuhae/john/compphoto/algorithm/maxflow/MaxFlowFinder.java:438-484 | growth changes the active node only in `next` and any other node only in `next` or by hanging it below the active node |
| Adoption.GrownMiddle | src/main/java/lee/kyuhae/john/compphoto/algorithm/maxflow/MaxFlowFinder.java:450-474 | a middle arc growth finds comes from the active node's list and leads from the source tree to the sink tree |
| Adoption.GrownSaturates | src/main/java/lee/kyuhae/john/compphoto/algorithm/maxflow/MaxFlowFinder.java:438-484 | when growth finds no middle arc, the head of every arc of the list with residual capacity away from the tree has a parent on the active node's side |
| Adoption.GrownMakesNoOrphan | src/main/java/lee/kyuhae/john/compphoto/algorithm/maxflow/MaxFlowFinder.java:438-484 | growth makes no node an ORPHAN |
| Adoption.ProcessedOrphanListed | src/main/java/lee/kyuhae/john/compphoto/algorithm/maxflow/MaxFlowFinder.java:244-413 | processing only appends to the orphan list; every ORPHAN it leaves was one already or is on the list |
| Distances.ExactStep | src/main/java/lee/kyuhae/john/compphoto/algorithm/maxflow/MaxFlowFinder.java:262-275 | a node hanging on an arc is exactly one step farther from its terminal than the arc's head |
| Distances.DepthBound | src/main/java/lee/kyuhae/john/compphoto/algorithm/maxflow/MaxFlowFinder.java:248-279 | no exact distance exceeds the number of nodes, so fewer nodes than `INFINITE_DISTANCE` keep every origin count below it |
| Distances.ExactCarries | src/main/java/lee/kyuhae/john/compphoto/algorithm/maxflow/MaxFlowFinder.java:422-517 | the stamp invariant survives any change that re-parents only nodes off the trees and stamps no node anew |
| Distances.OriginExact | src/main/java/lee/kyuhae/john/compphoto/algorithm/maxflow/MaxFlowFinder.java:256-282 | under the stamp invariant the origin check from a node counts exactly that node's distance to its terminal |
| Distances.MarksExact | src/main/java/lee/kyuhae/john/compphoto/algorithm/maxflow/MaxFlowFinder.java:285-289 | marking the checked path keeps the stamp invariant and every stamp, and stamps the start node with its exact distance |
| Distances.CheckAndMark | src/main/java/lee/kyuhae/john/compphoto/algorithm/maxflow/MaxFlowFinder.java:256-289 | the origin check succeeds exactly when the node reaches its terminal; after a success the marks stamp the node with the distance counted; both keep the stamp invariant |
| Distances.ParentSearchKeeps | src/main/java/lee/kyuhae/john/compphoto/algorithm/maxflow/MaxFlowFinder.java:250-293 | the parent search keeps the stamp invariant and every stamp it found |
| Distances.ParentSearchBest | src/main/java/lee/kyuhae/john/compphoto/algorithm/maxflow/MaxFlowFinder.java:279-283 | the arc the search settles on leads to a node stamped with the distance kept; that distance never rises; no arc is kept only when none was given and the distance is unchanged |
| Distances.ParentSearchNoRise | src/main/java/lee/kyuhae/john/compphoto/algorithm/maxflow/MaxFlowFinder.java:279-283 | the distance the parent search keeps never rises |
| Distances.ParentSearchComplete | src/main/java/lee/kyuhae/john/compphoto/algorithm/maxflow/MaxFlowFinder.java:250-293 | every parent candidate of the scanned list ends stamped, and none is nearer its terminal than the distance kept: the kept arc has least distance |
| Distances.ProcessedOrphanExact | src/main/java/lee/kyuhae/john/compphoto/algorithm/maxflow/MaxFlowFinder.java:244-327 | during an adoption stage, processing an orphan keeps the stamp invariant, and frees the orphan exactly when its list holds no parent candidate |
| Distances.ProcessedOrphanNearest | src/main/java/lee/kyuhae/john/compphoto/algorithm/maxflow/MaxFlowFinder.java:244-298 | an orphan adopted during an adoption stage is stamped with one more than its parent's distance, and no parent candidate would have put it nearer its terminal |
| Histograms.Bin | src/main/java/lee/kyuhae/john/compphoto/algorithm/histogram/Histogram.java:40 | values in `[0, 256)` fall into one of the 20 bins; 256 falls one past the table |
| Histograms.BinRoundsTowardZero | src/main/java/lee/kyuhae/john/compphoto/algorithm/histogram/Histogram.java:40 | the bin is `val / 12.8` truncated toward zero, on either side of zero |
| Histograms.Admit | src/main/java/lee/kyuhae/john/compphoto/algorithm/histogram/Histogram.java:33-41 | values in `[0, 256)` are counted; values outside `[0, 256]` raise IllegalArgument; 256 passes the check and then fails on the table index |
| Histograms.Count | src/main/java/lee/kyuhae/john/compphoto/algorithm/histogram/Histogram.java:41 | how many samples fall into a bin: never more than the samples |
| Histograms.CountsCoverSamples | src/main/java/lee/kyuhae/john/compphoto/algorithm/histogram/Histogram.java:40-42 | every counted sample lies in exactly one of the 20 bins |
| Histograms.BinsSumToTotal | src/main/java/lee/kyuhae/john/compphoto/algorithm/histogram/Histogram.java:41-42 | a bin table that counts the samples adds up to the total |
| Histograms.Frequency | src/main/java/lee/kyuhae/john/compphoto/algorithm/histogram/Histogram.java:62-65 | the relative frequency of a value's bin lies in `[0, 1]` |
| Histograms.SamplesAt | src/main/java/lee/kyuhae/john/compphoto/algorithm/histogram/Histogram.java:125-128 | entry `l` of a pixel's samples is image `l`'s value there |
| Histograms.PixelProbability | src/main/java/lee/kyuhae/john/compphoto/algorithm/histogram/Histogram.java:93-97 | the probability of a colour at a pixel, as the product of three channel frequencies, lies in `[0, 1]` |
| Histograms.SharedColourIsCertain | src/main/java/lee/kyuhae/john/compphoto/algorithm/histogram/Histogram.java:89-97 | a colour every image shows at a pixel has probability 1 |
| Histograms.UnseenColourIsImpossible | src/main/java/lee/kyuhae/john/compphoto/algorithm/histogram/Histogram.java:89-97 | a colour whose red bin no image hits has probability 0 |
| Histograms.CountedTable | src/main/java/lee/kyuhae/john/compphoto/algorithm/histogram/Histogram.java:41 | counting one more value bumps its bin and leaves the others |
| Histograms.IsPeak | src/main/java/lee/kyuhae/john/compphoto/algorithm/histogram/Histogram.java:44-46 | the peak bin holds a largest count of the table (`BumpKeepsPeak`) |
| Histograms.Tally | src/main/java/lee/kyuhae/john/compphoto/algorithm/histogram/Histogram.java:33-47 | a channel's bookkeeping: the table counts the samples, the total is their number, the peak is a largest bin (`TallyStep`, `Channel.AddValue`) |
| Histograms.BumpKeepsPeak | src/main/java/lee/kyuhae/john/compphoto/algorithm/histogram/Histogram.java:44-46 | the peak update keeps a largest bin after a bump |
| Histograms.TallyStep | src/main/java/lee/kyuhae/john/compphoto/algorithm/histogram/Histogram.java:40-46 | counting an in-range value keeps the channel bookkeeping: the table still counts the samples, the total is their number, and the peak moved as `addValue` moves it is still a largest bin |
| Histograms.Channel.constructor | src/main/java/lee/kyuhae/john/compphoto/algorithm/histogram/Histogram.java:28-31 | a new channel holds an empty, all-zero table |
| Histograms.Channel.AddValue | src/main/java/lee/kyuhae/john/compphoto/algorithm/histogram/Histogram.java:33-47 | the outcome is `Admit(val)`; when admitted, the value's bin and the total go up by one and the peak stays a largest bin; when refused, nothing changes |
| Histograms.Channel.GetProbability | src/main/java/lee/kyuhae/john/compphoto/algorithm/histogram/Histogram.java:62-65 | the relative frequency of the value's bin among the samples counted |
| Histograms.Pixel.constructor | src/main/java/lee/kyuhae/john/compphoto/algorithm/histogram/Histogram.java:68-71 | three empty channels |
| Histograms.Pixel.AddValues | src/main/java/lee/kyuhae/john/compphoto/algorithm/histogram/Histogram.java:73-81 | channels take the colour in order; the first refusal is the outcome and stops the channels after it |
| Histograms.Pixel.GetProbability | src/main/java/lee/kyuhae/john/compphoto/algorithm/histogram/Histogram.java:89-97 | the product of the three channel frequencies |
| Histograms.Create | src/main/java/lee/kyuhae/john/compphoto/algorithm/histogram/Histogram.java:100-118 | fails with IllegalArgument exactly for fewer than two images; otherwise a fresh, well-formed histogram of the stack |
| Histograms.Histogram.constructor | src/main/java/lee/kyuhae/john/compphoto/algorithm/histogram/Histogram.java:105-118 | an empty pixel table for the stack |
| Histograms.Histogram.Compute | src/main/java/lee/kyuhae/john/compphoto/algorithm/histogram/Histogram.java:120-133 | every pixel's tables describe exactly the values the stack shows there |
| Histograms.Histogram.ComputeColumn | src/main/java/lee/kyuhae/john/compphoto/algorithm/histogram/Histogram.java:121-131 | every pixel of the column is built and earlier columns stay built |
| Histograms.Histogram.ComputePixel | src/main/java/lee/kyuhae/john/compphoto/algorithm/histogram/Histogram.java:123-130 | the pixel is built from every image's value and every other built pixel stays built |
| Histograms.Histogram.Store | src/main/java/lee/kyuhae/john/compphoto/algorithm/histogram/Histogram.java:124 | the pixel goes into its row-major slot and other slots stay built |
| Histograms.Histogram.BuildPixel | src/main/java/lee/kyuhae/john/compphoto/algorithm/histogram/Histogram.java:124-129 | the pixel's tables hold exactly the values the stack shows there |
| Histograms.Histogram.GetPixel | src/main/java/lee/kyuhae/john/compphoto/algorithm/histogram/Histogram.java:135-138 | after `compute`, the pixel at `row * width + col` is the one built for (`col`, `row`) |
| Costs.DataCost | src/main/java/lee/kyuhae/john/compphoto/algorithm/histogram/MLOEnergyMinimizer.java:43-61 | one minus the colour's probability: defined exactly for a label naming an image (IndexOutOfBounds otherwise) and within `[0, 1]` |
| Costs.SharedColourCostsNothing | src/main/java/lee/kyuhae/john/compphoto/algorithm/histogram/MLOEnergyMinimizer.java:43-61 | a label whose colour every image shows at a pixel costs nothing |
| Costs.DataPenalty | src/main/java/lee/kyuhae/john/compphoto/algorithm/histogram/MLOEnergyMinimizer.java:63-71 | the data cost inside the grid, `INFINITE_CAPACITY` outside it; always within `[0, INFINITE_CAPACITY]` |
| Costs.SquaredDistance | src/main/java/lee/kyuhae/john/compphoto/algorithm/histogram/EnergyMinimizer.java:114-118 | the squared colour difference is never negative |
| Costs.SquaredDistanceSymmetric | src/main/java/lee/kyuhae/john/compphoto/algorithm/histogram/EnergyMinimizer.java:114-118 | the squared difference does not depend on the order of the two images |
| Costs.SquaredDistanceZero | src/main/java/lee/kyuhae/john/compphoto/algorithm/histogram/EnergyMinimizer.java:114-118 | the squared difference is zero exactly when the two images agree on every channel |
| Costs.BaseInteraction | src/main/java/lee/kyuhae/john/compphoto/algorithm/histogram/EnergyMinimizer.java:94-137 | the seam cost lies within `[0, INFINITE_CAPACITY]` |
| Costs.Interaction | src/main/java/lee/kyuhae/john/compphoto/algorithm/histogram/MLOEnergyMinimizer.java:73-83 | defined exactly when the base cost is; zero or at least the Potts constant; within `[0, POTTS + 0.1 * INFINITE_CAPACITY]` |
| Costs.InteractionOutcome | src/main/java/lee/kyuhae/john/compphoto/algorithm/histogram/EnergyMinimizer.java:97-107 | IllegalState exactly for a label beyond the last image; defined exactly for two labels naming images or two equal labels; equal labels cost nothing |
| Costs.InteractionSymmetric | src/main/java/lee/kyuhae/john/compphoto/algorithm/histogram/EnergyMinimizer.java:94-137 | swapping the two points together with their labels does not change the cost |
| Costs.InteractionZeroIffSameColours | src/main/java/lee/kyuhae/john/compphoto/algorithm/histogram/MLOEnergyMinimizer.java:78-82 | two different images cost nothing at a seam exactly when they agree in colour at both points |
| Expansion.Pixel | src/main/java/lee/kyuhae/john/compphoto/algorithm/histogram/EnergyMinimizer.java:145-147 | the pixel at a row-major index lies in the grid and has that index |
| Expansion.Seam | src/main/java/lee/kyuhae/john/compphoto/algorithm/histogram/EnergyMinimizer.java:154-161 | the seam cost to the neighbour in one direction, nothing for a neighbour off the grid (`SeamDefined`, `UniformSeamIsFree`) |
| Expansion.PixelEnergy | src/main/java/lee/kyuhae/john/compphoto/algorithm/histogram/EnergyMinimizer.java:151-161 | a pixel's data cost then its two seams, the first failure being the outcome (`PixelEnergySplits`, `PixelEnergyNeedsLabel`) |
| Expansion.EnergyUpTo | src/main/java/lee/kyuhae/john/compphoto/algorithm/histogram/EnergyMinimizer.java:143-167 | the energy of the first `k` pixels in row-major order (`EnergyUpToDefined`, `EnergyUpToNeedsLabels`, `FailureSticks`) |
| Expansion.Energy | src/main/java/lee/kyuhae/john/compphoto/algorithm/histogram/EnergyMinimizer.java:143-167 | the energy of a labelling, computed by `BVZComputeEnergy` (`EnergyDefinedIffLabelsValid`, `EnergyNonNegative`, `EnergySplits`) |
| Expansion.Mlo | src/main/java/lee/kyuhae/john/compphoto/algorithm/histogram/MLOEnergyMinimizer.java:63-83 | the cost model of the maximum-likelihood minimiser has the stack's dimensions and image count |
| Expansion.MloAdmissible | src/main/java/lee/kyuhae/john/compphoto/algorithm/histogram/MLOEnergyMinimizer.java:43-83 | the data and interaction costs are defined exactly for labels naming images, are never negative and are zero for equal labels |
| Expansion.Then | src/main/java/lee/kyuhae/john/compphoto/algorithm/histogram/EnergyMinimizer.java:143-167 | the first failure is the outcome, otherwise the sum |
| Expansion.PixelEnergyNeedsLabel | src/main/java/lee/kyuhae/john/compphoto/algorithm/histogram/EnergyMinimizer.java:151-152 | a pixel whose energy is defined has a label naming an image |
| Expansion.SeamDefined | src/main/java/lee/kyuhae/john/compphoto/algorithm/histogram/EnergyMinimizer.java:154-161 | with valid labels every seam cost is defined |
| Expansion.EnergyUpToNeedsLabels | src/main/java/lee/kyuhae/john/compphoto/algorithm/histogram/EnergyMinimizer.java:143-167 | the energy of a prefix is defined only if each of its labels names an image |
| Expansion.EnergyUpToDefined | src/main/java/lee/kyuhae/john/compphoto/algorithm/histogram/EnergyMinimizer.java:143-167 | with valid labels the energy of every prefix is defined |
| Expansion.FailureSticks | src/main/java/lee/kyuhae/john/compphoto/algorithm/histogram/EnergyMinimizer.java:143-167 | once a prefix fails, every longer prefix fails the same way |
| Expansion.EnergyDefinedIffLabelsValid | src/main/java/lee/kyuhae/john/compphoto/algorithm/histogram/EnergyMinimizer.java:143-167 | the energy is defined exactly when every label names an image |
| Expansion.EnergyNonNegative | src/main/java/lee/kyuhae/john/compphoto/algorithm/histogram/EnergyMinimizer.java:143-167 | no energy is negative |
| Expansion.PixelEnergySplits | src/main/java/lee/kyuhae/john/compphoto/algorithm/histogram/EnergyMinimizer.java:151-161 | a pixel's energy is its data cost plus its two seam costs |
| Expansion.EnergySplits | src/main/java/lee/kyuhae/john/compphoto/algorithm/histogram/EnergyMinimizer.java:143-167 | the energy is the sum of the data costs plus the sum of the seam costs |
| Expansion.UniformSeamIsFree | src/main/java/lee/kyuhae/john/compphoto/algorithm/histogram/EnergyMinimizer.java:105-107 | a seam between two pixels with the same label costs nothing |
| Expansion.UniformSeamsAreFree | src/main/java/lee/kyuhae/john/compphoto/algorithm/histogram/EnergyMinimizer.java:105-107 | all seams of a labelling from one image cost nothing |
| Expansion.UniformEnergyIsDataCost | src/main/java/lee/kyuhae/john/compphoto/algorithm/histogram/EnergyMinimizer.java:143-167 | a labelling from one image costs exactly its data costs |
| Expansion.IsNode | src/main/java/lee/kyuhae/john/compphoto/algorithm/histogram/EnergyMinimizer.java:139-141 | a real node is neither sentinel and has a non-negative index |
| Expansion.NodeOfPixel | src/main/java/lee/kyuhae/john/compphoto/algorithm/histogram/EnergyMinimizer.java:185-193 | a pixel labelled `a` gets the ACTIVE sentinel, any other its own new node carrying the pixel's index |
| Expansion.NodesFree | src/main/java/lee/kyuhae/john/compphoto/algorithm/histogram/EnergyMinimizer.java:179-199 | every node the data loop builds is free and has no arcs |
| Expansion.NodesBuilt | src/main/java/lee/kyuhae/john/compphoto/algorithm/histogram/EnergyMinimizer.java:179-199 | the node array after the data loop: the ACTIVE sentinel for pixels labelled `a`, their own fresh real node for the others |
| Expansion.SlotsDistinct | src/main/java/lee/kyuhae/john/compphoto/algorithm/histogram/EnergyMinimizer.java:193 | distinct pixels not labelled `a` have distinct nodes |
| Expansion.Slots | src/main/java/lee/kyuhae/john/compphoto/algorithm/histogram/EnergyMinimizer.java:173 | the node array has one entry per pixel |
| Expansion.SlotOf | src/main/java/lee/kyuhae/john/compphoto/algorithm/histogram/EnergyMinimizer.java:185-196 | the node-array entry of a pixel: the ACTIVE sentinel when it is labelled `a`, its own node otherwise (`NodeOfPixel`, `SlotsDistinct`) |
| Expansion.NodesUpTo | src/main/java/lee/kyuhae/john/compphoto/algorithm/histogram/EnergyMinimizer.java:179-199 | the arena after the data loop's first `k` pixels: the two sentinels and one fresh free node per pixel not labelled `a` (`NodesFree`, `NodesBuilt`) |
| Expansion.InitialPenalty | src/main/java/lee/kyuhae/john/compphoto/algorithm/histogram/EnergyMinimizer.java:185-196 | a pixel's penalty after the data loop: the data cost of `a` less that of its label, or 0 (`DataLoopStep`, `DataLoopDone`) |
| Expansion.FoldPair | src/main/java/lee/kyuhae/john/compphoto/algorithm/histogram/EnergyMinimizer.java:226-245 | the fold is exact: the shared parts plus the rest give `p00`; the shared parts plus the new capacities give `p0A` and `pA0`; all parts are non-negative; the rest is what the triangle inequality leaves over |
| Expansion.Joined | src/main/java/lee/kyuhae/john/compphoto/algorithm/histogram/EnergyMinimizer.java:226-255 | two real nodes: the pair folded into energy, penalties and one edge; sizes are kept |
| Expansion.Charged | src/main/java/lee/kyuhae/john/compphoto/algorithm/histogram/EnergyMinimizer.java:256-265 | one real node: the cost is taken into the energy and off its penalty; nodes and arcs are unchanged |
| Expansion.PairStep | src/main/java/lee/kyuhae/john/compphoto/algorithm/histogram/EnergyMinimizer.java:211-266 | one pixel and one neighbour; sizes are kept |
| Expansion.PixelStep | src/main/java/lee/kyuhae/john/compphoto/algorithm/histogram/EnergyMinimizer.java:211-267 | one pixel with each of its neighbours; sizes are kept |
| Expansion.Interactions | src/main/java/lee/kyuhae/john/compphoto/algorithm/histogram/EnergyMinimizer.java:203-269 | the state after the first `k` pixels keeps sizes and readiness |
| Expansion.Folded | src/main/java/lee/kyuhae/john/compphoto/algorithm/histogram/EnergyMinimizer.java:203-269 | the state the interaction loop hands to the terminal loop (`InteractionsExact`, `ExpansionAccounting`, `FoldedFree`) |
| Expansion.PairStepKeepsNodes | src/main/java/lee/kyuhae/john/compphoto/algorithm/histogram/EnergyMinimizer.java:226-266 | a pair step changes no node except for its adjacency list |
| Expansion.InteractionsKeepNodes | src/main/java/lee/kyuhae/john/compphoto/algorithm/histogram/EnergyMinimizer.java:203-269 | the interaction stage changes no node except for adjacency lists |
| Expansion.PairStepExact | src/main/java/lee/kyuhae/john/compphoto/algorithm/histogram/EnergyMinimizer.java:226-266 | each pair step adds its seam cost to the energy, less the rest the graph cannot represent |
| Expansion.PixelStepExact | src/main/java/lee/kyuhae/john/compphoto/algorithm/histogram/EnergyMinimizer.java:211-267 | each pixel step adds its seam costs, less their rests |
| Expansion.InteractionsExact | src/main/java/lee/kyuhae/john/compphoto/algorithm/histogram/EnergyMinimizer.java:203-269 | the energy the interaction stage reaches plus the rests equals the starting energy plus the seam costs |
| Expansion.PairLeftNonNegative | src/main/java/lee/kyuhae/john/compphoto/algorithm/histogram/EnergyMinimizer.java:247-249 | a rest is never negative |
| Expansion.LeftSumNonNegative | src/main/java/lee/kyuhae/john/compphoto/algorithm/histogram/EnergyMinimizer.java:203-269 | the rests are never negative, so the stage never overstates the energy |
| Expansion.MetricPairLeavesNothing | src/main/java/lee/kyuhae/john/compphoto/algorithm/histogram/EnergyMinimizer.java:231-249 | a pair that satisfies the triangle inequality leaves no rest |
| Expansion.MetricLeavesNothing | src/main/java/lee/kyuhae/john/compphoto/algorithm/histogram/EnergyMinimizer.java:203-269 | when every pair satisfies the triangle inequality there is no rest |
| Expansion.Built | src/main/java/lee/kyuhae/john/compphoto/algorithm/histogram/EnergyMinimizer.java:179-199 | the state the data loop hands on is ready for the interaction loop |
| Expansion.ExpansionAccounting | src/main/java/lee/kyuhae/john/compphoto/algorithm/histogram/EnergyMinimizer.java:179-269 | the energy reached when the graph is built, plus the rests it cannot represent, equals the energy of the current labelling |
| Expansion.Shift | src/main/java/lee/kyuhae/john/compphoto/algorithm/histogram/EnergyMinimizer.java:279-297 | what the terminal loop adds to the energy is never positive |
| Minimizers.Around | src/main/java/lee/kyuhae/john/compphoto/algorithm/histogram/MLOEnergyMinimizer.java:129-155 | the four neighbours that `getCurrentMaxInteractionPenalty` visits |
| Minimizers.Minimizer.constructor | src/main/java/lee/kyuhae/john/compphoto/algorithm/histogram/MLOEnergyMinimizer.java:34-41 | the minimiser holds the stack and the labels, its histograms are computed, and the expansion side is set from the flag |
| Minimizers.Minimizer.Create | src/main/java/lee/kyuhae/john/compphoto/algorithm/histogram/EnergyMinimizer.java:70-79 | fails with IndexOutOfBounds on an empty stack and IllegalArgument on one image; otherwise a valid minimiser |
| Minimizers.Minimizer.SetAlphaSink | src/main/java/lee/kyuhae/john/compphoto/algorithm/histogram/EnergyMinimizer.java:81-90 | with the flag the label being expanded is the SINK side, otherwise the SOURCE side; the two terminals differ |
| Minimizers.Minimizer.GetDataCost | src/main/java/lee/kyuhae/john/compphoto/algorithm/histogram/MLOEnergyMinimizer.java:43-61 | the method computes `DataCost` |
| Minimizers.Minimizer.ColourProbability | src/main/java/lee/kyuhae/john/compphoto/algorithm/histogram/MLOEnergyMinimizer.java:49-51 | the probability the pixel's histogram gives equals the probability defined by the stack's samples |
| Minimizers.Minimizer.DataPenaltyAt | src/main/java/lee/kyuhae/john/compphoto/algorithm/histogram/MLOEnergyMinimizer.java:63-71 | the method computes `DataPenalty` |
| Minimizers.Minimizer.SquaredDifference | src/main/java/lee/kyuhae/john/compphoto/algorithm/histogram/EnergyMinimizer.java:114-118 | the channel loop computes `SquaredDistance` |
| Minimizers.Minimizer.BaseInteractionPenaltyAt | src/main/java/lee/kyuhae/john/compphoto/algorithm/histogram/EnergyMinimizer.java:94-137 | the method computes `BaseInteraction` |
| Minimizers.Minimizer.InteractionPenaltyAt | src/main/java/lee/kyuhae/john/compphoto/algorithm/histogram/MLOEnergyMinimizer.java:73-83 | the method computes `Interaction` |
| Minimizers.Minimizer.AddPixelEnergy | src/main/java/lee/kyuhae/john/compphoto/algorithm/histogram/EnergyMinimizer.java:147-162 | adds the pixel's energy to the running sum; the first failure is the outcome |
| Minimizers.Minimizer.ComputeEnergy | src/main/java/lee/kyuhae/john/compphoto/algorithm/histogram/EnergyMinimizer.java:143-167 | returns `Energy` of the current labels: the sum over the pixels of the data cost and the seam costs to the in-grid neighbours, or the first failure |
| Minimizers.Minimizer.EnergyOf | src/main/java/lee/kyuhae/john/compphoto/algorithm/histogram/EnergyMinimizer.java:143-167 | the row-major pixel loop returns `Energy` of the labels: after `i` pixels the running sum is the energy of those pixels (`EnergyUpTo`), and a failing cost ends the loop with that failure as the energy |
| Minimizers.Minimizer.AddPixelEnergyUpTo | src/main/java/lee/kyuhae/john/compphoto/algorithm/histogram/EnergyMinimizer.java:147-162 | one pixel of the energy loop: the energy of the first `i + 1` pixels from that of the first `i`; a failure, or the last pixel, is already the energy of the whole labelling |
| Expansion.EnergyFails | src/main/java/lee/kyuhae/john/compphoto/algorithm/histogram/EnergyMinimizer.java:143-167 | once the energy of a prefix of the pixels fails, that failure is the energy of the whole labelling |
| Minimizers.Minimizer.BuildNodes | src/main/java/lee/kyuhae/john/compphoto/algorithm/histogram/EnergyMinimizer.java:173-199 | the node array is `Slots`; energy, penalties and network are `Built` |
| Minimizers.Minimizer.FillNodes | src/main/java/lee/kyuhae/john/compphoto/algorithm/histogram/EnergyMinimizer.java:178-198 | after the row-major pass over every pixel, the network, energy, node slots and penalties are the data-loop prefixes taken over the whole labelling |
| Minimizers.Minimizer.FillNode | src/main/java/lee/kyuhae/john/compphoto/algorithm/histogram/EnergyMinimizer.java:178-198 | one pixel of the data loop: the network, energy, node slots and penalties for the first `i` pixels become those for the first `i + 1` |
| Minimizers.Minimizer.AddPixelNode | src/main/java/lee/kyuhae/john/compphoto/algorithm/histogram/EnergyMinimizer.java:182-197 | one pass writes only pixel `i`'s node entry and penalty, adds its data cost and appends its node |
| Minimizers.Minimizer.LinkPair | src/main/java/lee/kyuhae/john/compphoto/algorithm/histogram/EnergyMinimizer.java:226-255 | the state becomes `Joined` of the old state |
| Minimizers.Minimizer.AddPair | src/main/java/lee/kyuhae/john/compphoto/algorithm/histogram/EnergyMinimizer.java:211-266 | the state becomes `PairStep` of the old state |
| Minimizers.Minimizer.AddPixelPairs | src/main/java/lee/kyuhae/john/compphoto/algorithm/histogram/EnergyMinimizer.java:211-267 | the state becomes `PixelStep` of the old state |
| Minimizers.Minimizer.AddInteractions | src/main/java/lee/kyuhae/john/compphoto/algorithm/histogram/EnergyMinimizer.java:203-269 | the state becomes `Interactions` over every pixel |
| Minimizers.Minimizer.SetTerminals | src/main/java/lee/kyuhae/john/compphoto/algorithm/histogram/EnergyMinimizer.java:273-298 | the nodes become `Terminals`; the energy grows by `Shift`; flow and arcs are unchanged |
| Minimizers.Minimizer.Relabel | src/main/java/lee/kyuhae/john/compphoto/algorithm/histogram/EnergyMinimizer.java:304-313 | the labels become `Relabelled`: a pixel whose real node is on the `termB` side of the cut takes label `a` |
| Minimizers.Minimizer.BuildGraph | src/main/java/lee/kyuhae/john/compphoto/algorithm/histogram/EnergyMinimizer.java:173-269 | the node array is `Slots`; energy, penalties and network are `Folded` |
| Minimizers.Minimizer.FlowCut | src/main/java/lee/kyuhae/john/compphoto/algorithm/histogram/EnergyMinimizer.java:169-301 | the flow and the final arena `cut` come from a run of `FindMaxFlow` on the graph built for `a` with its terminal capacities set (`MaxFlowCut`, `FlowStart`); the energy is `ExpansionEnergy` of the current labels and that flow; the node slots are `Slots` and index into the cut |
| Minimizers.Minimizer.NewFinder | src/main/java/lee/kyuhae/john/compphoto/algorithm/histogram/EnergyMinimizer.java:169-299 | the finder `BVZExpand` builds for label `a` is fresh and in the state `FlowStart` describes: the folded network with each real node's terminal capacity set, empty queues and orphan list, timestamp and flow 0; no node is an ORPHAN; the energy is what that graph accounts for before any flow |
| Minimizers.MaxFlowCutSums | src/main/java/lee/kyuhae/john/compphoto/algorithm/histogram/EnergyMinimizer.java:299-301 | the flow of a `MaxFlowCut` is the sum of the bottlenecks of the paths its run augmented, each the bottleneck of its path (`Accounted`), and the cut has the graph's number of nodes |
| Minimizers.Minimizer.FlowValue | src/main/java/lee/kyuhae/john/compphoto/algorithm/histogram/EnergyMinimizer.java:301 | the run of `findMaxFlow` on the finder is a `MaxFlowRun` from the finder's state before the call to its state after it, and the value returned is the flow that run ends with; the graph keeps its number of nodes |
| Minimizers.ExpansionEnergy | src/main/java/lee/kyuhae/john/compphoto/algorithm/histogram/EnergyMinimizer.java:169-301 | the energy `BVZExpand` reports for a flow: what the built graph accounts for, plus the terminal shift, plus the flow (`FlowCut`, `Expand`) |
| Minimizers.ExpansionStepMoves | src/main/java/lee/kyuhae/john/compphoto/algorithm/histogram/EnergyMinimizer.java:304-316 | an expansion never raises the energy, keeps the labels valid, only gives pixels the label it tried, and leaves the labels alone when the energy stays |
| Minimizers.Minimizer.Expand | src/main/java/lee/kyuhae/john/compphoto/algorithm/histogram/EnergyMinimizer.java:169-317 | one `ExpansionStep`: the flow and cut come from a run of `FindMaxFlow` on the graph built for `a` (`MaxFlowCut`); with `e` the energy of the cut, returns `min(e, energyOld)`; the labels become `Relabelled` by the cut exactly when `e < energyOld` and stay otherwise; they stay valid |
| Minimizers.Minimizer.Compute | src/main/java/lee/kyuhae/john/compphoto/algorithm/histogram/MLOEnergyMinimizer.java:85-109 | fails exactly when a label names no image, and then changes nothing; otherwise every expansion is an `ExpansionStep` from the labels and energy the previous one left, starting at the old labels and ending at the new ones, with its flow and cut coming from a run of `FindMaxFlow` on that expansion's graph; label `j % count` is tried at expansion `j`; energies never rise; at most `MAX_ITERATION` rounds run; every expansion from the `count`-th on follows a change among the `count` before it; an early stop follows `count` unchanged expansions in a row |
| Minimizers.Minimizer.Round | src/main/java/lee/kyuhae/john/compphoto/algorithm/histogram/MLOEnergyMinimizer.java:92-107 | one round: each expansion run extends the trace and the history, from the labels and energy the round started with; the round runs `count` expansions unless `count` in a row left the energy unchanged |
| Minimizers.Minimizer.Step | src/main/java/lee/kyuhae/john/compphoto/algorithm/histogram/MLOEnergyMinimizer.java:93-100 | one expansion of the round: the energy and label tried join the history, the unchanged-expansion count grows by one when the energy stayed and drops to 0 otherwise, and the run from the first labels goes on (`Run`) |
| Minimizers.Minimizer.Iterate | src/main/java/lee/kyuhae/john/compphoto/algorithm/histogram/MLOEnergyMinimizer.java:91-108 | the `MAX_ITERATION` rounds from valid labels: the run from the starting labels and energy is recorded (`Run`); at most `MAX_ITERATION * count` expansions run, and all of them unless `count` in a row left the energy unchanged |
| Minimizers.RunDone | src/main/java/lee/kyuhae/john/compphoto/algorithm/histogram/MLOEnergyMinimizer.java:85-109 | a finished run has the shape `compute` promises: a `Trace` from the first to the last labels, energies that never rise, label `j % count` at expansion `j`, every expansion from the `count`-th on following a change among the `count` before it, and an early stop only after `count` unchanged expansions |
| Minimizers.RunStep | src/main/java/lee/kyuhae/john/compphoto/algorithm/histogram/MLOEnergyMinimizer.java:92-100 | an expansion run while fewer than `count` expansions in a row left the energy unchanged extends the history and the trace |
| Minimizers.TraceStep | src/main/java/lee/kyuhae/john/compphoto/algorithm/histogram/MLOEnergyMinimizer.java:94-100 | one more expansion from the last labels and energy extends the trace |
| Minimizers.MovedStep | src/main/java/lee/kyuhae/john/compphoto/algorithm/histogram/MLOEnergyMinimizer.java:92-100 | an expansion run after fewer than `count` unchanged ones follows a change among the `count` expansions before it |
| Minimizers.Minimizer.GetCurrentDataPenalty | src/main/java/lee/kyuhae/john/compphoto/algorithm/histogram/MLOEnergyMinimizer.java:111-120 | IllegalArgument exactly off the grid; otherwise the data cost of the current label, within `[0, MAX_PROBABILITY]` for valid labels |
| Minimizers.Minimizer.SeamTo | src/main/java/lee/kyuhae/john/compphoto/algorithm/histogram/MLOEnergyMinimizer.java:131-133 | the interaction cost between a point and its neighbour under the current labels |
| Minimizers.Minimizer.MaxSeamStep | src/main/java/lee/kyuhae/john/compphoto/algorithm/histogram/MLOEnergyMinimizer.java:129-155 | one neighbour test folds the neighbour's cost into the running maximum |
| Minimizers.Minimizer.GetCurrentMaxInteractionPenalty | src/main/java/lee/kyuhae/john/compphoto/algorithm/histogram/MLOEnergyMinimizer.java:122-163 | IllegalArgument off the grid; otherwise `MaxSeam` over the in-grid neighbours |
| Minimizers.MloCharges | src/main/java/lee/kyuhae/john/compphoto/algorithm/histogram/MLOEnergyMinimizer.java:73-83 | the cost model charges its scene's interaction costs |
| Minimizers.Terminals | src/main/java/lee/kyuhae/john/compphoto/algorithm/histogram/EnergyMinimizer.java:276-298 | the terminal loop changes only residual capacities |
| Minimizers.TerminalsKeepParents | src/main/java/lee/kyuhae/john/compphoto/algorithm/histogram/EnergyMinimizer.java:276-298 | setting terminal capacities leaves every free node free |
| Minimizers.TerminalsCapacities | src/main/java/lee/kyuhae/john/compphoto/algorithm/histogram/EnergyMinimizer.java:279-295 | every real node holds the signed terminal capacity of its own pixel's penalty, on the side `alphaSink` names |
| Minimizers.FoldedFree | src/main/java/lee/kyuhae/john/compphoto/algorithm/histogram/EnergyMinimizer.java:203-272 | every node handed to the max-flow finder is free |
| Minimizers.Relabelled | src/main/java/lee/kyuhae/john/compphoto/algorithm/histogram/EnergyMinimizer.java:304-313 | the relabelled labelling has the same length |
| Minimizers.RelabelStep | src/main/java/lee/kyuhae/john/compphoto/algorithm/histogram/EnergyMinimizer.java:305-312 | one pass changes at most pixel `k`'s label, to `a`, when its real node is on the `termB` side |
| Minimizers.RelabelKeepsValid | src/main/java/lee/kyuhae/john/compphoto/algorithm/histogram/EnergyMinimizer.java:304-313 | a move only gives pixels label `a` and keeps those that already have it, so a valid labelling stays valid |
| Minimizers.HistoryStep | src/main/java/lee/kyuhae/john/compphoto/algorithm/histogram/MLOEnergyMinimizer.java:92-100 | an expansion that does not raise the energy extends the history: the count of unchanged expansions grows by one or drops to zero, and the new expansion, run while that count was below `count`, follows a change among the `count` before it |
| Minimizers.HistoryDone | src/main/java/lee/kyuhae/john/compphoto/algorithm/histogram/MLOEnergyMinimizer.java:91-108 | when `compute` stops early, the last `count` expansions left the energy unchanged |
| Minimizers.RoundRobin | src/main/java/lee/kyuhae/john/compphoto/algorithm/histogram/MLOEnergyMinimizer.java:92 | expansion number `i * count + step` tries label `step` |
| Minimizers.MaxOf | src/main/java/lee/kyuhae/john/compphoto/algorithm/histogram/MLOEnergyMinimizer.java:131 | `Math.max`: at least both arguments and equal to one of them |
| Minimizers.MaxSeamIsMaximum | src/main/java/lee/kyuhae/john/compphoto/algorithm/histogram/MLOEnergyMinimizer.java:122-157 | defined exactly when every in-grid neighbour's cost is; then an upper bound of those costs, at least `Double.MIN_VALUE`, and either `Double.MIN_VALUE` or one of the costs |
| Minimizers.MaxSeamFailureSticks | src/main/java/lee/kyuhae/john/compphoto/algorithm/histogram/MLOEnergyMinimizer.java:129-155 | once a neighbour's cost fails, the failure is the outcome |
| Minimizers.MaxSeamDefined | src/main/java/lee/kyuhae/john/compphoto/algorithm/histogram/MLOEnergyMinimizer.java:122-157 | with valid labels the largest interaction cost around an in-grid point is defined |
| Minimizers.ProbabilityOfSamples | src/main/java/lee/kyuhae/john/compphoto/algorithm/histogram/Histogram.java:89-97 | the probability a pixel's tables give is the one its samples define |
| Minimizers.DataLoopStep | src/main/java/lee/kyuhae/john/compphoto/algorithm/histogram/EnergyMinimizer.java:182-197 | one pass of the data loop writes the entries of pixel `k` and no other |
| Minimizers.DataLoopDone | src/main/java/lee/kyuhae/john/compphoto/algorithm/histogram/EnergyMinimizer.java:179-199 | after the last pixel the arrays are those of `Built` |

## Left out

- Floating point: `float` and `double` are modelled as exact reals. Rounding is not modelled, and neither is the truncation of `12.8f` in `BIN_SIZE` (the bin is computed exactly as `val * 20 / 256` rounded toward zero). `Math.sqrt` is an arbitrary non-negative function given with the scene.
- Integer widths: `short` labels and `int`/`long` indices are unbounded integers. A label array that overflows `short` is not modelled.
- Image access: OpenCV `Mat` reads are the `sample` function of the stack. A read outside the image (which OpenCV answers with `null`) is not modelled, and the channel values are taken to be the 0–255 integers the `(int)` casts produce.
- Logging, including the `penalty00` threshold check, which only logs. `computeVariance` is also left out: its result is never read by the optimiser.
- The two-argument constructors that pass `ALPHA_EXPANSION_FLAG_DEFAULT`: the model takes the flag as a parameter.
- `ImageProcessor`, `Runner`, `LabelColor` and `RGBVector` (reading files, drawing the montage) are not part of this model.
- Minimizers.Minimizer.FlowCut: the maximum-flow loop is bounded by a `fuel` parameter. The flow and the cut are proved to be those a run of `FindMaxFlow` leaves on the graph built for the label (`MaxFlowCut`), with the properties `FindMaxFlow` promises. The model does not prove that `findMaxFlow` terminates or that the flow it finds is maximum; as written it need not be (see the `setActive` behaviour above). It therefore does not prove that the energy `BVZExpand` returns equals the energy of the new labelling; that needs the min-cut/max-flow theorem for this graph.
- MaxFlow.MaxFlowFinder.FindMaxFlow: a run that uses up its `fuel` stops early and reports what it has.
- MaxFlow.MaxFlowFinder.Adopt: the adoption loop is bounded by the same `fuel`.
- MaxFlow.MaxFlowFinder.NextActive: the order of the nodes it returns is promised only for queues that are lists (`Queues`): distinct nodes, each linked to the next, the last linked to itself or to nothing, and a node on both queues closing each. As written, `setActive` links the new node behind `queueLast[1]` without advancing it, so the next-pass queue can share nodes with the current one in other shapes. The model does not prove that the finder keeps its queues in the `Queues` form; without it, only the weaker promises hold (a node returned has a parent, `null` means both queues are empty, only `next` links change).
- MaxFlow.MaxFlowFinder.PickActive: its queue-order promise carries the same `Queues` condition as `NextActive`.
- Minimizers.Minimizer.Expand: stated against `ExpansionEnergy` of the cut found, not against `Energy` of the new labels, for the reason above.
- Minimizers.Minimizer.Compute: the expansions run with a `fuel` bound passed on to `FindMaxFlow`.
- Minimizers.Minimizer.Compute: each flow and cut in its trace is proved to come from a run of `FindMaxFlow` on that expansion's graph (`MaxFlowCut`). They are not proved to be a maximum flow and a minimum cut, for the reason given for `FlowCut`.
- MaxFlow.MaxFlowFinder.ProcessOrphan: its distance promises are stated for an adoption stage (`AdoptionStage`). That means every node stamped with the current timestamp carries its exact distance, and there are fewer nodes than `INFINITE_DISTANCE`. `ProcessedOrphanExact` shows that each processed orphan keeps this invariant. The model does not prove that the invariant holds when `findMaxFlow` starts an adoption stage, where the timestamp has just been incremented. Nor does it carry the invariant through the `Adopt` loop.
- Augmentation.Walk and Adoption.Origin: a parent chain that meets a `Free` or `Orphan` node stops there. `Walk` treats that node as a root and `Origin` returns `INFINITE_DISTANCE`. Java would dereference a `null` parent, or the head of the `ORPHAN` sentinel in `augment`. Under the search-tree invariant no path from a tree node meets such a node, so this case does not arise.
- Parent walks in `augment`, the origin check and mark setting are bounded by the number of nodes. A search tree has no longer chain.
- The static sentinels `TERMINAL` and `ORPHAN` are the `Terminal` and `Orphan` cases of `Parent`. `ACTIVE_NODE` and `NON_PRESENT_NODE` are arena slots 0 and 1.
- During graph building, the labels and the node array are read as value snapshots (`labels[..]`, a `seq` of slots). Aliasing between the finder's nodes and the minimiser's arrays is not modelled.
- The nested `row`/`col` loops of `BVZComputeEnergy` and `BVZExpand` are single row-major loops over the pixel index. The pixel order is the same.
- Expansion.Cost: a cost that failed counts as 0 in the sums. The sums are only used with valid labels, where no cost fails.
- The `histogram == null` check in `getDataCost` is unreachable once the constructor has run, and is left out.
