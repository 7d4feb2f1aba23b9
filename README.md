# Distributed GHS minimum spanning tree: a Dafny model of one vertex and of the reference Kruskal

This project models the core of a Python implementation of the
Gallager–Humblet–Spira (GHS) distributed minimum-spanning-tree protocol. It
also models the sequential Kruskal computation the repository uses to
check the weight of the tree the protocol builds.

- `utils.dfy` (module `Utils`) covers `modules/utils.py`. It holds the three
  closed enumerations with their integer codes: node state, edge status and
  message kind. It also holds the message payload values and the envelope a
  mailbox carries. Finally, it has the `Edge` object through which a vertex
  talks to one neighbour: an id, a weight, a mutable status, and the peer's
  mailbox that `write` appends to.
- `ghs_spec.dfy` (module `GhsSpec`) states one pure transition function for
  each handler of `node.py`. A transition acts on a snapshot `NodeVars` of
  everything a handler may change: the node's fields, the status of each
  incident edge, the sends made on edges (the outbox) and the envelopes put
  back into the vertex's own mailbox (the self-queue). It also states the
  node invariant `Inv`.
- `ghs_properties.dfy` (module `GhsProperties`) proves what those
  transitions mean:
  - the scans pick a lightest eligible edge;
  - the initiate broadcast reaches exactly the children that the report
    barrier counts;
  - every handler keeps the invariant;
  - edge statuses only move from Basic to Reject or to Branch, and sends are
    only ever appended;
  - each handler keeps its case-by-case promise.
- `node.dfy` (module `GhsNode`) is the `Node` class. It has the source's
  fields, its incident `Edge` objects, and the handlers as methods that
  update the fields and the edge statuses in place. Each handler is proved
  to leave the node exactly where the matching transition function of
  `GhsSpec` says, and to keep the invariant.
- `kruskals.dfy` (module `Kruskal`) covers the rest:
  - union-find over a parent array, where `get_parent` is recursive and
    `union` links one root under another;
  - sorting the edges by weight in place;
  - the greedy selection loop with its early stop at `num_nodes - 1` edges;
  - the sum of the selected weights.

  The loop is proved against a tail-recursive specification `Select`, and
  the lemmas state what the selection is.

How the Python text is read:

- The handlers run one at a time on one vertex. A send on edge `i` is
  recorded as `Send(i, msg, payload)`. Re-enqueueing into the vertex's own
  mailbox (`__edge_stub` with index -1) is recorded as
  `Envelope(sender, msg, payload)`.
- Several accesses in the Python text could not run as written. The model
  follows what each one evidently means:
  - The `weight` and `status` instance attributes of `Edge` shadow the
    getter methods of the same names, so `edge.weight()` and
    `edge.status()` would call a number or an enum member. They are modelled
    as reading the stored weight and status. `node.py:106` reads the
    attribute directly, which is the same thing.
  - `node.py:158,209` call the integer attribute `id` as a method. This is
    modelled as `get_id`.
  - The default arguments `sender=self.id` (`modules/utils.py:69`) and
    `sender_edge=edge_index` (`node.py:63`) cannot refer to those names at
    definition time. They are read as "the edge's own id" and "the
    `edge_index` argument".
  - `write` puts into an unbound global `queue` (`modules/utils.py:79`).
    This is read as the edge's own `queue`.
- Python's `edges[-1]` is the last edge. So `__changeroot` with
  `best_edge == -1` reads and marks the status of the last edge, while its
  send goes to the vertex's own mailbox with sender -1. The model keeps
  both.
- The scans of `__test` and `wakeup` use `min_wt == -1` as "no candidate
  yet". The minimality lemmas therefore require that no eligible weight is -1.
  `GhsProperties.ScanMinSentinel` shows what happens otherwise.
- Where the code and its own comments differ, the model follows the code:
  - The broadcast in `procecss_initiate` sends `test` with the three-element
    initiate payload (`node.py:190`).
  - A child's report in `process_report` only updates the best weight and
    `rec`, and does not run `__report` (`node.py:258-263`). A node whose
    own probe ended before its last child reported then never reports to
    its father (`GhsProperties.LastChildReportSendsNothing`).
  - A lower-level connect makes its edge Branch even when it is Reject
    (`node.py:149-151`), although rejected edges are meant to stay
    rejected (`GhsProperties.LowConnectRevivesRejected`).
  - A deferred report carries the edge index as its sender, where deferred
    connects and tests carry the edge id.
- On the four-node example graph — edges (0,1,10), (0,2,6), (0,3,5),
  (1,3,15), (2,3,4) — the source's computation selects (2,3,4), (0,3,5)
  and (0,1,10), for a total of 19. The edge (0,2,6) would close the cycle
  0–3–2, so it is skipped. `Kruskal.WorkedExample` and
  `Kruskal.WorkedExampleRun` prove this value.

## Model

| member | source | states |
|---|---|---|
| Utils.StateOfCode | modules/utils.py:5-10 | looking a state up by value succeeds exactly for the codes 1..3 and gives back the state with that code |
| Utils.EdgeStatusOfCode | modules/utils.py:12-17 | looking an edge status up by value succeeds exactly for 1..3 and inverts the code |
| Utils.MessageOfCode | modules/utils.py:19-27 | looking a message kind up by value succeeds exactly for 1..7 and inverts the code |
| Utils.CodesDistinct | modules/utils.py:5-27 | within each enumeration the codes are pairwise distinct and each member is found again from its code |
| Utils.Mailbox.Put | modules/utils.py:78-79 | a mailbox is a FIFO queue: putting appends exactly one envelope at the end |
| Utils.Edge.constructor | modules/utils.py:31-35 | a new edge keeps its id, weight and peer mailbox and starts Basic |
| Utils.Edge.GetId | modules/utils.py:37-43 | returns the edge id |
| Utils.Edge.Weight | modules/utils.py:45-51 | returns the stored weight |
| Utils.Edge.Status | modules/utils.py:53-59 | returns the stored status |
| Utils.Edge.ChangeStatus | modules/utils.py:61-67 | the status becomes the given one |
| Utils.Edge.Write | modules/utils.py:69-79 | the peer's mailbox gains exactly one envelope `{id, msg, pl}` stamped with this edge's id, and the status is untouched |
| GhsSpec.Initial | node.py:17-31 | the freshly built node (Sleep, level 0, father/test/best edge -1, best weight INF, rec 0) satisfies the node invariant |
| GhsSpec.ScanMin | node.py:82-88 | the scan yields -1 or the index of an eligible edge together with that edge's weight |
| GhsSpec.CountChildren | node.py:103-107 | the number of sons counted is at most the number of edges |
| GhsSpec.Forward | node.py:184-190 | the broadcast sends exactly as many messages as the node has children (Branch edges other than the arriving one) |
| GhsSpec.Emit | node.py:59-77 | `__edge_stub`: index -1 appends an envelope with the given sender to the own mailbox; any other index appends one send on that edge |
| GhsSpec.ReportStep | node.py:100-112 | `__report`: when rec equals the number of sons and no probe is pending, enter Found and send `report([best_weight])` to the father; otherwise no change |
| GhsSpec.TestStep | node.py:79-98 | `__test`: record the scan's lightest Basic edge as test edge and send it `test([level, name])`; with none, clear the test edge and run `__report` |
| GhsSpec.BestSlot | node.py:116-121 | the edge a status access at `best_edge` touches: index -1 is the last edge, as Python's negative index |
| GhsSpec.ChangeRootStep | node.py:114-121 | `__changeroot`: a Branch best edge gets `changeroot`; otherwise the best edge gets `connect([level])` and its slot becomes Branch |
| GhsSpec.WakeUpStep | node.py:123-139 | `wakeup`: level 0, Found, rec 0, the lightest edge becomes Branch and gets `connect([0])` |
| GhsSpec.ConnectStep | node.py:141-163 | `process_connect`: absorbs a lower level (edge Branch, `initiate([level, name, state])`); defers over a Basic edge with the edge id as sender; otherwise answers `initiate([level + 1, weight, find])` |
| GhsSpec.InitiateStep | node.py:165-195 | `procecss_initiate`: adopt level, name and state with the arriving edge as father and no best edge, broadcast to the children, and when the state is Find reset rec and run `__test` |
| GhsSpec.TestMsgStep | node.py:197-221 | `procecss_test`: defer a higher level with the edge id as sender; same name: a Basic edge becomes Reject, then `reject` or, on the test edge, `__test`; other name: `accept` |
| GhsSpec.AcceptStep | node.py:223-237 | `process_accept`: clear the test edge, take the edge as best on a strict improvement, run `__report` |
| GhsSpec.RejectStep | node.py:239-248 | `process_reject`: a Basic edge becomes Reject, then `__test` |
| GhsSpec.ReportMsgStep | node.py:250-275 | `process_report`: a child's report counts and may improve the best; the father's report is deferred while in Find, triggers `__changeroot` when heavier, completion when both are INF |
| GhsProperties.ForwardSends | node.py:184-190 | every send of the broadcast is a `test` carrying the initiate payload, on a Branch edge other than the arriving one |
| GhsProperties.ScanMinEmpty | node.py:82-88 | the scan finds no edge exactly when no edge is eligible |
| GhsProperties.ScanMinIsMinimum | node.py:82-88 | with no eligible weight equal to -1, the scan returns the first eligible edge of least weight |
| GhsProperties.ScanMinSentinel | node.py:82-86 | an eligible first edge of weight -1 is overwritten by the next eligible edge, however heavy |
| GhsProperties.ForwardReachesChildren | node.py:184-190 | edge j gets a forwarded `test` exactly when it is Branch and not the edge the initiate came from |
| GhsProperties.CountChildrenIsSize | node.py:103-107 | the loop count equals the size of the set of Branch edges other than the father |
| GhsProperties.BarrierMatchesPercolation | node.py:103-110 | the barrier waits for as many reports as the initiate broadcast sent `test`s |
| GhsProperties.ReportKeepsInv | node.py:100-112 | `__report` keeps the node invariant and touches no edge status |
| GhsProperties.TestKeepsInv | node.py:79-98 | `__test` keeps the node invariant and touches no edge status |
| GhsProperties.ChangeRootKeepsInv | node.py:114-121 | `__changeroot` keeps the node invariant |
| GhsProperties.WakeUpKeepsInv | node.py:123-139 | `wakeup` keeps the node invariant |
| GhsProperties.ConnectKeepsInv | node.py:141-163 | `process_connect` keeps the node invariant |
| GhsProperties.InitiateKeepsInv | node.py:165-195 | `procecss_initiate` keeps the node invariant |
| GhsProperties.TestMsgKeepsInv | node.py:197-221 | `procecss_test` keeps the node invariant |
| GhsProperties.AcceptKeepsInv | node.py:223-237 | `process_accept` keeps the node invariant |
| GhsProperties.RejectKeepsInv | node.py:239-248 | `process_reject` keeps the node invariant |
| GhsProperties.ReportMsgKeepsInv | node.py:250-275 | `process_report` keeps the node invariant |
| GhsProperties.ExtendsTransitive | node.py:49-77 | "statuses advanced, sends only appended" composes over successive handlers |
| GhsProperties.AdvancesMonotone | node.py:49-57 | once Branch an edge stays Branch, and Reject is only ever written over Basic |
| GhsProperties.EmitExtends | node.py:59-77 | `__edge_stub` only appends, to the outbox or to the own mailbox |
| GhsProperties.ReportExtends | node.py:100-112 | `__report` only appends sends and leaves statuses |
| GhsProperties.TestExtends | node.py:79-98 | `__test` only appends sends and leaves statuses |
| GhsProperties.WakeUpExtends | node.py:123-139 | `wakeup` only advances statuses and appends sends |
| GhsProperties.ChangeRootExtends | node.py:114-121 | `__changeroot` only advances statuses and appends sends |
| GhsProperties.ConnectExtends | node.py:141-163 | `process_connect` only advances statuses and appends sends |
| GhsProperties.InitiateExtends | node.py:165-195 | `procecss_initiate` only advances statuses and appends sends |
| GhsProperties.TestMsgExtends | node.py:197-221 | `procecss_test` only advances statuses (Basic to Reject) and appends sends |
| GhsProperties.AcceptExtends | node.py:223-237 | `process_accept` only appends sends |
| GhsProperties.RejectExtends | node.py:239-248 | `process_reject` only advances statuses and appends sends |
| GhsProperties.ReportMsgExtends | node.py:250-275 | `process_report` only advances statuses and appends sends |
| GhsProperties.WakeUpJoinsLightestEdge | node.py:123-139 | `wakeup` marks a lightest edge Branch, resets level and rec, enters Found and sends exactly `connect([0])` on that edge |
| GhsProperties.TestProbesLightestBasic | node.py:79-98 | with a Basic edge left, `__test` records a lightest Basic edge as test edge and sends it `test([level, name])`, changing nothing else; with none left it clears the test edge and runs `__report` |
| GhsProperties.ReportBarrier | node.py:100-112 | `__report` fires exactly when rec equals the number of sons and no probe is pending; it then enters Found and sends `report([best_weight])` towards the father; otherwise nothing changes |
| GhsProperties.ConnectCases | node.py:141-163 | a lower-level connect is absorbed (edge Branch, `initiate([level, name, state])`); a connect over a Basic edge is re-enqueued with the edge id as sender and nothing else changes; otherwise `initiate([level + 1, edge weight, find])` answers it |
| GhsProperties.TestMsgCases | node.py:197-221 | a higher-level test is re-enqueued unchanged; the same fragment name turns a Basic edge Reject and answers `reject`, or re-tests when it is the probed edge; another name is answered by `accept` |
| GhsProperties.AcceptImproves | node.py:223-237 | accept clears the probe, takes the edge as best only on a strict improvement, then runs `__report`; the best weight never grows |
| GhsProperties.RejectCases | node.py:239-248 | reject turns the edge Reject only when it is still Basic, then runs `__test` |
| GhsProperties.ReportMsgCases | node.py:250-275 | a child's report adds one to rec and lowers the best only on a strict improvement; the father's report is re-enqueued while searching; otherwise it triggers `__changeroot` exactly when heavier than the own best, completion exactly when both are INF, and nothing else |
| GhsProperties.LastChildReportSendsNothing | node.py:258-263 | counting the last child's report leaves the barrier condition true, yet the handler sends nothing; `__report` would have sent `report` to the father |
| GhsProperties.LowConnectRevivesRejected | node.py:149-151 | a lower-level connect over a Reject edge makes it Branch |
| GhsProperties.BestWeightNeverGrows | node.py:79-139 | `wakeup`, `__test` and `__changeroot` never raise the best weight |
| GhsProperties.BestWeightNeverGrowsOnMessages | node.py:141-275 | `process_connect`, `process_accept` and `process_report` never raise the best weight |
| GhsProperties.BestWeightNeverGrowsOnProbes | node.py:197-248 | `procecss_test` and `process_reject` never raise the best weight |
| GhsProperties.ChangeRootCases | node.py:114-121 | with a real best edge, `__changeroot` forwards `changeroot` over it when it is Branch, or else sends `connect([level])` over it and makes it Branch |
| GhsNode.Node.constructor | node.py:9-31 | a new node is asleep at level 0 with no father, test or best edge, best weight INF, and empty outbox and self-queue, and satisfies the invariant |
| GhsNode.Node.ChangeEdgeStatus | node.py:49-57 | exactly the status of edge i changes |
| GhsNode.Node.EdgeStub | node.py:59-77 | index -1 appends to the own mailbox with the given sender; any other index appends one send on that edge; nothing else changes |
| GhsNode.Node.MinBasicEdge | node.py:82-88 | the loop computes the scan over Basic edges (first Basic edge of least weight, or -1) |
| GhsNode.Node.Test | node.py:79-98 | the node moves exactly as `TestStep` and keeps the invariant |
| GhsNode.Node.CountSons | node.py:103-107 | the loop counts the Branch edges other than the father |
| GhsNode.Node.Report | node.py:100-112 | the node moves exactly as `ReportStep` and keeps the invariant |
| GhsNode.Node.ChangeRoot | node.py:114-121 | the node moves exactly as `ChangeRootStep`, including Python's last-edge access for index -1 |
| GhsNode.Node.MinWeightEdge | node.py:126-131 | the loop computes the scan over all edges (the first edge of least weight) |
| GhsNode.Node.WakeUp | node.py:123-139 | the node moves exactly as `WakeUpStep` and keeps the invariant |
| GhsNode.Node.ProcessConnect | node.py:141-163 | the node moves exactly as `ConnectStep` and keeps the invariant |
| GhsNode.Node.Percolate | node.py:184-190 | the outbox gains exactly the broadcast `Forward` and the own mailbox is untouched |
| GhsNode.Node.PercolateOne | node.py:185-190 | one round sends `test` with the payload on edge i exactly when it is Branch and not the arriving edge |
| GhsNode.Node.ProcessInitiate | node.py:165-195 | the node moves exactly as `InitiateStep` and keeps the invariant |
| GhsNode.Node.Adopt | node.py:175-181 | the node takes the level, name and state of the initiate, the arriving edge as father, and clears the best edge and weight; nothing else changes |
| GhsNode.Node.ProcessTest | node.py:197-221 | the node moves exactly as `TestMsgStep` and keeps the invariant |
| GhsNode.Node.ProcessAccept | node.py:223-237 | the node moves exactly as `AcceptStep` and keeps the invariant |
| GhsNode.Node.ProcessReject | node.py:239-248 | the node moves exactly as `RejectStep` and keeps the invariant |
| GhsNode.Node.ProcessReport | node.py:250-275 | the node moves exactly as `ReportMsgStep` and keeps the invariant |
| GhsNode.Node.ProcessChangeRoot | node.py:277-279 | the node moves exactly as `ChangeRootStep` and keeps the invariant |
| Kruskal.GetParent | modules/kruskals.py:19-30 | on a forest, the result is a root (its own parent) reached from the node by following parent links |
| Kruskal.LinkKeepsForest | modules/kruskals.py:32-39 | linking one root under another root keeps the parent array a forest (so `get_parent` still terminates) |
| Kruskal.LinkRedirects | modules/kruskals.py:19-39 | after `union(a, b)` every node whose root was a has root b, and every other node keeps its root |
| Kruskal.Select | modules/kruskals.py:53-65 | the selection keeps a forest over the same nodes, extends the given selection, and adds only input edges |
| Kruskal.SelectTradesRoots | modules/kruskals.py:53-65 | every selected edge removes exactly one root: selected edges plus roots stays constant |
| Kruskal.MstFitsInForest | modules/kruskals.py:53-65 | on at least one node, at most `num_nodes - 1` edges are ever selected |
| Kruskal.SelectKeepsJoined | modules/kruskals.py:53-65 | the loop only merges components: two nodes with one root keep one root |
| Kruskal.SelectJoinsSelected | modules/kruskals.py:53-65 | every selected edge ends inside one component |
| Kruskal.SelectJoinsInput | modules/kruskals.py:53-65 | when the loop does not stop early, both endpoints of every input edge end under one root |
| Kruskal.AllRootsTrack | modules/kruskals.py:16-17 | in the initial array, where every node is its own root, two nodes share a root exactly when the empty selection connects them, that is, when they are equal |
| Kruskal.LinkTracks | modules/kruskals.py:59-63 | selecting an edge between two roots and linking them keeps "same root" equal to "connected by the selected edges" |
| Kruskal.SelectTracks | modules/kruskals.py:53-65 | the loop keeps "same root" equal to "connected by the selected edges", and no selected edge joins two nodes already connected |
| Kruskal.SelectSpansForest | modules/kruskals.py:41-65 | from the initial array the selection is acyclic, its connectivity is exactly the final union-find partition, and, unless stopped at the limit, it connects the endpoints of every input edge |
| Kruskal.SumWeights | modules/kruskals.py:67-71 | the total weight of the selected edges, summed front to back as the source's loop does |
| Kruskal.SwapStep | modules/kruskals.py:51 | one swap of the insertion pass moves the light edge left and keeps the multiset of edges |
| Kruskal.InsertAt | modules/kruskals.py:51 | one insertion pass extends the sorted prefix by one edge, is a permutation, and leaves the rest alone |
| Kruskal.SortByWeight | modules/kruskals.py:50-51 | the edges end up sorted by weight and are a permutation of the input |
| Kruskal.SortedUnique | modules/kruskals.py:51 | with pairwise distinct weights, two orders of the same edges that are both sorted are equal |
| Kruskal.PermutationKeepsEndpoints | modules/kruskals.py:51-57 | sorting keeps every endpoint a valid node |
| Kruskal.Kruskals.constructor | modules/kruskals.py:10-17 | `parent` has `num_nodes` entries and every node is its own root |
| Kruskal.Kruskals.Union | modules/kruskals.py:32-39 | only `parent[parent1]` changes, to `parent2`, and the array stays a forest |
| Kruskal.Kruskals.SelectEdges | modules/kruskals.py:53-65 | the loop leaves the parent array and the selected list exactly where `Select` says |
| Kruskal.Kruskals.GetMst | modules/kruskals.py:41-71 | the edges are sorted in place as a permutation, and the result is the sum of the weights of the edges `Select` picks from them |
| Kruskal.ExampleSortsUniquely | modules/kruskals.py:51 | the example graph has exactly one order sorted by weight |
| Kruskal.WorkedExample | modules/kruskals.py:53-71 | on the four-node example the selection is (2,3,4), (0,3,5), (0,1,10) with total 19 |
| Kruskal.WorkedExampleRun | modules/kruskals.py:10-71 | `get_mst` on the four-node example, given in input order, returns 19 |

## Left out

- Process start-up and the event loop are not part of this model: reading
  the mailbox, dispatching on message kind, and `start_operation`. The same
  holds for main.py (graph parsing, wiring edges to mailboxes, writing the
  output), generate.py, plot.py, and the `__main__` block of kruskals.py.
  The handlers are modelled as operations a dispatcher calls one at a time.
- Concurrency, message delivery between processes and the timing of
  re-enqueued messages are left out. Sends and re-enqueues are recorded in
  order in `outbox` and `selfQueue`. No property of the whole distributed
  run is proved (termination, the final tree being the MST); the lemmas
  are about a single vertex.
- `__complete` is not defined in node.py. Its call is modelled as setting
  the flag `completed`; the stopping of the other processes is not modelled.
- `__change_level` and `__change_state` are plain field assignments in the
  model.
- Weights, fragment names and the Kruskal sum are floats in the source and
  integers here. INF is sys.maxsize of a 64-bit interpreter.
- GhsNode.Node.WakeUp, GhsNode.Node.ChangeRoot and
  GhsNode.Node.ProcessChangeRoot require at least one edge. On a node without edges the source indexes an empty list and fails.
- GhsProperties.ScanMinIsMinimum, GhsProperties.WakeUpJoinsLightestEdge and
  GhsProperties.TestProbesLightestBasic require that no edge they scan (every
  edge, or every Basic edge) has weight -1, because
  the scans use -1 as "no candidate yet".
- Kruskal.Kruskals.GetMst requires every endpoint to be a node index in
  range. The source fails, or wraps around with a negative index, when it
  is not.
- Kruskal.SortByWeight does not state stability. Python's sort is stable;
  the insertion sort here is too, but only sortedness and permutation are
  proved. When weights repeat, the selection can therefore depend on the
  input order; with distinct weights it cannot (Kruskal.SortedUnique).
- Kruskal.GetMst does not state that the selected tree has least weight
  among spanning forests. What is proved is that the selection never
  closes a cycle and connects the endpoints of every input edge
  (Kruskal.SelectSpansForest), that it has at most `num_nodes - 1` edges
  (Kruskal.MstFitsInForest), and that the result is its weight.
- The rank that makes `parent` a forest is ghost. The source keeps no rank
  and performs no union by rank or path compression, and neither does the
  model.
