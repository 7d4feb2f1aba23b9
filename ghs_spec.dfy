/**
 * The local state of one GHS vertex as a value, and one transition function
 * per handler of node.py. The class GhsNode.Node is proved to move its
 * fields exactly as these functions say; the lemmas in GhsProperties state
 * what the transitions mean.
 */
module GhsSpec {
  import opened Utils

  /** sys.maxsize on a 64-bit interpreter (node.py:5): the best weight that goes with "no best edge". */
  const INF: int := 0x7FFF_FFFF_FFFF_FFFF

  /** One call of `edges[edge].write(msg, pl)`: the message `msg` with payload `pl` sent on local edge `edge`. */
  datatype Send = Send(edge: int, msg: Message, pl: seq<Value>)

  /**
   * Everything a handler may change: the node's fields, the status of each
   * incident edge, the sends made on edges (`outbox`, oldest first) and the
   * envelopes the node put back into its own mailbox (`selfQueue`).
   */
  datatype NodeVars = NodeVars(
    state: State,
    name: int,
    level: int,
    father: int,
    rec: int,
    testEdge: int,
    bestEdge: int,
    bestWeight: int,
    completed: bool,
    statuses: seq<EdgeStatus>,
    outbox: seq<Send>,
    selfQueue: seq<Envelope>)

  /**
   * The invariant of a node with `n` edges: every edge index it stores is a
   * real index or -1, and "no best edge" goes with best weight INF, which
   * bounds every best weight.
   */
  predicate Inv(v: NodeVars, n: nat)
  {
    |v.statuses| == n &&
    -1 <= v.father < n && -1 <= v.testEdge < n && -1 <= v.bestEdge < n &&
    v.bestWeight <= INF && (v.bestEdge == -1 ==> v.bestWeight == INF)
  }

  /** The state the constructor produces, over edges whose statuses are `statuses`. */
  function Initial(name: int, statuses: seq<EdgeStatus>): (v: NodeVars)
    ensures Inv(v, |statuses|)
  {
    NodeVars(Sleep, name, 0, -1, 0, -1, -1, INF, false, statuses, [], [])
  }

  /**
   * `__edge_stub`: index -1 means the node's own mailbox, where the envelope
   * carries `sender`; any other index is a send on that edge.
   */
  function Emit(v: NodeVars, i: int, msg: Message, pl: seq<Value>, sender: int): NodeVars
  {
    if i == -1 then v.(selfQueue := v.selfQueue + [Envelope(sender, msg, pl)])
    else v.(outbox := v.outbox + [Send(i, msg, pl)])
  }

  /** The running minimum of the scans in `__test` and `wakeup`. */
  datatype Pick = Pick(wt: int, index: int)

  /**
   * The scan over the first `n` edges, keeping edge j when `ok[j]` and the
   * current minimum is the sentinel -1 or is larger than `w[j]`.
   */
  function ScanMin(w: seq<int>, ok: seq<bool>, n: nat): (p: Pick)
    requires |ok| == |w| && n <= |w|
    ensures -1 <= p.index < n
    ensures p.index == -1 ==> p.wt == -1
    ensures p.index != -1 ==> ok[p.index] && p.wt == w[p.index]
  {
    if n == 0 then Pick(-1, -1)
    else
      var p := ScanMin(w, ok, n - 1);
      if ok[n - 1] && (p.wt == -1 || p.wt > w[n - 1]) then Pick(w[n - 1], n - 1) else p
  }

  function BasicMask(st: seq<EdgeStatus>): seq<bool>
  {
    seq(|st|, j requires 0 <= j < |st| => st[j] == Basic)
  }

  function AllEdges(n: nat): seq<bool>
  {
    seq(n, j => true)
  }

  /** The number of Branch edges among the first `n`, other than `father`. */
  function CountChildren(st: seq<EdgeStatus>, father: int, n: nat): (c: nat)
    requires n <= |st|
    ensures c <= n
  {
    if n == 0 then 0
    else CountChildren(st, father, n - 1) + (if st[n - 1] == Branch && n - 1 != father then 1 else 0)
  }

  /**
   * The sends of the percolation loop of `procecss_initiate` over the first
   * `n` edges: one `test` with payload `pl` on every Branch edge other than
   * `except`, in index order.
   */
  function Forward(st: seq<EdgeStatus>, except: int, pl: seq<Value>, n: nat): (r: seq<Send>)
    requires n <= |st|
    ensures |r| == CountChildren(st, except, n)
  {
    if n == 0 then []
    else
      Forward(st, except, pl, n - 1) +
      (if st[n - 1] == Branch && n - 1 != except then [Send(n - 1, Test, pl)] else [])
  }

  /** `__report`. */
  function ReportStep(v: NodeVars): NodeVars
    requires -1 <= v.father < |v.statuses|
  {
    if v.rec == CountChildren(v.statuses, v.father, |v.statuses|) && v.testEdge == -1 then
      Emit(v.(state := Found), v.father, Report, [Num(v.bestWeight)], v.father)
    else v
  }

  /** `__test`. */
  function TestStep(v: NodeVars, w: seq<int>): NodeVars
    requires |w| == |v.statuses| && -1 <= v.father < |w|
  {
    var k := ScanMin(w, BasicMask(v.statuses), |w|).index;
    if k != -1 then Emit(v.(testEdge := k), k, Test, [Num(v.level), Num(v.name)], k)
    else ReportStep(v.(testEdge := -1))
  }

  /** The edge a status read or write at `best_edge` touches: index -1 is the last edge, as in Python. */
  function BestSlot(v: NodeVars): int
    requires 0 < |v.statuses| && -1 <= v.bestEdge < |v.statuses|
  {
    if v.bestEdge == -1 then |v.statuses| - 1 else v.bestEdge
  }

  /** `__changeroot`. */
  function ChangeRootStep(v: NodeVars): NodeVars
    requires 0 < |v.statuses| && -1 <= v.bestEdge < |v.statuses|
  {
    var j := BestSlot(v);
    if v.statuses[j] == Branch then Emit(v, v.bestEdge, ChangeRoot, [], v.bestEdge)
    else Emit(v, v.bestEdge, Connect, [Num(v.level)], v.bestEdge).(statuses := v.statuses[j := Branch])
  }

  /** `wakeup`, on a node with at least one edge. */
  function WakeUpStep(v: NodeVars, w: seq<int>): NodeVars
    requires 0 < |w| == |v.statuses|
  {
    var k := ScanMin(w, AllEdges(|w|), |w|).index;
    Emit(v.(level := 0, state := Found, rec := 0, statuses := v.statuses[k := Branch]), k, Connect, [Num(0)], k)
  }

  /** `process_connect` for a connect of level `level` arriving on edge `i`. */
  function ConnectStep(v: NodeVars, w: seq<int>, ids: seq<int>, i: int, level: int): NodeVars
    requires |w| == |ids| == |v.statuses| && 0 <= i < |w|
  {
    if level < v.level then
      Emit(v.(statuses := v.statuses[i := Branch]), i, Initiate, [Num(v.level), Num(v.name), St(v.state)], i)
    else if v.statuses[i] == Basic then
      Emit(v, -1, Connect, [Num(level)], ids[i])
    else
      Emit(v, i, Initiate, [Num(v.level + 1), Num(w[i]), St(Find)], i)
  }

  /**
   * `procecss_initiate`. The percolation sends `test` with the three-element
   * initiate payload, which is what node.py:190 does (its comment says initiate).
   */
  function InitiateStep(v: NodeVars, w: seq<int>, i: int, level: int, name: int, state: State): NodeVars
    requires |w| == |v.statuses| && 0 <= i < |w|
  {
    var v1 := v.(name := name, state := state, level := level, father := i, bestEdge := -1, bestWeight := INF);
    var v2 := v1.(outbox := v1.outbox + Forward(v1.statuses, i, [Num(level), Num(name), St(state)], |w|));
    if state == Find then TestStep(v2.(rec := 0), w) else v2
  }

  /** `procecss_test` for a test of level `level` and fragment `name` arriving on edge `i`. */
  function TestMsgStep(v: NodeVars, w: seq<int>, ids: seq<int>, i: int, level: int, name: int): NodeVars
    requires |w| == |ids| == |v.statuses| && 0 <= i < |w| && -1 <= v.father < |w|
  {
    if level > v.level then
      Emit(v, -1, Test, [Num(level), Num(name)], ids[i])
    else if name == v.name then
      var v1 := if v.statuses[i] == Basic then v.(statuses := v.statuses[i := EdgeStatus.Reject]) else v;
      if i != v.testEdge then Emit(v1, i, Message.Reject, [], i) else TestStep(v1, w)
    else
      Emit(v, i, Accept, [], i)
  }

  /** `process_accept` for an accept arriving on edge `i`. */
  function AcceptStep(v: NodeVars, w: seq<int>, i: int): NodeVars
    requires |w| == |v.statuses| && 0 <= i < |w| && -1 <= v.father < |w|
  {
    var v1 := v.(testEdge := -1);
    var v2 := if w[i] < v1.bestWeight then v1.(bestWeight := w[i], bestEdge := i) else v1;
    ReportStep(v2)
  }

  /** `process_reject` for a reject arriving on edge `i`. */
  function RejectStep(v: NodeVars, w: seq<int>, i: int): NodeVars
    requires |w| == |v.statuses| && 0 <= i < |w| && -1 <= v.father < |w|
  {
    var v1 := if v.statuses[i] == Basic then v.(statuses := v.statuses[i := EdgeStatus.Reject]) else v;
    TestStep(v1, w)
  }

  /**
   * `process_report` for a report of `weight` arriving on edge `i`. It does
   * not run `__report` after counting a child's report, as node.py:258-263
   * is written; completion is the abstract flag `completed`.
   */
  function ReportMsgStep(v: NodeVars, i: int, weight: int): NodeVars
    requires 0 <= i < |v.statuses| && -1 <= v.bestEdge < |v.statuses|
  {
    if i != v.father then
      var v1 := if weight < v.bestWeight then v.(bestWeight := weight, bestEdge := i) else v;
      v1.(rec := v1.rec + 1)
    else if v.state == Find then
      Emit(v, -1, Report, [Num(weight)], i)
    else if weight > v.bestWeight then
      ChangeRootStep(v)
    else if weight == INF && v.bestWeight == INF then
      v.(completed := true)
    else
      v
  }
}
