/**
 * What the transitions of GhsSpec guarantee: the scan selects a minimum, the
 * initiate percolation reaches exactly the children the report barrier
 * counts, each handler keeps the node invariant, statuses only ever move
 * Basic to Reject or to Branch, sends and deferrals are appends, and the
 * handler-by-handler promises of node.py.
 */
module GhsProperties {
  import opened Utils
  import opened GhsSpec

  /** The scan comes back empty exactly when no edge is eligible. */
  lemma {:induction false} ScanMinEmpty(w: seq<int>, ok: seq<bool>, n: nat)
    requires |ok| == |w| && n <= |w|
    ensures ScanMin(w, ok, n).index == -1 <==> forall j :: 0 <= j < n ==> !ok[j]
  {
    if n > 0 {
      ScanMinEmpty(w, ok, n - 1);
    }
  }

  /**
   * With no eligible weight equal to the sentinel -1, the scan keeps the
   * first eligible edge of least weight.
   */
  lemma {:induction false} ScanMinIsMinimum(w: seq<int>, ok: seq<bool>, n: nat)
    requires |ok| == |w| && n <= |w|
    requires forall j :: 0 <= j < n && ok[j] ==> w[j] != -1
    ensures var p := ScanMin(w, ok, n);
      p.index != -1 ==>
        (forall j :: 0 <= j < n && ok[j] ==> w[p.index] <= w[j]) &&
        (forall j :: 0 <= j < p.index && ok[j] ==> w[p.index] < w[j])
  {
    if n > 0 {
      ScanMinIsMinimum(w, ok, n - 1);
      ScanMinEmpty(w, ok, n - 1);
    }
  }

  /**
   * The sentinel at work: a first eligible edge of weight -1 is dropped for
   * the next eligible edge, however heavy.
   */
  lemma ScanMinSentinel(w: seq<int>, ok: seq<bool>)
    requires |w| == |ok| >= 2 && ok[0] && ok[1] && w[0] == -1
    ensures ScanMin(w, ok, 2) == Pick(w[1], 1)
  {
  }

  /** Each send of the broadcast is a `test` with the initiate payload on a Branch edge other than `except`. */
  lemma {:induction false} ForwardSends(st: seq<EdgeStatus>, except: int, pl: seq<Value>, n: nat)
    requires n <= |st|
    ensures forall k :: 0 <= k < |Forward(st, except, pl, n)| ==>
      var s := Forward(st, except, pl, n)[k];
      s.msg == Test && s.pl == pl && 0 <= s.edge < n && s.edge != except && st[s.edge] == Branch
  {
    if n > 0 {
      ForwardSends(st, except, pl, n - 1);
    }
  }

  /** Every child counted by the report barrier receives one forwarded initiate, and nobody else does. */
  lemma {:induction false} ForwardReachesChildren(st: seq<EdgeStatus>, except: int, pl: seq<Value>, n: nat)
    requires n <= |st|
    ensures forall j :: 0 <= j < n ==>
      (Send(j, Test, pl) in Forward(st, except, pl, n) <==> st[j] == Branch && j != except)
  {
    if n > 0 {
      ForwardReachesChildren(st, except, pl, n - 1);
      ForwardSends(st, except, pl, n);
      var r := Forward(st, except, pl, n);
      forall j | 0 <= j < n
        ensures Send(j, Test, pl) in r <==> st[j] == Branch && j != except
      {
        if Send(j, Test, pl) in r {
          var k :| 0 <= k < |r| && r[k] == Send(j, Test, pl);
        }
        if j < n - 1 {
          assert Send(j, Test, pl) in Forward(st, except, pl, n - 1) ==> Send(j, Test, pl) in r;
        }
      }
    }
  }

  // ---------------------------------------------------------------------
  // The invariant is kept by every handler.

  lemma ReportKeepsInv(v: NodeVars, n: nat)
    requires Inv(v, n)
    ensures Inv(ReportStep(v), n) && ReportStep(v).statuses == v.statuses
  {
  }

  lemma TestKeepsInv(v: NodeVars, w: seq<int>)
    requires Inv(v, |w|)
    ensures Inv(TestStep(v, w), |w|) && TestStep(v, w).statuses == v.statuses
  {
    ReportKeepsInv(v.(testEdge := -1), |w|);
  }

  lemma ChangeRootKeepsInv(v: NodeVars, n: nat)
    requires Inv(v, n) && 0 < n
    ensures Inv(ChangeRootStep(v), n)
  {
  }

  lemma WakeUpKeepsInv(v: NodeVars, w: seq<int>)
    requires Inv(v, |w|) && 0 < |w|
    ensures Inv(WakeUpStep(v, w), |w|)
  {
  }

  lemma ConnectKeepsInv(v: NodeVars, w: seq<int>, ids: seq<int>, i: int, level: int)
    requires Inv(v, |w|) && |ids| == |w| && 0 <= i < |w|
    ensures Inv(ConnectStep(v, w, ids, i, level), |w|)
  {
  }

  lemma InitiateKeepsInv(v: NodeVars, w: seq<int>, i: int, level: int, name: int, state: State)
    requires Inv(v, |w|) && 0 <= i < |w|
    ensures Inv(InitiateStep(v, w, i, level, name, state), |w|)
  {
    var v1 := v.(name := name, state := state, level := level, father := i, bestEdge := -1, bestWeight := INF);
    var v2 := v1.(outbox := v1.outbox + Forward(v1.statuses, i, [Num(level), Num(name), St(state)], |w|));
    TestKeepsInv(v2.(rec := 0), w);
  }

  lemma TestMsgKeepsInv(v: NodeVars, w: seq<int>, ids: seq<int>, i: int, level: int, name: int)
    requires Inv(v, |w|) && |ids| == |w| && 0 <= i < |w|
    ensures Inv(TestMsgStep(v, w, ids, i, level, name), |w|)
  {
    var v1 := if v.statuses[i] == Basic then v.(statuses := v.statuses[i := EdgeStatus.Reject]) else v;
    TestKeepsInv(v1, w);
  }

  lemma AcceptKeepsInv(v: NodeVars, w: seq<int>, i: int)
    requires Inv(v, |w|) && 0 <= i < |w|
    ensures Inv(AcceptStep(v, w, i), |w|)
  {
    var v1 := v.(testEdge := -1);
    var v2 := if w[i] < v1.bestWeight then v1.(bestWeight := w[i], bestEdge := i) else v1;
    ReportKeepsInv(v2, |w|);
  }

  lemma RejectKeepsInv(v: NodeVars, w: seq<int>, i: int)
    requires Inv(v, |w|) && 0 <= i < |w|
    ensures Inv(RejectStep(v, w, i), |w|)
  {
    var v1 := if v.statuses[i] == Basic then v.(statuses := v.statuses[i := EdgeStatus.Reject]) else v;
    TestKeepsInv(v1, w);
  }

  lemma ReportMsgKeepsInv(v: NodeVars, i: int, weight: int)
    requires Inv(v, |v.statuses|) && 0 <= i < |v.statuses|
    ensures Inv(ReportMsgStep(v, i, weight), |v.statuses|)
  {
  }

  // ---------------------------------------------------------------------
  // Statuses only advance; sends and deferrals are appends.

  /** Each status stays, becomes Branch, or goes from Basic to Reject. */
  predicate Advances(a: seq<EdgeStatus>, b: seq<EdgeStatus>)
  {
    |a| == |b| &&
    forall j :: 0 <= j < |a| ==> b[j] == a[j] || b[j] == Branch || (a[j] == Basic && b[j] == EdgeStatus.Reject)
  }

  /** `v2` is `v1` after some handler: statuses advanced, outbox and self-queue only appended to. */
  predicate Extends(v1: NodeVars, v2: NodeVars)
  {
    Advances(v1.statuses, v2.statuses) && v1.outbox <= v2.outbox && v1.selfQueue <= v2.selfQueue
  }

  lemma ExtendsTransitive(v1: NodeVars, v2: NodeVars, v3: NodeVars)
    requires Extends(v1, v2) && Extends(v2, v3)
    ensures Extends(v1, v3)
  {
  }

  /** Once Branch, always Branch; Reject is written only over Basic. */
  lemma AdvancesMonotone(a: seq<EdgeStatus>, b: seq<EdgeStatus>)
    requires Advances(a, b)
    ensures forall j :: 0 <= j < |a| && a[j] == Branch ==> b[j] == Branch
    ensures forall j :: 0 <= j < |a| && b[j] == EdgeStatus.Reject ==> a[j] != Branch
    ensures forall j :: 0 <= j < |a| && b[j] == EdgeStatus.Reject && a[j] != EdgeStatus.Reject ==> a[j] == Basic
  {
  }

  lemma EmitExtends(v: NodeVars, i: int, msg: Message, pl: seq<Value>, sender: int)
    ensures Extends(v, Emit(v, i, msg, pl, sender))
  {
  }

  lemma ReportExtends(v: NodeVars)
    requires -1 <= v.father < |v.statuses|
    ensures Extends(v, ReportStep(v))
  {
  }

  lemma TestExtends(v: NodeVars, w: seq<int>)
    requires |w| == |v.statuses| && -1 <= v.father < |w|
    ensures Extends(v, TestStep(v, w))
  {
    ReportExtends(v.(testEdge := -1));
  }

  lemma WakeUpExtends(v: NodeVars, w: seq<int>)
    requires Inv(v, |w|) && 0 < |w|
    ensures Extends(v, WakeUpStep(v, w))
  {
  }

  lemma ChangeRootExtends(v: NodeVars)
    requires Inv(v, |v.statuses|) && 0 < |v.statuses|
    ensures Extends(v, ChangeRootStep(v))
  {
  }

  lemma ConnectExtends(v: NodeVars, w: seq<int>, ids: seq<int>, i: int, level: int)
    requires Inv(v, |w|) && |ids| == |w| && 0 <= i < |w|
    ensures Extends(v, ConnectStep(v, w, ids, i, level))
  {
  }

  lemma InitiateExtends(v: NodeVars, w: seq<int>, i: int, level: int, name: int, state: State)
    requires Inv(v, |w|) && 0 <= i < |w|
    ensures Extends(v, InitiateStep(v, w, i, level, name, state))
  {
    var v1 := v.(name := name, state := state, level := level, father := i, bestEdge := -1, bestWeight := INF);
    var v2 := v1.(outbox := v1.outbox + Forward(v1.statuses, i, [Num(level), Num(name), St(state)], |w|));
    TestExtends(v2.(rec := 0), w);
    ExtendsTransitive(v, v2.(rec := 0), TestStep(v2.(rec := 0), w));
  }

  lemma TestMsgExtends(v: NodeVars, w: seq<int>, ids: seq<int>, i: int, level: int, name: int)
    requires Inv(v, |w|) && |ids| == |w| && 0 <= i < |w|
    ensures Extends(v, TestMsgStep(v, w, ids, i, level, name))
  {
    var r := if v.statuses[i] == Basic then v.(statuses := v.statuses[i := EdgeStatus.Reject]) else v;
    TestExtends(r, w);
    ExtendsTransitive(v, r, TestStep(r, w));
  }

  lemma AcceptExtends(v: NodeVars, w: seq<int>, i: int)
    requires Inv(v, |w|) && 0 <= i < |w|
    ensures Extends(v, AcceptStep(v, w, i))
  {
    var a1 := v.(testEdge := -1);
    var a2 := if w[i] < a1.bestWeight then a1.(bestWeight := w[i], bestEdge := i) else a1;
    ReportExtends(a2);
  }

  lemma RejectExtends(v: NodeVars, w: seq<int>, i: int)
    requires Inv(v, |w|) && 0 <= i < |w|
    ensures Extends(v, RejectStep(v, w, i))
  {
    var r := if v.statuses[i] == Basic then v.(statuses := v.statuses[i := EdgeStatus.Reject]) else v;
    TestExtends(r, w);
    ExtendsTransitive(v, r, TestStep(r, w));
  }

  lemma ReportMsgExtends(v: NodeVars, i: int, weight: int)
    requires Inv(v, |v.statuses|) && 0 <= i < |v.statuses|
    ensures Extends(v, ReportMsgStep(v, i, weight))
  {
  }

  // ---------------------------------------------------------------------
  // The promises of the individual handlers.

  ghost predicate IsLightest(w: seq<int>, ok: seq<bool>, k: int)
    requires |ok| == |w|
  {
    0 <= k < |w| && ok[k] && forall j :: 0 <= j < |w| && ok[j] ==> w[k] <= w[j]
  }

  /** The edges counted by `__report`, as a set. */
  ghost function Children(st: seq<EdgeStatus>, father: int): set<int>
  {
    set j | 0 <= j < |st| && st[j] == Branch && j != father
  }

  /** The sons among the first `n` edges, as a set. */
  ghost function ChildrenBelow(st: seq<EdgeStatus>, father: int, n: nat): set<int>
  {
    set j | 0 <= j < n && j < |st| && st[j] == Branch && j != father
  }

  lemma ChildrenBelowStep(st: seq<EdgeStatus>, father: int, n: nat)
    requires 0 < n <= |st|
    ensures ChildrenBelow(st, father, n) ==
      ChildrenBelow(st, father, n - 1) + (if st[n - 1] == Branch && n - 1 != father then {n - 1} else {})
    ensures n - 1 !in ChildrenBelow(st, father, n - 1)
  {
  }

  lemma {:induction false} CountChildrenIsSize(st: seq<EdgeStatus>, father: int, n: nat)
    requires n <= |st|
    ensures CountChildren(st, father, n) == |ChildrenBelow(st, father, n)|
  {
    if n > 0 {
      CountChildrenIsSize(st, father, n - 1);
      ChildrenBelowStep(st, father, n);
    }
  }

  /**
   * `wakeup` marks a lightest edge Branch, resets level and rec, enters
   * Found and sends exactly one `connect([0])`, on that edge.
   */
  lemma WakeUpJoinsLightestEdge(v: NodeVars, w: seq<int>)
    requires Inv(v, |w|) && 0 < |w|
    requires forall j :: 0 <= j < |w| ==> w[j] != -1
    ensures exists k :: (IsLightest(w, AllEdges(|w|), k) &&
      WakeUpStep(v, w) == v.(level := 0, state := Found, rec := 0, statuses := v.statuses[k := Branch],
                             outbox := v.outbox + [Send(k, Connect, [Num(0)])]))
  {
    var ok := AllEdges(|w|);
    ScanMinIsMinimum(w, ok, |w|);
    ScanMinEmpty(w, ok, |w|);
    var k := ScanMin(w, ok, |w|).index;
    assert ok[0];
    assert IsLightest(w, ok, k);
  }

  /**
   * `__test` probes a lightest Basic edge with `test([level, name])` and
   * changes nothing else; with no Basic edge left it clears `test_edge`
   * and runs `__report`.
   */
  lemma TestProbesLightestBasic(v: NodeVars, w: seq<int>)
    requires Inv(v, |w|)
    requires forall j :: 0 <= j < |w| && v.statuses[j] == Basic ==> w[j] != -1
    ensures (exists j :: 0 <= j < |w| && v.statuses[j] == Basic) ==>
      exists k :: (IsLightest(w, BasicMask(v.statuses), k) &&
        TestStep(v, w) == v.(testEdge := k, outbox := v.outbox + [Send(k, Test, [Num(v.level), Num(v.name)])]))
    ensures (forall j :: 0 <= j < |w| ==> v.statuses[j] != Basic) ==>
      TestStep(v, w) == ReportStep(v.(testEdge := -1))
  {
    var ok := BasicMask(v.statuses);
    ScanMinIsMinimum(w, ok, |w|);
    ScanMinEmpty(w, ok, |w|);
    var k := ScanMin(w, ok, |w|).index;
    if exists j :: 0 <= j < |w| && v.statuses[j] == Basic {
      var j :| 0 <= j < |w| && v.statuses[j] == Basic;
      assert ok[j];
      assert IsLightest(w, ok, k);
    } else {
      forall j | 0 <= j < |w| ensures !ok[j] { }
    }
  }

  /**
   * `__report` fires exactly when every child counted among the Branch
   * edges has reported and no probe is pending; it then enters Found and
   * sends `report([best_weight])` towards the father (into the own mailbox
   * when the father is -1). Otherwise it changes nothing.
   */
  lemma ReportBarrier(v: NodeVars)
    requires Inv(v, |v.statuses|)
    ensures var fire := v.rec == |Children(v.statuses, v.father)| && v.testEdge == -1;
      (fire ==> ReportStep(v) == Emit(v.(state := Found), v.father, Report, [Num(v.bestWeight)], v.father)) &&
      (!fire ==> ReportStep(v) == v)
  {
    CountChildrenIsSize(v.statuses, v.father, |v.statuses|);
    assert ChildrenBelow(v.statuses, v.father, |v.statuses|) == Children(v.statuses, v.father);
  }

  /** The report barrier waits for exactly as many reports as `procecss_initiate` forwarded. */
  lemma BarrierMatchesPercolation(v: NodeVars, w: seq<int>, i: int, level: int, name: int, state: State)
    requires Inv(v, |w|) && 0 <= i < |w|
    ensures var pl := [Num(level), Num(name), St(state)];
      |Forward(v.statuses, i, pl, |w|)| == |Children(v.statuses, i)|
  {
    CountChildrenIsSize(v.statuses, i, |w|);
    assert ChildrenBelow(v.statuses, i, |w|) == Children(v.statuses, i);
  }

  /**
   * `process_connect`: a lower-level sender is absorbed (the edge becomes
   * Branch and it gets `initiate([level, name, state])`); otherwise a
   * connect over a Basic edge is put back, unchanged, into the own
   * mailbox and nothing else changes; otherwise the sender gets
   * `initiate([level + 1, edge weight, find])`.
   */
  lemma ConnectCases(v: NodeVars, w: seq<int>, ids: seq<int>, i: int, level: int)
    requires Inv(v, |w|) && |ids| == |w| && 0 <= i < |w|
    ensures level < v.level ==>
      ConnectStep(v, w, ids, i, level) ==
        v.(statuses := v.statuses[i := Branch],
           outbox := v.outbox + [Send(i, Initiate, [Num(v.level), Num(v.name), St(v.state)])])
    ensures level >= v.level && v.statuses[i] == Basic ==>
      ConnectStep(v, w, ids, i, level) == v.(selfQueue := v.selfQueue + [Envelope(ids[i], Connect, [Num(level)])])
    ensures level >= v.level && v.statuses[i] != Basic ==>
      ConnectStep(v, w, ids, i, level) == v.(outbox := v.outbox + [Send(i, Initiate, [Num(v.level + 1), Num(w[i]), St(Find)])])
  {
  }

  /**
   * `procecss_test`: a sender of higher level is deferred with no change;
   * the same fragment name makes a Basic edge Reject and is answered by
   * `reject`, or, on the edge being probed, by a new `__test`; another
   * name is answered by `accept`.
   */
  lemma TestMsgCases(v: NodeVars, w: seq<int>, ids: seq<int>, i: int, level: int, name: int)
    requires Inv(v, |w|) && |ids| == |w| && 0 <= i < |w|
    ensures level > v.level ==>
      TestMsgStep(v, w, ids, i, level, name) == v.(selfQueue := v.selfQueue + [Envelope(ids[i], Test, [Num(level), Num(name)])])
    ensures level <= v.level && name == v.name ==>
      var rejected := v.(statuses := v.statuses[i := if v.statuses[i] == Basic then EdgeStatus.Reject else v.statuses[i]]);
      TestMsgStep(v, w, ids, i, level, name) ==
        if i != v.testEdge then rejected.(outbox := v.outbox + [Send(i, Message.Reject, [])])
        else TestStep(rejected, w)
    ensures level <= v.level && name != v.name ==>
      TestMsgStep(v, w, ids, i, level, name) == v.(outbox := v.outbox + [Send(i, Accept, [])])
  {
    if level <= v.level && name == v.name && v.statuses[i] != Basic {
      assert v.statuses[i := v.statuses[i]] == v.statuses;
    }
  }

  /**
   * `process_accept` clears the probe and takes the edge as best only on a
   * strict improvement, so the best weight never grows; then it reports.
   */
  lemma AcceptImproves(v: NodeVars, w: seq<int>, i: int)
    requires Inv(v, |w|) && 0 <= i < |w|
    ensures var better := w[i] < v.bestWeight;
      AcceptStep(v, w, i) ==
        ReportStep(v.(testEdge := -1,
                      bestWeight := if better then w[i] else v.bestWeight,
                      bestEdge := if better then i else v.bestEdge))
    ensures AcceptStep(v, w, i).testEdge == -1 && AcceptStep(v, w, i).bestWeight <= v.bestWeight
  {
  }

  /** `process_reject` turns the edge Reject only if it is still Basic, then probes again. */
  lemma RejectCases(v: NodeVars, w: seq<int>, i: int)
    requires Inv(v, |w|) && 0 <= i < |w|
    ensures RejectStep(v, w, i) ==
      TestStep(v.(statuses := v.statuses[i := if v.statuses[i] == Basic then EdgeStatus.Reject else v.statuses[i]]), w)
  {
    if v.statuses[i] != Basic {
      assert v.statuses[i := v.statuses[i]] == v.statuses;
    }
  }

  /**
   * `process_report`: a child's report adds one to `rec` and lowers the best
   * weight only on a strict improvement; the father's report is deferred
   * while searching, and otherwise triggers `__changeroot` exactly when it
   * is heavier than the own best, completion exactly when both are INF,
   * and nothing else.
   */
  lemma ReportMsgCases(v: NodeVars, i: int, weight: int)
    requires Inv(v, |v.statuses|) && 0 <= i < |v.statuses|
    ensures i != v.father ==>
      ReportMsgStep(v, i, weight) ==
        v.(rec := v.rec + 1,
           bestWeight := if weight < v.bestWeight then weight else v.bestWeight,
           bestEdge := if weight < v.bestWeight then i else v.bestEdge)
    ensures i == v.father && v.state == Find ==>
      ReportMsgStep(v, i, weight) == v.(selfQueue := v.selfQueue + [Envelope(i, Report, [Num(weight)])])
    ensures i == v.father && v.state != Find ==>
      ReportMsgStep(v, i, weight) ==
        if weight > v.bestWeight then ChangeRootStep(v)
        else if weight == INF && v.bestWeight == INF then v.(completed := true)
        else v
  {
  }

  /**
   * The last child's report does not run the barrier: once it is counted,
   * `rec` equals the number of children and no probe is pending, so
   * `__report` would now send to the father, yet the handler itself sends
   * nothing and stays in its state. Unless another message arrives, the
   * report towards the father is never sent.
   */
  lemma LastChildReportSendsNothing(v: NodeVars, i: int, weight: int)
    requires Inv(v, |v.statuses|) && 0 <= i < |v.statuses| && i != v.father
    requires v.testEdge == -1 && v.rec + 1 == |Children(v.statuses, v.father)|
    ensures var r := ReportMsgStep(v, i, weight);
      r.outbox == v.outbox && r.selfQueue == v.selfQueue && r.state == v.state &&
      r.rec == |Children(r.statuses, r.father)| && r.testEdge == -1 &&
      ReportStep(r) == Emit(r.(state := Found), r.father, Report, [Num(r.bestWeight)], r.father)
  {
    ReportBarrier(ReportMsgStep(v, i, weight));
  }

  /**
   * A lower-level connect makes its edge Branch whatever its status, so
   * an edge already rejected becomes a tree edge again.
   */
  lemma LowConnectRevivesRejected(v: NodeVars, w: seq<int>, ids: seq<int>, i: int, level: int)
    requires Inv(v, |w|) && |ids| == |w| && 0 <= i < |w|
    requires v.statuses[i] == EdgeStatus.Reject && level < v.level
    ensures ConnectStep(v, w, ids, i, level).statuses[i] == Branch
  {
  }

  /** Within a search round the node's own steps never raise the best weight. */
  lemma BestWeightNeverGrows(v: NodeVars, w: seq<int>)
    requires Inv(v, |w|) && 0 < |w|
    ensures WakeUpStep(v, w).bestWeight <= v.bestWeight
    ensures TestStep(v, w).bestWeight <= v.bestWeight
    ensures ChangeRootStep(v).bestWeight <= v.bestWeight
  {
  }

  /** Within a search round `process_connect`, `process_accept` and `process_report` never raise the best weight. */
  lemma BestWeightNeverGrowsOnMessages(v: NodeVars, w: seq<int>, ids: seq<int>, i: int, level: int, weight: int)
    requires Inv(v, |w|) && |ids| == |w| && 0 <= i < |w|
    ensures ConnectStep(v, w, ids, i, level).bestWeight <= v.bestWeight
    ensures AcceptStep(v, w, i).bestWeight <= v.bestWeight
    ensures ReportMsgStep(v, i, weight).bestWeight <= v.bestWeight
  {
  }

  /** Within a search round `procecss_test` and `process_reject` never raise the best weight. */
  lemma BestWeightNeverGrowsOnProbes(v: NodeVars, w: seq<int>, ids: seq<int>, i: int, level: int, name: int)
    requires Inv(v, |w|) && |ids| == |w| && 0 <= i < |w|
    ensures TestMsgStep(v, w, ids, i, level, name).bestWeight <= v.bestWeight
    ensures RejectStep(v, w, i).bestWeight <= v.bestWeight
  {
  }

  /** `__changeroot` forwards `changeroot` along a Branch best edge, or else connects over it and makes it Branch. */
  lemma ChangeRootCases(v: NodeVars)
    requires Inv(v, |v.statuses|) && 0 <= v.bestEdge
    ensures var b := v.bestEdge;
      ChangeRootStep(v) ==
        if v.statuses[b] == Branch then v.(outbox := v.outbox + [Send(b, ChangeRoot, [])])
        else v.(statuses := v.statuses[b := Branch], outbox := v.outbox + [Send(b, Connect, [Num(v.level)])])
  {
  }
}
