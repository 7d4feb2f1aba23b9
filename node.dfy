/**
 * One vertex of the Gallager-Humblet-Spira protocol (node.py): its fields,
 * its incident Edge objects, and the handlers that update them in place.
 * Sends on an edge are recorded in `outbox`, re-enqueues into the vertex's
 * own mailbox in `selfQueue`. Every handler is proved to change the node
 * exactly as the matching transition function of GhsSpec says.
 */
module GhsNode {
  import opened Utils
  import opened GhsSpec
  import opened GhsProperties

  class Node {
    var state: State
    var name: int
    var level: int
    var father: int
    const edges: seq<Edge>
    const numNeighbors: int
    var rec: int
    var testEdge: int
    var bestEdge: int
    var bestWeight: int
    /** Stands for the undefined `__complete` of node.py:275. */
    var completed: bool
    var outbox: seq<Send>
    var selfQueue: seq<Envelope>

    ghost function Statuses(): seq<EdgeStatus>
      reads edges
    {
      seq(|edges|, j requires 0 <= j < |edges| reads edges => edges[j].status)
    }

    function Weights(): seq<int>
    {
      seq(|edges|, j requires 0 <= j < |edges| => edges[j].weight)
    }

    function Ids(): seq<int>
    {
      seq(|edges|, j requires 0 <= j < |edges| => edges[j].id)
    }

    ghost function Vars(): NodeVars
      reads this, edges
    {
      NodeVars(state, name, level, father, rec, testEdge, bestEdge, bestWeight, completed,
               Statuses(), outbox, selfQueue)
    }

    ghost predicate Valid()
      reads this, edges
    {
      numNeighbors == |edges| &&
      (forall a, b :: 0 <= a < b < |edges| ==> edges[a] != edges[b]) &&
      Inv(Vars(), |edges|)
    }

    constructor (edges: seq<Edge>, name: int)
      requires forall a, b :: 0 <= a < b < |edges| ==> edges[a] != edges[b]
      ensures this.edges == edges && Valid()
      ensures state == Sleep && this.name == name && level == 0 && father == -1
      ensures rec == 0 && testEdge == -1 && bestEdge == -1 && bestWeight == INF && !completed
      ensures Vars() == Initial(name, Statuses())
    {
      this.state := Sleep;
      this.name := name;
      this.level := 0;
      this.father := -1;
      this.edges := edges;
      this.numNeighbors := |edges|;
      this.rec := 0;
      this.testEdge := -1;
      this.bestEdge := -1;
      this.bestWeight := INF;
      this.completed := false;
      this.outbox := [];
      this.selfQueue := [];
    }

    method ChangeEdgeStatus(i: int, status: EdgeStatus)
      requires Valid() && 0 <= i < |edges|
      modifies edges[i]
      ensures Vars() == old(Vars()).(statuses := old(Statuses())[i := status])
    {
      edges[i].ChangeStatus(status);
      assert Statuses() == old(Statuses())[i := status];
    }

    /** `__edge_stub`: index -1 enqueues to the node's own mailbox with `senderEdge` as sender. */
    method EdgeStub(edgeIndex: int, message: Message, payload: seq<Value>, senderEdge: int)
      requires -1 <= edgeIndex < |edges|
      modifies this`outbox, this`selfQueue
      ensures Vars() == Emit(old(Vars()), edgeIndex, message, payload, senderEdge)
      ensures edgeIndex != -1 ==> outbox == old(outbox) + [Send(edgeIndex, message, payload)] && selfQueue == old(selfQueue)
    {
      if edgeIndex == -1 {
        selfQueue := selfQueue + [Envelope(senderEdge, message, payload)];
      } else {
        outbox := outbox + [Send(edgeIndex, message, payload)];
      }
    }

    /** The scan of `__test` (node.py:82-88): the first Basic edge of least weight, or -1. */
    method MinBasicEdge() returns (minIndex: int)
      requires numNeighbors == |edges|
      ensures minIndex == ScanMin(Weights(), BasicMask(Statuses()), |edges|).index
    {
      ghost var w, basic := Weights(), BasicMask(Statuses());
      var minWt := -1;
      minIndex := -1;
      var i := 0;
      while i < numNeighbors
        invariant 0 <= i <= |edges|
        invariant Pick(minWt, minIndex) == ScanMin(w, basic, i)
      {
        var edge := edges[i];
        var st := edge.Status();
        if st == Basic {
          var wt := edge.Weight();
          if minWt == -1 || minWt > wt {
            minIndex := i;
            minWt := wt;
          }
        }
        i := i + 1;
      }
    }

    /** `__test`: probe the minimum-weight Basic edge, or report when none is left. */
    method Test()
      requires Valid()
      modifies this, edges
      ensures Valid()
      ensures Vars() == TestStep(old(Vars()), Weights())
    {
      TestKeepsInv(Vars(), Weights());
      var minIndex := MinBasicEdge();
      if minIndex != -1 {
        testEdge := minIndex;
        EdgeStub(minIndex, Message.Test, [Num(level), Num(name)], minIndex);
      } else {
        testEdge := -1;
        Report();
      }
    }

    /** The count of `__report` (node.py:103-107): Branch edges other than the father. */
    method CountSons() returns (count: int)
      requires numNeighbors == |edges|
      ensures count == CountChildren(Statuses(), father, |edges|)
    {
      count := 0;
      var i := 0;
      while i < numNeighbors
        invariant 0 <= i <= |edges|
        invariant count == CountChildren(Statuses(), father, i)
      {
        var edge := edges[i];
        // node.py:106 reads the status field without calling the getter; both give the stored status
        if edge.status == Branch && i != father {
          count := count + 1;
        }
        i := i + 1;
      }
    }

    /** `__report`: the barrier that sends the best weight to the father once every child has reported. */
    method Report()
      requires Valid()
      modifies this
      ensures Valid()
      ensures Vars() == ReportStep(old(Vars()))
    {
      ReportKeepsInv(Vars(), |edges|);
      var count := CountSons();
      if rec == count && testEdge == -1 {
        state := Found;
        EdgeStub(father, Message.Report, [Num(bestWeight)], father);
      }
    }

    /** `__changeroot`; with best edge -1 the status access is Python's `edges[-1]`, the last edge. */
    method ChangeRoot()
      requires Valid() && 0 < |edges|
      modifies this, edges
      ensures Valid()
      ensures Vars() == ChangeRootStep(old(Vars()))
    {
      ChangeRootKeepsInv(Vars(), |edges|);
      var slot := if bestEdge == -1 then |edges| - 1 else bestEdge;
      var st := edges[slot].Status();
      if st == Branch {
        EdgeStub(bestEdge, Message.ChangeRoot, [], bestEdge);
      } else {
        EdgeStub(bestEdge, Connect, [Num(level)], bestEdge);
        ChangeEdgeStatus(slot, Branch);
      }
    }

    /** The scan of `wakeup` (node.py:126-131): the first edge of least weight. */
    method MinWeightEdge() returns (minEdge: int)
      requires numNeighbors == |edges|
      ensures minEdge == ScanMin(Weights(), AllEdges(|edges|), |edges|).index
    {
      ghost var w, all := Weights(), AllEdges(|edges|);
      var minWt := -1;
      minEdge := -1;
      var i := 0;
      while i < numNeighbors
        invariant 0 <= i <= |edges|
        invariant Pick(minWt, minEdge) == ScanMin(w, all, i)
      {
        var edge := edges[i];
        var wt := edge.Weight();
        if minWt == -1 || minWt > wt {
          minEdge := i;
          minWt := wt;
        }
        i := i + 1;
      }
    }

    /** `wakeup`: join the minimum-weight edge and ask to connect over it. */
    method WakeUp()
      requires Valid() && 0 < |edges|
      modifies this, edges
      ensures Valid()
      ensures Vars() == WakeUpStep(old(Vars()), Weights())
    {
      WakeUpKeepsInv(Vars(), Weights());
      var minEdge := MinWeightEdge();
      level := 0;
      state := Found;
      rec := 0;
      ChangeEdgeStatus(minEdge, Branch);
      EdgeStub(minEdge, Connect, [Num(level)], minEdge);
    }

    method ProcessConnect(edgeIndex: int, level: int)
      requires Valid() && 0 <= edgeIndex < |edges|
      modifies this, edges
      ensures Valid()
      ensures Vars() == ConnectStep(old(Vars()), Weights(), Ids(), edgeIndex, level)
    {
      ConnectKeepsInv(Vars(), Weights(), Ids(), edgeIndex, level);
      if level < this.level {
        ChangeEdgeStatus(edgeIndex, Branch);
        EdgeStub(edgeIndex, Initiate, [Num(this.level), Num(name), St(state)], edgeIndex);
      } else {
        var st := edges[edgeIndex].Status();
        if st == Basic {
          var id := edges[edgeIndex].GetId();
          EdgeStub(-1, Connect, [Num(level)], id);
        } else {
          var edgeWeight := edges[edgeIndex].Weight();
          EdgeStub(edgeIndex, Initiate, [Num(this.level + 1), Num(edgeWeight), St(Find)], edgeIndex);
        }
      }
    }

    /** The percolation loop of `procecss_initiate` (node.py:184-190). */
    method Percolate(edgeIndex: int, pl: seq<Value>)
      requires numNeighbors == |edges|
      modifies this`outbox, this`selfQueue
      ensures outbox == old(outbox) + Forward(Statuses(), edgeIndex, pl, |edges|)
      ensures selfQueue == old(selfQueue)
    {
      ghost var st := Statuses();
      var i := 0;
      while i < numNeighbors
        invariant 0 <= i <= |edges|
        invariant outbox == old(outbox) + Forward(st, edgeIndex, pl, i)
        invariant selfQueue == old(selfQueue)
      {
        ghost var before := outbox;
        PercolateOne(i, edgeIndex, pl);
        ghost var step := if st[i] == Branch && i != edgeIndex then [Send(i, Message.Test, pl)] else [];
        assert outbox == before + step;
        assert Forward(st, edgeIndex, pl, i + 1) == Forward(st, edgeIndex, pl, i) + step;
        assert outbox == old(outbox) + (Forward(st, edgeIndex, pl, i) + step);
        i := i + 1;
      }
    }

    /** One round of the percolation loop (node.py:185-190): a `test` on edge i when it is a Branch child. */
    method PercolateOne(i: int, edgeIndex: int, pl: seq<Value>)
      requires 0 <= i < |edges|
      modifies this`outbox, this`selfQueue
      ensures outbox == old(outbox) + if edges[i].status == Branch && i != edgeIndex then [Send(i, Message.Test, pl)] else []
      ensures selfQueue == old(selfQueue)
    {
      if i != edgeIndex {
        var status := edges[i].Status();
        if status == Branch {
          // node.py:190 sends test here, with the initiate payload
          EdgeStub(i, Message.Test, pl, i);
        }
      }
    }

    method ProcessInitiate(edgeIndex: int, level: int, name: int, state: State)
      requires Valid() && 0 <= edgeIndex < |edges|
      modifies this, edges
      ensures Valid()
      ensures Vars() == InitiateStep(old(Vars()), Weights(), edgeIndex, level, name, state)
    {
      ghost var v := Vars();
      InitiateKeepsInv(v, Weights(), edgeIndex, level, name, state);
      Adopt(edgeIndex, level, name, state);
      ghost var adopted := Vars();
      var pl := [Num(level), Num(name), St(state)];
      Percolate(edgeIndex, pl);
      ghost var percolated := Vars();
      assert percolated == adopted.(outbox := adopted.outbox + Forward(adopted.statuses, edgeIndex, pl, |edges|));
      if this.state == Find {
        rec := 0;
        ghost var started := Vars();
        assert started == percolated.(rec := 0);
        Test();
        assert Vars() == TestStep(started, Weights());
      } else {
        assert Vars() == percolated;
      }
    }

    /** The assignments of node.py:175-181: the fragment of the initiate, with the sender as father. */
    method Adopt(edgeIndex: int, level: int, name: int, state: State)
      modifies this`name, this`state, this`level, this`father, this`bestEdge, this`bestWeight
      ensures Vars() == old(Vars()).(name := name, state := state, level := level, father := edgeIndex,
                                     bestEdge := -1, bestWeight := INF)
    {
      this.name := name;
      this.state := state;
      this.level := level;
      father := edgeIndex;
      bestEdge := -1;
      bestWeight := INF;
    }

    method ProcessTest(edgeIndex: int, level: int, name: int)
      requires Valid() && 0 <= edgeIndex < |edges|
      modifies this, edges
      ensures Valid()
      ensures Vars() == TestMsgStep(old(Vars()), Weights(), Ids(), edgeIndex, level, name)
    {
      TestMsgKeepsInv(Vars(), Weights(), Ids(), edgeIndex, level, name);
      if level > this.level {
        var id := edges[edgeIndex].GetId();
        EdgeStub(-1, Message.Test, [Num(level), Num(name)], id);
      } else if name == this.name {
        var st := edges[edgeIndex].Status();
        if st == Basic {
          ChangeEdgeStatus(edgeIndex, EdgeStatus.Reject);
        }
        if edgeIndex != testEdge {
          EdgeStub(edgeIndex, Message.Reject, [], edgeIndex);
        } else {
          Test();
        }
      } else {
        EdgeStub(edgeIndex, Accept, [], edgeIndex);
      }
    }

    method ProcessAccept(edgeIndex: int)
      requires Valid() && 0 <= edgeIndex < |edges|
      modifies this
      ensures Valid()
      ensures Vars() == AcceptStep(old(Vars()), Weights(), edgeIndex)
    {
      AcceptKeepsInv(Vars(), Weights(), edgeIndex);
      testEdge := -1;
      var edgeWeight := edges[edgeIndex].Weight();
      if edgeWeight < bestWeight {
        bestWeight := edgeWeight;
        bestEdge := edgeIndex;
      }
      Report();
    }

    method ProcessReject(edgeIndex: int)
      requires Valid() && 0 <= edgeIndex < |edges|
      modifies this, edges
      ensures Valid()
      ensures Vars() == RejectStep(old(Vars()), Weights(), edgeIndex)
    {
      RejectKeepsInv(Vars(), Weights(), edgeIndex);
      var st := edges[edgeIndex].Status();
      if st == Basic {
        ChangeEdgeStatus(edgeIndex, EdgeStatus.Reject);
      }
      Test();
    }

    method ProcessReport(edgeIndex: int, weight: int)
      requires Valid() && 0 <= edgeIndex < |edges|
      modifies this, edges
      ensures Valid()
      ensures Vars() == ReportMsgStep(old(Vars()), edgeIndex, weight)
    {
      ReportMsgKeepsInv(Vars(), edgeIndex, weight);
      if edgeIndex != father {
        if weight < bestWeight {
          bestWeight := weight;
          bestEdge := edgeIndex;
        }
        rec := rec + 1;
      } else if state == Find {
        // the deferred report carries the edge index as sender, not the edge id
        EdgeStub(-1, Message.Report, [Num(weight)], edgeIndex);
      } else if weight > bestWeight {
        ChangeRoot();
      } else if weight == INF && bestWeight == INF {
        completed := true;
      }
    }

    method ProcessChangeRoot()
      requires Valid() && 0 < |edges|
      modifies this, edges
      ensures Valid()
      ensures Vars() == ChangeRootStep(old(Vars()))
    {
      ChangeRoot();
    }
  }
}
