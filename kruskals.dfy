/**
 * The reference minimum-spanning-tree computation (modules/kruskals.py):
 * union-find over a parent array without path compression or union by
 * rank, and Kruskal's greedy loop over the edges sorted by weight, which
 * returns the total weight of the selected edges.
 *
 * The parent array carries a ghost rank that strictly grows from a node to
 * its parent. It is what makes `parent` a forest and `GetParent`
 * terminate; the algorithm itself never reads it.
 */
module Kruskal {

  /** One input line `(u, v, w)`: endpoints and weight. */
  datatype RawEdge = RawEdge(u: int, v: int, w: int)

  ghost predicate Forest(p: seq<int>, rank: seq<nat>)
  {
    |rank| == |p| &&
    forall i :: 0 <= i < |p| ==> 0 <= p[i] < |p| && (p[i] != i ==> rank[i] < rank[p[i]])
  }

  /** The node reached from `x` after `k` parent steps. */
  ghost function Follow(p: seq<int>, x: int, k: nat): int
    requires 0 <= x < |p| && forall i :: 0 <= i < |p| ==> 0 <= p[i] < |p|
    decreases k
  {
    if k == 0 then x else Follow(p, p[x], k - 1)
  }

  ghost function Above(rank: seq<nat>, x: int): set<int>
    requires 0 <= x < |rank|
  {
    set j | 0 <= j < |rank| && rank[j] > rank[x]
  }

  lemma AboveShrinks(p: seq<int>, rank: seq<nat>, x: int)
    requires Forest(p, rank) && 0 <= x < |p| && p[x] != x
    ensures Above(rank, p[x]) < Above(rank, x)
  {
    assert p[x] in Above(rank, x) && p[x] !in Above(rank, p[x]);
  }

  /** `get_parent`: the root above `node`, reached by following parent links. */
  function GetParent(p: seq<int>, ghost rank: seq<nat>, node: int): (r: int)
    requires Forest(p, rank) && 0 <= node < |p|
    ensures 0 <= r < |p| && p[r] == r
    ensures exists k: nat :: Follow(p, node, k) == r
    decreases Above(rank, node)
  {
    if p[node] == node then
      assert Follow(p, node, 0) == node;
      node
    else
      AboveShrinks(p, rank, node);
      var r := GetParent(p, rank, p[node]);
      ghost var k: nat :| Follow(p, p[node], k) == r;
      assert Follow(p, node, k + 1) == r;
      r
  }

  /** The rank after linking root `a` under root `b`: `b` rises above `a` if it was not already. */
  ghost function LinkRank(rank: seq<nat>, a: int, b: int): seq<nat>
    requires 0 <= a < |rank| && 0 <= b < |rank|
  {
    rank[b := if rank[b] > rank[a] then rank[b] else rank[a] + 1]
  }

  /** Linking one root under another root keeps the parent array a forest. */
  lemma LinkKeepsForest(p: seq<int>, rank: seq<nat>, a: int, b: int)
    requires Forest(p, rank) && 0 <= a < |p| && 0 <= b < |p|
    requires p[a] == a && p[b] == b && a != b
    ensures Forest(p[a := b], LinkRank(rank, a, b))
  {
    var p', rank' := p[a := b], LinkRank(rank, a, b);
    forall i | 0 <= i < |p'|
      ensures 0 <= p'[i] < |p'| && (p'[i] != i ==> rank'[i] < rank'[p'[i]])
    {
      if i != a && p[i] != i {
        assert i != b;
        assert rank[p[i]] <= rank'[p[i]];
      }
    }
  }

  predicate SortedByWeight(s: seq<RawEdge>)
  {
    forall x, y :: 0 <= x < y < |s| ==> s[x].w <= s[y].w
  }

  predicate EndpointsIn(es: seq<RawEdge>, n: int)
  {
    forall k :: 0 <= k < |es| ==> 0 <= es[k].u < n && 0 <= es[k].v < n
  }

  /** The sum of the weights, accumulated front to back. */
  function SumWeights(s: seq<RawEdge>): int
  {
    if s == [] then 0 else SumWeights(s[..|s| - 1]) + s[|s| - 1].w
  }

  /** Where the selection loop stands: the parent array, its ghost rank and the edges selected so far. */
  datatype Run = Run(parent: seq<int>, rank: seq<nat>, mst: seq<RawEdge>)

  /**
   * The selection loop of `get_mst` over the remaining edges `es`, from
   * parent array `p` and selection `mst`: an edge is selected exactly when
   * its endpoints have different roots, and then the first root is linked
   * under the second; the loop stops as soon as `limit` edges are selected.
   */
  ghost function Select(p: seq<int>, rank: seq<nat>, es: seq<RawEdge>, limit: int, mst: seq<RawEdge>): (r: Run)
    requires Forest(p, rank) && EndpointsIn(es, |p|)
    ensures Forest(r.parent, r.rank) && |r.parent| == |p|
    ensures |mst| <= |r.mst| && r.mst[..|mst|] == mst
    ensures forall k :: |mst| <= k < |r.mst| ==> r.mst[k] in es
    decreases |es|
  {
    if es == [] then Run(p, rank, mst)
    else
      var r1 := GetParent(p, rank, es[0].u);
      var r2 := GetParent(p, rank, es[0].v);
      if r1 != r2 then
        LinkKeepsForest(p, rank, r1, r2);
        var mst' := mst + [es[0]];
        if |mst'| == limit then Run(p[r1 := r2], LinkRank(rank, r1, r2), mst')
        else Select(p[r1 := r2], LinkRank(rank, r1, r2), es[1..], limit, mst')
      else
        Select(p, rank, es[1..], limit, mst)
  }

  /**
   * Mid-way through one insertion pass over `s[..i + 1]`: apart from the
   * moving edge at `j`, the prefix is ordered, and the moving edge is
   * lighter than everything it has passed.
   */
  ghost predicate Inserting(s: seq<RawEdge>, i: int, j: int)
  {
    0 <= j <= i < |s| &&
    (forall x, y :: 0 <= x < y <= i && x != j && y != j ==> s[x].w <= s[y].w) &&
    (forall y :: j < y <= i ==> s[j].w < s[y].w)
  }

  function Swap(s: seq<RawEdge>, j: int): seq<RawEdge>
    requires 0 < j < |s|
  {
    s[j - 1 := s[j]][j := s[j - 1]]
  }

  /** Swapping the moving edge with a heavier left neighbour moves it one place left. */
  lemma SwapStep(s: seq<RawEdge>, i: int, j: int)
    requires Inserting(s, i, j) && 0 < j && s[j - 1].w > s[j].w
    ensures Inserting(Swap(s, j), i, j - 1)
    ensures multiset(Swap(s, j)) == multiset(s)
    ensures Swap(s, j)[i + 1..] == s[i + 1..]
  {
  }

  /** A pass starts with the sorted prefix and the new edge at `i`. */
  lemma InsertStart(s: seq<RawEdge>, i: int)
    requires 0 <= i < |s| && SortedByWeight(s[..i])
    ensures Inserting(s, i, i)
  {
    assert forall x :: 0 <= x < i ==> s[x] == s[..i][x];
  }

  /** A pass ends when the moving edge is first or no lighter than its left neighbour. */
  lemma InsertDone(s: seq<RawEdge>, i: int, j: int)
    requires Inserting(s, i, j) && (j == 0 || s[j - 1].w <= s[j].w)
    ensures SortedByWeight(s[..i + 1])
  {
    forall x, y | 0 <= x < y <= i
      ensures s[x].w <= s[y].w
    {
      if x == j || y == j {
      } else if x < j < y {
        assert s[x].w <= s[j - 1].w || x == j - 1;
      }
    }
  }

  /** One pass of insertion sort: the edge at `i` moves left past every heavier edge. */
  method InsertAt(a: array<RawEdge>, i: int)
    requires 0 <= i < a.Length && SortedByWeight(a[..i])
    modifies a
    ensures SortedByWeight(a[..i + 1])
    ensures multiset(a[..]) == multiset(old(a[..]))
    ensures a[i + 1..] == old(a[i + 1..])
  {
    InsertStart(a[..], i);
    var j := i;
    while j > 0 && a[j - 1].w > a[j].w
      invariant Inserting(a[..], i, j)
      invariant multiset(a[..]) == multiset(old(a[..]))
      invariant a[i + 1..] == old(a[i + 1..])
    {
      ghost var before := a[..];
      SwapStep(before, i, j);
      a[j - 1], a[j] := a[j], a[j - 1];
      assert a[..] == Swap(before, j);
      j := j - 1;
    }
    InsertDone(a[..], i, j);
  }

  /** The number of roots among the first `n` nodes. */
  function CountRoots(p: seq<int>, n: nat): (c: nat)
    requires n <= |p|
    ensures c <= n
  {
    if n == 0 then 0 else CountRoots(p, n - 1) + (if p[n - 1] == n - 1 then 1 else 0)
  }

  /** Linking root `a` under `b` removes exactly one root. */
  lemma {:induction false} LinkRemovesRoot(p: seq<int>, a: int, b: int, n: nat)
    requires 0 <= a < |p| && 0 <= b < |p| && a != b && p[a] == a && n <= |p|
    ensures CountRoots(p[a := b], n) == CountRoots(p, n) - (if a < n then 1 else 0)
  {
    if n > 0 {
      LinkRemovesRoot(p, a, b, n - 1);
    }
  }

  /** A node that is a root makes the count positive. */
  lemma {:induction false} RootCounted(p: seq<int>, r: int, n: nat)
    requires n <= |p| && 0 <= r < n && p[r] == r
    ensures CountRoots(p, n) >= 1
  {
    if r < n - 1 {
      RootCounted(p, r, n - 1);
    }
  }

  /** Every selected edge removes one root: selected edges plus roots is constant. */
  lemma {:induction false} SelectTradesRoots(p: seq<int>, rank: seq<nat>, es: seq<RawEdge>, limit: int, mst: seq<RawEdge>)
    requires Forest(p, rank) && EndpointsIn(es, |p|)
    ensures var r := Select(p, rank, es, limit, mst);
      |r.mst| + CountRoots(r.parent, |p|) == |mst| + CountRoots(p, |p|)
    decreases |es|
  {
    if es != [] {
      var r1 := GetParent(p, rank, es[0].u);
      var r2 := GetParent(p, rank, es[0].v);
      if r1 != r2 {
        LinkKeepsForest(p, rank, r1, r2);
        LinkRemovesRoot(p, r1, r2, |p|);
        if |mst + [es[0]]| != limit {
          SelectTradesRoots(p[r1 := r2], LinkRank(rank, r1, r2), es[1..], limit, mst + [es[0]]);
        }
      } else {
        SelectTradesRoots(p, rank, es[1..], limit, mst);
      }
    }
  }

  /**
   * On a graph with at least one node, the selection never exceeds
   * `num_nodes - 1` edges, whatever the stopping limit.
   */
  lemma MstFitsInForest(p: seq<int>, rank: seq<nat>, es: seq<RawEdge>, limit: int)
    requires Forest(p, rank) && EndpointsIn(es, |p|) && 0 < |p|
    ensures |Select(p, rank, es, limit, []).mst| <= |p| - 1
  {
    var r := Select(p, rank, es, limit, []);
    SelectTradesRoots(p, rank, es, limit, []);
    RootCounted(r.parent, GetParent(r.parent, r.rank, 0), |p|);
  }

  /**
   * After linking root `a` under root `b`, a node whose root was `a` has
   * root `b` and every other node keeps its root.
   */
  lemma {:induction false} LinkRedirects(p: seq<int>, rank: seq<nat>, a: int, b: int, x: int)
    requires Forest(p, rank) && 0 <= a < |p| && 0 <= b < |p|
    requires p[a] == a && p[b] == b && a != b && 0 <= x < |p|
    ensures Forest(p[a := b], LinkRank(rank, a, b)) &&
      GetParent(p[a := b], LinkRank(rank, a, b), x) ==
        (if GetParent(p, rank, x) == a then b else GetParent(p, rank, x))
    decreases Above(rank, x)
  {
    LinkKeepsForest(p, rank, a, b);
    var p', rank' := p[a := b], LinkRank(rank, a, b);
    if x == a {
      assert GetParent(p', rank', b) == b;
    } else if p[x] != x {
      AboveShrinks(p, rank, x);
      LinkRedirects(p, rank, a, b, p[x]);
    }
  }

  /** Edge `e` lies inside one component of the forest. */
  ghost predicate Joined(p: seq<int>, rank: seq<nat>, e: RawEdge)
    requires Forest(p, rank)
  {
    0 <= e.u < |p| && 0 <= e.v < |p| && GetParent(p, rank, e.u) == GetParent(p, rank, e.v)
  }

  /** Linking two roots keeps every joined edge joined. */
  lemma LinkKeepsJoined(p: seq<int>, rank: seq<nat>, a: int, b: int, e: RawEdge)
    requires Forest(p, rank) && 0 <= a < |p| && 0 <= b < |p|
    requires p[a] == a && p[b] == b && a != b && Joined(p, rank, e)
    ensures Forest(p[a := b], LinkRank(rank, a, b)) && Joined(p[a := b], LinkRank(rank, a, b), e)
  {
    LinkRedirects(p, rank, a, b, e.u);
    LinkRedirects(p, rank, a, b, e.v);
  }

  /** Every edge of `s` lies inside one component. */
  ghost predicate AllJoined(p: seq<int>, rank: seq<nat>, s: seq<RawEdge>)
    requires Forest(p, rank)
  {
    forall k :: 0 <= k < |s| ==> Joined(p, rank, s[k])
  }

  /** Selecting `e` and linking the roots of its endpoints leaves every selected edge joined, `e` included. */
  lemma SelectedStayJoined(p: seq<int>, rank: seq<nat>, mst: seq<RawEdge>, e: RawEdge)
    requires Forest(p, rank) && 0 <= e.u < |p| && 0 <= e.v < |p|
    requires GetParent(p, rank, e.u) != GetParent(p, rank, e.v)
    requires AllJoined(p, rank, mst)
    ensures var r1, r2 := GetParent(p, rank, e.u), GetParent(p, rank, e.v);
      Forest(p[r1 := r2], LinkRank(rank, r1, r2)) && AllJoined(p[r1 := r2], LinkRank(rank, r1, r2), mst + [e])
  {
    var r1, r2 := GetParent(p, rank, e.u), GetParent(p, rank, e.v);
    LinkKeepsForest(p, rank, r1, r2);
    forall k | 0 <= k < |mst| + 1
      ensures Joined(p[r1 := r2], LinkRank(rank, r1, r2), (mst + [e])[k])
    {
      if k < |mst| {
        LinkKeepsJoined(p, rank, r1, r2, mst[k]);
      } else {
        LinkRedirects(p, rank, r1, r2, e.u);
        LinkRedirects(p, rank, r1, r2, e.v);
      }
    }
  }

  /** The selection only merges components: an edge inside one stays inside one. */
  lemma {:induction false} SelectKeepsJoined(p: seq<int>, rank: seq<nat>, es: seq<RawEdge>, limit: int, mst: seq<RawEdge>, e: RawEdge)
    requires Forest(p, rank) && EndpointsIn(es, |p|) && Joined(p, rank, e)
    ensures var r := Select(p, rank, es, limit, mst); Joined(r.parent, r.rank, e)
    decreases |es|
  {
    if es != [] {
      var r1 := GetParent(p, rank, es[0].u);
      var r2 := GetParent(p, rank, es[0].v);
      if r1 != r2 {
        LinkKeepsJoined(p, rank, r1, r2, e);
        if |mst + [es[0]]| != limit {
          SelectKeepsJoined(p[r1 := r2], LinkRank(rank, r1, r2), es[1..], limit, mst + [es[0]], e);
        }
      } else {
        SelectKeepsJoined(p, rank, es[1..], limit, mst, e);
      }
    }
  }

  /** Every selected edge ends up inside one component of the final forest. */
  lemma {:induction false} SelectJoinsSelected(p: seq<int>, rank: seq<nat>, es: seq<RawEdge>, limit: int, mst: seq<RawEdge>)
    requires Forest(p, rank) && EndpointsIn(es, |p|) && AllJoined(p, rank, mst)
    ensures var r := Select(p, rank, es, limit, mst); AllJoined(r.parent, r.rank, r.mst)
    decreases |es|
  {
    if es != [] {
      var r1 := GetParent(p, rank, es[0].u);
      var r2 := GetParent(p, rank, es[0].v);
      if r1 != r2 {
        SelectedStayJoined(p, rank, mst, es[0]);
        if |mst + [es[0]]| != limit {
          SelectJoinsSelected(p[r1 := r2], LinkRank(rank, r1, r2), es[1..], limit, mst + [es[0]]);
        }
      } else {
        SelectJoinsSelected(p, rank, es[1..], limit, mst);
      }
    }
  }

  /**
   * When the loop runs to the end without reaching the limit, every input
   * edge ends up inside one component: the selection spans every component
   * the edges connect.
   */
  lemma {:induction false} SelectJoinsInput(p: seq<int>, rank: seq<nat>, es: seq<RawEdge>, limit: int, mst: seq<RawEdge>)
    requires Forest(p, rank) && EndpointsIn(es, |p|) && AllJoined(p, rank, mst)
    ensures var r := Select(p, rank, es, limit, mst); |r.mst| != limit ==> AllJoined(r.parent, r.rank, es)
    decreases |es|
  {
    if es != [] {
      var r1 := GetParent(p, rank, es[0].u);
      var r2 := GetParent(p, rank, es[0].v);
      var r := Select(p, rank, es, limit, mst);
      if r1 != r2 {
        var p', rank', mst' := p[r1 := r2], LinkRank(rank, r1, r2), mst + [es[0]];
        SelectedStayJoined(p, rank, mst, es[0]);
        if |mst'| != limit {
          assert r == Select(p', rank', es[1..], limit, mst');
          SelectJoinsInput(p', rank', es[1..], limit, mst');
          SelectJoinsSelected(p', rank', es[1..], limit, mst');
          assert r.mst[..|mst'|] == mst';
          assert r.mst[|mst|] == mst'[|mst|] == es[0];
        }
      } else {
        assert r == Select(p, rank, es[1..], limit, mst);
        SelectJoinsInput(p, rank, es[1..], limit, mst);
        SelectKeepsJoined(p, rank, es[1..], limit, mst, es[0]);
      }
      if |r.mst| != limit {
        forall k | 0 < k < |es|
          ensures Joined(r.parent, r.rank, es[k])
        {
          assert es[k] == es[1..][k - 1];
        }
      }
    }
  }

  /**
   * `x` and `y` are connected by a path over the edges of `mst`, taken as
   * undirected. A path over `m + [e]` either avoids `e` or crosses it once,
   * in one of its two directions.
   */
  ghost predicate Linked(mst: seq<RawEdge>, x: int, y: int)
    decreases |mst|
  {
    if mst == [] then x == y
    else
      var m, e := mst[..|mst| - 1], mst[|mst| - 1];
      Linked(m, x, y) || (Linked(m, x, e.u) && Linked(m, e.v, y)) || (Linked(m, x, e.v) && Linked(m, e.u, y))
  }

  /** Two nodes share a root exactly when the selected edges connect them. */
  ghost predicate Tracks(p: seq<int>, rank: seq<nat>, mst: seq<RawEdge>)
    requires Forest(p, rank)
  {
    forall x, y :: 0 <= x < |p| && 0 <= y < |p| ==>
      (GetParent(p, rank, x) == GetParent(p, rank, y) <==> Linked(mst, x, y))
  }

  /** No selected edge closes a cycle: its endpoints were not yet connected by the edges selected before it. */
  ghost predicate Acyclic(mst: seq<RawEdge>)
  {
    forall k :: 0 <= k < |mst| ==> !Linked(mst[..k], mst[k].u, mst[k].v)
  }

  /** Before any edge is selected every node is its own root, and nothing is connected but a node to itself. */
  lemma AllRootsTrack(p: seq<int>, rank: seq<nat>)
    requires Forest(p, rank) && forall i :: 0 <= i < |p| ==> p[i] == i
    ensures Tracks(p, rank, [])
  {
  }

  /** Selecting `e` across two components and linking their roots keeps roots and connectivity in step. */
  lemma LinkTracks(p: seq<int>, rank: seq<nat>, mst: seq<RawEdge>, e: RawEdge)
    requires Forest(p, rank) && 0 <= e.u < |p| && 0 <= e.v < |p| && Tracks(p, rank, mst)
    requires GetParent(p, rank, e.u) != GetParent(p, rank, e.v)
    ensures var r1, r2 := GetParent(p, rank, e.u), GetParent(p, rank, e.v);
      Forest(p[r1 := r2], LinkRank(rank, r1, r2)) && Tracks(p[r1 := r2], LinkRank(rank, r1, r2), mst + [e])
  {
    var r1, r2 := GetParent(p, rank, e.u), GetParent(p, rank, e.v);
    var p', rank' := p[r1 := r2], LinkRank(rank, r1, r2);
    LinkKeepsForest(p, rank, r1, r2);
    assert (mst + [e])[..|mst|] == mst;
    forall x, y | 0 <= x < |p| && 0 <= y < |p|
      ensures GetParent(p', rank', x) == GetParent(p', rank', y) <==> Linked(mst + [e], x, y)
    {
      LinkRedirects(p, rank, r1, r2, x);
      LinkRedirects(p, rank, r1, r2, y);
    }
  }

  /** The selection keeps roots and connectivity in step, and never closes a cycle. */
  lemma {:induction false} SelectTracks(p: seq<int>, rank: seq<nat>, es: seq<RawEdge>, limit: int, mst: seq<RawEdge>)
    requires Forest(p, rank) && EndpointsIn(es, |p|) && Tracks(p, rank, mst) && Acyclic(mst)
    ensures var r := Select(p, rank, es, limit, mst); Tracks(r.parent, r.rank, r.mst) && Acyclic(r.mst)
    decreases |es|
  {
    if es != [] {
      var r1 := GetParent(p, rank, es[0].u);
      var r2 := GetParent(p, rank, es[0].v);
      if r1 != r2 {
        var mst' := mst + [es[0]];
        LinkTracks(p, rank, mst, es[0]);
        assert mst'[..|mst|] == mst;
        forall k | 0 <= k < |mst'|
          ensures !Linked(mst'[..k], mst'[k].u, mst'[k].v)
        {
          if k < |mst| {
            assert mst'[..k] == mst[..k];
          }
        }
        if |mst'| != limit {
          SelectTracks(p[r1 := r2], LinkRank(rank, r1, r2), es[1..], limit, mst');
        }
      } else {
        SelectTracks(p, rank, es[1..], limit, mst);
      }
    }
  }

  /**
   * Run from the state the constructor leaves, the selection is a spanning
   * forest of the input: it never closes a cycle, two nodes are connected
   * by selected edges exactly when they end with one root, and, unless the
   * loop stopped at the limit, the endpoints of every input edge are
   * connected by selected edges.
   */
  lemma SelectSpansForest(p: seq<int>, rank: seq<nat>, es: seq<RawEdge>, limit: int)
    requires Forest(p, rank) && EndpointsIn(es, |p|) && forall i :: 0 <= i < |p| ==> p[i] == i
    ensures var r := Select(p, rank, es, limit, []);
      Acyclic(r.mst) &&
      (forall x, y :: 0 <= x < |p| && 0 <= y < |p| ==>
        (GetParent(r.parent, r.rank, x) == GetParent(r.parent, r.rank, y) <==> Linked(r.mst, x, y))) &&
      (|r.mst| != limit ==> forall k :: 0 <= k < |es| ==> Linked(r.mst, es[k].u, es[k].v))
  {
    var r := Select(p, rank, es, limit, []);
    AllRootsTrack(p, rank);
    SelectTracks(p, rank, es, limit, []);
    SelectJoinsInput(p, rank, es, limit, []);
    if |r.mst| != limit {
      forall k | 0 <= k < |es|
        ensures Linked(r.mst, es[k].u, es[k].v)
      {
        assert Joined(r.parent, r.rank, es[k]);
      }
    }
  }

  /** One step of `Select`: the first remaining edge is selected or skipped. */
  lemma SelectUnfolds(p: seq<int>, rank: seq<nat>, es: seq<RawEdge>, limit: int, mst: seq<RawEdge>)
    requires Forest(p, rank) && EndpointsIn(es, |p|) && es != []
    ensures EndpointsIn(es[1..], |p|)
    ensures var r1, r2 := GetParent(p, rank, es[0].u), GetParent(p, rank, es[0].v);
      r1 == r2 ==> Select(p, rank, es, limit, mst) == Select(p, rank, es[1..], limit, mst)
    ensures var r1, r2 := GetParent(p, rank, es[0].u), GetParent(p, rank, es[0].v);
      r1 != r2 ==> (Forest(p[r1 := r2], LinkRank(rank, r1, r2)) &&
        (|mst| + 1 == limit ==>
          Select(p, rank, es, limit, mst) == Run(p[r1 := r2], LinkRank(rank, r1, r2), mst + [es[0]])) &&
        (|mst| + 1 != limit ==>
          Select(p, rank, es, limit, mst) == Select(p[r1 := r2], LinkRank(rank, r1, r2), es[1..], limit, mst + [es[0]])))
  {
    var r1, r2 := GetParent(p, rank, es[0].u), GetParent(p, rank, es[0].v);
    if r1 != r2 {
      LinkKeepsForest(p, rank, r1, r2);
    }
  }

  /** Sorts by weight in place (the model of `edges.sort(key=weight)`). */
  method SortByWeight(a: array<RawEdge>)
    modifies a
    ensures SortedByWeight(a[..])
    ensures multiset(a[..]) == multiset(old(a[..]))
  {
    var i := 0;
    while i < a.Length
      invariant 0 <= i <= a.Length
      invariant SortedByWeight(a[..i])
      invariant multiset(a[..]) == multiset(old(a[..]))
    {
      InsertAt(a, i);
      i := i + 1;
    }
    assert a[..i] == a[..];
  }

  predicate DistinctWeights(s: seq<RawEdge>)
  {
    forall x, y :: 0 <= x < y < |s| ==> s[x].w != s[y].w
  }

  lemma TailKeepsOrder(s: seq<RawEdge>)
    requires 0 < |s| && SortedByWeight(s)
    ensures SortedByWeight(s[1..])
    ensures DistinctWeights(s) ==> DistinctWeights(s[1..])
  {
    assert forall x :: 0 <= x < |s| - 1 ==> s[1..][x] == s[x + 1];
  }

  /** Two sorted orders of the same edges, one with distinct weights, start with the same edge. */
  lemma SortedHeadsAgree(a: seq<RawEdge>, b: seq<RawEdge>)
    requires 0 < |a| && 0 < |b| && multiset(a) == multiset(b)
    requires SortedByWeight(a) && SortedByWeight(b) && DistinctWeights(a)
    ensures a[0] == b[0]
  {
    assert a[0] in multiset(b) && b[0] in multiset(a);
    var k :| 0 <= k < |b| && b[k] == a[0];
    var m :| 0 <= m < |a| && a[m] == b[0];
    assert a[0].w <= a[m].w == b[0].w <= b[k].w == a[0].w;
  }

  /** Removing the same first edge from two orders of the same edges leaves two orders of the same edges. */
  lemma TailsPermute(a: seq<RawEdge>, b: seq<RawEdge>)
    requires 0 < |a| && 0 < |b| && a[0] == b[0] && multiset(a) == multiset(b)
    ensures multiset(a[1..]) == multiset(b[1..])
  {
    assert a == [a[0]] + a[1..] && b == [b[0]] + b[1..];
    assert multiset(a[1..]) == multiset(a) - multiset{a[0]};
    assert multiset(b[1..]) == multiset(b) - multiset{a[0]};
  }

  /**
   * With pairwise distinct weights there is one order sorted by weight, so
   * the edges `get_mst` walks through do not depend on the input order.
   */
  lemma {:induction false} SortedUnique(a: seq<RawEdge>, b: seq<RawEdge>)
    requires SortedByWeight(a) && SortedByWeight(b) && multiset(a) == multiset(b) && DistinctWeights(a)
    ensures a == b
    decreases |a|
  {
    assert |a| == |multiset(a)| == |multiset(b)| == |b|;
    if |a| > 0 {
      SortedHeadsAgree(a, b);
      TailsPermute(a, b);
      TailKeepsOrder(a);
      TailKeepsOrder(b);
      SortedUnique(a[1..], b[1..]);
      assert a == [a[0]] + a[1..] && b == [b[0]] + b[1..];
    }
  }

  /** Strictly growing weights between neighbours give a sorted order with distinct weights. */
  lemma {:induction false} StrictlyIncreasing(s: seq<RawEdge>)
    requires forall i :: 0 < i < |s| ==> s[i - 1].w < s[i].w
    ensures SortedByWeight(s) && DistinctWeights(s)
    ensures forall x, y :: 0 <= x < y < |s| ==> s[x].w < s[y].w
  {
    if |s| > 1 {
      var init := s[..|s| - 1];
      StrictlyIncreasing(init);
      forall x, y | 0 <= x < y < |s|
        ensures s[x].w < s[y].w
      {
        if y < |s| - 1 {
          assert s[x] == init[x] && s[y] == init[y];
        } else if x < |s| - 2 {
          assert s[x] == init[x] && s[|s| - 2] == init[|s| - 2];
        }
      }
    }
  }

  /** Reordering the edges keeps their endpoints in range. */
  lemma PermutationKeepsEndpoints(a: seq<RawEdge>, b: seq<RawEdge>, n: int)
    requires multiset(a) == multiset(b) && EndpointsIn(a, n)
    ensures EndpointsIn(b, n)
  {
    forall k | 0 <= k < |b|
      ensures 0 <= b[k].u < n && 0 <= b[k].v < n
    {
      assert b[k] in multiset(a);
      var j :| 0 <= j < |a| && a[j] == b[k];
    }
  }

  class Kruskals {
    const numNodes: nat
    const parent: array<int>
    ghost var rank: seq<nat>

    ghost predicate Valid()
      reads this, parent
    {
      parent.Length == numNodes && Forest(parent[..], rank)
    }

    /** Every node starts as its own root. */
    constructor (numNodes: nat)
      ensures Valid() && fresh(parent)
      ensures this.numNodes == numNodes && parent.Length == numNodes
      ensures forall i :: 0 <= i < numNodes ==> parent[i] == i
      ensures rank == seq(numNodes, i => 0)
    {
      this.numNodes := numNodes;
      parent := new int[numNodes](i => i);
      rank := seq(numNodes, i => 0);
    }

    /** `union`: link root `parent1` under root `parent2`; only `parent[parent1]` changes. */
    method Union(parent1: int, parent2: int)
      requires Valid() && 0 <= parent1 < numNodes && 0 <= parent2 < numNodes
      requires parent[parent1] == parent1 && parent[parent2] == parent2 && parent1 != parent2
      modifies this, parent
      ensures Valid()
      ensures parent[..] == old(parent[..])[parent1 := parent2]
      ensures rank == LinkRank(old(rank), parent1, parent2)
    {
      LinkKeepsForest(parent[..], rank, parent1, parent2);
      parent[parent1] := parent2;
      rank := LinkRank(rank, parent1, parent2);
    }

    /**
     * The selection loop of `get_mst` over edges already sorted: it leaves the
     * parent array and the selected edges where `Select` says.
     */
    method SelectEdges(edges: array<RawEdge>) returns (mstSet: seq<RawEdge>)
      requires Valid() && EndpointsIn(edges[..], numNodes)
      modifies this, parent
      ensures Valid()
      ensures var run := Select(old(parent[..]), old(rank), edges[..], numNodes - 1, []);
        parent[..] == run.parent && rank == run.rank && mstSet == run.mst
    {
      ghost var final := Select(parent[..], rank, edges[..], numNodes - 1, []);
      assert edges[0..] == edges[..];
      mstSet := [];
      var i := 0;
      while i < edges.Length
        invariant 0 <= i <= edges.Length
        invariant Valid()
        invariant EndpointsIn(edges[i..], numNodes)
        invariant Select(parent[..], rank, edges[i..], numNodes - 1, mstSet) == final
      {
        var edge := edges[i];
        ghost var p, r, rest := parent[..], rank, edges[i..];
        assert rest[0] == edge && rest[1..] == edges[i + 1..];
        var node1Parent := GetParent(parent[..], rank, edge.u);
        var node2Parent := GetParent(parent[..], rank, edge.v);
        SelectUnfolds(p, r, rest, numNodes - 1, mstSet);
        if node1Parent != node2Parent {
          mstSet := mstSet + [edge];
          Union(node1Parent, node2Parent);
          if |mstSet| == numNodes - 1 {
            break;
          }
        }
        i := i + 1;
      }
      assert i == edges.Length ==> edges[i..] == [];
    }

    /**
     * `get_mst`: sort the edges by weight in place, select greedily with
     * union-find, stop at `numNodes - 1` edges and return the total weight
     * of the selection.
     */
    method GetMst(edges: array<RawEdge>) returns (treeWeight: int)
      requires Valid() && EndpointsIn(edges[..], numNodes)
      modifies this, parent, edges
      ensures Valid()
      ensures SortedByWeight(edges[..]) && multiset(edges[..]) == multiset(old(edges[..]))
      ensures EndpointsIn(edges[..], numNodes)
      ensures var run := Select(old(parent[..]), old(rank), edges[..], numNodes - 1, []);
        parent[..] == run.parent && rank == run.rank && treeWeight == SumWeights(run.mst)
    {
      SortByWeight(edges);
      PermutationKeepsEndpoints(old(edges[..]), edges[..], numNodes);
      var mstSet := SelectEdges(edges);
      treeWeight := 0;
      var k := 0;
      while k < |mstSet|
        invariant 0 <= k <= |mstSet|
        invariant treeWeight == SumWeights(mstSet[..k])
      {
        assert mstSet[..k + 1][..k] == mstSet[..k];
        treeWeight := treeWeight + mstSet[k].w;
        k := k + 1;
      }
      assert mstSet[..k] == mstSet;
    }
  }

  /** The four-node example graph, edges in input order. */
  const ExampleEdges: seq<RawEdge> :=
    [RawEdge(0, 1, 10), RawEdge(0, 2, 6), RawEdge(0, 3, 5), RawEdge(1, 3, 15), RawEdge(2, 3, 4)]

  /** The same edges sorted by weight. */
  const ExampleSorted: seq<RawEdge> :=
    [RawEdge(2, 3, 4), RawEdge(0, 3, 5), RawEdge(0, 2, 6), RawEdge(0, 1, 10), RawEdge(1, 3, 15)]

  /** Sorting the example by weight has a single outcome. */
  lemma ExampleSortsUniquely(s: seq<RawEdge>)
    requires SortedByWeight(s) && multiset(s) == multiset(ExampleEdges)
    ensures s == ExampleSorted
  {
    ExampleSortedDistinct();
    ExampleIsPermutation();
    SortedUnique(ExampleSorted, s);
  }

  lemma ExampleSortedDistinct()
    ensures SortedByWeight(ExampleSorted) && DistinctWeights(ExampleSorted)
  {
    StrictlyIncreasing(ExampleSorted);
  }

  lemma ExampleIsPermutation()
    ensures multiset(ExampleEdges) == multiset(ExampleSorted)
  {
    assert ExampleSorted == [ExampleEdges[4], ExampleEdges[2], ExampleEdges[1], ExampleEdges[0], ExampleEdges[3]];
  }

  /**
   * On the example, (2,3,4) and (0,3,5) are selected, (0,2,6) closes the
   * cycle 0-3-2 and is skipped, and (0,1,10) completes the tree of weight 19
   * at the limit of three edges, so (1,3,15) is never looked at.
   */
  lemma WorkedExample()
    ensures var r := Select([0, 1, 2, 3], [0, 0, 0, 0], ExampleSorted, 3, []);
      r.mst == [RawEdge(2, 3, 4), RawEdge(0, 3, 5), RawEdge(0, 1, 10)] && SumWeights(r.mst) == 19
  {
    var p1, r1 := [0, 1, 3, 3], [0, 0, 0, 1];
    var p2, r2 := [3, 1, 3, 3], [0, 0, 0, 1];
    assert GetParent(p1, r1, 0) == 0 && GetParent(p1, r1, 3) == 3;
    assert GetParent(p2, r2, 0) == 3 && GetParent(p2, r2, 2) == 3;
    assert GetParent(p2, r2, 1) == 1;
    var mst := [RawEdge(2, 3, 4), RawEdge(0, 3, 5), RawEdge(0, 1, 10)];
    assert SumWeights(mst[..1]) == 4 by {
      assert mst[..1][..0] == [];
    }
    assert SumWeights(mst[..2]) == 9 by {
      assert mst[..2][..1] == mst[..1];
    }
    assert mst[..2] == mst[..|mst| - 1];
  }

  /** `get_mst` itself on the example, edges given in input order. */
  method WorkedExampleRun() returns (weight: int)
    ensures weight == 19
  {
    var k := new Kruskals(4);
    var edges := new RawEdge[] [RawEdge(0, 1, 10), RawEdge(0, 2, 6), RawEdge(0, 3, 5), RawEdge(1, 3, 15), RawEdge(2, 3, 4)];
    assert edges[..] == ExampleEdges;
    assert k.parent[..] == [0, 1, 2, 3];
    assert k.rank == [0, 0, 0, 0];
    weight := k.GetMst(edges);
    ExampleSortsUniquely(edges[..]);
    WorkedExample();
  }
}
