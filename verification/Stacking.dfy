/** Laying one node over another and taking it off again, on the edges of the block graph alone. */
module Stacking {
  import opened BlockGraphs

  /** Node `n` has a parent that bdrv_replace_node would take away from it. */
  ghost predicate Loose(es: Edges, n: nat) {
    exists e :: e in es && es[e].bs == n && !es[e].stay
  }

  /** The edges after `n` has been put over `top` by edge `b` and in its place. */
  ghost function Stacked(es: Edges, n: nat, top: nat, b: nat): Edges {
    var h := es[b := Edge(n, top, false, false)];
    Redirect(h, Movers(h, top, n), n)
  }

  /** What an append by edge `b` needs and leaves. */
  ghost predicate StackedOk(es: Edges, es': Edges, n: nat, top: nat, b: nat) {
    && b !in es && !Reach(es, top, n)
    && es' == Stacked(es, n, top, b)
    && NoneFrozen(es[b := Edge(n, top, false, false)], top, n)
  }

  /** The edges after the abort has cut edge `b` and replaced `n` by `top`. */
  ghost function Undone(cs: Edges, n: nat, top: nat, b: nat): Edges {
    Redirect(cs - {b}, Movers(cs - {b}, n, top), top)
  }

  /** Each old edge after an append: those that moved came from `top`; the new edge is where it was put. */
  lemma StackedEdges(es: Edges, n: nat, top: nat, b: nat)
    requires b !in es
    ensures var es' := Stacked(es, n, top, b);
      && es'.Keys == es.Keys + {b} && es'[b] == Edge(n, top, false, false)
      && (forall e :: e in es ==> es'[e] == es[e] || (es[e].bs == top && !es[e].stay && es'[e] == es[e].(bs := n)))
      && (forall e :: e in es && es[e].owner < 0 && !es[e].stay && es[e].bs == top ==> es'[e].bs == n)
  {
    var h := es[b := Edge(n, top, false, false)];
    ReachSelf(h, n);
  }

  /** What moved was not frozen. */
  lemma MovedNotFrozen(es: Edges, es': Edges, n: nat, top: nat, b: nat, e: nat)
    requires StackedOk(es, es', n, top, b) && e in es && e in es' && es'[e] != es[e]
    ensures !es[e].frozen
  {
    assert e in Movers(es[b := Edge(n, top, false, false)], top, n);
  }

  /** Nothing becomes unreachable: what led to `top` leads to it through `n`. */
  lemma {:induction false} StackedPath(es: Edges, n: nat, top: nat, b: nat, x: int, path: seq<nat>, y: int)
    requires b !in es && Path(es, x, path, y)
    ensures Reach(Stacked(es, n, top, b), x, y)
    decreases |path|
  {
    var es' := Stacked(es, n, top, b);
    StackedEdges(es, n, top, b);
    if path == [] {
      ReachSelf(es', x);
    } else {
      var e := path[0];
      StackedPath(es, n, top, b, es[e].bs, path[1..], y);
      if es'[e] != es[e] {
        ReachFirst(es', b, y);
      }
      ReachFirst(es', e, y);
    }
  }

  lemma StackedReach(es: Edges, n: nat, top: nat, b: nat, x: int, y: int)
    requires b !in es && (Reach(es, x, y) || (x == n && y == top))
    ensures Reach(Stacked(es, n, top, b), x, y)
  {
    if path :| Path(es, x, path, y) {
      StackedPath(es, n, top, b, x, path, y);
    } else {
      StackedEdges(es, n, top, b);
      var es' := Stacked(es, n, top, b);
      ReachSelf(es', top);
      ReachFirst(es', b, top);
    }
  }

  /** Laying `n` over `top` makes a cycle if and only if `top` leads to `n`. */
  lemma StackedAcyclic(es: Edges, n: nat, top: nat, b: nat)
    requires Acyclic(es) && b !in es
    ensures Acyclic(Stacked(es, n, top, b)) <==> !Reach(es, top, n)
  {
    if Reach(es, top, n) {
      StackedReach(es, n, top, b, top, n);
      StackedEdges(es, n, top, b);
    } else {
      var h := es[b := Edge(n, top, false, false)];
      LinkAcyclic(es, b, Edge(n, top, false, false));
      RedirectAcyclic(h, Movers(h, top, n), n);
    }
  }

  // ---------------------------------------------------------------- undoing within a larger graph

  /** Every edge of `cs` between nodes is a path of `all`. */
  ghost predicate Within(cs: Edges, all: Edges) {
    forall e :: e in cs && cs[e].owner >= 0 ==> Reach(all, cs[e].owner, cs[e].bs)
  }

  lemma WithinSelf(es: Edges)
    ensures Within(es, es)
  {
    forall e | e in es && es[e].owner >= 0
      ensures Reach(es, es[e].owner, es[e].bs)
    {
      ReachSelf(es, es[e].bs);
      ReachFirst(es, e, es[e].bs);
    }
  }

  lemma {:induction false} WithinPath(cs: Edges, all: Edges, x: nat, path: seq<nat>, y: int)
    requires Within(cs, all) && Path(cs, x, path, y)
    ensures Reach(all, x, y)
    decreases |path|
  {
    if path == [] {
      ReachSelf(all, x);
    } else {
      WithinPath(cs, all, cs[path[0]].bs, path[1..], y);
      ReachTransitive(all, x, cs[path[0]].bs, y);
    }
  }

  /** Without cycles, two nodes do not reach each other. */
  lemma NoTwoWays(all: Edges, x: nat, y: nat)
    requires Acyclic(all) && x != y && Reach(all, x, y)
    ensures !Reach(all, y, x)
  {
    var p :| Path(all, x, p, y);
    var e := p[0];
    assert Path(all, all[e].bs, p[1..], y);
    if Reach(all, y, x) {
      ReachTransitive(all, all[e].bs, y, x);
    }
  }

  /** If `n` leads to `top` in a graph without cycles that holds all of `cs`, then an abort moves every
      edge to `n` that is not pinned. */
  lemma AllMove(cs: Edges, all: Edges, n: nat, top: nat, b: nat, e: nat)
    requires Within(cs, all) && Acyclic(all) && n != top && Reach(all, n, top) && e in cs && e != b
    ensures e in Movers(cs - {b}, n, top) <==> cs[e].bs == n && !cs[e].stay
  {
    var ds := cs - {b};
    assert ds[e] == cs[e];
    if cs[e].bs == n && cs[e].owner >= 0 {
      if p :| Path(ds, top, p, cs[e].owner) {
        PathMore(cs, ds, top, p, cs[e].owner);
        WithinPath(cs, all, top, p, cs[e].owner);
        ReachTransitive(all, top, cs[e].owner, n);
        NoTwoWays(all, n, top);
      }
    }
  }

  /** An edge after the abort. */
  function Freed(x: Edge, n: nat, top: nat): Edge {
    if x.bs == n && !x.stay then x.(bs := top) else x
  }

  lemma UndoneEdges(cs: Edges, all: Edges, n: nat, top: nat, b: nat)
    requires Within(cs, all) && Acyclic(all) && n != top && Reach(all, n, top)
    ensures var u := Undone(cs, n, top, b);
            u.Keys == cs.Keys - {b} && Within(u, all) && forall e :: e in cs && e != b ==> u[e] == Freed(cs[e], n, top)
    ensures NoneFrozen(cs - {b}, n, top) <==>
            forall e :: e in cs && e != b && cs[e].bs == n && !cs[e].stay ==> !cs[e].frozen
  {
    hide Movers, Within, Acyclic, Reach;
    var ds := cs - {b};
    forall e | e in ds
      ensures ds[e] == cs[e] && (e in Movers(ds, n, top) <==> cs[e].bs == n && !cs[e].stay)
    {
      AllMove(cs, all, n, top, b, e);
    }
    UndoneWithin(cs, all, n, top, b);
    MoversInside(ds, n, top);
  }

  lemma MoversInside(es: Edges, from: nat, to: nat)
    ensures Movers(es, from, to) <= es.Keys
  {}

  lemma UndoneWithin(cs: Edges, all: Edges, n: nat, top: nat, b: nat)
    requires Within(cs, all) && Reach(all, n, top)
    ensures Within(Undone(cs, n, top, b), all)
  {
    var u := Undone(cs, n, top, b);
    forall e | e in u && u[e].owner >= 0
      ensures Reach(all, u[e].owner, u[e].bs)
    {
      if u[e] != cs[e] {
        ReachTransitive(all, cs[e].owner, n, top);
      }
    }
  }

  // ---------------------------------------------------------------- exactly when undoing is exact

  /** Laying `n` over `top` and taking it off again restores all edges if and only if `n` had no edge of
      its own that could be moved. */
  lemma UndoIsExact(es: Edges, n: nat, top: nat, b: nat)
    requires Acyclic(es) && StackedOk(es, Stacked(es, n, top, b), n, top, b)
    ensures Undone(Stacked(es, n, top, b), n, top, b) == es <==> !Loose(es, n)
  {
    hide Movers, NoneFrozen, Reach, Acyclic;
    var es' := Stacked(es, n, top, b);
    NotItself(es, n, top);
    StackedAcyclic(es, n, top, b);
    StackedEdges(es, n, top, b);
    StackedReach(es, n, top, b, n, top);
    WithinSelf(es');
    UndoneEdges(es', es', n, top, b);
    var u := Undone(es', n, top, b);
    if e :| e in es && es[e].bs == n && !es[e].stay {
      assert u[e] == Freed(es'[e], n, top);
    }
    if !Loose(es, n) {
      assert forall e :: e in es ==> u[e] == Freed(es'[e], n, top) && u[e] == es[e];
    }
  }

  lemma NotItself(es: Edges, n: nat, top: nat)
    requires !Reach(es, top, n)
    ensures n != top
  {
    ReachSelf(es, top);
  }

  /** Users outside the graph on nodes 0 and 1; node 1 is laid over node 0 by edge 2; the abort leaves
      both users on node 0. */
  lemma UserOfOverlayIsLost()
    ensures var es: Edges := map[0 := Edge(-1, 0, false, false), 1 := Edge(-1, 1, false, false)];
            Acyclic(es) && StackedOk(es, Stacked(es, 1, 0, 2), 1, 0, 2) &&
            Undone(Stacked(es, 1, 0, 2), 1, 0, 2)[1].bs == 0
  {
    var es: Edges := map[0 := Edge(-1, 0, false, false), 1 := Edge(-1, 1, false, false)];
    NoChildren(es, 0, 1);
    Replay(es, 1);
  }

  /** A user outside the graph on node 0, and node 2 with backing node 1; node 1 is laid over node 0 by
      edge 2; the abort leaves node 2 with backing node 0. */
  lemma ParentOfOverlayIsLost()
    ensures var es: Edges := map[0 := Edge(-1, 0, false, false), 1 := Edge(2, 1, false, false)];
            Acyclic(es) && StackedOk(es, Stacked(es, 1, 0, 2), 1, 0, 2) &&
            Undone(Stacked(es, 1, 0, 2), 1, 0, 2)[1].bs == 0
  {
    var es: Edges := map[0 := Edge(-1, 0, false, false), 1 := Edge(2, 1, false, false)];
    NoChildren(es, 0, 1);
    NoChildren(es, 1, 2);
    Replay(es, 1);
  }

  lemma {:induction false} NoParents(es: Edges, x: int, path: seq<nat>, y: nat)
    requires x != y && forall e :: e in es ==> es[e].bs != y
    ensures !Path(es, x, path, y)
    decreases |path|
  {
    if path != [] && path[0] in es {
      NoParents(es, es[path[0]].bs, path[1..], y);
    }
  }

  lemma NoChildren(es: Edges, x: nat, y: nat)
    requires x != y && forall e :: e in es ==> es[e].owner != x
    ensures !Reach(es, x, y)
  {
    forall p
      ensures !Path(es, x, p, y)
    {}
  }

  lemma Replay(es: Edges, e: nat)
    requires Acyclic(es) && !Reach(es, 0, 1) && es.Keys == {0, 1} && e in es && es[e].bs == 1 && !es[e].stay
    ensures Undone(Stacked(es, 1, 0, 2), 1, 0, 2).Keys == es.Keys && Undone(Stacked(es, 1, 0, 2), 1, 0, 2)[e].bs == 0
  {
    hide Movers, NoneFrozen, Reach, Acyclic;
    var es' := Stacked(es, 1, 0, 2);
    StackedAcyclic(es, 1, 0, 2);
    StackedEdges(es, 1, 0, 2);
    StackedReach(es, 1, 0, 2, 1, 0);
    WithinSelf(es');
    UndoneEdges(es', es', 1, 0, 2);
    assert Undone(es', 1, 0, 2)[e] == Freed(es'[e], 1, 0);
  }
}
