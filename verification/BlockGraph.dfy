/** The block graph: nodes kept alive by references, edges between them, replacing nodes without
    making a cycle, and deleting nodes that nothing refers to any more. */
module BlockGraphs {

  /** BdrvChild.  `owner` is the node it belongs to, or -1 for a user outside the graph; `bs` is the
      node it points to; `stay` is its role's stay_at_node. */
  datatype Edge = Edge(owner: int, bs: nat, stay: bool, frozen: bool)

  type Edges = map<nat, Edge>

  ghost function Parents(es: Edges, n: nat): set<nat> {
    set e | e in es && es[e].bs == n
  }

  ghost function Children(es: Edges, n: int): set<nat> {
    set e | e in es && es[e].owner == n
  }

  // ---------------------------------------------------------------- paths

  /** `path` leads from node `x` to node `y`, edge by edge. */
  ghost predicate Path(es: Edges, x: int, path: seq<nat>, y: int)
    decreases |path|
  {
    if path == [] then x == y
    else path[0] in es && es[path[0]].owner == x && Path(es, es[path[0]].bs, path[1..], y)
  }

  ghost predicate Reach(es: Edges, x: int, y: int) {
    exists path :: Path(es, x, path, y)
  }

  /** No edge leads to a node from which its own owner can be reached. */
  ghost predicate Acyclic(es: Edges) {
    forall e :: e in es && es[e].owner >= 0 ==> !Reach(es, es[e].bs, es[e].owner)
  }

  lemma ReachSelf(es: Edges, x: int)
    ensures Reach(es, x, x)
  {
    assert Path(es, x, [], x);
  }

  lemma {:induction false} PathAppend(es: Edges, x: int, p: seq<nat>, y: int, q: seq<nat>, z: int)
    requires Path(es, x, p, y) && Path(es, y, q, z)
    ensures Path(es, x, p + q, z)
    decreases |p|
  {
    if p == [] {
      assert p + q == q;
    } else {
      PathAppend(es, es[p[0]].bs, p[1..], y, q, z);
      assert (p + q)[1..] == p[1..] + q;
    }
  }

  lemma ReachStep(es: Edges, x: int, e: nat)
    requires e in es && Reach(es, x, es[e].owner)
    ensures Reach(es, x, es[e].bs)
  {
    var p :| Path(es, x, p, es[e].owner);
    assert [e][1..] == [];
    assert Path(es, es[e].owner, [e], es[e].bs);
    PathAppend(es, x, p, es[e].owner, [e], es[e].bs);
  }

  /** A set of nodes closed under edges holds everything reachable from its members. */
  lemma {:induction false} ClosedHolds(es: Edges, s: set<int>, x: int, path: seq<nat>, y: int)
    requires x in s && Path(es, x, path, y)
    requires forall e :: e in es && es[e].owner in s ==> es[e].bs in s
    ensures y in s
    decreases |path|
  {
    if path != [] {
      ClosedHolds(es, s, es[path[0]].bs, path[1..], y);
    }
  }

  // ---------------------------------------------------------------- redirecting edges

  /** The edges in `moved`, pointing to `dest` instead. */
  ghost function Redirect(es: Edges, moved: set<nat>, dest: nat): (r: Edges)
    ensures r.Keys == es.Keys
  {
    map e | e in es :: if e in moved then es[e].(bs := dest) else es[e]
  }

  /** What should_update_child decides. */
  ghost predicate Moves(es: Edges, e: nat, dest: nat) {
    e in es && !es[e].stay && (es[e].owner >= 0 ==> !Reach(es, dest, es[e].owner))
  }

  /** A redirected edge belongs to a node that the destination leads to. */
  ghost predicate Caught(es: Edges, moved: set<nat>, dest: nat) {
    exists m :: m in moved && m in es && es[m].owner >= 0 && Reach(es, dest, es[m].owner)
  }

  /** Redirecting edges makes nothing new reachable from the destination, unless one is caught. */
  lemma {:induction false} RedirectReach(es: Edges, moved: set<nat>, dest: nat, x: int, path: seq<nat>, y: int)
    requires Reach(es, dest, x) && x >= 0 && Path(Redirect(es, moved, dest), x, path, y)
    ensures Reach(es, dest, y) || Caught(es, moved, dest)
    decreases |path|
  {
    if path != [] && path[0] !in moved {
      var e := path[0];
      ReachStep(es, dest, e);
      RedirectReach(es, moved, dest, es[e].bs, path[1..], y);
    }
  }

  /** A path is an old path, or it comes to a redirected edge and goes on from the destination. */
  lemma {:induction false} OldOrThrough(es: Edges, moved: set<nat>, dest: nat, x: int, path: seq<nat>, y: int)
    requires moved <= es.Keys && Path(Redirect(es, moved, dest), x, path, y)
    ensures Path(es, x, path, y) ||
            (Reach(Redirect(es, moved, dest), dest, y) && exists m :: m in moved && Reach(es, x, es[m].owner))
    decreases |path|
  {
    if path != [] {
      var es' := Redirect(es, moved, dest);
      var e := path[0];
      if e in moved {
        assert Path(es', dest, path[1..], y);
        ReachSelf(es, x);
      } else {
        OldOrThrough(es, moved, dest, es[e].bs, path[1..], y);
        if !Path(es, es[e].bs, path[1..], y) {
          var m :| m in moved && Reach(es, es[e].bs, es[m].owner);
          ReachFirst(es, e, es[m].owner);
        }
      }
    }
  }

  lemma ReachFirst(es: Edges, e: nat, y: int)
    requires e in es && Reach(es, es[e].bs, y)
    ensures Reach(es, es[e].owner, y)
  {
    var p :| Path(es, es[e].bs, p, y);
    assert ([e] + p)[1..] == p;
    assert Path(es, es[e].owner, [e] + p, y);
  }

  lemma ReachTransitive(es: Edges, x: int, y: int, z: int)
    requires Reach(es, x, y) && Reach(es, y, z)
    ensures Reach(es, x, z)
  {
    var p :| Path(es, x, p, y);
    var q :| Path(es, y, q, z);
    PathAppend(es, x, p, y, q, z);
  }

  /** However many edges are redirected at once, no cycle appears. */
  lemma RedirectAcyclic(es: Edges, moved: set<nat>, dest: nat)
    requires Acyclic(es) && forall e :: e in moved ==> Moves(es, e, dest)
    ensures Acyclic(Redirect(es, moved, dest))
  {
    var es' := Redirect(es, moved, dest);
    forall e | e in es' && es'[e].owner >= 0
      ensures !Reach(es', es'[e].bs, es'[e].owner)
    {
      if Reach(es', es'[e].bs, es'[e].owner) {
        RedirectCycle(es, moved, dest, e);
      }
    }
  }

  /** A cycle after redirecting was a cycle before, or a redirected edge is caught. */
  lemma RedirectCycle(es: Edges, moved: set<nat>, dest: nat, e: nat)
    requires moved <= es.Keys && e in es && es[e].owner >= 0
    requires Reach(Redirect(es, moved, dest), Redirect(es, moved, dest)[e].bs, es[e].owner)
    ensures Reach(es, es[e].bs, es[e].owner) || Caught(es, moved, dest)
  {
    var es', y := Redirect(es, moved, dest), es[e].owner;
    var p :| Path(es', es'[e].bs, p, y);
    ReachSelf(es, dest);
    if e in moved {
      RedirectReach(es, moved, dest, dest, p, y);
    } else {
      OldOrThrough(es, moved, dest, es[e].bs, p, y);
      if !Path(es, es[e].bs, p, y) {
        var q :| Path(es', dest, q, y);
        RedirectReach(es, moved, dest, dest, q, y);
        if Reach(es, dest, y) {
          ReachStep(es, dest, e);
          var m :| m in moved && Reach(es, es[e].bs, es[m].owner);
          ReachTransitive(es, dest, es[e].bs, es[m].owner);
          ReachedOwner(es, es[e].bs, m);
        }
      }
    }
  }

  /** Only nodes are reached from nodes. */
  lemma ReachedOwner(es: Edges, x: nat, m: nat)
    requires m in es && Reach(es, x, es[m].owner)
    ensures es[m].owner >= 0
  {
    var p :| Path(es, x, p, es[m].owner);
    PathEndsAtNode(es, x, p, es[m].owner);
  }

  lemma {:induction false} PathEndsAtNode(es: Edges, x: nat, p: seq<nat>, y: int)
    requires Path(es, x, p, y)
    ensures y >= 0
    decreases |p|
  {
    if p != [] {
      PathEndsAtNode(es, es[p[0]].bs, p[1..], y);
    }
  }

  /** The test is exact: redirecting a caught edge would make a cycle. */
  lemma RedirectExact(es: Edges, moved: set<nat>, dest: nat)
    requires Acyclic(es) && moved <= es.Keys
    ensures Acyclic(Redirect(es, moved, dest)) <==> !Caught(es, moved, dest)
  {
    var es' := Redirect(es, moved, dest);
    if Caught(es, moved, dest) {
      var m :| m in moved && m in es && es[m].owner >= 0 && Reach(es, dest, es[m].owner);
      var p :| Path(es, dest, p, es[m].owner);
      var k := FirstMoved(es, moved, dest, dest, p, m);
      assert es'[k].bs == dest && Reach(es', es'[k].bs, es'[k].owner);
    } else {
      forall e | e in es' && es'[e].owner >= 0
        ensures !Reach(es', es'[e].bs, es'[e].owner)
      {
        if Reach(es', es'[e].bs, es'[e].owner) {
          RedirectCycle(es, moved, dest, e);
        }
      }
    }
  }

  /** The first redirected edge on a path, still reached after redirecting. */
  lemma {:induction false} FirstMoved(es: Edges, moved: set<nat>, dest: nat, x: nat, path: seq<nat>, m: nat)
    returns (k: nat)
    requires moved <= es.Keys && m in moved && es[m].owner >= 0 && Path(es, x, path, es[m].owner)
    ensures k in moved && es[k].owner >= 0 && Reach(Redirect(es, moved, dest), x, es[k].owner)
    decreases |path|
  {
    var es' := Redirect(es, moved, dest);
    ReachSelf(es', x);
    if path == [] {
      k := m;
    } else if path[0] in moved {
      k := path[0];
    } else {
      k := FirstMoved(es, moved, dest, es[path[0]].bs, path[1..], m);
      ReachFirst(es', path[0], es[k].owner);
    }
  }

  // ---------------------------------------------------------------- references

  /** The state of a graph: its edges, the count of each live node, the edge to each node's backing
      node, the next unused edge number, and the references to each node that are not edges. */
  datatype Graph = Graph(edges: Edges, refcnt: map<nat, nat>, backing: map<nat, nat>, next: nat, extra: map<nat, nat>)

  /** Every edge points to a live node and belongs to a live node, a node being closed, or a user
      outside the graph.  A node's count is its incoming edges plus the references held elsewhere. */
  ghost predicate Wired(g: Graph, dying: set<nat>) {
    && g.refcnt.Keys !! dying
    && (forall e :: e in g.edges ==>
          && e < g.next && g.edges[e].bs in g.refcnt
          && (g.edges[e].owner == -1 || g.edges[e].owner in g.refcnt || g.edges[e].owner in dying))
    && g.extra.Keys == g.refcnt.Keys
    && (forall n :: n in g.refcnt ==> g.refcnt[n] == |Parents(g.edges, n)| + g.extra[n])
  }

  /** The backing pointer of a live node is one of its own edges. */
  ghost predicate BackingOk(g: Graph) {
    forall n :: n in g.backing && n in g.refcnt ==> g.backing[n] in g.edges && g.edges[g.backing[n]].owner == n
  }

  /** ... and no live node is without references. */
  ghost predicate Inv(g: Graph, dying: set<nat>) {
    Wired(g, dying) && forall n :: n in g.refcnt ==> g.refcnt[n] > 0
  }

  /** A state in which only node `n` is without references. */
  ghost predicate Zero(g: Graph, n: nat, dying: set<nat>) {
    Wired(g, dying) && forall m :: m in g.refcnt ==> (g.refcnt[m] == 0 <==> m == n)
  }

  /** What deleting unreferenced nodes leaves: the same edges, except those of deleted nodes; and
      deleted nodes were held by nobody outside. */
  ghost predicate Kept(g: Graph, g': Graph) {
    && g'.next == g.next && g'.refcnt.Keys <= g.refcnt.Keys && g'.backing.Keys <= g.backing.Keys
    && g'.extra.Keys == g'.refcnt.Keys && g.extra.Keys == g.refcnt.Keys
    && (forall e :: e in g'.edges ==> e in g.edges && g'.edges[e] == g.edges[e])
    && (forall e :: e in g.edges && e !in g'.edges ==> g.edges[e].owner in g.refcnt && g.edges[e].owner !in g'.refcnt)
    && (forall m :: m in g'.refcnt ==> g'.extra[m] == g.extra[m])
    && (forall m :: m in g.refcnt && m !in g'.refcnt ==> g.extra[m] == 0)
    && (forall m :: m in g'.refcnt ==>
          (m in g'.backing <==> m in g.backing) && (m in g.backing ==> g'.backing[m] == g.backing[m]))
  }

  /** Deletion goes down: everything that goes is below `n`. */
  ghost predicate OnlyBelow(g: Graph, g': Graph, n: nat) {
    forall m :: m in g.refcnt && m !in g'.refcnt ==> Reach(g.edges, n, m)
  }

  /** One outside reference to `n` more, or less; edge `e` gone with the reference it held; node `n`
      off the list of nodes. */
  function More(g: Graph, n: nat): Graph
    requires n in g.refcnt && n in g.extra
  {
    g.(refcnt := g.refcnt[n := g.refcnt[n] + 1], extra := g.extra[n := g.extra[n] + 1])
  }

  function Less(g: Graph, n: nat): Graph
    requires n in g.refcnt && n in g.extra && g.refcnt[n] > 0 && g.extra[n] > 0
  {
    g.(refcnt := g.refcnt[n := g.refcnt[n] - 1], extra := g.extra[n := g.extra[n] - 1])
  }

  /** A new node, held by the caller. */
  function Opened(g: Graph, n: nat): Graph {
    g.(refcnt := g.refcnt[n := 1], extra := g.extra[n := 1])
  }

  lemma OpenedInv(g: Graph, n: nat)
    requires Inv(g, {}) && BackingOk(g) && n !in g.refcnt && n !in g.backing
    ensures Inv(Opened(g, n), {}) && BackingOk(Opened(g, n))
  {
    assert Parents(g.edges, n) == {};
  }

  /** Edge `e` detached: its reference is held by the caller now. */
  function Cut(g: Graph, e: nat): Graph
    requires e in g.edges && g.edges[e].bs in g.extra
  {
    g.(edges := g.edges - {e}, extra := g.extra[g.edges[e].bs := g.extra[g.edges[e].bs] + 1])
  }

  function Bury(g: Graph, n: nat): Graph {
    g.(refcnt := g.refcnt - {n}, extra := g.extra - {n})
  }

  class BlockGraph {
    var edges: Edges
    var refcnt: map<nat, nat>
    var backing: map<nat, nat>         // bs->backing, for nodes that have one
    var nextEdge: nat
    ghost var extra: map<nat, nat>     // references that are not edges

    ghost function G(): Graph
      reads this
    {
      Graph(edges, refcnt, backing, nextEdge, extra)
    }

    /** bdrv_ref */
    method Ref(n: nat)
      requires n in refcnt && n in extra
      modifies this
      ensures G() == More(old(G()), n)
    {
      refcnt := refcnt[n := refcnt[n] + 1];
      extra := extra[n := extra[n] + 1];
    }

    /** bdrv_open of a new image: a node without edges that the caller holds. */
    method Open(n: nat)
      requires Valid() && n !in refcnt && n !in backing
      modifies this
      ensures Valid() && G() == Opened(old(G()), n)
    {
      ghost var g := G();
      refcnt := refcnt[n := 1];
      extra := extra[n := 1];
      OpenedInv(g, n);
    }

    /** bdrv_unref */
    method Unref(n: nat, ghost dying: set<nat>)
      requires Inv(G(), dying) && n in refcnt && n in extra && extra[n] > 0
      modifies this
      ensures Inv(G(), dying) && Kept(Less(old(G()), n), G()) && OnlyBelow(old(G()), G(), n)
      ensures old(refcnt)[n] > 1 ==> G() == Less(old(G()), n)
      ensures old(refcnt)[n] == 1 ==> n !in refcnt
      ensures old(refcnt)[n] == 1 && Children(old(edges), n) == {} ==>
                G() == Bury(old(G()), n).(backing := old(backing) - {n})
      decreases |edges|, 2
    {
      hide Kept, Inv, Wired, Zero, Children, Bury, Reach;
      ghost var g := G();
      Released(g, n, dying);
      refcnt := refcnt[n := refcnt[n] - 1];
      extra := extra[n := extra[n] - 1];
      if refcnt[n] == 0 {
        Delete(n, dying);
        BuryLess(g, n);
      }
    }

    /** bdrv_delete and bdrv_close: every child edge of the node is detached, and the reference it
        held is dropped. */
    method Delete(n: nat, ghost dying: set<nat>)
      requires n in refcnt && Zero(G(), n, dying)
      modifies this
      ensures Inv(G(), dying) && Kept(old(G()), G()) && n !in refcnt && OnlyBelow(old(G()), G(), n)
      ensures Children(old(edges), n) == {} ==> G() == Bury(old(G()), n).(backing := old(backing) - {n})
      decreases |edges|, 1
    {
      hide Kept, Inv, Wired, Zero, Children, Reach;
      ghost var g := G();
      ReachSelf(g.edges, n);
      Buried(g, n, dying);
      refcnt := refcnt - {n};
      extra := extra - {n};
      while exists e :: e in edges && edges[e].owner == n
        invariant Inv(G(), dying + {n}) && Kept(g, G()) && n !in refcnt && OnlyBelow(g, G(), n)
        invariant Children(g.edges, n) == {} ==> G() == Bury(g, n)
        invariant |edges| <= |g.edges|
        decreases |edges|
      {
        var e :| e in edges && edges[e].owner == n;
        ghost var g1 := G();
        InChildren(g, g1, n, e);
        EdgeIsLive(g1, e, dying + {n});
        UnrefChild(e, dying + {n});
        CutKept(g, g1, n, e);
        BelowFirst(g, g1, G(), n, e);
        KeptTransitive(g, Less(Cut(g1, e), g1.edges[e].bs), G());
      }
      Closed(g, G(), n, dying);
      backing := backing - {n};
    }

    /** bdrv_root_unref_child */
    method UnrefChild(e: nat, ghost dying: set<nat>)
      requires Inv(G(), dying) && e in edges && edges[e].bs in refcnt && edges[e].bs in extra && refcnt[edges[e].bs] > 0
      modifies this
      ensures Inv(G(), dying) && Kept(Less(Cut(old(G()), e), old(edges)[e].bs), G()) && |edges| < old(|edges|)
      ensures OnlyBelow(old(G()), G(), old(edges)[e].bs)
      ensures old(refcnt)[old(edges)[e].bs] > 1 ==> G() == Less(Cut(old(G()), e), old(edges)[e].bs)
      decreases |edges|, 0
    {
      hide Kept, Inv, Wired, Reach;
      var n := edges[e].bs;
      ghost var g := G();
      Detached(g, e, dying);
      edges := edges - {e};
      extra := extra[n := extra[n] + 1];
      assert G() == Cut(g, e);
      Unref(n, dying);
      BelowMore(g, Cut(g, e), G(), n);
      KeptSmaller(Less(Cut(g, e), n), G());
    }

    /** should_update_child: a breadth-first search below `dest` for the edge `c`. */
    method ShouldUpdateChild(c: nat, dest: nat) returns (ret: bool)
      requires c in edges
      ensures ret <==> Moves(edges, c, dest)
    {
      hide Reach;
      if edges[c].stay {
        return false;
      }
      ret := true;
      var found: set<nat>, queue: seq<nat> := {dest}, [dest];
      ghost var done: set<nat> := {};
      ReachSelf(edges, dest);
      while queue != []
        invariant dest in found && found <= Targets(edges, dest)
        invariant forall x :: x in found <==> x in done || x in queue
        invariant forall x :: x in found ==> Reach(edges, dest, x)
        invariant ret ==> forall e :: e in edges && edges[e].owner in done ==> edges[e].bs in found && e != c
        invariant !ret ==> edges[c].owner >= 0 && Reach(edges, dest, edges[c].owner)
        decreases |Targets(edges, dest) - found|, |queue|
      {
        var v := queue[0];
        assert queue == [v] + queue[1..];
        ghost var found0, queue0, size := found, queue[1..], |queue|;
        found, queue, ret := VisitChildren(c, dest, v, found, queue[1..], ret);
        assert queue == queue0 + queue[|queue0|..];
        done := done + {v};
        FewerLeft(Targets(edges, dest), found0, found);
      }
      if ret && edges[c].owner >= 0 {
        NotFound(edges, found, dest, c);
      }
    }

    /** The inner loop of should_update_child, over the children of `v`. */
    method VisitChildren(c: nat, dest: nat, v: nat, found0: set<nat>, queue0: seq<nat>, ret0: bool)
      returns (found: set<nat>, queue: seq<nat>, ret: bool)
      requires c in edges && Reach(edges, dest, v) && found0 <= Targets(edges, dest)
      requires forall x :: x in found0 ==> Reach(edges, dest, x)
      ensures found0 <= found <= Targets(edges, dest) && queue0 <= queue
      ensures forall x :: x in found <==> x in found0 || x in queue[|queue0|..]
      ensures found == found0 ==> queue == queue0
      ensures forall x :: x in found ==> Reach(edges, dest, x)
      ensures ret ==> ret0 && forall e :: e in edges && edges[e].owner == v ==> edges[e].bs in found && e != c
      ensures !ret ==> !ret0 || edges[c].owner == v
    {
      found, queue, ret := found0, queue0, ret0;
      var todo := set e | e in edges && edges[e].owner == v;
      while todo != {}
        invariant todo <= edges.Keys && forall e :: e in todo ==> edges[e].owner == v
        invariant found0 <= found <= Targets(edges, dest) && queue0 <= queue && ret == ret0
        invariant forall x :: x in found <==> x in found0 || x in queue[|queue0|..]
        invariant found == found0 ==> queue == queue0
        invariant forall x :: x in found ==> Reach(edges, dest, x)
        invariant forall e :: e in edges && edges[e].owner == v && e !in todo ==> edges[e].bs in found && e != c
        decreases |todo|
      {
        var c2 :| c2 in todo;
        todo := todo - {c2};
        if c2 == c {
          ret := false;
          break;
        }
        if edges[c2].bs !in found {
          ReachStep(edges, dest, c2);
          assert (queue + [edges[c2].bs])[|queue0|..] == queue[|queue0|..] + [edges[c2].bs];
          queue := queue + [edges[c2].bs];
          found := found + {edges[c2].bs};
        }
      }
    }

    /** Between operations: counts are right, nothing is being closed, backing pointers are edges of
        their nodes. */
    ghost predicate Valid()
      reads this
    {
      Inv(G(), {}) && BackingOk(G())
    }

    /** bdrv_root_attach_child, and bdrv_attach_child where `parent` is a node and not -1 for a user
        outside: the caller's reference to `child` becomes the new edge's, or is dropped if the
        permissions are not granted. */
    method AttachChild(parent: int, child: nat, stay: bool, granted: bool) returns (ok: bool, e: nat)
      requires Valid() && (parent == -1 || parent in refcnt) && child in refcnt && child in extra && extra[child] > 0
      modifies this
      ensures Valid() && ok == granted && e == old(nextEdge)
      ensures ok ==> G() == Link(old(G()), Edge(parent, child, stay, false))
      ensures !ok ==> Kept(Less(old(G()), child), G()) && (old(refcnt)[child] > 1 ==> G() == Less(old(G()), child))
    {
      hide Inv, Wired, Kept, BackingOk;
      ghost var g := G();
      e := nextEdge;
      ok := granted;
      LessBacking(g, child, {});
      if !granted {
        Unref(child, {});
        KeptBacking(Less(g, child), G());
        return;
      }
      Linked(g, Edge(parent, child, stay, false));
      LinkBacking(g, Edge(parent, child, stay, false));
      edges := edges[e := Edge(parent, child, stay, false)];
      nextEdge := nextEdge + 1;
      extra := extra[child := extra[child] - 1];
    }

    /** bdrv_replace_node: all edges to `from` that may move now point to `to`, or none does. */
    method ReplaceNode(from: nat, to: nat, granted: bool) returns (ok: bool)
      requires Valid() && from in refcnt && to in refcnt && from != to
      modifies this
      ensures Valid()
      ensures ok <==> granted && NoneFrozen(old(edges), from, to)
      ensures !ok ==> G() == old(G())
      ensures ok ==> Kept(Moved(old(G()), Movers(old(edges), from, to), from, to), G())
      ensures ok && old(refcnt)[from] > |Movers(old(edges), from, to)| ==>
                G() == Moved(old(G()), Movers(old(edges), from, to), from, to)
      ensures Acyclic(old(edges)) ==> Acyclic(edges)
    {
      hide Inv, Wired, Kept, BackingOk, Moved, Movers, More, Less, Acyclic, Reach, NoneFrozen;
      ghost var g := G();
      Referenced(g, from);
      Ref(from);
      var frozen, list := CollectMovers(from, to);
      if frozen || !granted {
        Unref(from, {});
        return false;
      }
      MoversAreParents(g, from, to);
      RedirectAll(list, from, to);
      MovedBack(g, list, from, to);
      Unref(from, {});
      KeptBacking(Moved(g, list, from, to), G());
      MovedAcyclic(g, from, to, G());
      ok := true;
    }

    /** The first loop of bdrv_replace_node; `frozen` is its error. */
    method CollectMovers(from: nat, to: nat) returns (frozen: bool, list: set<nat>)
      ensures !frozen ==> list == Movers(edges, from, to)
      ensures frozen <==> !NoneFrozen(edges, from, to)
    {
      frozen, list := false, {};
      var todo := set e | e in edges && edges[e].bs == from;
      while todo != {}
        invariant todo <= edges.Keys && (forall e :: e in todo ==> edges[e].bs == from) && !frozen
        invariant forall e :: e in edges && edges[e].bs == from && e !in todo ==> (e in list <==> Moves(edges, e, to))
        invariant forall e :: e in list ==> e in edges && edges[e].bs == from && Moves(edges, e, to) && !edges[e].frozen
        decreases |todo|
      {
        var c :| c in todo;
        todo := todo - {c};
        var moves := ShouldUpdateChild(c, to);
        if moves {
          if edges[c].frozen {
            return true, list;
          }
          list := list + {c};
        }
      }
    }

    /** The second loop of bdrv_replace_node. */
    method RedirectAll(list: set<nat>, from: nat, to: nat)
      requires Inv(G(), {}) && from in refcnt && to in refcnt && from != to && from in extra && extra[from] > 0
      requires forall e :: e in list ==> e in edges && edges[e].bs == from
      modifies this
      ensures Inv(G(), {}) && G() == Moved(old(G()), list, from, to)
    {
      hide Inv, Wired, Kept, Moved, Less, Shift;
      ghost var g := G();
      var todo := list;
      ghost var done: set<nat> := {};
      MovedNone(g, from, to);
      while todo != {}
        invariant done !! todo && done + todo == list
        invariant Inv(G(), {}) && G() == Moved(g, done, from, to)
        decreases |todo|
      {
        var c :| c in todo;
        todo := todo - {c};
        MovedEdge(g, done, from, to, c);
        RedirectOne(c, from, to);
        MoveOne(g, done, from, to, c);
        done := done + {c};
      }
      assert done == list;
    }

    /** The body of that loop: a reference to the new node, the move of edge `c`, and one reference less to
        the old node. */
    method RedirectOne(c: nat, from: nat, to: nat)
      requires Inv(G(), {}) && c in edges && edges[c].bs == from != to && from in refcnt && to in refcnt
      requires from in extra && extra[from] > 0
      modifies this
      ensures Inv(G(), {}) && old(refcnt)[from] > 1 && G() == Less(Shift(old(G()), c, from, to), from)
    {
      hide Inv, Wired, Kept, Less, Children, Bury, OnlyBelow;
      ghost var g := G();
      Shifted(g, c, from, to);
      Ref(to);
      edges := edges[c := edges[c].(bs := to)];
      extra := extra[to := extra[to] - 1][from := extra[from] + 1];
      assert G() == Shift(g, c, from, to);
      Unref(from, {});
    }

    /** The part of bdrv_set_backing_hd that lets go of the old backing node. */
    method DropBacking(n: nat)
      requires Valid() && Acyclic(edges) && n in refcnt && n in backing && BackEdge(G(), n)
      modifies this
      ensures Valid() && Acyclic(edges) && n in refcnt
      ensures Kept(Unback(old(G()), n), G()) && OnlyBelow(old(G()), G(), old(edges)[old(backing)[n]].bs)
      ensures old(refcnt)[old(edges)[old(backing)[n]].bs] > 1 ==> G() == Unback(old(G()), n)
    {
      hide Inv, Wired, Kept, BackingOk, Reach, Acyclic;
      ghost var g := G();
      UnrefChild(backing[n], {});
      ghost var g1 := G();
      backing := backing - {n};
      AfterDrop(g, n, g1);
    }

    /** bdrv_set_backing_hd, with `hd` negative for no backing node.  The old backing edge goes
        first, and stays gone if the new one is not granted; a frozen one stops everything.  `mid`
        is the graph in between. */
    method SetBacking(n: nat, hd: int, granted: bool) returns (ok: bool, ghost mid: Graph)
      requires Valid() && Acyclic(edges) && n in refcnt && (hd >= 0 ==> hd in refcnt)
      modifies this
      ensures Valid()
      ensures ok <==> !FrozenBacking(old(G()), n) && (hd < 0 || granted)
      ensures FrozenBacking(old(G()), n) ==> G() == old(G())
      ensures !FrozenBacking(old(G()), n) ==> LetGo(Hold(old(G()), hd), n, mid)
      ensures ok ==> (if hd < 0 then G() == mid else Holds(mid, hd) && G() == Overlay(mid, n, hd))
      ensures !ok && !FrozenBacking(old(G()), n) ==> Holds(mid, hd) && Kept(Less(mid, hd), G())
      ensures !ok && !FrozenBacking(old(G()), n) && mid.refcnt[hd] > 1 ==> G() == Less(mid, hd)
      ensures hd < 0 || !Reach(old(edges), hd, n) ==> Acyclic(edges)
    {
      hide Inv, Wired, Kept, BackingOk, Reach, Acyclic, OnlyBelow;
      ghost var es := edges;
      mid := G();
      BackingEdge(G(), n);
      if n in backing && edges[backing[n]].frozen {
        return false, mid;
      }
      if hd >= 0 {
        Referenced(G(), hd);
        MoreBacking(G(), hd);
        Ref(hd);
      }
      ghost var g := G();
      BackingEdge(g, n);
      if n in backing {
        DropBacking(n);
      }
      mid := G();
      if hd < 0 {
        return true, mid;
      }
      StillHeld(g, n, mid, hd);
      var e;
      LetGoFewer(g, n, mid);
      ok, e := AttachChild(n, hd, false, granted);
      if ok {
        OverlayBacking(mid, n, hd);
        OverlayAcyclic(es, mid, n, hd);
        backing := backing[n := e];
      } else {
        KeptFewer(Less(mid, hd), G());
        FewerAcyclic(es, edges);
      }
    }

    /** bdrv_append: put `top` under `new'` and `new'` in its place.  It takes over a reference to
        `new'`.  `granted` and `granted2` are the permission checks of its two steps. */
    method Append(new': nat, top: nat, granted: bool, granted2: bool) returns (ok: bool)
      requires Valid() && Acyclic(edges) && Holds(G(), new') && top in refcnt && new' !in backing
      requires granted ==> !Reach(edges, top, new')
      modifies this
      ensures Valid() && Acyclic(edges)
      ensures ok <==> granted && granted2 && NoneFrozen(Put(old(G()), new', top).edges, top, new')
      ensures ok ==> Kept(Less(Appended(old(G()), new', top), new'), G())
      ensures ok && old(extra)[new'] > 1 ==> G() == Less(Appended(old(G()), new', top), new')
      ensures !ok ==> Kept(Less(old(G()), new').(next := nextEdge), G())
      ensures !ok && old(refcnt)[new'] > 1 ==> G() == Less(old(G()), new').(next := nextEdge)
    {
      hide Inv, Wired, Kept, BackingOk, Reach, Acyclic, OnlyBelow, Overlay, Moved, Movers, Unback, More, Less;
      hide NoneFrozen;
      ghost var g := G();
      HoldFacts(g, new', top);
      if granted {
        ReachSelf(edges, top);
        PutFacts(g, new', top);
      }
      ghost var mid;
      ok, mid := SetBacking(new', top, granted);
      if ok {
        assert G() == Put(g, new', top);
        ok := ReplaceNode(top, new', granted2);
        if !ok {
          var _, mid2 := SetBacking(new', -1, true);
        }
      }
      ghost var g1 := G();
      assert g1 == if ok then Appended(g, new', top) else g.(next := nextEdge);
      LessNext(g, new', nextEdge);
      Unref(new', {});
      AfterUnref(g1, new', G());
    }
  }

  /** A node's backing edge, and the node it points to, are there. */
  ghost predicate BackEdge(g: Graph, n: nat) {
    n in g.backing && g.backing[n] in g.edges && Holdable(g, g.edges[g.backing[n]].bs)
  }

  ghost predicate Holdable(g: Graph, n: nat) {
    n in g.refcnt && n in g.extra && g.refcnt[n] > 0
  }

  /** The caller holds a reference to `n`. */
  ghost predicate Holds(g: Graph, n: int) {
    n >= 0 && Holdable(g, n) && g.extra[n] > 0
  }

  ghost predicate FrozenBacking(g: Graph, n: nat) {
    BackEdge(g, n) && g.edges[g.backing[n]].frozen
  }

  function Hold(g: Graph, n: int): Graph
    requires n >= 0 ==> n in g.refcnt && n in g.extra
  {
    if n < 0 then g else More(g, n)
  }

  /** Without its backing edge and the reference that edge held. */
  ghost function Unback(g: Graph, n: nat): Graph
    requires BackEdge(g, n)
  {
    Less(Cut(g, g.backing[n]), g.edges[g.backing[n]].bs).(backing := g.backing - {n})
  }

  /** With a backing edge to `hd` that takes over a reference of the caller. */
  ghost function Overlay(g: Graph, n: nat, hd: nat): Graph
    requires Holds(g, hd)
  {
    Link(g, Edge(n, hd, false, false)).(backing := g.backing[n := g.next])
  }

  /** `mid` is `g` after letting go of the backing node of `n`, if it has one. */
  ghost predicate LetGo(g: Graph, n: nat, mid: Graph) {
    if !BackEdge(g, n) then mid == g
    else Kept(Unback(g, n), mid) && (g.refcnt[g.edges[g.backing[n]].bs] > 1 ==> mid == Unback(g, n))
  }

  /** `new'` over `top`, before anything points to it. */
  ghost function Put(g: Graph, new': nat, top: nat): Graph
    requires top in g.refcnt && top in g.extra
  {
    Overlay(More(g, top), new', top)
  }

  /** `new'` over `top` and in its place. */
  ghost function Appended(g: Graph, new': nat, top: nat): Graph
    requires top in g.refcnt && top in g.extra && new' in g.refcnt
  {
    var g1 := Put(g, new', top);
    Moved(g1, Movers(g1.edges, top, new'), top, new')
  }

  ghost predicate NoneFrozen(es: Edges, from: nat, to: nat) {
    forall e :: e in Movers(es, from, to) && e in es ==> !es[e].frozen
  }

  /** A reference to `top` can be taken and dropped again. */
  lemma HoldFacts(g: Graph, new': nat, top: nat)
    requires Inv(g, {}) && Holds(g, new') && top in g.refcnt && new' !in g.backing
    ensures top in g.extra && Holds(More(g, top), top) && !BackEdge(More(g, top), new') && More(g, top).refcnt[top] > 1
    ensures Less(More(g, top), top) == g
  {
    LessMore(g, top);
  }

  /** Putting `new'` over `top` adds one edge that cannot move to `new'` itself, and is undone by
      taking the backing edge away. */
  lemma PutFacts(g: Graph, new': nat, top: nat)
    requires Inv(g, {}) && BackingOk(g) && Holds(g, new') && top in g.refcnt && new' != top && new' !in g.backing
    ensures var p := Put(g, new', top);
            && new' in p.refcnt && top in p.refcnt && |Movers(p.edges, top, new')| < p.refcnt[top]
            && BackEdge(p, new') && !p.edges[p.backing[new']].frozen && p.edges[p.backing[new']].bs == top
            && p.refcnt[top] > 1
            && Unback(p, new') == g.(next := g.next + 1)
    ensures Holds(Appended(g, new', top), new')
    ensures g.extra[new'] > 1 ==> Appended(g, new', top).refcnt[new'] > 1
  {
    var p := Put(g, new', top);
    PutMovers(g, new', top);
    UnbackPut(g, new', top);
  }

  lemma PutMovers(g: Graph, new': nat, top: nat)
    requires Inv(g, {}) && Holds(g, new') && top in g.refcnt && top in g.extra && new' != top
    ensures |Movers(Put(g, new', top).edges, top, new')| <= g.refcnt[top]
  {
    var es := Put(g, new', top).edges;
    ReachSelf(es, new');
    assert g.next !in Movers(es, top, new');
    SubsetSize(Movers(es, top, new'), Parents(g.edges, top));
  }

  lemma UnbackPut(g: Graph, new': nat, top: nat)
    requires Inv(g, {}) && top in g.refcnt && top in g.extra && new' !in g.backing && BackEdge(Put(g, new', top), new')
    ensures Unback(Put(g, new', top), new') == g.(next := g.next + 1)
  {
    hide Parents;
    var a, b := Unback(Put(g, new', top), new'), g.(next := g.next + 1);
    assert a.edges == b.edges;
    assert a.refcnt == b.refcnt;
    assert a.extra == b.extra;
    assert a.backing == b.backing;
  }

  lemma LessNext(g: Graph, n: nat, next: nat)
    requires Holds(g, n)
    ensures Less(g.(next := next), n) == Less(g, n).(next := next)
  {}

  lemma AfterUnref(g: Graph, n: nat, g': Graph)
    requires Holds(g, n) && Kept(Less(g, n), g') && Acyclic(g.edges) && BackingOk(g)
    ensures Acyclic(g'.edges) && BackingOk(g') && g'.next == g.next
  {
    FewerAcyclic(g.edges, g'.edges);
    assert BackingOk(Less(g, n));
    KeptBacking(Less(g, n), g');
  }

  lemma MovedAcyclic(g: Graph, from: nat, to: nat, g': Graph)
    requires from in g.refcnt && to in g.refcnt && Kept(Moved(g, Movers(g.edges, from, to), from, to), g')
    ensures Acyclic(g.edges) ==> Acyclic(g'.edges)
  {
    if Acyclic(g.edges) {
      RedirectAcyclic(g.edges, Movers(g.edges, from, to), to);
      FewerAcyclic(Redirect(g.edges, Movers(g.edges, from, to), to), g'.edges);
    }
  }

  lemma LetGoFewer(g: Graph, n: nat, mid: Graph)
    requires LetGo(g, n, mid)
    ensures forall e :: e in mid.edges ==> e in g.edges && mid.edges[e] == g.edges[e]
  {}

  lemma OverlayAcyclic(es: Edges, mid: Graph, n: nat, hd: nat)
    requires Acyclic(es) && (forall e :: e in mid.edges ==> e in es && mid.edges[e] == es[e])
    requires Holds(mid, hd) && Inv(mid, {})
    ensures !Reach(es, hd, n) ==> Acyclic(Overlay(mid, n, hd).edges)
  {
    if !Reach(es, hd, n) {
      FewerAcyclic(es, mid.edges);
      if Reach(mid.edges, hd, n) {
        ReachMore(es, mid.edges, hd, n);
      }
      LinkAcyclic(mid.edges, mid.next, Edge(n, hd, false, false));
    }
  }

  /** A path through a new edge comes to its owner and goes on from its target by old edges. */
  lemma {:induction false} ThroughNew(es: Edges, e: nat, x: Edge, a: int, path: seq<nat>, b: int)
    requires e !in es && Path(es[e := x], a, path, b)
    ensures Path(es, a, path, b) || (Reach(es, a, x.owner) && Reach(es, x.bs, b))
    decreases |path|
  {
    if path != [] {
      var es' := es[e := x];
      ThroughNew(es, e, x, es'[path[0]].bs, path[1..], b);
      if path[0] == e {
        ReachSelf(es, a);
        if Path(es, x.bs, path[1..], b) {
          assert Reach(es, x.bs, b);
        }
      } else if !Path(es, es[path[0]].bs, path[1..], b) {
        ReachFirst(es, path[0], x.owner);
      }
    }
  }

  /** A new edge makes a cycle exactly if its target already led to its owner. */
  lemma LinkAcyclic(es: Edges, e: nat, x: Edge)
    requires Acyclic(es) && e !in es && x.owner >= 0
    ensures Acyclic(es[e := x]) <==> !Reach(es, x.bs, x.owner)
  {
    var es' := es[e := x];
    if Reach(es, x.bs, x.owner) {
      ReachMore(es', es, x.bs, x.owner);
      assert es'[e].owner >= 0 && Reach(es', es'[e].bs, es'[e].owner);
    } else {
      forall f | f in es' && es'[f].owner >= 0
        ensures !Reach(es', es'[f].bs, es'[f].owner)
      {
        if p :| Path(es', es'[f].bs, p, es'[f].owner) {
          ThroughNew(es, e, x, es'[f].bs, p, es'[f].owner);
          if f != e && Reach(es, es[f].bs, x.owner) && Reach(es, x.bs, es[f].owner) {
            ReachStep(es, x.bs, f);
            ReachTransitive(es, x.bs, es[f].bs, x.owner);
          }
        }
      }
    }
  }

  lemma BackingEdge(g: Graph, n: nat)
    requires Inv(g, {}) && BackingOk(g) && n in g.refcnt
    ensures n in g.backing <==> BackEdge(g, n)
  {}

  lemma MoreBacking(g: Graph, n: nat)
    requires BackingOk(g) && n in g.refcnt && n in g.extra
    ensures BackingOk(More(g, n))
  {}

  lemma AfterDrop(g: Graph, n: nat, g1: Graph)
    requires Inv(g, {}) && BackingOk(g) && Acyclic(g.edges) && n in g.refcnt && BackEdge(g, n)
    requires var e := g.backing[n]; var b := g.edges[e].bs;
             Inv(g1, {}) && Kept(Less(Cut(g, e), b), g1) && OnlyBelow(g, g1, b)
    ensures var g2 := g1.(backing := g1.backing - {n});
            && Inv(g2, {}) && BackingOk(g2) && Acyclic(g2.edges) && n in g2.refcnt && Kept(Unback(g, n), g2)
  {
    hide Inv, Wired, Kept, BackingOk, Reach, Acyclic;
    var e := g.backing[n];
    OwnerSurvives(g, g1, n, e);
    KeptFewer(Less(Cut(g, e), g.edges[e].bs), g1);
    FewerAcyclic(g.edges, g1.edges);
    UnbackKept(g, n, g1);
    SameInv(g1, g1.backing - {n});
  }

  lemma OwnerSurvives(g: Graph, g1: Graph, n: nat, e: nat)
    requires Acyclic(g.edges) && BackingOk(g) && n in g.refcnt && n in g.backing && g.backing[n] == e && e in g.edges
    requires OnlyBelow(g, g1, g.edges[e].bs)
    ensures n in g1.refcnt
  {
    assert g.edges[e].owner == n;
  }

  lemma KeptFewer(g: Graph, g': Graph)
    requires Kept(g, g')
    ensures forall e :: e in g'.edges ==> e in g.edges && g'.edges[e] == g.edges[e]
  {}

  lemma UnbackKept(g: Graph, n: nat, g1: Graph)
    requires BackingOk(g) && n in g.refcnt && BackEdge(g, n) && n in g1.refcnt
    requires Kept(Less(Cut(g, g.backing[n]), g.edges[g.backing[n]].bs), g1)
    ensures Kept(Unback(g, n), g1.(backing := g1.backing - {n})) && BackingOk(g1.(backing := g1.backing - {n}))
  {}

  lemma SameInv(g: Graph, backing: map<nat, nat>)
    requires Inv(g, {})
    ensures Inv(g.(backing := backing), {})
  {}

  lemma StillHeld(g: Graph, n: nat, mid: Graph, hd: nat)
    requires Holds(g, hd) && LetGo(g, n, mid) && Inv(mid, {})
    ensures Holds(mid, hd)
  {}

  lemma OverlayBacking(g: Graph, n: nat, hd: nat)
    requires Holds(g, hd) && BackingOk(g) && Inv(g, {}) && Inv(Link(g, Edge(n, hd, false, false)), {})
    ensures BackingOk(Overlay(g, n, hd)) && Inv(Overlay(g, n, hd), {})
  {}

  /** The edges that bdrv_replace_node redirects. */
  ghost function Movers(es: Edges, from: nat, to: nat): set<nat> {
    set e | e in es && es[e].bs == from && Moves(es, e, to)
  }

  /** A new edge that takes over one of the caller's references. */
  function Link(g: Graph, x: Edge): Graph
    requires x.bs in g.extra && g.extra[x.bs] > 0
  {
    g.(edges := g.edges[g.next := x], next := g.next + 1, extra := g.extra[x.bs := g.extra[x.bs] - 1])
  }

  /** The edges in `moved` point to `to` and their references are references to `to`. */
  ghost function Moved(g: Graph, moved: set<nat>, from: nat, to: nat): Graph
    requires from in g.refcnt && to in g.refcnt
  {
    var down := if g.refcnt[from] >= |moved| then g.refcnt[from] - |moved| else 0;
    g.(edges := Redirect(g.edges, moved, to), refcnt := g.refcnt[from := down][to := g.refcnt[to] + |moved|])
  }

  lemma KeptBacking(g: Graph, g': Graph)
    requires BackingOk(g) && Kept(g, g')
    ensures BackingOk(g')
  {}

  lemma Referenced(g: Graph, n: nat)
    requires Inv(g, {}) && n in g.refcnt
    ensures n in g.extra && Inv(More(g, n), {}) && Less(More(g, n), n) == g
    ensures var g' := More(g, n);
            g'.edges == g.edges && g'.refcnt.Keys == g.refcnt.Keys && n in g'.extra &&
            g'.extra[n] > 0 && g'.refcnt[n] > 1
  {
    hide Parents;
    LessMore(g, n);
  }

  lemma LessMore(g: Graph, n: nat)
    requires n in g.refcnt && n in g.extra
    ensures Less(More(g, n), n) == g
  {
    assert g.refcnt[n := g.refcnt[n] + 1][n := g.refcnt[n]] == g.refcnt;
    assert g.extra[n := g.extra[n] + 1][n := g.extra[n]] == g.extra;
  }

  lemma MoversAreParents(g: Graph, from: nat, to: nat)
    requires Inv(g, {}) && from in g.refcnt
    ensures |Movers(g.edges, from, to)| <= g.refcnt[from]
    ensures forall e :: e in Movers(g.edges, from, to) ==> e in g.edges && g.edges[e].bs == from
  {
    SubsetSize(Movers(g.edges, from, to), Parents(g.edges, from));
  }

  /** Moving edges while holding one more reference, and then dropping it. */
  lemma MovedBack(g: Graph, moved: set<nat>, from: nat, to: nat)
    requires from in g.refcnt && to in g.refcnt && from in g.extra && from != to && |moved| <= g.refcnt[from]
    requires BackingOk(g)
    ensures var g1 := Moved(More(g, from), moved, from, to);
            && from in g1.refcnt && from in g1.extra && g1.extra[from] > 0
            && g1.refcnt[from] == g.refcnt[from] + 1 - |moved|
            && Less(g1, from) == Moved(g, moved, from, to)
    ensures BackingOk(Moved(g, moved, from, to))
  {
    var g1 := Moved(More(g, from), moved, from, to);
    var a, b := Less(g1, from), Moved(g, moved, from, to);
    assert a.refcnt == b.refcnt;
    assert a.extra == b.extra;
  }

  lemma LessBacking(g: Graph, n: nat, dying: set<nat>)
    requires Inv(g, dying) && BackingOk(g) && n in g.refcnt && n in g.extra && g.extra[n] > 0
    ensures g.refcnt[n] > 0 && BackingOk(Less(g, n))
  {}

  lemma LinkBacking(g: Graph, x: Edge)
    requires Inv(g, {}) && BackingOk(g) && x.bs in g.extra && g.extra[x.bs] > 0
    ensures BackingOk(Link(g, x))
  {}

  lemma Linked(g: Graph, x: Edge)
    requires Inv(g, {}) && (x.owner == -1 || x.owner in g.refcnt) && x.bs in g.refcnt && x.bs in g.extra
    requires g.extra[x.bs] > 0
    ensures Inv(Link(g, x), {})
  {
    hide Parents;
    forall m | m in g.refcnt
      ensures |Parents(Link(g, x).edges, m)| == |Parents(g.edges, m)| + if m == x.bs then 1 else 0
    {
      ParentsLink(g.edges, g.next, x, m);
    }
  }

  lemma ParentsLink(es: Edges, e: nat, x: Edge, m: nat)
    requires e !in es
    ensures |Parents(es[e := x], m)| == |Parents(es, m)| + if m == x.bs then 1 else 0
  {
    assert Parents(es[e := x], m) == if m == x.bs then Parents(es, m) + {e} else Parents(es, m);
  }

  lemma ParentsCut(es: Edges, e: nat, m: nat)
    requires e in es
    ensures |Parents(es - {e}, m)| == |Parents(es, m)| - if m == es[e].bs then 1 else 0
  {
    assert Parents(es - {e}, m) == if m == es[e].bs then Parents(es, m) - {e} else Parents(es, m);
  }

  lemma ParentsMove(es: Edges, e: nat, to: nat, m: nat)
    requires e in es && es[e].bs != to
    ensures |Parents(es[e := es[e].(bs := to)], m)| ==
            |Parents(es, m)| + (if m == to then 1 else 0) - (if m == es[e].bs then 1 else 0)
  {
    var es1 := es - {e};
    ParentsCut(es, e, m);
    ParentsLink(es1, e, es[e].(bs := to), m);
    assert es1[e := es[e].(bs := to)] == es[e := es[e].(bs := to)];
  }

  /** Edge `c` moved to `to` with a new reference, the old one in the caller's hands. */
  function Shift(g: Graph, c: nat, from: nat, to: nat): Graph
    requires c in g.edges && from in g.refcnt && to in g.refcnt && from in g.extra
  {
    g.(edges := g.edges[c := g.edges[c].(bs := to)],
       refcnt := g.refcnt[to := g.refcnt[to] + 1], extra := g.extra[from := g.extra[from] + 1])
  }

  lemma Shifted(g: Graph, c: nat, from: nat, to: nat)
    requires Inv(g, {}) && c in g.edges && g.edges[c].bs == from != to && from in g.refcnt && to in g.refcnt
    requires from in g.extra && g.extra[from] > 0
    ensures Inv(Shift(g, c, from, to), {}) && g.refcnt[from] > 1 && to in g.extra
  {
    hide Parents;
    forall m | m in g.refcnt
      ensures |Parents(Shift(g, c, from, to).edges, m)| ==
              |Parents(g.edges, m)| + (if m == to then 1 else 0) - (if m == from then 1 else 0)
    {
      ParentsMove(g.edges, c, to, m);
    }
    HasParent(g.edges, c);
  }

  lemma HasParent(es: Edges, e: nat)
    requires e in es
    ensures |Parents(es, es[e].bs)| > 0
  {
    assert e in Parents(es, es[e].bs);
  }

  lemma MovedNone(g: Graph, from: nat, to: nat)
    requires from in g.refcnt && to in g.refcnt
    ensures Moved(g, {}, from, to) == g
  {
    assert Redirect(g.edges, {}, to) == g.edges;
  }

  lemma MovedEdge(g: Graph, done: set<nat>, from: nat, to: nat, c: nat)
    requires from in g.refcnt && to in g.refcnt && c in g.edges && c !in done && from != to
    ensures var g1 := Moved(g, done, from, to);
            && c in g1.edges && g1.edges[c] == g.edges[c] && from in g1.refcnt && to in g1.refcnt
            && g1.extra == g.extra && g1.refcnt.Keys == g.refcnt.Keys
  {}

  lemma MoveOne(g: Graph, done: set<nat>, from: nat, to: nat, c: nat)
    requires from in g.refcnt && to in g.refcnt && c in g.edges && g.edges[c].bs == from != to && c !in done
    requires from in g.extra && Moved(g, done, from, to).refcnt[from] > 0
    ensures Less(Shift(Moved(g, done, from, to), c, from, to), from) == Moved(g, done + {c}, from, to)
  {
    var a, b := Less(Shift(Moved(g, done, from, to), c, from, to), from), Moved(g, done + {c}, from, to);
    assert a.edges == b.edges;
    assert |done + {c}| == |done| + 1;
    assert a.refcnt == b.refcnt;
    assert a.extra == b.extra;
  }

  /** Every node that a search from `dest` can find. */
  ghost function Targets(es: Edges, dest: nat): set<nat> {
    {dest} + set e | e in es :: es[e].bs
  }

  lemma FewerLeft(all: set<nat>, found0: set<nat>, found: set<nat>)
    requires found0 <= found <= all
    ensures found != found0 ==> |all - found| < |all - found0|
  {
    if found != found0 {
      var x :| x in found && x !in found0;
      assert all - found <= all - found0 - {x};
      SubsetSize(all - found, all - found0 - {x});
    }
  }

  /** When the search has ended without meeting the edge, its owner is not below `dest`. */
  lemma NotFound(es: Edges, found: set<nat>, dest: nat, c: nat)
    requires dest in found && c in es && es[c].owner >= 0
    requires forall e :: e in es && es[e].owner in found ==> es[e].bs in found && e != c
    ensures !Reach(es, dest, es[c].owner)
  {
    if path :| Path(es, dest, path, es[c].owner) {
      var s: set<int> := set x | x in found;
      ClosedHolds(es, s, dest, path, es[c].owner);
    }
  }

  /** With fewer edges, no more is reachable. */
  lemma {:induction false} PathMore(es: Edges, es': Edges, x: int, path: seq<nat>, y: int)
    requires (forall e :: e in es' ==> e in es && es'[e] == es[e]) && Path(es', x, path, y)
    ensures Path(es, x, path, y)
    decreases |path|
  {
    if path != [] {
      PathMore(es, es', es'[path[0]].bs, path[1..], y);
    }
  }

  lemma ReachMore(es: Edges, es': Edges, x: int, y: int)
    requires (forall e :: e in es' ==> e in es && es'[e] == es[e]) && Reach(es', x, y)
    ensures Reach(es, x, y)
  {
    var p :| Path(es', x, p, y);
    PathMore(es, es', x, p, y);
  }

  /** Taking edges away makes no cycle. */
  lemma FewerAcyclic(es: Edges, es': Edges)
    requires Acyclic(es) && forall e :: e in es' ==> e in es && es'[e] == es[e]
    ensures Acyclic(es')
  {
    forall e | e in es' && es'[e].owner >= 0
      ensures !Reach(es', es'[e].bs, es'[e].owner)
    {
      if Reach(es', es'[e].bs, es'[e].owner) {
        ReachMore(es, es', es'[e].bs, es'[e].owner);
      }
    }
  }

  lemma BelowMore(g: Graph, g1: Graph, g2: Graph, n: nat)
    requires g1.refcnt == g.refcnt && (forall e :: e in g1.edges ==> e in g.edges && g1.edges[e] == g.edges[e])
    requires OnlyBelow(g1, g2, n)
    ensures OnlyBelow(g, g2, n)
  {
    forall m | m in g.refcnt && m !in g2.refcnt
      ensures Reach(g.edges, n, m)
    {
      ReachMore(g.edges, g1.edges, n, m);
    }
  }

  lemma BelowFirst(g: Graph, g1: Graph, g2: Graph, n: nat, e: nat)
    requires Kept(g, g1) && OnlyBelow(g, g1, n) && e in g1.edges && g1.edges[e].owner == n
    requires OnlyBelow(g1, g2, g1.edges[e].bs)
    ensures OnlyBelow(g, g2, n)
  {
    forall m | m in g.refcnt && m !in g2.refcnt
      ensures Reach(g.edges, n, m)
    {
      if m in g1.refcnt {
        ReachMore(g.edges, g1.edges, g1.edges[e].bs, m);
        ReachFirst(g.edges, e, m);
      }
    }
  }

  lemma KeptTransitive(g0: Graph, g1: Graph, g2: Graph)
    requires Kept(g0, g1) && Kept(g1, g2)
    ensures Kept(g0, g2) && g2.refcnt.Keys <= g1.refcnt.Keys
  {}

  lemma KeptSmaller(g: Graph, g': Graph)
    requires Kept(g, g')
    ensures |g'.edges| <= |g.edges|
  {
    assert g'.edges.Keys <= g.edges.Keys;
    SubsetSize(g'.edges.Keys, g.edges.Keys);
    assert |g'.edges| == |g'.edges.Keys| && |g.edges| == |g.edges.Keys|;
  }

  lemma SubsetSize(a: set<nat>, b: set<nat>)
    requires a <= b
    ensures |a| <= |b|
  {
    assert b == a + (b - a);
  }

  lemma Released(g: Graph, n: nat, dying: set<nat>)
    requires Inv(g, dying) && n in g.refcnt && n in g.extra && g.extra[n] > 0
    ensures g.refcnt[n] > 0 && Kept(Less(g, n), Less(g, n))
    ensures g.refcnt[n] > 1 ==> Inv(Less(g, n), dying)
    ensures g.refcnt[n] == 1 ==> Zero(Less(g, n), n, dying)
  {}

  lemma BuryLess(g: Graph, n: nat)
    requires n in g.refcnt && n in g.extra && g.refcnt[n] > 0 && g.extra[n] > 0
    ensures Bury(Less(g, n), n) == Bury(g, n)
  {
    assert g.refcnt[n := g.refcnt[n] - 1] - {n} == g.refcnt - {n};
    assert g.extra[n := g.extra[n] - 1] - {n} == g.extra - {n};
  }

  lemma Buried(g: Graph, n: nat, dying: set<nat>)
    requires Zero(g, n, dying) && n in g.refcnt
    ensures Inv(Bury(g, n), dying + {n}) && Kept(g, Bury(g, n)) && n !in dying
  {
    assert Parents(g.edges, n) == {};
    forall e | e in g.edges
      ensures g.edges[e].bs != n
    {
      assert g.edges[e].bs == n ==> e in Parents(g.edges, n);
    }
  }

  lemma InChildren(g: Graph, g1: Graph, n: nat, e: nat)
    requires Kept(g, g1) && e in g1.edges && g1.edges[e].owner == n
    ensures e in Children(g.edges, n)
  {}

  lemma EdgeIsLive(g: Graph, e: nat, dying: set<nat>)
    requires Inv(g, dying) && e in g.edges
    ensures var n := g.edges[e].bs; n in g.refcnt && n in g.extra && g.refcnt[n] > 0
  {}

  /** Detaching an edge of a node being closed, and dropping its reference. */
  lemma CutKept(g: Graph, g1: Graph, n: nat, e: nat)
    requires Kept(g, g1) && e in g1.edges && g1.edges[e].owner == n && n in g.refcnt && n !in g1.refcnt
    requires var m := g1.edges[e].bs; m in g1.refcnt && m in g1.extra && g1.refcnt[m] > 0
    ensures Kept(g, Less(Cut(g1, e), g1.edges[e].bs))
  {}

  lemma Closed(g: Graph, g1: Graph, n: nat, dying: set<nat>)
    requires Inv(g1, dying + {n}) && n !in dying && Kept(g, g1) && n !in g1.refcnt
    requires forall e :: e in g1.edges ==> g1.edges[e].owner != n
    ensures Inv(g1.(backing := g1.backing - {n}), dying) && Kept(g, g1.(backing := g1.backing - {n}))
  {}

  /** Detaching an edge turns the reference it held into one held by the caller. */
  lemma Detached(g: Graph, e: nat, dying: set<nat>)
    requires Inv(g, dying) && e in g.edges
    ensures g.edges[e].bs in g.extra && g.edges[e].bs in g.refcnt
    ensures Inv(Cut(g, e), dying) && |g.edges - {e}| == |g.edges| - 1
  {
    hide Parents;
    var es' := g.edges - {e};
    assert es'.Keys == g.edges.Keys - {e};
    assert |es'| == |es'.Keys| && |g.edges| == |g.edges.Keys|;
    forall m | m in g.refcnt
      ensures |Parents(es', m)| == |Parents(g.edges, m)| - if m == g.edges[e].bs then 1 else 0
    {
      ParentsCut(g.edges, e, m);
    }
  }

  // ---------------------------------------------------------------- nothing is leaked

  /** Somebody outside the graph holds node `r`. */
  ghost predicate Rooted(g: Graph, r: nat) {
    && r in g.refcnt
    && ((r in g.extra && g.extra[r] > 0) || exists e :: e in g.edges && g.edges[e].bs == r && g.edges[e].owner == -1)
  }

  /** A graph without cycles keeps no garbage: every live node is reached from one that somebody
      outside holds.  `seen` are nodes below `n` that the climb has passed. */
  lemma {:induction false} EveryNodeIsHeld(g: Graph, n: nat, seen: set<nat>) returns (r: nat)
    requires Inv(g, {}) && Acyclic(g.edges) && n in g.refcnt && n !in seen && seen <= g.refcnt.Keys
    requires forall s :: s in seen ==> Reach(g.edges, n, s)
    ensures Rooted(g, r) && Reach(g.edges, r, n)
    decreases |g.refcnt.Keys - seen|
  {
    ReachSelf(g.edges, n);
    if Rooted(g, n) {
      r := n;
    } else {
      assert |Parents(g.edges, n)| > 0;
      var e :| e in Parents(g.edges, n);
      var p := g.edges[e].owner;
      forall s | s in seen + {n}
        ensures Reach(g.edges, p, s)
      {
        ReachFirst(g.edges, e, s);
      }
      assert p !in seen + {n};
      assert g.refcnt.Keys - (seen + {n}) < g.refcnt.Keys - seen;
      SubsetSize(g.refcnt.Keys - (seen + {n}), g.refcnt.Keys - seen - {n});
      r := EveryNodeIsHeld(g, p, seen + {n});
      ReachStep(g.edges, r, e);
    }
  }
}
