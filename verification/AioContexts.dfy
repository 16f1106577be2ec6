/** Moving everything that is connected to a block node into another AioContext: a check that walks
    the graph in both directions, and then a walk that makes the change. */
module AioContexts {

  /** Who owns an edge: a node, a job, a BlockBackend that does or does not allow the change, or a
      user whose role has no handlers for it. */
  datatype Parent = Node(node: nat) | Job(job: nat) | Backend(allows: bool) | Fixed

  datatype Link = Link(parent: Parent, bs: nat)

  /** The edges, and for each job the list of its edges. */
  datatype Net = Net(edges: map<nat, Link>, jobs: map<nat, seq<nat>>)

  /** A job lists exactly the edges it owns. */
  ghost predicate NetOk(net: Net) {
    && (forall j, e :: j in net.jobs && e in net.jobs[j] ==> e in net.edges && net.edges[e].parent == Job(j))
    && (forall e :: e in net.edges && net.edges[e].parent.Job? ==>
          net.edges[e].parent.job in net.jobs && e in net.jobs[net.edges[e].parent.job])
  }

  /** Edges are between existing nodes. */
  ghost predicate Homes(net: Net, nodes: set<nat>) {
    forall e :: e in net.edges ==>
      net.edges[e].bs in nodes && (net.edges[e].parent.Node? ==> net.edges[e].parent.node in nodes)
  }

  ghost predicate Users(net: Net, jobs: set<nat>, roots: set<nat>) {
    net.jobs.Keys <= jobs && forall e :: e in net.edges && net.edges[e].parent.Backend? ==> e in roots
  }

  /** Nodes and jobs are walked through; other users are not. */
  predicate Inner(v: Parent) {
    v.Node? || v.Job?
  }

  predicate Allowed(v: Parent) {
    match v
    case Node(_) => true
    case Job(_) => true
    case Backend(allows) => allows
    case Fixed => false
  }

  ghost function Incident(net: Net, v: Parent): set<nat> {
    set e | e in net.edges && (v == Node(net.edges[e].bs) || v == net.edges[e].parent)
  }

  /** The edges to a node, and the edges of a node or a job. */
  function Above(net: Net, n: nat): set<nat> {
    set e | e in net.edges && net.edges[e].bs == n
  }

  function Beneath(net: Net, v: Parent): set<nat> {
    set e | e in net.edges && net.edges[e].parent == v
  }

  lemma IncidentToNode(net: Net, n: nat)
    ensures Incident(net, Node(n)) == Above(net, n) + Beneath(net, Node(n))
  {}

  lemma JobEdges(net: Net, j: nat)
    requires NetOk(net) && j in net.jobs
    ensures forall k :: 0 <= k < |net.jobs[j]| ==>
              net.jobs[j][k] in net.edges && net.edges[net.jobs[j][k]].parent == Job(j)
  {}

  lemma IncidentToJob(net: Net, j: nat, ignore: set<nat>)
    requires NetOk(net) && j in net.jobs && forall k :: 0 <= k < |net.jobs[j]| ==> net.jobs[j][k] in ignore
    ensures Incident(net, Job(j)) <= ignore
  {}

  /** A walk from node `start` to context `target`, by edges other than `skip`. */
  datatype Query = Query(net: Net, ctx: map<nat, int>, target: int, skip: set<nat>, start: nat)

  /** Nodes that are where they should be are not walked through. */
  ghost predicate Barrier(q: Query, v: Parent) {
    v.Node? && v.node in q.ctx && q.ctx[v.node] == q.target
  }

  ghost predicate Joins(x: Link, a: Parent, b: Parent) {
    (a == Node(x.bs) && b == x.parent) || (a == x.parent && b == Node(x.bs))
  }

  ghost predicate Step(q: Query, a: Parent, b: Parent) {
    Inner(a) && exists e :: e in q.net.edges && e !in q.skip && Joins(q.net.edges[e], a, b)
  }

  /** `vs` leads from the start to `v`; if `stops`, barriers are not walked through. */
  ghost predicate Walk(q: Query, stops: bool, vs: seq<Parent>, v: Parent)
    decreases |vs|
  {
    if vs == [] then v == Node(q.start)
    else var a := vs[|vs| - 1]; Walk(q, stops, vs[..|vs| - 1], a) && !(stops && Barrier(q, a)) && Step(q, a, v)
  }

  ghost predicate Conn(q: Query, v: Parent) {
    exists vs :: Walk(q, true, vs, v)
  }

  /** Connected, whatever the contexts are. */
  ghost predicate Linked(q: Query, v: Parent) {
    exists vs :: Walk(q, false, vs, v)
  }

  lemma ConnStart(q: Query)
    ensures Conn(q, Node(q.start))
  {
    assert Walk(q, true, [], Node(q.start));
  }

  lemma ConnStep(q: Query, a: Parent, e: nat, b: Parent)
    requires Conn(q, a) && !Barrier(q, a) && Inner(a) && e in q.net.edges && e !in q.skip && Joins(q.net.edges[e], a, b)
    ensures Conn(q, b)
  {
    var vs :| Walk(q, true, vs, a);
    var vs' := vs + [a];
    assert vs'[..|vs'| - 1] == vs;
    assert Walk(q, true, vs', b);
  }

  /** Some edge that the walk comes to belongs to a user that does not go along. */
  ghost predicate Stuck(q: Query) {
    exists e, v :: e in Incident(q.net, v) && e !in q.skip && Inner(v) && Conn(q, v) && !Barrier(q, v) &&
      !Allowed(q.net.edges[e].parent)
  }

  // ---------------------------------------------------------------- the state of a walk

  ghost predicate Reached(q: Query, v: Parent, seen: set<Parent>, open: set<Parent>) {
    v in seen || v in open || Barrier(q, v) || !Inner(v)
  }

  /** `ignore` are the edges visited, `seen` the nodes and jobs done with, `open` those in progress. */
  ghost predicate Explored(q: Query, ignore: set<nat>, seen: set<Parent>, open: set<Parent>) {
    && q.skip <= ignore
    && (forall e :: e in ignore && e !in q.skip ==>
          && e in q.net.edges && Allowed(q.net.edges[e].parent)
          && (Inner(q.net.edges[e].parent) || !Barrier(q, Node(q.net.edges[e].bs)))
          && Reached(q, Node(q.net.edges[e].bs), seen, open) && Reached(q, q.net.edges[e].parent, seen, open))
    && (forall v :: v in seen ==> Inner(v) && !Barrier(q, v) && Conn(q, v) && Incident(q.net, v) <= ignore)
  }

  lemma ExploredStarts(q: Query)
    ensures Explored(q, q.skip, {}, {Node(q.start)})
  {}

  /** A node that needs no change is left at once. */
  lemma AtBarrier(q: Query, ignore: set<nat>, seen: set<Parent>, open: set<Parent>, v: Parent)
    requires Explored(q, ignore, seen, open + {v}) && Barrier(q, v)
    ensures Explored(q, ignore, seen, open)
  {}

  /** When all edges of a node or a job have been visited, it is done with. */
  lemma Finish(q: Query, ignore: set<nat>, seen: set<Parent>, open: set<Parent>, v: Parent)
    requires Explored(q, ignore, seen, open + {v}) && Inner(v) && !Barrier(q, v) && Conn(q, v)
    requires Incident(q.net, v) <= ignore
    ensures Explored(q, ignore, seen + {v}, open)
  {}

  /** Visiting an edge from one side leads to the other. */
  lemma Cross(q: Query, ignore: set<nat>, seen: set<Parent>, open: set<Parent>, a: Parent, e: nat, b: Parent)
    requires Explored(q, ignore, seen, open) && a in open && Conn(q, a) && !Barrier(q, a) && Inner(a)
    requires e in q.net.edges && e !in ignore && Joins(q.net.edges[e], a, b) && Allowed(q.net.edges[e].parent)
    ensures Explored(q, ignore + {e}, seen, open + {b}) && Conn(q, b)
    ensures |q.net.edges.Keys - (ignore + {e})| < |q.net.edges.Keys - ignore|
  {
    ConnStep(q, a, e, b);
    Smaller(q.net.edges.Keys, ignore, e);
  }

  lemma Smaller(all: set<nat>, ignore: set<nat>, e: nat)
    requires e in all && e !in ignore
    ensures |all - (ignore + {e})| < |all - ignore|
  {
    assert all - (ignore + {e}) == all - ignore - {e};
  }

  lemma NoLarger(all: set<nat>, ignore: set<nat>, ignore': set<nat>)
    requires ignore <= ignore'
    ensures |all - ignore'| <= |all - ignore|
  {
    assert all - ignore == (all - ignore') + (all * (ignore' - ignore));
  }

  /** An edge to a user outside the graph. */
  lemma CrossOut(q: Query, ignore: set<nat>, seen: set<Parent>, open: set<Parent>, a: Parent, e: nat)
    requires Explored(q, ignore, seen, open) && e in q.net.edges && a in open && a == Node(q.net.edges[e].bs)
    requires !Barrier(q, a)
    requires e !in ignore && Allowed(q.net.edges[e].parent) && !Inner(q.net.edges[e].parent)
    ensures Explored(q, ignore + {e}, seen, open)
  {}

  lemma CrossStuck(q: Query, a: Parent, e: nat)
    requires Conn(q, a) && !Barrier(q, a) && Inner(a) && e in Incident(q.net, a) && e !in q.skip
    requires !Allowed(q.net.edges[e].parent)
    ensures Stuck(q)
  {}

  // ---------------------------------------------------------------- what a finished walk has found

  /** A finished walk has come everywhere it could. */
  lemma {:induction false} FoundAll(q: Query, ignore: set<nat>, seen: set<Parent>, vs: seq<Parent>, v: Parent)
    requires Explored(q, ignore, seen, {}) && (Node(q.start) in seen || Barrier(q, Node(q.start)))
    requires Walk(q, true, vs, v) && Inner(v)
    ensures v in seen || Barrier(q, v)
    decreases |vs|
  {
    if vs != [] {
      var a := vs[|vs| - 1];
      FoundAll(q, ignore, seen, vs[..|vs| - 1], a);
      var e :| e in q.net.edges && e !in q.skip && Joins(q.net.edges[e], a, v);
      assert e in Incident(q.net, a);
    }
  }

  lemma Found(q: Query, ignore: set<nat>, seen: set<Parent>, v: Parent)
    requires Explored(q, ignore, seen, {}) && (Node(q.start) in seen || Barrier(q, Node(q.start))) && Inner(v)
    ensures v in seen <==> Conn(q, v) && !Barrier(q, v)
  {
    if vs :| Walk(q, true, vs, v) {
      FoundAll(q, ignore, seen, vs, v);
    }
  }

  /** A walk that ended well met nobody who does not go along. */
  lemma FoundNotStuck(q: Query, ignore: set<nat>, seen: set<Parent>)
    requires Explored(q, ignore, seen, {}) && (Node(q.start) in seen || Barrier(q, Node(q.start)))
    ensures !Stuck(q)
  {
    forall e, v | e in Incident(q.net, v) && e !in q.skip && Inner(v) && Conn(q, v) && !Barrier(q, v)
      ensures Allowed(q.net.edges[e].parent)
    {
      Found(q, ignore, seen, v);
    }
  }

  /** If all connected nodes are in one context that is not the target, the walk meets no barriers
      and comes to everything that is connected at all. */
  lemma {:induction false} SharedContext(q: Query, vs: seq<Parent>, v: Parent)
    requires q.start in q.ctx && q.ctx[q.start] != q.target
    requires forall n :: Linked(q, Node(n)) && n in q.ctx ==> q.ctx[n] == q.ctx[q.start]
    requires Walk(q, false, vs, v)
    ensures Walk(q, true, vs, v)
    decreases |vs|
  {
    if vs != [] {
      var a := vs[|vs| - 1];
      assert Linked(q, a);
      SharedContext(q, vs[..|vs| - 1], a);
    }
  }

  /** In that case the walk with barriers comes to the same nodes as the one without. */
  lemma SharedContextConn(q: Query, v: Parent)
    requires q.start in q.ctx && q.ctx[q.start] != q.target
    requires forall n :: Linked(q, Node(n)) && n in q.ctx ==> q.ctx[n] == q.ctx[q.start]
    ensures Conn(q, v) <==> Linked(q, v)
  {
    if Conn(q, v) {
      var vs :| Walk(q, true, vs, v);
      WithoutBarriers(q, vs, v);
    }
    if Linked(q, v) {
      var vs :| Walk(q, false, vs, v);
      SharedContext(q, vs, v);
    }
  }

  lemma {:induction false} WithoutBarriers(q: Query, vs: seq<Parent>, v: Parent)
    requires Walk(q, true, vs, v)
    ensures Walk(q, false, vs, v)
    decreases |vs|
  {
    if vs != [] {
      WithoutBarriers(q, vs[..|vs| - 1], vs[|vs| - 1]);
    }
  }

  // ---------------------------------------------------------------- the traversals

  /** Coming to `v` from the state (`ignore0`, `seen0`), with `open` in progress. */
  ghost predicate Came(q: Query, ok: bool, ignore0: set<nat>, ignore: set<nat>, seen0: set<Parent>, seen: set<Parent>,
                       open: set<Parent>) {
    if ok then Explored(q, ignore, seen, open) && ignore0 <= ignore && seen0 <= seen else Stuck(q)
  }

  class Contexts {
    const net: Net
    var ctx: map<nat, int>         // of each node
    var jobCtx: map<nat, int>      // of each job
    var rootCtx: map<nat, int>     // of the BlockBackend that owns the edge

    constructor (net: Net, ctx: map<nat, int>, jobCtx: map<nat, int>, rootCtx: map<nat, int>)
      ensures this.net == net && this.ctx == ctx && this.jobCtx == jobCtx && this.rootCtx == rootCtx
    {
      this.net, this.ctx, this.jobCtx, this.rootCtx := net, ctx, jobCtx, rootCtx;
    }

    ghost predicate Valid()
      reads this
    {
      NetOk(net) && Homes(net, ctx.Keys)
    }

    /** `q` is the walk that this state and the arguments determine. */
    ghost predicate Asks(q: Query, c: int)
      reads this
    {
      q.net == net && q.ctx == ctx && q.target == c
    }

    /** bdrv_can_set_aio_context */
    method CanSetNode(n: nat, c: int, ignore0: set<nat>, ghost q: Query, ghost seen0: set<Parent>,
                      ghost open: set<Parent>)
      returns (ok: bool, ignore: set<nat>, ghost seen: set<Parent>)
      requires Valid() && Asks(q, c) && n in ctx && Conn(q, Node(n)) && Explored(q, ignore0, seen0, open + {Node(n)})
      ensures Came(q, ok, ignore0, ignore, seen0, seen, open) && (ok ==> Node(n) in seen || Barrier(q, Node(n)))
      decreases |net.edges.Keys - ignore0|, 2
    {
      hide Conn, Explored, Stuck, NetOk, Above, Beneath, Incident;
      ok, ignore, seen := true, ignore0, seen0;
      if ctx[n] == c {
        AtBarrier(q, ignore, seen, open, Node(n));
        return;
      }
      ok, ignore, seen := CanSetParents(n, c, ignore, q, seen, open + {Node(n)});
      if !ok {
        return;
      }
      NoLarger(net.edges.Keys, ignore0, ignore);
      ok, ignore, seen := CanSetChildren(n, c, ignore, q, seen, open + {Node(n)});
      if !ok {
        return;
      }
      IncidentToNode(net, n);
      Finish(q, ignore, seen, open, Node(n));
      seen := seen + {Node(n)};
    }

    /** Its loop over the parents. */
    method CanSetParents(n: nat, c: int, ignore0: set<nat>, ghost q: Query, ghost seen0: set<Parent>,
                         ghost open: set<Parent>)
      returns (ok: bool, ignore: set<nat>, ghost seen: set<Parent>)
      requires Valid() && Asks(q, c) && Conn(q, Node(n)) && !Barrier(q, Node(n)) && Node(n) in open
      requires Explored(q, ignore0, seen0, open)
      ensures Came(q, ok, ignore0, ignore, seen0, seen, open) && (ok ==> Above(net, n) <= ignore)
      decreases |net.edges.Keys - ignore0|, 1
    {
      hide Conn, Explored, Stuck, NetOk, Barrier;
      ok, ignore, seen := true, ignore0, seen0;
      var todo := Above(net, n);
      while todo != {}
        invariant ok && todo <= Above(net, n) <= ignore + todo && Came(q, true, ignore0, ignore, seen0, seen, open)
        decreases todo
      {
        var e :| e in todo;
        todo := todo - {e};
        NoLarger(net.edges.Keys, ignore0, ignore);
        ok, ignore, seen := CanSetParent(e, c, ignore, q, seen, open);
        if !ok {
          return;
        }
      }
    }

    /** Its loop over the children. */
    method CanSetChildren(n: nat, c: int, ignore0: set<nat>, ghost q: Query, ghost seen0: set<Parent>,
                          ghost open: set<Parent>)
      returns (ok: bool, ignore: set<nat>, ghost seen: set<Parent>)
      requires Valid() && Asks(q, c) && Conn(q, Node(n)) && !Barrier(q, Node(n)) && Node(n) in open
      requires Explored(q, ignore0, seen0, open)
      ensures Came(q, ok, ignore0, ignore, seen0, seen, open) && (ok ==> Beneath(net, Node(n)) <= ignore)
      decreases |net.edges.Keys - ignore0|, 1
    {
      hide Conn, Explored, Stuck, NetOk, Barrier;
      ok, ignore, seen := true, ignore0, seen0;
      var todo := Beneath(net, Node(n));
      while todo != {}
        invariant ok && todo <= Beneath(net, Node(n)) <= ignore + todo
        invariant Came(q, true, ignore0, ignore, seen0, seen, open)
        decreases todo
      {
        var e :| e in todo;
        todo := todo - {e};
        NoLarger(net.edges.Keys, ignore0, ignore);
        ok, ignore, seen := CanSetChild(e, c, ignore, q, seen, open);
        if !ok {
          return;
        }
      }
    }

    /** bdrv_parent_can_set_aio_context, with the role's own check */
    method CanSetParent(e: nat, c: int, ignore0: set<nat>, ghost q: Query, ghost seen0: set<Parent>,
                        ghost open: set<Parent>)
      returns (ok: bool, ignore: set<nat>, ghost seen: set<Parent>)
      requires Valid() && Asks(q, c) && e in net.edges && Conn(q, Node(net.edges[e].bs))
      requires !Barrier(q, Node(net.edges[e].bs))
      requires Node(net.edges[e].bs) in open && Explored(q, ignore0, seen0, open)
      ensures Came(q, ok, ignore0, ignore, seen0, seen, open) && (ok ==> e in ignore)
      decreases |net.edges.Keys - ignore0|, 0
    {
      hide Conn, Explored, Stuck, Incident;
      ok, ignore, seen := true, ignore0, seen0;
      if e in ignore {
        return;
      }
      ignore := ignore + {e};
      SkipIgnored(q, ignore0, seen0, open, e);
      ghost var a := Node(net.edges[e].bs);
      match net.edges[e].parent {
        case Fixed =>
          CrossStuck(q, a, e);
          ok := false;
        case Backend(allows) =>
          ok := allows;
          if ok {
            CrossOut(q, ignore0, seen, open, a, e);
          } else {
            CrossStuck(q, a, e);
          }
        case Node(m) =>
          Cross(q, ignore0, seen, open, a, e, Node(m));
          ok, ignore, seen := CanSetNode(m, c, ignore, q, seen, open);
        case Job(j) =>
          Cross(q, ignore0, seen, open, a, e, Job(j));
          ok, ignore, seen := CanSetJob(j, c, ignore, q, seen, open);
      }
    }

    /** bdrv_child_can_set_aio_context */
    method CanSetChild(e: nat, c: int, ignore0: set<nat>, ghost q: Query, ghost seen0: set<Parent>,
                       ghost open: set<Parent>)
      returns (ok: bool, ignore: set<nat>, ghost seen: set<Parent>)
      requires Valid() && Asks(q, c) && e in net.edges && Inner(net.edges[e].parent)
      requires Conn(q, net.edges[e].parent) && !Barrier(q, net.edges[e].parent) && net.edges[e].parent in open
      requires Explored(q, ignore0, seen0, open)
      ensures Came(q, ok, ignore0, ignore, seen0, seen, open) && (ok ==> e in ignore)
      decreases |net.edges.Keys - ignore0|, 0
    {
      hide Conn, Explored, Stuck, Incident;
      ok, ignore, seen := true, ignore0, seen0;
      if e in ignore {
        return;
      }
      ignore := ignore + {e};
      Cross(q, ignore0, seen, open, net.edges[e].parent, e, Node(net.edges[e].bs));
      ok, ignore, seen := CanSetNode(net.edges[e].bs, c, ignore, q, seen, open);
    }

    /** child_job_can_set_aio_ctx */
    method CanSetJob(j: nat, c: int, ignore0: set<nat>, ghost q: Query, ghost seen0: set<Parent>,
                     ghost open: set<Parent>)
      returns (ok: bool, ignore: set<nat>, ghost seen: set<Parent>)
      requires Valid() && Asks(q, c) && j in net.jobs && Conn(q, Job(j)) && Explored(q, ignore0, seen0, open + {Job(j)})
      ensures Came(q, ok, ignore0, ignore, seen0, seen, open)
      decreases |net.edges.Keys - ignore0|, 1
    {
      hide Conn, Explored, Stuck, NetOk, Incident;
      ok, ignore, seen := true, ignore0, seen0;
      JobEdges(net, j);
      for i := 0 to |net.jobs[j]|
        invariant ok && (forall k :: 0 <= k < i ==> net.jobs[j][k] in ignore)
        invariant Came(q, true, ignore0, ignore, seen0, seen, open + {Job(j)})
      {
        NoLarger(net.edges.Keys, ignore0, ignore);
        ok, ignore, seen := CanSetChild(net.jobs[j][i], c, ignore, q, seen, open + {Job(j)});
        if !ok {
          return;
        }
      }
      IncidentToJob(net, j, ignore);
      Finish(q, ignore, seen, open, Job(j));
      seen := seen + {Job(j)};
    }

    ghost function M(): Marks
      reads this
    {
      Marks(ctx, jobCtx, rootCtx)
    }

    /** Every job and BlockBackend has a context. */
    ghost predicate Complete()
      reads this
    {
      Valid() && Users(net, jobCtx.Keys, rootCtx.Keys)
    }

    /** The state of the changing walk `q`, which started from `m0` and meets nobody who objects. */
    ghost predicate Moving(q: Query, c: int, m0: Marks, ignore: set<nat>, seen: set<Parent>, open: set<Parent>)
      reads this
    {
      && Complete() && q.net == net && q.ctx == m0.ctx && q.target == c && !Stuck(q)
      && Explored(q, ignore, seen, open) && Marked(q, m0, M(), ignore, seen)
    }

    /** bdrv_set_aio_context_ignore */
    method SetNode(n: nat, c: int, ignore0: set<nat>, ghost q: Query, ghost m0: Marks, ghost seen0: set<Parent>,
                   ghost open: set<Parent>)
      returns (ignore: set<nat>, ghost seen: set<Parent>)
      requires n in ctx && Conn(q, Node(n)) && Moving(q, c, m0, ignore0, seen0, open + {Node(n)})
      modifies this
      ensures Moving(q, c, m0, ignore, seen, open) && ignore0 <= ignore && seen0 <= seen
      ensures Node(n) in seen || Barrier(q, Node(n))
      decreases |net.edges.Keys - ignore0|, 2
    {
      hide Conn, Explored, Stuck, NetOk, Above, Beneath, Incident, Marked, Barrier, Homes, Users;
      ignore, seen := ignore0, seen0;
      MarkedKeys(q, m0, M(), ignore, seen);
      AtTarget(q, m0, M(), ignore, seen, open, n);
      if ctx[n] == c {
        return;
      }
      ignore, seen := SetChildren(n, c, ignore, q, m0, seen, open + {Node(n)});
      NoLarger(net.edges.Keys, ignore0, ignore);
      ignore, seen := SetParents(n, c, ignore, q, m0, seen, open + {Node(n)});
      IncidentToNode(net, n);
      Finish(q, ignore, seen, open, Node(n));
      MarkedKeys(q, m0, M(), ignore, seen);
      MarkNode(q, m0, M(), ignore, seen, n);
      seen := seen + {Node(n)};
      assert ctx[n := c].Keys == ctx.Keys;
      ctx := ctx[n := c];
    }

    /** Its loop over the children. */
    method SetChildren(n: nat, c: int, ignore0: set<nat>, ghost q: Query, ghost m0: Marks, ghost seen0: set<Parent>,
                       ghost open: set<Parent>)
      returns (ignore: set<nat>, ghost seen: set<Parent>)
      requires Conn(q, Node(n)) && !Barrier(q, Node(n)) && Node(n) in open && Moving(q, c, m0, ignore0, seen0, open)
      modifies this
      ensures Moving(q, c, m0, ignore, seen, open) && ignore0 <= ignore && seen0 <= seen
      ensures Beneath(net, Node(n)) <= ignore
      decreases |net.edges.Keys - ignore0|, 1
    {
      hide Conn, Barrier, Moving;
      ignore, seen := ignore0, seen0;
      var todo := Beneath(net, Node(n));
      while todo != {}
        invariant todo <= Beneath(net, Node(n)) <= ignore + todo && Moving(q, c, m0, ignore, seen, open)
        invariant ignore0 <= ignore && seen0 <= seen
        decreases todo
      {
        var e :| e in todo;
        todo := todo - {e};
        NoLarger(net.edges.Keys, ignore0, ignore);
        ignore, seen := SetChild(e, c, ignore, q, m0, seen, open);
      }
    }

    /** Its loop over the parents. */
    method SetParents(n: nat, c: int, ignore0: set<nat>, ghost q: Query, ghost m0: Marks, ghost seen0: set<Parent>,
                      ghost open: set<Parent>)
      returns (ignore: set<nat>, ghost seen: set<Parent>)
      requires Conn(q, Node(n)) && !Barrier(q, Node(n)) && Node(n) in open && Moving(q, c, m0, ignore0, seen0, open)
      modifies this
      ensures Moving(q, c, m0, ignore, seen, open) && ignore0 <= ignore && seen0 <= seen && Above(net, n) <= ignore
      decreases |net.edges.Keys - ignore0|, 1
    {
      hide Conn, Barrier, Moving;
      ignore, seen := ignore0, seen0;
      var todo := Above(net, n);
      while todo != {}
        invariant todo <= Above(net, n) <= ignore + todo && Moving(q, c, m0, ignore, seen, open) && ignore0 <= ignore
        invariant seen0 <= seen
        decreases todo
      {
        var e :| e in todo;
        todo := todo - {e};
        NoLarger(net.edges.Keys, ignore0, ignore);
        ignore, seen := SetParent(e, c, ignore, q, m0, seen, open);
      }
    }

    /** One step of the loop over the children, or over the edges of a job. */
    method SetChild(e: nat, c: int, ignore0: set<nat>, ghost q: Query, ghost m0: Marks, ghost seen0: set<Parent>,
                    ghost open: set<Parent>)
      returns (ignore: set<nat>, ghost seen: set<Parent>)
      requires e in net.edges && Inner(net.edges[e].parent) && Conn(q, net.edges[e].parent)
      requires !Barrier(q, net.edges[e].parent)
      requires net.edges[e].parent in open && Moving(q, c, m0, ignore0, seen0, open)
      modifies this
      ensures Moving(q, c, m0, ignore, seen, open) && ignore0 <= ignore && seen0 <= seen && e in ignore
      decreases |net.edges.Keys - ignore0|, 0
    {
      hide Conn, Explored, Stuck, Incident, Marked;
      ignore, seen := ignore0, seen0;
      if e in ignore {
        return;
      }
      ignore := ignore + {e};
      Cross(q, ignore0, seen, open, net.edges[e].parent, e, Node(net.edges[e].bs));
      MarkEdge(q, m0, M(), ignore0, seen, e);
      ignore, seen := SetNode(net.edges[e].bs, c, ignore, q, m0, seen, open);
    }

    /** One step of the loop over the parents; the role of the edge has a handler. */
    method SetParent(e: nat, c: int, ignore0: set<nat>, ghost q: Query, ghost m0: Marks, ghost seen0: set<Parent>,
                     ghost open: set<Parent>)
      returns (ignore: set<nat>, ghost seen: set<Parent>)
      requires e in net.edges && Conn(q, Node(net.edges[e].bs)) && !Barrier(q, Node(net.edges[e].bs))
      requires Node(net.edges[e].bs) in open && Moving(q, c, m0, ignore0, seen0, open)
      modifies this
      ensures Moving(q, c, m0, ignore, seen, open) && ignore0 <= ignore && seen0 <= seen && e in ignore
      decreases |net.edges.Keys - ignore0|, 0
    {
      hide Conn, Explored, Stuck, Incident, Marked;
      ignore, seen := ignore0, seen0;
      if e in ignore {
        return;
      }
      ghost var a := Node(net.edges[e].bs);
      SkipIgnored(q, ignore0, seen0, open, e);
      HasHandler(q, a, e);
      assert net.edges[e].parent != Fixed;
      ignore := ignore + {e};
      match net.edges[e].parent {
        case Backend(allows) =>
          CrossOut(q, ignore0, seen, open, a, e);
          MarkBackend(q, m0, M(), ignore0, seen, e);
          rootCtx := rootCtx[e := c];
        case Node(m) =>
          Cross(q, ignore0, seen, open, a, e, Node(m));
          MarkEdge(q, m0, M(), ignore0, seen, e);
          ignore, seen := SetNode(m, c, ignore, q, m0, seen, open);
        case Job(j) =>
          Cross(q, ignore0, seen, open, a, e, Job(j));
          MarkEdge(q, m0, M(), ignore0, seen, e);
          ignore, seen := SetJob(j, c, ignore, q, m0, seen, open);
        case Fixed =>
      }
    }

    /** child_job_set_aio_ctx */
    method SetJob(j: nat, c: int, ignore0: set<nat>, ghost q: Query, ghost m0: Marks, ghost seen0: set<Parent>,
                  ghost open: set<Parent>)
      returns (ignore: set<nat>, ghost seen: set<Parent>)
      requires j in net.jobs && Conn(q, Job(j)) && Moving(q, c, m0, ignore0, seen0, open + {Job(j)})
      modifies this
      ensures Moving(q, c, m0, ignore, seen, open) && ignore0 <= ignore && seen0 <= seen
      decreases |net.edges.Keys - ignore0|, 1
    {
      hide Conn, Explored, Stuck, NetOk, Incident, Marked;
      ignore, seen := ignore0, seen0;
      JobEdges(net, j);
      for i := 0 to |net.jobs[j]|
        invariant (forall k :: 0 <= k < i ==> net.jobs[j][k] in ignore) && ignore0 <= ignore && seen0 <= seen
        invariant Moving(q, c, m0, ignore, seen, open + {Job(j)})
      {
        NoLarger(net.edges.Keys, ignore0, ignore);
        ignore, seen := SetChild(net.jobs[j][i], c, ignore, q, m0, seen, open + {Job(j)});
      }
      IncidentToJob(net, j, ignore);
      Finish(q, ignore, seen, open, Job(j));
      MarkJob(q, m0, M(), ignore, seen, j);
      seen := seen + {Job(j)};
      jobCtx := jobCtx[j := c];
    }

    /** bdrv_child_try_set_aio_context: either nothing changes, or exactly what the walk reaches is
        moved. */
    method TrySet(bs: nat, c: int, skip: set<nat>) returns (ok: bool)
      requires Complete() && bs in ctx
      modifies this
      ensures Complete()
      ensures ok <==> !Stuck(Query(net, old(ctx), c, skip, bs))
      ensures !ok ==> M() == old(M())
      ensures ok ==> Carried(Query(net, old(ctx), c, skip, bs), old(M()), M())
    {
      hide Conn, Explored, Stuck, Marked, NetOk, Carried;
      ghost var q, m0 := Query(net, ctx, c, skip, bs), M();
      ConnStart(q);
      ExploredStarts(q);
      ghost var seen;
      var ignore;
      assert {} + {Node(bs)} == {Node(bs)};
      ok, ignore, seen := CanSetNode(bs, c, skip, q, {}, {});
      if !ok {
        return;
      }
      FoundNotStuck(q, ignore, seen);
      MarkedSelf(q, m0);
      ignore, seen := SetNode(bs, c, skip, q, m0, {}, {});
      AllCarried(q, m0, M(), ignore, seen);
    }
  }

  /** The contexts of nodes, jobs and BlockBackends. */
  datatype Marks = Marks(ctx: map<nat, int>, jobCtx: map<nat, int>, rootCtx: map<nat, int>)

  /** BlockBackend edges that a walk has been along. */
  ghost predicate Passed(q: Query, ignore: set<nat>, e: nat) {
    e in ignore && e !in q.skip && e in q.net.edges && q.net.edges[e].parent.Backend?
  }

  /** `m` is `m0` with what the walk is done with moved to the target. */
  ghost predicate Marked(q: Query, m0: Marks, m: Marks, ignore: set<nat>, seen: set<Parent>) {
    && m.ctx.Keys == m0.ctx.Keys && m.jobCtx.Keys == m0.jobCtx.Keys && m.rootCtx.Keys == m0.rootCtx.Keys
    && (forall n :: n in m.ctx ==> m.ctx[n] == if Node(n) in seen then q.target else m0.ctx[n])
    && (forall j :: j in m.jobCtx ==> m.jobCtx[j] == if Job(j) in seen then q.target else m0.jobCtx[j])
    && (forall e :: e in m.rootCtx ==> m.rootCtx[e] == if Passed(q, ignore, e) then q.target else m0.rootCtx[e])
  }

  lemma MarkedSelf(q: Query, m: Marks)
    ensures Marked(q, m, m, q.skip, {})
  {}

  lemma MarkEdge(q: Query, m0: Marks, m: Marks, ignore: set<nat>, seen: set<Parent>, e: nat)
    requires Marked(q, m0, m, ignore, seen) && e in q.net.edges && Inner(q.net.edges[e].parent)
    ensures Marked(q, m0, m, ignore + {e}, seen)
  {}

  lemma MarkBackend(q: Query, m0: Marks, m: Marks, ignore: set<nat>, seen: set<Parent>, e: nat)
    requires Marked(q, m0, m, ignore, seen) && e in q.net.edges && q.net.edges[e].parent.Backend? && e !in q.skip
    requires e in m.rootCtx
    ensures Marked(q, m0, m.(rootCtx := m.rootCtx[e := q.target]), ignore + {e}, seen)
  {}

  lemma MarkNode(q: Query, m0: Marks, m: Marks, ignore: set<nat>, seen: set<Parent>, n: nat)
    requires Marked(q, m0, m, ignore, seen) && n in m.ctx
    ensures Marked(q, m0, m.(ctx := m.ctx[n := q.target]), ignore, seen + {Node(n)})
  {}

  lemma MarkJob(q: Query, m0: Marks, m: Marks, ignore: set<nat>, seen: set<Parent>, j: nat)
    requires Marked(q, m0, m, ignore, seen) && j in m.jobCtx
    ensures Marked(q, m0, m.(jobCtx := m.jobCtx[j := q.target]), ignore, seen + {Job(j)})
  {}

  /** A node already in the target context was there before, or the walk is done with it. */
  lemma AtTarget(q: Query, m0: Marks, m: Marks, ignore: set<nat>, seen: set<Parent>, open: set<Parent>, n: nat)
    requires Explored(q, ignore, seen, open + {Node(n)}) && Marked(q, m0, m, ignore, seen) && m0.ctx == q.ctx
    requires n in m.ctx
    ensures m.ctx[n] == q.target ==> Explored(q, ignore, seen, open) && (Node(n) in seen || Barrier(q, Node(n)))
    ensures m.ctx[n] != q.target ==> !Barrier(q, Node(n))
  {}

  /** Where nobody is stuck, every edge the walk comes to has its handler. */
  lemma HasHandler(q: Query, a: Parent, e: nat)
    requires !Stuck(q) && Conn(q, a) && !Barrier(q, a) && Inner(a) && e in Incident(q.net, a) && e !in q.skip
    ensures Allowed(q.net.edges[e].parent)
  {}

  lemma SkipIgnored(q: Query, ignore: set<nat>, seen: set<Parent>, open: set<Parent>, e: nat)
    requires Explored(q, ignore, seen, open) && e !in ignore && e in q.net.edges
    ensures e !in q.skip && e in Incident(q.net, Node(q.net.edges[e].bs))
  {}

  lemma MarkedKeys(q: Query, m0: Marks, m: Marks, ignore: set<nat>, seen: set<Parent>)
    requires Marked(q, m0, m, ignore, seen)
    ensures m.ctx.Keys == m0.ctx.Keys
  {}

  /** Every node and job that the walk reaches is in the target context, every other is where it
      was; so is every BlockBackend, according to whether its node was moved. */
  ghost predicate Carried(q: Query, m0: Marks, m: Marks) {
    && m.ctx.Keys == m0.ctx.Keys && m.jobCtx.Keys == m0.jobCtx.Keys && m.rootCtx.Keys == m0.rootCtx.Keys
    && (forall n :: n in m.ctx ==> m.ctx[n] == if Conn(q, Node(n)) then q.target else m0.ctx[n])
    && (forall j :: j in m.jobCtx ==> m.jobCtx[j] == if Conn(q, Job(j)) then q.target else m0.jobCtx[j])
    && (forall e :: e in m.rootCtx && e in q.net.edges && q.net.edges[e].parent.Backend? && e !in q.skip ==>
          m.rootCtx[e] == if Conn(q, Node(q.net.edges[e].bs)) && !Barrier(q, Node(q.net.edges[e].bs)) then q.target
                          else m0.rootCtx[e])
  }

  lemma AllCarried(q: Query, m0: Marks, m: Marks, ignore: set<nat>, seen: set<Parent>)
    requires Explored(q, ignore, seen, {}) && Marked(q, m0, m, ignore, seen) && q.ctx == m0.ctx
    requires Node(q.start) in seen || Barrier(q, Node(q.start))
    ensures Carried(q, m0, m)
  {
    hide Conn;
    forall n | n in m.ctx
      ensures m.ctx[n] == if Conn(q, Node(n)) then q.target else m0.ctx[n]
    {
      Found(q, ignore, seen, Node(n));
    }
    forall j | j in m.jobCtx
      ensures m.jobCtx[j] == if Conn(q, Job(j)) then q.target else m0.jobCtx[j]
    {
      Found(q, ignore, seen, Job(j));
    }
    forall e | e in m.rootCtx && e in q.net.edges && q.net.edges[e].parent.Backend? && e !in q.skip
      ensures e in ignore <==> Conn(q, Node(q.net.edges[e].bs)) && !Barrier(q, Node(q.net.edges[e].bs))
    {
      Found(q, ignore, seen, Node(q.net.edges[e].bs));
      if Node(q.net.edges[e].bs) in seen {
        assert e in Incident(q.net, Node(q.net.edges[e].bs));
      }
    }
  }
}
