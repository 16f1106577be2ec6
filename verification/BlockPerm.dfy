/** Permissions on the edges of a block graph: check with backup, then set or abort. */
module BlockPerm {

  datatype Option<+T> = None | Some(value: T)

  datatype Perm = ConsistentRead | Write | WriteUnchanged | Resize | GraphMod

  const ALL: set<Perm> := {ConsistentRead, Write, WriteUnchanged, Resize, GraphMod}

  /** What a parent does with a node, and what it lets others do. */
  datatype Perms = Perms(used: set<Perm>, shared: set<Perm>)

  /** BdrvChild: the permissions of one edge, and the backup taken while a change is checked. */
  datatype Edge = Edge(cur: Perms, backup: Option<Perms>)

  type Edges = seq<Edge>

  /** The part of the graph that a permission update does not change.  Edge `e` points to node
      `bs[e]` and belongs to node `owner[e]`, or to a user outside the graph when that is -1.
      `childPerm`, `writable` and `hook` are the drivers' answers. */
  datatype Topology = Topology(
    bs: seq<nat>, owner: seq<int>,
    children: seq<seq<nat>>, parents: seq<seq<nat>>,
    drv: seq<bool>, forceShare: seq<bool>, writable: seq<bool>, hasHook: seq<bool>,
    hook: (nat, Perms) -> bool,
    childPerm: (nat, Perms) -> Perms)
  {
    function Nodes(): nat {
      |children|
    }

    function Kids(n: nat): seq<nat>
      requires n < |children| && n < |drv|
    {
      if drv[n] then children[n] else []
    }

    /** bdrv_child_perm */
    function PermFor(e: nat, cum: Perms): Perms
      requires e < |bs| && bs[e] < |forceShare|
    {
      var p := childPerm(e, cum);
      if forceShare[bs[e]] then Perms(p.used, ALL) else p
    }
  }

  /** The edge lists mirror each other; edges go down in `rank`, so the graph has no cycle; a
      driver shares WRITE_UNCHANGED if everybody above does; a driver that checks by a hook of its
      own has no children. */
  ghost predicate Topo(t: Topology, rank: seq<nat>) {
    && |t.parents| == |t.drv| == |t.forceShare| == |t.writable| == |t.hasHook| == |rank| == t.Nodes()
    && |t.owner| == |t.bs|
    && (forall e :: 0 <= e < |t.bs| ==> t.bs[e] < t.Nodes())
    && (forall e :: 0 <= e < |t.bs| ==>
          -1 <= t.owner[e] < t.Nodes() && (t.owner[e] >= 0 ==> rank[t.bs[e]] < rank[t.owner[e]]))
    && (forall n: nat, e: nat {:trigger e in t.children[n]} :: n < t.Nodes() && e in t.children[n] ==>
          e < |t.bs| && t.owner[e] == n)
    && (forall e :: 0 <= e < |t.bs| && t.owner[e] >= 0 ==> e in t.children[t.owner[e]])
    && (forall n: nat, e: nat {:trigger e in t.parents[n]} :: n < t.Nodes() && e in t.parents[n] ==>
          e < |t.bs| && t.bs[e] == n)
    && (forall e :: 0 <= e < |t.bs| ==> e in t.parents[t.bs[e]])
    && (forall e: nat, cum: Perms :: e < |t.bs| && WriteUnchanged in cum.shared ==>
          WriteUnchanged in t.childPerm(e, cum).shared)
    && (forall n :: 0 <= n < t.Nodes() && t.hasHook[n] ==> t.children[n] == [])
  }

  predicate Compatible(p: Perms, q: Perms) {
    p.used <= q.shared && q.used <= p.shared
  }

  /** What the parents of a node may do to it stays within what each other parent shares. */
  ghost predicate AllCompatible(t: Topology, s: Edges) {
    && |s| == |t.bs|
    && (forall e :: 0 <= e < |s| ==> WriteUnchanged in s[e].cur.shared)
    && forall e, f :: 0 <= e < |s| && 0 <= f < |s| && e != f && t.bs[e] == t.bs[f] ==> Compatible(s[e].cur, s[f].cur)
  }

  /** The permissions of a list of edges together. */
  ghost function Together(s: Edges, es: seq<nat>): Perms {
    Perms(set p | p in ALL && exists e :: e in es && e < |s| && p in s[e].cur.used,
          set p | p in ALL && forall e :: e in es && e < |s| ==> p in s[e].cur.shared)
  }

  /** The permissions of all parents of a node together. */
  ghost function Cumulative(t: Topology, s: Edges, n: nat): Perms
    requires n < |t.parents|
  {
    Together(s, t.parents[n])
  }

  /** A read-only node is not written to, and a driver's own check agrees. */
  predicate Accepts(t: Topology, n: nat, cum: Perms)
    requires n < |t.writable| && n < |t.drv| && n < |t.hasHook|
  {
    && (cum.used * {Write, WriteUnchanged} == {} || t.writable[n])
    && (t.drv[n] && t.hasHook[n] ==> t.hook(n, cum))
  }

  /** Node `n` accepts what its parents do together, and the edges it owns carry what its driver
      derives from that. */
  ghost predicate Solved(t: Topology, s: Edges, n: nat)
    requires |s| == |t.bs| && n < |t.children| && n < |t.drv| && n < |t.parents| && n < |t.writable| && n < |t.hasHook|
  {
    && Accepts(t, n, Cumulative(t, s, n))
    && forall e :: e in t.Kids(n) && e < |s| && t.bs[e] < |t.forceShare| ==>
         s[e].cur == t.PermFor(e, Cumulative(t, s, n))
  }

  /** Node `y` can be reached from `n` through nodes with drivers. */
  ghost predicate Reach(t: Topology, rank: seq<nat>, n: nat, y: nat)
    requires Topo(t, rank) && n < t.Nodes()
    decreases rank[n]
  {
    y == n || exists e: nat :: e in t.Kids(n) && e < |t.bs| && Reach(t, rank, t.bs[e], y)
  }

  /** Edge `e` hangs below node `n`. */
  ghost predicate Below(t: Topology, rank: seq<nat>, n: nat, e: nat)
    requires Topo(t, rank) && n < t.Nodes()
  {
    e < |t.bs| && t.owner[e] >= 0 && t.drv[t.owner[e]] && Reach(t, rank, n, t.owner[e])
  }

  lemma {:induction false} ReachRank(t: Topology, rank: seq<nat>, n: nat, y: nat)
    requires Topo(t, rank) && n < t.Nodes() && Reach(t, rank, n, y)
    ensures y < t.Nodes() && (y == n || rank[y] < rank[n])
    decreases rank[n]
  {
    if y != n {
      var e: nat :| e in t.Kids(n) && e < |t.bs| && Reach(t, rank, t.bs[e], y);
      ReachRank(t, rank, t.bs[e], y);
    }
  }

  /** Everything below a child edge is below its owner, and has lower rank. */
  lemma BelowKid(t: Topology, rank: seq<nat>, n: nat, e: nat, f: nat)
    requires Topo(t, rank) && n < t.Nodes() && e in t.Kids(n) && e < |t.bs| && Below(t, rank, t.bs[e], f)
    ensures Below(t, rank, n, f) && rank[t.bs[f]] < rank[t.bs[e]]
  {
    ReachRank(t, rank, t.bs[e], t.owner[f]);
  }

  lemma KidIsBelow(t: Topology, rank: seq<nat>, n: nat, e: nat)
    requires Topo(t, rank) && n < t.Nodes() && e in t.Kids(n)
    ensures Below(t, rank, n, e)
  {
    assert Reach(t, rank, n, n);
  }

  /** Only edges below `n`, and possibly `c`, differ. */
  ghost predicate OnlyBelow(t: Topology, rank: seq<nat>, s: Edges, s': Edges, n: nat, c: int)
    requires Topo(t, rank) && n < t.Nodes()
  {
    |s'| == |s| && forall e :: 0 <= e < |s| && e != c && !Below(t, rank, n, e) ==> s'[e] == s[e]
  }

  /** Every change since `orig` is recorded in a backup. */
  ghost predicate Backed(orig: Edges, s: Edges) {
    && |s| == |orig|
    && forall e :: 0 <= e < |s| ==>
         if s[e].backup.Some? then s[e].backup.value == orig[e].cur else s[e].cur == orig[e].cur
  }

  /** Nothing is being checked. */
  ghost predicate Settled(s: Edges) {
    forall e :: 0 <= e < |s| ==> s[e].backup == None
  }

  /** All nodes reachable from `n`, except possibly `n` itself, carry derived permissions. */
  ghost predicate SolvedBelow(t: Topology, rank: seq<nat>, s: Edges, n: nat)
    requires Topo(t, rank) && n < t.Nodes() && |s| == |t.bs|
  {
    forall y :: 0 <= y < t.Nodes() && y != n && Reach(t, rank, n, y) ==> Solved(t, s, y)
  }

  /** Changing only edges that point elsewhere leaves the permissions of a node's parents alone. */
  lemma SameCumulative(t: Topology, rank: seq<nat>, s: Edges, s': Edges, n: nat)
    requires Topo(t, rank) && |s| == |s'| == |t.bs| && n < t.Nodes()
    requires forall e :: 0 <= e < |s| && t.bs[e] == n ==> s'[e].cur == s[e].cur
    ensures Cumulative(t, s', n) == Cumulative(t, s, n)
  {
    assert forall e: nat :: e in t.parents[n] ==> e < |s| && s'[e].cur == s[e].cur;
  }

  lemma AllPerms(s: set<Perm>)
    ensures s <= ALL
  {
    forall p | p in s
      ensures p in ALL
    {
      match p case ConsistentRead => case Write => case WriteUnchanged => case Resize => case GraphMod =>
    }
  }

  /** One more edge adds what it uses and takes away what it does not share. */
  lemma TogetherStep(s: Edges, es: seq<nat>, e: nat)
    requires e < |s|
    ensures Together(s, es + [e]) == Perms(Together(s, es).used + s[e].cur.used,
                                           Together(s, es).shared * s[e].cur.shared)
  {
    AllPerms(s[e].cur.used);
    var u, v := Together(s, es + [e]), Together(s, es);
    assert forall f: nat :: f in es + [e] <==> f in es || f == e;
    forall p: Perm | p in ALL
      ensures p in u.used <==> p in v.used || p in s[e].cur.used
    {
      if p in s[e].cur.used {
        assert e in es + [e];
      }
      if p in v.used {
        var f :| f in es && f < |s| && p in s[f].cur.used;
        assert f in es + [e];
      }
    }
  }

  lemma TogetherSame(s: Edges, es: seq<nat>, es': seq<nat>)
    requires forall e: nat :: e in es <==> e in es'
    ensures Together(s, es) == Together(s, es')
  {}

  /** What the parents of `n` do together once edge `c` has permissions `want`. */
  ghost function CumulativeWith(t: Topology, s: Edges, n: nat, c: nat, want: Perms): Perms
    requires n < |t.parents| && c < |s|
  {
    Cumulative(t, s[c := s[c].(cur := want)], n)
  }

  /** `p` asks for no more, and refuses no more, than `q`. */
  predicate Looser(p: Perms, q: Perms) {
    p.used <= q.used && q.shared <= p.shared
  }

  /** Drivers that never ask for more, and never refuse more, when their parents ask for less. */
  ghost predicate Monotone(t: Topology) {
    && (forall e: nat, p: Perms, q: Perms :: Looser(p, q) ==> Looser(t.childPerm(e, p), t.childPerm(e, q)))
    && (forall n: nat, p: Perms, q: Perms :: Looser(p, q) && t.hook(n, q) ==> t.hook(n, p))
  }

  /** Below `n`, every node has a single parent edge. */
  ghost predicate Tree(t: Topology, rank: seq<nat>, n: nat)
    requires Topo(t, rank) && n < t.Nodes()
  {
    forall p, q :: 0 <= p < |t.bs| && 0 <= q < |t.bs| && t.bs[p] == t.bs[q] != n && Reach(t, rank, n, t.bs[p]) ==>
      p == q
  }

  /** Node `n` accepts `cum`, and so does everything below it what is derived from that. */
  ghost predicate Grants(t: Topology, rank: seq<nat>, n: nat, cum: Perms)
    requires Topo(t, rank) && n < t.Nodes()
    decreases rank[n]
  {
    Accepts(t, n, cum) && forall e: nat :: e in t.Kids(n) && e < |t.bs| ==> Grants(t, rank, t.bs[e], t.PermFor(e, cum))
  }

  /** Everything reachable from `n` carries derived permissions. */
  ghost predicate SolvedFrom(t: Topology, rank: seq<nat>, s: Edges, n: nat)
    requires Topo(t, rank) && n < t.Nodes() && |s| == |t.bs|
  {
    forall y :: 0 <= y < t.Nodes() && Reach(t, rank, n, y) ==> Solved(t, s, y)
  }

  class PermGraph {
    const t: Topology
    ghost const rank: seq<nat>
    var edges: Edges

    ghost predicate Valid()
      reads this
    {
      Topo(t, rank) && |edges| == |t.bs| && AllCompatible(t, edges)
    }

    /** bdrv_get_cumulative_perm */
    method GetCumulative(n: nat) returns (cum: Perms)
      requires Topo(t, rank) && |edges| == |t.bs| && n < t.Nodes()
      ensures cum == Cumulative(t, edges, n)
    {
      cum := Perms({}, ALL);
      var ps := t.parents[n];
      for i := 0 to |ps|
        invariant cum == Together(edges, ps[..i])
      {
        assert ps[i] in t.parents[n];
        TogetherStep(edges, ps[..i], ps[i]);
        assert ps[..i] + [ps[i]] == ps[..i + 1];
        cum := Perms(cum.used + edges[ps[i]].cur.used, cum.shared * edges[ps[i]].cur.shared);
      }
      assert ps[..|ps|] == ps;
    }

    /** bdrv_child_check_perm: check that edge `c` may take permissions `want`, derive what that
        means for everything below, and store it all with backups.  `ignore` holds the edges on
        the way down to `c`; `tighten` is *tighten_restrictions. */
    method CheckChild(c: nat, want: Perms, ignore: seq<nat>, ghost orig: Edges, ghost goal: Edges)
      returns (ok: bool, tighten: bool)
      requires Valid() && c < |edges| && WriteUnchanged in want.shared && Backed(orig, edges)
      requires Above(t, rank, ignore, rank[t.bs[c]] + 1)
      modifies this`edges
      ensures Valid() && Backed(orig, edges) && OnlyBelow(t, rank, old(edges), edges, t.bs[c], c)
      ensures ok ==> edges[c].cur == want && SolvedFrom(t, rank, edges, t.bs[c])
      ensures Monotone(t) && Looser(want, old(edges)[c].cur) && SolvedFrom(t, rank, old(edges), t.bs[c]) ==>
                ok && !tighten
      ensures !Fits(t, old(edges), c, want) ==> !ok && tighten
      ensures Tree(t, rank, t.bs[c]) ==>
                (ok <==> Fits(t, old(edges), c, want) &&
                         Grants(t, rank, t.bs[c], CumulativeWith(t, old(edges), t.bs[c], c, want)))
      ensures Aims(t, rank, old(edges), t.bs[c], goal) && Looser(want, goal[c].cur) ==> ok && AllLooser(edges, goal)
      ensures Blocked(t, rank, old(edges), t.bs[c], CumulativeWith(t, old(edges), t.bs[c], c, want)) ==> !ok
      ensures Tightens(t, rank, old(edges), t.bs[c], CumulativeWith(t, old(edges), t.bs[c], c, want)) ==> tighten
      ensures Monotone(t) && SolvedFrom(t, rank, old(edges), t.bs[c]) && !ok ==> tighten
      decreases rank[t.bs[c]], 2
    {
      hide Aims, Blocked, Looser, Cumulative, Tree, Grants;
      ghost var s0 := edges;
      AimsSize(t, rank, s0, t.bs[c], goal);
      ok, tighten := CheckUpdate(c, want, ignore + [c], orig, goal);
      if !ok {
        return;
      }
      ghost var s1 := edges;
      if edges[c].backup == None {
        edges := edges[c := edges[c].(backup := Some(edges[c].cur))];
      }
      edges := edges[c := edges[c].(cur := want)];
      SetCompatible(t, rank, s0, s1, edges, c, want);
      SetSolved(t, rank, s0, s1, edges, c, want);
    }

    /** bdrv_check_update_perm, for the edge `c` that is being updated (the last one in `ignore`) */
    method CheckUpdate(c: nat, want: Perms, ignore: seq<nat>, ghost orig: Edges, ghost goal: Edges)
      returns (ok: bool, tighten: bool)
      requires Valid() && c < |edges| && WriteUnchanged in want.shared && Backed(orig, edges)
      requires |ignore| > 0 && ignore[|ignore| - 1] == c && Above(t, rank, ignore[..|ignore| - 1], rank[t.bs[c]] + 1)
      modifies this`edges
      ensures Valid() && Backed(orig, edges) && OnlyBelow(t, rank, old(edges), edges, t.bs[c], -1)
      ensures ok ==> Fits(t, old(edges), c, want)
      ensures ok ==> KidsCarry(t, rank, edges, t.bs[c], CumulativeWith(t, old(edges), t.bs[c], c, want))
      ensures ok ==> SolvedBelow(t, rank, edges, t.bs[c])
      ensures Monotone(t) && Looser(want, old(edges)[c].cur) && SolvedFrom(t, rank, old(edges), t.bs[c]) ==>
                ok && !tighten
      ensures !Fits(t, old(edges), c, want) ==> !ok && tighten
      ensures Tree(t, rank, t.bs[c]) ==>
                (ok <==> Fits(t, old(edges), c, want) &&
                         Grants(t, rank, t.bs[c], CumulativeWith(t, old(edges), t.bs[c], c, want)))
      ensures Aims(t, rank, old(edges), t.bs[c], goal) && Looser(want, goal[c].cur) ==> ok && AllLooser(edges, goal)
      ensures Blocked(t, rank, old(edges), t.bs[c], CumulativeWith(t, old(edges), t.bs[c], c, want)) ==> !ok
      ensures Tightens(t, rank, old(edges), t.bs[c], CumulativeWith(t, old(edges), t.bs[c], c, want)) ==> tighten
      ensures Monotone(t) && SolvedFrom(t, rank, old(edges), t.bs[c]) && !ok ==> tighten
      decreases rank[t.bs[c]], 1
    {
      hide Blocked, Tree, Grants;
      AimFits(t, rank, edges, c, want, goal);
      var fits, cum := ScanParents(c, want, ignore);
      if !fits {
        StillFits(t, edges, c, want);
        return false, true;
      }
      CumulativeShares(t, rank, edges, c, want);
      CumulativeLooser(t, rank, edges, c, want);
      assert ignore == ignore[..|ignore| - 1] + [c];
      ok, tighten := CheckNode(t.bs[c], cum, ignore, orig, goal);
    }

    /** The loop of bdrv_check_update_perm over the other parents of the node. */
    method ScanParents(c: nat, want: Perms, ignore: seq<nat>) returns (ok: bool, cum: Perms)
      requires Topo(t, rank) && |edges| == |t.bs| && c < |edges|
      requires |ignore| > 0 && ignore[|ignore| - 1] == c && Above(t, rank, ignore[..|ignore| - 1], rank[t.bs[c]] + 1)
      ensures ok <==> Fits(t, edges, c, want)
      ensures ok ==> cum == CumulativeWith(t, edges, t.bs[c], c, want)
    {
      var ps := t.parents[t.bs[c]];
      cum := want;
      ghost var s' := edges[c := edges[c].(cur := want)];
      TogetherOne(s', c);
      for i := 0 to |ps|
        invariant cum == Together(s', [c] + ps[..i])
        invariant forall j :: 0 <= j < i && ps[j] != c ==> ps[j] < |edges| && Compatible(want, edges[ps[j]].cur)
      {
        var f := ps[i];
        assert f in t.parents[t.bs[c]];
        OnlySelfIgnored(t, rank, ignore, c, f);
        TogetherStep(s', [c] + ps[..i], f);
        assert [c] + ps[..i] + [f] == [c] + ps[..i + 1];
        if f !in ignore {
          if !(want.used <= edges[f].cur.shared) || !(edges[f].cur.used <= want.shared) {
            return false, cum;
          }
          cum := Perms(cum.used + edges[f].cur.used, cum.shared * edges[f].cur.shared);
        } else {
          TogetherSame(s', [c] + ps[..i], [c] + ps[..i + 1]);
        }
      }
      assert ps[..|ps|] == ps;
      assert c in ps;
      TogetherSame(s', [c] + ps, ps);
      FitsAll(t, rank, edges, c, want);
      ok := true;
    }

    /** bdrv_check_perm: `cum` is what all parents of `n` will do together. */
    method CheckNode(n: nat, cum: Perms, ignore: seq<nat>, ghost orig: Edges, ghost goal: Edges)
      returns (ok: bool, tighten: bool)
      requires Valid() && n < t.Nodes() && WriteUnchanged in cum.shared && Backed(orig, edges)
      requires Above(t, rank, ignore, rank[n])
      modifies this`edges
      ensures Valid() && Backed(orig, edges) && OnlyBelow(t, rank, old(edges), edges, n, -1)
      ensures ok ==> KidsCarry(t, rank, edges, n, cum) && SolvedBelow(t, rank, edges, n)
      ensures Monotone(t) && Looser(cum, Cumulative(t, old(edges), n)) && SolvedFrom(t, rank, old(edges), n) ==>
                ok && !tighten
      ensures Tree(t, rank, n) ==> (ok <==> Grants(t, rank, n, cum))
      ensures Aims(t, rank, old(edges), n, goal) && Looser(cum, Cumulative(t, goal, n)) ==> ok && AllLooser(edges, goal)
      ensures Blocked(t, rank, old(edges), n, cum) ==> !ok
      ensures Tightens(t, rank, old(edges), n, cum) ==> tighten
      decreases rank[n], 0, 1
    {
      AcceptsLooser(t, rank, edges, n, cum);
      AimAccepts(t, rank, edges, n, cum, goal);
      var current := GetCumulative(n);
      tighten := cum.used - current.used != {} || current.shared - cum.shared != {};
      hide Tightens, FirstTightens;
      TightensHere(t, rank, edges, n, cum, tighten);
      if cum.used * {Write, WriteUnchanged} != {} && !t.writable[n] {
        return false, tighten;
      }
      if !t.drv[n] {
        LeafSolved(t, rank, edges, n, cum);
        return true, tighten;
      }
      if t.hasHook[n] {
        ok := t.hook(n, cum);
        if ok {
          LeafSolved(t, rank, edges, n, cum);
        }
        return;
      }
      var kidsTighten;
      ok, kidsTighten := CheckKids(n, cum, ignore, orig, goal);
      tighten := tighten || kidsTighten;
    }

    /** The loop of bdrv_check_perm over the children. */
    method CheckKids(n: nat, cum: Perms, ignore: seq<nat>, ghost orig: Edges, ghost goal: Edges)
      returns (ok: bool, tighten: bool)
      requires Valid() && n < t.Nodes() && t.drv[n] && Accepts(t, n, cum) && WriteUnchanged in cum.shared
      requires Backed(orig, edges)
      requires Above(t, rank, ignore, rank[n])
      modifies this`edges
      ensures Valid() && Backed(orig, edges) && OnlyBelow(t, rank, old(edges), edges, n, -1)
      ensures ok ==> KidsCarry(t, rank, edges, n, cum) && SolvedBelow(t, rank, edges, n)
      ensures Monotone(t) && Looser(cum, Cumulative(t, old(edges), n)) && SolvedFrom(t, rank, old(edges), n) ==>
                ok && !tighten
      ensures Tree(t, rank, n) ==> (ok <==> Grants(t, rank, n, cum))
      ensures Aims(t, rank, old(edges), n, goal) && Looser(cum, Cumulative(t, goal, n)) ==> ok && AllLooser(edges, goal)
      ensures Blocked(t, rank, old(edges), n, cum) ==> !ok
      ensures FirstTightens(t, rank, old(edges), n, cum) ==> tighten
      decreases rank[n], 0, 0
    {
      hide AllCompatible, Backed, OnlyBelow, SolvedFrom, Monotone, Cumulative, Looser, KidsDone, KidsLoose, Tree, Fits;
      hide Aims, AllLooser;
      ghost var s0 := edges;
      var kids := t.children[n];
      StartKids(t, rank, s0, n, cum);
      AimsSelf(t, rank, s0, n, goal);
      ok, tighten := true, false;
      for i := 0 to |kids|
        invariant Valid() && Backed(orig, edges) && OnlyBelow(t, rank, s0, edges, n, -1)
        invariant KidsDone(t, rank, edges, n, cum, i)
        invariant KidsLoose(t, rank, s0, edges, n, cum)
        invariant Monotone(t) && Looser(cum, Cumulative(t, s0, n)) && SolvedFrom(t, rank, s0, n) ==> !tighten
        invariant GrantsFirst(t, rank, n, cum, i)
        invariant Aims(t, rank, s0, n, goal) && Looser(cum, Cumulative(t, goal, n)) ==> AllLooser(edges, goal)
        invariant i == 0 ==> edges == s0
        invariant i > 0 ==> !Blocked(t, rank, s0, n, cum)
        invariant i > 0 && FirstTightens(t, rank, s0, n, cum) ==> tighten
      {
        var e := kids[i];
        assert e in t.Kids(n);
        ghost var s1 := edges;
        var want := t.PermFor(e, cum);
        AboveKid(t, rank, ignore, n, e);
        KidLooser(t, rank, s0, s1, n, cum, e);
        AimKid(t, rank, s0, s1, n, cum, e, goal);
        var childTighten;
        ok, childTighten := CheckChild(e, want, ignore, orig, goal);
        tighten := tighten || childTighten;
        OnlyBelowKid(t, rank, s0, s1, edges, n, e);
        TreeKid(t, rank, s1, n, cum, e, ok);
        if !ok {
          return;
        }
        AfterKid(t, rank, s0, s1, edges, n, cum, i);
      }
      EndKids(t, rank, edges, n, cum);
    }

    /** bdrv_child_abort_perm_update: take every backup at or below `c` back. */
    method AbortChild(c: nat)
      requires Topo(t, rank) && |edges| == |t.bs| && c < |edges|
      modifies this`edges
      ensures Swept(t, rank, old(edges), edges, t.bs[c], c, Undo)
      decreases rank[t.bs[c]], 1
    {
      ghost var s0 := edges;
      if edges[c].backup.Some? {
        edges := edges[c := Edge(edges[c].backup.value, None)];
      }
      ghost var s1 := edges;
      AbortNode(t.bs[c]);
      SweptOne(t, rank, s0, s1, edges, c, Undo);
    }

    /** bdrv_abort_perm_update */
    method AbortNode(n: nat)
      requires Topo(t, rank) && |edges| == |t.bs| && n < t.Nodes()
      modifies this`edges
      ensures Swept(t, rank, old(edges), edges, n, -1, Undo)
      decreases rank[n], 0
    {
      ghost var s0 := edges;
      if !t.drv[n] {
        NothingBelow(t, rank, n);
        return;
      }
      var kids := t.children[n];
      for i := 0 to |kids|
        invariant SweptSoFar(t, rank, s0, edges, n, i, Undo)
      {
        assert kids[i] in t.Kids(n);
        ghost var s1 := edges;
        AbortChild(kids[i]);
        SweptMore(t, rank, s0, s1, edges, n, i, Undo);
      }
      SweptAll(t, rank, s0, edges, n, Undo);
    }

    /** bdrv_child_set_perm, after a successful check: it stores what is stored already and drops
        the backups. */
    method SetChild(c: nat, want: Perms)
      requires Topo(t, rank) && |edges| == |t.bs| && c < |edges|
      requires edges[c].cur == want && SolvedFrom(t, rank, edges, t.bs[c])
      modifies this`edges
      ensures Swept(t, rank, old(edges), edges, t.bs[c], c, Commit)
      decreases rank[t.bs[c]], 1
    {
      ghost var s0 := edges;
      edges := edges[c := edges[c].(backup := None)];
      edges := edges[c := edges[c].(cur := want)];
      ghost var s1 := edges;
      SameCurSolved(t, rank, s0, s1, t.bs[c]);
      var cum := GetCumulative(t.bs[c]);
      SetNode(t.bs[c], cum);
      SweptOne(t, rank, s0, s1, edges, c, Commit);
    }

    /** bdrv_set_perm */
    method SetNode(n: nat, cum: Perms)
      requires Topo(t, rank) && |edges| == |t.bs| && n < t.Nodes()
      requires cum == Cumulative(t, edges, n) && SolvedFrom(t, rank, edges, n)
      modifies this`edges
      ensures Swept(t, rank, old(edges), edges, n, -1, Commit)
      decreases rank[n], 0
    {
      ghost var s0 := edges;
      if !t.drv[n] {
        NothingBelow(t, rank, n);
        return;
      }
      var kids := t.children[n];
      for i := 0 to |kids|
        invariant SweptSoFar(t, rank, s0, edges, n, i, Commit)
      {
        assert kids[i] in t.Kids(n);
        ghost var s1 := edges;
        SolvedKid(t, rank, s0, s1, n, kids[i]);
        SetChild(kids[i], t.PermFor(kids[i], cum));
        SweptMore(t, rank, s0, s1, edges, n, i, Commit);
      }
      SweptAll(t, rank, s0, edges, n, Commit);
    }

    /** bdrv_child_try_set_perm: either nothing changes at all, or edge `c` has the permissions
        asked for, every edge below it carries what its driver derives, and nothing else changes.
        Either way all parents of every node agree and no backup is left. */
    method TrySetPerm(c: nat, want: Perms) returns (ret: int, ghost applied: bool)
      requires Valid() && Settled(edges) && c < |edges| && WriteUnchanged in want.shared
      modifies this`edges
      ensures Valid() && Settled(edges)
      ensures !applied ==> edges == old(edges)
      ensures applied ==> edges[c].cur == want && SolvedFrom(t, rank, edges, t.bs[c])
      ensures applied ==> OnlyBelow(t, rank, old(edges), edges, t.bs[c], c)
      ensures ret <= 0 && (ret < 0 ==> !applied)
      ensures Monotone(t) && Looser(want, old(edges)[c].cur) && SolvedFrom(t, rank, old(edges), t.bs[c]) ==>
                applied && ret == 0
      ensures !Fits(t, old(edges), c, want) ==> ret < 0
      ensures Tree(t, rank, t.bs[c]) ==>
                (applied <==> Fits(t, old(edges), c, want) &&
                              Grants(t, rank, t.bs[c], CumulativeWith(t, old(edges), t.bs[c], c, want)))
      // with monotone drivers, it succeeds if all agree in some state that is at least as strict
      ensures (exists g :: AimsAt(t, rank, old(edges), c, want, g)) ==> applied
      // with monotone drivers, asking for more succeeds exactly if there is an outcome in which all agree
      ensures Monotone(t) && Looser(old(edges)[c].cur, want) && SolvedFrom(t, rank, old(edges), t.bs[c]) ==>
                (applied <==> exists s' :: Outcome(t, rank, old(edges), c, want, s'))
      ensures Blocked(t, rank, old(edges), t.bs[c], CumulativeWith(t, old(edges), t.bs[c], c, want)) ==> !applied
      // a refusal is an error if it refuses to tighten; with monotone drivers every refusal is
      ensures !applied && Tightens(t, rank, old(edges), t.bs[c], CumulativeWith(t, old(edges), t.bs[c], c, want)) ==>
                ret < 0
      ensures Monotone(t) && SolvedFrom(t, rank, old(edges), t.bs[c]) ==> (ret == 0 <==> applied)
    {
      hide Aims, Blocked, Cumulative, Tree, Grants, Fits, Monotone, Goal;
      ghost var s0 := edges;
      ghost var goal := Goal(t, rank, s0, c, want);
      GoalAims(t, rank, s0, c, want);
      var ok, tighten := CheckChild(c, want, [], s0, goal);
      ghost var s1 := edges;
      if !ok {
        AbortChild(c);
        AbortRestores(t, rank, s0, s1, edges, c);
        return if tighten then -1 else 0, false;
      }
      SetChild(c, want);
      CommitKeeps(t, rank, s0, s1, edges, c);
      assert Outcome(t, rank, s0, c, want, edges);
      return 0, true;
    }
  }

  // ---------------------------------------------------------------- asking for more

  /** Every edge of `g` is at least as strict. */
  ghost predicate AllLooser(s: Edges, g: Edges) {
    |s| == |g| && forall e :: 0 <= e < |s| ==> Looser(s[e].cur, g[e].cur)
  }

  /** With monotone drivers, `g` is a state in which all parents agree, derived from node `n` down and
      at least as strict as `s`. */
  ghost predicate Aims(t: Topology, rank: seq<nat>, s: Edges, n: nat, g: Edges)
    requires Topo(t, rank) && n < t.Nodes()
  {
    Monotone(t) && AllCompatible(t, g) && AllLooser(s, g) && SolvedFrom(t, rank, g, n)
  }

  /** What a permission update is asked for: all parents agree, edge `c` has permissions `want`, everything
      below carries what its driver derives, and nothing else changes. */
  ghost predicate Outcome(t: Topology, rank: seq<nat>, s: Edges, c: nat, want: Perms, s': Edges)
    requires Topo(t, rank) && c < |t.bs|
  {
    && AllCompatible(t, s') && s'[c].cur == want && SolvedFrom(t, rank, s', t.bs[c])
    && OnlyBelow(t, rank, s, s', t.bs[c], c)
  }

  /** `g` is such a state for the node of edge `c`, and there the edge is at least as strict as `want`. */
  ghost predicate AimsAt(t: Topology, rank: seq<nat>, s: Edges, c: nat, want: Perms, g: Edges)
    requires Topo(t, rank) && c < |t.bs|
  {
    Aims(t, rank, s, t.bs[c], g) && Looser(want, g[c].cur)
  }

  /** One of these states, if there is one. */
  ghost function Goal(t: Topology, rank: seq<nat>, s: Edges, c: nat, want: Perms): Edges
    requires Topo(t, rank) && c < |t.bs|
  {
    if exists g :: AimsAt(t, rank, s, c, want, g) then var g :| AimsAt(t, rank, s, c, want, g); g else s
  }

  /** Following first children from node `n` down, with `cum` what its parents do, one comes to an edge
      whose new permissions do not agree with what the other parents of its node have so far. */
  ghost predicate Blocked(t: Topology, rank: seq<nat>, s: Edges, n: nat, cum: Perms)
    requires Topo(t, rank) && n < t.Nodes() && |s| == |t.bs|
    decreases rank[n]
  {
    t.Kids(n) != [] &&
    var e := t.Kids(n)[0];
    e in t.Kids(n) &&
    var want := t.PermFor(e, cum);
    !Fits(t, s, e, want) || Blocked(t, rank, s, t.bs[e], CumulativeWith(t, s, t.bs[e], e, want))
  }

  /** Permissions `cum` ask for more of node `n` than its parents do, or refuse more; or so do those derived
      from it along first children. */
  ghost predicate Tightens(t: Topology, rank: seq<nat>, s: Edges, n: nat, cum: Perms)
    requires Topo(t, rank) && n < t.Nodes() && |s| == |t.bs|
    decreases rank[n], 1
  {
    !Looser(cum, Cumulative(t, s, n)) || (Accepts(t, n, cum) && FirstTightens(t, rank, s, n, cum))
  }

  ghost predicate FirstTightens(t: Topology, rank: seq<nat>, s: Edges, n: nat, cum: Perms)
    requires Topo(t, rank) && n < t.Nodes() && |s| == |t.bs|
    decreases rank[n], 0
  {
    t.Kids(n) != [] &&
    var e := t.Kids(n)[0];
    e in t.Kids(n) &&
    var want := t.PermFor(e, cum);
    !Fits(t, s, e, want) || Tightens(t, rank, s, t.bs[e], CumulativeWith(t, s, t.bs[e], e, want))
  }

  lemma TightensHere(t: Topology, rank: seq<nat>, s: Edges, n: nat, cum: Perms, tighten: bool)
    requires Topo(t, rank) && n < t.Nodes() && |s| == |t.bs|
    requires tighten <==> cum.used - Cumulative(t, s, n).used != {} || Cumulative(t, s, n).shared - cum.shared != {}
    ensures Tightens(t, rank, s, n, cum) <==> tighten || (Accepts(t, n, cum) && FirstTightens(t, rank, s, n, cum))
    ensures t.Kids(n) == [] ==> !FirstTightens(t, rank, s, n, cum)
  {
    hide Cumulative;
    var current := Cumulative(t, s, n);
    NothingLeft(cum.used, current.used);
    NothingLeft(current.shared, cum.shared);
  }

  lemma NothingLeft(a: set<Perm>, b: set<Perm>)
    ensures a - b == {} <==> a <= b
  {
    if a - b == {} {
      forall p | p in a
        ensures p in b
      {
        assert p !in a - b;
      }
    }
  }

  lemma AimsSize(t: Topology, rank: seq<nat>, s: Edges, n: nat, g: Edges)
    requires Topo(t, rank) && n < t.Nodes()
    ensures Aims(t, rank, s, n, g) ==> |g| == |t.bs|
  {}

  lemma AimsSelf(t: Topology, rank: seq<nat>, s: Edges, n: nat, g: Edges)
    requires Topo(t, rank) && n < t.Nodes()
    ensures Aims(t, rank, s, n, g) ==> AllLooser(s, g)
  {}

  /** What is looser than an agreement agrees. */
  lemma AimFits(t: Topology, rank: seq<nat>, s: Edges, c: nat, want: Perms, g: Edges)
    requires Topo(t, rank) && |s| == |t.bs| && c < |s|
    ensures Aims(t, rank, s, t.bs[c], g) && Looser(want, g[c].cur) ==>
              Fits(t, s, c, want) && Looser(CumulativeWith(t, s, t.bs[c], c, want), Cumulative(t, g, t.bs[c]))
  {
    if Aims(t, rank, s, t.bs[c], g) && Looser(want, g[c].cur) {
      forall f | 0 <= f < |s| && f != c && t.bs[f] == t.bs[c]
        ensures Compatible(want, s[f].cur)
      {
        assert Compatible(g[c].cur, g[f].cur) && Looser(s[f].cur, g[f].cur);
      }
      TogetherLooser(s[c := s[c].(cur := want)], g, t.parents[t.bs[c]]);
    }
  }

  lemma TogetherLooser(s: Edges, g: Edges, es: seq<nat>)
    requires AllLooser(s, g)
    ensures Looser(Together(s, es), Together(g, es))
  {}

  lemma AimAccepts(t: Topology, rank: seq<nat>, s: Edges, n: nat, cum: Perms, g: Edges)
    requires Topo(t, rank) && n < t.Nodes()
    ensures Aims(t, rank, s, n, g) && Looser(cum, Cumulative(t, g, n)) ==> Accepts(t, n, cum) && AllLooser(s, g)
  {
    if Aims(t, rank, s, n, g) {
      AcceptsLooser(t, rank, g, n, cum);
    }
  }

  lemma AimKid(t: Topology, rank: seq<nat>, s0: Edges, s: Edges, n: nat, cum: Perms, e: nat, g: Edges)
    requires Topo(t, rank) && n < t.Nodes() && |s| == |s0| == |t.bs| && e in t.Kids(n) && e < |t.bs|
    ensures Aims(t, rank, s0, n, g) && Looser(cum, Cumulative(t, g, n)) && AllLooser(s, g) ==>
              Aims(t, rank, s, t.bs[e], g) && |g| == |t.bs| && Looser(t.PermFor(e, cum), g[e].cur)
  {
    if Aims(t, rank, s0, n, g) && Looser(cum, Cumulative(t, g, n)) {
      SolvedKid(t, rank, g, g, n, e);
      assert Looser(t.childPerm(e, cum), t.childPerm(e, Cumulative(t, g, n)));
    }
  }

  /** With monotone drivers, asking for more at edge `c` makes every edge below stricter. */
  lemma {:induction false} OutcomeIsStricter(t: Topology, rank: seq<nat>, s: Edges, s': Edges, c: nat, want: Perms,
                                             e: nat)
    requires Topo(t, rank) && |s| == |t.bs| && c < |s| && e < |s| && Monotone(t)
    requires SolvedFrom(t, rank, s, t.bs[c]) && Outcome(t, rank, s, c, want, s') && Looser(s[c].cur, want)
    ensures Looser(s[e].cur, s'[e].cur)
    decreases if Below(t, rank, t.bs[c], e) && rank[t.owner[e]] <= rank[t.bs[c]]
              then rank[t.bs[c]] - rank[t.owner[e]] + 1 else 0
  {
    if e != c && Below(t, rank, t.bs[c], e) {
      var x := t.owner[e];
      ReachRank(t, rank, t.bs[c], x);
      forall p | 0 <= p < |s| && t.bs[p] == x
        ensures Looser(s[p].cur, s'[p].cur)
      {
        if p != c && Below(t, rank, t.bs[c], p) {
          ReachRank(t, rank, t.bs[c], t.owner[p]);
          OutcomeIsStricter(t, rank, s, s', c, want, p);
        }
      }
      StricterAbove(t, rank, s, s', x);
      assert e in t.Kids(x);
      assert Solved(t, s, x) && Solved(t, s', x);
      assert Looser(t.childPerm(e, Cumulative(t, s, x)), t.childPerm(e, Cumulative(t, s', x)));
    }
  }

  lemma StricterAbove(t: Topology, rank: seq<nat>, s: Edges, s': Edges, x: nat)
    requires Topo(t, rank) && |s| == |s'| == |t.bs| && x < t.Nodes()
    requires forall p :: 0 <= p < |s| && t.bs[p] == x ==> Looser(s[p].cur, s'[p].cur)
    ensures Looser(Cumulative(t, s, x), Cumulative(t, s', x))
  {
    assert forall p: nat :: p in t.parents[x] ==> p < |s| && Looser(s[p].cur, s'[p].cur);
  }

  /** An outcome of asking for more is such a state. */
  lemma OutcomeAims(t: Topology, rank: seq<nat>, s: Edges, c: nat, want: Perms, s': Edges)
    requires Topo(t, rank) && |s| == |t.bs| && c < |s| && Monotone(t)
    requires SolvedFrom(t, rank, s, t.bs[c]) && Outcome(t, rank, s, c, want, s') && Looser(s[c].cur, want)
    ensures AimsAt(t, rank, s, c, want, s')
  {
    forall e | 0 <= e < |s|
      ensures Looser(s[e].cur, s'[e].cur)
    {
      OutcomeIsStricter(t, rank, s, s', c, want, e);
    }
  }

  lemma GoalAims(t: Topology, rank: seq<nat>, s: Edges, c: nat, want: Perms)
    requires Topo(t, rank) && |s| == |t.bs| && c < |s|
    ensures (exists g :: AimsAt(t, rank, s, c, want, g)) ==>
              var g := Goal(t, rank, s, c, want);
              Aims(t, rank, s, t.bs[c], g) && |g| == |s| && Looser(want, g[c].cur)
    ensures Monotone(t) && Looser(s[c].cur, want) && SolvedFrom(t, rank, s, t.bs[c]) ==>
              ((exists s' :: Outcome(t, rank, s, c, want, s')) ==> exists g :: AimsAt(t, rank, s, c, want, g))
  {
    if Monotone(t) && Looser(s[c].cur, want) && SolvedFrom(t, rank, s, t.bs[c]) {
      if s' :| Outcome(t, rank, s, c, want, s') {
        OutcomeAims(t, rank, s, c, want, s');
      }
    }
  }

  // ---------------------------------------------------------------- steps of the check

  /** The edges on the way down all point to nodes of rank at least `r`. */
  ghost predicate Above(t: Topology, rank: seq<nat>, ignore: seq<nat>, r: nat) {
    forall e: nat :: e in ignore ==> e < |t.bs| && t.bs[e] < |rank| && rank[t.bs[e]] >= r
  }

  /** Permissions `want` for edge `c` agree with all other parents of its node. */
  ghost predicate Fits(t: Topology, s: Edges, c: nat, want: Perms)
    requires |s| == |t.bs| && c < |s|
  {
    forall f :: 0 <= f < |s| && f != c && t.bs[f] == t.bs[c] ==> Compatible(want, s[f].cur)
  }

  ghost predicate Carries(t: Topology, rank: seq<nat>, s: Edges, e: nat, cum: Perms)
    requires Topo(t, rank)
  {
    e < |s| && e < |t.bs| && s[e].cur == t.PermFor(e, cum)
  }

  ghost predicate KidsCarry(t: Topology, rank: seq<nat>, s: Edges, n: nat, cum: Perms)
    requires Topo(t, rank) && n < t.Nodes()
  {
    Accepts(t, n, cum) && forall e: nat :: e in t.Kids(n) ==> Carries(t, rank, s, e, cum)
  }

  lemma TogetherOne(s: Edges, c: nat)
    requires c < |s|
    ensures Together(s, [c]) == s[c].cur
  {
    TogetherStep(s, [], c);
    AllPerms(s[c].cur.shared);
    assert [] + [c] == [c];
  }

  /** Of the parents of a node, only the edge being updated is on the way down: any other would
      make a cycle. */
  lemma OnlySelfIgnored(t: Topology, rank: seq<nat>, ignore: seq<nat>, c: nat, f: nat)
    requires Topo(t, rank) && c < |t.bs| && f in t.parents[t.bs[c]]
    requires |ignore| > 0 && ignore[|ignore| - 1] == c && Above(t, rank, ignore[..|ignore| - 1], rank[t.bs[c]] + 1)
    ensures f in ignore <==> f == c
  {
    assert ignore == ignore[..|ignore| - 1] + [c];
  }

  lemma CumulativeShares(t: Topology, rank: seq<nat>, s: Edges, c: nat, want: Perms)
    requires Topo(t, rank) && AllCompatible(t, s) && c < |s| && WriteUnchanged in want.shared
    ensures WriteUnchanged in CumulativeWith(t, s, t.bs[c], c, want).shared
  {}

  lemma FitsAll(t: Topology, rank: seq<nat>, s: Edges, c: nat, want: Perms)
    requires Topo(t, rank) && |s| == |t.bs| && c < |s|
    requires forall j :: 0 <= j < |t.parents[t.bs[c]]| && t.parents[t.bs[c]][j] != c ==>
               t.parents[t.bs[c]][j] < |s| && Compatible(want, s[t.parents[t.bs[c]][j]].cur)
    ensures Fits(t, s, c, want)
  {
    forall f | 0 <= f < |s| && f != c && t.bs[f] == t.bs[c]
      ensures Compatible(want, s[f].cur)
    {
      assert f in t.parents[t.bs[c]];
      var j :| 0 <= j < |t.parents[t.bs[c]]| && t.parents[t.bs[c]][j] == f;
    }
  }

  /** Where all parents agree, asking for less always fits. */
  lemma StillFits(t: Topology, s: Edges, c: nat, want: Perms)
    requires AllCompatible(t, s) && c < |s|
    ensures Looser(want, s[c].cur) ==> Fits(t, s, c, want)
  {
    if Looser(want, s[c].cur) {
      forall f | 0 <= f < |s| && f != c && t.bs[f] == t.bs[c]
        ensures Compatible(want, s[f].cur)
      {
        assert Compatible(s[c].cur, s[f].cur);
      }
    }
  }

  /** The first `i` children of `n` carry what `cum` gives them, down to the leaves. */
  ghost predicate KidsDone(t: Topology, rank: seq<nat>, s: Edges, n: nat, cum: Perms, i: nat)
    requires Topo(t, rank) && n < t.Nodes() && |s| == |t.bs|
  {
    i <= |t.children[n]| &&
    forall j :: 0 <= j < i ==>
      && Carries(t, rank, s, t.children[n][j], cum)
      && SolvedFrom(t, rank, s, t.bs[t.children[n][j]])
  }

  /** Each child of `n` carries its old permissions or the new ones; if all was derived before, all
      below is derived still. */
  ghost predicate KidsLoose(t: Topology, rank: seq<nat>, s0: Edges, s: Edges, n: nat, cum: Perms)
    requires Topo(t, rank) && n < t.Nodes() && |s| == |s0| == |t.bs|
  {
    && (forall e: nat :: e in t.Kids(n) ==> e < |s| && (s[e].cur == s0[e].cur || Carries(t, rank, s, e, cum)))
    && (SolvedFrom(t, rank, s0, n) ==> SolvedBelow(t, rank, s, n))
  }

  /** On a tree, the first `i` children grant what `cum` derives for them. */
  ghost predicate GrantsFirst(t: Topology, rank: seq<nat>, n: nat, cum: Perms, i: nat)
    requires Topo(t, rank) && n < t.Nodes()
  {
    Tree(t, rank, n) ==>
      forall j :: 0 <= j < i && j < |t.children[n]| && t.children[n][j] < |t.bs| ==>
        Grants(t, rank, t.bs[t.children[n][j]], t.PermFor(t.children[n][j], cum))
  }

  /** On a tree, a child edge is its node's only parent: what it asks for always fits and is all
      that the node has to grant. */
  lemma TreeKid(t: Topology, rank: seq<nat>, s: Edges, n: nat, cum: Perms, e: nat, ok: bool)
    requires Topo(t, rank) && n < t.Nodes() && |s| == |t.bs| && e in t.Kids(n) && e < |t.bs|
    requires Tree(t, rank, t.bs[e]) ==>
               (ok <==> Fits(t, s, e, t.PermFor(e, cum)) &&
                        Grants(t, rank, t.bs[e], CumulativeWith(t, s, t.bs[e], e, t.PermFor(e, cum))))
    ensures Tree(t, rank, n) ==> (ok <==> Grants(t, rank, t.bs[e], t.PermFor(e, cum)))
    ensures Tree(t, rank, n) && !ok ==> !Grants(t, rank, n, cum)
  {
    if Tree(t, rank, n) {
      var m, want := t.bs[e], t.PermFor(e, cum);
      assert Reach(t, rank, m, m);
      assert Reach(t, rank, n, m);
      forall p, q | 0 <= p < |t.bs| && 0 <= q < |t.bs| && t.bs[p] == t.bs[q] != m && Reach(t, rank, m, t.bs[p])
        ensures p == q
      {
        ReachRank(t, rank, m, t.bs[p]);
        assert Reach(t, rank, n, t.bs[p]);
      }
      OnlyParent(t, rank, s, e, want);
    }
  }

  lemma OnlyParent(t: Topology, rank: seq<nat>, s: Edges, e: nat, want: Perms)
    requires Topo(t, rank) && |s| == |t.bs| && e < |t.bs|
    requires forall p :: 0 <= p < |t.bs| && t.bs[p] == t.bs[e] ==> p == e
    ensures Fits(t, s, e, want) && CumulativeWith(t, s, t.bs[e], e, want) == want
  {
    var s' := s[e := s[e].(cur := want)];
    TogetherSame(s', t.parents[t.bs[e]], [e]);
    TogetherOne(s', e);
  }

  lemma StartKids(t: Topology, rank: seq<nat>, s: Edges, n: nat, cum: Perms)
    requires Topo(t, rank) && n < t.Nodes() && |s| == |t.bs|
    ensures KidsDone(t, rank, s, n, cum, 0) && KidsLoose(t, rank, s, s, n, cum) && OnlyBelow(t, rank, s, s, n, -1)
    ensures GrantsFirst(t, rank, n, cum, 0)
  {}

  lemma AboveKid(t: Topology, rank: seq<nat>, ignore: seq<nat>, n: nat, e: nat)
    requires Topo(t, rank) && n < t.Nodes() && e in t.Kids(n) && Above(t, rank, ignore, rank[n])
    ensures e < |t.bs| && rank[t.bs[e]] < rank[n] && Above(t, rank, ignore, rank[t.bs[e]] + 1)
  {}

  /** What looser permissions above give a child is looser too. */
  lemma KidLooser(t: Topology, rank: seq<nat>, s0: Edges, s: Edges, n: nat, cum: Perms, e: nat)
    requires Topo(t, rank) && n < t.Nodes() && |s| == |s0| == |t.bs| && e in t.Kids(n) && e < |t.bs|
    requires KidsLoose(t, rank, s0, s, n, cum)
    ensures Monotone(t) && Looser(cum, Cumulative(t, s0, n)) && SolvedFrom(t, rank, s0, n) ==>
              Looser(t.PermFor(e, cum), s[e].cur) && SolvedFrom(t, rank, s, t.bs[e])
  {
    if Monotone(t) && Looser(cum, Cumulative(t, s0, n)) && SolvedFrom(t, rank, s0, n) {
      assert Reach(t, rank, n, n);
      assert Solved(t, s0, n);
      assert s0[e].cur == t.PermFor(e, Cumulative(t, s0, n));
      assert Looser(t.childPerm(e, cum), t.childPerm(e, Cumulative(t, s0, n)));
      forall y | 0 <= y < t.Nodes() && Reach(t, rank, t.bs[e], y)
        ensures Solved(t, s, y)
      {
        ReachRank(t, rank, t.bs[e], y);
        assert Reach(t, rank, n, y);
      }
    }
  }

  lemma OnlyBelowKid(t: Topology, rank: seq<nat>, s0: Edges, s1: Edges, s2: Edges, n: nat, e: nat)
    requires Topo(t, rank) && n < t.Nodes() && e in t.Kids(n) && e < |t.bs|
    requires OnlyBelow(t, rank, s0, s1, n, -1) && OnlyBelow(t, rank, s1, s2, t.bs[e], e)
    ensures OnlyBelow(t, rank, s0, s2, n, -1)
  {
    forall f | 0 <= f < |s0| && !Below(t, rank, n, f)
      ensures s2[f] == s0[f]
    {
      if Below(t, rank, t.bs[e], f) {
        BelowKid(t, rank, n, e, f);
      }
      KidIsBelow(t, rank, n, e);
    }
  }

  /** Updating one child below `n` keeps what was derived under its siblings. */
  lemma SolvedAfter(t: Topology, rank: seq<nat>, s: Edges, s': Edges, n: nat, e: nat, y: nat)
    requires Topo(t, rank) && |s| == |s'| == |t.bs| && n < t.Nodes() && e in t.Kids(n) && e < |t.bs| && y < t.Nodes()
    requires OnlyBelow(t, rank, s, s', t.bs[e], e) && SolvedFrom(t, rank, s', t.bs[e])
    requires y != n && Solved(t, s, y)
    ensures Solved(t, s', y)
  {
    if !Reach(t, rank, t.bs[e], y) {
      SolvedKept(t, rank, s, s', e, y);
    }
  }

  lemma AfterKid(t: Topology, rank: seq<nat>, s0: Edges, s: Edges, s': Edges, n: nat, cum: Perms, i: nat)
    requires Topo(t, rank) && |s0| == |s| == |s'| == |t.bs| && n < t.Nodes() && t.drv[n] && i < |t.children[n]|
    requires KidsDone(t, rank, s, n, cum, i) && KidsLoose(t, rank, s0, s, n, cum)
    requires var e := t.children[n][i];
             e in t.children[n] && OnlyBelow(t, rank, s, s', t.bs[e], e) && SolvedFrom(t, rank, s', t.bs[e]) &&
             s'[e].cur == t.PermFor(e, cum)
    ensures KidsDone(t, rank, s', n, cum, i + 1) && KidsLoose(t, rank, s0, s', n, cum)
  {
    var kids := t.children[n];
    var e := kids[i];
    forall f: nat | f in t.Kids(n) && f != e
      ensures s'[f] == s[f]
    {
      ParentNotBelowKid(t, rank, n, e, f);
    }
    forall j | 0 <= j < i + 1
      ensures Carries(t, rank, s', kids[j], cum) && SolvedFrom(t, rank, s', t.bs[kids[j]])
    {
      if j < i {
        assert kids[j] in t.Kids(n);
        forall y | 0 <= y < t.Nodes() && Reach(t, rank, t.bs[kids[j]], y)
          ensures Solved(t, s', y)
        {
          ReachRank(t, rank, t.bs[kids[j]], y);
          SolvedAfter(t, rank, s, s', n, e, y);
        }
      }
    }
    if SolvedFrom(t, rank, s0, n) {
      forall y | 0 <= y < t.Nodes() && y != n && Reach(t, rank, n, y)
        ensures Solved(t, s', y)
      {
        SolvedAfter(t, rank, s, s', n, e, y);
      }
    }
  }

  /** A child edge of `n` does not hang below another child of `n`. */
  lemma ParentNotBelowKid(t: Topology, rank: seq<nat>, n: nat, e: nat, f: nat)
    requires Topo(t, rank) && n < t.Nodes() && e in t.Kids(n) && f in t.Kids(n) && e < |t.bs| && f < |t.bs|
    ensures !Below(t, rank, t.bs[e], f)
  {
    if Below(t, rank, t.bs[e], f) {
      ReachRank(t, rank, t.bs[e], n);
    }
  }

  lemma EndKids(t: Topology, rank: seq<nat>, s: Edges, n: nat, cum: Perms)
    requires Topo(t, rank) && n < t.Nodes() && |s| == |t.bs| && t.drv[n]
    requires KidsDone(t, rank, s, n, cum, |t.children[n]|) && GrantsFirst(t, rank, n, cum, |t.children[n]|)
    requires Accepts(t, n, cum)
    ensures KidsCarry(t, rank, s, n, cum) && SolvedBelow(t, rank, s, n)
    ensures Tree(t, rank, n) ==> Grants(t, rank, n, cum)
  {
    if Tree(t, rank, n) {
      forall e: nat | e in t.Kids(n) && e < |t.bs|
        ensures Grants(t, rank, t.bs[e], t.PermFor(e, cum))
      {
        var j :| 0 <= j < |t.children[n]| && t.children[n][j] == e;
      }
    }
    forall e: nat | e in t.Kids(n)
      ensures Carries(t, rank, s, e, cum) && SolvedFrom(t, rank, s, t.bs[e])
    {
      var j :| 0 <= j < |t.children[n]| && t.children[n][j] == e;
    }
    forall y | 0 <= y < t.Nodes() && y != n && Reach(t, rank, n, y)
      ensures Solved(t, s, y)
    {
      var e: nat :| e in t.Kids(n) && e < |t.bs| && Reach(t, rank, t.bs[e], y);
    }
  }

  lemma CumulativeLooser(t: Topology, rank: seq<nat>, s: Edges, c: nat, want: Perms)
    requires Topo(t, rank) && |s| == |t.bs| && c < |s|
    ensures Looser(want, s[c].cur) ==> Looser(CumulativeWith(t, s, t.bs[c], c, want), Cumulative(t, s, t.bs[c]))
  {}

  lemma AcceptsLooser(t: Topology, rank: seq<nat>, s: Edges, n: nat, cum: Perms)
    requires Topo(t, rank) && |s| == |t.bs| && n < t.Nodes()
    ensures Monotone(t) && Looser(cum, Cumulative(t, s, n)) && SolvedFrom(t, rank, s, n) ==> Accepts(t, n, cum)
  {
    if Monotone(t) && Looser(cum, Cumulative(t, s, n)) && SolvedFrom(t, rank, s, n) {
      assert Reach(t, rank, n, n);
      assert Solved(t, s, n);
    }
  }

  lemma LeafSolved(t: Topology, rank: seq<nat>, s: Edges, n: nat, cum: Perms)
    requires Topo(t, rank) && |s| == |t.bs| && n < t.Nodes() && t.Kids(n) == [] && Accepts(t, n, cum)
    ensures KidsCarry(t, rank, s, n, cum) && SolvedBelow(t, rank, s, n)
  {}

  lemma SetCompatible(t: Topology, rank: seq<nat>, s0: Edges, s1: Edges, s2: Edges, c: nat, want: Perms)
    requires Topo(t, rank) && |s0| == |s1| == |s2| == |t.bs| && c < |s0|
    requires AllCompatible(t, s1) && Fits(t, s0, c, want) && WriteUnchanged in want.shared
    requires OnlyBelow(t, rank, s0, s1, t.bs[c], -1)
    requires s2 == s1[c := s2[c]] && s2[c].cur == want
    ensures AllCompatible(t, s2)
  {
    forall f | 0 <= f < |s0| && f != c && t.bs[f] == t.bs[c]
      ensures Compatible(want, s2[f].cur)
    {
      ParentNotBelow(t, rank, t.bs[c], f);
    }
  }

  /** An edge to a node does not hang below that node. */
  lemma ParentNotBelow(t: Topology, rank: seq<nat>, n: nat, f: nat)
    requires Topo(t, rank) && f < |t.bs| && n < t.Nodes() && rank[t.bs[f]] >= rank[n]
    ensures !Below(t, rank, n, f)
  {
    if Below(t, rank, n, f) {
      ReachRank(t, rank, n, t.owner[f]);
    }
  }

  lemma SetSolved(t: Topology, rank: seq<nat>, s0: Edges, s1: Edges, s2: Edges, c: nat, want: Perms)
    requires Topo(t, rank) && |s0| == |s1| == |s2| == |t.bs| && c < |s0|
    requires OnlyBelow(t, rank, s0, s1, t.bs[c], -1)
    requires KidsCarry(t, rank, s1, t.bs[c], CumulativeWith(t, s0, t.bs[c], c, want))
    requires SolvedBelow(t, rank, s1, t.bs[c])
    requires s2 == s1[c := s2[c]] && s2[c].cur == want
    ensures SolvedFrom(t, rank, s2, t.bs[c])
  {
    var n := t.bs[c];
    var s' := s0[c := s0[c].(cur := want)];
    forall f | 0 <= f < |s0| && t.bs[f] == n
      ensures s2[f].cur == s'[f].cur
    {
      ParentNotBelow(t, rank, n, f);
    }
    SameCumulative(t, rank, s', s2, n);
    forall y | 0 <= y < t.Nodes() && Reach(t, rank, n, y)
      ensures Solved(t, s2, y)
    {
      ReachRank(t, rank, n, y);
      if y != n {
        SameCumulative(t, rank, s1, s2, y);
        assert Solved(t, s1, y);
      }
      forall e: nat | e in t.Kids(y)
        ensures e != c
      {}
    }
  }

  lemma {:induction false} ReachStep(t: Topology, rank: seq<nat>, n: nat, y: nat, e: nat)
    requires Topo(t, rank) && n < t.Nodes() && Reach(t, rank, n, y) && y < t.Nodes() && e in t.Kids(y) && e < |t.bs|
    ensures Reach(t, rank, n, t.bs[e])
    decreases rank[n]
  {
    if y == n {
      assert Reach(t, rank, t.bs[e], t.bs[e]);
    } else {
      var f: nat :| f in t.Kids(n) && f < |t.bs| && Reach(t, rank, t.bs[f], y);
      ReachStep(t, rank, t.bs[f], y, e);
    }
  }

  /** A node that is neither updated nor below the update stays as it was. */
  lemma SolvedKept(t: Topology, rank: seq<nat>, s: Edges, s': Edges, c: nat, y: nat)
    requires Topo(t, rank) && |s| == |s'| == |t.bs| && c < |s| && y < t.Nodes()
    requires OnlyBelow(t, rank, s, s', t.bs[c], c)
    requires t.owner[c] != y && !Reach(t, rank, t.bs[c], y) && Solved(t, s, y)
    ensures Solved(t, s', y)
  {
    forall p | 0 <= p < |s| && t.bs[p] == y
      ensures s'[p] == s[p]
    {
      if Below(t, rank, t.bs[c], p) {
        ReachStep(t, rank, t.bs[c], t.owner[p], p);
      }
      assert Reach(t, rank, t.bs[c], t.bs[c]);
    }
    SameCumulative(t, rank, s, s', y);
    forall e: nat | e in t.Kids(y)
      ensures s'[e] == s[e]
    {}
  }

  // ---------------------------------------------------------------- abort and commit

  /** An edge after bdrv_child_abort_perm_update, and after bdrv_child_set_perm. */
  function Undo(e: Edge): Edge {
    if e.backup.Some? then Edge(e.backup.value, None) else e
  }

  function Commit(e: Edge): Edge {
    e.(backup := None)
  }

  /** `f` was applied to edge `c` and everything below `n`. */
  ghost predicate Swept(t: Topology, rank: seq<nat>, s: Edges, s': Edges, n: nat, c: int, f: Edge -> Edge)
    requires Topo(t, rank) && n < t.Nodes()
  {
    |s'| == |s| && forall e :: 0 <= e < |s| ==> s'[e] == if e == c || Below(t, rank, n, e) then f(s[e]) else s[e]
  }

  ghost predicate UnderFirst(t: Topology, rank: seq<nat>, n: nat, i: nat, e: nat)
    requires Topo(t, rank) && n < t.Nodes()
  {
    exists j :: 0 <= j < i && j < |t.children[n]| && UnderEdge(t, rank, t.children[n][j], e)
  }

  ghost predicate UnderEdge(t: Topology, rank: seq<nat>, c: nat, e: nat)
    requires Topo(t, rank)
  {
    c < |t.bs| && (e == c || Below(t, rank, t.bs[c], e))
  }

  /** `f` was applied to the first `i` children of `n` and everything below them. */
  ghost predicate SweptSoFar(t: Topology, rank: seq<nat>, s: Edges, s': Edges, n: nat, i: nat, f: Edge -> Edge)
    requires Topo(t, rank) && n < t.Nodes()
  {
    |s'| == |s| && forall e :: 0 <= e < |s| ==> s'[e] == if UnderFirst(t, rank, n, i, e) then f(s[e]) else s[e]
  }

  ghost predicate Idempotent(f: Edge -> Edge) {
    forall e: Edge :: f(f(e)) == f(e)
  }

  lemma SweptOne(t: Topology, rank: seq<nat>, s0: Edges, s1: Edges, s2: Edges, c: nat, f: Edge -> Edge)
    requires Topo(t, rank) && |s0| == |t.bs| && c < |s0| && s1 == s0[c := f(s0[c])]
    requires Swept(t, rank, s1, s2, t.bs[c], -1, f)
    ensures Swept(t, rank, s0, s2, t.bs[c], c, f)
  {
    ParentNotBelow(t, rank, t.bs[c], c);
  }

  lemma NothingBelow(t: Topology, rank: seq<nat>, n: nat)
    requires Topo(t, rank) && n < t.Nodes() && !t.drv[n]
    ensures forall e: nat :: !Below(t, rank, n, e)
  {}

  lemma SweptMore(t: Topology, rank: seq<nat>, s0: Edges, s1: Edges, s2: Edges, n: nat, i: nat, f: Edge -> Edge)
    requires Topo(t, rank) && n < t.Nodes() && i < |t.children[n]| && |s0| == |t.bs| && t.children[n][i] < |t.bs|
    requires SweptSoFar(t, rank, s0, s1, n, i, f) && Swept(t, rank, s1, s2, t.bs[t.children[n][i]], t.children[n][i], f)
    requires Idempotent(f)
    ensures SweptSoFar(t, rank, s0, s2, n, i + 1, f)
  {
    var c := t.children[n][i];
    forall e | 0 <= e < |s0|
      ensures s2[e] == if UnderFirst(t, rank, n, i + 1, e) then f(s0[e]) else s0[e]
    {
      assert UnderFirst(t, rank, n, i + 1, e) <==> UnderFirst(t, rank, n, i, e) || UnderEdge(t, rank, c, e);
    }
  }

  lemma SweptAll(t: Topology, rank: seq<nat>, s0: Edges, s1: Edges, n: nat, f: Edge -> Edge)
    requires Topo(t, rank) && n < t.Nodes() && t.drv[n] && |s0| == |t.bs|
    requires SweptSoFar(t, rank, s0, s1, n, |t.children[n]|, f)
    ensures Swept(t, rank, s0, s1, n, -1, f)
  {
    var kids := t.children[n];
    forall e | 0 <= e < |s0|
      ensures UnderFirst(t, rank, n, |kids|, e) <==> Below(t, rank, n, e)
    {
      if UnderFirst(t, rank, n, |kids|, e) {
        var j :| 0 <= j < |kids| && UnderEdge(t, rank, kids[j], e);
        assert kids[j] in t.Kids(n);
        if e != kids[j] {
          BelowKid(t, rank, n, kids[j], e);
        } else {
          KidIsBelow(t, rank, n, e);
        }
      }
      if Below(t, rank, n, e) {
        BelowIsUnder(t, rank, n, e);
      }
    }
  }

  lemma BelowIsUnder(t: Topology, rank: seq<nat>, n: nat, e: nat)
    requires Topo(t, rank) && n < t.Nodes() && t.drv[n] && Below(t, rank, n, e)
    ensures UnderFirst(t, rank, n, |t.children[n]|, e)
  {
    var c := e;
    if t.owner[e] != n {
      var k: nat :| k in t.Kids(n) && k < |t.bs| && Reach(t, rank, t.bs[k], t.owner[e]);
      c := k;
    }
    assert c in t.children[n];
    var j :| 0 <= j < |t.children[n]| && t.children[n][j] == c;
    assert UnderEdge(t, rank, t.children[n][j], e);
  }

  lemma SameCurSolved(t: Topology, rank: seq<nat>, s: Edges, s': Edges, n: nat)
    requires Topo(t, rank) && n < t.Nodes() && |s| == |s'| == |t.bs|
    requires forall e :: 0 <= e < |s| ==> s'[e].cur == s[e].cur
    requires SolvedFrom(t, rank, s, n)
    ensures SolvedFrom(t, rank, s', n)
  {
    forall y | 0 <= y < t.Nodes() && Reach(t, rank, n, y)
      ensures Solved(t, s', y)
    {
      SameCumulative(t, rank, s, s', y);
      assert Solved(t, s, y);
    }
  }

  lemma SolvedKid(t: Topology, rank: seq<nat>, s0: Edges, s: Edges, n: nat, e: nat)
    requires Topo(t, rank) && n < t.Nodes() && |s| == |s0| == |t.bs| && e in t.Kids(n) && e < |t.bs|
    requires forall f :: 0 <= f < |s| ==> s[f].cur == s0[f].cur
    requires SolvedFrom(t, rank, s0, n)
    ensures s[e].cur == t.PermFor(e, Cumulative(t, s0, n)) && SolvedFrom(t, rank, s, t.bs[e])
  {
    assert Reach(t, rank, n, n);
    assert Solved(t, s0, n);
    forall y | 0 <= y < t.Nodes() && Reach(t, rank, t.bs[e], y)
      ensures Solved(t, s0, y)
    {
      assert Reach(t, rank, n, y);
    }
    SameCurSolved(t, rank, s0, s, t.bs[e]);
  }

  /** After a failed check, the abort gives every edge back what it had. */
  lemma AbortRestores(t: Topology, rank: seq<nat>, s0: Edges, s1: Edges, s2: Edges, c: nat)
    requires Topo(t, rank) && |s0| == |t.bs| && c < |s0| && Settled(s0)
    requires Backed(s0, s1) && OnlyBelow(t, rank, s0, s1, t.bs[c], c) && Swept(t, rank, s1, s2, t.bs[c], c, Undo)
    ensures s2 == s0
  {
    forall e | 0 <= e < |s0|
      ensures s2[e] == s0[e]
    {}
  }

  lemma CommitKeeps(t: Topology, rank: seq<nat>, s0: Edges, s1: Edges, s2: Edges, c: nat)
    requires Topo(t, rank) && |s0| == |t.bs| && c < |s0| && Settled(s0) && AllCompatible(t, s1)
    requires OnlyBelow(t, rank, s0, s1, t.bs[c], c) && Swept(t, rank, s1, s2, t.bs[c], c, Commit)
    requires SolvedFrom(t, rank, s1, t.bs[c])
    ensures Settled(s2) && AllCompatible(t, s2) && s2[c].cur == s1[c].cur
    ensures SolvedFrom(t, rank, s2, t.bs[c]) && OnlyBelow(t, rank, s0, s2, t.bs[c], c)
  {
    assert forall e :: 0 <= e < |s1| ==> s2[e].cur == s1[e].cur;
    SameCurSolved(t, rank, s1, s2, t.bs[c]);
  }

  // ---------------------------------------------------------------- there is only one outcome

  /** Two outcomes of the same request agree on every edge: outside the part below `c` nothing
      changes, and inside the drivers leave no choice. */
  lemma {:induction false} OutcomeIsUnique(t: Topology, rank: seq<nat>, s: Edges, s': Edges, c: nat, e: nat)
    requires Topo(t, rank) && |s| == |s'| == |t.bs| && c < |s| && e < |s|
    requires SolvedFrom(t, rank, s, t.bs[c]) && SolvedFrom(t, rank, s', t.bs[c])
    requires forall f :: 0 <= f < |s| && (f == c || !Below(t, rank, t.bs[c], f)) ==> s'[f].cur == s[f].cur
    ensures s'[e].cur == s[e].cur
    decreases if Below(t, rank, t.bs[c], e) && rank[t.owner[e]] <= rank[t.bs[c]]
              then rank[t.bs[c]] - rank[t.owner[e]] + 1 else 0
  {
    if e != c && Below(t, rank, t.bs[c], e) {
      var x := t.owner[e];
      ReachRank(t, rank, t.bs[c], x);
      forall p | 0 <= p < |s| && t.bs[p] == x
        ensures s'[p].cur == s[p].cur
      {
        if p != c && Below(t, rank, t.bs[c], p) {
          ReachRank(t, rank, t.bs[c], t.owner[p]);
          OutcomeIsUnique(t, rank, s, s', c, p);
        }
      }
      SameCumulative(t, rank, s, s', x);
      assert e in t.Kids(x);
      assert Solved(t, s, x) && Solved(t, s', x);
    }
  }

  // ---------------------------------------------------------------- the default drivers

  const PASSTHROUGH: set<Perm> := {ConsistentRead, Write, WriteUnchanged, Resize}

  /** bdrv_filter_default_perms */
  function FilterPerms(p: Perms): Perms {
    Perms(p.used * PASSTHROUGH, p.shared * PASSTHROUGH + (ALL - PASSTHROUGH))
  }

  /** bdrv_format_default_perms: for the backing child or the file child, of a node that is writable
      or not, opened without I/O or not, inactive or not */
  function FormatPerms(backing: bool, writable: bool, noIo: bool, inactive: bool, p: Perms): Perms {
    var q :=
      if !backing then
        var f := FilterPerms(p);
        Perms(f.used + (if writable then {Write, Resize} else {}) + (if noIo then {} else {ConsistentRead}),
              f.shared - {Write, Resize})
      else
        Perms(p.used * {ConsistentRead},
              (if Write in p.shared then {Write, Resize} else {}) + {ConsistentRead, GraphMod, WriteUnchanged});
    Perms(q.used, q.shared + if inactive then {Write, Resize} else {})
  }

  /** The default drivers meet what is asked of drivers: they never ask for more when their parents
      ask for less, and they share WRITE_UNCHANGED whenever their parents do. */
  lemma DefaultsAreMonotone(backing: bool, writable: bool, noIo: bool, inactive: bool, p: Perms, q: Perms)
    ensures Looser(p, q) ==> Looser(FilterPerms(p), FilterPerms(q))
    ensures Looser(p, q) ==>
              Looser(FormatPerms(backing, writable, noIo, inactive, p),
                     FormatPerms(backing, writable, noIo, inactive, q))
    ensures WriteUnchanged in p.shared ==>
              WriteUnchanged in FilterPerms(p).shared &&
              WriteUnchanged in FormatPerms(backing, writable, noIo, inactive, p).shared
  {
    if Looser(p, q) {
      assert Looser(FilterPerms(p), FilterPerms(q));
    }
  }

  /** What the default drivers protect.  A filter hands on what its parents do.  A format driver only reads its
      backing file; it writes to and resizes its own file if it is writable, reads it unless opened without I/O,
      and lets nobody else write to it or resize it unless it is inactive.  It lets others write to the backing
      file exactly if its parents let others write, or it is inactive. */
  lemma DefaultsProtect(writable: bool, noIo: bool, inactive: bool, p: Perms)
    ensures FilterPerms(p).used == p.used - {GraphMod} && FilterPerms(p).shared == p.shared + {GraphMod}
    ensures var q := FormatPerms(true, writable, noIo, inactive, p);
            && q.used == p.used * {ConsistentRead}
            && {ConsistentRead, GraphMod, WriteUnchanged} <= q.shared
            && (Write in q.shared <==> Write in p.shared || inactive) && (Resize in q.shared <==> Write in q.shared)
    ensures var q := FormatPerms(false, writable, noIo, inactive, p);
            && (writable ==> {Write, Resize} <= q.used) && (!noIo ==> ConsistentRead in q.used)
            && p.used - {GraphMod} <= q.used <= p.used + {Write, Resize, ConsistentRead}
            && (!writable ==> q.used <= p.used + {ConsistentRead}) && (noIo ==> q.used <= p.used + {Write, Resize})
            && (Write in q.shared <==> inactive) && (Resize in q.shared <==> inactive)
            && q.shared - {Write, Resize} == p.shared + {GraphMod} - {Write, Resize}
  {
    AllPerms(p.used);
    AllPerms(p.shared);
  }

  /** Edges to a node that is opened with force-share never stand in each other's way. */
  lemma ForceShareAgrees(t: Topology, e: nat, f: nat, p: Perms, q: Perms)
    requires e < |t.bs| && f < |t.bs| && t.bs[e] == t.bs[f] < |t.forceShare| && t.forceShare[t.bs[e]]
    ensures Compatible(t.PermFor(e, p), t.PermFor(f, q)) && t.PermFor(e, p).used == t.childPerm(e, p).used
  {
    AllPerms(t.PermFor(e, p).used);
    AllPerms(t.PermFor(f, q).used);
  }

  // ---------------------------------------------------------------- a change that is refused in between

  /** A blkverify node 0 over two filters, nodes 1 and 2, that are both over node 3. */
  function Diamond(): Topology {
    Topology([0, 1, 2, 3, 3], [-1, 0, 0, 1, 2], [[1, 2], [3], [4], []], [[0], [1], [2], [3, 4]],
             [true, true, true, true], [false, false, false, false], [true, true, true, true],
             [false, false, false, false],
             (n: nat, p: Perms) => true, (e: nat, p: Perms) => FilterPerms(p))
  }

  ghost predicate Uniform(s: Edges, p: Perms) {
    |s| == 5 && forall e :: 0 <= e < |s| ==> s[e] == Edge(p, None)
  }

  const DIAMOND_RANK: seq<nat> := [2, 1, 1, 0]

  lemma DiamondEdges(t: Topology)
    requires t == Diamond()
    ensures forall e :: 0 <= e < 5 ==> t.bs[e] < 4 && -1 <= t.owner[e] < 4
    ensures forall e :: 0 <= e < 5 && t.owner[e] >= 0 ==>
              DIAMOND_RANK[t.bs[e]] < DIAMOND_RANK[t.owner[e]] && e in t.children[t.owner[e]]
    ensures forall e :: 0 <= e < 5 ==> e in t.parents[t.bs[e]]
  {
    forall e: nat | e < 5
      ensures e in t.parents[t.bs[e]] && (t.owner[e] >= 0 ==> e in t.children[t.owner[e]])
    {
      assert e == 0 || e == 1 || e == 2 || e == 3 || e == 4;
    }
  }

  lemma DiamondNodes(t: Topology)
    requires t == Diamond()
    ensures forall n: nat, e: nat {:trigger e in t.children[n]} :: n < 4 && e in t.children[n] ==>
              e < 5 && t.owner[e] == n
    ensures forall n: nat, e: nat {:trigger e in t.parents[n]} :: n < 4 && e in t.parents[n] ==> e < 5 && t.bs[e] == n
  {}

  lemma DiamondIsTopo()
    ensures Topo(Diamond(), DIAMOND_RANK)
  {
    var t := Diamond();
    DiamondEdges(t);
    DiamondNodes(t);
    assert |t.bs| == |t.owner| == 5 && |t.children| == 4;
    assert forall n :: 0 <= n < 4 ==> !t.hasHook[n];
    assert forall e: nat, p: Perms :: t.childPerm(e, p) == FilterPerms(p);
    TopoOf(t, DIAMOND_RANK);
  }

  lemma TopoOf(t: Topology, rank: seq<nat>)
    requires |t.parents| == |t.drv| == |t.forceShare| == |t.writable| == |t.hasHook| == |rank| == t.Nodes()
    requires |t.owner| == |t.bs|
    requires forall e :: 0 <= e < |t.bs| ==> t.bs[e] < t.Nodes() && -1 <= t.owner[e] < t.Nodes()
    requires forall e :: 0 <= e < |t.bs| && t.owner[e] >= 0 ==>
               rank[t.bs[e]] < rank[t.owner[e]] && e in t.children[t.owner[e]]
    requires forall e :: 0 <= e < |t.bs| ==> e in t.parents[t.bs[e]]
    requires forall n: nat, e: nat {:trigger e in t.children[n]} :: n < t.Nodes() && e in t.children[n] ==>
               e < |t.bs| && t.owner[e] == n
    requires forall n: nat, e: nat {:trigger e in t.parents[n]} :: n < t.Nodes() && e in t.parents[n] ==>
               e < |t.bs| && t.bs[e] == n
    requires forall e: nat, p: Perms :: t.childPerm(e, p) == FilterPerms(p)
    requires forall n :: 0 <= n < t.Nodes() ==> !t.hasHook[n]
    ensures Topo(t, rank)
  {}

  /** Where every edge carries what every driver hands on unchanged, all is derived. */
  lemma UniformSolved(t: Topology, rank: seq<nat>, s: Edges, p: Perms, n: nat)
    requires Topo(t, rank) && |s| == |t.bs| && n < t.Nodes() && WriteUnchanged in p.shared && p.used <= p.shared
    requires forall e :: 0 <= e < |s| ==> s[e] == Edge(p, None) && t.PermFor(e, p) == p
    requires forall x: nat :: x < t.Nodes() ==> t.parents[x] != [] && Accepts(t, x, p)
    ensures AllCompatible(t, s) && Settled(s) && SolvedFrom(t, rank, s, n)
  {
    forall x: nat | x < t.Nodes()
      ensures Cumulative(t, s, x) == p && Solved(t, s, x)
    {
      assert t.parents[x][0] in t.parents[x];
      AllPerms(p.used);
      AllPerms(p.shared);
    }
  }

  lemma DiamondBelow()
    requires Topo(Diamond(), DIAMOND_RANK)
    ensures forall e: nat :: 1 <= e <= 4 ==> Below(Diamond(), DIAMOND_RANK, 0, e)
  {
    hide Topo, Reach, Below;
    var t := Diamond();
    assert 1 in t.Kids(0) && 2 in t.Kids(0) && 3 in t.Kids(1) && 4 in t.Kids(2);
    KidIsBelow(t, DIAMOND_RANK, 0, 1);
    KidIsBelow(t, DIAMOND_RANK, 0, 2);
    KidIsBelow(t, DIAMOND_RANK, 1, 3);
    KidIsBelow(t, DIAMOND_RANK, 2, 4);
    BelowKid(t, DIAMOND_RANK, 0, 1, 3);
    BelowKid(t, DIAMOND_RANK, 0, 2, 4);
  }

  lemma DiamondBlocked(s: Edges, q: Perms)
    requires Topo(Diamond(), DIAMOND_RANK) && Uniform(s, Perms({}, ALL - {Write})) && q == Perms({Write}, ALL)
    ensures Fits(Diamond(), s, 0, q) && Blocked(Diamond(), DIAMOND_RANK, s, 0, CumulativeWith(Diamond(), s, 0, 0, q))
  {
    hide Topo, Cumulative;
    var t := Diamond();
    OnlyParent(t, DIAMOND_RANK, s, 0, q);
    OnlyParent(t, DIAMOND_RANK, s, 1, q);
    assert !Compatible(q, s[4].cur);
    assert !Fits(t, s, 3, q);
    assert t.PermFor(3, q) == q && t.PermFor(1, q) == q;
    assert t.Kids(1)[0] == 3 && 3 in t.Kids(1);
    assert Blocked(t, DIAMOND_RANK, s, 1, q);
    assert t.Kids(0)[0] == 1 && 1 in t.Kids(0);
  }

  /** Who starts to write and in the same step lets others write is refused on a diamond, although all
      would agree in the end: the first way down is compared with what the second had before. */
  lemma DiamondIsRefused(s: Edges, s': Edges)
    requires Uniform(s, Perms({}, ALL - {Write})) && Uniform(s', Perms({Write}, ALL))
    ensures Monotone(Diamond()) && Topo(Diamond(), DIAMOND_RANK)
    ensures AllCompatible(Diamond(), s) && Settled(s) && SolvedFrom(Diamond(), DIAMOND_RANK, s, 0)
    ensures Outcome(Diamond(), DIAMOND_RANK, s, 0, Perms({Write}, ALL), s')
    ensures Fits(Diamond(), s, 0, Perms({Write}, ALL))
    ensures Blocked(Diamond(), DIAMOND_RANK, s, 0, CumulativeWith(Diamond(), s, 0, 0, Perms({Write}, ALL)))
  {
    hide Topo, Reach, Below, SolvedFrom, Cumulative, Blocked, Fits;
    var t, p, q := Diamond(), Perms({}, ALL - {Write}), Perms({Write}, ALL);
    DiamondIsTopo();
    UniformSolved(t, DIAMOND_RANK, s, p, 0);
    UniformSolved(t, DIAMOND_RANK, s', q, 0);
    DiamondBelow();
    DiamondBlocked(s, q);
  }
}
