/** Grouped external snapshots: the actions are prepared one by one; then all are committed, or all
    are aborted in reverse order; and each that was started is cleaned up. */
module Transactions {
  import opened BlockGraphs
  import opened Quiescing
  import opened Stacking

  // ---------------------------------------------------------------- references held

  function Get(x: map<nat, nat>, n: nat): nat {
    if n in x then x[n] else 0
  }

  /** The outside references `x` are `x0` and those in `held`. */
  ghost predicate Tally(x0: map<nat, nat>, x: map<nat, nat>, held: multiset<nat>) {
    && (forall n :: n in x <==> n in x0 || n in held)
    && (forall n :: n in x ==> x[n] == Get(x0, n) + held[n])
  }

  /** A graph between operations. */
  ghost predicate Tidy(g: Graph) {
    Inv(g, {}) && BackingOk(g) && Acyclic(g.edges)
  }

  /** Appending while holding one more reference, which the append takes. */
  lemma AppendedFacts(g: Graph, n: nat, top: nat)
    requires Inv(g, {}) && n in g.refcnt && n in g.extra && g.extra[n] > 0 && top in g.refcnt && top in g.extra
    requires n != top
    ensures Put(More(g, n), n, top).edges == g.edges[g.next := Edge(n, top, false, false)]
    ensures Holds(Appended(More(g, n), n, top), n)
    ensures var a := Less(Appended(More(g, n), n, top), n);
            && a.edges == Stacked(g.edges, n, top, g.next) && a.backing == g.backing[n := g.next]
            && a.extra == g.extra && a.refcnt.Keys == g.refcnt.Keys && a.next == g.next + 1
  {
    hide Movers, Parents;
    var a := Less(Appended(More(g, n), n, top), n);
    assert a.extra == g.extra;
    assert a.refcnt.Keys == g.refcnt.Keys;
  }

  /** bdrv_ref and bdrv_append of the overlay `n`, which the caller holds. */
  method AppendOverlay(graph: BlockGraph, n: nat, top: nat, granted: bool, granted2: bool) returns (ok: bool)
    requires Tidy(graph.G()) && Holds(graph.G(), n) && top in graph.refcnt
    requires n !in graph.backing && (granted ==> !Reach(graph.edges, top, n))
    modifies graph
    ensures Tidy(graph.G()) && graph.extra == old(graph.extra) && graph.refcnt.Keys == old(graph.refcnt.Keys)
    ensures ok <==>
            granted && granted2 && NoneFrozen(old(graph.edges)[old(graph.nextEdge) := Edge(n, top, false, false)], top,
                                              n)
    ensures ok ==>
              graph.backing == old(graph.backing)[n := old(graph.nextEdge)] && graph.nextEdge == old(graph.nextEdge) + 1
    ensures ok ==> StackedOk(old(graph.edges), graph.edges, n, top, old(graph.nextEdge))
    ensures !ok ==> graph.edges == old(graph.edges) && graph.backing == old(graph.backing)
  {
    hide Inv, Wired, BackingOk, Acyclic, Reach, More, Less, Appended, Put, NoneFrozen, Kept, Stacked;
    ghost var g := graph.G();
    NextIsNew(g, n, top);
    Referenced(g, n);
    MoreBacking(g, n);
    graph.Ref(n);
    if granted {
      NotItself(g.edges, n, top);
      AppendedFacts(g, n, top);
    }
    MoreKeeps(g, n);
    ok := graph.Append(n, top, granted, granted2);
  }

  lemma NextIsNew(g: Graph, n: nat, top: nat)
    requires Inv(g, {}) && n in g.refcnt && top in g.refcnt
    ensures g.next !in g.edges && n in g.extra && top in g.extra
  {}

  lemma MoreKeeps(g: Graph, n: nat)
    requires n in g.refcnt && n in g.extra
    ensures var m := More(g, n);
            m.edges == g.edges && m.backing == g.backing && m.next == g.next && m.extra[n] == g.extra[n] + 1
  {}

  // ---------------------------------------------------------------- the abort of one action

  /** Something refers to node `y`: one of the references `x`, or an edge. */
  ghost predicate Referred(x: map<nat, nat>, es: Edges, y: nat) {
    Get(x, y) > 0 || Parents(es, y) != {}
  }

  /** `n` can be taken off: it has a backing edge, wherever that points by now, and once the edges to
      `n` are back at `top`, both `top` and the node the backing edge points to are referred to. */
  ghost predicate Hangs(g: Graph, n: nat, top: nat) {
    && n != top && Holds(g, n) && top in g.refcnt && BackEdge(g, n) && !g.edges[g.backing[n]].frozen
    && Referred(g.extra, Undone(g.edges, n, top, g.backing[n]), top)
    && Referred(g.extra, Undone(g.edges, n, top, g.backing[n]), g.edges[g.backing[n]].bs)
  }

  /** The abort with the graph as a value: the reference taken first and dropped last, the backing
      edge cut, the edges to `n` redirected. */
  lemma UndoSteps(g: Graph, n: nat, top: nat)
    requires Inv(g, {}) && BackingOk(g) && Hangs(g, n, top)
    ensures top in g.extra && n in g.refcnt && BackEdge(More(g, top), n) && !FrozenBacking(More(g, top), n)
    ensures More(g, top).refcnt[More(g, top).edges[More(g, top).backing[n]].bs] > 1
    ensures Unbacked(g, n, top, Unback(More(g, top), n))
  {
    hide Parents, Undone, Reach;
    BackingIsShared(g, n, top);
    var a := Unback(More(g, top), n);
    assert a.extra == g.extra[top := g.extra[top] + 1];
    assert a.refcnt.Keys == g.refcnt.Keys;
  }

  /** The backing edge is not the only reference to its node, once we hold `top`. */
  lemma BackingIsShared(g: Graph, n: nat, top: nat)
    requires Inv(g, {}) && BackingOk(g) && Hangs(g, n, top)
    ensures var w := g.edges[g.backing[n]].bs; top in g.extra && g.refcnt[w] > if w == top then 0 else 1
  {
    hide Movers, NoneFrozen;
    var b := g.backing[n];
    var w := g.edges[b].bs;
    assert b in Parents(g.edges, w);
    if w != top && Get(g.extra, w) == 0 {
      var f :| f in Parents(Undone(g.edges, n, top, b), w);
      assert f in Parents(g.edges, w) && f != b;
      SubsetSize({b, f}, Parents(g.edges, w));
    }
  }

  /** `u` is `g` without the backing edge of `n`, and with its reference to `top` in our hands. */
  ghost predicate Unbacked(g: Graph, n: nat, top: nat, u: Graph) {
    && n in g.backing && top in g.extra && u.edges == g.edges - {g.backing[n]} && u.backing == g.backing - {n}
    && u.refcnt.Keys == g.refcnt.Keys && u.extra == g.extra[top := g.extra[top] + 1]
  }

  lemma HeldMovers(g: Graph, n: nat, top: nat)
    requires Inv(g, {}) && n in g.refcnt && n in g.extra && g.extra[n] > 0
    ensures |Movers(g.edges, n, top)| < g.refcnt[n]
  {
    SubsetSize(Movers(g.edges, n, top), Parents(g.edges, n));
  }

  /** After the edges are back at `top`, the reference taken at the start is not the last. */
  lemma UndoLast(g: Graph, n: nat, top: nat, u: Graph, m: Graph)
    requires Hangs(g, n, top) && Unbacked(g, n, top, u) && n in u.refcnt && top in u.refcnt
    requires m == Moved(u, Movers(u.edges, n, top), n, top) && Inv(m, {})
    ensures m.edges == Undone(g.edges, n, top, g.backing[n]) && m.backing == g.backing - {n}
    ensures top in m.refcnt && top in m.extra && m.extra[top] > 0 && m.refcnt[top] > 1
    ensures m.extra == g.extra[top := g.extra[top] + 1] && m.refcnt.Keys == g.refcnt.Keys
  {
    hide Parents, Movers, NoneFrozen, Redirect;
    assert m.edges == Undone(g.edges, n, top, g.backing[n]);
    SomeElement(Parents(m.edges, top));
  }

  lemma LessOfMore(g: Graph, m: Graph, top: nat)
    requires Holds(m, top) && top in g.extra && m.extra == g.extra[top := g.extra[top] + 1]
    ensures var l := Less(m, top);
            l.edges == m.edges && l.backing == m.backing && l.extra == g.extra && l.refcnt.Keys == m.refcnt.Keys
  {
    assert Less(m, top).extra == g.extra;
  }

  lemma SomeElement(s: set<nat>)
    ensures s != {} ==> |s| > 0
  {}

  /** external_snapshot_abort of an action whose overlay was appended.  `granted` is the permission check
      of bdrv_replace_node; where that fails or an edge that has to move is frozen, the program ends. */
  method Undo(graph: BlockGraph, n: nat, top: nat, granted: bool) returns (ok: bool)
    requires Tidy(graph.G()) && Hangs(graph.G(), n, top)
    modifies graph
    ensures ok <==> granted && NoneFrozen(old(graph.edges) - {old(graph.backing)[n]}, n, top)
    ensures ok ==> Tidy(graph.G()) && graph.extra == old(graph.extra) && graph.refcnt.Keys == old(graph.refcnt.Keys)
    ensures ok ==>
              graph.edges == Undone(old(graph.edges), n, top, old(graph.backing)[n]) &&
              graph.backing == old(graph.backing) - {n}
  {
    hide Inv, Wired, BackingOk, Acyclic, Reach, More, Less, Moved, Unback, NoneFrozen, Kept, Movers, Undone, Parents;
    ghost var g := graph.G();
    UndoSteps(g, n, top);
    Referenced(g, top);
    MoreBacking(g, top);
    graph.Ref(top);
    ghost var mid;
    ok, mid := graph.SetBacking(n, -1, true);
    ghost var u := graph.G();
    HeldMovers(u, n, top);
    ok := graph.ReplaceNode(n, top, granted);
    if !ok {
      return;
    }
    ghost var m := graph.G();
    UndoLast(g, n, top, u, m);
    graph.Unref(top, {});
    LessOfMore(g, m, top);
    LessBacking(m, top, {});
  }

  // ---------------------------------------------------------------- the actions

  /** bdrv_lookup_bs: a node by its name, or whatever a device's root edge points to by now. */
  datatype Target = ByNode(node: nat) | ByDevice(root: nat)

  /** A new image (blockdev-snapshot-sync), or a node that is open already (blockdev-snapshot). */
  datatype Overlay = NewImage | OpenNode(node: nat)

  /** One snapshot action, with the outcomes of the checks and the I/O in its prepare step: the
      completion mode; medium, blockers, flush and image creation; opening the image; whether no
      user needs consistent reads of the overlay; whether its driver supports backing files; and
      the permission checks of bdrv_append.  `regranted` is the permission check of its abort. */
  datatype Request = Request(target: Target, overlay: Overlay, modeOk: bool, ready: bool, openOk: bool,
                             idle: bool, supported: bool, granted: bool, granted2: bool, regranted: bool)

  /** ExternalSnapshotState, with -1 for null. */
  datatype ActionState = ActionState(old_bs: int, new_bs: int, appended: bool)

  datatype Phase = Prepare | Commit | Abort | Clean

  datatype Event = Event(phase: Phase, action: nat)

  function Forward(phase: Phase, count: nat): seq<Event> {
    seq(count, i requires i >= 0 => Event(phase, i))
  }

  function Backward(phase: Phase, count: nat, left: nat): seq<Event>
    requires left <= count
  {
    seq(count - left, i requires 0 <= i < count - left => Event(phase, count - 1 - i))
  }

  lemma ForwardMore(phase: Phase, i: nat)
    ensures Forward(phase, i + 1) == Forward(phase, i) + [Event(phase, i)]
  {}

  function Of(n: int): multiset<nat> {
    if n < 0 then multiset{} else multiset{n}
  }

  /** The references that started actions hold to their overlays, and the nodes they have drained. */
  function Opens(sts: seq<ActionState>): multiset<nat> {
    if sts == [] then multiset{} else Of(sts[0].new_bs) + Opens(sts[1..])
  }

  function Drains(sts: seq<ActionState>): multiset<nat> {
    if sts == [] then multiset{} else Of(sts[0].old_bs) + Drains(sts[1..])
  }

  lemma {:induction false} OneMore(sts: seq<ActionState>, st: ActionState)
    ensures Opens(sts + [st]) == Opens(sts) + Of(st.new_bs) && Drains(sts + [st]) == Drains(sts) + Of(st.old_bs)
  {
    hide Of;
    if sts == [] {
      assert sts + [st] == [st];
    } else {
      OneMore(sts[1..], st);
      assert (sts + [st])[1..] == sts[1..] + [st];
      Assoc(Of(sts[0].new_bs), Opens(sts[1..]), Of(st.new_bs));
      Assoc(Of(sts[0].old_bs), Drains(sts[1..]), Of(st.old_bs));
    }
  }

  lemma DrainMore(d: multiset<nat>, sts: seq<ActionState>, st: ActionState)
    ensures d + Drains(sts + [st]) == d + Drains(sts) + Of(st.old_bs)
  {
    hide Of, Drains;
    OneMore(sts, st);
    Assoc(d, Drains(sts), Of(st.old_bs));
  }

  lemma NoneYet(phase: Phase, d: multiset<nat>)
    ensures Forward(phase, 0) == [] && d + Drains([]) == d
  {}

  lemma Assoc(a: multiset<nat>, b: multiset<nat>, c: multiset<nat>)
    ensures a + (b + c) == a + b + c
  {}

  /** A prepare step that succeeded. */
  ghost predicate Step(g: Graph, st: ActionState, g': Graph) {
    && st.appended && st.old_bs >= 0 && st.new_bs >= 0 && st.new_bs !in g.backing
    && g'.backing == g.backing[st.new_bs := g.next] && g'.next == g.next + 1
    && StackedOk(g.edges, g'.edges, st.new_bs, st.old_bs, g.next)
    && st.old_bs in g.refcnt && Tally(g.extra, g'.extra, Of(st.new_bs))
  }

  ghost predicate Below(g: Graph, bound: nat) {
    (forall n :: n in g.refcnt ==> n < bound) && (forall n :: n in g.backing ==> n < bound)
  }

  lemma OpenedTidy(g: Graph, n: nat)
    requires Tidy(g) && Below(g, n)
    ensures n !in g.refcnt && n !in g.backing
    ensures var o := Opened(g, n);
            Tidy(o) && Below(o, n + 1) && Holds(o, n) && Tally(g.extra, o.extra, multiset{n}) &&
            g.refcnt.Keys <= o.refcnt.Keys
  {
    hide Acyclic, Parents;
    OpenedInv(g, n);
  }

  lemma MoreTidy(g: Graph, n: nat, bound: nat)
    requires Tidy(g) && Below(g, bound) && n in g.refcnt
    ensures n in g.extra
    ensures var o := More(g, n);
            Tidy(o) && Below(o, bound) && Holds(o, n) && Tally(g.extra, o.extra, multiset{n}) &&
            g.refcnt.Keys <= o.refcnt.Keys
  {
    hide Acyclic, Parents;
    Referenced(g, n);
    MoreBacking(g, n);
  }

  lemma TallySelf(x: map<nat, nat>)
    ensures Tally(x, x, multiset{})
  {}

  // ---------------------------------------------------------------- telling the outcome beforehand

  function Find(edges: Edges, nodes: set<nat>, target: Target): (n: int)
    ensures n >= -1
  {
    match target
    case ByNode(node) => if node in nodes then node else -1
    case ByDevice(root) => if root in edges && edges[root].owner < 0 then edges[root].bs else -1
  }

  /** What prepare steps depend on: the edges, the nodes, those with a backing node, the number of the
      next edge and that of the next new image. */
  datatype Sketch = Sketch(edges: Edges, nodes: set<nat>, backed: set<nat>, next: nat, unused: nat)

  function Draw(g: Graph, unused: nat): Sketch {
    Sketch(g.edges, g.refcnt.Keys, g.backing.Keys, g.next, unused)
  }

  /** The overlay that a request asks for. */
  function Pick(k: Sketch, r: Request): nat {
    if r.overlay.NewImage? then k.unused else r.overlay.node
  }

  /** When an action can be prepared. */
  ghost predicate Accepts(k: Sketch, r: Request) {
    var top := Find(k.edges, k.nodes, r.target);
    r.modeOk && top >= 0 && r.ready && CanLayOver(k, r, top)
  }

  ghost predicate CanLayOver(k: Sketch, r: Request, top: nat) {
    var n := Pick(k, r);
    && MayAttach(k, r) && !Reach(k.edges, top, n) && r.granted2
    && NoneFrozen(k.edges[k.next := Edge(n, top, false, false)], top, n)
  }

  /** All checks up to the new backing edge pass. */
  ghost predicate MayAttach(k: Sketch, r: Request) {
    var n := Pick(k, r);
    && (if r.overlay.NewImage? then r.openOk else n in k.nodes)
    && r.idle && n !in k.backed && r.supported && r.granted
  }

  /** When preparing an action ends the program: the node, which is drained, leads to the overlay that it is
      to be attached to. */
  ghost predicate Wrecks(k: Sketch, r: Request) {
    var top := Find(k.edges, k.nodes, r.target);
    r.modeOk && top >= 0 && r.ready && MayAttach(k, r) && Reach(k.edges, top, Pick(k, r))
  }

  /** What a prepared action leaves. */
  ghost function Laid(k: Sketch, r: Request, top: nat): Sketch {
    var n := Pick(k, r);
    Sketch(Stacked(k.edges, n, top, k.next), k.nodes + {n}, k.backed + {n}, k.next + 1,
           if r.overlay.NewImage? then k.unused + 1 else k.unused)
  }

  ghost function Advance(k: Sketch, r: Request): Sketch
    requires Accepts(k, r)
  {
    Laid(k, r, Find(k.edges, k.nodes, r.target))
  }

  /** All actions can be prepared. */
  ghost predicate Passes(k: Sketch, rs: seq<Request>)
    decreases |rs|
  {
    rs != [] ==> Accepts(k, rs[0]) && Passes(Advance(k, rs[0]), rs[1..])
  }

  /** Preparing some action, after all before it are prepared, ends the program. */
  ghost predicate Breaks(k: Sketch, rs: seq<Request>)
    decreases |rs|
  {
    rs != [] && (Wrecks(k, rs[0]) || (Accepts(k, rs[0]) && Breaks(Advance(k, rs[0]), rs[1..])))
  }

  /** Some action is prepared on an overlay to which one of the edges in `edges`, not pinned, points. */
  ghost predicate Loses(k: Sketch, rs: seq<Request>, edges: set<nat>)
    decreases |rs|
  {
    && rs != [] && Accepts(k, rs[0])
    && ((exists e :: e in edges && Taken(k.edges, Pick(k, rs[0]), e)) || Loses(Advance(k, rs[0]), rs[1..], edges))
  }

  /** Some action is prepared whose abort would end the program: its permissions are refused, or an edge
      that points to its overlay, not pinned, is frozen. */
  ghost predicate Jams(k: Sketch, rs: seq<Request>)
    decreases |rs|
  {
    && rs != [] && Accepts(k, rs[0])
    && (!rs[0].regranted || (exists e :: Taken(k.edges, Pick(k, rs[0]), e) && k.edges[e].frozen) ||
        Jams(Advance(k, rs[0]), rs[1..]))
  }

  /** Edge `e` goes along when node `n` is replaced. */
  ghost predicate Taken(es: Edges, n: int, e: nat) {
    e in es && es[e].bs == n && !es[e].stay
  }

  lemma StillBelow(g: Graph, g': Graph, n: nat, bound: nat)
    requires Below(g, bound) && n in g.refcnt && g'.refcnt.Keys == g.refcnt.Keys
    requires g'.backing.Keys <= g.backing.Keys + {n}
    ensures Below(g', bound)
  {}

  lemma FindIsLive(g: Graph, target: Target)
    requires Tidy(g) && Find(g.edges, g.refcnt.Keys, target) >= 0
    ensures Find(g.edges, g.refcnt.Keys, target) in g.refcnt
  {}

  // ---------------------------------------------------------------- runs of prepare steps

  /** The graphs before, between and after successful prepare steps.  No overlay is used twice. */
  ghost predicate Chain(gs: seq<Graph>, sts: seq<ActionState>) {
    && |gs| == |sts| + 1
    && (forall i :: 0 <= i < |gs| ==> Tidy(gs[i]))
    && (forall i :: 0 <= i < |sts| ==> Step(gs[i], sts[i], gs[i + 1]))
    && (forall i, j :: 0 <= i < j < |sts| ==> sts[i].new_bs != sts[j].new_bs)
  }

  /** Nodes that earlier steps laid over others have backing nodes, and lead to those they cover. */
  ghost predicate Seen(g: Graph, sts: seq<ActionState>) {
    forall i :: 0 <= i < |sts| ==> sts[i].new_bs in g.backing && Reach(g.edges, sts[i].new_bs, sts[i].old_bs)
  }

  ghost predicate AtLeast(x: map<nat, nat>, x': map<nat, nat>) {
    forall n :: n in x ==> n in x' && x[n] <= x'[n]
  }

  /** References are only added; every overlay is held, and every node that is new since some step. */
  ghost predicate Lasting(gs: seq<Graph>, sts: seq<ActionState>, x: map<nat, nat>) {
    && (forall i :: 0 <= i < |gs| ==> AtLeast(gs[i].extra, x))
    && (forall i, n :: 0 <= i < |gs| && n in x && n !in gs[i].extra ==> x[n] > 0)
    && (forall i :: 0 <= i < |sts| ==> sts[i].new_bs in x && x[sts[i].new_bs] > 0)
  }

  lemma SeenMore(g: Graph, sts: seq<ActionState>, st: ActionState, g': Graph)
    requires Seen(g, sts) && Step(g, st, g')
    ensures Seen(g', sts + [st]) && forall i :: 0 <= i < |sts| ==> sts[i].new_bs != st.new_bs
  {
    hide Reach, Stacked, NoneFrozen, Tally;
    var sts' := sts + [st];
    forall i | 0 <= i < |sts'|
      ensures sts'[i].new_bs in g'.backing && Reach(g'.edges, sts'[i].new_bs, sts'[i].old_bs)
    {
      StackedReach(g.edges, st.new_bs, st.old_bs, g.next, sts'[i].new_bs, sts'[i].old_bs);
    }
  }

  lemma LastingMore(gs: seq<Graph>, sts: seq<ActionState>, x: map<nat, nat>, x': map<nat, nat>, held: multiset<nat>)
    requires Lasting(gs, sts, x) && Tally(x, x', held)
    ensures Lasting(gs, sts, x') && AtLeast(x, x')
  {}

  ghost predicate Prepared(gs: seq<Graph>, sts: seq<ActionState>, c: Graph) {
    && Chain(gs, sts) && Lasting(gs, sts, c.extra) && Seen(c, sts)
    && c.edges == gs[|sts|].edges && c.backing == gs[|sts|].backing
  }

  lemma PreparedMore(gs: seq<Graph>, sts: seq<ActionState>, c: Graph, st: ActionState, c': Graph)
    requires Prepared(gs, sts, c) && gs[|sts|] == c && Step(c, st, c') && Tidy(c')
    ensures Prepared(gs + [c'], sts + [st], c')
  {
    hide Tidy, Seen, StackedOk, Tally;
    SeenMore(c, sts, st, c');
    LastingMore(gs, sts, c.extra, c'.extra, Of(st.new_bs));
    HeldNow(c, st, c');
  }

  lemma HeldNow(c: Graph, st: ActionState, c': Graph)
    requires Step(c, st, c')
    ensures st.new_bs in c'.extra && c'.extra[st.new_bs] > 0
  {}

  lemma PreparedStays(gs: seq<Graph>, sts: seq<ActionState>, c: Graph, c': Graph, held: multiset<nat>)
    requires Prepared(gs, sts, c) && c'.edges == c.edges && c'.backing == c.backing && Tally(c.extra, c'.extra, held)
    ensures Prepared(gs, sts, c')
  {
    hide Chain, Reach;
    LastingMore(gs, sts, c.extra, c'.extra, held);
  }

  lemma TallyMore(x: map<nat, nat>, x1: map<nat, nat>, x2: map<nat, nat>, a: multiset<nat>, b: multiset<nat>)
    requires Tally(x, x1, a) && Tally(x1, x2, b)
    ensures Tally(x, x2, a + b)
  {}

  // ---------------------------------------------------------------- aborting in reverse order

  /** Edge `e` is the same in all graphs from `k` to `m`, where it goes along with the overlay. */
  ghost predicate TakenAt(gs: seq<Graph>, sts: seq<ActionState>, k: nat, e: nat, m: nat) {
    && k <= m < |sts| && |gs| == |sts| + 1 && Taken(gs[m].edges, sts[m].new_bs, e)
    && forall j :: k <= j <= m ==> e in gs[j].edges && gs[j].edges[e] == gs[m].edges[e]
  }

  /** Where edge `e` of graph `k` is when the actions from `k` on are undone: where it was, unless it went
      along with some overlay; then at a node below the one that overlay was laid over. */
  ghost predicate Placed(gs: seq<Graph>, sts: seq<ActionState>, k: nat, e: nat, y: Edge) {
    && k < |gs| == |sts| + 1 && e in gs[k].edges
    && ((y == gs[k].edges[e] && forall m: nat :: !TakenAt(gs, sts, k, e, m)) ||
        (y == gs[k].edges[e].(bs := y.bs) && Strays(gs, sts, k, e, y.bs)))
  }

  ghost predicate Strays(gs: seq<Graph>, sts: seq<ActionState>, k: nat, e: nat, x: nat) {
    exists m: nat :: TakenAt(gs, sts, k, e, m) && Reach(gs[|gs| - 1].edges, sts[m].old_bs, x)
  }

  lemma StepEdge(g: Graph, st: ActionState, g': Graph, e: nat)
    requires Step(g, st, g') && e in g.edges
    ensures e in g'.edges && e != g.next
    ensures g'.edges[e] == g.edges[e] ||
            (g.edges[e].bs == st.old_bs && !g.edges[e].stay && !g.edges[e].frozen &&
             g'.edges[e] == g.edges[e].(bs := st.new_bs))
  {
    hide Movers, NoneFrozen, Reach, Tally;
    StackedEdges(g.edges, st.new_bs, st.old_bs, g.next);
    if g'.edges[e] != g.edges[e] {
      MovedNotFrozen(g.edges, g'.edges, st.new_bs, st.old_bs, g.next, e);
    }
  }

  /** An edge that goes along with a later overlay was there before this step as well. */
  lemma TakenEarlier(gs: seq<Graph>, sts: seq<ActionState>, i: nat, e: nat, m: nat)
    requires Chain(gs, sts) && i < |sts| && e in gs[i].edges && TakenAt(gs, sts, i + 1, e, m)
    ensures TakenAt(gs, sts, i, e, m)
  {
    hide Step, Tidy;
    var k := i + 1;
    assert Step(gs[i], sts[i], gs[i + 1]);
    StepEdge(gs[i], sts[i], gs[k], e);
    assert gs[k].edges[e] == gs[m].edges[e];
  }

  lemma TakenLater(gs: seq<Graph>, sts: seq<ActionState>, i: nat, e: nat, m: nat)
    requires TakenAt(gs, sts, i, e, m) && i < m
    ensures TakenAt(gs, sts, i + 1, e, m)
  {}

  /** One edge, one abort further back. */
  lemma PlacedStep(gs: seq<Graph>, sts: seq<ActionState>, i: nat, e: nat, y: Edge, n: nat, top: nat)
    requires Chain(gs, sts) && i < |sts| && n == sts[i].new_bs && top == sts[i].old_bs && n != top
    requires Reach(gs[|gs| - 1].edges, n, top) && e in gs[i].edges && Placed(gs, sts, i + 1, e, y)
    ensures Placed(gs, sts, i, e, Freed(y, n, top))
  {
    hide Step, Tidy, Reach;
    var k, all := i + 1, gs[|gs| - 1].edges;
    var z := Freed(y, n, top);
    assert Step(gs[i], sts[i], gs[i + 1]);
    StepEdge(gs[i], sts[i], gs[k], e);
    if y == gs[k].edges[e] && forall m: nat :: !TakenAt(gs, sts, k, e, m) {
      if Taken(gs[i].edges, n, e) {
        assert TakenAt(gs, sts, i, e, i);
        ReachSelf(all, top);
        assert Strays(gs, sts, i, e, z.bs);
      } else {
        forall m: nat
          ensures !TakenAt(gs, sts, i, e, m)
        {
          if m > i && TakenAt(gs, sts, i, e, m) {
            TakenLater(gs, sts, i, e, m);
          }
        }
      }
    } else {
      var m: nat :| TakenAt(gs, sts, k, e, m) && Reach(all, sts[m].old_bs, y.bs);
      TakenEarlier(gs, sts, i, e, m);
      if z != y {
        ReachTransitive(all, sts[m].old_bs, n, top);
      }
      assert gs[i].edges[e] == gs[m].edges[e] && gs[k].edges[e] == gs[m].edges[e];
      assert Strays(gs, sts, i, e, z.bs);
    }
  }

  /** No frozen edge goes along with the overlays from `k` on. */
  ghost predicate Unjammed(gs: seq<Graph>, sts: seq<ActionState>, k: nat) {
    forall m: nat, e: nat :: k <= m < |sts| && m < |gs| && Taken(gs[m].edges, sts[m].new_bs, e) ==>
      !gs[m].edges[e].frozen
  }

  ghost predicate AllPlaced(gs: seq<Graph>, sts: seq<ActionState>, k: nat, es: Edges) {
    && k < |gs| == |sts| + 1 && es.Keys == gs[k].edges.Keys && Within(es, gs[|sts|].edges)
    && forall e :: e in es ==> Placed(gs, sts, k, e, es[e])
  }

  /** The actions from `k` on are undone. */
  ghost predicate Undoing(gs: seq<Graph>, sts: seq<ActionState>, k: nat, c: Graph) {
    && k <= |sts| && Chain(gs, sts) && Lasting(gs, sts, c.extra) && Seen(gs[|sts|], sts) && Tidy(c)
    && c.backing == gs[k].backing && AllPlaced(gs, sts, k, c.edges) && Unjammed(gs, sts, k)
  }

  lemma UndoingStarts(gs: seq<Graph>, sts: seq<ActionState>, c: Graph)
    requires Prepared(gs, sts, c) && Tidy(c)
    ensures Undoing(gs, sts, |sts|, c)
  {
    hide Step, Lasting, Tidy, Within, Reach;
    WithinSelf(c.edges);
    forall e | e in c.edges
      ensures Placed(gs, sts, |sts|, e, c.edges[e])
    {
      assert forall m: nat :: !TakenAt(gs, sts, |sts|, e, m);
    }
  }

  /** All edges, one abort further back. */
  lemma PlacedBack(gs: seq<Graph>, sts: seq<ActionState>, i: nat, cs: Edges, n: nat, top: nat, b: nat)
    requires Chain(gs, sts) && i < |sts| && n == sts[i].new_bs && top == sts[i].old_bs && b == gs[i].next
    requires Reach(gs[|sts|].edges, n, top) && AllPlaced(gs, sts, i + 1, cs)
    ensures n != top && AllPlaced(gs, sts, i, Undone(cs, n, top, b)) && b in cs && !cs[b].frozen && cs[b].owner == n
    ensures NoneFrozen(cs - {b}, n, top) <==>
            forall e :: e in cs && e != b && cs[e].bs == n && !cs[e].stay ==> !cs[e].frozen
  {
    hide Reach, Within, NoneFrozen, Movers, Undone, Stacked, Placed, Acyclic, Inv;
    StepFacts(gs[i], sts[i], gs[i + 1]);
    UndoneEdges(cs, gs[|sts|].edges, n, top, b);
    var u := Undone(cs, n, top, b);
    assert u.Keys == gs[i].edges.Keys;
    NewEdge(gs, sts, i, cs, b);
    forall e | e in u
      ensures Placed(gs, sts, i, e, u[e])
    {
      PlacedStep(gs, sts, i, e, cs[e], n, top);
    }
  }

  lemma StepFacts(g: Graph, st: ActionState, g': Graph)
    requires Step(g, st, g')
    ensures st.new_bs != st.old_bs && g.next !in g.edges && g'.edges.Keys == g.edges.Keys + {g.next}
    ensures g'.edges[g.next] == Edge(st.new_bs, st.old_bs, false, false)
  {
    hide Movers, NoneFrozen, Tally, Reach;
    NotItself(g.edges, st.new_bs, st.old_bs);
    StackedEdges(g.edges, st.new_bs, st.old_bs, g.next);
  }

  lemma NewEdge(gs: seq<Graph>, sts: seq<ActionState>, i: nat, cs: Edges, b: nat)
    requires |gs| == |sts| + 1 && i < |sts| && Step(gs[i], sts[i], gs[i + 1]) && b == gs[i].next
    requires AllPlaced(gs, sts, i + 1, cs)
    ensures b in cs && !cs[b].frozen && cs[b].owner == sts[i].new_bs
  {
    hide Step, Strays, Within, TakenAt;
    StepFacts(gs[i], sts[i], gs[i + 1]);
    assert Placed(gs, sts, i + 1, b, cs[b]);
  }

  /** The abort of an action meets a frozen edge exactly if one went along with its overlay. */
  lemma JamsHere(gs: seq<Graph>, sts: seq<ActionState>, i: nat, cs: Edges, n: nat, b: nat)
    requires Chain(gs, sts) && i < |sts| && n == sts[i].new_bs && b == gs[i].next && AllPlaced(gs, sts, i + 1, cs)
    requires Unjammed(gs, sts, i + 1)
    ensures (forall e :: e in cs && e != b && cs[e].bs == n && !cs[e].stay ==> !cs[e].frozen) <==>
            (forall e :: Taken(gs[i].edges, n, e) ==> !gs[i].edges[e].frozen)
  {
    hide Step, Within, Tidy;
    assert Step(gs[i], sts[i], gs[i + 1]);
    StepFacts(gs[i], sts[i], gs[i + 1]);
    forall e | e in gs[i].edges
      ensures Taken(gs[i].edges, n, e) ==> cs[e] == gs[i].edges[e]
      ensures e in cs && e != b
      ensures (cs[e].bs == n && !cs[e].stay && cs[e].frozen ==> Taken(gs[i].edges, n, e) && gs[i].edges[e].frozen)
    {
      StepEdge(gs[i], sts[i], gs[i + 1], e);
      assert Placed(gs, sts, i + 1, e, cs[e]);
      OwnOrLater(gs, sts, i, e, cs[e]);
    }
  }

  lemma OwnOrLater(gs: seq<Graph>, sts: seq<ActionState>, i: nat, e: nat, y: Edge)
    requires Chain(gs, sts) && i < |sts| && e in gs[i].edges && Placed(gs, sts, i + 1, e, y) && Unjammed(gs, sts, i + 1)
    ensures y == gs[i + 1].edges[e] || (!y.frozen && gs[i + 1].edges[e].bs != sts[i].new_bs)
  {
    hide Step, Tidy, Reach;
    if y != gs[i + 1].edges[e] {
      var m: nat :| TakenAt(gs, sts, i + 1, e, m) && Reach(gs[|gs| - 1].edges, sts[m].old_bs, y.bs);
      assert gs[i + 1].edges[e] == gs[m].edges[e];
    }
  }

  /** Every node is referred to once the actions from `i` on are undone, not counting later edges. */
  lemma StillReferred(gs: seq<Graph>, sts: seq<ActionState>, i: nat, x: map<nat, nat>, u: Edges, y: nat)
    requires i < |gs| && Inv(gs[i], {}) && Lasting(gs, sts, x) && AllPlaced(gs, sts, i, u) && y in x
    ensures Referred(x, u, y)
  {
    hide Within, Reach;
    if y in gs[i].extra && x[y] == 0 {
      assert AtLeast(gs[i].extra, x);
      var f :| f in Parents(gs[i].edges, y);
      StaysOrHeld(gs, sts, i, x, f, u[f]);
      assert f in Parents(u, y);
    }
  }

  lemma StaysOrHeld(gs: seq<Graph>, sts: seq<ActionState>, i: nat, x: map<nat, nat>, f: nat, z: Edge)
    requires Lasting(gs, sts, x) && Placed(gs, sts, i, f, z)
    ensures z == gs[i].edges[f] || Get(x, gs[i].edges[f].bs) > 0
  {
    hide Reach, AtLeast;
    if m: nat :| TakenAt(gs, sts, i, f, m) {
      assert gs[i].edges[f] == gs[m].edges[f];
    }
  }

  /** One action's abort, from the graph that its prepare step left to the one it started from. */
  lemma UndoingStep(gs: seq<Graph>, sts: seq<ActionState>, k: nat, c: Graph)
    requires 0 < k && Undoing(gs, sts, k, c)
    ensures var st := sts[k - 1];
            && st.new_bs >= 0 && st.old_bs >= 0 && Hangs(c, st.new_bs, st.old_bs)
            && c.backing - {st.new_bs} == gs[k - 1].backing
            && AllPlaced(gs, sts, k - 1, Undone(c.edges, st.new_bs, st.old_bs, c.backing[st.new_bs]))
            && (NoneFrozen(c.edges - {c.backing[st.new_bs]}, st.new_bs, st.old_bs) <==> Unjammed(gs, sts, k - 1))
  {
    hide AllPlaced, Reach, Acyclic, Undone, NoneFrozen, Stacked, AtLeast, Inv, BackingOk, Tally, Referred, Holds;
    hide Unjammed;
    var i := k - 1;
    var st := sts[i];
    assert Step(gs[i], st, gs[i + 1]);
    var n: nat, top: nat, b := st.new_bs, st.old_bs, gs[i].next;
    assert c.backing[n] == b;
    PlacedBack(gs, sts, i, c.edges, n, top, b);
    JamsHere(gs, sts, i, c.edges, n, b);
    OneMoreJam(gs, sts, i);
    var u := Undone(c.edges, n, top, b);
    HeldIsLive(c, n);
    LiveNodes(gs, sts, i, c, top, b);
    StillReferred(gs, sts, i, c.extra, u, top);
    StillReferred(gs, sts, i, c.extra, u, c.edges[b].bs);
  }

  lemma OneMoreJam(gs: seq<Graph>, sts: seq<ActionState>, i: nat)
    requires Unjammed(gs, sts, i + 1) && i < |sts| && |gs| == |sts| + 1
    ensures Unjammed(gs, sts, i) <==> forall e :: Taken(gs[i].edges, sts[i].new_bs, e) ==> !gs[i].edges[e].frozen
  {}

  lemma LiveNodes(gs: seq<Graph>, sts: seq<ActionState>, i: nat, c: Graph, top: nat, b: nat)
    requires i < |gs| && Inv(gs[i], {}) && Inv(c, {}) && Lasting(gs, sts, c.extra) && top in gs[i].refcnt
    requires b in c.edges
    ensures top in c.refcnt && top in c.extra && Holdable(c, c.edges[b].bs) && c.edges[b].bs in c.extra
  {
    assert AtLeast(gs[i].extra, c.extra);
  }

  lemma HeldIsLive(g: Graph, n: nat)
    requires Inv(g, {}) && n in g.extra && g.extra[n] > 0
    ensures Holds(g, n)
  {}

  lemma UndoingNext(gs: seq<Graph>, sts: seq<ActionState>, i: nat, c: Graph, c': Graph)
    requires Undoing(gs, sts, i + 1, c) && Tidy(c') && c'.extra == c.extra && c'.backing == gs[i].backing
    requires AllPlaced(gs, sts, i, c'.edges) && Unjammed(gs, sts, i)
    ensures Undoing(gs, sts, i, c')
  {}

  /** Some edge of the first graph goes along with some overlay. */
  ghost predicate LostIn(gs: seq<Graph>, sts: seq<ActionState>, edges: set<nat>) {
    exists m: nat, e: nat :: m < |sts| && m < |gs| && e in edges && Taken(gs[m].edges, sts[m].new_bs, e)
  }

  /** Such an edge has not moved before. */
  lemma {:induction false} TakenFromStart(gs: seq<Graph>, sts: seq<ActionState>, i: nat, e: nat, m: nat)
    requires Chain(gs, sts) && m < |sts| && e in gs[0].edges && i <= m && TakenAt(gs, sts, i, e, m)
    ensures TakenAt(gs, sts, 0, e, m)
    decreases i
  {
    hide Step, Tidy;
    if i > 0 {
      EdgesGrow(gs, sts, i - 1, e);
      TakenEarlier(gs, sts, i - 1, e, m);
      TakenFromStart(gs, sts, i - 1, e, m);
    }
  }

  lemma {:induction false} EdgesGrow(gs: seq<Graph>, sts: seq<ActionState>, i: nat, e: nat)
    requires Chain(gs, sts) && i <= |sts| && e in gs[0].edges
    ensures e in gs[i].edges
    decreases i
  {
    hide Step, Tidy;
    if i > 0 {
      EdgesGrow(gs, sts, i - 1, e);
      var j := i - 1;
      assert Step(gs[j], sts[j], gs[j + 1]);
      StepEdge(gs[j], sts[j], gs[i], e);
    }
  }

  /** When all is undone, the edges are as before exactly if none of them went along with an overlay. */
  lemma AllUndone(gs: seq<Graph>, sts: seq<ActionState>, c: Graph)
    requires Undoing(gs, sts, 0, c)
    ensures c.edges == gs[0].edges <==> !LostIn(gs, sts, gs[0].edges.Keys)
  {
    hide Within, Tidy, Step, Lasting, Reach;
    var es := gs[0].edges;
    if LostIn(gs, sts, es.Keys) {
      var m: nat, e: nat :| m < |sts| && e in es.Keys && Taken(gs[m].edges, sts[m].new_bs, e);
      assert TakenAt(gs, sts, m, e, m);
      TakenFromStart(gs, sts, m, e, m);
      assert Placed(gs, sts, 0, e, c.edges[e]);
      StraysAway(gs, sts, e, c.edges[e]);
    } else {
      forall e | e in es
        ensures c.edges[e] == es[e]
      {
        assert Placed(gs, sts, 0, e, c.edges[e]);
        forall m: nat
          ensures !TakenAt(gs, sts, 0, e, m)
        {}
      }
    }
  }

  /** An edge that strays does not come back. */
  lemma StraysAway(gs: seq<Graph>, sts: seq<ActionState>, e: nat, y: Edge)
    requires Chain(gs, sts) && Seen(gs[|sts|], sts) && Placed(gs, sts, 0, e, y)
    requires exists m: nat :: TakenAt(gs, sts, 0, e, m)
    ensures y != gs[0].edges[e]
  {
    hide Step, Reach;
    var m: nat :| TakenAt(gs, sts, 0, e, m) && Reach(gs[|gs| - 1].edges, sts[m].old_bs, y.bs);
    assert gs[0].edges[e] == gs[m].edges[e];
    assert Step(gs[m], sts[m], gs[m + 1]);
    StepFacts(gs[m], sts[m], gs[m + 1]);
    OldIsNode(gs[m], sts[m], gs[m + 1]);
    AcyclicTop(gs, sts);
    NoTwoWays(gs[|sts|].edges, sts[m].new_bs, sts[m].old_bs);
  }

  lemma OldIsNode(g: Graph, st: ActionState, g': Graph)
    requires Step(g, st, g')
    ensures st.old_bs >= 0 && st.new_bs >= 0
  {}

  lemma AcyclicTop(gs: seq<Graph>, sts: seq<ActionState>)
    requires Chain(gs, sts)
    ensures Acyclic(gs[|sts|].edges)
  {}

  // ---------------------------------------------------------------- cleaning up

  /** Nodes that are held were there at the start, or are new. */
  ghost predicate OldOrNew(g: Graph, unused: nat, held: multiset<nat>) {
    forall n :: n in held ==> n in g.refcnt || n >= unused
  }

  lemma ChosenIsOldOrNew(g0: Graph, g: Graph, n0: nat, n1: nat, held: multiset<nat>, r: Request, n: int)
    requires Inv(g0, {}) && Inv(g, {}) && OldOrNew(g0, n0, held) && Tally(g0.extra, g.extra, held) && n0 <= n1
    requires n >= 0 ==> Chosen(g, r, n1, n)
    ensures OldOrNew(g0, n0, held + Of(n))
  {}

  /** As in graph `g`, but with more references held. */
  ghost predicate AsBefore(g: Graph, c: Graph, held: multiset<nat>) {
    && c.edges == g.edges && c.backing == g.backing && Tally(g.extra, c.extra, held)
    && forall n :: n in held ==> n in g.refcnt || n !in g.backing
  }

  lemma TallyLess(x0: map<nat, nat>, x: map<nat, nat>, n: nat, held: multiset<nat>)
    requires Tally(x0, x, held) && n in held && (n in x0 || held[n] > 1)
    ensures Tally(x0, x[n := x[n] - 1], held - multiset{n})
  {}

  lemma TallyDrop(x0: map<nat, nat>, x: map<nat, nat>, n: nat, held: multiset<nat>)
    requires Tally(x0, x, held) && n !in x0 && held[n] == 1
    ensures Tally(x0, x - {n}, held - multiset{n})
  {}

  /** An old node has other references; a new one has nothing but those held. */
  lemma CleanCount(g: Graph, c: Graph, n: nat, held: multiset<nat>)
    requires Inv(g, {}) && Inv(c, {}) && AsBefore(g, c, held) && n in held && n in c.refcnt
    ensures n in g.refcnt <==> n in g.extra
    ensures if n in g.refcnt then c.refcnt[n] > 1 else c.refcnt[n] == held[n] && Children(c.edges, n) == {}
  {
    assert n !in g.refcnt ==> Parents(g.edges, n) == {} && Children(g.edges, n) == {};
  }

  /** Dropping the last reference to a new node buries it; others lose one reference. */
  lemma CleanExact(g: Graph, c: Graph, n: nat, held: multiset<nat>, c': Graph)
    requires Inv(g, {}) && Inv(c, {}) && AsBefore(g, c, held) && n in held && n in c.refcnt && n in c.extra
    requires c.extra[n] > 0
    requires c.refcnt[n] > 1 ==> c' == Less(c, n)
    requires c.refcnt[n] == 1 && Children(c.edges, n) == {} ==> c' == Bury(c, n).(backing := c.backing - {n})
    ensures AsBefore(g, c', held - multiset{n})
  {
    hide Inv, Children, Tally;
    CleanCount(g, c, n, held);
    if c.refcnt[n] > 1 {
      TallyLess(g.extra, c.extra, n, held);
    } else {
      TallyDrop(g.extra, c.extra, n, held);
      assert c.backing - {n} == c.backing;
    }
  }

  /** Every reference in `held` is there. */
  ghost predicate Covers(c: Graph, held: multiset<nat>) {
    forall n :: n in held ==> n in c.extra && held[n] <= c.extra[n]
  }

  /** The edges from outside are as in `es`. */
  ghost predicate SameOutside(es: Edges, c: Graph) {
    forall e :: e in es && es[e].owner < 0 ==> e in c.edges && c.edges[e] == es[e]
  }

  /** Of the edges `es`, those of nodes that are gone are gone, and no others. */
  ghost predicate OnlyEdges(es: Edges, c: Graph) {
    && (forall e :: e in c.edges ==> e in es && c.edges[e] == es[e])
    && (forall e :: e in es && es[e].owner in c.refcnt ==> e in c.edges)
  }

  lemma CleanKeeps(es: Edges, c: Graph, n: nat, held: multiset<nat>, c': Graph, bound: nat)
    requires Holds(c, n) && n in held && Covers(c, held) && SameOutside(es, c) && OnlyEdges(es, c) && Below(c, bound)
    requires Tidy(c)
    requires Inv(c', {}) && Kept(Less(c, n), c')
    ensures Covers(c', held - multiset{n}) && SameOutside(es, c') && OnlyEdges(es, c') && Below(c', bound) && Tidy(c')
  {
    hide Acyclic, Inv, BackingOk, OnlyEdges;
    AfterUnref(c, n, c');
    StillOnly(es, c, Less(c, n), c');
  }

  lemma StillOnly(es: Edges, c: Graph, c1: Graph, c': Graph)
    requires OnlyEdges(es, c) && c1.edges == c.edges && c1.refcnt.Keys == c.refcnt.Keys && Kept(c1, c')
    ensures OnlyEdges(es, c')
  {}

  lemma TallyCovers(x0: map<nat, nat>, c: Graph, held: multiset<nat>)
    requires Tally(x0, c.extra, held)
    ensures Covers(c, held)
  {}

  // ---------------------------------------------------------------- the foretelling

  /** The abort of some prepared action would end the program. */
  ghost predicate JammedIn(rs: seq<Request>, gs: seq<Graph>, sts: seq<ActionState>) {
    !Unjammed(gs, sts, 0) || exists m :: 0 <= m < |sts| && m < |rs| && !rs[m].regranted
  }

  /** What was foretold from sketch `k0` is what has happened in the first `i` actions or is foretold from
      `k` for the others. */
  ghost predicate Foretold(k0: Sketch, rs: seq<Request>, i: nat, k: Sketch, gs: seq<Graph>, sts: seq<ActionState>,
                           edges: set<nat>) {
    && i <= |rs| && (Passes(k0, rs) <==> Passes(k, rs[i..])) && (Breaks(k0, rs) <==> Breaks(k, rs[i..]))
    && (Loses(k0, rs, edges) <==> LostIn(gs, sts, edges) || Loses(k, rs[i..], edges))
    && (Jams(k0, rs) <==> JammedIn(rs, gs, sts) || Jams(k, rs[i..]))
  }

  lemma ForetoldStarts(k: Sketch, rs: seq<Request>, g: Graph, edges: set<nat>)
    ensures Foretold(k, rs, 0, k, [g], [], edges)
  {
    assert rs[0..] == rs;
  }

  lemma ForetoldMore(k0: Sketch, rs: seq<Request>, i: nat, k: Sketch, gs: seq<Graph>, sts: seq<ActionState>,
                     edges: set<nat>,
                     st: ActionState, c': Graph)
    requires Foretold(k0, rs, i, k, gs, sts, edges) && i < |rs| && Accepts(k, rs[i]) && |gs| == i + 1 && |sts| == i
    requires st.new_bs == Pick(k, rs[i]) && gs[i].edges == k.edges
    ensures Foretold(k0, rs, i + 1, Advance(k, rs[i]), gs + [c'], sts + [st], edges)
  {
    hide Accepts, Advance, Taken, Wrecks;
    var rest := rs[i..];
    var r := rs[i];
    AcceptsIsSafe(k, r);
    assert rest[0] == r && rest[1..] == rs[i + 1..];
    LostMore(gs, sts, edges, st, c');
    JammedMore(rs, gs, sts, st, c');
  }

  lemma AcceptsIsSafe(k: Sketch, r: Request)
    ensures !(Accepts(k, r) && Wrecks(k, r))
  {
    hide Reach, NoneFrozen;
  }

  lemma LostMore(gs: seq<Graph>, sts: seq<ActionState>, edges: set<nat>, st: ActionState, c': Graph)
    requires |gs| == |sts| + 1
    ensures LostIn(gs + [c'], sts + [st], edges) <==>
            LostIn(gs, sts, edges) || exists e :: e in edges && Taken(gs[|sts|].edges, st.new_bs, e)
  {
    hide Taken;
    var gs', sts' := gs + [c'], sts + [st];
    if m: nat, e: nat :| m < |sts| && m < |gs| && e in edges && Taken(gs[m].edges, sts[m].new_bs, e) {
      assert Taken(gs'[m].edges, sts'[m].new_bs, e);
    }
    if e :| e in edges && Taken(gs[|sts|].edges, st.new_bs, e) {
      assert Taken(gs'[|sts|].edges, sts'[|sts|].new_bs, e);
    }
  }

  lemma JammedMore(rs: seq<Request>, gs: seq<Graph>, sts: seq<ActionState>, st: ActionState, c': Graph)
    requires |gs| == |sts| + 1 && |sts| < |rs|
    ensures JammedIn(rs, gs + [c'], sts + [st]) <==>
            || JammedIn(rs, gs, sts) || !rs[|sts|].regranted
            || exists e :: Taken(gs[|sts|].edges, st.new_bs, e) && gs[|sts|].edges[e].frozen
  {
    var gs', sts' := gs + [c'], sts + [st];
    if m: nat, e: nat :| m < |sts| && Taken(gs[m].edges, sts[m].new_bs, e) && gs[m].edges[e].frozen {
      assert Taken(gs'[m].edges, sts'[m].new_bs, e);
    }
    if e :| Taken(gs[|sts|].edges, st.new_bs, e) && gs[|sts|].edges[e].frozen {
      assert Taken(gs'[|sts|].edges, sts'[|sts|].new_bs, e);
    }
    assert forall m :: 0 <= m < |sts| ==> gs'[m] == gs[m] && sts'[m] == sts[m];
  }

  lemma ForetoldEnds(k0: Sketch, rs: seq<Request>, i: nat, k: Sketch, gs: seq<Graph>, sts: seq<ActionState>,
                     edges: set<nat>)
    requires Foretold(k0, rs, i, k, gs, sts, edges)
    ensures i == |rs| ==> Passes(k0, rs) && !Breaks(k0, rs)
    ensures i < |rs| && !Accepts(k, rs[i]) ==> (Breaks(k0, rs) <==> Wrecks(k, rs[i]))
    ensures i < |rs| && !Accepts(k, rs[i]) ==>
              !Passes(k0, rs) && (Loses(k0, rs, edges) <==> LostIn(gs, sts, edges)) &&
              (Jams(k0, rs) <==> JammedIn(rs, gs, sts))
  {}

  /** Everything is done; nothing is; or the program ends, because a prepare step would close a cycle or an
      abort meets what it cannot undo. */
  datatype Outcome = Committed | RolledBack | Ended

  ghost function Foresee(k: Sketch, rs: seq<Request>): Outcome {
    if Passes(k, rs) then Committed else if Breaks(k, rs) || Jams(k, rs) then Ended else RolledBack
  }

  /** What has been foretold of the prepare steps and is known when they are over: `ok` if all have been
      prepared, `ended` if one ended the program. */
  ghost predicate Told(k0: Sketch, rs: seq<Request>, ok: bool, ended: bool, gs: seq<Graph>, sts: seq<ActionState>,
                       good: nat, edges: set<nat>) {
    && good <= |sts| && (ok <==> Passes(k0, rs)) && (ended <==> Breaks(k0, rs))
    && (!ok ==> (Loses(k0, rs, edges) <==> LostIn(gs, sts[..good], edges)))
    && (!ok ==> (Jams(k0, rs) <==> JammedIn(rs, gs, sts[..good]))) && !(ok && ended)
  }

  lemma ToldFacts(k0: Sketch, rs: seq<Request>, ok: bool, ended: bool, gs: seq<Graph>, sts: seq<ActionState>,
                  good: nat, edges: set<nat>)
    requires Told(k0, rs, ok, ended, gs, sts, good, edges) && good <= |sts|
    ensures (ok <==> Passes(k0, rs)) && (ended <==> Breaks(k0, rs)) && !(ok && ended)
    ensures !ok ==> (Loses(k0, rs, edges) <==> LostIn(gs, sts[..good], edges))
    ensures !ok ==> (Jams(k0, rs) <==> JammedIn(rs, gs, sts[..good]))
  {}

  lemma TellFailure(k0: Sketch, rs: seq<Request>, i: nat, k: Sketch, gs: seq<Graph>, sts: seq<ActionState>,
                    st: ActionState, ended: bool, edges: set<nat>)
    requires Foretold(k0, rs, i, k, gs, sts, edges) && |sts| == i
    requires i < |rs| && !Accepts(k, rs[i]) && (ended <==> Wrecks(k, rs[i]))
    ensures Told(k0, rs, false, ended, gs, sts + [st], i, edges)
  {
    hide Wrecks, Accepts;
    ForetoldEnds(k0, rs, i, k, gs, sts, edges);
    assert (sts + [st])[..i] == sts;
  }

  lemma TellSuccess(k0: Sketch, rs: seq<Request>, k: Sketch, gs: seq<Graph>, sts: seq<ActionState>, edges: set<nat>)
    requires Foretold(k0, rs, |rs|, k, gs, sts, edges) && |sts| == |rs|
    ensures Told(k0, rs, true, false, gs, sts, |sts|, edges)
  {
    ForetoldEnds(k0, rs, |rs|, k, gs, sts, edges);
  }

  lemma TidyAcyclic(g: Graph)
    requires Tidy(g)
    ensures Acyclic(g.edges)
  {}

  lemma IsPick(c: Graph, r: Request, n1: nat, st: ActionState, c': Graph)
    requires Step(c, st, c') && (st.new_bs >= 0 ==> Chosen(c, r, n1, st.new_bs))
    ensures st.new_bs == Pick(Draw(c, n1), r)
  {}

  /** `n` is the overlay that request `r` asks for. */
  ghost predicate Chosen(g: Graph, r: Request, unused: nat, n: int) {
    n == Pick(Draw(g, unused), r) && (r.overlay.OpenNode? ==> n in g.refcnt)
  }

  lemma UndoingUnjammed(gs: seq<Graph>, sts: seq<ActionState>, k: nat, c: Graph)
    requires Undoing(gs, sts, k, c)
    ensures Unjammed(gs, sts, k)
  {}

  lemma FewerJams(gs: seq<Graph>, sts: seq<ActionState>, i: nat)
    ensures Unjammed(gs, sts, 0) ==> Unjammed(gs, sts, i)
  {}

  /** No node that the requests name as an overlay has loose edges. */
  ghost predicate RequestsQuiet(es: Edges, rs: seq<Request>) {
    forall r :: r in rs && r.overlay.OpenNode? ==> !Loose(es, r.overlay.node)
  }

  /** What is known of action `i` after its prepare step. */
  ghost predicate Fits(r: Request, st: ActionState, one: bool, n0: nat) {
    && (st.appended <==> one) && (st.new_bs >= 0 ==> st.old_bs >= 0)
    && (st.new_bs >= 0 ==> if r.overlay.NewImage? then st.new_bs >= n0 else st.new_bs == r.overlay.node)
  }

  /** An action that is prepared on graph `g` has passed every check, and its overlay is laid over the node that
      the request names. */
  ghost predicate Does(r: Request, st: ActionState, g: Graph) {
    && r.modeOk && r.ready && r.idle && r.supported && r.granted && r.granted2
    && (match r.target
        case ByNode(node) => st.old_bs == node && node in g.refcnt
        case ByDevice(root) => root in g.edges && g.edges[root].owner < 0 && st.old_bs == g.edges[root].bs)
    && (match r.overlay
        case NewImage => r.openOk && st.new_bs !in g.refcnt
        case OpenNode(node) => st.new_bs == node && node in g.refcnt)
  }

  lemma AcceptedDoes(g: Graph, unused: nat, r: Request, st: ActionState)
    requires Accepts(Draw(g, unused), r) && Below(g, unused)
    requires st.old_bs == Find(g.edges, g.refcnt.Keys, r.target) && st.new_bs == Pick(Draw(g, unused), r)
    ensures Does(r, st, g)
  {
    hide Reach, NoneFrozen;
  }

  /** Actions have been started on graph `g0`, of which the first `good` are prepared. */
  ghost predicate Started(rs: seq<Request>, sts: seq<ActionState>, gs: seq<Graph>, good: nat, g0: Graph, n0: nat,
                          c: Graph) {
    && good <= |sts| <= |rs| && |gs| == good + 1 && gs[0] == g0 && Prepared(gs, sts[..good], c)
    && (forall i :: 0 <= i < |sts| ==> Fits(rs[i], sts[i], i < good, n0))
    && (forall i :: 0 <= i < good ==> Does(rs[i], sts[i], gs[i]))
    && Tally(g0.extra, c.extra, Opens(sts)) && OldOrNew(g0, n0, Opens(sts))
  }

  lemma StartedNone(rs: seq<Request>, g: Graph, n0: nat)
    requires Tidy(g)
    ensures Started(rs, [], [g], 0, g, n0, g)
  {
    hide Tidy;
    TallySelf(g.extra);
  }

  lemma StartedMore(rs: seq<Request>, sts: seq<ActionState>, gs: seq<Graph>, g0: Graph, n0: nat,
                    c: Graph, st: ActionState, n1: nat, one: bool, c': Graph)
    requires |sts| < |rs| && Started(rs, sts, gs, |sts|, g0, n0, c) && gs[|sts|] == c && Tidy(g0) && Tidy(c) && Tidy(c')
    requires n0 <= n1
    requires Tally(c.extra, c'.extra, Of(st.new_bs))
    requires (st.new_bs >= 0 ==> st.old_bs >= 0 && Chosen(c, rs[|sts|], n1, st.new_bs))
    requires if one then Step(c, st, c') else !st.appended && c'.edges == c.edges && c'.backing == c.backing
    requires one ==> Does(rs[|sts|], st, c)
    ensures Started(rs, sts + [st], if one then gs + [c'] else gs, if one then |sts| + 1 else |sts|, g0, n0, c')
  {
    hide Tidy, Prepared, Tally, OldOrNew, Chain, StackedOk, Opens, Does;
    var sts' := sts + [st];
    OneMore(sts, st);
    TallyMore(g0.extra, c.extra, c'.extra, Opens(sts), Of(st.new_bs));
    ChosenTidy(g0, c, n0, n1, Opens(sts), rs[|sts|], st.new_bs);
    assert sts[..|sts|] == sts;
    assert sts'[..|sts|] == sts && sts'[..|sts| + 1] == sts';
    if one {
      PreparedMore(gs, sts, c, st, c');
    } else {
      PreparedStays(gs, sts, c, c', Of(st.new_bs));
    }
  }

  lemma ChosenTidy(g0: Graph, g: Graph, n0: nat, n1: nat, held: multiset<nat>, r: Request, n: int)
    requires Tidy(g0) && Tidy(g) && OldOrNew(g0, n0, held) && Tally(g0.extra, g.extra, held) && n0 <= n1
    requires n >= 0 ==> Chosen(g, r, n1, n)
    ensures OldOrNew(g0, n0, held + Of(n))
  {
    hide OldOrNew, Tally, Chosen, Of;
    ChosenIsOldOrNew(g0, g, n0, n1, held, r, n);
  }

  lemma BackwardNone(phase: Phase, count: nat)
    ensures Backward(phase, count, count) == []
  {}

  lemma BackwardMore(phase: Phase, count: nat, i: nat)
    requires i < count
    ensures Backward(phase, count, i) == Backward(phase, count, i + 1) + [Event(phase, i)]
  {}

  lemma NoneHeld(held: multiset<nat>)
    ensures multiset{} + held == held
  {}

  lemma OneHeld(c: Graph, n: nat, held: multiset<nat>)
    requires Inv(c, {}) && Covers(c, multiset{n} + held)
    ensures Holds(c, n) && n in multiset{n} + held && multiset{n} + held - multiset{n} == held
  {}

  lemma SameOutsideSelf(g: Graph)
    ensures SameOutside(g.edges, g) && OnlyEdges(g.edges, g)
  {}

  lemma NoOpens()
    ensures Opens([]) == multiset{} && Drains([]) == multiset{}
  {}

  lemma FirstOf(sts: seq<ActionState>, d: multiset<nat>)
    requires sts != []
    ensures Opens(sts) == Of(sts[0].new_bs) + Opens(sts[1..])
    ensures d + Drains(sts) - Of(sts[0].old_bs) == d + Drains(sts[1..])
  {}

  lemma StartedFacts(rs: seq<Request>, sts: seq<ActionState>, gs: seq<Graph>, good: nat, g0: Graph, n0: nat, c: Graph)
    requires Started(rs, sts, gs, good, g0, n0, c)
    ensures good <= |sts| <= |rs| && Prepared(gs, sts[..good], c) && Chain(gs, sts[..good]) && gs[0] == g0
    ensures c.edges == gs[good].edges && Covers(c, Opens(sts)) && Tally(g0.extra, c.extra, Opens(sts))
    ensures OldOrNew(g0, n0, Opens(sts))
    ensures forall i :: 0 <= i < |sts| ==>
              (sts[i].new_bs >= 0 ==> sts[i].old_bs >= 0) && (sts[i].appended <==> i < good)
    ensures forall i :: 0 <= i < |sts| ==> Fits(rs[i], sts[i], i < good, n0)
    ensures forall i :: 0 <= i < good ==> Does(rs[i], sts[i], gs[i])
  {
    hide Chain, Lasting, Seen, Does;
    TallyCovers(g0.extra, c, Opens(sts));
  }

  lemma UndoneAsBefore(gs: seq<Graph>, sts: seq<ActionState>, c: Graph, n0: nat, held: multiset<nat>)
    requires Undoing(gs, sts, 0, c) && Tally(gs[0].extra, c.extra, held) && OldOrNew(gs[0], n0, held)
    requires Below(gs[0], n0)
    ensures c.edges == gs[0].edges ==> AsBefore(gs[0], c, held)
    ensures c.edges.Keys == gs[0].edges.Keys
  {
    hide Chain, Lasting, Tidy, Tally, Within, Placed;
  }

  /** Edges and references decide the counts. */
  lemma SameGraph(g: Graph, c: Graph)
    requires Inv(g, {}) && Inv(c, {}) && AsBefore(g, c, multiset{})
    ensures c == g.(next := c.next)
  {
    assert c.extra == g.extra;
    assert c.refcnt == g.refcnt;
  }

  lemma Verdict(g0: Graph, quiet: bool, c: Graph, g: Graph)
    requires Inv(g0, {}) && Inv(g, {}) && OnlyEdges(c.edges, g) && (quiet ==> AsBefore(g0, g, multiset{}))
    requires c.edges.Keys == g0.edges.Keys && (quiet <==> c.edges == g0.edges)
    ensures g == g0.(next := g.next) <==> quiet
  {
    hide Inv, AsBefore;
    assert g.edges == g0.edges ==> c.edges == g.edges;
    if quiet {
      SameGraph(g0, g);
    }
  }

  /** Requests whose overlays are new, or have no edges that could move, lose nothing. */
  lemma RequestsSuffice(rs: seq<Request>, sts: seq<ActionState>, gs: seq<Graph>, g0: Graph, n0: nat, good: nat)
    requires good <= |sts| <= |rs| && (forall i :: 0 <= i < |sts| ==> Fits(rs[i], sts[i], i < good, n0))
    requires Tidy(g0) && Below(g0, n0) && Chain(gs, sts[..good]) && gs[0] == g0
    ensures RequestsQuiet(g0.edges, rs) ==> !LostIn(gs, sts[..good], g0.edges.Keys)
  {
    hide Acyclic, Step;
    if RequestsQuiet(g0.edges, rs) {
      forall m: nat, e: nat | m < good && e in g0.edges
        ensures !Taken(gs[m].edges, sts[m].new_bs, e)
      {
        if Taken(gs[m].edges, sts[m].new_bs, e) {
          assert sts[..good][m] == sts[m];
          assert TakenAt(gs, sts[..good], m, e, m);
          TakenFromStart(gs, sts[..good], m, e, m);
          NotQuiet(rs, sts[m], g0, n0, m, e);
        }
      }
    }
  }

  lemma NotQuiet(rs: seq<Request>, st: ActionState, g0: Graph, n0: nat, m: nat, e: nat)
    requires m < |rs| && Fits(rs[m], st, true, n0) && Inv(g0, {}) && Below(g0, n0) && Taken(g0.edges, st.new_bs, e)
    ensures !RequestsQuiet(g0.edges, rs)
  {
    assert rs[m] in rs;
  }

  // ---------------------------------------------------------------- transactions that succeed

  /** A blockdev-snapshot-sync in which every check passes, on a target that is there. */
  ghost predicate FreshSnapshot(r: Request, edges: Edges, nodes: set<nat>) {
    && r.overlay.NewImage? && r.modeOk && r.ready && r.openOk && r.idle && r.supported && r.granted && r.granted2
    && Find(edges, nodes, r.target) >= 0
  }

  /** Nothing is frozen, and the next image and edge are new. */
  ghost predicate Unfrozen(k: Sketch) {
    && (forall e :: e in k.edges ==> e < k.next && k.edges[e].bs in k.nodes && !k.edges[e].frozen)
    && (forall n :: n in k.nodes ==> n < k.unused) && (forall n :: n in k.backed ==> n < k.unused)
  }

  lemma {:induction false} FreshPasses(k: Sketch, rs: seq<Request>)
    requires Unfrozen(k) && forall i :: 0 <= i < |rs| ==> FreshSnapshot(rs[i], k.edges, k.nodes)
    ensures Passes(k, rs)
    decreases |rs|
  {
    if rs != [] {
      var r, n, top := rs[0], k.unused, Find(k.edges, k.nodes, rs[0].target);
      assert top in k.nodes;
      forall path
        ensures !Path(k.edges, top, path, n)
      {
        NoParents(k.edges, top, path, n);
      }
      assert Accepts(k, r);
      FreshAdvance(k, r, top);
      var k' := Advance(k, r);
      forall i | 0 <= i < |rs| - 1
        ensures FreshSnapshot(rs[1..][i], k'.edges, k'.nodes)
      {
        assert rs[1..][i] == rs[i + 1];
      }
      FreshPasses(k', rs[1..]);
    }
  }

  lemma FreshAdvance(k: Sketch, r: Request, top: nat)
    requires Unfrozen(k) && Accepts(k, r) && r.overlay.NewImage?
    requires top == Find(k.edges, k.nodes, r.target) && top in k.nodes
    ensures var k' := Advance(k, r);
            && Unfrozen(k') && k.nodes <= k'.nodes
            && (forall e :: e in k.edges ==> e in k'.edges && k'.edges[e].owner == k.edges[e].owner)
  {
    hide Reach, NoneFrozen, Stacked;
    StackedEdges(k.edges, k.unused, top, k.next);
  }

  /** While nothing is frozen, any number of snapshots to new images, on any nodes and devices that are there,
      whose checks pass, are all taken. */
  lemma FreshSnapshotsCommit(g: Graph, unused: nat, rs: seq<Request>)
    requires Tidy(g) && Below(g, unused) && forall e :: e in g.edges ==> !g.edges[e].frozen
    requires forall i :: 0 <= i < |rs| ==> FreshSnapshot(rs[i], g.edges, g.refcnt.Keys)
    ensures Foresee(Draw(g, unused), rs) == Committed
  {
    hide Acyclic;
    FreshPasses(Draw(g, unused), rs);
  }

  /** A blockdev-snapshot in which every check passes. */
  function Snapshot(target: Target, overlay: nat): Request {
    Request(target, OpenNode(overlay), true, true, true, true, true, true, true, true)
  }

  /** A user outside the graph on node 0, and node 2, held from outside, with backing node 1 over an edge
      that is frozen or not. */
  function Bystander(frozen: bool): Graph {
    Graph(map[0 := Edge(-1, 0, false, false), 1 := Edge(2, 1, false, frozen)], map[0 := 1, 1 := 1, 2 := 1],
          map[2 := 1], 2, map[0 := 0, 1 := 0, 2 := 1])
  }

  lemma BystanderIsTidy(frozen: bool)
    ensures Tidy(Bystander(frozen))
  {
    hide Reach;
    var g := Bystander(frozen);
    assert Parents(g.edges, 0) == {0} && Parents(g.edges, 1) == {1} && Parents(g.edges, 2) == {};
    NoChildren(g.edges, 1, 2);
  }

  /** Node 1 is laid over node 0 and the second action fails: the rollback does not give node 2 its backing
      node back; if that edge is frozen, the program ends. */
  lemma BystanderIsLost(frozen: bool, bad: Request)
    requires !bad.modeOk
    ensures Tidy(Bystander(frozen)) && Below(Bystander(frozen), 3)
    ensures var k, rs := Draw(Bystander(frozen), 3), [Snapshot(ByDevice(0), 1), bad];
            Foresee(k, rs) == (if frozen then Ended else RolledBack) && Loses(k, rs, k.edges.Keys)
  {
    hide Tidy, Reach;
    var g := Bystander(frozen);
    var k, r := Draw(g, 3), Snapshot(ByDevice(0), 1);
    BystanderIsTidy(frozen);
    NoChildren(g.edges, 0, 1);
    assert Accepts(k, r);
    assert Taken(k.edges, 1, 1);
    assert [r, bad][1..] == [bad];
    assert !Accepts(Advance(k, r), bad);
    AcceptsIsSafe(k, r);
    assert !Passes(Advance(k, r), [bad]) && !Jams(Advance(k, r), [bad]) && !Breaks(Advance(k, r), [bad]);
  }

  /** Node 0, held from outside, with backing node 1. */
  const PAIR := Graph(map[0 := Edge(0, 1, false, false)], map[0 := 1, 1 := 1], map[0 := 0], 1, map[0 := 1, 1 := 0])

  /** Laying node 1 over node 0, to which it is the backing node, or over itself, ends the program. */
  lemma OverlayBelowItsNode(top: nat)
    requires top <= 1
    ensures Tidy(PAIR) && Below(PAIR, 2)
    ensures Foresee(Draw(PAIR, 2), [Snapshot(ByNode(top), 1)]) == Ended
  {
    hide Reach;
    var k, r := Draw(PAIR, 2), Snapshot(ByNode(top), 1);
    assert Parents(PAIR.edges, 0) == {} && Parents(PAIR.edges, 1) == {0};
    NoChildren(PAIR.edges, 1, 0);
    ReachSelf(PAIR.edges, 1);
    ReachFirst(PAIR.edges, 0, 1);
    AcceptsIsSafe(k, r);
    assert Wrecks(k, r);
  }

  // ---------------------------------------------------------------- the transaction

  class Transaction {
    const graph: BlockGraph
    var nextNode: nat                  // no node has this number or a greater one
    var states: seq<ActionState>
    var drained: multiset<nat>         // quiesce counters
    ghost var log: seq<Event>

    ghost predicate Valid()
      reads this, graph
    {
      Tidy(graph.G()) && Below(graph.G(), nextNode)
    }

    constructor (graph: BlockGraph, nextNode: nat)
      requires Tidy(graph.G()) && Below(graph.G(), nextNode)
      ensures Valid() && this.graph == graph && states == [] && log == [] && drained == multiset{}
    {
      this.graph, this.nextNode := graph, nextNode;
      states, drained, log := [], multiset{}, [];
    }

    /** bdrv_open */
    method OpenOverlay(r: Request) returns (n: int)
      requires Valid()
      modifies this`nextNode, graph
      ensures Valid() && graph.edges == old(graph.edges) && graph.backing == old(graph.backing)
      ensures n >= 0 ==> Holds(graph.G(), n) && graph.refcnt.Keys == old(graph.refcnt.Keys) + {n}
      ensures n == if r.overlay.NewImage? then (if r.openOk then old(nextNode) else -1)
                   else if r.overlay.node in old(graph.refcnt) then r.overlay.node else -1
      ensures n < 0 ==> graph.G() == old(graph.G())
      ensures graph.nextEdge == old(graph.nextEdge)
      ensures Tally(old(graph.extra), graph.extra, Of(n))
      ensures nextNode == if r.overlay.NewImage? && r.openOk then old(nextNode) + 1 else old(nextNode)
    {
      hide Inv, BackingOk, Acyclic, Tally, Below;
      ghost var g := graph.G();
      TallySelf(graph.extra);
      n := -1;
      match r.overlay {
        case NewImage =>
          if r.openOk {
            n := nextNode;
            OpenedTidy(g, n);
            nextNode := nextNode + 1;
            graph.Open(n);
          }
        case OpenNode(node) =>
          if node in graph.refcnt {
            n := node;
            MoreTidy(g, node, nextNode);
            graph.Ref(node);
          }
      }
    }

    /** The second half of external_snapshot_prepare.  Attaching the drained node to an overlay that it leads
        to fails an assertion, and the program has `ended`; the drain that counts is that of this action, any
        other only adds to it. */
    method LayOver(r: Request, top: nat) returns (ok: bool, ended: bool, n: int)
      requires Valid() && top in graph.refcnt
      modifies this`nextNode, graph
      ensures Valid() && Tally(old(graph.extra), graph.extra, Of(n)) && nextNode >= old(nextNode)
      ensures ok <==> CanLayOver(Draw(old(graph.G()), old(nextNode)), r, top)
      ensures ended <==> MayAttach(Draw(old(graph.G()), old(nextNode)), r) &&
                         Reach(old(graph.edges), top, Pick(Draw(old(graph.G()), old(nextNode)), r))
      ensures n >= 0 ==> Chosen(old(graph.G()), r, old(nextNode), n)
      ensures ok ==> Step(old(graph.G()), ActionState(top, n, true), graph.G())
      ensures ok ==> Draw(graph.G(), nextNode) == Laid(Draw(old(graph.G()), old(nextNode)), r, top)
      ensures !ok ==> graph.edges == old(graph.edges) && graph.backing == old(graph.backing)
    {
      hide Tidy, NoneFrozen, Reach, Tally, Below, Stacked;
      n := OpenOverlay(r);
      if n < 0 {
        return false, false, n;
      }
      if !r.idle {
        return false, false, n;
      }
      if n in graph.backing || !r.supported {
        return false, false, n;
      }
      if r.granted {
        TidyAcyclic(graph.G());
        var drains := new QuiesceCounters(graph.edges);
        var holds := drains.DrainAndAttach(n, top);
        if !holds {
          return false, true, n;
        }
      }
      ended := false;
      ghost var g := graph.G();
      ok := AppendOverlay(graph, n, top, r.granted, r.granted2);
      StillBelow(g, graph.G(), n, nextNode);
    }

    /** external_snapshot_prepare */
    method PrepareAction(r: Request) returns (ok: bool, ended: bool, st: ActionState)
      requires Valid()
      modifies this, graph
      ensures Valid() && states == old(states) && log == old(log) && nextNode >= old(nextNode)
      ensures drained == old(drained) + Of(st.old_bs) && Tally(old(graph.extra), graph.extra, Of(st.new_bs))
      ensures ok <==> Accepts(Draw(old(graph.G()), old(nextNode)), r)
      ensures ended <==> Wrecks(Draw(old(graph.G()), old(nextNode)), r)
      ensures st.old_bs == if r.modeOk then Find(old(graph.edges), old(graph.refcnt).Keys, r.target) else -1
      ensures st.new_bs >= 0 ==> st.old_bs >= 0 && Chosen(old(graph.G()), r, old(nextNode), st.new_bs)
      ensures ok ==> Step(old(graph.G()), st, graph.G())
      ensures ok ==> Draw(graph.G(), nextNode) == Advance(Draw(old(graph.G()), old(nextNode)), r)
      ensures !ok ==> !st.appended && graph.edges == old(graph.edges) && graph.backing == old(graph.backing)
    {
      hide Tidy, Step, Tally, Below, Find, CanLayOver, MayAttach, Laid;
      TallySelf(graph.extra);
      st := ActionState(-1, -1, false);
      if !r.modeOk {
        return false, false, st;
      }
      var top := Find(graph.edges, graph.refcnt.Keys, r.target);
      if top < 0 {
        return false, false, st;
      }
      FindIsLive(graph.G(), r.target);
      st := st.(old_bs := top);
      drained := drained + multiset{top};
      if !r.ready {
        return false, false, st;
      }
      var n;
      ok, ended, n := LayOver(r, top);
      st := st.(new_bs := n, appended := ok);
    }

    /** The first loop of qmp_transaction: `gs` are the graphs between the steps, `good` the number
        of actions that could be prepared. */
    method PrepareAll(requests: seq<Request>) returns (ok: bool, ended: bool, ghost gs: seq<Graph>, ghost good: nat)
      requires Valid() && states == [] && log == []
      modifies this, graph
      ensures Valid() && log == Forward(Prepare, |states|) && drained == old(drained) + Drains(states)
      ensures Started(requests, states, gs, good, old(graph.G()), old(nextNode), graph.G())
      ensures if ok then good == |states| == |requests| else good + 1 == |states|
      ensures Told(Draw(old(graph.G()), old(nextNode)), requests, ok, ended, gs, states, good, old(graph.edges).Keys)
    {
      hide Tidy, Started, Below, Step, Accepts, Wrecks, Drains, Forward, Chosen, Tally, Of, Find, Foretold, Told;
      hide Advance, Does;
      ghost var g0, n0, d0 := graph.G(), nextNode, drained;
      ghost var k0, edges := Draw(g0, n0), graph.edges.Keys;
      gs := [g0];
      StartedNone(requests, g0, n0);
      ForetoldStarts(k0, requests, g0, edges);
      NoneYet(Prepare, d0);
      var i := 0;
      while i < |requests|
        invariant 0 <= i == |states| <= |requests| && |gs| == i + 1 && gs[i] == graph.G()
        invariant Tidy(graph.G()) && Below(graph.G(), nextNode) && nextNode >= n0
        invariant Started(requests, states, gs, i, g0, n0, graph.G())
        invariant Foretold(k0, requests, i, Draw(graph.G(), nextNode), gs, states, edges)
        invariant log == Forward(Prepare, i) && drained == d0 + Drains(states)
      {
        ghost var c, n1 := graph.G(), nextNode;
        var one, wrecked, st := PrepareAction(requests[i]);
        if one {
          IsPick(c, requests[i], n1, st, graph.G());
          AcceptedDoes(c, n1, requests[i], st);
        }
        StartedMore(requests, states, gs, g0, n0, c, st, n1, one, graph.G());
        DrainMore(d0, states, st);
        ForwardMore(Prepare, i);
        log := log + [Event(Prepare, i)];
        if !one {
          TellFailure(k0, requests, i, Draw(c, n1), gs, states, st, wrecked, edges);
          states := states + [st];
          return false, wrecked, gs, i;
        }
        ForetoldMore(k0, requests, i, Draw(c, n1), gs, states, edges, st, graph.G());
        states := states + [st];
        gs := gs + [graph.G()];
        i := i + 1;
      }
      TellSuccess(k0, requests, Draw(graph.G(), nextNode), gs, states, edges);
      return true, false, gs, i;
    }

    /** external_snapshot_abort; without success the program ends */
    method AbortAction(st: ActionState, granted: bool) returns (ok: bool)
      requires Valid()
      requires st.appended ==> st.new_bs >= 0 && st.old_bs >= 0 && Hangs(graph.G(), st.new_bs, st.old_bs)
      modifies graph
      ensures !st.appended ==> ok && graph.G() == old(graph.G())
      ensures st.appended ==>
                (ok <==> granted && NoneFrozen(old(graph.edges) - {old(graph.backing)[st.new_bs]}, st.new_bs,
                                               st.old_bs))
      ensures ok ==> Valid() && graph.extra == old(graph.extra)
      ensures ok && st.appended ==> graph.backing == old(graph.backing) - {st.new_bs}
      ensures ok && st.appended ==>
                graph.edges == Undone(old(graph.edges), st.new_bs, st.old_bs, old(graph.backing)[st.new_bs])
    {
      hide Tidy, Undone, NoneFrozen, Parents, Referred;
      ok := true;
      if st.new_bs >= 0 {
        if st.appended {
          ok := Undo(graph, st.new_bs, st.old_bs, granted);
        }
      }
    }

    /** The loop at delete_and_fail in qmp_transaction. */
    method AbortAll(requests: seq<Request>, ghost gs: seq<Graph>, ghost good: nat) returns (ok: bool)
      requires Valid() && good <= |states| <= |requests| && Undoing(gs, states[..good], good, graph.G())
      requires forall i :: 0 <= i < |states| ==> (states[i].appended <==> i < good)
      modifies this`log, graph
      ensures ok <==> !JammedIn(requests, gs, states[..good])
      ensures ok ==> Valid() && Undoing(gs, states[..good], 0, graph.G()) && graph.extra == old(graph.extra)
      ensures ok ==> log == old(log) + Backward(Abort, |states|, 0)
    {
      hide Tidy, Below, Undoing, Hangs, Undone, Backward, Unjammed, AllPlaced, NoneFrozen;
      var i := |states|;
      ghost var sts := states[..good];
      BackwardNone(Abort, |states|);
      UndoingUnjammed(gs, sts, good, graph.G());
      while i > 0
        invariant 0 <= i <= |states|
        invariant Tidy(graph.G()) && Below(graph.G(), nextNode) && graph.extra == old(graph.extra)
        invariant Undoing(gs, sts, if i < good then i else good, graph.G())
        invariant forall m :: i <= m < good ==> requests[m].regranted
        invariant log == old(log) + Backward(Abort, |states|, i)
      {
        i := i - 1;
        ghost var c := graph.G();
        if i < good {
          assert sts[i] == states[i];
          UndoingStep(gs, sts, i + 1, c);
        }
        ok := AbortAction(states[i], requests[i].regranted);
        if !ok {
          FewerJams(gs, sts, i);
          return;
        }
        if i < good {
          UndoingNext(gs, sts, i, c, graph.G());
        }
        BackwardMore(Abort, |states|, i);
        log := log + [Event(Abort, i)];
      }
      UndoingUnjammed(gs, sts, 0, graph.G());
      ok := true;
    }

    /** The loop over the commit steps, which do not touch the graph. */
    method CommitAll()
      modifies this`log
      ensures log == old(log) + Forward(Commit, |states|)
    {
      var i := 0;
      while i < |states|
        invariant 0 <= i <= |states| && log == old(log) + Forward(Commit, i)
      {
        ForwardMore(Commit, i);
        log := log + [Event(Commit, i)];
        i := i + 1;
      }
    }

    /** external_snapshot_clean */
    method CleanAction(st: ActionState, ghost held: multiset<nat>, ghost es: Edges, ghost g: Graph, ghost exact: bool)
      requires Valid() && (st.new_bs >= 0 ==> st.old_bs >= 0) && Covers(graph.G(), Of(st.new_bs) + held)
      requires SameOutside(es, graph.G()) && OnlyEdges(es, graph.G())
      requires exact ==> Inv(g, {}) && AsBefore(g, graph.G(), Of(st.new_bs) + held)
      modifies this`drained, graph
      ensures Valid() && Covers(graph.G(), held) && SameOutside(es, graph.G()) && OnlyEdges(es, graph.G())
      ensures exact ==> AsBefore(g, graph.G(), held)
      ensures drained == old(drained) - Of(st.old_bs)
    {
      hide Below, Inv, BackingOk, Acyclic, Covers, SameOutside, OnlyEdges, AsBefore, Kept, OnlyBelow, Children;
      if st.old_bs < 0 {
        NoneHeld(held);
        return;
      }
      drained := drained - multiset{st.old_bs};
      if st.new_bs >= 0 {
        var n: nat := st.new_bs;
        ghost var c := graph.G();
        OneHeld(c, n, held);
        graph.Unref(n, {});
        CleanKeeps(es, c, n, multiset{n} + held, graph.G(), nextNode);
        if exact {
          CleanExact(g, c, n, multiset{n} + held, graph.G());
        }
        assert multiset{n} + held - multiset{n} == held;
      } else {
        NoneHeld(held);
      }
    }

    /** The loop at exit in qmp_transaction. */
    method CleanAll(ghost d: multiset<nat>, ghost g: Graph, ghost exact: bool)
      requires Valid() && Covers(graph.G(), Opens(states)) && drained == d + Drains(states)
      requires forall i :: 0 <= i < |states| ==> (states[i].new_bs >= 0 ==> states[i].old_bs >= 0)
      requires exact ==> Inv(g, {}) && AsBefore(g, graph.G(), Opens(states))
      modifies this`log, this`drained, graph
      ensures Valid() && SameOutside(old(graph.edges), graph.G()) && OnlyEdges(old(graph.edges), graph.G())
      ensures drained == d
      ensures exact ==> AsBefore(g, graph.G(), multiset{})
      ensures log == old(log) + Forward(Clean, |states|)
    {
      hide Tidy, Below, Inv, Covers, AsBefore, Opens, Drains, Forward, Of, SameOutside, OnlyEdges;
      ghost var es := graph.edges;
      SameOutsideSelf(graph.G());
      var i := 0;
      assert states[0..] == states;
      NoneYet(Clean, d);
      while i < |states|
        invariant 0 <= i <= |states|
        invariant Tidy(graph.G()) && Below(graph.G(), nextNode) && SameOutside(es, graph.G())
        invariant OnlyEdges(es, graph.G())
        invariant Covers(graph.G(), Opens(states[i..])) && drained == d + Drains(states[i..])
        invariant exact ==> AsBefore(g, graph.G(), Opens(states[i..]))
        invariant log == old(log) + Forward(Clean, i)
      {
        assert states[i..][1..] == states[i + 1..];
        FirstOf(states[i..], d);
        CleanAction(states[i], Opens(states[i + 1..]), es, g, exact);
        ForwardMore(Clean, i);
        log := log + [Event(Clean, i)];
        i := i + 1;
      }
      assert states[i..] == [];
      NoOpens();
    }

    /** qmp_transaction over external snapshots.  `gs` are the graphs between the prepare steps. */
    method Run(requests: seq<Request>) returns (outcome: Outcome, ghost gs: seq<Graph>)
      requires Valid()
      modifies this, graph
      // the outcome can be told from the graph and the requests
      ensures outcome == Foresee(Draw(old(graph.G()), old(nextNode)), requests)
      ensures outcome != Ended ==> Valid() && drained == old(drained) && |states| <= |requests|
      // every started action is prepared, then committed or aborted in reverse order, then cleaned
      ensures outcome == Committed ==>
                log == Forward(Prepare, |states|) + Forward(Commit, |states|) + Forward(Clean, |states|)
      ensures outcome == RolledBack ==>
                log == Forward(Prepare, |states|) + Backward(Abort, |states|, 0) + Forward(Clean, |states|)
      // all or nothing
      ensures outcome == Committed ==>
                && |states| == |requests| && Chain(gs, states) && gs[0] == old(graph.G())
                && SameOutside(gs[|states|].edges, graph.G()) && OnlyEdges(gs[|states|].edges, graph.G())
                && forall i :: 0 <= i < |states| ==> Does(requests[i], states[i], gs[i])
      ensures outcome == RolledBack ==>
                (graph.G() == old(graph.G()).(next := graph.nextEdge) <==>
                   !Loses(Draw(old(graph.G()), old(nextNode)), requests, old(graph.edges).Keys))
      ensures outcome == RolledBack && RequestsQuiet(old(graph.edges), requests) ==>
                graph.G() == old(graph.G()).(next := graph.nextEdge)
    {
      hide Tidy, Below, Started, Chain, SameOutside, Drains, Forward, Backward, RequestsQuiet, Prepared, Tally;
      hide OldOrNew;
      hide Does, Opens, Covers, Fits, Told, Loses, Passes, Jams, Breaks, LostIn, JammedIn, OnlyEdges;
      ghost var g0, n0, d0 := graph.G(), nextNode, drained;
      states, log := [], [];
      ghost var good;
      var ok, ended;
      ok, ended, gs, good := PrepareAll(requests);
      StartedFacts(requests, states, gs, good, g0, n0, graph.G());
      ToldFacts(Draw(g0, n0), requests, ok, ended, gs, states, good, g0.edges.Keys);
      if ended {
        return Ended, gs;
      }
      if ok {
        assert states[..good] == states;
        CommitAll();
        CleanAll(d0, g0, false);
        outcome := Committed;
      } else {
        ok := RollBack(requests, gs, good, d0, g0, n0);
        outcome := if ok then RolledBack else Ended;
        RequestsSuffice(requests, states, gs, g0, n0, good);
      }
    }

    /** The failure path of qmp_transaction, on graph `g` before the first action. */
    method RollBack(requests: seq<Request>, ghost gs: seq<Graph>, ghost good: nat, ghost d: multiset<nat>,
                    ghost g: Graph, ghost n0: nat)
      returns (ok: bool)
      requires Valid() && good <= |states| <= |requests| && Prepared(gs, states[..good], graph.G()) && gs[0] == g
      requires drained == d + Drains(states)
      requires forall i :: 0 <= i < |states| ==>
                 (states[i].new_bs >= 0 ==> states[i].old_bs >= 0) && (states[i].appended <==> i < good)
      requires Tally(g.extra, graph.extra, Opens(states)) && OldOrNew(g, n0, Opens(states)) && Below(g, n0) && Tidy(g)
      modifies this`log, this`drained, graph
      ensures ok <==> !JammedIn(requests, gs, states[..good])
      ensures ok ==>
                Valid() && drained == d && log == old(log) + Backward(Abort, |states|, 0) + Forward(Clean, |states|)
      ensures ok ==> (graph.G() == g.(next := graph.nextEdge) <==> !LostIn(gs, states[..good], g.edges.Keys))
    {
      hide BackingOk, Acyclic, Wired, Below, Undoing, SameOutside, OnlyEdges, AsBefore, Covers;
      hide Drains, Forward, Backward, LostIn, JammedIn, Prepared, Tally, OldOrNew, Opens;
      UndoingStarts(gs, states[..good], graph.G());
      ok := AbortAll(requests, gs, good);
      if !ok {
        return;
      }
      ghost var c := graph.G();
      ghost var quiet := !LostIn(gs, states[..good], g.edges.Keys);
      AllUndone(gs, states[..good], c);
      UndoneAsBefore(gs, states[..good], c, n0, Opens(states));
      TallyCovers(g.extra, c, Opens(states));
      CleanAll(d, g, quiet);
      Verdict(g, quiet, c, graph.G());
    }
  }
}
