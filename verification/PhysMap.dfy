/** The page map of one dispatch table: the root entry and the arena of nodes, written in place. */
module PhysMaps {
  import opened Bits
  import opened PageTree

  class PhysMap {
    const levels: nat          // P_L2_LEVELS
    var root: Entry            // phys_map
    var nodes: seq<Node>       // map.nodes[..nodes_nb]
    var nodesAlloc: nat        // map.nodes_nb_alloc
    var allocHint: nat         // alloc_hint
    ghost var pos: seq<Pos>    // what each node stands for, while the tree is being built

    ghost predicate Built(leaves: set<nat>)
      reads this
    {
      && |nodes| <= nodesAlloc
      && Building(nodes, pos, leaves)
      && ChildOk(root, pos, levels, 0, leaves)
      && root.skip == 1
    }

    ghost predicate LocOk(lp: Loc, i: nat, q: nat)
      reads this
    {
      match lp
      case Root => i == levels && q == 0
      case At(n, k) => n < |nodes| == |pos| && k < P_L2_SIZE && pos[n].level == i && q == pos[n].prefix * P_L2_SIZE + k
    }

    function Get(lp: Loc): Entry
      requires lp.At? ==> lp.n < |nodes| && lp.k < P_L2_SIZE
      reads this
    {
      match lp
      case Root => root
      case At(n, k) => nodes[n][k]
    }

    constructor (levels: nat)
      requires levels > 0
      ensures this.levels == levels && root == NilEntry && nodes == [] && pos == [] && nodesAlloc == 0
      ensures allocHint == 16
    {
      this.levels := levels;
      root := NilEntry;
      nodes, nodesAlloc, allocHint, pos := [], 0, 16, [];
    }

    method Put(lp: Loc, e: Entry)
      requires lp.At? ==> lp.n < |nodes| && lp.k < P_L2_SIZE
      modifies this`root, this`nodes
      ensures match lp
              case Root => root == e && nodes == old(nodes)
              case At(n, k) => root == old(root) && nodes == Update(old(nodes), n, k, e)
    {
      match lp {
        case Root => root := e;
        case At(n, k) => nodes := Update(nodes, n, k, e);
      }
    }

    /** phys_map_node_reserve */
    method NodeReserve(count: nat)
      modifies this`nodesAlloc, this`allocHint
      ensures nodesAlloc >= |nodes| + count && nodesAlloc >= old(nodesAlloc)
      ensures |nodes| + count <= old(nodesAlloc) ==> nodesAlloc == old(nodesAlloc) && allocHint == old(allocHint)
      ensures nodesAlloc > old(nodesAlloc) ==> allocHint == nodesAlloc >= old(allocHint)
    {
      if |nodes| + count > nodesAlloc {
        nodesAlloc := if allocHint > |nodes| + count then allocHint else |nodes| + count;
        allocHint := nodesAlloc;
      }
    }

    /** phys_map_node_alloc; both of its assertions are preconditions here. */
    method NodeAlloc(leaf: bool, ghost p: Pos) returns (ret: nat)
      requires |nodes| < PHYS_MAP_NODE_NIL
      requires |nodes| < nodesAlloc
      modifies this`nodes, this`pos
      ensures ret == old(|nodes|) && nodes == old(nodes) + [EmptyNode(leaf)] && pos == old(pos) + [p]
    {
      ret := |nodes|;
      var e := if leaf then Entry(0, PHYS_SECTION_UNASSIGNED) else Entry(1, PHYS_MAP_NODE_NIL);
      var node: Node := seq(P_L2_SIZE, _ => e);
      assert node == EmptyNode(leaf);
      nodes := nodes + [node];
      pos := pos + [p];
    }

    /** The allocating prologue of phys_page_set_level. */
    method EnsureNode(lp: Loc, level: nat, ghost leaves: set<nat>, ghost q: nat)
      requires Built(leaves) && LocOk(lp, level + 1, q) && Get(lp).skip == 1
      requires |nodes| < nodesAlloc && |nodes| < PHYS_MAP_NODE_NIL
      modifies this`root, this`nodes, this`pos
      ensures Built(leaves) && LocOk(lp, level + 1, q)
      ensures old(|nodes|) <= |nodes| <= old(|nodes|) + 1 && old(pos) <= pos
      ensures Get(lp).skip == 1 && Get(lp).ptr < |nodes| && Get(lp).ptr != PHYS_MAP_NODE_NIL
      ensures SameOutside(old(nodes), nodes, old(pos), leaves, level + 1, q)
      ensures Filled(old(nodes), old(Get(lp)), nodes, Get(lp), level + 1, q, 0, 0, 0)
      ensures lp.At? ==> root == old(root)
      ensures SameAbove(old(nodes), nodes, old(pos), level + 1)
    {
      var e := Get(lp);
      if e.ptr == PHYS_MAP_NODE_NIL {
        ghost var nodes0, pos0 := nodes, pos;
        var ret := NodeAlloc(level == 0, Pos(level, q));
        Put(lp, Entry(1, ret));
        HangNode(nodes0, pos0, leaves, lp, level, q);
        HungFilled(nodes0, nodes, e, Entry(1, ret), level, q);
      }
    }

    /** One round of the loop of phys_page_set_level: child `k` of node `p` becomes a leaf if the
        pages left to fill cover its block, and is filled recursively otherwise. */
    method SetChild(p: nat, k: nat, index0: nat, nb0: nat, leaf: nat, level: nat, ghost leaves: set<nat>, ghost q: nat)
      returns (index: nat, nb: nat)
      requires Built(leaves) && p < |nodes| && k < P_L2_SIZE && pos[p] == Pos(level, q)
      requires Shift(index0, level) == q * P_L2_SIZE + k && nb0 > 0
      requires leaf != PHYS_SECTION_UNASSIGNED && leaf in leaves
      requires Unassigned(nodes, nodes[p][k], level, q * P_L2_SIZE + k, index0, index0 + nb0)
      requires |nodes| + CostOfChild(level, index0, nb0, q * P_L2_SIZE + k) <= nodesAlloc
      requires |nodes| + CostOfChild(level, index0, nb0, q * P_L2_SIZE + k) <= PHYS_MAP_NODE_NIL
      modifies this`root, this`nodes, this`pos
      ensures Built(leaves) && old(pos) <= pos && root == old(root)
      ensures old(|nodes|) <= |nodes| <= old(|nodes|) + CostOfChild(level, index0, nb0, q * P_L2_SIZE + k)
      ensures index == Min(index0 + nb0, Lo(q * P_L2_SIZE + k + 1, level)) && index + nb == index0 + nb0
      ensures index > index0
      ensures SameOutside(old(nodes), nodes, old(pos), leaves, level, q * P_L2_SIZE + k)
      ensures Filled(old(nodes), old(nodes)[p][k], nodes, nodes[p][k], level, q * P_L2_SIZE + k, index0, index, leaf)
      ensures SameAbove(old(nodes), nodes, old(pos), level)
      decreases level, 0
    {
      index, nb := index0, nb0;
      var step := Lo(1, level);
      BlockStep(level, q, k);
      ShiftRange(index, level, q * P_L2_SIZE + k);
      if index == Lo(Shift(index, level), level) && nb >= step {
        LeafStep(nodes, pos, leaves, p, k, leaf);
        nodes := Update(nodes, p, k, Entry(0, leaf));
        index, nb := index + step, nb - step;
      } else {
        NotALeaf(nodes, pos, leaves, p, k, index);
        index, nb := SetLevel(At(p, k), index, nb, leaf, level - 1, leaves, q * P_L2_SIZE + k);
      }
    }

    /** phys_page_set_level: fill pages `index0 .. index0 + nb0` of the block below `lp`.
        The entry at `lp` is never an existing leaf. */
    method SetLevel(lp: Loc, index0: nat, nb0: nat, leaf: nat, level: nat, ghost leaves: set<nat>, ghost q: nat)
      returns (index: nat, nb: nat)
      requires Built(leaves) && LocOk(lp, level + 1, q) && Get(lp).skip == 1
      requires Shift(index0, level + 1) == q && nb0 > 0
      requires leaf != PHYS_SECTION_UNASSIGNED && leaf in leaves
      requires Unassigned(nodes, Get(lp), level + 1, q, index0, index0 + nb0)
      requires |nodes| + Cost(level, index0, nb0, q) <= nodesAlloc
      requires |nodes| + Cost(level, index0, nb0, q) <= PHYS_MAP_NODE_NIL
      modifies this`root, this`nodes, this`pos
      ensures Built(leaves) && LocOk(lp, level + 1, q) && Get(lp).skip == 1
      ensures old(|nodes|) <= |nodes| <= old(|nodes|) + Cost(level, index0, nb0, q) && old(pos) <= pos
      ensures index == Min(index0 + nb0, Lo(q + 1, level + 1)) && index + nb == index0 + nb0
      ensures SameOutside(old(nodes), nodes, old(pos), leaves, level + 1, q)
      ensures Filled(old(nodes), old(Get(lp)), nodes, Get(lp), level + 1, q, index0, index, leaf)
      ensures lp.At? ==> root == old(root)
      ensures SameAbove(old(nodes), nodes, old(pos), level + 1)
      decreases level, 1
    {
      hide SameOutside, Filled, Unassigned, Progress, PageTree.Cost, CostOfChild, Lo, Shift, Min;
      index, nb := index0, nb0;
      ghost var nodes0, pos0, e0 := nodes, pos, Get(lp);
      EnsureNode(lp, level, leaves, q);
      var e := Get(lp);
      var p := e.ptr;
      var k: nat := Digit(index, level);
      ghost var s := Span(level, q, k, index0, index0 + nb0);
      StartProgress(s, nodes0, e0, nodes, e, leaf);
      while nb > 0 && k < P_L2_SIZE
        invariant index + nb == index0 + nb0 == s.end && k <= P_L2_SIZE && |nodes0| <= |nodes|
        invariant Built(leaves) && LocOk(lp, level + 1, q) && pos0 <= pos
        invariant Get(lp) == e && p < |nodes| && pos[p] == Pos(level, q)
        invariant lp.At? ==> root == old(root)
        invariant SameOutside(nodes0, nodes, pos0, leaves, level + 1, q)
        invariant SameAbove(nodes0, nodes, pos0, level + 1)
        invariant Progress(s, nodes0, e0, nodes, e, k, index, leaf)
      {
        ghost var nodes1, pos1, k1, index1, nb1 := nodes, pos, k, index, nb;
        BeforeChild(s, nodes0, e0, nodes, e, k, index, nb, leaf);
        index, nb := SetChild(p, k, index, nb, leaf, level, leaves, q);
        k := k + 1;
        OutsideCompose(nodes0, nodes1, nodes, pos0, pos1, leaves, level, q, k1);
        AfterChild(s, nodes0, e0, nodes1, pos1, leaves, nodes, e, k1, index1, nb1, index, leaf);
      }
      EndProgress(s, nodes0, e0, nodes, e, k, index, leaf);
    }

    /** phys_page_set: the reservation of three nodes per level is never exhausted. */
    method PageSet(index: nat, nb: nat, leaf: nat, ghost leaves: set<nat>)
      requires levels > 0 && Built(leaves)
      requires nb > 0 && index + nb <= Lo(1, levels)
      requires leaf != PHYS_SECTION_UNASSIGNED && leaf in leaves
      requires Unassigned(nodes, root, levels, 0, index, index + nb)
      requires |nodes| + 2 * levels - 1 <= PHYS_MAP_NODE_NIL
      modifies this
      ensures Built(leaves)
      ensures |nodes| <= old(|nodes|) + 2 * levels - 1
      ensures Filled(old(nodes), old(root), nodes, root, levels, 0, index, index + nb, leaf)
    {
      NodeReserve(3 * levels);
      ShiftRange(index, levels, 0);
      ShlZero(levels * P_L2_BITS);
      var _, _ := SetLevel(Root, index, nb, leaf, levels - 1, leaves, 0);
    }

    // ------------------------------------------------------------ compaction

    ghost function LevelOf(lp: Loc, level: seq<nat>): nat
      requires lp.At? ==> lp.n < |level|
      reads this
    {
      if lp.Root? then levels else level[lp.n]
    }

    /** phys_page_compact: afterwards every page with a section still leads to it, links still end
        at or above the bottom level, and no link leads to a node with a single child. */
    method PageCompact(lp: Loc, ghost level: seq<nat>, ghost leaves: set<nat>)
      requires WellFormed(nodes, level, leaves)
      requires lp.At? ==> lp.n < |nodes| && lp.k < P_L2_SIZE
      requires EntryOk(Get(lp), level, LevelOf(lp, level), leaves) && Get(lp).skip != 0
      modifies this`root, this`nodes
      ensures WellFormed(nodes, level, leaves) && Keeps(old(nodes), nodes, level, leaves)
      ensures |nodes| == old(|nodes|)
      ensures EntryOk(Get(lp), level, LevelOf(lp, level), leaves)
      ensures Get(lp).ptr == PHYS_MAP_NODE_NIL <==> old(Get(lp)).ptr == PHYS_MAP_NODE_NIL
      ensures Still(old(nodes), old(Get(lp)), nodes, Get(lp), LevelOf(lp, level))
      ensures lp.At? ==> root == old(root)
      ensures OnlySlot(old(nodes), nodes, level, LevelOf(lp, level), lp)
      ensures levels < 64 ==> KeepsTight(old(nodes), nodes, level, leaves) && Tight(nodes, Get(lp), LevelOf(lp, level))
      decreases LevelOf(lp, level)
    {
      hide Keeps, Still, Tight, KeepsTight, Walk;
      ghost var i, nodes0 := LevelOf(lp, level), nodes;
      var e := Get(lp);
      KeepsSelf(nodes, level, leaves, e, i);
      if e.ptr == PHYS_MAP_NODE_NIL {
        return;
      }
      var c := e.ptr;
      var validPtr, valid := CompactChildren(lp, e, level, leaves);
      KeepsStill(nodes0, nodes, level, leaves, e, i);
      if valid != 1 {
        if levels < 64 {
          SeveralTight(nodes, e, i, valid, validPtr);
        }
        return;
      }
      var p := nodes[c][validPtr];
      if levels >= 64 && e.skip + p.skip >= 64 {
        return;
      }
      ghost var nodes1 := nodes;
      var e' := Bypass(e, p);
      BypassKeeps(nodes, level, leaves, e, i, validPtr);
      Put(lp, e');
      if levels < 64 {
        BypassTight(nodes1, e, i, p);
      }
      KeepsSelf(nodes1, level, leaves, e', i);
      if lp.At? {
        UpdateKeeps(nodes1, level, leaves, lp.n, lp.k, e');
        KeepsTransitive(nodes0, nodes1, nodes, level, leaves);
        if levels < 64 {
          UpdateKeepsTight(nodes1, level, leaves, lp.n, lp.k, e');
          TightTransitive(nodes0, nodes1, nodes, level, leaves, e', i);
        }
      }
      KeepsEntry(nodes0, nodes1, nodes, level, leaves, e, e', i);
    }

    /** The loop of phys_page_compact over the slots of the node that `lp` links to: compact every
        link there, and count the slots in use. */
    method CompactChildren(lp: Loc, e: Entry, ghost level: seq<nat>, ghost leaves: set<nat>)
      returns (validPtr: nat, valid: nat)
      requires WellFormed(nodes, level, leaves)
      requires lp.At? ==> lp.n < |nodes| && lp.k < P_L2_SIZE
      requires e == Get(lp) && EntryOk(e, level, LevelOf(lp, level), leaves) && e.skip != 0
      requires e.ptr != PHYS_MAP_NODE_NIL
      modifies this`root, this`nodes
      ensures WellFormed(nodes, level, leaves) && Keeps(old(nodes), nodes, level, leaves)
      ensures |nodes| == old(|nodes|) && Get(lp) == e && root == old(root)
      ensures OnlySlot(old(nodes), nodes, level, LevelOf(lp, level), lp)
      ensures SlotsInUse(nodes[e.ptr], P_L2_SIZE, valid, validPtr)
      ensures levels < 64 ==> KeepsTight(old(nodes), nodes, level, leaves)
      ensures levels < 64 ==> forall k :: 0 <= k < P_L2_SIZE ==>
                Tight(nodes, nodes[e.ptr][k], LevelOf(lp, level) - e.skip)
      decreases LevelOf(lp, level), 0
    {
      hide Keeps, Still, Tight, KeepsTight, Walk;
      ghost var i, nodes0 := LevelOf(lp, level), nodes;
      ghost var low := i - e.skip;
      KeepsSelf(nodes, level, leaves, e, i);
      var c := e.ptr;
      validPtr, valid := P_L2_SIZE, 0;
      for j := 0 to P_L2_SIZE
        invariant WellFormed(nodes, level, leaves) && Keeps(nodes0, nodes, level, leaves)
        invariant |nodes| == |nodes0| && Get(lp) == e && root == old(root)
        invariant OnlySlot(nodes0, nodes, level, i, lp)
        invariant SlotsInUse(nodes[c], j, valid, validPtr)
        invariant levels < 64 ==> KeepsTight(nodes0, nodes, level, leaves)
        invariant levels < 64 ==> forall k :: 0 <= k < j ==> Tight(nodes, nodes[c][k], low)
      {
        ghost var nodes1 := nodes;
        if nodes[c][j].ptr != PHYS_MAP_NODE_NIL {
          if nodes[c][j].skip != 0 {
            PageCompact(At(c, j), level, leaves);
            KeepsTransitive(nodes0, nodes1, nodes, level, leaves);
            if levels < 64 {
              TightTransitive(nodes0, nodes1, nodes, level, leaves, nodes[c][j], low);
              TightSlots(nodes1, nodes, level, leaves, c, j, low);
            }
          } else {
            EndsTight(nodes, nodes[c][j], low);
          }
          validPtr := j;
          valid := valid + 1;
        } else {
          EndsTight(nodes, nodes[c][j], low);
        }
      }
    }

    /** address_space_dispatch_compact */
    method DispatchCompact(ghost level: seq<nat>, ghost leaves: set<nat>)
      requires WellFormed(nodes, level, leaves) && EntryOk(root, level, levels, leaves)
      modifies this`root, this`nodes
      ensures WellFormed(nodes, level, leaves) && EntryOk(root, level, levels, leaves)
      ensures Still(old(nodes), old(root), nodes, root, levels)
      ensures levels < 64 ==> Tight(nodes, root, levels)
    {
      if root.skip != 0 {
        PageCompact(Root, level, leaves);
      }
    }
  }

  // ------------------------------------------------------------ steps of PageCompact

  /** Every page with a section leads to it from `e'` as it did from `e`. */
  ghost predicate Still(nodes: seq<Node>, e: Entry, nodes': seq<Node>, e': Entry, i: nat) {
    forall page: nat :: Walk(nodes, e, i, page) != PHYS_SECTION_UNASSIGNED ==>
                          Walk(nodes', e', i, page) == Walk(nodes, e, i, page)
  }

  /** From level `i` up, only the slot `lp` may have changed. */
  ghost predicate OnlySlot(nodes: seq<Node>, nodes': seq<Node>, level: seq<nat>, i: nat, lp: Loc) {
    && |nodes| == |nodes'| == |level|
    && forall m, k :: 0 <= m < |nodes| && 0 <= k < P_L2_SIZE && level[m] >= i && lp != At(m, k) ==>
         nodes'[m][k] == nodes[m][k]
  }

  /** What the counting loop knows after `j` slots. */
  ghost predicate SlotsInUse(node: Node, j: int, valid: int, v: int) {
    && 0 <= j <= P_L2_SIZE && valid >= 0
    && (valid == 0 ==> forall k :: 0 <= k < j ==> node[k].ptr == PHYS_MAP_NODE_NIL)
    && (valid == 1 ==> OnlyChild(node, j, v))
    && (valid > 1 ==>
          exists a, b :: 0 <= a < b < j && node[a].ptr != PHYS_MAP_NODE_NIL && node[b].ptr != PHYS_MAP_NODE_NIL)
    && (valid > 0 ==> 0 <= v < j && node[v].ptr != PHYS_MAP_NODE_NIL)
  }

  lemma SeveralTight(nodes: seq<Node>, e: Entry, i: nat, valid: nat, v: int)
    requires e.ptr < |nodes| && 0 < e.skip <= i && valid != 1
    requires SlotsInUse(nodes[e.ptr], P_L2_SIZE, valid, v)
    requires forall k :: 0 <= k < P_L2_SIZE ==> Tight(nodes, nodes[e.ptr][k], i - e.skip)
    ensures Tight(nodes, e, i)
  {
    forall u
      ensures !OnlyChild(nodes[e.ptr], P_L2_SIZE, u)
    {}
  }

  lemma EndsTight(nodes: seq<Node>, e: Entry, i: nat)
    requires e.skip == 0 || e.ptr == PHYS_MAP_NODE_NIL
    ensures Tight(nodes, e, i)
  {}

  lemma TightTransitive(nodes0: seq<Node>, nodes1: seq<Node>, nodes2: seq<Node>, level: seq<nat>, leaves: set<nat>,
                        e: Entry, i: nat)
    requires KeepsTight(nodes0, nodes1, level, leaves) && KeepsTight(nodes1, nodes2, level, leaves)
    ensures KeepsTight(nodes0, nodes2, level, leaves)
    ensures EntryOk(e, level, i, leaves) && Tight(nodes1, e, i) ==> Tight(nodes2, e, i)
  {}

  /** The slots of node `c` compacted before slot `j` are still compacted after it. */
  lemma TightSlots(nodes: seq<Node>, nodes': seq<Node>, level: seq<nat>, leaves: set<nat>, c: nat, j: nat, low: nat)
    requires WellFormed(nodes, level, leaves) && KeepsTight(nodes, nodes', level, leaves)
    requires c < |nodes| && level[c] == low && OnlySlot(nodes, nodes', level, low, At(c, j)) && j < P_L2_SIZE
    requires forall k :: 0 <= k < j ==> Tight(nodes, nodes[c][k], low)
    ensures forall k :: 0 <= k < j ==> Tight(nodes', nodes'[c][k], low)
  {}

  lemma KeepsSelf(nodes: seq<Node>, level: seq<nat>, leaves: set<nat>, e: Entry, i: nat)
    ensures Keeps(nodes, nodes, level, leaves) && Still(nodes, e, nodes, e, i)
    ensures KeepsTight(nodes, nodes, level, leaves)
    ensures e.ptr == PHYS_MAP_NODE_NIL ==> Tight(nodes, e, i)
  {}

  lemma KeepsTransitive(nodes0: seq<Node>, nodes1: seq<Node>, nodes2: seq<Node>, level: seq<nat>, leaves: set<nat>)
    requires Keeps(nodes0, nodes1, level, leaves) && Keeps(nodes1, nodes2, level, leaves)
    ensures Keeps(nodes0, nodes2, level, leaves)
  {}

  lemma KeepsStill(nodes: seq<Node>, nodes': seq<Node>, level: seq<nat>, leaves: set<nat>, e: Entry, i: nat)
    requires Keeps(nodes, nodes', level, leaves) && EntryOk(e, level, i, leaves)
    ensures Still(nodes, e, nodes', e, i)
  {}

  lemma KeepsEntry(nodes0: seq<Node>, nodes1: seq<Node>, nodes2: seq<Node>, level: seq<nat>, leaves: set<nat>, e: Entry,
                   e': Entry, i: nat)
    requires Keeps(nodes0, nodes1, level, leaves) && Keeps(nodes1, nodes2, level, leaves)
    requires EntryOk(e, level, i, leaves) && EntryOk(e', level, i, leaves)
    requires EntryKeeps(nodes1, e, e', i)
    ensures Still(nodes0, e, nodes2, e', i)
  {}


  // ------------------------------------------------------------ the loop of SetLevel

  /** Filling pages `start .. end` below a node at `level` with prefix `q`, from child `first` on. */
  datatype Span = Span(level: nat, q: nat, first: nat, start: nat, end: nat) {
    function Cost(): nat {
      PageTree.Cost(level, start, if start <= end then end - start else 0, q)
    }

    /** Cost of the first child, when it does not start on its boundary. */
    function FirstCost(): nat {
      if start == Lo(Shift(start, level), level) then 0 else level
    }

    ghost predicate Ok() {
      && start < end && Shift(start, level + 1) == q && first == Digit(start, level)
    }
  }

  /** Loop state: children before `k` are done, pages before `index` are filled. */
  ghost predicate Progress(s: Span, nodes0: seq<Node>, e0: Entry, nodes: seq<Node>, e: Entry, k: nat, index: nat,
                           leaf: nat) {
    && s.Ok() && s.first <= k <= P_L2_SIZE
    && s.start <= index <= s.end && index <= Lo(s.q + 1, s.level + 1)
    && (if k == s.first then index == s.start else index == s.end || index == Lo(s.q * P_L2_SIZE + k, s.level))
    && Filled(nodes0, e0, nodes, e, s.level + 1, s.q, s.start, index, leaf)
    && Unassigned(nodes0, e0, s.level + 1, s.q, s.start, s.end)
    && |nodes0| <= |nodes| <= |nodes0| + s.Cost()
    && (index < s.end ==> |nodes| <= |nodes0| + 1 + if k == s.first then 0 else s.FirstCost())
  }

  lemma StartProgress(s: Span, nodes0: seq<Node>, e0: Entry, nodes: seq<Node>, e: Entry, leaf: nat)
    requires s.Ok() && |nodes0| <= |nodes| <= |nodes0| + 1
    requires Filled(nodes0, e0, nodes, e, s.level + 1, s.q, 0, 0, 0)
    requires Unassigned(nodes0, e0, s.level + 1, s.q, s.start, s.end)
    ensures Progress(s, nodes0, e0, nodes, e, s.first, s.start, leaf)
  {
    EnterLoop(s.start, s.level, s.q);
    var i := s.level + 1;
    forall page: nat | Shift(page, i) == s.q
      ensures Walk(nodes, e, i, page) == Walk(nodes0, e0, i, page)
    {}
  }

  lemma BeforeChild(s: Span, nodes0: seq<Node>, e0: Entry, nodes: seq<Node>, e: Entry, k: nat, index: nat, nb: nat,
                    leaf: nat)
    requires Progress(s, nodes0, e0, nodes, e, k, index, leaf) && k < P_L2_SIZE && index < s.end == index + nb
    requires e.skip == 1 && e.ptr < |nodes| && e.ptr != PHYS_MAP_NODE_NIL
    ensures Shift(index, s.level) == s.q * P_L2_SIZE + k
    ensures Unassigned(nodes, nodes[e.ptr][k], s.level, s.q * P_L2_SIZE + k, index, index + nb)
    ensures |nodes| + CostOfChild(s.level, index, nb, s.q * P_L2_SIZE + k) <= |nodes0| + s.Cost()
  {
    EnterLoop(s.start, s.level, s.q);
    if k > s.first {
      NextBlock(s.level, s.q, k - 1, index);
    }
    StillUnassigned(nodes0, e0, nodes, e, s.level, s.q, k, s.start, index, s.end, leaf);
    ChildCost(s.level, s.start, s.end - s.start, s.q, s.first, k, index);
  }

  lemma AfterChild(s: Span, nodes0: seq<Node>, e0: Entry, nodes1: seq<Node>, pos1: seq<Pos>, leaves: set<nat>,
                   nodes: seq<Node>, e: Entry,
                   k: nat, index1: nat, nb1: nat, index: nat, leaf: nat)
    requires Progress(s, nodes0, e0, nodes1, e, k, index1, leaf) && k < P_L2_SIZE && index1 < s.end == index1 + nb1
    requires e.skip == 1 && e.ptr < |nodes1| <= |nodes| && e.ptr != PHYS_MAP_NODE_NIL
    requires ChildOk(e, pos1, s.level + 1, s.q, leaves)
    requires index == Min(index1 + nb1, Lo(s.q * P_L2_SIZE + k + 1, s.level)) && index > index1
    requires SameOutside(nodes1, nodes, pos1, leaves, s.level, s.q * P_L2_SIZE + k)
    requires Filled(nodes1, nodes1[e.ptr][k], nodes, nodes[e.ptr][k], s.level, s.q * P_L2_SIZE + k, index1, index, leaf)
    requires |nodes| <= |nodes1| + CostOfChild(s.level, index1, nb1, s.q * P_L2_SIZE + k)
    ensures Progress(s, nodes0, e0, nodes, e, k + 1, index, leaf)
  {
    EnterLoop(s.start, s.level, s.q);
    BlockStep(s.level, s.q, k);
    ChildCost(s.level, s.start, s.end - s.start, s.q, s.first, k, index1);
    FilledCompose(nodes0, e0, nodes1, nodes, e, pos1, leaves, s.level, s.q, k, s.start, index1, index, leaf);
  }

  lemma EndProgress(s: Span, nodes0: seq<Node>, e0: Entry, nodes: seq<Node>, e: Entry, k: nat, index: nat, leaf: nat)
    requires Progress(s, nodes0, e0, nodes, e, k, index, leaf) && (index == s.end || k == P_L2_SIZE)
    ensures index == Min(s.end, Lo(s.q + 1, s.level + 1))
    ensures Filled(nodes0, e0, nodes, e, s.level + 1, s.q, s.start, index, leaf)
    ensures |nodes| <= |nodes0| + s.Cost()
  {
    LoStep(s.q + 1, s.level);
    EnterLoop(s.start, s.level, s.q);
  }

  function Min(a: nat, b: nat): nat {
    if a < b then a else b
  }

  ghost predicate Unassigned(nodes: seq<Node>, e: Entry, i: nat, q: nat, a: nat, b: nat) {
    forall page: nat :: a <= page < b && Shift(page, i) == q ==> Walk(nodes, e, i, page) == PHYS_SECTION_UNASSIGNED
  }

  // ------------------------------------------------------------ steps of EnsureNode

  function PutAt(nodes: seq<Node>, lp: Loc, e: Entry): seq<Node>
    requires lp.At? ==> lp.n < |nodes| && lp.k < P_L2_SIZE
  {
    match lp
    case Root => nodes
    case At(n, k) => Update(nodes, n, k, e)
  }

  lemma HangNode(nodes: seq<Node>, pos: seq<Pos>, leaves: set<nat>, lp: Loc, level: nat, q: nat)
    requires Building(nodes, pos, leaves) && |nodes| < PHYS_MAP_NODE_NIL
    requires lp.At? ==>
               lp.n < |nodes| && lp.k < P_L2_SIZE && pos[lp.n].level == level + 1 &&
               q == pos[lp.n].prefix * P_L2_SIZE + lp.k
    ensures var nodes' := PutAt(nodes + [EmptyNode(level == 0)], lp, Entry(1, |nodes|));
            && Building(nodes', pos + [Pos(level, q)], leaves)
            && SameOutside(nodes, nodes', pos, leaves, level + 1, q)
  {
    hide SameOutside, Walk, EmptyNode, ChildOk;
    var nodes1, pos1 := nodes + [EmptyNode(level == 0)], pos + [Pos(level, q)];
    AppendOutside(nodes, pos, leaves, EmptyNode(level == 0), level + 1, q);
    GrownBuilding(nodes, pos, leaves, level, q);
    match lp {
      case Root =>
      case At(n, k) =>
        LinkNode(nodes1, pos1, leaves, n, k, |nodes|);
        OutsideTransitive(nodes, nodes1, Update(nodes1, n, k, Entry(1, |nodes|)), pos, pos1, leaves, level + 1, q);
    }
  }

  lemma LinkNode(nodes: seq<Node>, pos: seq<Pos>, leaves: set<nat>, n: nat, k: nat, child: nat)
    requires Building(nodes, pos, leaves) && n < |nodes| && k < P_L2_SIZE && child < |nodes|
    requires child < PHYS_MAP_NODE_NIL
    requires pos[n].level > 0 && pos[child] == Pos(pos[n].level - 1, pos[n].prefix * P_L2_SIZE + k)
    ensures Building(Update(nodes, n, k, Entry(1, child)), pos, leaves)
    ensures SameOutside(nodes, Update(nodes, n, k, Entry(1, child)), pos, leaves, pos[n].level,
                        pos[n].prefix * P_L2_SIZE + k)
  {
    UpdateBuilding(nodes, pos, leaves, n, k, Entry(1, child));
    UpdateOutside(nodes, pos, leaves, n, k, Entry(1, child));
  }

  lemma HungFilled(nodes: seq<Node>, nodes': seq<Node>, e: Entry, e': Entry, level: nat, q: nat)
    requires e == NilEntry && e'.skip == 1 && e'.ptr < |nodes'| && e'.ptr != PHYS_MAP_NODE_NIL
    requires nodes'[e'.ptr] == EmptyNode(level == 0)
    ensures Filled(nodes, e, nodes', e', level + 1, q, 0, 0, 0)
  {
    var i := level + 1;
    forall page: nat | Shift(page, i) == q
      ensures Walk(nodes', e', i, page) == Walk(nodes, e, i, page)
    {
      FreshNode(nodes', e', level, page);
    }
  }

  lemma UpdateBuilding(nodes: seq<Node>, pos: seq<Pos>, leaves: set<nat>, n: nat, k: nat, e: Entry)
    requires Building(nodes, pos, leaves) && n < |nodes| && k < P_L2_SIZE
    requires ChildOk(e, pos, pos[n].level, pos[n].prefix * P_L2_SIZE + k, leaves)
    ensures Building(Update(nodes, n, k, e), pos, leaves)
  {
    var nodes' := Update(nodes, n, k, e);
    forall m, j | 0 <= m < |nodes| && 0 <= j < P_L2_SIZE
      ensures ChildOk(nodes'[m][j], pos, pos[m].level, pos[m].prefix * P_L2_SIZE + j, leaves)
    {
      assert ChildOk(nodes[m][j], pos, pos[m].level, pos[m].prefix * P_L2_SIZE + j, leaves);
    }
  }

  // ------------------------------------------------------------ steps of SetLevel

  lemma EnterLoop(index: nat, level: nat, q: nat)
    requires Shift(index, level + 1) == q
    ensures Shift(index, level) == q * P_L2_SIZE + Digit(index, level)
    ensures Lo(q * P_L2_SIZE + Digit(index, level), level) <= index < Lo(q + 1, level + 1)
    ensures Lo(q, level + 1) <= index
  {
    ShiftStep(index, level);
    ShiftRange(index, level, Shift(index, level));
    ShiftRange(index, level + 1, q);
  }

  /** Child block `k` sits inside its parent's block, and is as long as one step of its level. */
  lemma BlockStep(level: nat, q: nat, k: nat)
    requires k < P_L2_SIZE
    ensures Lo(q, level + 1) <= Lo(q * P_L2_SIZE + k, level)
    ensures k > 0 ==> Lo(q, level + 1) < Lo(q * P_L2_SIZE + k, level)
    ensures k == 0 ==> Lo(q, level + 1) == Lo(q * P_L2_SIZE + k, level)
    ensures Lo(q * P_L2_SIZE + k + 1, level) == Lo(q * P_L2_SIZE + k, level) + Lo(1, level)
    ensures Lo(q * P_L2_SIZE + k + 1, level) <= Lo(q + 1, level + 1)
    ensures k + 1 == P_L2_SIZE ==> Lo(q * P_L2_SIZE + k + 1, level) == Lo(q + 1, level + 1)
    ensures Lo(1, level) > 0
    ensures level == 0 ==> Lo(1, level) == 1 && Lo(q * P_L2_SIZE + k, level) == q * P_L2_SIZE + k
  {
    LoStep(q, level);
    LoStep(q + 1, level);
    LoMonotone(q * P_L2_SIZE, q * P_L2_SIZE + k, level);
    LoMonotone(q * P_L2_SIZE + k + 1, (q + 1) * P_L2_SIZE, level);
    LoMonotone(0, 1, level);
    LoLinear(q * P_L2_SIZE + k, 1, level);
  }

  lemma NextBlock(level: nat, q: nat, k: nat, index: nat)
    requires k < P_L2_SIZE
    ensures index == Lo(q * P_L2_SIZE + k + 1, level) ==> Shift(index, level) == q * P_L2_SIZE + k + 1
  {
    var c := q * P_L2_SIZE + k + 1;
    LoMonotone(c, c + 1, level);
    ShiftRange(index, level, c);
  }

  /** The pages not yet filled are still unassigned, seen from child `k`. */
  lemma StillUnassigned(nodes0: seq<Node>, e0: Entry, nodes: seq<Node>, e: Entry, level: nat, q: nat, k: nat,
                        a: nat, b: nat, end: nat, leaf: nat)
    requires e.skip == 1 && e.ptr < |nodes| && e.ptr != PHYS_MAP_NODE_NIL && k < P_L2_SIZE && a <= b
    requires Filled(nodes0, e0, nodes, e, level + 1, q, a, b, leaf)
    requires Unassigned(nodes0, e0, level + 1, q, a, end)
    ensures Unassigned(nodes, nodes[e.ptr][k], level, q * P_L2_SIZE + k, b, end)
  {
    forall page: nat | b <= page < end && Shift(page, level) == q * P_L2_SIZE + k
      ensures Walk(nodes, nodes[e.ptr][k], level, page) == PHYS_SECTION_UNASSIGNED
    {
      ShiftStep(page, level);
      var i := level + 1;
      assert Shift(page, i) == q;
      assert Walk(nodes, e, i, page) == Walk(nodes, nodes[e.ptr][k], level, page);
    }
  }

  lemma LeafStep(nodes: seq<Node>, pos: seq<Pos>, leaves: set<nat>, p: nat, k: nat, leaf: nat)
    requires Building(nodes, pos, leaves) && p < |nodes| && k < P_L2_SIZE && leaf != PHYS_SECTION_UNASSIGNED
    requires leaf in leaves
    ensures var nodes', c := Update(nodes, p, k, Entry(0, leaf)), pos[p].prefix * P_L2_SIZE + k;
            && Building(nodes', pos, leaves)
            && SameOutside(nodes, nodes', pos, leaves, pos[p].level, c)
            && Filled(nodes, nodes[p][k], nodes', nodes'[p][k], pos[p].level, c,
                      Lo(c, pos[p].level), Lo(c + 1, pos[p].level), leaf)
  {
    var c := pos[p].prefix * P_L2_SIZE + k;
    UpdateBuilding(nodes, pos, leaves, p, k, Entry(0, leaf));
    UpdateOutside(nodes, pos, leaves, p, k, Entry(0, leaf));
    forall page: nat | Shift(page, pos[p].level) == c
      ensures Lo(c, pos[p].level) <= page < Lo(c + 1, pos[p].level)
    {
      ShiftRange(page, pos[p].level, c);
    }
  }

  /** Descending never meets a leaf: a leaf above the bottom level holds an assigned section, but
      page `index` of its block is unassigned. */
  lemma NotALeaf(nodes: seq<Node>, pos: seq<Pos>, leaves: set<nat>, p: nat, k: nat, index: nat)
    requires Building(nodes, pos, leaves) && p < |nodes| && k < P_L2_SIZE
    requires pos[p].level > 0
    requires Walk(nodes, nodes[p][k], pos[p].level, index) == PHYS_SECTION_UNASSIGNED
    ensures nodes[p][k].skip == 1
  {
    assert ChildOk(nodes[p][k], pos, pos[p].level, pos[p].prefix * P_L2_SIZE + k, leaves);
  }

  function CostOfChild(level: nat, index: nat, nb: nat, c: nat): nat {
    if level == 0 || (index == Lo(c, level) && nb >= Lo(1, level)) then 0 else Cost(level - 1, index, nb, c)
  }

  /** One child fits the budget: only the first can start off its boundary and only the last can
      end before its own. */
  lemma ChildCost(level: nat, index0: nat, nb0: nat, q: nat, k0: nat, k: nat, index: nat)
    requires k0 <= k < P_L2_SIZE
    requires Lo(q, level + 1) <= index0 <= index < index0 + nb0
    requires Shift(index0, level) == q * P_L2_SIZE + k0
    requires k == k0 ==> index == index0
    requires k > k0 ==> index == Lo(q * P_L2_SIZE + k, level)
    ensures var first := if index0 == Lo(Shift(index0, level), level) then 0 else level;
            var cost := CostOfChild(level, index, index0 + nb0 - index, q * P_L2_SIZE + k);
            && 1 + (if k == k0 then 0 else first) + cost <= Cost(level, index0, nb0, q)
            && (index0 + nb0 > Lo(q * P_L2_SIZE + k + 1, level) ==>
                  cost <= if k == k0 then first else 0)
  {
    BlockStep(level, q, k);
    BlockStep(level, q, k0);
    ShiftRange(index0, level, q * P_L2_SIZE + k0);
  }

  /** Nodes above a level are untouched. */
  ghost predicate SameAbove(nodes: seq<Node>, nodes': seq<Node>, pos: seq<Pos>, level: nat) {
    |nodes| <= |nodes'| && forall n :: 0 <= n < |nodes| && n < |pos| && pos[n].level > level ==> nodes'[n] == nodes[n]
  }

  lemma GrownBuilding(nodes: seq<Node>, pos: seq<Pos>, leaves: set<nat>, level: nat, q: nat)
    requires Building(nodes, pos, leaves) && |nodes| < PHYS_MAP_NODE_NIL
    ensures Building(nodes + [EmptyNode(level == 0)], pos + [Pos(level, q)], leaves)
  {
    var nodes', pos' := nodes + [EmptyNode(level == 0)], pos + [Pos(level, q)];
    forall n, k | 0 <= n < |nodes'| && 0 <= k < P_L2_SIZE
      ensures ChildOk(nodes'[n][k], pos', pos'[n].level, pos'[n].prefix * P_L2_SIZE + k, leaves)
    {
      if n < |nodes| {
        assert ChildOk(nodes[n][k], pos, pos[n].level, pos[n].prefix * P_L2_SIZE + k, leaves);
      }
    }
  }

  lemma OutsideTransitive(nodes0: seq<Node>, nodes1: seq<Node>, nodes2: seq<Node>, pos0: seq<Pos>, pos1: seq<Pos>,
                          leaves: set<nat>, lvl: nat, q: nat)
    requires pos0 <= pos1
    requires SameOutside(nodes0, nodes1, pos0, leaves, lvl, q)
    requires SameOutside(nodes1, nodes2, pos1, leaves, lvl, q)
    ensures SameOutside(nodes0, nodes2, pos0, leaves, lvl, q)
  {
    forall e: Entry, i: nat, page: nat |
      ChildOk(e, pos0, i, Shift(page, i), leaves) && Shift(page, lvl) != q
      ensures Walk(nodes2, e, i, page) == Walk(nodes0, e, i, page)
    {
      GrownChildOk(e, pos0, pos1, i, Shift(page, i), leaves);
    }
  }
}
