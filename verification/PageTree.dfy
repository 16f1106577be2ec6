/** The multi-level radix tree behind physical-address dispatch, as values: an arena of nodes,
    entries that are leaves or links, and what a walk through them reads.

    The arena is an array that grows; a link is an index into it.  Two ghost labels describe a
    node: its level, and (while the tree is being built) the page-number prefix it stands for. */
module PageTree {
  import opened Bits

  const P_L2_BITS: nat := 9
  const P_L2_SIZE: nat := 512
  const PHYS_MAP_NODE_NIL: nat := 0x3FF_FFFF
  const PHYS_SECTION_UNASSIGNED: nat := 0

  /** `skip` is 0 for a leaf, whose `ptr` is a section number; otherwise it is the number of
      levels the link goes down, and `ptr` is a node number or PHYS_MAP_NODE_NIL. */
  datatype Entry = Entry(skip: nat, ptr: nat)

  const NilEntry := Entry(1, PHYS_MAP_NODE_NIL)
  const UnassignedEntry := Entry(0, PHYS_SECTION_UNASSIGNED)

  type Node = s: seq<Entry> | |s| == P_L2_SIZE witness seq(P_L2_SIZE, _ => UnassignedEntry)

  /** Where an entry lives: the root entry of the map, or slot `k` of node `n`. */
  datatype Loc = Root | At(n: nat, k: nat)

  datatype Pos = Pos(level: nat, prefix: nat)

  /** The page number without its `i` lowest digits. */
  function Shift(page: nat, i: nat): nat {
    Shr(page, i * P_L2_BITS)
  }

  function Digit(page: nat, i: nat): (d: nat)
    ensures d < P_L2_SIZE
  {
    Shift(page, i) % P_L2_SIZE
  }

  /** First page of the block whose pages all have prefix `q` above digit `i`. */
  function Lo(q: nat, i: nat): nat {
    Shl(q, i * P_L2_BITS)
  }

  /** The section number (or whatever sits in `ptr`) at which the loop of phys_page_find stops,
      started at entry `e` with `i` levels to go. */
  function Walk(nodes: seq<Node>, e: Entry, i: int, page: nat): nat
    decreases i
  {
    if e.skip == 0 || i < e.skip then e.ptr
    else if e.ptr == PHYS_MAP_NODE_NIL || e.ptr >= |nodes| then PHYS_SECTION_UNASSIGNED
    else Walk(nodes, nodes[e.ptr][Digit(page, i - e.skip)], i - e.skip, page)
  }

  // ---------------------------------------------------------------- digits

  lemma ShiftStep(page: nat, i: nat)
    ensures Shift(page, i + 1) == Shift(page, i) / P_L2_SIZE
    ensures Shift(page, i) == Shift(page, i + 1) * P_L2_SIZE + Digit(page, i)
  {
    ShrAdd(page, i * P_L2_BITS, P_L2_BITS);
    assert (i + 1) * P_L2_BITS == i * P_L2_BITS + P_L2_BITS;
    var x := Shift(page, i);
    ShrAdd(x, 3, 6);
    ShrAdd(x / 8, 3, 3);
    ShrThree(x);
    ShrThree(x / 8);
    ShrThree(x / 64);
  }

  lemma ShrThree(x: nat)
    ensures Shr(x, 3) == x / 8
  {
    assert Shr(x, 3) == Shr(x / 2, 2) == Shr(x / 4, 1);
  }

  lemma LoStep(q: nat, i: nat)
    ensures Lo(q, i + 1) == Lo(q * P_L2_SIZE, i)
  {
    ShlAdd(q, P_L2_BITS, i * P_L2_BITS);
    assert (i + 1) * P_L2_BITS == P_L2_BITS + i * P_L2_BITS;
    ShlAdd(q, 3, 6);
    ShlAdd(8 * q, 3, 3);
    ShlThree(q);
    ShlThree(8 * q);
    ShlThree(64 * q);
  }

  lemma ShlThree(x: nat)
    ensures Shl(x, 3) == 8 * x
  {
    assert Shl(x, 3) == Shl(2 * x, 2) == Shl(4 * x, 1);
  }

  lemma ShiftRange(page: nat, i: nat, q: nat)
    ensures Shift(page, i) == q <==> Lo(q, i) <= page < Lo(q + 1, i)
  {
    ShrRange(page, i * P_L2_BITS, q);
  }

  lemma LoMonotone(a: nat, b: nat, i: nat)
    requires a <= b
    ensures Lo(a, i) <= Lo(b, i)
    ensures a < b ==> Lo(a, i) < Lo(b, i)
  {
    if a < b {
      ShlMonotone(a, b, i * P_L2_BITS);
    }
  }

  lemma LoLinear(a: nat, b: nat, i: nat)
    ensures Lo(a + b, i) == Lo(a, i) + Lo(b, i)
  {
    ShlLinear(a, b, i * P_L2_BITS);
  }

  // ------------------------------------------------- compaction: links of any length

  /** Entry `e` with `i` levels below it: a leaf names a section, a link never goes below the
      bottom level and arrives at a node of the level it claims. */
  predicate EntryOk(e: Entry, level: seq<nat>, i: nat, leaves: set<nat>) {
    if e.skip == 0 then e.ptr in leaves
    else
      && e.skip <= i
      && (e.ptr == PHYS_MAP_NODE_NIL || (e.ptr < |level| && level[e.ptr] == i - e.skip))
  }

  ghost predicate WellFormed(nodes: seq<Node>, level: seq<nat>, leaves: set<nat>) {
    && |level| == |nodes| <= PHYS_MAP_NODE_NIL
    && PHYS_SECTION_UNASSIGNED in leaves && PHYS_MAP_NODE_NIL !in leaves
    && forall n, k :: 0 <= n < |nodes| && 0 <= k < P_L2_SIZE ==>
         EntryOk(nodes[n][k], level, level[n], leaves)
  }

  /** Every assigned page that `e` finds in the first arena, it finds in the second as well. */
  ghost predicate Keeps(nodes: seq<Node>, nodes': seq<Node>, level: seq<nat>, leaves: set<nat>) {
    forall e: Entry, i: nat, page: nat ::
      EntryOk(e, level, i, leaves) && Walk(nodes, e, i, page) != PHYS_SECTION_UNASSIGNED ==>
        Walk(nodes', e, i, page) == Walk(nodes, e, i, page)
  }

  ghost predicate EntryKeeps(nodes: seq<Node>, e: Entry, e': Entry, i: nat) {
    forall page: nat :: Walk(nodes, e, i, page) != PHYS_SECTION_UNASSIGNED ==>
                          Walk(nodes, e', i, page) == Walk(nodes, e, i, page)
  }

  function Update(nodes: seq<Node>, n: nat, k: nat, e: Entry): (r: seq<Node>)
    requires n < |nodes| && k < P_L2_SIZE
    ensures |r| == |nodes|
  {
    var node: Node := nodes[n][k := e];
    nodes[n := node]
  }

  /** Writing an entry that finds as much as the old one loses no page anywhere in the arena,
      however many links lead to the written slot. */
  lemma UpdateKeeps(nodes: seq<Node>, level: seq<nat>, leaves: set<nat>, n: nat, k: nat, e': Entry)
    requires WellFormed(nodes, level, leaves)
    requires n < |nodes| && k < P_L2_SIZE
    requires EntryOk(e', level, level[n], leaves)
    requires EntryKeeps(nodes, nodes[n][k], e', level[n])
    ensures WellFormed(Update(nodes, n, k, e'), level, leaves)
    ensures Keeps(nodes, Update(nodes, n, k, e'), level, leaves)
  {
    var nodes' := Update(nodes, n, k, e');
    forall e: Entry, i: nat, page: nat |
      EntryOk(e, level, i, leaves) && Walk(nodes, e, i, page) != PHYS_SECTION_UNASSIGNED
      ensures Walk(nodes', e, i, page) == Walk(nodes, e, i, page)
    {
      UpdateKeepsWalk(nodes, level, leaves, n, k, e', e, i, page);
    }
  }

  lemma {:induction false} UpdateKeepsWalk(nodes: seq<Node>, level: seq<nat>, leaves: set<nat>, n: nat, k: nat,
                                           e': Entry,
                                           e: Entry, i: nat, page: nat)
    requires WellFormed(nodes, level, leaves)
    requires n < |nodes| && k < P_L2_SIZE
    requires EntryOk(e', level, level[n], leaves)
    requires EntryKeeps(nodes, nodes[n][k], e', level[n])
    requires EntryOk(e, level, i, leaves)
    requires Walk(nodes, e, i, page) != PHYS_SECTION_UNASSIGNED
    ensures Walk(Update(nodes, n, k, e'), e, i, page) == Walk(nodes, e, i, page)
    decreases i
  {
    if e.skip != 0 {
      var j := i - e.skip;
      var d := Digit(page, j);
      if e.ptr == n && d == k {
        assert Walk(nodes, e', j, page) == Walk(nodes, nodes[n][k], j, page);
        UpdateKeepsWalk(nodes, level, leaves, n, k, e', e', j, page);
      } else {
        UpdateKeepsWalk(nodes, level, leaves, n, k, e', nodes[e.ptr][d], j, page);
      }
    }
  }

  /** Bypassing a node whose only non-nil slot is `v`: pages that took another slot were
      unassigned, so every assigned page is still found. */
  lemma BypassKeeps(nodes: seq<Node>, level: seq<nat>, leaves: set<nat>, e: Entry, i: nat, v: nat)
    requires WellFormed(nodes, level, leaves)
    requires EntryOk(e, level, i, leaves)
    requires e.skip != 0 && e.ptr != PHYS_MAP_NODE_NIL && v < P_L2_SIZE
    requires nodes[e.ptr][v].ptr != PHYS_MAP_NODE_NIL
    requires forall j :: 0 <= j < P_L2_SIZE && j != v ==> nodes[e.ptr][j].ptr == PHYS_MAP_NODE_NIL
    ensures EntryOk(Bypass(e, nodes[e.ptr][v]), level, i, leaves)
    ensures EntryKeeps(nodes, e, Bypass(e, nodes[e.ptr][v]), i)
  {
    var c := nodes[e.ptr][v];
    var b := Bypass(e, c);
    assert EntryOk(c, level, i - e.skip, leaves);
    forall page: nat | Walk(nodes, e, i, page) != PHYS_SECTION_UNASSIGNED
      ensures Walk(nodes, b, i, page) == Walk(nodes, e, i, page)
    {
      var d := Digit(page, i - e.skip);
      var x := nodes[e.ptr][d];
      assert EntryOk(x, level, i - e.skip, leaves);
      assert Walk(nodes, e, i, page) == Walk(nodes, x, i - e.skip, page);
      assert d == v;
    }
  }

  /** The entry phys_page_compact writes when child `c` is the only one. */
  function Bypass(e: Entry, c: Entry): Entry {
    Entry(if c.skip == 0 then 0 else e.skip + c.skip, c.ptr)
  }

  /** Slot `v` is the only one in use among the first `j`. */
  predicate OnlyChild(node: Node, j: int, v: int) {
    && 0 <= v < j <= P_L2_SIZE && node[v].ptr != PHYS_MAP_NODE_NIL
    && forall k :: 0 <= k < j && k != v ==> node[k].ptr == PHYS_MAP_NODE_NIL
  }

  /** No link at or below `e` leads to a node with a single child: nothing is left to compress. */
  ghost predicate Tight(nodes: seq<Node>, e: Entry, i: int)
    decreases i
  {
    e.skip != 0 && e.skip <= i && e.ptr < |nodes| && e.ptr != PHYS_MAP_NODE_NIL ==>
      && (forall v :: !OnlyChild(nodes[e.ptr], P_L2_SIZE, v))
      && (forall k :: 0 <= k < P_L2_SIZE ==> Tight(nodes, nodes[e.ptr][k], i - e.skip))
  }

  ghost predicate KeepsTight(nodes: seq<Node>, nodes': seq<Node>, level: seq<nat>, leaves: set<nat>) {
    && |nodes'| == |nodes|
    && (forall n, k :: 0 <= n < |nodes| && 0 <= k < P_L2_SIZE ==>
          (nodes'[n][k].ptr == PHYS_MAP_NODE_NIL <==> nodes[n][k].ptr == PHYS_MAP_NODE_NIL))
    && (forall e: Entry, i: nat :: EntryOk(e, level, i, leaves) && Tight(nodes, e, i) ==> Tight(nodes', e, i))
  }

  /** Writing a compressed entry leaves compressed what was compressed before. */
  lemma UpdateKeepsTight(nodes: seq<Node>, level: seq<nat>, leaves: set<nat>, n: nat, k: nat, e': Entry)
    requires WellFormed(nodes, level, leaves) && n < |nodes| && k < P_L2_SIZE
    requires nodes[n][k].ptr != PHYS_MAP_NODE_NIL && e'.ptr != PHYS_MAP_NODE_NIL
    requires EntryOk(e', level, level[n], leaves) && Tight(nodes, e', level[n])
    ensures KeepsTight(nodes, Update(nodes, n, k, e'), level, leaves)
  {
    var nodes' := Update(nodes, n, k, e');
    forall e: Entry, i: nat | EntryOk(e, level, i, leaves) && Tight(nodes, e, i)
      ensures Tight(nodes', e, i)
    {
      UpdateKeepsTightEntry(nodes, level, leaves, n, k, e', e, i);
    }
  }

  lemma {:induction false} UpdateKeepsTightEntry(nodes: seq<Node>, level: seq<nat>, leaves: set<nat>, n: nat, k: nat,
                                                 e': Entry,
                                                 e: Entry, i: nat)
    requires WellFormed(nodes, level, leaves) && n < |nodes| && k < P_L2_SIZE
    requires nodes[n][k].ptr != PHYS_MAP_NODE_NIL && e'.ptr != PHYS_MAP_NODE_NIL
    requires EntryOk(e', level, level[n], leaves) && Tight(nodes, e', level[n])
    requires EntryOk(e, level, i, leaves) && Tight(nodes, e, i)
    ensures Tight(Update(nodes, n, k, e'), e, i)
    decreases i
  {
    var nodes' := Update(nodes, n, k, e');
    if e.skip != 0 && e.ptr != PHYS_MAP_NODE_NIL {
      var m, j := e.ptr, i - e.skip;
      forall v
        ensures !OnlyChild(nodes'[m], P_L2_SIZE, v)
      {
        SameUse(nodes[m], nodes'[m], v);
      }
      forall d | 0 <= d < P_L2_SIZE
        ensures Tight(nodes', nodes'[m][d], j)
      {
        UpdateKeepsTightEntry(nodes, level, leaves, n, k, e', if m == n && d == k then e' else nodes[m][d], j);
      }
    }
  }

  lemma SameUse(node: Node, node': Node, v: int)
    requires forall k :: 0 <= k < P_L2_SIZE ==>
               (node'[k].ptr == PHYS_MAP_NODE_NIL <==> node[k].ptr == PHYS_MAP_NODE_NIL)
    ensures OnlyChild(node', P_L2_SIZE, v) <==> OnlyChild(node, P_L2_SIZE, v)
  {}

  /** An entry past its only child is as compressed as that child. */
  lemma BypassTight(nodes: seq<Node>, e: Entry, i: nat, c: Entry)
    requires 0 < e.skip <= i && Tight(nodes, c, i - e.skip)
    ensures Tight(nodes, Bypass(e, c), i)
  {}

  // ------------------------------------------------- building: one level per link

  /** Entry at level `i` for the pages with `Shift(page, i) == q`. */
  predicate ChildOk(e: Entry, pos: seq<Pos>, i: nat, q: nat, leaves: set<nat>) {
    if e.skip == 0 then e.ptr in leaves && (i > 0 ==> e.ptr != PHYS_SECTION_UNASSIGNED)
    else
      && e.skip == 1 && i > 0
      && (e.ptr == PHYS_MAP_NODE_NIL || (e.ptr < |pos| && pos[e.ptr] == Pos(i - 1, q)))
  }

  ghost predicate Building(nodes: seq<Node>, pos: seq<Pos>, leaves: set<nat>) {
    && |pos| == |nodes| <= PHYS_MAP_NODE_NIL
    && PHYS_SECTION_UNASSIGNED in leaves && PHYS_MAP_NODE_NIL !in leaves
    && forall n, k :: 0 <= n < |nodes| && 0 <= k < P_L2_SIZE ==>
         ChildOk(nodes[n][k], pos, pos[n].level, pos[n].prefix * P_L2_SIZE + k, leaves)
  }

  /** Walks for pages outside the block `q` of level `lvl` read the same in both arenas. */
  ghost predicate SameOutside(nodes: seq<Node>, nodes': seq<Node>, pos: seq<Pos>, leaves: set<nat>, lvl: nat, q: nat) {
    forall e: Entry, i: nat, page: nat ::
      ChildOk(e, pos, i, Shift(page, i), leaves) && Shift(page, lvl) != q ==>
        Walk(nodes', e, i, page) == Walk(nodes, e, i, page)
  }

  lemma UpdateOutside(nodes: seq<Node>, pos: seq<Pos>, leaves: set<nat>, n: nat, k: nat, e': Entry)
    requires Building(nodes, pos, leaves)
    requires n < |nodes| && k < P_L2_SIZE
    ensures SameOutside(nodes, Update(nodes, n, k, e'), pos, leaves, pos[n].level, pos[n].prefix * P_L2_SIZE + k)
  {
    var nodes' := Update(nodes, n, k, e');
    var q := pos[n].prefix * P_L2_SIZE + k;
    forall e: Entry, i: nat, page: nat |
      ChildOk(e, pos, i, Shift(page, i), leaves) && Shift(page, pos[n].level) != q
      ensures Walk(nodes', e, i, page) == Walk(nodes, e, i, page)
    {
      UpdateOutsideWalk(nodes, pos, leaves, n, k, e', e, i, page);
    }
  }

  lemma {:induction false} UpdateOutsideWalk(nodes: seq<Node>, pos: seq<Pos>, leaves: set<nat>, n: nat, k: nat,
                                             e': Entry,
                                             e: Entry, i: nat, page: nat)
    requires Building(nodes, pos, leaves)
    requires n < |nodes| && k < P_L2_SIZE
    requires ChildOk(e, pos, i, Shift(page, i), leaves)
    requires Shift(page, pos[n].level) != pos[n].prefix * P_L2_SIZE + k
    ensures Walk(Update(nodes, n, k, e'), e, i, page) == Walk(nodes, e, i, page)
    decreases i
  {
    if e.skip != 0 && e.ptr != PHYS_MAP_NODE_NIL {
      ShiftStep(page, i - 1);
      var d := Digit(page, i - 1);
      assert ChildOk(nodes[e.ptr][d], pos, i - 1, Shift(page, i - 1), leaves);
      assert !(e.ptr == n && d == k);
      UpdateOutsideWalk(nodes, pos, leaves, n, k, e', nodes[e.ptr][d], i - 1, page);
    }
  }

  /** Adding a node at the end of the arena changes no walk. */
  lemma {:induction false} AppendWalk(nodes: seq<Node>, pos: seq<Pos>, leaves: set<nat>, added: Node, e: Entry, i: nat,
                                      q: nat, page: nat)
    requires Building(nodes, pos, leaves)
    requires ChildOk(e, pos, i, q, leaves)
    ensures Walk(nodes + [added], e, i, page) == Walk(nodes, e, i, page)
    decreases i
  {
    if e.skip != 0 && e.ptr != PHYS_MAP_NODE_NIL {
      var d := Digit(page, i - 1);
      var p := pos[e.ptr];
      assert ChildOk(nodes[e.ptr][d], pos, p.level, p.prefix * P_L2_SIZE + d, leaves);
      AppendWalk(nodes, pos, leaves, added, nodes[e.ptr][d], i - 1, p.prefix * P_L2_SIZE + d, page);
    }
  }

  lemma AppendOutside(nodes: seq<Node>, pos: seq<Pos>, leaves: set<nat>, added: Node, lvl: nat, q: nat)
    requires Building(nodes, pos, leaves)
    ensures SameOutside(nodes, nodes + [added], pos, leaves, lvl, q)
  {
    forall e: Entry, i: nat, page: nat |
      ChildOk(e, pos, i, Shift(page, i), leaves) && Shift(page, lvl) != q
      ensures Walk(nodes + [added], e, i, page) == Walk(nodes, e, i, page)
    {
      AppendWalk(nodes, pos, leaves, added, e, i, Shift(page, i), page);
    }
  }

  /** In block `q` of level `i`, the pages of `[a, b)` now read `leaf` and the others read as before. */
  ghost predicate Filled(nodes: seq<Node>, e: Entry, nodes': seq<Node>, e': Entry, i: nat, q: nat, a: nat, b: nat,
                         leaf: nat) {
    forall page: nat :: Shift(page, i) == q ==>
                          Walk(nodes', e', i, page) == if a <= page < b then leaf else Walk(nodes, e, i, page)
  }

  /** Growing the ghost labels keeps every entry in order. */
  lemma GrownChildOk(e: Entry, pos: seq<Pos>, pos': seq<Pos>, i: nat, q: nat, leaves: set<nat>)
    requires pos <= pos' && ChildOk(e, pos, i, q, leaves)
    ensures ChildOk(e, pos', i, q, leaves)
  {}

  lemma OutsideCompose(nodes0: seq<Node>, nodes1: seq<Node>, nodes2: seq<Node>, pos0: seq<Pos>, pos1: seq<Pos>,
                       leaves: set<nat>,
                       level: nat, q: nat, k: nat)
    requires pos0 <= pos1 && k < P_L2_SIZE
    requires SameOutside(nodes0, nodes1, pos0, leaves, level + 1, q)
    requires SameOutside(nodes1, nodes2, pos1, leaves, level, q * P_L2_SIZE + k)
    ensures SameOutside(nodes0, nodes2, pos0, leaves, level + 1, q)
  {
    forall e: Entry, i: nat, page: nat |
      ChildOk(e, pos0, i, Shift(page, i), leaves) && Shift(page, level + 1) != q
      ensures Walk(nodes2, e, i, page) == Walk(nodes0, e, i, page)
    {
      ShiftStep(page, level);
      GrownChildOk(e, pos0, pos1, i, Shift(page, i), leaves);
    }
  }

  /** Filling a prefix of a block, then more pages inside its child `k`, fills a longer prefix. */
  lemma FilledCompose(nodes0: seq<Node>, e0: Entry, nodes1: seq<Node>, nodes2: seq<Node>, e: Entry, pos1: seq<Pos>,
                      leaves: set<nat>,
                      level: nat, q: nat, k: nat, a: nat, b: nat, c: nat, leaf: nat)
    requires e.skip == 1 && e.ptr < |nodes1| <= |nodes2| && e.ptr != PHYS_MAP_NODE_NIL && k < P_L2_SIZE
    requires ChildOk(e, pos1, level + 1, q, leaves)
    requires a <= b <= c && Lo(q * P_L2_SIZE + k, level) <= b && c <= Lo(q * P_L2_SIZE + k + 1, level)
    requires Filled(nodes0, e0, nodes1, e, level + 1, q, a, b, leaf)
    requires SameOutside(nodes1, nodes2, pos1, leaves, level, q * P_L2_SIZE + k)
    requires Filled(nodes1, nodes1[e.ptr][k], nodes2, nodes2[e.ptr][k], level, q * P_L2_SIZE + k, b, c, leaf)
    ensures Filled(nodes0, e0, nodes2, e, level + 1, q, a, c, leaf)
  {
    var i := level + 1;
    forall page: nat | Shift(page, i) == q
      ensures Walk(nodes2, e, i, page) == if a <= page < c then leaf else Walk(nodes0, e0, i, page)
    {
      ShiftStep(page, level);
      ShiftRange(page, level, q * P_L2_SIZE + k);
      if Shift(page, level) == q * P_L2_SIZE + k {
        assert Digit(page, level) == k;
        assert Walk(nodes2, e, level + 1, page) == Walk(nodes2, nodes2[e.ptr][k], level, page);
        assert Walk(nodes1, e, level + 1, page) == Walk(nodes1, nodes1[e.ptr][k], level, page);
      }
    }
  }

  /** A fresh node of the level below a nil link, hung on that link, reads as unassigned throughout. */
  lemma FreshNode(nodes: seq<Node>, e: Entry, level: nat, page: nat)
    requires e.skip == 1 && e.ptr < |nodes| && e.ptr != PHYS_MAP_NODE_NIL
    requires nodes[e.ptr] == EmptyNode(level == 0)
    ensures Walk(nodes, e, level + 1, page) == PHYS_SECTION_UNASSIGNED
  {
    var d := Digit(page, level);
    assert Walk(nodes, e, level + 1, page) == Walk(nodes, nodes[e.ptr][d], level, page);
  }

  function EmptyNode(leaf: bool): Node {
    seq(P_L2_SIZE, _ => if leaf then UnassignedEntry else NilEntry)
  }

  /** How many nodes phys_page_set_level may allocate at `level`: one per level when the filled
      pages reach one end of the entry's block, two per level below the first otherwise. */
  function Cost(level: nat, index: nat, nb: nat, q: nat): (c: nat)
    ensures level + 1 <= c <= 2 * level + 1
  {
    if index == Lo(q, level + 1) || index + nb >= Lo(q + 1, level + 1) then level + 1 else 2 * level + 1
  }

  /** A tree under construction is a special case of a tree with links of any length. */
  lemma BuildingIsWellFormed(nodes: seq<Node>, pos: seq<Pos>, leaves: set<nat>)
    requires Building(nodes, pos, leaves)
    ensures WellFormed(nodes, Levels(pos), leaves)
  {
    var level := Levels(pos);
    forall n, k | 0 <= n < |nodes| && 0 <= k < P_L2_SIZE
      ensures EntryOk(nodes[n][k], level, level[n], leaves)
    {
      assert ChildOk(nodes[n][k], pos, pos[n].level, pos[n].prefix * P_L2_SIZE + k, leaves);
    }
  }

  function Levels(pos: seq<Pos>): seq<nat> {
    seq(|pos|, i requires 0 <= i < |pos| => pos[i].level)
  }
}
