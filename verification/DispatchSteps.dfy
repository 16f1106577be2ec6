/** How each registration step changes the answers of a dispatch table. */
module DispatchSteps {
  import opened Bits
  import opened PageTree
  import opened PhysMaps
  import opened DispatchTable

  /** The structural invariant of a table under construction. */
  ghost predicate Shape(t: Table, pages: set<nat>) {
    PagesOk(t, pages) && SubpagesOk(t, pages)
  }

  /** A section is never a sub-page container when it comes from outside. */
  predicate Ordinary(s: Section) {
    s.Ok() && !s.mr.SubpageIo?
  }

  /** The new table answers the addresses of `piece` with section `k`, which is `piece`, and every
      other address as before. */
  ghost predicate Adds(t: Table, t': Table, piece: Section, k: nat) {
    && t.sections <= t'.sections && t'.bits == t.bits
    && 0 < k < |t'.sections| && t'.sections[k] == piece
    && forall a: nat :: a < TWO64 ==> t'.Resolve(a) == if piece.Contains(a) then k else t.Resolve(a)
  }

  ghost predicate Free(t: Table, piece: Section) {
    forall a: nat :: piece.Contains(a) ==> t.Resolve(a) == PHYS_SECTION_UNASSIGNED
  }

  lemma {:induction false} WalkInLeaves(nodes: seq<Node>, level: seq<nat>, leaves: set<nat>, e: Entry, i: nat,
                                        page: nat)
    requires WellFormed(nodes, level, leaves) && EntryOk(e, level, i, leaves)
    ensures Walk(nodes, e, i, page) in leaves
    decreases i
  {
    if e.skip != 0 && e.ptr != PHYS_MAP_NODE_NIL {
      WalkInLeaves(nodes, level, leaves, nodes[e.ptr][Digit(page, i - e.skip)], i - e.skip, page);
    }
  }

  /** Storing one more section, not yet reachable, changes no answer. */
  lemma AppendSection(t: Table, t': Table, pages: set<nat>, x: Section)
    requires Shape(t, pages) && |t.sections| < PHYS_MAP_NODE_NIL
    requires t' == t.(sections := t.sections + [x])
    ensures Shape(t', pages)
    ensures Exact(t, pages) ==> Exact(t', pages)
    ensures NoEmptySubpage(t, pages) ==> NoEmptySubpage(t', pages)
    ensures forall a: nat {:trigger t'.Resolve(a)} :: t'.FindPage(a) == t.FindPage(a) && t'.Resolve(a) == t.Resolve(a)
  {
    hide PagesOk, Exact, NoEmptySubpage, Table.FindPage, Table.Resolve, Table.PageWalk;
    AppendPages(t, t', pages, x);
    AppendTables(t, t', pages, x);
    if NoEmptySubpage(t, pages) {
      NoEmptySame(t, t', pages);
    }
    forall a: nat
      ensures t'.FindPage(a) == t.FindPage(a) && t'.Resolve(a) == t.Resolve(a)
    {
      AppendResolve(t, t', pages, x, a);
    }
  }

  lemma AppendTables(t: Table, t': Table, pages: set<nat>, x: Section)
    requires PagesOk(t, pages) && SubpagesOk(t, pages) && t' == t.(sections := t.sections + [x])
    ensures SubpagesOk(t', pages)
  {}

  lemma AppendPages(t: Table, t': Table, pages: set<nat>, x: Section)
    requires PagesOk(t, pages) && |t.sections| < PHYS_MAP_NODE_NIL && t' == t.(sections := t.sections + [x])
    ensures PagesOk(t', pages)
    ensures Exact(t, pages) ==> Exact(t', pages)
  {
    forall s, page: nat | s in pages && InPages(t', s, page)
      ensures t'.PageWalk(page) == s
    {
      assert InPages(t, s, page);
      assert t.PageWalk(page) == s;
    }
    forall page: nat
      ensures t'.PageWalk(page) == PHYS_SECTION_UNASSIGNED || t'.PageWalk(page) in pages
    {
      assert t'.PageWalk(page) == t.PageWalk(page);
    }
    if Exact(t, pages) {
      forall page: nat | Shift(page, t'.levels) == 0 && t'.PageWalk(page) in pages
        ensures InPages(t', t'.PageWalk(page), page)
      {
        assert t'.PageWalk(page) == t.PageWalk(page);
        assert InPages(t, t.PageWalk(page), page);
      }
    }
  }

  lemma AppendResolve(t: Table, t': Table, pages: set<nat>, x: Section, a: nat)
    requires PagesOk(t, pages) && t' == t.(sections := t.sections + [x])
    ensures t'.FindPage(a) == t.FindPage(a) && t'.Resolve(a) == t.Resolve(a)
  {
    var w := t.PageWalk(PageOf(a, t.bits));
    assert t'.PageWalk(PageOf(a, t.bits)) == w;
    assert w < |t.sections|;
  }

  /** Every address of a page that leads to a section is found in that section. */
  lemma FoundOnPage(t: Table, pages: set<nat>, page: nat, o: nat)
    requires PagesOk(t, pages) && Exact(t, pages)
    requires Shift(page, t.levels) == 0 && t.PageWalk(page) != PHYS_SECTION_UNASSIGNED && o < PageSize(t.bits)
    ensures t.FindPage(PageBase(page, t.bits) + o) == t.PageWalk(page)
  {
    var w, a := t.PageWalk(page), PageBase(page, t.bits) + o;
    InPageOf(page, o, t.bits);
    assert InPages(t, w, page);
    AlignedPages(t.sections[w], t.bits, a);
    FindIsUnique(t, pages, a);
  }

  /** Pages of a free, page-aligned piece lead nowhere yet. */
  lemma FreePages(t: Table, pages: set<nat>, x: Section, page: nat)
    requires Shape(t, pages) && Exact(t, pages) && NoEmptySubpage(t, pages)
    requires Aligned(x, t.bits) && Free(t, x)
    requires PageOf(x.start, t.bits) <= page <= PageOf(x.start + x.size - 1, t.bits)
    ensures t.PageWalk(page) == PHYS_SECTION_UNASSIGNED
  {
    AlignedPageReachable(x, t.bits, t.levels, page);
    hide PagesOk, Exact, SubpagesOk, Table.PageWalk, Table.FindPage;
    var w := t.PageWalk(page);
    var bits := t.bits;
    if w != PHYS_SECTION_UNASSIGNED {
      var o := TakenOffset(t, pages, page);
      var a := PageBase(page, bits) + o;
      FoundOnPage(t, pages, page, o);
      InPageOf(page, o, bits);
      AlignedPages(x, bits, a);
      assert false;
    }
  }

  /** An offset of a taken page that resolves to a section. */
  lemma TakenOffset(t: Table, pages: set<nat>, page: nat) returns (o: nat)
    requires PagesOk(t, pages) && NoEmptySubpage(t, pages) && t.PageWalk(page) != PHYS_SECTION_UNASSIGNED
    ensures o < PageSize(t.bits)
    ensures t.PageWalk(page) < |t.sections|
    ensures t.sections[t.PageWalk(page)].mr.SubpageIo? ==>
              t.SubSection(t.sections[t.PageWalk(page)].mr.id, o) != PHYS_SECTION_UNASSIGNED
  {
    var w := t.PageWalk(page);
    assert w in pages;
    PageBounds(0, t.bits);
    o := 0;
    if t.sections[w].mr.SubpageIo? {
      o :| 0 <= o < PageSize(t.bits) && t.SubSection(t.sections[w].mr.id, o) != PHYS_SECTION_UNASSIGNED;
    }
  }

  lemma InPageOf(page: nat, o: nat, bits: nat)
    requires o < PageSize(bits)
    ensures PageOf(PageBase(page, bits) + o, bits) == page
    ensures InPage(PageBase(page, bits) + o, bits) == o
  {
    ShlLinear(page, 1, bits);
    ShrRange(PageBase(page, bits) + o, bits, page);
  }

  lemma AlignedPageReachable(x: Section, bits: nat, levels: nat, page: nat)
    requires Geometry(bits, levels) && Aligned(x, bits)
    requires PageOf(x.start, bits) <= page <= PageOf(x.start + x.size - 1, bits)
    ensures Shift(page, levels) == 0
  {
    var a := PageBase(page, bits);
    ShrOfShl(page, bits);
    AlignedPages(x, bits, a);
    LevelsSuffice(a, bits, levels);
  }

  /** Section `x`, stored last, hung on its own pages of the tree and on no others. */
  ghost predicate Hung(t: Table, t': Table, pages: set<nat>, x: Section) {
    && Aligned(x, t.bits)
    && t' == t.(sections := t.sections + [x], nodes := t'.nodes, root := t'.root)
    && Filled(t.nodes, t.root, t'.nodes, t'.root, t.levels, 0,
              PageOf(x.start, t.bits), PageOf(x.start + x.size - 1, t.bits) + 1, |t.sections|)
    && forall page: nat :: t'.PageWalk(page) in pages + {|t.sections|, PHYS_SECTION_UNASSIGNED}
  }

  ghost predicate FreeOfPages(t: Table, x: Section) {
    x.size > 0 && forall page: nat :: PageOf(x.start, t.bits) <= page <= PageOf(x.start + x.size - 1, t.bits) ==>
      t.PageWalk(page) == PHYS_SECTION_UNASSIGNED
  }

  lemma HungWalk(t: Table, t': Table, pages: set<nat>, x: Section, page: nat)
    requires Hung(t, t', pages, x) && Shift(page, t.levels) == 0
    ensures t'.PageWalk(page) ==
            if PageOf(x.start, t.bits) <= page <= PageOf(x.start + x.size - 1, t.bits)
            then |t.sections| else t.PageWalk(page)
  {}

  /** Hanging a page-aligned section on pages that led nowhere. */
  lemma MapPages(t: Table, t': Table, pages: set<nat>, x: Section)
    requires PagesOk(t, pages) && Exact(t, pages) && |t.sections| < PHYS_MAP_NODE_NIL
    requires Hung(t, t', pages, x) && FreeOfPages(t, x)
    ensures PagesOk(t', pages + {|t.sections|}) && Exact(t', pages + {|t.sections|})
  {
    hide Filled, Aligned, PageOf;
    var k, pages' := |t.sections|, pages + {|t.sections|};
    forall s, page: nat | s in pages' && InPages(t', s, page)
      ensures t'.PageWalk(page) == s
    {
      MappedForward(t, t', pages, x, s, page);
    }
    forall page: nat | Shift(page, t'.levels) == 0 && t'.PageWalk(page) in pages'
      ensures InPages(t', t'.PageWalk(page), page)
    {
      HungWalk(t, t', pages, x, page);
      if t'.PageWalk(page) != k {
        assert InPages(t, t.PageWalk(page), page);
      } else if t.PageWalk(page) == k {
        assert false;
      }
    }
  }

  lemma MappedForward(t: Table, t': Table, pages: set<nat>, x: Section, s: nat, page: nat)
    requires PagesOk(t, pages) && Hung(t, t', pages, x) && FreeOfPages(t, x)
    requires s in pages + {|t.sections|} && InPages(t', s, page)
    ensures t'.PageWalk(page) == s
  {
    hide Filled, Aligned, PageOf;
    AlignedPageReachable(t'.sections[s], t.bits, t.levels, page);
    HungWalk(t, t', pages, x, page);
    if s != |t.sections| {
      assert InPages(t, s, page);
    }
  }

  lemma MappedFind(t: Table, t': Table, pages: set<nat>, k: nat, x: Section, a: nat)
    requires PagesOk(t, pages) && PagesOk(t', pages + {k}) && k == |t.sections|
    requires t'.sections == t.sections + [x] && a < TWO64
    ensures t'.FindPage(a) == if x.Contains(a) then k else t.FindPage(a)
  {
    hide Table.PageWalk, Table.FindPage, Aligned;
    FindIsUnique(t, pages, a);
    FindIsUnique(t', pages + {k}, a);
    var f, f' := t.FindPage(a), t'.FindPage(a);
    if !x.Contains(a) {
      assert f != PHYS_SECTION_UNASSIGNED ==> t'.sections[f].Contains(a);
      assert f' != PHYS_SECTION_UNASSIGNED ==> f' in pages;
    }
  }

  /** register_multipage */
  lemma MultipageAdds(t: Table, t': Table, pages: set<nat>, x: Section)
    requires Shape(t, pages) && Exact(t, pages) && NoEmptySubpage(t, pages)
    requires Ordinary(x) && |t.sections| < PHYS_MAP_NODE_NIL && Free(t, x)
    requires Hung(t, t', pages, x)
    ensures Shape(t', pages + {|t.sections|}) && Exact(t', pages + {|t.sections|})
    ensures NoEmptySubpage(t', pages + {|t.sections|})
    ensures Adds(t, t', x, |t.sections|)
  {
    hide Filled;
    forall page: nat | PageOf(x.start, t.bits) <= page <= PageOf(x.start + x.size - 1, t.bits)
      ensures t.PageWalk(page) == PHYS_SECTION_UNASSIGNED
    {
      FreePages(t, pages, x, page);
    }
    MapPages(t, t', pages, x);
    NoEmptyKept(t, t', pages, |t.sections|);
    forall a: nat | a < TWO64
      ensures t'.Resolve(a) == if x.Contains(a) then |t.sections| else t.Resolve(a)
    {
      FindIsUnique(t, pages, a);
      MappedFind(t, t', pages, |t.sections|, x, a);
    }
  }

  lemma NoEmptyKept(t: Table, t': Table, pages: set<nat>, k: nat)
    requires NoEmptySubpage(t, pages) && t.sections <= t'.sections && t'.subpages == t.subpages && t'.bits == t.bits
    requires forall s :: s in pages ==> s < |t.sections|
    requires k < |t'.sections| && !t'.sections[k].mr.SubpageIo?
    ensures NoEmptySubpage(t', pages + {k})
  {
    forall s | s in pages + {k} && s < |t'.sections| && t'.sections[s].mr.SubpageIo?
      ensures exists o ::
                0 <= o < PageSize(t'.bits) && t'.SubSection(t'.sections[s].mr.id, o) != PHYS_SECTION_UNASSIGNED
    {
      var o :| 0 <= o < PageSize(t.bits) && t.SubSection(t.sections[s].mr.id, o) != PHYS_SECTION_UNASSIGNED;
      assert t'.SubSection(t'.sections[s].mr.id, o) == t.SubSection(t.sections[s].mr.id, o);
    }
  }

  // ---------------------------------------------------------------- sub-pages

  /** Creating the sub-page table of a page that led nowhere: no answer changes yet. */
  lemma NewSubpageKeeps(t: Table, t1: Table, t': Table, pages: set<nat>, x: Section, base: nat)
    requires Shape(t, pages) && Exact(t, pages) && NoEmptySubpage(t, pages) && |t.sections| < PHYS_MAP_NODE_NIL
    requires Hung(t, t1, pages, x) && FreeOfPages(t, x)
    requires x.mr == SubpageIo(|t.subpages|) && x.start == base && x.size == PageSize(t.bits) && x.offset == 0
    requires t' == t1.(subpages := t.subpages + [Subpage(base, seq(PageSize(t.bits), _ => PHYS_SECTION_UNASSIGNED))])
    ensures Shape(t', pages + {|t.sections|}) && Exact(t', pages + {|t.sections|})
    ensures NoEmptySubpage(t', pages)
    ensures forall a: nat {:trigger t'.Resolve(a)} :: a < TWO64 ==> t'.Resolve(a) == t.Resolve(a)
  {
    hide Filled;
    var k, pages' := |t.sections|, pages + {|t.sections|};
    MapPages(t, t1, pages, x);
    SameTree(t1, t', pages');
    NewSubpageTables(t, t', pages, x);
    NoEmptySame(t, t', pages);
    forall a: nat | a < TWO64
      ensures t'.Resolve(a) == t.Resolve(a)
    {
      MappedFind(t, t1, pages, k, x, a);
      NewSubpageResolve(t, t', pages, x, a);
    }
  }

  lemma NewSubpageTables(t: Table, t': Table, pages: set<nat>, x: Section)
    requires PagesOk(t, pages) && SubpagesOk(t, pages)
    requires x.mr == SubpageIo(|t.subpages|) && x.size == PageSize(t.bits) && x.offset == 0
    requires t'.sections == t.sections + [x] && t'.bits == t.bits
    requires t'.subpages == t.subpages + [Subpage(x.start, seq(PageSize(t.bits), _ => PHYS_SECTION_UNASSIGNED))]
    ensures SubpagesOk(t', pages + {|t.sections|})
  {}

  lemma NewSubpageResolve(t: Table, t': Table, pages: set<nat>, x: Section, a: nat)
    requires Shape(t, pages) && FreeOfPages(t, x) && Aligned(x, t.bits) && a < TWO64
    requires x.mr == SubpageIo(|t.subpages|) && t'.sections == t.sections + [x] && t'.bits == t.bits
    requires t'.subpages == t.subpages + [Subpage(x.start, seq(PageSize(t.bits), _ => PHYS_SECTION_UNASSIGNED))]
    requires t'.FindPage(a) == if x.Contains(a) then |t.sections| else t.FindPage(a)
    ensures t'.Resolve(a) == t.Resolve(a)
  {
    FindIsUnique(t, pages, a);
    if x.Contains(a) {
      AlignedPages(x, t.bits, a);
      assert t.PageWalk(PageOf(a, t.bits)) == PHYS_SECTION_UNASSIGNED;
    }
  }

  /** The sub-page tables do not matter to the tree. */
  lemma SameTree(t: Table, t': Table, pages: set<nat>)
    requires PagesOk(t, pages) && Exact(t, pages) && t' == t.(subpages := t'.subpages)
    ensures PagesOk(t', pages) && Exact(t', pages)
    ensures forall a: nat {:trigger t'.FindPage(a)} :: t'.FindPage(a) == t.FindPage(a)
  {
    assert forall page: nat {:trigger t'.PageWalk(page)} :: t'.PageWalk(page) == t.PageWalk(page);
    forall s, page: nat | s in pages && InPages(t', s, page)
      ensures t'.PageWalk(page) == s
    {
      assert InPages(t, s, page);
    }
    forall page: nat | Shift(page, t'.levels) == 0 && t'.PageWalk(page) in pages
      ensures InPages(t', t'.PageWalk(page), page)
    {
      assert InPages(t, t.PageWalk(page), page);
    }
    forall a: nat
      ensures t'.FindPage(a) == t.FindPage(a)
    {
      assert t'.PageWalk(PageOf(a, t.bits)) == t.PageWalk(PageOf(a, t.bits));
    }
  }

  lemma NoEmptySame(t: Table, t': Table, pages: set<nat>)
    requires Shape(t, pages) && NoEmptySubpage(t, pages)
    requires t.sections <= t'.sections && t.subpages <= t'.subpages && t'.bits == t.bits
    ensures NoEmptySubpage(t', pages)
  {
    forall s | s in pages && s < |t'.sections| && t'.sections[s].mr.SubpageIo?
      ensures exists o ::
                0 <= o < PageSize(t'.bits) && t'.SubSection(t'.sections[s].mr.id, o) != PHYS_SECTION_UNASSIGNED
    {
      var o :| 0 <= o < PageSize(t.bits) && t.SubSection(t.sections[s].mr.id, o) != PHYS_SECTION_UNASSIGNED;
      assert t'.SubSection(t'.sections[s].mr.id, o) == t.SubSection(t.sections[s].mr.id, o);
    }
  }

  /** Sub-page table `id` with offsets `lo .. hi` pointing to section `k`. */
  function Registered(sub: seq<nat>, lo: nat, hi: int, k: nat): (r: seq<nat>)
    ensures |r| == |sub|
  {
    seq(|sub|, o requires 0 <= o < |sub| => if lo <= o <= hi then k else sub[o])
  }

  /** The offsets of a piece inside one page are a range of that page. */
  lemma PieceOffsets(piece: Section, bits: nat, a: nat)
    requires piece.Ok() && PageOf(piece.start, bits) == PageOf(piece.start + piece.size - 1, bits)
    ensures piece.Contains(a) <==> PageOf(a, bits) == PageOf(piece.start, bits) &&
                                   0 <= InPage(a, bits) - InPage(piece.start, bits) < piece.size
    ensures InPage(piece.start, bits) + piece.size <= PageSize(bits)
  {
    var p := PageOf(piece.start, bits);
    PageBounds(piece.start, bits);
    PageBounds(piece.start + piece.size - 1, bits);
    PageBounds(a, bits);
    PageOrder(a, p, bits);
    PageOrder(a, p + 1, bits);
  }

  /** Storing a piece and pointing its offsets of an existing sub-page table at it. */
  lemma SubpageAdds(t: Table, t': Table, pages: set<nat>, w: nat, piece: Section)
    requires Shape(t, pages) && Exact(t, pages) && |t.sections| < PHYS_MAP_NODE_NIL
    requires w in pages && t.sections[w].mr.SubpageIo? && NoEmptySubpage(t, pages - {w})
    requires Ordinary(piece) && PageOf(piece.start, t.bits) == PageOf(piece.start + piece.size - 1, t.bits)
    requires PageOf(piece.start, t.bits) == t.FirstPage(w)
    requires var id := t.sections[w].mr.id; var o := InPage(piece.start, t.bits);
             var sub := Registered(t.subpages[id].sub, o, o + piece.size - 1, |t.sections|);
             t' == t.(sections := t.sections + [piece], subpages := t.subpages[id := t.subpages[id].(sub := sub)])
    ensures Shape(t', pages) && Exact(t', pages) && NoEmptySubpage(t', pages)
    ensures Adds(t, t', piece, |t.sections|)
  {
    var t1 := t.(sections := t.sections + [piece]);
    AppendSection(t, t1, pages, piece);
    SameTree(t1, t', pages);
    SubpagesKept(t, t', pages, w, piece);
    NoEmptyFilled(t, t', pages, w, piece);
    forall a: nat | a < TWO64
      ensures t'.Resolve(a) == if piece.Contains(a) then |t.sections| else t.Resolve(a)
    {
      SubpageResolve(t, t1, t', pages, w, piece, a);
    }
  }

  lemma SubpagesKept(t: Table, t': Table, pages: set<nat>, w: nat, piece: Section)
    requires SubpagesOk(t, pages) && PagesOk(t, pages) && w in pages && t.sections[w].mr.SubpageIo?
    requires !piece.mr.SubpageIo?
    requires var id := t.sections[w].mr.id;
             && t'.bits == t.bits && t'.sections == t.sections + [piece]
             && |t'.subpages| == |t.subpages|
             && (forall j :: 0 <= j < |t.subpages| && j != id ==> t'.subpages[j] == t.subpages[j])
             && t'.subpages[id].base == t.subpages[id].base && |t'.subpages[id].sub| == |t.subpages[id].sub|
             && (forall o :: 0 <= o < |t.subpages[id].sub| ==>
                   t'.subpages[id].sub[o] == |t.sections| || t'.subpages[id].sub[o] == t.subpages[id].sub[o])
    ensures SubpagesOk(t', pages)
  {}

  lemma NoEmptyFilled(t: Table, t': Table, pages: set<nat>, w: nat, piece: Section)
    requires Shape(t, pages) && w in pages && t.sections[w].mr.SubpageIo? && NoEmptySubpage(t, pages - {w})
    requires piece.Ok() && PageOf(piece.start, t.bits) == PageOf(piece.start + piece.size - 1, t.bits)
    requires var id := t.sections[w].mr.id; var o := InPage(piece.start, t.bits);
             var sub := Registered(t.subpages[id].sub, o, o + piece.size - 1, |t.sections|);
             t' == t.(sections := t.sections + [piece], subpages := t.subpages[id := t.subpages[id].(sub := sub)])
    ensures NoEmptySubpage(t', pages)
  {
    PieceOffsets(piece, t.bits, piece.start);
    forall s | s in pages && s < |t'.sections| && t'.sections[s].mr.SubpageIo?
      ensures exists o ::
                0 <= o < PageSize(t'.bits) && t'.SubSection(t'.sections[s].mr.id, o) != PHYS_SECTION_UNASSIGNED
    {
      var id := t.sections[s].mr.id;
      if s == w {
        var o := InPage(piece.start, t.bits);
        assert t'.SubSection(id, o) == |t.sections|;
      } else {
        assert s in pages - {w};
        var o :| 0 <= o < PageSize(t.bits) && t.SubSection(id, o) != PHYS_SECTION_UNASSIGNED;
        assert t'.SubSection(id, o) == t.SubSection(id, o);
      }
    }
  }

  lemma SubpageResolve(t: Table, t1: Table, t': Table, pages: set<nat>, w: nat, piece: Section, a: nat)
    requires Shape(t, pages) && a < TWO64
    requires w in pages && t.sections[w].mr.SubpageIo?
    requires piece.Ok() && PageOf(piece.start, t.bits) == PageOf(piece.start + piece.size - 1, t.bits)
    requires PageOf(piece.start, t.bits) == t.FirstPage(w)
    requires t1 == t.(sections := t.sections + [piece]) && t1.FindPage(a) == t.FindPage(a)
    requires var id := t.sections[w].mr.id; var o := InPage(piece.start, t.bits);
             var sub := Registered(t.subpages[id].sub, o, o + piece.size - 1, |t.sections|);
             t' == t1.(subpages := t.subpages[id := t.subpages[id].(sub := sub)])
    ensures t'.Resolve(a) == if piece.Contains(a) then |t.sections| else t.Resolve(a)
  {
    var id := t.sections[w].mr.id;
    var f := t.FindPage(a);
    assert t'.FindPage(a) == f;
    PieceOffsets(piece, t.bits, a);
    FindIsUnique(t, pages, a);
    AlignedPages(t.sections[w], t.bits, a);
    OnePage(t.sections[w], t.bits);
    if f == w {
      assert t'.Resolve(a) == t'.SubSection(id, InPage(a, t.bits));
    } else if f < |t.sections| && t.sections[f].mr.SubpageIo? {
      assert t.sections[f].mr.id != id;
    }
  }

  lemma OnePage(x: Section, bits: nat)
    requires Aligned(x, bits) && x.size == PageSize(bits)
    ensures PageOf(x.start + x.size - 1, bits) == PageOf(x.start, bits)
  {
    PageBounds(x.start, bits);
    ShrRange(x.start + x.size - 1, bits, PageOf(x.start, bits));
  }
}
