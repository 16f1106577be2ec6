/** The dispatch table of one address space, built section by section, compacted once, and then
    looked up through the most recently used section. */
module Dispatch {
  import opened Bits
  import opened PageTree
  import opened PhysMaps
  import opened DispatchTable
  import opened DispatchSteps

  /** `piece` is part of `r`, at the place in `r`'s region where it belongs. */
  predicate PieceOf(piece: Section, r: Section) {
    && piece.mr == r.mr
    && r.start <= piece.start && piece.start + piece.size <= r.start + r.size
    && piece.offset - r.offset == piece.start - r.start
  }

  predicate Disjoint(r: Section, r': Section) {
    r.start + r.size <= r'.start || r'.start + r'.size <= r.start
  }

  /** The first page boundary at or after `a`, and the last one at or before it. */
  function Up(a: nat, bits: nat): nat {
    if InPage(a, bits) == 0 then a else a + PageSize(bits) - InPage(a, bits)
  }

  function Down(a: nat, bits: nat): nat {
    PageBounds(a, bits);
    a - InPage(a, bits)
  }

  /** A section is cut into the part of a page before its first page boundary, its whole pages, and the part
      of a page after its last page boundary.  This is the end of the part that address `a` falls into. */
  function PartEnd(r: Section, a: nat, bits: nat): nat {
    var end := r.start + r.size;
    if a < Up(r.start, bits) then Min(Up(r.start, bits), end)
    else if a < Down(end, bits) then Down(end, bits)
    else end
  }

  /** Address `a` is answered by the part of the registered section that contains it, or by nobody. */
  ghost predicate AnswerAt(t: Table, registered: seq<Section>, a: nat) {
    var s := t.Resolve(a);
    && s < |t.sections|
    && (s == PHYS_SECTION_UNASSIGNED <==> forall i :: 0 <= i < |registered| ==> !registered[i].Contains(a))
    && (forall i :: 0 <= i < |registered| && registered[i].Contains(a) ==>
          && t.sections[s].Contains(a) && PieceOf(t.sections[s], registered[i])
          && t.sections[s].start + t.sections[s].size == PartEnd(registered[i], a, t.bits))
  }

  ghost predicate Answers(t: Table, registered: seq<Section>) {
    forall a: nat :: a < TWO64 ==> AnswerAt(t, registered, a)
  }

  /** The same answers, when the answering table only gained sections. */
  lemma SameAnswers(t: Table, t': Table, registered: seq<Section>)
    requires Answers(t, registered) && t.sections <= t'.sections && t'.bits == t.bits
    requires forall a: nat :: a < TWO64 ==> t'.Resolve(a) == t.Resolve(a)
    ensures Answers(t', registered)
  {
    forall a: nat | a < TWO64
      ensures AnswerAt(t', registered, a)
    {
      assert AnswerAt(t, registered, a);
    }
  }

  /** Adding `piece` to the part `done` of a section leaves the cuts in `done` where they are and makes no
      cut in `piece`. */
  ghost predicate CutsFit(done: Section, piece: Section, bits: nat) {
    var done' := done.(size := done.size + piece.size);
    && (forall a: nat :: done.Contains(a) ==> PartEnd(done', a, bits) == PartEnd(done, a, bits))
    && (forall a: nat :: piece.Contains(a) ==> PartEnd(done', a, bits) == piece.start + piece.size)
  }

  lemma UpFacts(a: nat, b: nat, bits: nat)
    requires a <= b && InPage(b, bits) == 0
    ensures a <= Up(a, bits) <= b
  {
    hide Shl, Shr;
    PageBounds(a, bits);
    PageBounds(b, bits);
    PageOrder(b, PageOf(a, bits), bits);
    if PageOf(a, bits) == PageOf(b, bits) {
      assert a == b;
    } else {
      PageOrder(b, PageOf(a, bits) + 1, bits);
    }
  }

  lemma DownFacts(a: nat, b: nat, bits: nat)
    requires a <= b < a + PageSize(bits) && InPage(a, bits) == 0
    ensures Down(b, bits) == a
  {
    hide Shl, Shr;
    PageBounds(a, bits);
    InPageOf(PageOf(a, bits), b - a, bits);
  }

  /** The part up to the first page boundary. */
  lemma HeadFits(done: Section, piece: Section, bits: nat)
    requires done.size == 0 && piece.start == done.start && piece.start + piece.size <= Up(done.start, bits)
    ensures CutsFit(done, piece, bits)
  {}

  /** Whole pages from the first page boundary on. */
  lemma PagesFit(done: Section, piece: Section, bits: nat)
    requires piece.start == done.start + done.size == Up(done.start, bits)
    requires InPage(piece.start + piece.size, bits) == 0
    ensures CutsFit(done, piece, bits)
  {
    hide InPage;
    PageBounds(0, bits);
    UpFacts(done.start, piece.start + piece.size, bits);
    DownFacts(piece.start + piece.size, piece.start + piece.size, bits);
  }

  /** Less than a page after a page boundary. */
  lemma TailFits(done: Section, piece: Section, bits: nat)
    requires piece.start == done.start + done.size && InPage(piece.start, bits) == 0 && piece.size < PageSize(bits)
    ensures CutsFit(done, piece, bits)
  {
    hide InPage;
    PageBounds(0, bits);
    UpFacts(done.start, piece.start, bits);
    DownFacts(piece.start, piece.start, bits);
    DownFacts(piece.start, piece.start + piece.size, bits);
  }

  /** A piece that continues the registered part of a section extends that part. */
  lemma ExtendAnswers(t: Table, t': Table, registered: seq<Section>, done: Section, piece: Section, done': Section,
                      k: nat)
    requires Answers(t, registered + [done]) && Adds(t, t', piece, k)
    requires piece.start == done.start + done.size && piece.mr == done.mr && piece.offset == done.offset + done.size
    requires done' == done.(size := done.size + piece.size) && CutsFit(done, piece, t.bits)
    requires forall i :: 0 <= i < |registered| ==> Disjoint(registered[i], done')
    ensures Answers(t', registered + [done'])
  {
    var rs, rs' := registered + [done], registered + [done'];
    var n := |registered|;
    forall a: nat | a < TWO64
      ensures AnswerAt(t', rs', a)
    {
      assert AnswerAt(t, rs, a);
      assert t'.Resolve(a) == if piece.Contains(a) then k else t.Resolve(a);
      assert forall i :: 0 <= i < n ==> rs'[i] == rs[i] == registered[i];
      assert rs[n] == done && rs'[n] == done';
      if !piece.Contains(a) {
        assert done'.Contains(a) <==> done.Contains(a);
        assert forall i :: 0 <= i <= n ==> (rs'[i].Contains(a) <==> rs[i].Contains(a));
      }
    }
  }

  lemma EmptyPart(t: Table, registered: seq<Section>, done: Section)
    requires Answers(t, registered) && done.size == 0
    ensures Answers(t, registered + [done])
  {
    var rs := registered + [done];
    forall a: nat | a < TWO64
      ensures AnswerAt(t, rs, a)
    {
      assert AnswerAt(t, registered, a);
      assert forall i :: 0 <= i < |registered| ==> rs[i] == registered[i];
    }
  }

  /** Addresses outside all registered sections are free. */
  lemma FreeOutside(t: Table, registered: seq<Section>, piece: Section)
    requires Answers(t, registered) && piece.Ok()
    requires forall i :: 0 <= i < |registered| ==> Disjoint(registered[i], piece)
    ensures Free(t, piece)
  {
    forall a: nat | piece.Contains(a)
      ensures t.Resolve(a) == PHYS_SECTION_UNASSIGNED
    {
      assert AnswerAt(t, registered, a);
    }
  }

  class AddressSpaceDispatch {
    const bits: nat                  // TARGET_PAGE_BITS
    const tree: PhysMap
    var sections: seq<Section>
    var subpages: seq<Subpage>
    var mru: int                     // mru_section, -1 when it is null
    ghost var pages: set<nat>        // sections that the tree leads to
    ghost var level: seq<nat>        // level of each node, once compacted
    ghost var compacted: bool

    function T(): Table
      reads this, tree
    {
      Table(bits, tree.levels, tree.root, tree.nodes, sections, subpages)
    }

    ghost predicate Common()
      reads this, tree
    {
      && Shape(T(), pages) && NoEmptySubpage(T(), pages)
      && |sections| <= PageSize(bits)
      && |tree.nodes| <= 13 * |sections|
      && (mru == -1 || mru == PHYS_SECTION_UNASSIGNED || mru in pages)
    }

    ghost predicate Growing()
      reads this, tree
    {
      Common() && !compacted && tree.Built(pages + {PHYS_SECTION_UNASSIGNED}) && Exact(T(), pages)
    }

    ghost predicate Ready()
      reads this, tree
    {
      && Common() && compacted
      && WellFormed(tree.nodes, level, pages + {PHYS_SECTION_UNASSIGNED})
      && EntryOk(tree.root, level, tree.levels, pages + {PHYS_SECTION_UNASSIGNED})
    }

    lemma ReadyShape()
      requires Ready()
      ensures Shape(T(), pages)
    {}

    lemma GrowingGeometry()
      requires Growing()
      ensures 1 <= bits <= 16 && Geometry(bits, tree.levels) && |sections| > 0
    {}

    constructor (bits: nat)
      requires 1 <= bits <= 16
      ensures Growing() && Answers(T(), []) && this.bits == bits && |sections| == 1 && mru == -1 && fresh(tree)
    {
      this.bits := bits;
      tree := new PhysMap(LevelsFor(bits));
      sections, subpages, mru := [], [], -1;
      pages, level, compacted := {}, [], false;
      new;
      var ok, n := SectionAdd(DummySection);
      PageBounds(0, bits);
      assert ok && n == PHYS_SECTION_UNASSIGNED;
      StartTable(T());
    }

    /** phys_section_add: `ok` is its assertion that the section number fits below the page size. */
    method SectionAdd(x: Section) returns (ok: bool, n: nat)
      modifies this`sections
      ensures ok <==> old(|sections|) < PageSize(bits)
      ensures n == old(|sections|)
      ensures sections == if ok then old(sections) + [x] else old(sections)
    {
      n := |sections|;
      ok := n < PageSize(bits);
      if ok {
        sections := sections + [x];
      }
    }

    /** phys_page_find */
    method PageFind(addr: nat, ghost lv: seq<nat>) returns (s: nat)
      requires PagesOk(T(), pages)
      requires WellFormed(tree.nodes, lv, pages + {PHYS_SECTION_UNASSIGNED})
      requires EntryOk(tree.root, lv, tree.levels, pages + {PHYS_SECTION_UNASSIGNED})
      ensures s == T().FindPage(addr)
    {
      var lp, nodes, page, i := tree.root, tree.nodes, PageOf(addr, bits), tree.levels;
      while lp.skip != 0 && i - lp.skip >= 0
        invariant 0 <= i && EntryOk(lp, lv, i, pages + {PHYS_SECTION_UNASSIGNED})
        invariant Walk(nodes, lp, i, page) == T().PageWalk(page)
        decreases i
      {
        i := i - lp.skip;
        if lp.ptr == PHYS_MAP_NODE_NIL {
          CoversDummy(addr);
          return PHYS_SECTION_UNASSIGNED;
        }
        lp := nodes[lp.ptr][Digit(page, i)];
      }
      if Covers(sections[lp.ptr], addr) {
        s := lp.ptr;
      } else {
        s := PHYS_SECTION_UNASSIGNED;
      }
    }

    /** subpage_register */
    method SubpageRegister(id: nat, start: nat, end: nat, section: nat) returns (ok: bool)
      requires id < |subpages| && |subpages[id].sub| == PageSize(bits)
      modifies this`subpages
      ensures ok <==> start < PageSize(bits) && end < PageSize(bits)
      ensures ok ==>
                subpages == old(subpages)[id := old(subpages)[id].(sub := Registered(old(subpages)[id].sub, start, end,
                                                                                     section))]
      ensures !ok ==> subpages == old(subpages)
    {
      if start >= PageSize(bits) || end >= PageSize(bits) {
        return false;
      }
      var sub, idx := subpages[id].sub, start;
      ghost var was := sub;
      while idx <= end
        invariant start <= idx <= PageSize(bits) && (idx <= end + 1 || idx == start)
        invariant |sub| == |was|
        invariant forall o :: 0 <= o < |was| ==> sub[o] == if start <= o < idx && o <= end then section else was[o]
        decreases end + 1 - idx
      {
        sub := sub[idx := section];
        idx := idx + 1;
      }
      assert sub == Registered(was, start, end, section);
      subpages := subpages[id := subpages[id].(sub := sub)];
      ok := true;
    }

    /** phys_page_set on the pages of the section stored last. */
    method HangPages(index: nat, nb: nat, n: nat, ghost t: Table, ghost x: Section)
      requires T() == t.(sections := t.sections + [x]) && n == |t.sections| > 0
      requires Geometry(t.bits, t.levels) && t.levels > 0
      requires |t.sections| < PageSize(t.bits) && |t.nodes| <= 13 * |t.sections|
      requires tree.Built(pages + {PHYS_SECTION_UNASSIGNED})
      requires Aligned(x, t.bits) && FreeOfPages(t, x)
      requires index == PageOf(x.start, t.bits) && index + nb == PageOf(x.start + x.size - 1, t.bits) + 1
      modifies this`pages, tree
      ensures pages == old(pages) + {n} && Hung(t, T(), old(pages), x)
      ensures tree.Built(pages + {PHYS_SECTION_UNASSIGNED})
      ensures |tree.nodes| <= 13 * |sections|
    {
      ghost var leaves := pages + {n} + {PHYS_SECTION_UNASSIGNED};
      TopIsAligned(t.bits);
      MoreLeaves(tree.nodes, tree.pos, tree.root, tree.levels, pages + {PHYS_SECTION_UNASSIGNED}, leaves);
      LevelsSuffice(x.start + x.size - 1, t.bits, t.levels);
      PagesUnassigned(t, x);
      hide Filled, Unassigned, FreeOfPages, Building;
      tree.PageSet(index, nb, n, leaves);
      pages := pages + {n};
      WalksInLeaves(tree.nodes, tree.pos, tree.root, tree.levels, leaves);
    }

    /** register_multipage */
    method RegisterMultipage(x: Section) returns (ok: bool)
      requires Growing() && Aligned(x, bits) && Ordinary(x) && Free(T(), x)
      modifies this, tree
      ensures !ok ==> old(|sections|) == PageSize(bits)
      ensures ok ==> Growing() && Adds(old(T()), T(), x, old(|sections|)) && |sections| == old(|sections|) + 1
    {
      ghost var t, pages0 := T(), pages;
      TopIsAligned(bits);
      PageCount(x, bits);
      AllPagesFree(t, pages, x);
      var n;
      ok, n := SectionAdd(x);
      if !ok {
        return;
      }
      var numPages := Shr(x.size, bits);
      HangPages(PageOf(x.start, bits), numPages, n, t, x);
      MultipageAdds(t, T(), pages0, x);
    }

    /** The part of register_subpage that turns an unassigned page into a sub-page. */
    method NewSubpage(page: nat, base: nat) returns (ok: bool, w: nat)
      requires Growing() && base == PageBase(page, bits) && base < TWO64
      requires T().PageWalk(page) == PHYS_SECTION_UNASSIGNED
      modifies this, tree
      ensures !ok ==> old(|sections|) == PageSize(bits)
      ensures ok ==> |sections| == old(|sections|) + 1 && old(sections) <= sections
      ensures ok ==> Shape(T(), pages) && Exact(T(), pages) && NoEmptySubpage(T(), pages - {w})
      ensures ok ==> w in pages && sections[w].mr.SubpageIo? && T().FirstPage(w) == page
      ensures ok ==> !compacted && tree.Built(pages + {PHYS_SECTION_UNASSIGNED}) && |tree.nodes| <= 13 * |sections|
      ensures ok ==> (mru == -1 || mru == PHYS_SECTION_UNASSIGNED || mru in pages)
      ensures ok ==> forall a: nat {:trigger T().Resolve(a)} :: a < TWO64 ==> T().Resolve(a) == old(T()).Resolve(a)
    {
      hide PagesOk, SubpagesOk, Exact, NoEmptySubpage, Aligned, Filled, Building, Table.PageWalk, Table.FindPage, Shl;
      hide Shr;
      ghost var t, pages0 := T(), pages;
      GeometryOf(t, pages);
      var id := |subpages|;
      var x := Section(SubpageIo(id), base, PageSize(bits), 0);
      OnePageSection(x, page, bits);
      ok, w := SectionAdd(x);
      if !ok {
        return;
      }
      HangPages(page, 1, w, t, x);
      ghost var t1 := T();
      subpages := subpages + [Subpage(base, seq(PageSize(bits), _ => PHYS_SECTION_UNASSIGNED))];
      TopIsAligned(bits);
      NewSubpageKeeps(t, t1, T(), pages0, x, base);
      assert pages - {w} == pages0;
    }

    /** register_subpage.  Its assertion, that the page is unassigned or already a sub-page, is the
        assertion below. */
    method RegisterSubpage(x: Section) returns (ok: bool)
      requires Growing() && Ordinary(x) && PageOf(x.start, bits) == PageOf(x.start + x.size - 1, bits) && Free(T(), x)
      modifies this, tree
      ensures !ok ==> old(|sections|) + 2 > PageSize(bits)
      ensures ok ==> Growing() && 0 < |sections| <= old(|sections|) + 2 && Adds(old(T()), T(), x, |sections| - 1)
    {
      hide SubpagesOk, Exact, NoEmptySubpage, Aligned, Filled, Building, Table.PageWalk, Table.FindPage, Shl, Shr;
      ghost var t0 := T();
      NoEmptyWithout(t0, pages);
      PageBounds(x.start, bits);
      var base := PageBase(PageOf(x.start, bits), bits);
      BuildingIsWellFormed(tree.nodes, tree.pos, pages + {PHYS_SECTION_UNASSIGNED});
      var existing := PageFind(base, Levels(tree.pos));
      ExistingIsSubpage(t0, pages, x, existing);
      assert sections[existing].mr.SubpageIo? || sections[existing].mr == UnassignedIo;
      var w := existing;
      if !sections[existing].mr.SubpageIo? {
        ok, w := NewSubpage(PageOf(x.start, bits), base);
        if !ok {
          return;
        }
      }
      ghost var t1 := T();
      SubpageOf(t1, pages, w);
      var id := sections[w].mr.id;
      var n;
      ok, n := SectionAdd(x);
      if !ok {
        return;
      }
      var start := InPage(x.start, bits);
      PieceOffsets(x, bits, x.start);
      ok := SubpageRegister(id, start, start + x.size - 1, n);
      TopIsAligned(bits);
      SubpageAdds(t1, T(), pages, w, x);
    }

    /** Register the piece that follows the part `done` of `section`, by sub-page or by whole pages. */
    method AddPiece(piece: Section, whole: bool, ghost registered: seq<Section>, ghost section: Section,
                    ghost done: Section)
      returns (ok: bool)
      requires Growing() && Answers(T(), registered + [done]) && Ordinary(section)
      requires forall i :: 0 <= i < |registered| ==> Disjoint(registered[i], section)
      requires done == section.(size := done.size) && Continues(piece, done, section) && CutsFit(done, piece, bits)
      requires if whole then Aligned(piece, bits)
               else PageOf(piece.start, bits) == PageOf(piece.start + piece.size - 1, bits)
      modifies this, tree
      ensures !ok ==> old(|sections|) + (if whole then 1 else 2) > PageSize(bits)
      ensures ok ==> Growing() && Answers(T(), registered + [done.(size := done.size + piece.size)])
      ensures ok ==> 0 < |sections| <= old(|sections|) + if whole then 1 else 2
    {
      hide Growing, Adds, Answers, Free, Aligned, CutsFit, Shl, Shr;
      ghost var t, next := T(), done.(size := done.size + piece.size);
      Contiguous(t, registered, section, done, piece, next);
      if whole {
        ok := RegisterMultipage(piece);
      } else {
        ok := RegisterSubpage(piece);
      }
      if ok {
        ExtendAnswers(t, T(), registered, done, piece, next, |sections| - 1);
      }
    }

    /** The part of flatview_add_to_dispatch after the head: whole pages, then a tail sub-page. */
    method AddAligned(remain: Section, ghost registered: seq<Section>, ghost section: Section, ghost done: Section)
      returns (ok: bool)
      requires Growing() && Answers(T(), registered + [done]) && Ordinary(section)
      requires forall i :: 0 <= i < |registered| ==> Disjoint(registered[i], section)
      requires done == section.(size := done.size) && Continues(remain, done, section)
      requires done.size + remain.size == section.size && InPage(remain.start, bits) == 0
      requires remain.start == Up(section.start, bits)
      modifies this, tree
      ensures !ok ==> old(|sections|) + 3 > PageSize(bits)
      ensures ok ==> Growing() && Answers(T(), registered + [section]) && |sections| <= old(|sections|) + 3
    {
      hide Growing, Answers, Disjoint, Aligned, PageOf, PageBase, InPage, PageSize, Shl, Shr;
      GrowingGeometry();
      var rest := remain;
      ghost var done := done;
      if remain.size >= PageSize(bits) {
        var now := remain.(size := Shl(Shr(remain.size, bits), bits));
        WholePages(remain, bits);
        PagesFit(done, now, bits);
        ok := AddPiece(now, true, registered, section, done);
        if !ok || remain.size == now.size {
          return;
        }
        done := done.(size := done.size + now.size);
        rest := Rest(remain, now);
      }
      TailPiece(rest, bits);
      TailFits(done, rest, bits);
      ok := AddPiece(rest, false, registered, section, done);
    }

    /** flatview_add_to_dispatch: head sub-page, whole pages, tail sub-page.  `registered` are the
        sections added before; a refusal means the section numbers ran out. */
    method Add(section: Section, ghost registered: seq<Section>) returns (ok: bool)
      requires Growing() && Answers(T(), registered) && Ordinary(section)
      requires forall i :: 0 <= i < |registered| ==> Disjoint(registered[i], section)
      modifies this, tree
      ensures !ok ==> old(|sections|) + 5 > PageSize(bits)
      ensures ok ==> Growing() && Answers(T(), registered + [section]) && |sections| <= old(|sections|) + 5
    {
      hide Growing, Answers, Disjoint, Aligned, PageOf, PageBase, InPage, PageSize, Shl, Shr;
      GrowingGeometry();
      var remain := section;
      ghost var done := section.(size := 0);
      EmptyPart(T(), registered, done);
      if InPage(remain.start, bits) != 0 {
        var up := PageBase(PageOf(remain.start + PageSize(bits) - 1, bits), bits) % TWO64;
        var left := (up + TWO64 - remain.start) % TWO64;
        HeadPiece(remain, bits);
        var now := remain.(size := Min(left, remain.size));
        HeadFits(done, now, bits);
        ok := AddPiece(now, false, registered, section, done);
        if !ok || remain.size == now.size {
          return;
        }
        done := done.(size := now.size);
        remain := Rest(remain, now);
      }
      ok := AddAligned(remain, registered, section, done);
    }

    /** address_space_dispatch_compact: no address is answered differently. */
    method Compact(ghost registered: seq<Section>)
      requires Growing() && Answers(T(), registered)
      modifies this, tree
      ensures Ready() && Answers(T(), registered)
      ensures sections == old(sections) && subpages == old(subpages)
      ensures forall a: nat {:trigger T().FindPage(a)} :: a < TWO64 ==> T().FindPage(a) == old(T()).FindPage(a)
      ensures Tight(tree.nodes, tree.root, tree.levels)
    {
      ghost var t, leaves := T(), pages + {PHYS_SECTION_UNASSIGNED};
      BuildingIsWellFormed(tree.nodes, tree.pos, leaves);
      level := Levels(tree.pos);
      tree.DispatchCompact(level, leaves);
      compacted := true;
      CompactedTable(t, T(), pages, level);
      SameAnswers(t, T(), registered);
    }

    /** address_space_lookup_region: the most recently used section is only a short cut. */
    method LookupRegion(addr: nat, resolveSubpage: bool) returns (s: nat)
      requires Ready() && addr < TWO64
      modifies this`mru
      ensures Ready()
      ensures s == if resolveSubpage then T().Resolve(addr) else T().FindPage(addr)
      ensures mru == T().FindPage(addr)
      ensures s < |sections| && sections[0] == DummySection
    {
      FindIsUnique(T(), pages, addr);
      if mru == -1 || mru == PHYS_SECTION_UNASSIGNED || !Covers(sections[mru], addr) {
        s := PageFind(addr, level);
        mru := s;
      } else {
        s := mru;
        CoversIsContains(sections[mru], addr);
      }
      if resolveSubpage && sections[s].mr.SubpageIo? {
        s := subpages[sections[s].mr.id].sub[InPage(addr, bits)];
      }
    }

    /** address_space_translate_internal: the access goes to the registered section that contains the
        address, at the address's place in its region, and a RAM access is cut at the end of the part of
        that section that the address falls into, and nowhere before.  Sub-pages that are not resolved lead
        there in a second step, with an address put together from their base and the place in them. */
    method Translate(addr: nat, plen: nat, resolve: bool, ghost registered: seq<Section>)
      returns (s: nat, xlat: nat, len: nat)
      requires Ready() && Answers(T(), registered) && addr < TWO64
      requires forall i :: 0 <= i < |registered| ==> registered[i].Ok()
      modifies this`mru
      ensures Ready() && Answers(T(), registered) && s < |sections|
      ensures sections[s].mr.SubpageIo? ==>
                && !resolve && sections[s].mr.id < |subpages| && len == plen
                && subpages[sections[s].mr.id].base + xlat == addr
                && T().SubSection(sections[s].mr.id, xlat) == T().Resolve(addr)
      ensures !sections[s].mr.SubpageIo? ==> s == T().Resolve(addr)
      ensures forall i :: 0 <= i < |registered| && registered[i].Contains(addr) && !sections[s].mr.SubpageIo? ==>
                && sections[s].mr == registered[i].mr
                && xlat == addr - registered[i].start + registered[i].offset
                && (registered[i].mr.Mapped? && registered[i].mr.ram ==>
                      && addr < PartEnd(registered[i], addr, bits) <= registered[i].start + registered[i].size
                      && len == Min(plen, PartEnd(registered[i], addr, bits) - addr))
                && (registered[i].mr.Mapped? && !registered[i].mr.ram ==> len == plen)
      ensures (forall i :: 0 <= i < |registered| ==> !registered[i].Contains(addr)) && !sections[s].mr.SubpageIo? ==>
                s == PHYS_SECTION_UNASSIGNED && sections[s].mr == UnassignedIo && xlat == addr && len == plen
    {
      hide Ready, Answers, Table.Resolve, Table.FindPage, PieceOf, PartEnd;
      ghost var t := T();
      ReadyShape();
      s := LookupRegion(addr, resolve);
      InSubpage(t, pages, addr);
      var section := sections[s];
      Located(t, registered, addr);
      var off := (addr + TWO64 - section.start) % TWO64;
      xlat := (off + section.offset) % TWO64;
      len := plen;
      if section.mr.Mapped? && section.mr.ram {
        var diff := section.size - off;
        len := if diff < plen then diff else plen;
      }
    }
  }

  /** What an answer says about the answering section: where its start, its place in the region and
      its end are, against the registered section that contains the address. */
  lemma Located(t: Table, registered: seq<Section>, a: nat)
    requires Answers(t, registered) && a < TWO64 && |t.sections| > 0 && t.sections[0] == DummySection
    requires forall i :: 0 <= i < |registered| ==> registered[i].Ok()
    ensures t.Resolve(a) < |t.sections|
    ensures var x := t.sections[t.Resolve(a)];
            && x.start <= a < x.start + x.size
            && (a + TWO64 - x.start) % TWO64 == a - x.start
            && (a - x.start + x.offset) % TWO64 == a - x.start + x.offset
            && (forall i :: 0 <= i < |registered| && registered[i].Contains(a) ==>
                  && x.mr == registered[i].mr && x.offset - x.start == registered[i].offset - registered[i].start
                  && x.start + x.size <= registered[i].start + registered[i].size
                  && x.start + x.size == PartEnd(registered[i], a, t.bits))
    ensures (forall i :: 0 <= i < |registered| ==> !registered[i].Contains(a)) ==>
              t.Resolve(a) == PHYS_SECTION_UNASSIGNED
  {
    assert AnswerAt(t, registered, a);
    var s := t.Resolve(a);
    var x := t.sections[s];
    if s != PHYS_SECTION_UNASSIGNED {
      var i :| 0 <= i < |registered| && registered[i].Contains(a);
      assert PieceOf(x, registered[i]);
    }
    assert a + TWO64 - x.start == TWO64 * 1 + (a - x.start);
  }

  /** A sub-page section covers the page of the address, from its first byte; resolved, it leads to an
      ordinary section. */
  lemma InSubpage(t: Table, pages: set<nat>, a: nat)
    requires Shape(t, pages) && a < TWO64
    ensures t.Resolve(a) < |t.sections| && !t.sections[t.Resolve(a)].mr.SubpageIo?
    ensures t.FindPage(a) < |t.sections|
    ensures var x := t.sections[t.FindPage(a)];
            if x.mr.SubpageIo? then
              && x.mr.id < |t.subpages| && x.offset == 0 && t.subpages[x.mr.id].base == x.start <= a < TWO64
              && (a + TWO64 - x.start) % TWO64 == a - x.start
              && t.SubSection(x.mr.id, a - x.start) == t.Resolve(a)
            else
              t.Resolve(a) == t.FindPage(a)
  {
    FindIsUnique(t, pages, a);
    var x := t.sections[t.FindPage(a)];
    if x.mr.SubpageIo? {
      assert a + TWO64 - x.start == TWO64 * 1 + (a - x.start);
      PageOrder(a, PageOf(x.start, t.bits), t.bits);
      PageOrder(a, PageOf(x.start, t.bits) + 1, t.bits);
      PageBounds(x.start, t.bits);
    }
  }

  /** A compacted tree still leads every page of every section to it, which is all that the
      answers depend on. */
  lemma CompactedTable(t: Table, t': Table, pages: set<nat>, level: seq<nat>)
    requires Shape(t, pages) && NoEmptySubpage(t, pages)
    requires t' == t.(root := t'.root, nodes := t'.nodes)
    requires Still(t.nodes, t.root, t'.nodes, t'.root, t.levels)
    requires WellFormed(t'.nodes, level, pages + {PHYS_SECTION_UNASSIGNED})
    requires EntryOk(t'.root, level, t.levels, pages + {PHYS_SECTION_UNASSIGNED})
    ensures Shape(t', pages) && NoEmptySubpage(t', pages)
    ensures forall a: nat {:trigger t'.FindPage(a)} {:trigger t'.Resolve(a)} :: a < TWO64 ==>
              t'.FindPage(a) == t.FindPage(a) && t'.Resolve(a) == t.Resolve(a)
  {
    forall s, page: nat | s in pages && InPages(t', s, page)
      ensures t'.PageWalk(page) == s
    {
      assert InPages(t, s, page);
      assert t.PageWalk(page) == s;
    }
    forall page: nat
      ensures t'.PageWalk(page) == PHYS_SECTION_UNASSIGNED || t'.PageWalk(page) in pages
    {
      WalkInLeaves(t'.nodes, level, pages + {PHYS_SECTION_UNASSIGNED}, t'.root, t'.levels, page);
    }
    NoEmptySame(t, t', pages);
    forall a: nat | a < TWO64
      ensures t'.FindPage(a) == t.FindPage(a) && t'.Resolve(a) == t.Resolve(a)
    {
      FindDependsOnPagesOnly(t, t', pages, a);
    }
  }

  /** generate_memory_topology, from the flat ranges on: register every section in order, then
      compact. */
  method BuildDispatch(bits: nat, ranges: seq<Section>) returns (ok: bool, d: AddressSpaceDispatch)
    requires 1 <= bits <= 16
    requires forall i :: 0 <= i < |ranges| ==> Ordinary(ranges[i])
    requires forall i, j :: 0 <= i < j < |ranges| ==> Disjoint(ranges[i], ranges[j])
    ensures ok ==> d.Ready() && Answers(d.T(), ranges) && fresh(d) && fresh(d.tree)
    ensures !ok ==> 5 * |ranges| + 1 > PageSize(bits)
  {
    hide AddressSpaceDispatch.Growing, AddressSpaceDispatch.Ready, Answers;
    d := new AddressSpaceDispatch(bits);
    ok := true;
    var i := 0;
    while i < |ranges|
      invariant 0 <= i <= |ranges| && d.bits == bits && fresh(d) && fresh(d.tree)
      invariant d.Growing() && Answers(d.T(), ranges[..i])
      invariant |d.sections| <= 1 + 5 * i
    {
      ok := d.Add(ranges[i], ranges[..i]);
      if !ok {
        return;
      }
      assert ranges[..i] + [ranges[i]] == ranges[..i + 1];
      i := i + 1;
    }
    assert ranges[..i] == ranges;
    d.Compact(ranges);
  }

  /** A piece that continues the part `done` of `section` is free, and extending the part by it
      stays clear of the sections registered before. */
  predicate Continues(piece: Section, done: Section, section: Section) {
    && piece.mr == section.mr && piece.size > 0
    && piece.start == section.start + done.size && piece.offset == section.offset + done.size
    && piece.start + piece.size <= section.start + section.size
  }

  /** What flatview_add_to_dispatch still has to register after `now`. */
  function Rest(remain: Section, now: Section): Section
    requires now.size <= remain.size
  {
    Section(remain.mr, remain.start + now.size, remain.size - now.size, remain.offset + now.size)
  }

  lemma Contiguous(t: Table, registered: seq<Section>, section: Section, done: Section, piece: Section, next: Section)
    requires Answers(t, registered + [done]) && section.Ok()
    requires forall i :: 0 <= i < |registered| ==> Disjoint(registered[i], section)
    requires done == section.(size := done.size) && Continues(piece, done, section)
    requires next == done.(size := done.size + piece.size)
    ensures piece.Ok() && Free(t, piece)
    ensures forall i :: 0 <= i < |registered| ==> Disjoint(registered[i], next)
  {
    var rs := registered + [done];
    forall i | 0 <= i < |rs|
      ensures Disjoint(rs[i], piece)
    {
      if i < |registered| {
        assert Disjoint(registered[i], section);
      }
    }
    FreeOutside(t, rs, piece);
  }

  lemma HeadPiece(r: Section, bits: nat)
    requires 1 <= bits <= 16 && r.Ok() && InPage(r.start, bits) != 0
    ensures var up := PageBase(PageOf(r.start + PageSize(bits) - 1, bits), bits) % TWO64;
            var left := (up + TWO64 - r.start) % TWO64;
            && left == PageSize(bits) - InPage(r.start, bits) > 0
            && PageOf(r.start, bits) == PageOf(r.start + Min(left, r.size) - 1, bits)
            && InPage(r.start + left, bits) == 0
  {
    var p, o := PageOf(r.start, bits), InPage(r.start, bits);
    PageBounds(r.start, bits);
    var left := PageSize(bits) - o;
    InPageOf(p + 1, o - 1, bits);
    InPageOf(p + 1, 0, bits);
    assert r.start + PageSize(bits) - 1 == PageBase(p + 1, bits) + (o - 1);
    TopIsAligned(bits);
    PageOrder(r.start, PageOf(TWO64, bits), bits);
    if p + 1 < PageOf(TWO64, bits) {
      ShlMonotone(p + 1, PageOf(TWO64, bits), bits);
    }
    assert PageBase(p + 1, bits) <= TWO64;
    ModStep(PageBase(p + 1, bits), r.start);
    InPageOf(p, o + Min(left, r.size) - 1, bits);
  }

  /** Rounding up to the end of the address space wraps to 0, and the difference wraps back. */
  lemma ModStep(up: nat, start: nat)
    requires start < up <= TWO64 && up - start < TWO64
    ensures (up % TWO64 + TWO64 - start) % TWO64 == up - start
  {
    if up == TWO64 {
      assert up % TWO64 == 0;
    } else {
      assert up % TWO64 == up;
      assert up + TWO64 - start == TWO64 * 1 + (up - start);
    }
  }

  lemma WholePages(r: Section, bits: nat)
    requires 1 <= bits <= 16 && r.Ok() && InPage(r.start, bits) == 0 && r.size >= PageSize(bits)
    ensures var whole := Shl(Shr(r.size, bits), bits);
            && 0 < whole <= r.size < whole + PageSize(bits)
            && Aligned(r.(size := whole), bits)
            && InPage(r.start + whole, bits) == 0
  {
    var p, n := PageOf(r.start, bits), PageOf(r.size, bits);
    PageBounds(r.start, bits);
    PageBounds(r.size, bits);
    PageOrder(r.size, 1, bits);
    ShlZero(bits);
    ShlMonotone(0, n, bits);
    ShlLinear(p, n, bits);
    InPageOf(p + n, 0, bits);
    ShlLinear(p + n - 1, 1, bits);
    InPageOf(p + n - 1, PageSize(bits) - 1, bits);
  }

  lemma TailPiece(r: Section, bits: nat)
    requires InPage(r.start, bits) == 0 && 0 < r.size < PageSize(bits)
    ensures PageOf(r.start, bits) == PageOf(r.start + r.size - 1, bits)
  {
    InPageOf(PageOf(r.start, bits), r.size - 1, bits);
  }

  /** Naming more sections as possible leaves keeps a tree in order. */
  lemma MoreLeaves(nodes: seq<Node>, pos: seq<Pos>, root: Entry, levels: nat, leaves: set<nat>, leaves': set<nat>)
    requires Building(nodes, pos, leaves) && ChildOk(root, pos, levels, 0, leaves)
    requires leaves <= leaves' && PHYS_MAP_NODE_NIL !in leaves'
    ensures Building(nodes, pos, leaves') && ChildOk(root, pos, levels, 0, leaves')
  {
    forall n, k | 0 <= n < |nodes| && 0 <= k < P_L2_SIZE
      ensures ChildOk(nodes[n][k], pos, pos[n].level, pos[n].prefix * P_L2_SIZE + k, leaves')
    {
      assert ChildOk(nodes[n][k], pos, pos[n].level, pos[n].prefix * P_L2_SIZE + k, leaves);
    }
  }

  lemma WalksInLeaves(nodes: seq<Node>, pos: seq<Pos>, root: Entry, levels: nat, leaves: set<nat>)
    requires Building(nodes, pos, leaves) && ChildOk(root, pos, levels, 0, leaves)
    ensures forall page: nat :: Walk(nodes, root, levels, page) in leaves
  {
    BuildingIsWellFormed(nodes, pos, leaves);
    forall page: nat
      ensures Walk(nodes, root, levels, page) in leaves
    {
      WalkInLeaves(nodes, Levels(pos), leaves, root, levels, page);
    }
  }

  lemma PagesUnassigned(t: Table, x: Section)
    requires FreeOfPages(t, x)
    ensures Unassigned(t.nodes, t.root, t.levels, 0, PageOf(x.start, t.bits), PageOf(x.start + x.size - 1, t.bits) + 1)
  {
    forall page: nat | PageOf(x.start, t.bits) <= page <= PageOf(x.start + x.size - 1, t.bits)
      ensures Walk(t.nodes, t.root, t.levels, page) == PHYS_SECTION_UNASSIGNED
    {
      assert t.PageWalk(page) == PHYS_SECTION_UNASSIGNED;
    }
  }

  lemma AllPagesFree(t: Table, pages: set<nat>, x: Section)
    requires Shape(t, pages) && Exact(t, pages) && NoEmptySubpage(t, pages)
    requires Aligned(x, t.bits) && Free(t, x)
    ensures FreeOfPages(t, x)
  {
    forall page: nat | PageOf(x.start, t.bits) <= page <= PageOf(x.start + x.size - 1, t.bits)
      ensures t.PageWalk(page) == PHYS_SECTION_UNASSIGNED
    {
      FreePages(t, pages, x, page);
    }
  }

  /** The size of an aligned section, in pages, reaches from its first page to its last. */
  lemma PageCount(x: Section, bits: nat)
    requires Aligned(x, bits)
    ensures PageOf(x.start, bits) + Shr(x.size, bits) == PageOf(x.start + x.size - 1, bits) + 1
  {
    var p, q := PageOf(x.start, bits), PageOf(x.start + x.size - 1, bits) + 1;
    PageOrder(x.start + x.size - 1, p, bits);
    ShlLinear(p, q - p, bits);
    ShrOfShl(q - p, bits);
  }

  /** What phys_page_find returns for the page of a free piece: a sub-page section, or nothing, and
      then the page leads nowhere. */
  lemma ExistingIsSubpage(t: Table, pages: set<nat>, x: Section, existing: nat)
    requires Shape(t, pages) && Exact(t, pages) && Ordinary(x) && Free(t, x)
    requires PageOf(x.start, t.bits) == PageOf(x.start + x.size - 1, t.bits)
    requires existing == t.FindPage(PageBase(PageOf(x.start, t.bits), t.bits))
    ensures existing < |t.sections|
    ensures if existing == PHYS_SECTION_UNASSIGNED then t.PageWalk(PageOf(x.start, t.bits)) == PHYS_SECTION_UNASSIGNED
            else existing in pages && t.sections[existing].mr.SubpageIo? &&
                 t.FirstPage(existing) == PageOf(x.start, t.bits)
  {
    hide PagesOk, Exact, SubpagesOk, Table.PageWalk, Table.FindPage;
    var page, o := PageOf(x.start, t.bits), InPage(x.start, t.bits);
    GeometryOf(t, pages);
    LevelsSuffice(x.start, t.bits, t.levels);
    PageBounds(x.start, t.bits);
    InPageOf(page, 0, t.bits);
    var w := t.PageWalk(page);
    TreeSection(t, pages, PageBase(page, t.bits));
    if w != PHYS_SECTION_UNASSIGNED {
      FoundOnPage(t, pages, page, 0);
      FoundOnPage(t, pages, page, o);
      assert t.FindPage(x.start) == w;
      TakenBySubpage(t, pages, w, x);
      SubpageOnItsPage(t, pages, page);
    }
  }

  lemma SubpageOnItsPage(t: Table, pages: set<nat>, page: nat)
    requires Shape(t, pages) && Exact(t, pages) && Shift(page, t.levels) == 0
    requires t.PageWalk(page) in pages && t.sections[t.PageWalk(page)].mr.SubpageIo?
    ensures t.FirstPage(t.PageWalk(page)) == page
  {
    assert InPages(t, t.PageWalk(page), page);
    OnePage(t.sections[t.PageWalk(page)], t.bits);
  }

  lemma GeometryOf(t: Table, pages: set<nat>)
    requires PagesOk(t, pages)
    ensures Geometry(t.bits, t.levels) && |t.sections| > 0
    ensures forall s :: s in pages ==> 0 < s < |t.sections|
  {}

  lemma TreeSection(t: Table, pages: set<nat>, a: nat)
    requires PagesOk(t, pages)
    ensures var w := t.PageWalk(PageOf(a, t.bits));
            w in pages || (w == PHYS_SECTION_UNASSIGNED && t.FindPage(a) == PHYS_SECTION_UNASSIGNED)
  {}

  lemma SubpageOf(t: Table, pages: set<nat>, w: nat)
    requires Shape(t, pages) && w in pages && w < |t.sections| && t.sections[w].mr.SubpageIo?
    ensures t.sections[w].mr.id < |t.subpages| && |t.subpages[t.sections[w].mr.id].sub| == PageSize(t.bits)
  {}

  lemma NoEmptyWithout(t: Table, pages: set<nat>)
    requires NoEmptySubpage(t, pages)
    ensures forall w :: NoEmptySubpage(t, pages - {w})
  {}

  lemma TakenBySubpage(t: Table, pages: set<nat>, w: nat, x: Section)
    requires w in pages && 0 < w < |t.sections| && t.FindPage(x.start) == w && x.Contains(x.start) && Free(t, x)
    ensures t.sections[w].mr.SubpageIo?
  {
    assert t.Resolve(x.start) == PHYS_SECTION_UNASSIGNED;
  }

  lemma OnePageSection(x: Section, page: nat, bits: nat)
    requires bits <= 16 && x.start == PageBase(page, bits) < TWO64 && x.size == PageSize(bits) && x.offset == 0
    ensures Aligned(x, bits) && PageOf(x.start, bits) == page && PageOf(x.start + x.size - 1, bits) == page
  {
    TopIsAligned(bits);
    ShlLinear(page, 1, bits);
    PageBounds(x.start, bits);
    InPageOf(page, 0, bits);
    InPageOf(page, PageSize(bits) - 1, bits);
    PageOrder(x.start, PageOf(TWO64, bits), bits);
    if page + 1 < PageOf(TWO64, bits) {
      ShlMonotone(page + 1, PageOf(TWO64, bits), bits);
    }
  }

  /** The empty address space. */
  lemma StartTable(t: Table)
    requires Geometry(t.bits, t.levels) && t.root == NilEntry && t.nodes == [] && t.sections == [DummySection]
    requires t.subpages == []
    ensures Shape(t, {}) && Exact(t, {}) && NoEmptySubpage(t, {}) && Answers(t, [])
  {
    forall page: nat
      ensures t.PageWalk(page) == PHYS_SECTION_UNASSIGNED
    {}
    forall a: nat | a < TWO64
      ensures AnswerAt(t, [], a)
    {
      assert t.PageWalk(PageOf(a, t.bits)) == PHYS_SECTION_UNASSIGNED;
    }
  }

  lemma CoversDummy(a: nat)
    ensures Covers(DummySection, a)
  {
    assert TWO64 / TWO64 == 1;
  }
}
