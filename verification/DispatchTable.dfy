/** What a dispatch table means: which section phys_page_find and the sub-page tables give an
    address, against the memory sections that were registered. */
module DispatchTable {
  import opened Bits
  import opened PageTree

  const TWO64: nat := 0x1_0000_0000_0000_0000

  datatype Region = UnassignedIo | SubpageIo(id: nat) | Mapped(region: int, ram: bool)

  /** MemoryRegionSection: `start` is offset_within_address_space, `offset` is offset_within_region,
      `size` is the 128-bit size. */
  datatype Section = Section(mr: Region, start: nat, size: nat, offset: nat) {
    predicate Contains(a: nat) {
      start <= a < start + size
    }

    predicate Ok() {
      size > 0 && start + size <= TWO64 && offset + size <= TWO64
    }
  }

  const DummySection := Section(UnassignedIo, 0, TWO64, 0)

  /** range_get_last, in 64-bit arithmetic */
  function RangeLast(start: nat, len: nat): nat {
    (start + len + TWO64 - 1) % TWO64
  }

  /** section_covers_addr: the high half of the size, or range_covers_byte on the low half */
  predicate Covers(s: Section, a: nat) {
    s.size / TWO64 != 0 || s.start <= a <= RangeLast(s.start, s.size % TWO64)
  }

  /** The 64-bit test is the range test for every section that fits the address space. */
  lemma CoversIsContains(s: Section, a: nat)
    requires s.Ok() && a < TWO64
    ensures Covers(s, a) <==> s.Contains(a)
  {
    if s.size == TWO64 {
    } else {
      assert s.size / TWO64 == 0 && s.size % TWO64 == s.size;
      assert s.start + s.size + TWO64 - 1 == TWO64 * 1 + (s.start + s.size - 1);
      assert RangeLast(s.start, s.size) == s.start + s.size - 1;
    }
  }

  // ---------------------------------------------------------------- pages

  function PageSize(bits: nat): nat {
    Shl(1, bits)
  }

  function PageOf(a: nat, bits: nat): nat {
    Shr(a, bits)
  }

  function PageBase(p: nat, bits: nat): nat {
    Shl(p, bits)
  }

  /** P_L2_LEVELS */
  function LevelsFor(bits: nat): nat
    requires bits <= 63
  {
    (63 - bits) / P_L2_BITS + 1
  }

  predicate Geometry(bits: nat, levels: nat) {
    1 <= bits <= 16 && levels == LevelsFor(bits)
  }

  /** SUBPAGE_IDX */
  function InPage(a: nat, bits: nat): (o: nat)
    ensures o < PageSize(bits)
  {
    PageBounds(a, bits);
    a - PageBase(PageOf(a, bits), bits)
  }

  lemma PageBounds(a: nat, bits: nat)
    ensures PageBase(PageOf(a, bits), bits) <= a < PageBase(PageOf(a, bits) + 1, bits)
    ensures PageBase(PageOf(a, bits) + 1, bits) == PageBase(PageOf(a, bits), bits) + PageSize(bits)
    ensures PageSize(bits) > 0
  {
    ShrRange(a, bits, PageOf(a, bits));
    ShlLinear(PageOf(a, bits), 1, bits);
    ShlZero(bits);
    ShlMonotone(0, 1, bits);
  }

  /** An address lies at or after the base of a page exactly if its own page does. */
  lemma PageOrder(a: nat, p: nat, bits: nat)
    ensures PageBase(p, bits) <= a <==> p <= PageOf(a, bits)
  {
    var q := PageOf(a, bits);
    PageBounds(a, bits);
    if p < q {
      ShlMonotone(p, q, bits);
    } else if p > q + 1 {
      ShlMonotone(q + 1, p, bits);
    }
  }

  lemma PowerOf64()
    ensures Shl(1, 64) == TWO64
  {
    ShlSixteen(1);
    ShlSixteen(0x1_0000);
    ShlSixteen(0x1_0000_0000);
    ShlSixteen(0x1_0000_0000_0000);
    ShlAdd(1, 16, 48);
    ShlAdd(0x1_0000, 16, 32);
    ShlAdd(0x1_0000_0000, 16, 16);
  }

  lemma ShlSixteen(x: nat)
    ensures Shl(x, 16) == 0x1_0000 * x
  {
    ShlAdd(x, 4, 12);
    ShlAdd(16 * x, 4, 8);
    ShlAdd(256 * x, 4, 4);
    ShlFour(x);
    ShlFour(16 * x);
    ShlFour(256 * x);
    ShlFour(4096 * x);
  }

  lemma ShlFour(x: nat)
    ensures Shl(x, 4) == 16 * x
  {
    assert Shl(x, 4) == Shl(2 * x, 3) == Shl(4 * x, 2) == Shl(8 * x, 1);
  }

  /** The levels chosen by P_L2_LEVELS reach every page of a 64-bit address space. */
  lemma LevelsSuffice(a: nat, bits: nat, levels: nat)
    requires Geometry(bits, levels) && a < TWO64
    ensures Shift(PageOf(a, bits), levels) == 0
    ensures PageOf(a, bits) < Lo(1, levels)
  {
    var n := levels * P_L2_BITS;
    ShrAdd(a, bits, n);
    ShrAdd(a, 64, bits + n - 64);
    PowerOf64();
    ShlZero(64);
    ShrRange(a, 64, 0);
    ShlZero(bits + n - 64);
    ShlMonotone(0, 1, bits + n - 64);
    ShrRange(0, bits + n - 64, 0);
    ShiftRange(PageOf(a, bits), levels, 0);
  }

  /** The address space is a whole number of pages. */
  lemma TopIsAligned(bits: nat)
    requires bits <= 16
    ensures PageBase(PageOf(TWO64, bits), bits) == TWO64
    ensures PageSize(bits) <= 0x1_0000
  {
    PowerOf64();
    ShlAdd(1, 64 - bits, bits);
    ShrOfShl(Shl(1, 64 - bits), bits);
    ShlAdd(1, bits, 16 - bits);
    ShlGrows(Shl(1, bits), 16 - bits);
    ShlSixteen(1);
  }

  // ---------------------------------------------------------------- the table

  /** subpage_t */
  datatype Subpage = Subpage(base: nat, sub: seq<nat>)

  datatype Table = Table(bits: nat, levels: nat, root: Entry, nodes: seq<Node>, sections: seq<Section>,
                         subpages: seq<Subpage>) {
    /** Where the tree leads for a page. */
    function PageWalk(page: nat): nat {
      Walk(nodes, root, levels, page)
    }

    /** phys_page_find, as a section number */
    function FindPage(a: nat): nat {
      var s := PageWalk(PageOf(a, bits));
      if s < |sections| && Covers(sections[s], a) then s else PHYS_SECTION_UNASSIGNED
    }

    /** address_space_lookup_region with sub-pages resolved and no recently used section */
    function Resolve(a: nat): nat {
      var s := FindPage(a);
      if s < |sections| && sections[s].mr.SubpageIo? then SubSection(sections[s].mr.id, InPage(a, bits)) else s
    }

    function SubSection(id: nat, o: nat): nat {
      if id < |subpages| && o < |subpages[id].sub| then subpages[id].sub[o] else PHYS_SECTION_UNASSIGNED
    }

    function FirstPage(s: nat): nat
      requires s < |sections|
    {
      PageOf(sections[s].start, bits)
    }

    function LastPage(s: nat): nat
      requires s < |sections| && sections[s].size > 0
    {
      PageOf(sections[s].start + sections[s].size - 1, bits)
    }
  }

  /** A section made of whole pages. */
  predicate Aligned(s: Section, bits: nat) {
    && s.Ok()
    && PageBase(PageOf(s.start, bits), bits) == s.start
    && PageBase(PageOf(s.start + s.size - 1, bits) + 1, bits) == s.start + s.size
  }

  /** Sections `pages` are the ones the tree leads to. */
  ghost predicate PagesOk(t: Table, pages: set<nat>) {
    && Geometry(t.bits, t.levels)
    && 0 < |t.sections| <= PHYS_MAP_NODE_NIL && t.sections[0] == DummySection
    && (forall s :: s in pages ==> 0 < s < |t.sections| && Aligned(t.sections[s], t.bits))
    && (forall s, page: nat :: s in pages && InPages(t, s, page) ==> t.PageWalk(page) == s)
    && (forall page: nat :: t.PageWalk(page) == PHYS_SECTION_UNASSIGNED || t.PageWalk(page) in pages)
  }

  predicate InPages(t: Table, s: nat, page: nat) {
    s < |t.sections| && t.sections[s].size > 0 && t.FirstPage(s) <= page <= t.LastPage(s)
  }

  /** While the tree is being built, it leads to a section from no other pages. */
  ghost predicate Exact(t: Table, pages: set<nat>) {
    forall page: nat :: Shift(page, t.levels) == 0 && t.PageWalk(page) in pages ==>
                          InPages(t, t.PageWalk(page), page)
  }

  /** Sub-page tables: one per sub-page section, on its own page, leading to ordinary sections. */
  ghost predicate SubpagesOk(t: Table, pages: set<nat>) {
    && (forall s :: s in pages && s < |t.sections| && t.sections[s].mr.SubpageIo? ==>
          && t.sections[s].mr.id < |t.subpages|
          && t.subpages[t.sections[s].mr.id].base == t.sections[s].start
          && t.sections[s].size == PageSize(t.bits) && t.sections[s].offset == 0)
    && (forall s, s' :: s in pages && s' in pages && s < |t.sections| && s' < |t.sections| ==>
          t.sections[s].mr.SubpageIo? && t.sections[s].mr == t.sections[s'].mr ==> s == s')
    && (forall id, o :: 0 <= id < |t.subpages| && 0 <= o < |t.subpages[id].sub| ==>
          && t.subpages[id].sub[o] < |t.sections|
          && !t.sections[t.subpages[id].sub[o]].mr.SubpageIo?)
    && (forall id :: 0 <= id < |t.subpages| ==> |t.subpages[id].sub| == PageSize(t.bits))
  }

  /** Every sub-page table in use holds at least one section. */
  ghost predicate NoEmptySubpage(t: Table, pages: set<nat>) {
    forall s :: s in pages && s < |t.sections| && t.sections[s].mr.SubpageIo? ==>
      exists o :: 0 <= o < PageSize(t.bits) && t.SubSection(t.sections[s].mr.id, o) != PHYS_SECTION_UNASSIGNED
  }

  lemma AlignedPages(s: Section, bits: nat, a: nat)
    requires Aligned(s, bits)
    ensures s.Contains(a) <==> PageOf(s.start, bits) <= PageOf(a, bits) <= PageOf(s.start + s.size - 1, bits)
  {
    PageOrder(a, PageOf(s.start, bits), bits);
    PageOrder(a, PageOf(s.start + s.size - 1, bits) + 1, bits);
  }

  /** phys_page_find answers an address with the tree section that contains it, and with
      "unassigned" when there is none.  This uses only that each section is reachable from its own
      pages: wrong turns are rejected by the cover test. */
  lemma FindIsUnique(t: Table, pages: set<nat>, a: nat)
    requires PagesOk(t, pages) && a < TWO64
    ensures forall s :: s in pages && t.sections[s].Contains(a) ==> t.FindPage(a) == s
    ensures t.FindPage(a) == PHYS_SECTION_UNASSIGNED ||
            (t.FindPage(a) in pages && t.sections[t.FindPage(a)].Contains(a))
  {
    var w := t.PageWalk(PageOf(a, t.bits));
    forall s | s in pages && t.sections[s].Contains(a)
      ensures t.FindPage(a) == s
    {
      AlignedPages(t.sections[s], t.bits, a);
      CoversIsContains(t.sections[s], a);
      assert InPages(t, s, PageOf(a, t.bits));
      assert w == s;
    }
    if w in pages {
      CoversIsContains(t.sections[w], a);
    }
  }

  /** Two tables over the same tree sections find the same one for every address: in particular a
      tree and its compacted form. */
  lemma FindDependsOnPagesOnly(t: Table, t': Table, pages: set<nat>, a: nat)
    requires PagesOk(t, pages) && PagesOk(t', pages) && t'.sections == t.sections && a < TWO64
    ensures t'.FindPage(a) == t.FindPage(a)
  {
    FindIsUnique(t, pages, a);
    FindIsUnique(t', pages, a);
  }
}
