/** The list of RAM blocks in the ram_addr_t space: best-fit allocation of offsets, a list kept
    largest first, and a look-up with a most-recently-used block. */
module RamBlocks {

  /** ram_addr_t has 64 bits. */
  const SPACE: nat := 0x1_0000_0000_0000_0000
  const RAM_ADDR_MAX: nat := SPACE - 1

  datatype Block = Block(id: nat, offset: nat, max_length: nat)

  function End(b: Block): nat {
    b.offset + b.max_length
  }

  ghost predicate Apart(a: Block, b: Block) {
    End(a) <= b.offset || End(b) <= a.offset
  }

  /** The blocks are aligned, within the space, pairwise disjoint and listed largest first. */
  ghost predicate ListOk(blocks: seq<Block>, align: nat) {
    && (forall i :: 0 <= i < |blocks| ==> BlockOk(blocks[i], align))
    && (forall i, j :: 0 <= i < j < |blocks| ==> Apart(blocks[i], blocks[j]))
    && (forall i, j :: 0 <= i < j < |blocks| ==> blocks[i].max_length >= blocks[j].max_length)
  }

  ghost predicate BlockOk(b: Block, align: nat) {
    b.max_length > 0 && End(b) <= RAM_ADDR_MAX && Multiple(b.offset, align)
  }

  ghost predicate Multiple(x: nat, align: nat) {
    exists q: nat :: x == q * align
  }

  /** The alignment is a power of two above one, so it divides the size of the space. */
  ghost predicate AlignOk(align: nat) {
    align > 1 && Multiple(SPACE, align)
  }

  // ---------------------------------------------------------------- arithmetic of the offsets

  /** ROUND_UP on ram_addr_t: past the last multiple it wraps to zero. */
  function RoundUp(x: nat, align: nat): nat
    requires align > 0
  {
    Ceil(x, align) * align % SPACE
  }

  function Ceil(x: nat, align: nat): nat
    requires align > 0
  {
    (x + align - 1) / align
  }

  lemma CeilFacts(x: nat, align: nat)
    requires align > 0
    ensures x <= Ceil(x, align) * align < x + align
  {
    var n := x + align - 1;
    assert n == n / align * align + n % align;
  }

  lemma MulMonotone(a: nat, b: nat, c: nat)
    requires a <= b
    ensures a * c <= b * c
  {}

  /** `q` multiples end no later than `k` multiples if one less does. */
  lemma MulBelow(q: nat, k: nat, x: nat, align: nat)
    requires q * align < x + align && x <= k * align
    ensures q <= k
  {
    if k + 1 <= q {
      MulMonotone(k + 1, q, align);
    }
  }

  lemma Wrap(y: nat)
    requires y <= SPACE
    ensures y % SPACE == if y == SPACE then 0 else y
  {}

  /** The next multiple, or zero when there is none below the end of the space. */
  lemma RoundUpFacts(x: nat, align: nat)
    requires AlignOk(align) && x < SPACE
    ensures Multiple(RoundUp(x, align), align) && RoundUp(x, align) < SPACE
    ensures x <= RoundUp(x, align) || RoundUp(x, align) == 0
  {
    hide Ceil;
    var q := Ceil(x, align);
    var k: nat :| SPACE == k * align;
    CeilFacts(x, align);
    MulBelow(q, k, x, align);
    MulMonotone(q, k, align);
    Wrap(q * align);
    assert 0 == 0 * align;
  }

  /** It is the first one. */
  lemma RoundUpLeast(x: nat, align: nat, m: nat)
    requires AlignOk(align) && x <= m < SPACE && Multiple(m, align)
    ensures x <= RoundUp(x, align) <= m
  {
    hide Ceil;
    var q := Ceil(x, align);
    var j: nat :| m == j * align;
    CeilFacts(x, align);
    MulBelow(q, j, x, align);
    MulMonotone(q, j, align);
    Wrap(q * align);
  }

  // ---------------------------------------------------------------- gaps

  /** Where a new block could go after block `b`. */
  function Candidate(b: Block, align: nat): nat
    requires align > 0
  {
    RoundUp(End(b) % SPACE, align)
  }

  /** The closest block at or after `cand`, or the end of the space. */
  function NextBlock(blocks: seq<Block>, cand: nat): (next: nat)
    requires cand <= RAM_ADDR_MAX
    ensures cand <= next <= RAM_ADDR_MAX
    ensures forall i :: 0 <= i < |blocks| && blocks[i].offset >= cand ==> next <= blocks[i].offset
    ensures next == RAM_ADDR_MAX || exists i :: 0 <= i < |blocks| && blocks[i].offset == next
  {
    if blocks == [] then RAM_ADDR_MAX
    else
      var k := |blocks| - 1;
      var rest := NextBlock(blocks[..k], cand);
      if blocks[k].offset >= cand && blocks[k].offset < rest then blocks[k].offset else rest
  }

  ghost function Gap(blocks: seq<Block>, b: Block, align: nat): int
    requires AlignOk(align)
  {
    CandidateInSpace(b, align);
    NextBlock(blocks, Candidate(b, align)) - Candidate(b, align)
  }

  lemma CandidateInSpace(b: Block, align: nat)
    requires AlignOk(align)
    ensures Candidate(b, align) <= RAM_ADDR_MAX
  {
    RoundUpFacts(End(b) % SPACE, align);
  }

  /** A block of `size` can be placed at `x`. */
  ghost predicate Fits(blocks: seq<Block>, x: nat, size: nat, align: nat) {
    && Multiple(x, align) && x + size <= RAM_ADDR_MAX
    && forall i :: 0 <= i < |blocks| ==> x + size <= blocks[i].offset || End(blocks[i]) <= x
  }

  /** A gap that is large enough is free. */
  lemma GapIsFree(blocks: seq<Block>, k: nat, size: nat, align: nat)
    requires ListOk(blocks, align) && AlignOk(align) && k < |blocks| && size > 0
    requires Gap(blocks, blocks[k], align) >= size
    ensures Fits(blocks, Candidate(blocks[k], align), size, align)
  {
    hide RoundUp, Multiple;
    var b := blocks[k];
    var cand := Candidate(b, align);
    RoundUpFacts(End(b), align);
    assert End(b) % SPACE == End(b);
    forall i | 0 <= i < |blocks|
      ensures cand + size <= blocks[i].offset || End(blocks[i]) <= cand
    {
      if blocks[i].offset < cand && End(b) <= blocks[i].offset {
        RoundUpLeast(End(b), align, blocks[i].offset);
      }
    }
  }

  /** The block that ends last at or before `x`. */
  lemma {:induction false} Closest(blocks: seq<Block>, x: nat) returns (k: int)
    ensures -1 <= k < |blocks|
    ensures k >= 0 ==> End(blocks[k]) <= x && forall i :: 0 <= i < |blocks| && End(blocks[i]) <= x ==>
              End(blocks[i]) <= End(blocks[k])
    ensures k < 0 ==> forall i :: 0 <= i < |blocks| ==> End(blocks[i]) > x
  {
    if blocks == [] {
      k := -1;
    } else {
      var n := |blocks| - 1;
      k := Closest(blocks[..n], x);
      assert forall i :: 0 <= i < n ==> blocks[..n][i] == blocks[i];
      if End(blocks[n]) <= x && (k < 0 || End(blocks[k]) < End(blocks[n])) {
        k := n;
      }
    }
  }

  /** Wherever a block can be placed after another one, some gap is large enough. */
  lemma PlaceIsInGap(blocks: seq<Block>, x: nat, size: nat, align: nat, b: nat) returns (k: nat)
    requires ListOk(blocks, align) && AlignOk(align) && size > 0 && Fits(blocks, x, size, align) && b < |blocks|
    requires End(blocks[b]) <= x
    ensures k < |blocks| && Gap(blocks, blocks[k], align) >= size
  {
    hide RoundUp, Multiple;
    k := Closest(blocks, x);
    assert End(blocks[k]) % SPACE == End(blocks[k]);
    RoundUpLeast(End(blocks[k]), align, x);
    var cand := Candidate(blocks[k], align);
    var next := NextBlock(blocks, cand);
    if next != RAM_ADDR_MAX {
      var i :| 0 <= i < |blocks| && blocks[i].offset == next;
      assert End(blocks[i]) > End(blocks[k]);
    }
  }

  /** Space below the lowest block is not handed out again: here 0x40000 bytes at offset zero would
      fit, and no gap is found. */
  lemma LowSpaceIsLost()
    ensures var align := 0x40000;
            var blocks := [Block(0, align, SPACE - 2 * align)];
            AlignOk(align) && ListOk(blocks, align) && Fits(blocks, 0, align, align) &&
            Gap(blocks, blocks[0], align) < align
  {
    var align: nat := 0x40000;
    var blocks := [Block(0, align, SPACE - 2 * align)];
    assert SPACE == 0x4000_0000_0000 * align;
    assert 0 == 0 * align && align == 1 * align;
    var m: nat := SPACE - align;
    assert m == 0x3fff_ffff_ffff * align;
    RoundUpLeast(m, align, m);
    assert End(blocks[0]) % SPACE == m;
  }

  /** ... but where a block ends in the last `align` bytes of the space, aligning up wraps to zero,
      and the space below the lowest block is handed out after all. */
  lemma LowSpaceByWrapping()
    ensures var align := 0x40000;
            var blocks := [Block(0, align, SPACE - 1 - align)];
            && AlignOk(align) && ListOk(blocks, align) && Fits(blocks, 0, align, align)
            && Candidate(blocks[0], align) == 0 && Gap(blocks, blocks[0], align) == align
  {
    var align: nat := 0x40000;
    var blocks := [Block(0, align, SPACE - 1 - align)];
    assert SPACE == 0x4000_0000_0000 * align;
    assert 0 == 0 * align && align == 1 * align;
    WrapsAtEnd(End(blocks[0]), align);
    assert End(blocks[0]) % SPACE == End(blocks[0]);
  }

  /** Aligning up wraps exactly in the last `align` bytes. */
  lemma WrapsAtEnd(x: nat, align: nat)
    requires AlignOk(align) && 0 < x < SPACE
    ensures RoundUp(x, align) == 0 <==> x > SPACE - align
  {
    hide Ceil;
    var q := Ceil(x, align);
    var k: nat :| SPACE == k * align;
    CeilFacts(x, align);
    MulBelow(q, k, x, align);
    MulMonotone(q, k, align);
    Wrap(q * align);
    if q < k {
      MulMonotone(q + 1, k, align);
    }
  }

  /** Where there is room: anywhere after a block; or at zero, if a block ends where aligning wraps. */
  ghost predicate Room(blocks: seq<Block>, size: nat, align: nat) {
    || (exists x: nat, i :: 0 <= i < |blocks| && End(blocks[i]) <= x && Fits(blocks, x, size, align))
    || (Fits(blocks, 0, size, align) && exists k :: 0 <= k < |blocks| && End(blocks[k]) > SPACE - align)
  }

  /** Some gap is large enough if and only if there is room. */
  lemma GapIffRoom(blocks: seq<Block>, size: nat, align: nat)
    requires ListOk(blocks, align) && AlignOk(align) && size > 0
    ensures Room(blocks, size, align) <==> exists k :: 0 <= k < |blocks| && Gap(blocks, blocks[k], align) >= size
  {
    hide Gap, RoundUp, Multiple, Candidate;
    if k :| 0 <= k < |blocks| && Gap(blocks, blocks[k], align) >= size {
      GapIsFree(blocks, k, size, align);
      CandidateWraps(blocks, k, align);
      assert End(blocks[k]) <= Candidate(blocks[k], align) || Candidate(blocks[k], align) == 0;
    }
    if Room(blocks, size, align) {
      if x: nat, i :| 0 <= i < |blocks| && End(blocks[i]) <= x && Fits(blocks, x, size, align) {
        var k := PlaceIsInGap(blocks, x, size, align, i);
      } else {
        var k :| 0 <= k < |blocks| && End(blocks[k]) > SPACE - align;
        GapAtZero(blocks, k, size, align);
      }
    }
  }

  lemma CandidateWraps(blocks: seq<Block>, k: nat, align: nat)
    requires ListOk(blocks, align) && AlignOk(align) && k < |blocks|
    ensures End(blocks[k]) > SPACE - align <==> Candidate(blocks[k], align) == 0
    ensures Candidate(blocks[k], align) != 0 ==> End(blocks[k]) <= Candidate(blocks[k], align)
  {
    hide RoundUp, Multiple;
    assert End(blocks[k]) % SPACE == End(blocks[k]);
    WrapsAtEnd(End(blocks[k]), align);
    RoundUpFacts(End(blocks[k]), align);
  }

  lemma GapAtZero(blocks: seq<Block>, k: nat, size: nat, align: nat)
    requires ListOk(blocks, align) && AlignOk(align) && size > 0 && k < |blocks| && End(blocks[k]) > SPACE - align
    requires Fits(blocks, 0, size, align)
    ensures Gap(blocks, blocks[k], align) >= size
  {
    hide RoundUp, Multiple, Candidate;
    CandidateWraps(blocks, k, align);
  }

  // ---------------------------------------------------------------- the list

  /** The gap after block `k` is the smallest that is large enough, and the first of these. */
  ghost predicate BestFit(blocks: seq<Block>, size: nat, align: nat, k: nat, upto: nat)
    requires AlignOk(align) && k < |blocks| && upto <= |blocks|
  {
    && Gap(blocks, blocks[k], align) >= size
    && forall j :: 0 <= j < upto && Gap(blocks, blocks[j], align) >= size ==>
         Gap(blocks, blocks[k], align) < Gap(blocks, blocks[j], align) ||
         (Gap(blocks, blocks[k], align) == Gap(blocks, blocks[j], align) && k <= j)
  }

  ghost predicate IsBestFit(blocks: seq<Block>, offset: nat, size: nat, align: nat) {
    && AlignOk(align)
    && exists k ::
         0 <= k < |blocks| && offset == Candidate(blocks[k], align) && BestFit(blocks, size, align, k, |blocks|)
  }

  /** Larger blocks and equal ones come before position `k`, smaller ones after it. */
  ghost predicate Slot(blocks: seq<Block>, size: nat, k: nat) {
    && k <= |blocks| && (forall i :: 0 <= i < k ==> blocks[i].max_length >= size)
    && (forall i :: k <= i < |blocks| ==> blocks[i].max_length < size)
  }

  /** No gap is as large as the whole space. */
  lemma GapIsSmall(blocks: seq<Block>, k: nat, align: nat)
    requires ListOk(blocks, align) && AlignOk(align) && k < |blocks|
    ensures Gap(blocks, blocks[k], align) < RAM_ADDR_MAX && Candidate(blocks[k], align) != RAM_ADDR_MAX
  {
    hide RoundUp;
    CandidateInSpace(blocks[k], align);
    RoundUpFacts(End(blocks[k]) % SPACE, align);
    MaxIsNoMultiple(align);
  }

  lemma MaxIsNoMultiple(align: nat)
    requires AlignOk(align)
    ensures !Multiple(RAM_ADDR_MAX, align)
  {
    var k: nat :| SPACE == k * align;
    forall q: nat
      ensures q * align != RAM_ADDR_MAX
    {
      NoMultiple(q, k, align);
    }
  }

  lemma NoMultiple(q: nat, k: nat, align: nat)
    requires k * align == SPACE && align > 1
    ensures q * align != RAM_ADDR_MAX
  {
    if q < k {
      MulMonotone(q + 1, k, align);
    } else {
      MulMonotone(k, q, align);
    }
  }

  /** The state of the outer loop of find_ram_offset after `i` blocks. */
  ghost predicate Scanned(blocks: seq<Block>, size: nat, align: nat, offset: nat, mingap: nat, best: nat, i: nat)
    requires AlignOk(align) && i <= |blocks|
  {
    if offset == RAM_ADDR_MAX then
      mingap == RAM_ADDR_MAX && forall j :: 0 <= j < i ==> Gap(blocks, blocks[j], align) < size
    else
      && best < i && offset == Candidate(blocks[best], align) && mingap == Gap(blocks, blocks[best], align)
      && BestFit(blocks, size, align, best, i)
  }

  lemma ScanStep(blocks: seq<Block>, size: nat, align: nat, offset: nat, mingap: nat, best: nat, i: nat)
    requires AlignOk(align) && ListOk(blocks, align) && i < |blocks|
    requires Scanned(blocks, size, align, offset, mingap, best, i)
    ensures var gap := Gap(blocks, blocks[i], align);
            if gap >= size && gap < mingap then Scanned(blocks, size, align, Candidate(blocks[i], align), gap, i, i + 1)
            else Scanned(blocks, size, align, offset, mingap, best, i + 1)
  {
    hide Gap, ListOk, Candidate, Multiple;
    GapIsSmall(blocks, i, align);
  }

  class RamList {
    const align: nat               // BITS_PER_LONG << TARGET_PAGE_BITS
    var blocks: seq<Block>
    var mru: seq<Block>            // mru_block: empty or one block
    var version: nat

    ghost predicate Valid()
      reads this
    {
      && AlignOk(align) && ListOk(blocks, align) && |mru| <= 1 && (mru != [] ==> mru[0] in blocks)
    }

    constructor (align: nat)
      requires AlignOk(align)
      ensures Valid() && blocks == [] && this.align == align && version == 0
    {
      this.align := align;
      blocks, mru, version := [], [], 0;
    }

    /** The inner loop of find_ram_offset. */
    method FindNext(cand: nat) returns (next: nat)
      requires cand <= RAM_ADDR_MAX
      ensures next == NextBlock(blocks, cand)
    {
      next := RAM_ADDR_MAX;
      for i := 0 to |blocks|
        invariant next == NextBlock(blocks[..i], cand)
      {
        assert blocks[..i + 1][..i] == blocks[..i];
        if blocks[i].offset >= cand {
          next := if next < blocks[i].offset then next else blocks[i].offset;
        }
      }
      assert blocks[..|blocks|] == blocks;
    }

    /** find_ram_offset, with RAM_ADDR_MAX where it gives up. */
    method FindOffset(size: nat) returns (offset: nat, ghost best: nat)
      requires Valid() && size > 0
      ensures blocks == [] ==> offset == 0
      ensures blocks != [] && offset != RAM_ADDR_MAX ==>
                best < |blocks| && offset == Candidate(blocks[best], align) &&
                BestFit(blocks, size, align, best, |blocks|)
      ensures blocks != [] && offset == RAM_ADDR_MAX ==> forall j :: 0 <= j < |blocks| ==>
                Gap(blocks, blocks[j], align) < size
    {
      hide Candidate, ListOk, Multiple, Scanned, BestFit;
      best := 0;
      if blocks == [] {
        return 0, 0;
      }
      offset := RAM_ADDR_MAX;
      var mingap: nat := RAM_ADDR_MAX;
      NoneScanned(blocks, size, align);
      for i := 0 to |blocks|
        invariant Scanned(blocks, size, align, offset, mingap, best, i)
      {
        CandidateInSpace(blocks[i], align);
        ScanStep(blocks, size, align, offset, mingap, best, i);
        var candidate := Candidate(blocks[i], align);
        var next := FindNext(candidate);
        if next - candidate >= size && next - candidate < mingap {
          offset, mingap := candidate, next - candidate;
          best := i;
        }
      }
      AllScanned(blocks, size, align, offset, mingap, best);
    }

    /** ram_block_add: `hostOk` is whether host memory could be had. */
    method Add(id: nat, size: nat, hostOk: bool) returns (ok: bool, b: Block)
      requires Valid() && 0 < size <= RAM_ADDR_MAX
      modifies this
      ensures Valid()
      ensures ok ==> b.id == id && b.max_length == size && Fits(old(blocks), b.offset, size, align)
      ensures ok ==> if old(blocks) == [] then b.offset == 0 else IsBestFit(old(blocks), b.offset, size, align)
      ensures ok ==> exists k: nat :: Slot(old(blocks), size, k) && blocks == old(blocks)[..k] + [b] + old(blocks)[k..]
      ensures if ok then mru == [] && version == old(version) + 1
              else blocks == old(blocks) && mru == old(mru) && version == old(version)
      ensures ok <==> hostOk && (old(blocks) == [] || Room(old(blocks), size, align))
    {
      hide Multiple, AlignOk, BestFit, Gap, ListOk, Fits, Room;
      var offset;
      ghost var best;
      offset, best := FindOffset(size);
      b := Block(id, offset, size);
      FoundIffRoom(blocks, size, align, offset, best);
      if offset == RAM_ADDR_MAX {
        return false, b;
      }
      if !hostOk {
        return false, b;
      }
      OffsetFits(blocks, size, align, offset, best);
      var k := FindSlot(size);
      Inserted(blocks, b, k, align);
      blocks := blocks[..k] + [b] + blocks[k..];
      mru := [];
      version := version + 1;
      ok := true;
    }

    /** The scan of ram_block_add for the place that keeps the list sorted. */
    method FindSlot(size: nat) returns (k: nat)
      requires Valid()
      ensures Slot(blocks, size, k)
    {
      k := 0;
      while k < |blocks|
        invariant k <= |blocks| && forall i :: 0 <= i < k ==> blocks[i].max_length >= size
      {
        if blocks[k].max_length < size {
          break;
        }
        k := k + 1;
      }
    }

    /** qemu_ram_free */
    method Free(k: nat)
      requires Valid() && k < |blocks|
      modifies this
      ensures Valid() && blocks == old(blocks)[..k] + old(blocks)[k + 1..] && mru == [] && version == old(version) + 1
    {
      blocks := blocks[..k] + blocks[k + 1..];
      mru := [];
      version := version + 1;
    }

    /** qemu_get_ram_block; no result where it aborts. */
    method GetBlock(addr: nat) returns (found: bool, b: Block)
      requires Valid() && addr < SPACE
      modifies this`mru
      ensures Valid()
      ensures found ==> b in blocks && forall c :: c in blocks ==> (c == b <==> Holds(c, addr))
      ensures !found ==> forall c :: c in blocks ==> !Holds(c, addr)
      ensures mru == if found then [b] else old(mru)
    {
      HoldsIsRange(blocks, align);
      if mru != [] && Sub(addr, mru[0].offset) < mru[0].max_length {
        return true, mru[0];
      }
      for i := 0 to |blocks|
        invariant forall j :: 0 <= j < i ==> !Holds(blocks[j], addr)
      {
        if Sub(addr, blocks[i].offset) < blocks[i].max_length {
          mru := [blocks[i]];
          return true, blocks[i];
        }
      }
      return false, Block(0, 0, 0);
    }
  }

  lemma NoneScanned(blocks: seq<Block>, size: nat, align: nat)
    requires AlignOk(align)
    ensures Scanned(blocks, size, align, RAM_ADDR_MAX, RAM_ADDR_MAX, 0, 0)
  {}

  lemma AllScanned(blocks: seq<Block>, size: nat, align: nat, offset: nat, mingap: nat, best: nat)
    requires AlignOk(align) && Scanned(blocks, size, align, offset, mingap, best, |blocks|)
    ensures offset != RAM_ADDR_MAX ==>
              best < |blocks| && offset == Candidate(blocks[best], align) &&
              BestFit(blocks, size, align, best, |blocks|)
    ensures offset == RAM_ADDR_MAX ==> forall j :: 0 <= j < |blocks| ==> Gap(blocks, blocks[j], align) < size
  {}

  lemma OffsetFits(blocks: seq<Block>, size: nat, align: nat, offset: nat, best: nat)
    requires ListOk(blocks, align) && AlignOk(align) && 0 < size <= RAM_ADDR_MAX
    requires if blocks == [] then offset == 0
             else best < |blocks| && offset == Candidate(blocks[best], align) &&
                  BestFit(blocks, size, align, best, |blocks|)
    ensures Fits(blocks, offset, size, align)
  {
    hide ListOk, Gap, RoundUp;
    if blocks == [] {
      assert 0 == 0 * align;
    } else {
      GapIsFree(blocks, best, size, align);
    }
  }

  lemma FoundIffRoom(blocks: seq<Block>, size: nat, align: nat, offset: nat, best: nat)
    requires ListOk(blocks, align) && AlignOk(align) && size > 0
    requires blocks == [] ==> offset == 0
    requires blocks != [] && offset != RAM_ADDR_MAX ==> best < |blocks| && BestFit(blocks, size, align, best, |blocks|)
    requires blocks != [] && offset == RAM_ADDR_MAX ==> forall j :: 0 <= j < |blocks| ==>
               Gap(blocks, blocks[j], align) < size
    ensures offset != RAM_ADDR_MAX <==> blocks == [] || Room(blocks, size, align)
  {
    hide ListOk, Gap, Room;
    GapIffRoom(blocks, size, align);
  }

  /** Inserting a block where it fits, before the first smaller one. */
  lemma Inserted(blocks: seq<Block>, b: Block, k: nat, align: nat)
    requires ListOk(blocks, align) && Slot(blocks, b.max_length, k) && Fits(blocks, b.offset, b.max_length, align)
    requires b.max_length > 0
    ensures ListOk(blocks[..k] + [b] + blocks[k..], align)
  {
    hide Multiple;
  }

  /** Unsigned subtraction of ram_addr_t. */
  function Sub(a: nat, b: nat): nat {
    (a - b) % SPACE
  }

  lemma SubFacts(a: nat, b: nat)
    requires a < SPACE && b < SPACE
    ensures Sub(a, b) == if b <= a then a - b else a + SPACE - b
  {}

  ghost predicate Holds(b: Block, addr: nat) {
    b.offset <= addr < End(b)
  }

  /** The unsigned comparison is the range test. */
  lemma HoldsIsRange(blocks: seq<Block>, align: nat)
    requires ListOk(blocks, align)
    ensures forall b, addr: nat :: b in blocks && addr < SPACE ==>
              (Sub(addr, b.offset) < b.max_length <==> Holds(b, addr))
  {
    hide Sub, Multiple;
    forall b, addr: nat | b in blocks && addr < SPACE
      ensures Sub(addr, b.offset) < b.max_length <==> Holds(b, addr)
    {
      SubFacts(addr, b.offset);
    }
  }
}
