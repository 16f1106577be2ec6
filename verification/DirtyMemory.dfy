/** The dirty bitmap, kept in blocks: snapshots that clear it and tests that clear it, while other
    CPUs go on marking pages. */
module DirtyMemory {
  import opened Bits

  const DIRTY_MEMORY_BLOCK_SIZE: nat := 256 * 1024 * 8
  const BITS_PER_LONG: nat := 64
  const BITS_PER_LEVEL: nat := 6

  type Blocks = seq<seq<bool>>

  ghost predicate Sized(blocks: Blocks) {
    forall i :: 0 <= i < |blocks| ==> |blocks[i]| == DIRTY_MEMORY_BLOCK_SIZE
  }

  function Pages(blocks: Blocks): nat {
    |blocks| * DIRTY_MEMORY_BLOCK_SIZE
  }

  predicate Get(blocks: Blocks, p: nat)
    requires Sized(blocks) && p < Pages(blocks)
  {
    blocks[p / DIRTY_MEMORY_BLOCK_SIZE][p % DIRTY_MEMORY_BLOCK_SIZE]
  }

  // ---------------------------------------------------------------- single operations on words

  /** Other CPUs mark the pages in `s`. */
  function Mark(blocks: Blocks, s: set<nat>): (r: Blocks)
    requires Sized(blocks)
    ensures Sized(r) && |r| == |blocks|
  {
    seq(|blocks|, i requires 0 <= i < |blocks| =>
      seq(DIRTY_MEMORY_BLOCK_SIZE, j requires 0 <= j < DIRTY_MEMORY_BLOCK_SIZE =>
        blocks[i][j] || i * DIRTY_MEMORY_BLOCK_SIZE + j in s))
  }

  lemma GetMark(blocks: Blocks, s: set<nat>, p: nat)
    requires Sized(blocks) && p < Pages(blocks)
    ensures Get(Mark(blocks, s), p) <==> Get(blocks, p) || p in s
  {
    assert p / DIRTY_MEMORY_BLOCK_SIZE * DIRTY_MEMORY_BLOCK_SIZE + p % DIRTY_MEMORY_BLOCK_SIZE == p;
  }

  function Falses(n: nat): (r: seq<bool>)
    ensures |r| == n && forall i :: 0 <= i < n ==> !r[i]
  {
    seq(n, _ => false)
  }

  /** `n` bits from `offset` on in block `idx`, taken out. */
  function Cleared(blocks: Blocks, idx: nat, offset: nat, n: nat): (r: Blocks)
    requires Sized(blocks) && idx < |blocks| && offset + n <= DIRTY_MEMORY_BLOCK_SIZE
    ensures Sized(r) && |r| == |blocks|
  {
    blocks[idx := blocks[idx][..offset] + Falses(n) + blocks[idx][offset + n..]]
  }

  lemma GetCleared(blocks: Blocks, idx: nat, offset: nat, n: nat, p: nat)
    requires Sized(blocks) && idx < |blocks| && offset + n <= DIRTY_MEMORY_BLOCK_SIZE && p < Pages(blocks)
    ensures var lo := idx * DIRTY_MEMORY_BLOCK_SIZE + offset;
            Get(Cleared(blocks, idx, offset, n), p) <==> Get(blocks, p) && !(lo <= p < lo + n)
  {}

  lemma GetTaken(blocks: Blocks, idx: nat, offset: nat, n: nat, i: nat)
    requires Sized(blocks) && idx < |blocks| && offset + n <= DIRTY_MEMORY_BLOCK_SIZE && i < n
    ensures idx * DIRTY_MEMORY_BLOCK_SIZE + offset + i < Pages(blocks)
    ensures blocks[idx][offset..offset + n][i] == Get(blocks, idx * DIRTY_MEMORY_BLOCK_SIZE + offset + i)
  {}

  // ---------------------------------------------------------------- conservation

  /** From `before` to `now`, while other CPUs marked `marked`, the window from `lo` was taken out and
      is in `taken`: every mark from before is in `taken`, every other one is there or still in the
      window, none is invented, and what is still in the window came from the others. */
  ghost predicate Conserved(before: Blocks, now: Blocks, marked: set<nat>, lo: nat, taken: seq<bool>) {
    && Sized(before) && Sized(now) && |now| == |before| && lo + |taken| <= Pages(before)
    && forall p :: 0 <= p < Pages(before) ==>
         if lo <= p < lo + |taken|
         then (taken[p - lo] || Get(now, p) <==> Get(before, p) || p in marked) &&
              (Get(before, p) ==> taken[p - lo]) && (Get(now, p) ==> p in marked)
         else Get(now, p) <==> Get(before, p) || p in marked
  }

  lemma ConservedSelf(blocks: Blocks, lo: nat)
    requires Sized(blocks) && lo <= Pages(blocks)
    ensures Conserved(blocks, blocks, {}, lo, [])
  {}

  lemma ConservedMark(before: Blocks, now: Blocks, marked: set<nat>, lo: nat, taken: seq<bool>, s: set<nat>)
    requires Conserved(before, now, marked, lo, taken)
    ensures Conserved(before, Mark(now, s), marked + s, lo, taken)
  {
    hide Get, Mark;
    forall p | 0 <= p < Pages(before)
      ensures Get(Mark(now, s), p) <==> Get(now, p) || p in s
    {
      GetMark(now, s, p);
    }
  }

  /** Taking out the next `n` bits. */
  lemma ConservedTake(before: Blocks, now: Blocks, marked: set<nat>, lo: nat, taken: seq<bool>, idx: nat, offset: nat,
                      n: nat)
    requires Conserved(before, now, marked, lo, taken) && idx < |now| && offset + n <= DIRTY_MEMORY_BLOCK_SIZE
    requires lo + |taken| == idx * DIRTY_MEMORY_BLOCK_SIZE + offset
    ensures Conserved(before, Cleared(now, idx, offset, n), marked, lo, taken + now[idx][offset..offset + n])
  {
    hide Get, Cleared;
    var hi := lo + |taken|;
    var bits := now[idx][offset..offset + n];
    forall i | 0 <= i < n
      ensures hi + i < Pages(before) && bits[i] == Get(now, hi + i)
    {
      GetTaken(now, idx, offset, n, i);
    }
    forall p | 0 <= p < Pages(before)
      ensures Get(Cleared(now, idx, offset, n), p) <==> Get(now, p) && !(hi <= p < hi + n)
    {
      GetCleared(now, idx, offset, n, p);
    }
    forall p | hi <= p < hi + n
      ensures (taken + bits)[p - lo] == Get(now, p)
    {
      assert bits[p - hi] == Get(now, hi + (p - hi));
    }
    InPages(now, idx, offset, n);
  }

  lemma InPages(blocks: Blocks, idx: nat, offset: nat, n: nat)
    requires idx < |blocks| && offset + n <= DIRTY_MEMORY_BLOCK_SIZE
    ensures idx * DIRTY_MEMORY_BLOCK_SIZE + offset + n <= Pages(blocks)
  {}

  /** With nobody else marking, what was taken is what was there, and the window is clean. */
  lemma Undisturbed(before: Blocks, now: Blocks, lo: nat, taken: seq<bool>, p: nat)
    requires Conserved(before, now, {}, lo, taken) && p < Pages(before)
    ensures Get(now, p) <==> Get(before, p) && !(lo <= p < lo + |taken|)
    ensures lo <= p < lo + |taken| ==> taken[p - lo] == Get(before, p)
  {}

  // ---------------------------------------------------------------- addresses and pages

  /** The page that contains `addr`, and the first page that starts at or after it. */
  function PageOf(addr: nat, bits: nat): nat {
    Shr(addr, bits)
  }

  function PageUp(addr: nat, bits: nat): nat {
    Shr(addr + PowerOfTwo(bits) - 1, bits)
  }

  lemma ShrMonotone(x: nat, y: nat, n: nat)
    requires x <= y
    ensures Shr(x, n) <= Shr(y, n)
    decreases n
  {
    if n > 0 {
      ShrMonotone(x / 2, y / 2, n - 1);
    }
  }

  lemma ShrSub(x: nat, q: nat, n: nat)
    requires Shl(q, n) <= x
    ensures q <= Shr(x, n) && Shr(x - Shl(q, n), n) == Shr(x, n) - q
  {
    var d := Shr(x - Shl(q, n), n);
    ShrRange(x - Shl(q, n), n, d);
    ShlLinear(q, d, n);
    ShlLinear(q, d + 1, n);
    assert q + (d + 1) == q + d + 1;
    ShrRange(x, n, q + d);
  }

  /** Aligning down to whole words of pages. */
  function WordsDown(addr: nat, bits: nat): nat {
    Shl(Shr(addr, bits + BITS_PER_LEVEL), bits + BITS_PER_LEVEL)
  }

  lemma WordsDownPage(addr: nat, bits: nat)
    ensures PageOf(WordsDown(addr, bits), bits) == BITS_PER_LONG * Shr(addr, bits + BITS_PER_LEVEL)
    ensures WordsDown(addr, bits) == Shl(BITS_PER_LONG * Shr(addr, bits + BITS_PER_LEVEL), bits)
    ensures WordsDown(addr, bits) <= addr
  {
    var q := Shr(addr, bits + BITS_PER_LEVEL);
    ShlSix(q);
    assert BITS_PER_LEVEL + bits == bits + BITS_PER_LEVEL;
    ShlAdd(q, BITS_PER_LEVEL, bits);
    ShrOfShl(BITS_PER_LONG * q, bits);
    ShrRange(addr, bits + BITS_PER_LEVEL, q);
  }

  lemma ShlSix(q: nat)
    ensures Shl(q, BITS_PER_LEVEL) == BITS_PER_LONG * q && Shl(q, 3) == 8 * q
  {
    assert Shl(q, 3) == Shl(2 * q, 2) == Shl(4 * q, 1) == Shl(8 * q, 0);
    ShlAdd(q, 3, 3);
    assert Shl(8 * q, 3) == Shl(16 * q, 2) == Shl(32 * q, 1) == Shl(64 * q, 0);
  }

  /** Aligning up, and staying within the bitmap. */
  lemma WordsUp(addr: nat, bits: nat, words: nat)
    requires addr <= Shl(BITS_PER_LONG * words, bits)
    ensures var top := addr + PowerOfTwo(bits + BITS_PER_LEVEL) - 1;
            Shr(top, bits + BITS_PER_LEVEL) <= words && addr <= WordsDown(top, bits)
  {
    hide Shl, Shr;
    var n := bits + BITS_PER_LEVEL;
    var top := addr + PowerOfTwo(n) - 1;
    ShlSix(words);
    assert BITS_PER_LEVEL + bits == n;
    ShlAdd(words, BITS_PER_LEVEL, bits);
    ShlLinear(words, 1, n);
    var q := Shr(top, n);
    ShrRange(top, n, q);
    if words + 1 <= q {
      if words + 1 < q {
        ShlMonotone(words + 1, q, n);
      }
    }
    ShlLinear(q, 1, n);
  }

  // ---------------------------------------------------------------- the operations

  /** All pages that the steps of other CPUs mark. */
  function All(steps: seq<set<nat>>): set<nat> {
    if steps == [] then {} else steps[0] + All(steps[1..])
  }

  /** DirtyBitmapSnapshot: a window of addresses and one bit for each of its pages. */
  datatype Snapshot = Snapshot(start: nat, end: nat, dirty: seq<bool>)

  /** Some page of the range is marked in the snapshot. */
  ghost predicate SnapshotSays(snap: Snapshot, start: nat, length: nat, bits: nat)
    requires snap.start <= start
  {
    exists p :: PageOf(start - snap.start, bits) <= p < PageUp(start + length - snap.start, bits) &&
                p < |snap.dirty| && snap.dirty[p]
  }

  class DirtyBitmap {
    var blocks: Blocks
    var others: seq<set<nat>>      // what other CPUs mark before each of our steps

    /** A step of the others. */
    method OthersRun() returns (s: set<nat>)
      requires Sized(blocks)
      modifies this
      ensures blocks == Mark(old(blocks), s) && s + All(others) == All(old(others))
    {
      if others == [] {
        s := {};
      } else {
        s, others := others[0], others[1..];
      }
      blocks := Mark(blocks, s);
    }

    /** An atomic exchange or masking of bits in one word. */
    method Fetch(idx: nat, offset: nat, n: nat, ghost before: Blocks, ghost marked0: set<nat>, ghost lo: nat,
                 ghost taken: seq<bool>)
      returns (bits: seq<bool>, ghost marked: set<nat>)
      requires Conserved(before, blocks, marked0, lo, taken) && idx < |blocks|
      requires lo + |taken| == idx * DIRTY_MEMORY_BLOCK_SIZE + offset
      requires offset % BITS_PER_LONG + n <= BITS_PER_LONG && offset < DIRTY_MEMORY_BLOCK_SIZE
      modifies this
      ensures |bits| == n && Conserved(before, blocks, marked, lo, taken + bits)
      ensures marked + All(others) == marked0 + All(old(others))
    {
      hide Conserved, All, Mark;
      ConservedSized(before, blocks, marked0, lo, taken);
      var s := OthersRun();
      InWord(offset, n);
      ConservedMark(before, old(blocks), marked0, lo, taken, s);
      marked := marked0 + s;
      ConservedTake(before, blocks, marked, lo, taken, idx, offset, n);
      bits := blocks[idx][offset..offset + n];
      blocks := Cleared(blocks, idx, offset, n);
    }

    /** bitmap_copy_and_clear_atomic, going on with a window that ends where the range starts. */
    method CopyAndClear(idx: nat, offset: nat, nr: nat, ghost before: Blocks, ghost marked0: set<nat>, ghost lo: nat,
                        ghost taken: seq<bool>)
      returns (dst: seq<bool>, ghost marked: set<nat>)
      requires Conserved(before, blocks, marked0, lo, taken) && idx < |blocks|
      requires lo + |taken| == idx * DIRTY_MEMORY_BLOCK_SIZE + offset
      requires offset % BITS_PER_LONG == 0 && nr % BITS_PER_LONG == 0 && offset + nr <= DIRTY_MEMORY_BLOCK_SIZE
      modifies this
      ensures |dst| == nr && |blocks| == |old(blocks)| && Conserved(before, blocks, marked, lo, taken + dst)
      ensures marked + All(others) == marked0 + All(old(others))
    {
      hide Conserved, All, Mark;
      dst, marked := [], marked0;
      var left: int := nr;
      assert taken + [] == taken;
      while left > 0
        invariant 0 <= left <= nr && left % BITS_PER_LONG == 0 && |dst| == nr - left && |blocks| == |old(blocks)|
        invariant Conserved(before, blocks, marked, lo, taken + dst)
        invariant marked + All(others) == marked0 + All(old(others))
      {
        ConservedSized(before, blocks, marked, lo, taken + dst);
        var word;
        word, marked := Fetch(idx, offset + |dst|, BITS_PER_LONG, before, marked, lo, taken + dst);
        ConservedSized(before, blocks, marked, lo, taken + dst + word);
        assert taken + dst + word == taken + (dst + word);
        dst := dst + word;
        left := left - BITS_PER_LONG;
      }
    }

    /** cpu_physical_memory_snapshot_and_clear_dirty; the two assertions hold in every round. */
    method SnapshotAndClear(start: nat, length: nat, bits: nat) returns (snap: Snapshot, ghost marked: set<nat>)
      requires Sized(blocks) && start + length <= Shl(Pages(blocks), bits)
      modifies this
      ensures snap.start == WordsDown(start, bits) <= start && start + length <= snap.end
      ensures snap.end == WordsDown(start + length + PowerOfTwo(bits + BITS_PER_LEVEL) - 1, bits)
      ensures Conserved(old(blocks), blocks, marked, PageOf(snap.start, bits), snap.dirty)
      ensures |snap.dirty| == PageOf(snap.end, bits) - PageOf(snap.start, bits)
      ensures marked + All(others) == All(old(others))
    {
      hide Conserved, All, Mark, Shl, Shr, WordsDown, PageOf, PowerOfTwo;
      ghost var before := blocks;
      Window(start, length, bits, blocks);
      var first := WordsDown(start, bits);
      var last := WordsDown(start + length + PowerOfTwo(bits + BITS_PER_LEVEL) - 1, bits);
      var page, end := PageOf(first, bits), PageOf(last, bits);
      ghost var lo := page;
      var dirty: seq<bool> := [];
      marked := {};
      ConservedSelf(blocks, lo);
      while page < end
        invariant lo <= page <= end && page % BITS_PER_LONG == 0 && |dirty| == page - lo && |blocks| == |before|
        invariant Conserved(before, blocks, marked, lo, dirty) && marked + All(others) == All(old(others))
        decreases end - page
      {
        var idx, offset := page / DIRTY_MEMORY_BLOCK_SIZE, page % DIRTY_MEMORY_BLOCK_SIZE;
        var num := Least(end - page, DIRTY_MEMORY_BLOCK_SIZE - offset);
        Chunk(page, end, |blocks|);
        assert offset % BITS_PER_LONG == 0;
        assert num % BITS_PER_LONG == 0;
        var dst;
        dst, marked := CopyAndClear(idx, offset, num, before, marked, lo, dirty);
        page := page + num;
        dirty := dirty + dst;
      }
      snap := Snapshot(first, last, dirty);
    }

    /** bitmap_test_and_clear_atomic, going on with a window that ends where the range starts. */
    method TestAndClear(idx: nat, start: nat, nr0: nat, ghost before: Blocks, ghost marked0: set<nat>, ghost lo: nat,
                        ghost taken0: seq<bool>)
      returns (dirty: bool, ghost marked: set<nat>, ghost taken: seq<bool>)
      requires Conserved(before, blocks, marked0, lo, taken0) && idx < |blocks|
      requires lo + |taken0| == idx * DIRTY_MEMORY_BLOCK_SIZE + start
      requires start < DIRTY_MEMORY_BLOCK_SIZE && start + nr0 <= DIRTY_MEMORY_BLOCK_SIZE
      modifies this
      ensures |taken| == |taken0| + nr0 && taken0 <= taken && (dirty <==> true in taken[|taken0|..])
      ensures |blocks| == |old(blocks)| && Conserved(before, blocks, marked, lo, taken)
      ensures marked + All(others) == marked0 + All(old(others))
    {
      hide Conserved, All, Mark;
      var nr: int, pos, bitsToClear := nr0, start, BITS_PER_LONG - start % BITS_PER_LONG;
      var bits;
      dirty, marked, taken := false, marked0, taken0;
      NextWord(start);
      ConservedSized(before, blocks, marked, lo, taken);
      if nr - bitsToClear > 0 {
        bits, marked := Fetch(idx, pos, bitsToClear, before, marked, lo, taken);
        ConservedSized(before, blocks, marked, lo, taken + bits);
        Dirtier(taken0, taken, bits, dirty);
        taken := taken + bits;
        dirty := dirty || true in bits;
        nr, pos, bitsToClear := nr - bitsToClear, pos + bitsToClear, BITS_PER_LONG;
      }
      if bitsToClear == BITS_PER_LONG {
        dirty, nr, pos, marked, taken := ClearWords(idx, pos, nr, dirty, before, marked, lo, taken0, taken);
      }
      if nr != 0 {
        bits, marked := Fetch(idx, pos, nr, before, marked, lo, taken);
        ConservedSized(before, blocks, marked, lo, taken + bits);
        Dirtier(taken0, taken, bits, dirty);
        taken := taken + bits;
        dirty := dirty || true in bits;
      }
    }

    /** Its loop over whole words, which leaves words alone that are seen to be zero. */
    method ClearWords(idx: nat, pos0: nat, nr0: nat, dirty0: bool,
                      ghost before: Blocks, ghost marked0: set<nat>, ghost lo: nat, ghost base: seq<bool>,
                      ghost taken0: seq<bool>)
      returns (dirty: bool, nr: nat, pos: nat, ghost marked: set<nat>, ghost taken: seq<bool>)
      requires Conserved(before, blocks, marked0, lo, taken0) && idx < |blocks|
      requires lo + |taken0| == idx * DIRTY_MEMORY_BLOCK_SIZE + pos0
      requires pos0 % BITS_PER_LONG == 0 && pos0 + nr0 <= DIRTY_MEMORY_BLOCK_SIZE
      requires base <= taken0 && (dirty0 <==> true in taken0[|base|..])
      modifies this
      ensures base <= taken && (dirty <==> true in taken[|base|..])
      ensures nr == nr0 % BITS_PER_LONG && pos == pos0 + nr0 - nr && pos % BITS_PER_LONG == 0
      ensures lo + |taken| == idx * DIRTY_MEMORY_BLOCK_SIZE + pos
      ensures |blocks| == |old(blocks)| && Conserved(before, blocks, marked, lo, taken)
      ensures marked + All(others) == marked0 + All(old(others))
    {
      hide Conserved, All, Mark;
      dirty, nr, pos, marked, taken := dirty0, nr0, pos0, marked0, taken0;
      while nr >= BITS_PER_LONG
        invariant pos % BITS_PER_LONG == 0 && pos + nr == pos0 + nr0 && nr % BITS_PER_LONG == nr0 % BITS_PER_LONG
        invariant lo + |taken| == idx * DIRTY_MEMORY_BLOCK_SIZE + pos && base <= taken
        invariant (dirty <==> true in taken[|base|..])
        invariant |blocks| == |old(blocks)| && Conserved(before, blocks, marked, lo, taken)
        invariant marked + All(others) == marked0 + All(old(others))
      {
        ConservedSized(before, blocks, marked, lo, taken);
        ghost var was := blocks;
        var s := OthersRun();
        ConservedMark(before, was, marked, lo, taken, s);
        marked := marked + s;
        ConservedSized(before, blocks, marked, lo, taken);
        var bits := blocks[idx][pos..pos + BITS_PER_LONG];
        if true in bits {
          bits, marked := Fetch(idx, pos, BITS_PER_LONG, before, marked, lo, taken);
          Dirtier(base, taken, bits, dirty);
          dirty := dirty || true in bits;
        } else {
          Dirtier(base, taken, bits, dirty);
          ConservedTake(before, blocks, marked, lo, taken, idx, pos, BITS_PER_LONG);
          ClearNothing(blocks, idx, pos, BITS_PER_LONG);
        }
        ConservedSized(before, blocks, marked, lo, taken + bits);
        taken := taken + bits;
        nr, pos := nr - BITS_PER_LONG, pos + BITS_PER_LONG;
      }
    }

    /** cpu_physical_memory_test_and_clear_dirty */
    method TestAndClearDirty(start: nat, length: nat, bits: nat)
      returns (dirty: bool, ghost marked: set<nat>, ghost taken: seq<bool>)
      requires Sized(blocks) && start + length <= Shl(Pages(blocks), bits)
      modifies this
      ensures |taken| == if length == 0 then 0 else PageUp(start + length, bits) - PageOf(start, bits)
      ensures dirty <==> true in taken
      ensures Conserved(old(blocks), blocks, marked, PageOf(start, bits), taken)
      ensures marked + All(others) == All(old(others))
    {
      hide Conserved, All, Mark, PageOf, PageUp, Shl;
      dirty, marked, taken := false, {}, [];
      PagesInside(start, length, bits, Pages(blocks));
      ConservedSelf(blocks, PageOf(start, bits));
      if length == 0 {
        return;
      }
      ghost var before := blocks;
      var end, page := PageUp(start + length, bits), PageOf(start, bits);
      ghost var lo := page;
      while page < end
        invariant lo <= page <= end && |taken| == page - lo && |blocks| == |before| && (dirty <==> true in taken)
        invariant Conserved(before, blocks, marked, lo, taken) && marked + All(others) == All(old(others))
      {
        var idx, offset := page / DIRTY_MEMORY_BLOCK_SIZE, page % DIRTY_MEMORY_BLOCK_SIZE;
        var num := Least(end - page, DIRTY_MEMORY_BLOCK_SIZE - offset);
        Chunk(page, end, |blocks|);
        ghost var taken0 := taken;
        var one;
        one, marked, taken := TestAndClear(idx, offset, num, before, marked, lo, taken);
        assert taken == taken0 + taken[|taken0|..];
        dirty := dirty || one;
        page := page + num;
      }
    }

    /** cpu_physical_memory_snapshot_get_dirty */
    static method SnapshotGetDirty(snap: Snapshot, start: nat, length: nat, bits: nat) returns (r: bool)
      requires snap.start <= start && start + length <= snap.end
      requires PageUp(snap.end - snap.start, bits) <= |snap.dirty|
      ensures r <==> SnapshotSays(snap, start, length, bits)
    {
      hide Shr, PowerOfTwo;
      var end := PageUp(start + length - snap.start, bits);
      var page := PageOf(start - snap.start, bits);
      ghost var page0 := page;
      ShrMonotone(start + length - snap.start + PowerOfTwo(bits) - 1, snap.end - snap.start + PowerOfTwo(bits) - 1,
                  bits);
      while page < end
        invariant page0 <= page && forall p :: page0 <= p < page ==> p < |snap.dirty| && !snap.dirty[p]
      {
        if snap.dirty[page] {
          return true;
        }
        page := page + 1;
      }
      return false;
    }
  }

  lemma InWord(offset: nat, n: nat)
    requires offset % BITS_PER_LONG + n <= BITS_PER_LONG && offset < DIRTY_MEMORY_BLOCK_SIZE
    ensures offset + n <= DIRTY_MEMORY_BLOCK_SIZE
  {}

  lemma ConservedSized(before: Blocks, now: Blocks, marked: set<nat>, lo: nat, taken: seq<bool>)
    requires Conserved(before, now, marked, lo, taken)
    ensures |now| == |before| && Sized(now)
  {}

  /** One round of the loop over blocks. */
  lemma Chunk(page: nat, end: nat, blocks: nat)
    requires page < end <= blocks * DIRTY_MEMORY_BLOCK_SIZE
    ensures var idx, offset := page / DIRTY_MEMORY_BLOCK_SIZE, page % DIRTY_MEMORY_BLOCK_SIZE;
            var num := Least(end - page, DIRTY_MEMORY_BLOCK_SIZE - offset);
            && idx < blocks && num > 0 && idx * DIRTY_MEMORY_BLOCK_SIZE + offset == page && page + num <= end
            && (page % BITS_PER_LONG == 0 ==> offset % BITS_PER_LONG == 0)
            && (page % BITS_PER_LONG == 0 && end % BITS_PER_LONG == 0 ==>
                  num % BITS_PER_LONG == 0 && (page + num) % BITS_PER_LONG == 0)
  {
    var idx, offset := page / DIRTY_MEMORY_BLOCK_SIZE, page % DIRTY_MEMORY_BLOCK_SIZE;
    var base := idx * DIRTY_MEMORY_BLOCK_SIZE;
    assert page == base + offset;
    assert base == 64 * (idx * 0x8000);
    WholeWords(page, base);
    WholeWords(end, page);
    WholeWords(DIRTY_MEMORY_BLOCK_SIZE, offset);
    WholeWords(page, -Least(end - page, DIRTY_MEMORY_BLOCK_SIZE - offset));
  }

  lemma WholeWords(a: int, b: int)
    ensures a % BITS_PER_LONG == 0 && b % BITS_PER_LONG == 0 ==> (a - b) % BITS_PER_LONG == 0 && -b % BITS_PER_LONG == 0
  {
    Multiple64(a / 64 - b / 64);
    Multiple64(-(b / 64));
  }

  lemma Multiple64(k: int)
    ensures 64 * k % BITS_PER_LONG == 0
  {}

  lemma NextWord(start: nat)
    ensures (start + (BITS_PER_LONG - start % BITS_PER_LONG)) % BITS_PER_LONG == 0
    ensures BITS_PER_LONG - start % BITS_PER_LONG == BITS_PER_LONG ==> start % BITS_PER_LONG == 0
  {}

  function Least(a: int, b: int): int {
    if a < b then a else b
  }

  /** The window is a whole number of words and lies within the bitmap. */
  lemma Window(start: nat, length: nat, bits: nat, blocks: Blocks)
    requires start + length <= Shl(Pages(blocks), bits)
    ensures var first := WordsDown(start, bits);
            var last := WordsDown(start + length + PowerOfTwo(bits + BITS_PER_LEVEL) - 1, bits);
            && first <= start && start + length <= last && PageOf(first, bits) <= PageOf(last, bits) <= Pages(blocks)
            && PageOf(first, bits) % BITS_PER_LONG == 0 && PageOf(last, bits) % BITS_PER_LONG == 0
  {
    hide Shl, Shr, WordsDown, PageOf, PowerOfTwo;
    var top := start + length + PowerOfTwo(bits + BITS_PER_LEVEL) - 1;
    WordsDownPage(start, bits);
    WordsDownPage(top, bits);
    var words := |blocks| * 0x8000;
    assert Pages(blocks) == BITS_PER_LONG * words;
    WordsUp(start + length, bits, words);
    ShrMonotone(start, top, bits + BITS_PER_LEVEL);
  }

  lemma Dirtier(base: seq<bool>, taken: seq<bool>, bits: seq<bool>, dirty: bool)
    requires base <= taken && (dirty <==> true in taken[|base|..])
    ensures base <= taken + bits && (dirty || true in bits <==> true in (taken + bits)[|base|..])
  {
    assert (taken + bits)[|base|..] == taken[|base|..] + bits;
  }

  lemma ClearNothing(blocks: Blocks, idx: nat, offset: nat, n: nat)
    requires Sized(blocks) && idx < |blocks| && offset + n <= DIRTY_MEMORY_BLOCK_SIZE
    requires true !in blocks[idx][offset..offset + n]
    ensures Cleared(blocks, idx, offset, n) == blocks
  {
    var b := blocks[idx];
    assert b[..offset] + Falses(n) + b[offset + n..] == b by {
      forall i | offset <= i < offset + n
        ensures !b[i]
      {
        assert b[i] == b[offset..offset + n][i - offset];
      }
    }
  }

  lemma PagesInside(start: nat, length: nat, bits: nat, pages: nat)
    requires start + length <= Shl(pages, bits)
    ensures PageOf(start, bits) <= pages && PageUp(start + length, bits) <= pages
    ensures length > 0 ==> PageOf(start, bits) < PageUp(start + length, bits)
  {
    hide Shl, Shr;
    var p, u := PageOf(start, bits), PageUp(start + length, bits);
    ShrRange(start, bits, p);
    ShrRange(start + length + PowerOfTwo(bits) - 1, bits, u);
    ShlLinear(pages, 1, bits);
    ShlLinear(u, 1, bits);
    ShlLinear(p, 1, bits);
    if pages < p {
      ShlMonotone(pages, p, bits);
    }
    if pages + 1 < u {
      ShlMonotone(pages + 1, u, bits);
    }
    if u < p {
      ShlMonotone(u, p, bits);
    }
  }

  // ---------------------------------------------------------------- what a snapshot answers

  /** The snapshot of the window around a range of addresses. */
  ghost predicate Covers(snap: Snapshot, bits: nat) {
    exists q: nat, r: nat :: q <= r && snap.start == Shl(q, bits) && snap.end == Shl(r, bits) && |snap.dirty| == r - q
  }

  lemma SnapshotCovers(snap: Snapshot, start: nat, top: nat, bits: nat)
    requires snap.start == WordsDown(start, bits) && snap.end == WordsDown(top, bits) && snap.start <= snap.end
    requires |snap.dirty| == PageOf(snap.end, bits) - PageOf(snap.start, bits)
    ensures Covers(snap, bits) && 8 * Shr(snap.end - snap.start, bits + 3) == |snap.dirty|
  {
    hide Shl, Shr, WordsDown;
    WordsDownPage(start, bits);
    WordsDownPage(top, bits);
    var q, r := Shr(start, bits + BITS_PER_LEVEL), Shr(top, bits + BITS_PER_LEVEL);
    var d := r - q;
    ShlLinear(64 * q, 64 * d, bits);
    ShlSix(8 * d);
    ShlAdd(8 * d, 3, bits);
    assert 3 + bits == bits + 3 && 64 * q + 64 * d == 64 * r;
    ShrOfShl(8 * d, bits + 3);
  }

  /** Pages counted from the start of the window are pages counted from zero. */
  lemma RelativePages(snap: Snapshot, q: nat, r: nat, start: nat, length: nat, bits: nat)
    requires q <= r && snap.start == Shl(q, bits) && snap.end == Shl(r, bits) && snap.start <= start
    requires start + length <= snap.end
    ensures q + PageOf(start - snap.start, bits) == PageOf(start, bits)
    ensures q + PageUp(start + length - snap.start, bits) == PageUp(start + length, bits) <= r
    ensures PageUp(snap.end - snap.start, bits) == r - q
  {
    hide Shl, Shr;
    ShrSub(start, q, bits);
    ShrSub(start + length + PowerOfTwo(bits) - 1, q, bits);
    ShrSub(snap.end + PowerOfTwo(bits) - 1, q, bits);
    ShlLinear(r, 1, bits);
    ShrRange(snap.end + PowerOfTwo(bits) - 1, bits, r);
    ShrMonotone(start + length + PowerOfTwo(bits) - 1, snap.end + PowerOfTwo(bits) - 1, bits);
  }

  /** Some page of the range is dirty in `blocks`, or is among `marked`. */
  ghost predicate DirtyIn(blocks: Blocks, marked: set<nat>, start: nat, length: nat, bits: nat)
    requires Sized(blocks)
  {
    exists p :: PageOf(start, bits) <= p < PageUp(start + length, bits) && p < Pages(blocks) &&
                (Get(blocks, p) || p in marked)
  }

  /** Whatever other CPUs marked meanwhile, a question about any part of the window is answered by yes if a
      page there was dirty before the snapshot, and by yes only if one was or has been marked. */
  lemma SnapshotAnswers(before: Blocks, now: Blocks, marked: set<nat>, snap: Snapshot, start: nat, length: nat,
                        bits: nat)
    requires Covers(snap, bits) && Conserved(before, now, marked, PageOf(snap.start, bits), snap.dirty)
    requires snap.start <= start && start + length <= snap.end
    ensures PageUp(snap.end - snap.start, bits) <= |snap.dirty|
    ensures DirtyIn(before, {}, start, length, bits) ==> SnapshotSays(snap, start, length, bits)
    ensures SnapshotSays(snap, start, length, bits) ==> DirtyIn(before, marked, start, length, bits)
  {
    hide Shl, Shr, PageOf, PageUp, Conserved, Get;
    var q: nat, r: nat :|
      q <= r && snap.start == Shl(q, bits) && snap.end == Shl(r, bits) && |snap.dirty| == r - q;
    RelativePages(snap, q, r, start, length, bits);
    PageOfShl(q, bits);
    InsideWindow(before, now, marked, q, snap.dirty);
    if p :| PageOf(start - snap.start, bits) <= p < PageUp(start + length - snap.start, bits) &&
            p < |snap.dirty| && snap.dirty[p] {
      TakenPage(before, now, marked, q, snap.dirty, q + p);
      assert Get(before, q + p) || q + p in marked;
    }
    if p :| PageOf(start, bits) <= p < PageUp(start + length, bits) && p < Pages(before) && Get(before, p) {
      TakenPage(before, now, marked, q, snap.dirty, p);
      assert snap.dirty[p - q];
    }
  }

  lemma TakenPage(before: Blocks, now: Blocks, marked: set<nat>, lo: nat, taken: seq<bool>, p: nat)
    requires Conserved(before, now, marked, lo, taken) && lo <= p < lo + |taken|
    ensures p < Pages(before) && (Get(before, p) ==> taken[p - lo])
    ensures taken[p - lo] ==> Get(before, p) || p in marked
  {}

  /** A question about an empty range that starts inside a page is a question about that page; at the
      start of a page the answer is no. */
  lemma EmptyQuestion(snap: Snapshot, start: nat, bits: nat)
    requires snap.start <= start
    ensures var p := PageOf(start - snap.start, bits);
            SnapshotSays(snap, start, 0, bits) <==>
            start - snap.start != Shl(p, bits) && p < |snap.dirty| && snap.dirty[p]
  {
    hide Shl, Shr;
    var x := start - snap.start;
    var p := PageOf(x, bits);
    ShrRange(x, bits, p);
    ShlLinear(p, 1, bits);
    ShlLinear(p + 1, 1, bits);
    if x == Shl(p, bits) {
      ShrRange(x + PowerOfTwo(bits) - 1, bits, p);
    } else {
      ShrRange(x + PowerOfTwo(bits) - 1, bits, p + 1);
    }
  }

  lemma PageOfShl(q: nat, bits: nat)
    ensures PageOf(Shl(q, bits), bits) == q
  {
    ShrOfShl(q, bits);
  }

  lemma InsideWindow(before: Blocks, now: Blocks, marked: set<nat>, lo: nat, taken: seq<bool>)
    requires Conserved(before, now, marked, lo, taken)
    ensures lo + |taken| <= Pages(before) && Sized(before)
  {}
}
