/** Port tables: a sorted table of port handlers is cut at its holes into memory regions, and an access
    is looked up in its region only. */
module PortIo {

  /** MemoryRegionPortio, with `id` for the handlers and whether there is one of each kind. */
  datatype Portio = Portio(offset: nat, len: nat, size: nat, read: bool, write: bool, base: nat, id: nat)

  /** A region of ports from `low` up to `high`, relative to the start of the list. */
  datatype Region = Region(low: nat, high: nat, ports: seq<Portio>)

  predicate Matches(p: Portio, offset: int, size: nat, write: bool) {
    p.offset <= offset < p.offset + p.len && size == p.size && if write then p.write else p.read
  }

  /** The first entry that matches, or -1. */
  function Find(ports: seq<Portio>, offset: int, size: nat, write: bool): (r: int)
    ensures -1 <= r < |ports|
    ensures r >= 0 ==> Matches(ports[r], offset, size, write) && forall i :: 0 <= i < r ==>
              !Matches(ports[i], offset, size, write)
    ensures r < 0 ==> forall i :: 0 <= i < |ports| ==> !Matches(ports[i], offset, size, write)
  {
    if ports == [] then -1
    else if Matches(ports[0], offset, size, write) then 0
    else
      var r := Find(ports[1..], offset, size, write);
      assert forall i :: 1 <= i < |ports| ==> ports[i] == ports[1..][i - 1];
      if r < 0 then -1 else r + 1
  }

  /** find_portio */
  method FindPortio(ports: seq<Portio>, offset: nat, size: nat, write: bool) returns (r: int)
    ensures r == Find(ports, offset, size, write)
  {
    for i := 0 to |ports|
      invariant forall j :: 0 <= j < i ==> !Matches(ports[j], offset, size, write)
    {
      var p := ports[i];
      if offset >= p.offset && offset < p.offset + p.len && size == p.size && (if write then p.write else p.read) {
        return i;
      }
    }
    return -1;
  }

  // ---------------------------------------------------------------- tables and regions

  /** Sorted by offset, and without the entry that ends the table. */
  ghost predicate TableOk(table: seq<Portio>) {
    && table != []
    && (forall i :: 0 <= i < |table| ==> table[i].size > 0)
    && (forall i, j :: 0 <= i < j < |table| ==> table[i].offset <= table[j].offset)
  }

  /** An entry as portio_list_add_1 puts it into a region. */
  function Rebased(p: Portio, start: nat, low: nat): Portio
    requires low <= p.offset
  {
    p.(offset := p.offset - low, base := start + low)
  }

  ghost predicate Inside(p: Portio, low: nat, high: nat) {
    low <= p.offset && p.offset + p.len <= high && p.offset <= high
  }

  /** Where a region ends if entry `i` of its part reaches furthest. */
  function Reach(part: seq<Portio>, i: nat): int
    requires i < |part|
  {
    part[i].offset + part[i].len + part[0].size - 1
  }

  /** The part has no hole inside, and `high` is where one of its entries reaches. */
  ghost predicate Unbroken(part: seq<Portio>, high: nat) {
    && (exists i :: 0 <= i < |part| && Reach(part, i) == high)
    && (forall j :: 0 < j < |part| ==> exists i :: 0 <= i < j && part[j].offset <= Reach(part, i))
  }

  lemma UnbrokenOne(part: seq<Portio>, high: nat)
    requires |part| == 1 && Reach(part, 0) == high
    ensures Unbroken(part, high)
  {}

  lemma UnbrokenMore(part: seq<Portio>, high: nat, p: Portio, high': nat)
    requires part != [] && Unbroken(part, high) && p.offset <= high
    requires (high' == high || high' == p.offset + p.len + part[0].size - 1)
    ensures Unbroken(part + [p], high')
  {
    var part' := part + [p];
    assert forall i :: 0 <= i < |part| ==> Reach(part', i) == Reach(part, i);
    var i :| 0 <= i < |part| && Reach(part, i) == high;
    assert part'[|part|].offset <= Reach(part', i);
    assert high' == Reach(part', i) || high' == Reach(part', |part|);
    forall j | 0 < j < |part'|
      ensures exists k :: 0 <= k < j && part'[j].offset <= Reach(part', k)
    {
      if j < |part| {
        var k :| 0 <= k < j && part[j].offset <= Reach(part, k);
        assert part'[j].offset <= Reach(part', k);
      }
    }
  }

  /** Region `r` holds the entries of `part`, in order. */
  ghost predicate Holds(r: Region, part: seq<Portio>, start: nat) {
    && part != [] && r.low == part[0].offset && |r.ports| == |part| && Unbroken(part, r.high)
    && forall i :: 0 <= i < |part| ==> Inside(part[i], r.low, r.high) && r.ports[i] == Rebased(part[i], start, r.low)
  }

  /** Region `r` is the one between cuts `k` and `k + 1`. */
  ghost predicate PartOk(table: seq<Portio>, start: nat, r: Region, cuts: seq<nat>, k: nat) {
    k + 1 < |cuts| && cuts[k] < cuts[k + 1] <= |table| && Holds(r, table[cuts[k]..cuts[k + 1]], start)
  }

  /** The regions hold the parts of the table between `cuts`, with a hole between any two. */
  ghost predicate Partition(table: seq<Portio>, start: nat, regions: seq<Region>, cuts: seq<nat>) {
    && |cuts| == |regions| + 1 && cuts[0] == 0
    && (forall k :: 0 <= k < |regions| ==> PartOk(table, start, regions[k], cuts, k))
    && (forall k, l :: 0 <= k < l < |regions| ==> regions[k].high < regions[l].low)
  }

  /** The group being collected: entries from `cut` up to `i`, in the range from `low` to `high`. */
  ghost predicate Collecting(table: seq<Portio>, regions: seq<Region>, cut: nat, i: nat, low: nat, high: nat) {
    && cut < i <= |table| && low == table[cut].offset && Unbroken(table[cut..i], high)
    && (forall j :: cut <= j < i ==> Inside(table[j], low, high))
    && (forall k :: 0 <= k < |regions| ==> regions[k].high < low)
  }

  class PortioList {
    var regions: seq<Region>

    constructor ()
      ensures regions == []
    {
      regions := [];
    }

    /** portio_list_add_1 */
    method AddOne(part: seq<Portio>, start: nat, low: nat, high: nat)
      requires part != [] && low == part[0].offset && Unbroken(part, high) && forall i :: 0 <= i < |part| ==>
                 Inside(part[i], low, high)
      modifies this
      ensures |regions| == |old(regions)| + 1 && regions[..|old(regions)|] == old(regions)
      ensures var r := regions[|old(regions)|]; r.low == low && r.high == high && Holds(r, part, start)
    {
      hide Unbroken;
      var ports := part;
      for i := 0 to |part|
        invariant |ports| == |part|
        invariant forall j :: 0 <= j < i ==> ports[j] == Rebased(part[j], start, low)
        invariant forall j :: i <= j < |part| ==> ports[j] == part[j]
      {
        ports := ports[i := ports[i].(offset := ports[i].offset - low, base := start + low)];
      }
      regions := regions + [Region(low, high, ports)];
    }

    /** portio_list_add */
    method Add(table: seq<Portio>, start: nat) returns (ghost cuts: seq<nat>)
      requires TableOk(table) && regions == []
      modifies this
      ensures Partition(table, start, regions, cuts) && regions != [] && cuts[|regions|] == |table|
    {
      hide Partition, Collecting, Holds, Inside, Unbroken;
      var first, low: nat := 0, table[0].offset;
      var high: nat := low + table[0].len + table[0].size - 1;
      var last, count := low, 1;
      cuts := [0];
      StartCollecting(table, regions, 0, high);
      NoRegions(table, start);
      var i := 1;
      while i < |table|
        invariant first < i <= |table| && count == i - first && last == table[i - 1].offset
        invariant Partition(table, start, regions, cuts) && |cuts| == |regions| + 1 && cuts[|regions|] == first
        invariant Collecting(table, regions, first, i, low, high)
      {
        var pio := table[i];
        assert pio.offset >= last;
        last := pio.offset;
        ghost var rs, h := regions, high;
        if last > high {
          EndCollecting(table, regions, first, i, low, high);
          AddOne(table[first..first + count], start, low, high);
          OneMore(table, start, rs, cuts, regions, first, i, low, high);
          cuts := cuts + [i];
          first, low, count := i, last, 0;
          high := low + pio.len + table[first].size - 1;
          Above(rs, table, regions, cuts[|rs|], i, h);
          StartCollecting(table, regions, i, high);
        } else {
          if last + pio.len > high {
            high := last + pio.len + table[first].size - 1;
          }
          KeepCollecting(table, regions, first, i, low, h, high);
        }
        i, count := i + 1, count + 1;
      }
      ghost var rs := regions;
      EndCollecting(table, regions, first, i, low, high);
      AddOne(table[first..first + count], start, low, high);
      OneMore(table, start, rs, cuts, regions, first, i, low, high);
      cuts := cuts + [i];
    }
  }

  lemma NoRegions(table: seq<Portio>, start: nat)
    ensures Partition(table, start, [], [0])
  {}

  lemma StartCollecting(table: seq<Portio>, regions: seq<Region>, i: nat, high: nat)
    requires TableOk(table) && i < |table| && table[i].offset + table[i].len <= high && table[i].offset <= high
    requires high == table[i].offset + table[i].len + table[i].size - 1
    requires forall k :: 0 <= k < |regions| ==> regions[k].high < table[i].offset
    ensures Collecting(table, regions, i, i + 1, table[i].offset, high)
  {
    UnbrokenOne(table[i..i + 1], high);
  }

  lemma KeepCollecting(table: seq<Portio>, regions: seq<Region>, cut: nat, i: nat, low: nat, high: nat, high': nat)
    requires TableOk(table) && i < |table| && Collecting(table, regions, cut, i, low, high)
    requires high <= high' && table[i].offset + table[i].len <= high' && table[i].offset <= high
    requires high' == high || high' == table[i].offset + table[i].len + table[cut].size - 1
    ensures Collecting(table, regions, cut, i + 1, low, high')
  {
    hide Unbroken;
    UnbrokenMore(table[cut..i], high, table[i], high');
    assert table[cut..i] + [table[i]] == table[cut..i + 1];
  }

  lemma EndCollecting(table: seq<Portio>, regions: seq<Region>, cut: nat, i: nat, low: nat, high: nat)
    requires Collecting(table, regions, cut, i, low, high)
    ensures var part := table[cut..i];
            && part != [] && low == part[0].offset && Unbroken(part, high)
            && forall j :: 0 <= j < |part| ==> Inside(part[j], low, high)
    ensures forall k :: 0 <= k < |regions| ==> regions[k].high < low
  {}

  lemma OneMore(table: seq<Portio>, start: nat, regions: seq<Region>, cuts: seq<nat>, regions': seq<Region>, cut: nat,
                i: nat, low: nat, high: nat)
    requires Partition(table, start, regions, cuts) && |cuts| == |regions| + 1 && cuts[|regions|] == cut
    requires Collecting(table, regions, cut, i, low, high)
    requires |regions'| == |regions| + 1 && regions'[..|regions|] == regions
    requires var r := regions'[|regions|]; r.low == low && r.high == high && Holds(r, table[cut..i], start)
    ensures Partition(table, start, regions', cuts + [i])
  {
    hide Holds, Inside;
    assert forall k :: 0 <= k < |regions| ==> regions'[k] == regions'[..|regions|][k] == regions[k];
  }

  lemma Above(regions: seq<Region>, table: seq<Portio>, regions': seq<Region>, cut: nat, i: nat, high: nat)
    requires i < |table| && |regions'| == |regions| + 1 && regions'[..|regions|] == regions
    requires regions'[|regions|].high == high < table[i].offset
    requires cut < i && table[cut].offset <= table[i].offset && forall k :: 0 <= k < |regions| ==>
               regions[k].high < table[cut].offset
    ensures forall k :: 0 <= k < |regions'| ==> regions'[k].high < table[i].offset
  {
    assert forall k :: 0 <= k < |regions| ==> regions'[k] == regions'[..|regions|][k] == regions[k];
  }

  // ---------------------------------------------------------------- looking up in a region

  /** Everything before cut `k` ends before region `k`, everything from cut `k + 1` on starts after it. */
  lemma {:induction false} BeforeCut(table: seq<Portio>, start: nat, regions: seq<Region>, cuts: seq<nat>, k: nat,
                                     i: nat, offset: int)
    requires Partition(table, start, regions, cuts) && k < |regions| && i < cuts[k] && i < |table|
    requires regions[k].low <= offset
    ensures table[i].offset + table[i].len <= offset
  {
    var l := PartOf(table, start, regions, cuts, i, k);
    assert PartOk(table, start, regions[l], cuts, l);
    assert table[cuts[l]..cuts[l + 1]][i - cuts[l]] == table[i];
    assert Inside(table[i], regions[l].low, regions[l].high);
  }

  lemma {:induction false} AfterCut(table: seq<Portio>, start: nat, regions: seq<Region>, cuts: seq<nat>, k: nat,
                                    i: nat, offset: int)
    requires Partition(table, start, regions, cuts) && cuts[|regions|] == |table|
    requires k < |regions| && cuts[k + 1] <= i < |table| && offset <= regions[k].high
    ensures offset < table[i].offset
  {
    var l := PartOf(table, start, regions, cuts, i, |regions|);
    CutsGrow(table, start, regions, cuts, l + 1, k + 1);
    assert PartOk(table, start, regions[l], cuts, l);
    assert table[cuts[l]..cuts[l + 1]][i - cuts[l]] == table[i];
    assert Inside(table[i], regions[l].low, regions[l].high);
  }

  lemma {:induction false} CutsGrow(table: seq<Portio>, start: nat, regions: seq<Region>, cuts: seq<nat>, a: nat,
                                    b: nat)
    requires Partition(table, start, regions, cuts) && a < |cuts| && b < |cuts|
    ensures a <= b ==> cuts[a] <= cuts[b]
    decreases b
  {
    if a < b {
      CutsGrow(table, start, regions, cuts, a, b - 1);
      assert PartOk(table, start, regions[b - 1], cuts, b - 1);
    }
  }

  /** The part that entry `i` is in. */
  lemma {:induction false} PartOf(table: seq<Portio>, start: nat, regions: seq<Region>, cuts: seq<nat>, i: nat, k: nat)
    returns (l: nat)
    requires Partition(table, start, regions, cuts) && k <= |regions| && i < cuts[k]
    ensures l < k && cuts[l] <= i < cuts[l + 1]
    decreases k
  {
    assert k > 0;
    if cuts[k - 1] <= i {
      l := k - 1;
    } else {
      l := PartOf(table, start, regions, cuts, i, k - 1);
    }
  }

  /** A look-up in the region of an access finds the entry that a search of the whole table finds. */
  lemma FindInRegion(table: seq<Portio>, start: nat, regions: seq<Region>, cuts: seq<nat>, k: nat, offset: nat,
                     size: nat, write: bool)
    requires Partition(table, start, regions, cuts) && cuts[|regions|] == |table| && k < |regions|
    requires regions[k].low <= offset < regions[k].high
    ensures var r := Find(regions[k].ports, offset - regions[k].low, size, write);
            Find(table, offset, size, write) == if r < 0 then -1 else cuts[k] + r
  {
    hide Partition, PartOk, Inside, Find, Unbroken;
    var a, b := PartFacts(table, start, regions, cuts, k);
    var ports, low := regions[k].ports, regions[k].low;
    var r, f := Find(ports, offset - low, size, write), Find(table, offset, size, write);
    forall i | 0 <= i < |table| && (i < a || b <= i)
      ensures !Matches(table[i], offset, size, write)
    {
      if i < a {
        BeforeCut(table, start, regions, cuts, k, i, offset);
      } else {
        AfterCut(table, start, regions, cuts, k, i, offset);
      }
    }
    forall i | a <= i < b
      ensures Matches(table[i], offset, size, write) <==> Matches(ports[i - a], offset - low, size, write)
    {
      assert low <= table[a..b][i - a].offset && ports[i - a] == Rebased(table[a..b][i - a], start, low);
    }
    if r >= 0 {
      assert Matches(table[a + r], offset, size, write);
    }
    if f >= 0 {
      assert Matches(ports[f - a], offset - low, size, write);
    }
  }

  lemma PartFacts(table: seq<Portio>, start: nat, regions: seq<Region>, cuts: seq<nat>, k: nat) returns (a: nat, b: nat)
    requires Partition(table, start, regions, cuts) && k < |regions|
    ensures |cuts| == |regions| + 1 && a == cuts[k] && b == cuts[k + 1] && a < b <= |table|
    ensures |regions[k].ports| == b - a
    ensures forall i :: 0 <= i < b - a ==>
              regions[k].low <= table[a..b][i].offset &&
              regions[k].ports[i] == Rebased(table[a..b][i], start, regions[k].low)
  {
    a, b := cuts[k], cuts[k + 1];
    assert PartOk(table, start, regions[k], cuts, k);
  }

  /** Outside every region, the whole table has no entry either. */
  lemma NoRegionNoEntry(table: seq<Portio>, start: nat, regions: seq<Region>, cuts: seq<nat>, offset: nat, size: nat,
                        write: bool)
    requires Partition(table, start, regions, cuts) && cuts[|regions|] == |table|
    requires forall k :: 0 <= k < |regions| ==> !(regions[k].low <= offset < regions[k].high)
    ensures Find(table, offset, size, write) == -1
  {
    forall i | 0 <= i < |table|
      ensures !Matches(table[i], offset, size, write)
    {
      var l := PartOf(table, start, regions, cuts, i, |regions|);
      assert PartOk(table, start, regions[l], cuts, l);
      assert table[cuts[l]..cuts[l + 1]][i - cuts[l]] == table[i];
      assert Inside(table[i], regions[l].low, regions[l].high);
    }
  }

  // ---------------------------------------------------------------- accesses

  /** A handler called on an absolute port. */
  datatype Call = Call(id: nat, port: nat)

  /** What an access calls: the entry for its size; or, for two bytes, an entry for one byte, twice if
      it also covers the second port. */
  function Calls(ports: seq<Portio>, offset: nat, size: nat, write: bool): seq<Call> {
    var r := Find(ports, offset, size, write);
    if r >= 0 then [Call(ports[r].id, ports[r].base + offset)]
    else if size != 2 then []
    else
      var b := Find(ports, offset, 1, write);
      if b < 0 then []
      else if offset + 1 < ports[b].offset + ports[b].len then
        [Call(ports[b].id, ports[b].base + offset), Call(ports[b].id, ports[b].base + offset + 1)]
      else [Call(ports[b].id, ports[b].base + offset)]
  }

  /** Entry `i` is the first that matches. */
  predicate First(ports: seq<Portio>, i: nat, offset: nat, size: nat, write: bool) {
    && i < |ports| && Matches(ports[i], offset, size, write)
    && forall j :: 0 <= j < i ==> !Matches(ports[j], offset, size, write)
  }

  /** The first entry for the whole access is called once, on its port.  Without one, two bytes go to the first
      entry for one byte: both ports if the entry covers both, else the first of them.  Otherwise nothing is
      called. */
  lemma WhoIsCalled(ports: seq<Portio>, offset: nat, size: nat, write: bool)
    ensures forall i: nat :: First(ports, i, offset, size, write) ==>
              Calls(ports, offset, size, write) == [Call(ports[i].id, ports[i].base + offset)]
    ensures forall i: nat :: First(ports, i, offset, 1, write) && size == 2 &&
                             (forall j :: 0 <= j < |ports| ==> !Matches(ports[j], offset, 2, write)) ==>
              var calls := Calls(ports, offset, size, write);
              && 1 <= |calls| <= 2 && (|calls| == 2 <==> Matches(ports[i], offset + 1, 1, write))
              && forall k :: 0 <= k < |calls| ==> calls[k] == Call(ports[i].id, ports[i].base + offset + k)
    ensures (forall j :: 0 <= j < |ports| ==> !Matches(ports[j], offset, size, write)) &&
            (size == 2 ==> forall j :: 0 <= j < |ports| ==> !Matches(ports[j], offset, 1, write)) ==>
              Calls(ports, offset, size, write) == []
  {
    hide Find, Matches;
    var r, b := Find(ports, offset, size, write), Find(ports, offset, 1, write);
    forall i: nat | First(ports, i, offset, size, write)
      ensures i == r
    {}
    forall i: nat | First(ports, i, offset, 1, write)
      ensures i == b && (Matches(ports[i], offset + 1, 1, write) <==> offset + 1 < ports[i].offset + ports[i].len)
    {
      NextPort(ports[i], offset, write);
    }
  }

  lemma NextPort(p: Portio, offset: nat, write: bool)
    requires Matches(p, offset, 1, write)
    ensures Matches(p, offset + 1, 1, write) <==> offset + 1 < p.offset + p.len
  {}

  /** portio_read and portio_write: the calls they make */
  method Access(r: Region, addr: nat, size: nat, write: bool) returns (calls: seq<Call>)
    ensures calls == Calls(r.ports, addr, size, write)
  {
    calls := [];
    var k := FindPortio(r.ports, addr, size, write);
    if k >= 0 {
      calls := [Call(r.ports[k].id, r.ports[k].base + addr)];
    } else if size == 2 {
      k := FindPortio(r.ports, addr, 1, write);
      if k >= 0 {
        calls := [Call(r.ports[k].id, r.ports[k].base + addr)];
        if addr + 1 < r.ports[k].offset + r.ports[k].len {
          calls := calls + [Call(r.ports[k].id, r.ports[k].base + addr + 1)];
        }
      }
    }
  }

  /** The table as one region at `start`. */
  function Whole(table: seq<Portio>, start: nat): (ports: seq<Portio>)
    ensures |ports| == |table| && forall i :: 0 <= i < |table| ==> ports[i] == table[i].(base := start)
  {
    seq(|table|, i requires 0 <= i < |table| => table[i].(base := start))
  }

  lemma FindWhole(table: seq<Portio>, start: nat, offset: nat, size: nat, write: bool)
    ensures Find(Whole(table, start), offset, size, write) == Find(table, offset, size, write)
  {
    hide Find;
    var f, w := Find(table, offset, size, write), Find(Whole(table, start), offset, size, write);
    if f >= 0 {
      assert Matches(Whole(table, start)[f], offset, size, write);
    }
    if w >= 0 {
      assert Matches(table[w], offset, size, write);
    }
  }

  /** An access through its region makes the calls, on the ports, that it would make if the table had
      not been cut. */
  lemma AccessInRegion(table: seq<Portio>, start: nat, regions: seq<Region>, cuts: seq<nat>, k: nat, offset: nat,
                       size: nat, write: bool)
    requires Partition(table, start, regions, cuts) && cuts[|regions|] == |table| && k < |regions|
    requires regions[k].low <= offset < regions[k].high
    ensures Calls(regions[k].ports, offset - regions[k].low, size, write) ==
            Calls(Whole(table, start), offset, size, write)
  {
    hide Partition, Find, Whole, Matches;
    FindInRegion(table, start, regions, cuts, k, offset, size, write);
    FindInRegion(table, start, regions, cuts, k, offset, 1, write);
    FindWhole(table, start, offset, size, write);
    FindWhole(table, start, offset, 1, write);
    var a, b := PartFacts(table, start, regions, cuts, k);
    var r := Find(regions[k].ports, offset - regions[k].low, size, write);
    var r1 := Find(regions[k].ports, offset - regions[k].low, 1, write);
    if r >= 0 {
      assert table[a..b][r] == table[a + r];
    } else if r1 >= 0 {
      assert table[a..b][r1] == table[a + r1];
    }
  }
}
