/** The dynamic memory pool of os_dmem.c: a ring of blocks with a search pointer, in units of
    one UNSIGNED (4 bytes).  DM_OVERHEAD is a DM_HEADER of four such units.  Addresses are
    offsets from the start of the pool. */
module DynMem {
  import opened Options

  const OVERHEAD: nat := 4

  /** DM_HEADER without its constant pool pointer. */
  datatype Header = Header(next: nat, prev: nat, free: bool)

  /** A block of the pool: the size of its data, and whether it is free. */
  datatype Block = Block(size: nat, free: bool)

  // ----- blocks as a value ---------------------------------------------------------------

  function Span(bs: seq<Block>): nat {
    if bs == [] then 0 else OVERHEAD + bs[0].size + Span(bs[1..])
  }

  function FreeSum(bs: seq<Block>): nat {
    if bs == [] then 0 else (if bs[0].free then bs[0].size else 0) + FreeSum(bs[1..])
  }

  lemma {:induction false} Append(a: seq<Block>, b: seq<Block>)
    ensures Span(a + b) == Span(a) + Span(b)
    ensures FreeSum(a + b) == FreeSum(a) + FreeSum(b)
  {
    if a == [] {
      assert a + b == b;
    } else {
      Append(a[1..], b);
      assert (a + b)[1..] == a[1..] + b;
    }
  }

  /** Where block i begins; i == |bs| is the trailer. */
  function Off(bs: seq<Block>, i: nat): nat
    requires i <= |bs|
  {
    Span(bs[..i])
  }

  lemma OffNext(bs: seq<Block>, i: nat)
    requires i < |bs|
    ensures Off(bs, i + 1) == Off(bs, i) + OVERHEAD + bs[i].size
  {
    Append(bs[..i], [bs[i]]);
    assert bs[..i + 1] == bs[..i] + [bs[i]];
    assert Span([bs[i]]) == OVERHEAD + bs[i].size;
  }

  lemma {:induction false} OffGrows(bs: seq<Block>, i: nat, j: nat)
    requires i < j <= |bs|
    ensures Off(bs, i) + OVERHEAD + bs[i].size <= Off(bs, j)
  {
    OffNext(bs, j - 1);
    if i < j - 1 {
      OffGrows(bs, i, j - 1);
    }
  }

  lemma OffDistinct(bs: seq<Block>, i: nat, j: nat)
    requires i <= |bs| && j <= |bs|
    ensures Off(bs, i) == Off(bs, j) <==> i == j
  {
    if i < j {
      OffGrows(bs, i, j);
    } else if j < i {
      OffGrows(bs, j, i);
    }
  }

  /** Blocks i .. i + |old'| of bs are replaced by new', which spans as much. */
  lemma OffAfter(a: seq<Block>, mid: seq<Block>, mid': seq<Block>, c: seq<Block>, j: nat)
    requires Span(mid') == Span(mid) && j <= |c|
    ensures Off(a + mid' + c, |a| + |mid'| + j) == Off(a + mid + c, |a| + |mid| + j)
  {
    hide Span;
    OffPast(a, mid, c, j);
    OffPast(a, mid', c, j);
  }

  lemma OffPast(a: seq<Block>, mid: seq<Block>, c: seq<Block>, j: nat)
    requires j <= |c|
    ensures Off(a + mid + c, |a| + |mid| + j) == Span(a) + Span(mid) + Span(c[..j])
  {
    assert (a + mid + c)[..|a| + |mid| + j] == (a + mid) + c[..j];
    hide Span;
    Append(a + mid, c[..j]);
    Append(a, mid);
  }

  lemma OffBefore(a: seq<Block>, b: seq<Block>, c: seq<Block>, j: nat)
    requires j <= |a|
    ensures Off(a + b, j) == Off(a + c, j)
  {
    assert (a + b)[..j] == a[..j] == (a + c)[..j];
  }

  // ----- the ring ----------------------------------------------------------------------------

  /** The header that block i (or the trailer, i == |bs|) must have. */
  function HeaderOf(bs: seq<Block>, i: nat): Header
    requires i <= |bs|
  {
    Header(if i == |bs| then 0 else Off(bs, i + 1),
           if i == 0 then Off(bs, |bs|) else Off(bs, i - 1),
           i < |bs| && bs[i].free)
  }

  predicate Linked(h: map<nat, Header>, bs: seq<Block>, i: nat)
    requires i <= |bs|
  {
    Off(bs, i) in h && h[Off(bs, i)] == HeaderOf(bs, i)
  }

  predicate Ring(h: map<nat, Header>, bs: seq<Block>) {
    |bs| > 0 && forall i :: 0 <= i <= |bs| ==> Linked(h, bs, i)
  }

  predicate Coalesced(bs: seq<Block>) {
    forall i :: 0 < i < |bs| ==> !(bs[i - 1].free && bs[i].free)
  }

  predicate SearchOk(bs: seq<Block>, p: nat) {
    exists i :: 0 <= i <= |bs| && Off(bs, i) == p
  }

  /** The live allocation whose data begins at p and has n units. */
  predicate Alloc(bs: seq<Block>, p: nat, n: nat) {
    exists i :: 0 <= i < |bs| && !bs[i].free && Off(bs, i) + OVERHEAD == p && bs[i].size == n
  }

  // ----- the three changes of the ring ----------------------------------------------------

  function Marked(bs: seq<Block>, i: nat, free: bool): seq<Block>
    requires i < |bs|
  {
    bs[i := bs[i].(free := free)]
  }

  /** Blocks i and i + 1 become one free block; a header's worth of space is gained. */
  function Merged(bs: seq<Block>, i: nat): seq<Block>
    requires i + 1 < |bs|
  {
    bs[..i] + [Block(bs[i].size + OVERHEAD + bs[i + 1].size, true)] + bs[i + 2..]
  }

  /** Block i is cut to n units; the rest becomes a free block. */
  function Cut(bs: seq<Block>, i: nat, n: nat): seq<Block>
    requires i < |bs| && n + OVERHEAD <= bs[i].size
  {
    bs[..i] + [Block(n, bs[i].free), Block(bs[i].size - n - OVERHEAD, true)] + bs[i + 1..]
  }

  /** The index in the finer tiling of the block with index j in the coarser one. */
  function Finer(i: nat, j: nat): nat {
    if j <= i then j else j + 1
  }

  lemma MarkedOff(bs: seq<Block>, i: nat, free: bool, j: nat)
    requires i < |bs| && j <= |bs|
    ensures Off(Marked(bs, i, free), j) == Off(bs, j)
  {
    hide Off, Marked;
    var b := bs[i].(free := free);
    MarkedParts(bs, i, free);
    if j <= i {
      OffBefore(bs[..i], [b] + bs[i + 1..], [bs[i]] + bs[i + 1..], j);
    } else {
      OffAfter(bs[..i], [bs[i]], [b], bs[i + 1..], j - i - 1);
    }
  }

  lemma MarkedParts(bs: seq<Block>, i: nat, free: bool)
    requires i < |bs|
    ensures bs == bs[..i] + [bs[i]] + bs[i + 1..] == bs[..i] + ([bs[i]] + bs[i + 1..])
    ensures var b := [bs[i].(free := free)];
      Marked(bs, i, free) == bs[..i] + b + bs[i + 1..] == bs[..i] + (b + bs[i + 1..])
  {
  }

  lemma MergedOff(bs: seq<Block>, i: nat, j: nat)
    requires i + 1 < |bs| && j < |bs|
    ensures Off(Merged(bs, i), j) == Off(bs, Finer(i, j))
  {
    var b := Block(bs[i].size + OVERHEAD + bs[i + 1].size, true);
    var mid := [bs[i], bs[i + 1]];
    assert bs == bs[..i] + mid + bs[i + 2..];
    Append([bs[i]], [bs[i + 1]]);
    assert mid == [bs[i]] + [bs[i + 1]];
    if j <= i {
      OffBefore(bs[..i], [b] + bs[i + 2..], mid + bs[i + 2..], j);
      assert bs[..i] + ([b] + bs[i + 2..]) == Merged(bs, i);
      assert bs[..i] + (mid + bs[i + 2..]) == bs;
    } else {
      OffAfter(bs[..i], mid, [b], bs[i + 2..], j - i - 1);
    }
  }

  lemma CutOff(bs: seq<Block>, i: nat, n: nat, j: nat)
    requires i < |bs| && n + OVERHEAD <= bs[i].size && j <= |bs|
    ensures Off(Cut(bs, i, n), Finer(i, j)) == Off(bs, j)
    ensures Off(Cut(bs, i, n), i + 1) == Off(bs, i) + OVERHEAD + n
  {
    var cut := Cut(bs, i, n);
    assert Merged(cut, i) == bs[i := bs[i].(free := true)];
    MergedOff(cut, i, j);
    MarkedOff(bs, i, true, j);
    OffNext(cut, i);
    MergedOff(cut, i, i);
    MarkedOff(bs, i, true, i);
  }

  lemma MarkedRing(h: map<nat, Header>, bs: seq<Block>, i: nat, free: bool)
    requires Ring(h, bs) && i < |bs|
    ensures Off(bs, i) in h
    ensures Ring(h[Off(bs, i) := h[Off(bs, i)].(free := free)], Marked(bs, i, free))
  {
    hide Off;
    assert Linked(h, bs, i);
    var h', bs' := h[Off(bs, i) := h[Off(bs, i)].(free := free)], Marked(bs, i, free);
    forall j | 0 <= j <= |bs'|
      ensures Linked(h', bs', j)
    {
      assert Linked(h, bs, j);
      OffDistinct(bs, i, j);
      MarkedHeader(bs, i, free, j);
    }
  }

  lemma MarkedHeader(bs: seq<Block>, i: nat, free: bool, j: nat)
    requires i < |bs| && j <= |bs|
    ensures Off(Marked(bs, i, free), j) == Off(bs, j)
    ensures HeaderOf(Marked(bs, i, free), j) ==
      if j == i then HeaderOf(bs, j).(free := free) else HeaderOf(bs, j)
  {
    hide Off;
    MarkedOff(bs, i, free, j);
    MarkedOff(bs, i, free, |bs|);
    if j < |bs| {
      MarkedOff(bs, i, free, j + 1);
    }
    if j > 0 {
      MarkedOff(bs, i, free, j - 1);
    }
  }

  /** lo->next = far; far->prev = lo */
  function Joined(h: map<nat, Header>, lo: nat, far: nat): map<nat, Header>
    requires lo in h && far in h
  {
    var h1 := h[lo := h[lo].(next := far)];
    h1[far := h1[far].(prev := lo)]
  }

  lemma MergedRing(h: map<nat, Header>, bs: seq<Block>, i: nat)
    requires Ring(h, bs) && i + 1 < |bs| && bs[i].free
    ensures Off(bs, i) in h && Off(bs, i + 2) in h
    ensures Ring(Joined(h, Off(bs, i), Off(bs, i + 2)), Merged(bs, i))
  {
    hide Off;
    assert Linked(h, bs, i) && Linked(h, bs, i + 2);
    OffDistinct(bs, i, i + 2);
    var h', bs' := Joined(h, Off(bs, i), Off(bs, i + 2)), Merged(bs, i);
    forall j | 0 <= j <= |bs'|
      ensures Linked(h', bs', j)
    {
      var f := Finer(i, j);
      assert Linked(h, bs, f);
      OffDistinct(bs, i, f);
      OffDistinct(bs, i + 2, f);
      MergedHeader(bs, i, j);
    }
  }

  lemma MergedHeader(bs: seq<Block>, i: nat, j: nat)
    requires i + 1 < |bs| && j < |bs| && bs[i].free
    ensures Off(Merged(bs, i), j) == Off(bs, Finer(i, j))
    ensures var old' := HeaderOf(bs, Finer(i, j));
      HeaderOf(Merged(bs, i), j) ==
        if j == i then old'.(next := Off(bs, i + 2))
        else if j == i + 1 then old'.(prev := Off(bs, i)) else old'
  {
    hide Off;
    MergedOff(bs, i, j);
    MergedOff(bs, i, |bs| - 1);
    if j < |bs| - 1 {
      MergedOff(bs, i, j + 1);
    }
    if j > 0 {
      MergedOff(bs, i, j - 1);
    }
  }

  /** The new header at x between lo and far. */
  function Inserted(h: map<nat, Header>, lo: nat, x: nat, far: nat): map<nat, Header>
    requires lo in h && far in h
  {
    var h1 := h[x := Header(far, lo, true)];
    var h2 := h1[far := h1[far].(prev := x)];
    h2[lo := h2[lo].(next := x)]
  }

  lemma CutRing(h: map<nat, Header>, bs: seq<Block>, i: nat, n: nat)
    requires Ring(h, bs) && i < |bs| && n + OVERHEAD <= bs[i].size
    ensures Off(bs, i) in h && Off(bs, i + 1) in h
    ensures Ring(Inserted(h, Off(bs, i), Off(bs, i) + OVERHEAD + n, Off(bs, i + 1)), Cut(bs, i, n))
  {
    hide Off;
    var cut := Cut(bs, i, n);
    assert Linked(h, bs, i) && Linked(h, bs, i + 1);
    CutOff(bs, i, n, i);
    CutOff(bs, i, n, i + 1);
    var h' := Inserted(h, Off(bs, i), Off(bs, i) + OVERHEAD + n, Off(bs, i + 1));
    forall j | 0 <= j <= |cut|
      ensures Linked(h', cut, j)
    {
      OffDistinct(cut, i, j);
      OffDistinct(cut, i + 1, j);
      OffDistinct(cut, i + 2, j);
      CutHeader(bs, i, n, j);
      if j != i + 1 {
        assert Linked(h, bs, if j <= i then j else j - 1);
      }
    }
  }

  lemma CutHeader(bs: seq<Block>, i: nat, n: nat, j: nat)
    requires i < |bs| && n + OVERHEAD <= bs[i].size && j <= |bs| + 1
    ensures j == i + 1 ==> HeaderOf(Cut(bs, i, n), j) == Header(Off(bs, i + 1), Off(bs, i), true)
    ensures j != i + 1 ==>
      var k := if j <= i then j else j - 1;
      && Off(Cut(bs, i, n), j) == Off(bs, k)
      && HeaderOf(Cut(bs, i, n), j) ==
           if j == i then HeaderOf(bs, k).(next := Off(bs, i) + OVERHEAD + n)
           else if j == i + 2 then HeaderOf(bs, k).(prev := Off(bs, i) + OVERHEAD + n)
           else HeaderOf(bs, k)
  {
    hide Off;
    CutOff(bs, i, n, |bs|);
    forall k | 0 <= k <= |bs|
      ensures Off(Cut(bs, i, n), Finer(i, k)) == Off(bs, k)
    {
      CutOff(bs, i, n, k);
    }
    if j != i + 1 {
      var k := if j <= i then j else j - 1;
      assert Finer(i, k) == j;
      if k < |bs| {
        assert Finer(i, k + 1) == if k == i then i + 2 else j + 1;
      }
      if k > 0 {
        assert Finer(i, k - 1) == if k == i + 1 then i else j - 1;
      }
    }
  }

  // ----- what the changes do to sums and allocations ----------------------------------------

  lemma MarkedSum(bs: seq<Block>, i: nat, free: bool)
    requires i < |bs| && bs[i].free != free
    ensures free ==> FreeSum(Marked(bs, i, free)) == FreeSum(bs) + bs[i].size
    ensures !free ==> FreeSum(Marked(bs, i, free)) + bs[i].size == FreeSum(bs)
  {
    var b := bs[i].(free := free);
    assert bs == bs[..i] + [bs[i]] + bs[i + 1..];
    assert Marked(bs, i, free) == bs[..i] + [b] + bs[i + 1..];
    SumAround(bs[..i], [bs[i]], [b], bs[i + 1..]);
  }

  lemma SumAround(a: seq<Block>, mid: seq<Block>, mid': seq<Block>, c: seq<Block>)
    ensures FreeSum(a + mid' + c) - FreeSum(a + mid + c) == FreeSum(mid') - FreeSum(mid)
    ensures Span(a + mid' + c) - Span(a + mid + c) == Span(mid') - Span(mid)
  {
    Append(a + mid', c);
    Append(a, mid');
    Append(a + mid, c);
    Append(a, mid);
  }

  lemma MergedSum(bs: seq<Block>, i: nat)
    requires i + 1 < |bs| && bs[i].free && bs[i + 1].free
    ensures FreeSum(Merged(bs, i)) == FreeSum(bs) + OVERHEAD
    ensures Span(Merged(bs, i)) == Span(bs)
  {
    hide FreeSum, Span;
    var b := Block(bs[i].size + OVERHEAD + bs[i + 1].size, true);
    Append([bs[i]], [bs[i + 1]]);
    SumOne(bs[i]);
    SumOne(bs[i + 1]);
    SumOne(b);
    assert bs == bs[..i] + ([bs[i]] + [bs[i + 1]]) + bs[i + 2..];
    SumAround(bs[..i], [bs[i]] + [bs[i + 1]], [b], bs[i + 2..]);
  }

  lemma SumOne(b: Block)
    ensures Span([b]) == OVERHEAD + b.size && FreeSum([b]) == if b.free then b.size else 0
  {
    assert [b][1..] == [];
  }

  lemma CutSum(bs: seq<Block>, i: nat, n: nat)
    requires i < |bs| && n + OVERHEAD <= bs[i].size && bs[i].free
    ensures FreeSum(Cut(bs, i, n)) == FreeSum(bs) - OVERHEAD
    ensures Span(Cut(bs, i, n)) == Span(bs)
  {
    var x, y := Block(n, bs[i].free), Block(bs[i].size - n - OVERHEAD, true);
    Append([x], [y]);
    assert [x] + [y] == [x, y];
    assert bs == bs[..i] + [bs[i]] + bs[i + 1..];
    SumAround(bs[..i], [bs[i]], [x, y], bs[i + 1..]);
  }

  lemma MarkedAllocs(bs: seq<Block>, i: nat, free: bool)
    requires i < |bs| && bs[i].free != free
    ensures forall p, n :: Alloc(Marked(bs, i, free), p, n) <==>
      if p == Off(bs, i) + OVERHEAD then !free && n == bs[i].size else Alloc(bs, p, n)
  {
    hide Off;
    var bs' := Marked(bs, i, free);
    forall p, n
      ensures Alloc(bs', p, n) <==>
        if p == Off(bs, i) + OVERHEAD then !free && n == bs[i].size else Alloc(bs, p, n)
    {
      if Alloc(bs', p, n) {
        var j :| 0 <= j < |bs'| && !bs'[j].free && Off(bs', j) + OVERHEAD == p && bs'[j].size == n;
        MarkedOff(bs, i, free, j);
        OffDistinct(bs, i, j);
        assert j != i ==> bs[j] == bs'[j];
      }
      if p == Off(bs, i) + OVERHEAD && !free && n == bs[i].size {
        MarkedOff(bs, i, free, i);
        assert bs'[i].size == n;
      }
      if Alloc(bs, p, n) && p != Off(bs, i) + OVERHEAD {
        var j :| 0 <= j < |bs| && !bs[j].free && Off(bs, j) + OVERHEAD == p && bs[j].size == n;
        MarkedOff(bs, i, free, j);
        assert bs'[j] == bs[j];
      }
    }
  }

  lemma MergedAllocs(bs: seq<Block>, i: nat)
    requires i + 1 < |bs| && bs[i].free && bs[i + 1].free
    ensures forall p, n :: Alloc(Merged(bs, i), p, n) <==> Alloc(bs, p, n)
  {
    hide Off;
    var bs' := Merged(bs, i);
    forall p, n
      ensures Alloc(bs', p, n) <==> Alloc(bs, p, n)
    {
      if Alloc(bs', p, n) {
        var j :| 0 <= j < |bs'| && !bs'[j].free && Off(bs', j) + OVERHEAD == p && bs'[j].size == n;
        MergedOff(bs, i, j);
        assert bs'[j] == bs[Finer(i, j)];
      }
      if Alloc(bs, p, n) {
        var j :| 0 <= j < |bs| && !bs[j].free && Off(bs, j) + OVERHEAD == p && bs[j].size == n;
        var k := if j <= i then j else j - 1;
        MergedOff(bs, i, k);
        assert bs'[k] == bs[j];
      }
    }
  }

  lemma CutAllocs(bs: seq<Block>, i: nat, n: nat)
    requires i < |bs| && n + OVERHEAD <= bs[i].size && bs[i].free
    ensures forall p, m :: Alloc(Cut(bs, i, n), p, m) <==> Alloc(bs, p, m)
  {
    hide Off;
    var cut := Cut(bs, i, n);
    forall p, m
      ensures Alloc(cut, p, m) <==> Alloc(bs, p, m)
    {
      if Alloc(cut, p, m) {
        var j :| 0 <= j < |cut| && !cut[j].free && Off(cut, j) + OVERHEAD == p && cut[j].size == m;
        var k := if j <= i then j else j - 1;
        CutOff(bs, i, n, k);
        assert cut[j] == bs[k];
      }
      if Alloc(bs, p, m) {
        var k :| 0 <= k < |bs| && !bs[k].free && Off(bs, k) + OVERHEAD == p && bs[k].size == m;
        CutOff(bs, i, n, k);
        assert cut[Finer(i, k)] == bs[k];
      }
    }
  }

  /** With nothing allocated, coalescing leaves a single block. */
  lemma AllFree(bs: seq<Block>)
    requires |bs| > 0 && Coalesced(bs) && forall p, n :: !Alloc(bs, p, n)
    ensures bs == [Block(Span(bs) - OVERHEAD, true)]
  {
    assert |bs| <= 1 || !(bs[0].free && bs[1].free);
    forall i | 0 <= i < |bs|
      ensures bs[i].free
    {
      assert !Alloc(bs, Off(bs, i) + OVERHEAD, bs[i].size);
    }
    assert |bs| == 1;
    assert bs[1..] == [];
  }

  // ----- the pool ------------------------------------------------------------------------------

  /** The units a request for `size` bytes searches for: requests below the minimum are raised
      to it, others rounded up to whole units in 32-bit arithmetic. */
  function Demand(size: nat, minAllocation: nat): nat
    requires size < 0x1_0000_0000
  {
    if size < 4 * minAllocation then minAllocation else (size + 3) % 0x1_0000_0000 / 4
  }

  /** What is searched for covers the request and the minimum, by less than a unit more than the
      larger of them, unless the rounding wraps; then it is zero, which the search takes even a
      block in use to satisfy. */
  lemma DemandCovers(size: nat, minAllocation: nat)
    requires size < 0x1_0000_0000
    ensures size <= 4 * Demand(size, minAllocation) <==> size <= 0xffff_fffc || size < 4 * minAllocation
    ensures size <= 0xffff_fffc ==>
      && minAllocation <= Demand(size, minAllocation)
      && (4 * Demand(size, minAllocation) < size + 4 || Demand(size, minAllocation) == minAllocation)
    ensures size > 0xffff_fffc && 4 * minAllocation <= size ==> Demand(size, minAllocation) == 0
  {
  }

  class Pool {
    /** dm_pool_size and dm_min_allocation, in units. */
    const poolSize: nat
    const minAllocation: nat
    var available: int
    var searchPtr: nat
    /** The headers in memory, by address.  Merged headers stay behind as garbage. */
    var headers: map<nat, Header>
    ghost var blocks: seq<Block>

    ghost predicate Valid()
      reads this
    {
      && minAllocation > 0
      && Ring(headers, blocks) && Coalesced(blocks)
      && Span(blocks) + OVERHEAD == poolSize
      && available == FreeSum(blocks)
      && SearchOk(blocks, searchPtr)
    }

    ghost predicate Live(p: nat, n: nat)
      reads this
    {
      Alloc(blocks, p, n)
    }

    /** OS_Create_Memory_Pool. */
    constructor (poolSize: nat, minAllocation: nat)
      requires poolSize >= 2 * OVERHEAD && minAllocation > 0
      ensures Valid() && this.poolSize == poolSize && this.minAllocation == minAllocation
      ensures blocks == [Block(poolSize - 2 * OVERHEAD, true)]
    {
      this.poolSize, this.minAllocation := poolSize, minAllocation;
      var rest := poolSize - 2 * OVERHEAD;
      var trailer := rest + OVERHEAD;
      available := rest;
      searchPtr := 0;
      headers := map[0 := Header(trailer, trailer, true), trailer := Header(0, 0, false)];
      blocks := [Block(rest, true)];
      new;
      OffNext(blocks, 0);
      assert Off(blocks, 0) == 0;
      assert Linked(headers, blocks, 0) && Linked(headers, blocks, 1);
    }

    /** Once everything is freed, in whatever order, the pool is one free block again. */
    lemma NothingLeaks()
      requires Valid() && forall p, n :: !Live(p, n)
      ensures blocks == [Block(poolSize - 2 * OVERHEAD, true)]
      ensures available == poolSize - 2 * OVERHEAD
    {
      forall p, n
        ensures !Alloc(blocks, p, n)
      {
        assert !Live(p, n);
      }
      AllFree(blocks);
      var b := Block(poolSize - 2 * OVERHEAD, true);
      assert [b][0] == b && [b][1..] == [];
      assert FreeSum([b]) == b.size;
    }

    /** The search of OS_GetMem: once around the ring from the search pointer. */
    method Search(size: nat) returns (r: Option<nat>, ghost i: nat)
      requires Valid()
      ensures size > 0 && r.Some? ==> Chosen(blocks, searchPtr, size, i) && r.value == Off(blocks, i)
      ensures size == 0 ==> r == Some(searchPtr) && i <= |blocks| && Off(blocks, i) == searchPtr
      ensures r.None? ==> forall j :: 0 <= j < |blocks| ==> !Fits(blocks, size, j)
    {
      ghost var s: nat :| s <= |blocks| && Off(blocks, s) == searchPtr;
      var memoryPtr := searchPtr;
      i := s;
      while true
        invariant i <= |blocks| && memoryPtr == Off(blocks, i)
        invariant forall j :: 0 <= j < |blocks| && Passed(s, i, j) ==> !Fits(blocks, size, j)
        invariant size == 0 ==> i == s
        decreases if i < s then s - i else s + |blocks| + 1 - i
      {
        assert Linked(headers, blocks, i);
        if i < |blocks| {
          OffNext(blocks, i);
        }
        var h := headers[memoryPtr];
        var freeSize := if h.free then h.next - memoryPtr - OVERHEAD else 0;
        if freeSize >= size {
          assert FirstFrom(blocks, s, size, i);
          return Some(memoryPtr), i;
        }
        memoryPtr := h.next;
        i := if i == |blocks| then 0 else i + 1;
        OffDistinct(blocks, i, s);
        if memoryPtr == searchPtr {
          break;
        }
      }
      r := None;
    }

    /** OS_GetMem: the first block in ring order from the search pointer that fits, cut if the
        rest can stand alone. */
    method GetMem(size: nat) returns (r: Option<nat>)
      requires Valid() && size < 0x1_0000_0000
      modifies this
      ensures Valid()
      ensures Demand(size, minAllocation) > 0 ==>
        (r.None? <==> forall b :: b in old(blocks) && b.free ==> b.size < Demand(size, minAllocation))
      ensures r.None? ==> unchanged(this)
      ensures r.Some? && Demand(size, minAllocation) > 0 ==> exists i: nat ::
        && Chosen(old(blocks), old(searchPtr), Demand(size, minAllocation), i)
        && r.value == Off(old(blocks), i) + OVERHEAD
        && blocks == Allocated(old(blocks), i, Demand(size, minAllocation), minAllocation)
        && searchPtr == (if old(searchPtr) == Off(old(blocks), i) then Off(blocks, i + 1) else old(searchPtr))
      ensures r.Some? && Demand(size, minAllocation) > 0 ==> exists m ::
        && size <= 4 * m && minAllocation <= m < Demand(size, minAllocation) + OVERHEAD + minAllocation
        && Grants(old(blocks), blocks, r.value, m)
      ensures Demand(size, minAllocation) == 0 ==>
        && r == Some(old(searchPtr) + OVERHEAD)
        && exists i: nat :: TakenAnyway(old(blocks), old(searchPtr), blocks, searchPtr, minAllocation, i)
    {
      hide Off, Coalesced, FreeSum, Span, Ring, Alloc, Grants, SearchOk, Allocated, Chosen, TakenAnyway;
      var d := Demand(size, minAllocation);
      ghost var i;
      r, i := Search(d);
      WhetherFits(blocks, d);
      if r.Some? {
        var memoryPtr := r.value;
        ChosenAt(blocks, searchPtr, d, i);
        HeaderAt(headers, blocks, i);
        var h := headers[memoryPtr];
        var freeSize := if h.free then h.next - memoryPtr - OVERHEAD else 0;
        ghost var before := blocks;
        if h.free {
          FreeTaken(headers, blocks, i, d, minAllocation, searchPtr);
          blocks := Allocated(blocks, i, d, minAllocation);
        } else {
          UsedTaken(headers, blocks, i, minAllocation, searchPtr);
        }
        if freeSize >= d + OVERHEAD + minAllocation {
          // what is left over stays a free block
          var newPtr := memoryPtr + d + OVERHEAD;
          headers := Inserted(headers, memoryPtr, newPtr, h.next);
          available := available - d - OVERHEAD;
        } else {
          available := available - freeSize;
        }
        headers := headers[memoryPtr := headers[memoryPtr].(free := false)];
        if searchPtr == memoryPtr {
          searchPtr := headers[memoryPtr].next;
        }
        r := Some(memoryPtr + OVERHEAD);
        if d > 0 {
          assert size <= 4 * Given(before, i, d, minAllocation);
          assert Chosen(before, old(searchPtr), d, i);
        } else {
          assert TakenAnyway(before, old(searchPtr), blocks, searchPtr, minAllocation, i);
        }
      }
    }

    /** OS_FreeMem: marks the block free and merges it with its free neighbours. */
    method FreeMem(p: nat)
      requires Valid() && exists n :: Live(p, n)
      modifies this
      ensures Valid()
      ensures forall q, m :: Live(q, m) <==> old(Live(q, m)) && q != p
      ensures exists i :: (
        0 <= i < |old(blocks)| && Off(old(blocks), i) + OVERHEAD == p && blocks == Freed(old(blocks), i))
    {
      hide Off, Coalesced, FreeSum, Span, Marked, Merged, Ring, SearchOk, Alloc;
      ghost var n :| Live(p, n);
      ghost var i: nat := Holder(blocks, p, n);
      ghost var bs := blocks;
      var headerPtr := p - OVERHEAD;
      RingAt(headers, bs, i);
      OffNext(bs, i);
      var was := headers[headerPtr];
      // from here on its size counts as available
      headers := headers[headerPtr := was.(free := true)];
      available := available + (was.next - headerPtr - OVERHEAD);
      blocks := Marked(bs, i, true);
      MarkStep(old(headers), bs, i, searchPtr);
      FreedCoalesced(bs, i);
      ghost var k := i;
      if headers[was.prev].free {
        // the free neighbour before it takes it in
        available := available + OVERHEAD;
        k := i - 1;
        MergeStep(headers, blocks, k);
        headers := Joined(headers, was.prev, was.next);
        blocks := Merged(blocks, k);
        headerPtr := was.prev;
        searchPtr := headerPtr;
      }
      assert blocks == if i > 0 && bs[i - 1].free then Merged(Marked(bs, i, true), i - 1) else Marked(bs, i, true);
      MergeNext(headerPtr, k);
    }

    /** The free block at headerPtr takes in a free neighbour behind it. */
    method MergeNext(headerPtr: nat, ghost k: nat)
      requires Ring(headers, blocks) && k < |blocks| && blocks[k].free && headerPtr == Off(blocks, k)
      requires SearchOk(blocks, searchPtr)
      modifies `headers, `blocks, `available, `searchPtr
      ensures Ring(headers, blocks) && blocks == NextMerged(old(blocks), k) && SearchOk(blocks, searchPtr)
      ensures Span(blocks) == Span(old(blocks))
      ensures available - FreeSum(blocks) == old(available) - FreeSum(old(blocks))
      ensures forall q, m :: Alloc(blocks, q, m) <==> Alloc(old(blocks), q, m)
    {
      hide Off, FreeSum, Span, Merged, Ring, SearchOk, Alloc;
      HeaderAt(headers, blocks, k);
      HeaderAt(headers, blocks, k + 1);
      var newPtr := headers[headerPtr].next;
      if headers[newPtr].free {
        available := available + OVERHEAD;
        MergeStep(headers, blocks, k);
        headers := Joined(headers, headerPtr, headers[newPtr].next);
        blocks := Merged(blocks, k);
        searchPtr := headerPtr;
      }
    }
  }

  /** Block i is free and holds n units. */
  predicate Fits(bs: seq<Block>, n: nat, i: nat) {
    i < |bs| && bs[i].free && bs[i].size >= n
  }

  lemma WhetherFits(bs: seq<Block>, n: nat)
    ensures (forall j :: 0 <= j < |bs| ==> !Fits(bs, n, j)) <==> (forall b :: b in bs && b.free ==> b.size < n)
  {
    if forall j :: 0 <= j < |bs| ==> !Fits(bs, n, j) {
      forall b | b in bs && b.free
        ensures b.size < n
      {
        var j :| 0 <= j < |bs| && bs[j] == b;
        assert !Fits(bs, n, j);
      }
    } else {
      var j :| 0 <= j < |bs| && Fits(bs, n, j);
      assert bs[j] in bs;
    }
  }

  /** The walk around the ring from s to i has passed j. */
  predicate Passed(s: nat, i: nat, j: nat) {
    if i < s then s <= j || j < i else s <= j < i
  }

  predicate FirstFrom(bs: seq<Block>, s: nat, n: nat, i: nat) {
    forall j :: 0 <= j < |bs| && Passed(s, i, j) ==> !Fits(bs, n, j)
  }

  /** Block i is the first that fits n units, in ring order from the search pointer. */
  predicate Chosen(bs: seq<Block>, searchPtr: nat, n: nat, i: nat) {
    Fits(bs, n, i) && exists s :: 0 <= s <= |bs| && Off(bs, s) == searchPtr && FirstFrom(bs, s, n, i)
  }

  /** A request whose rounding wraps to 0 takes what the search pointer is at: block i, or the
      trailer, even if it is in use. */
  ghost predicate TakenAnyway(bs: seq<Block>, p: nat, bs': seq<Block>, p': nat, min: nat, i: nat) {
    && i <= |bs| && Off(bs, i) == p && i <= |bs'|
    && bs' == (if i < |bs| && bs[i].free then Allocated(bs, i, 0, min) else bs)
    && p' == Off(bs', if i == |bs'| then 0 else i + 1)
  }

  /** What is handed out then was live already exactly if the search pointer was at a block in
      use. */
  lemma WrapTakesLive(bs: seq<Block>, p: nat, bs': seq<Block>, p': nat, min: nat, i: nat, r: nat)
    requires TakenAnyway(bs, p, bs', p', min, i) && r == p + OVERHEAD
    ensures (exists n :: Alloc(bs, r, n)) <==> i < |bs| && !bs[i].free
  {
    if i < |bs| && !bs[i].free {
      assert Alloc(bs, r, bs[i].size);
    } else {
      forall j | 0 <= j < |bs|
        ensures Off(bs, j) == p <==> j == i
      {
        OffDistinct(bs, i, j);
      }
    }
  }

  function Allocated(bs: seq<Block>, i: nat, n: nat, min: nat): seq<Block>
    requires i < |bs|
  {
    Marked(if bs[i].size >= n + OVERHEAD + min then Cut(bs, i, n) else bs, i, false)
  }

  /** The headers after an allocation from block i. */
  function AllocatedHeaders(h: map<nat, Header>, bs: seq<Block>, i: nat, n: nat, min: nat): map<nat, Header>
    requires i < |bs| && Off(bs, i) in h && Off(bs, i + 1) in h
  {
    var h1 := if bs[i].size >= n + OVERHEAD + min
              then Inserted(h, Off(bs, i), Off(bs, i) + OVERHEAD + n, Off(bs, i + 1)) else h;
    h1[Off(bs, i) := h1[Off(bs, i)].(free := false)]
  }

  lemma AllocatedRing(h: map<nat, Header>, bs: seq<Block>, i: nat, n: nat, min: nat)
    requires Ring(h, bs) && Fits(bs, n, i) && Off(bs, i) in h && Off(bs, i + 1) in h
    ensures Ring(AllocatedHeaders(h, bs, i, n, min), Allocated(bs, i, n, min))
    ensures Off(Allocated(bs, i, n, min), i) == Off(bs, i)
  {
    hide Off;
    if bs[i].size >= n + OVERHEAD + min {
      CutRing(h, bs, i, n);
      CutOff(bs, i, n, i);
      var h1, cut := Inserted(h, Off(bs, i), Off(bs, i) + OVERHEAD + n, Off(bs, i + 1)), Cut(bs, i, n);
      MarkedRing(h1, cut, i, false);
      MarkedOff(cut, i, false, i);
    } else {
      MarkedRing(h, bs, i, false);
      MarkedOff(bs, i, false, i);
    }
  }

  lemma AllocatedSums(bs: seq<Block>, i: nat, n: nat, min: nat)
    requires Fits(bs, n, i) && Coalesced(bs)
    ensures var bs' := Allocated(bs, i, n, min);
      && Coalesced(bs') && Span(bs') == Span(bs)
      && FreeSum(bs') == FreeSum(bs) -
           if bs[i].size >= n + OVERHEAD + min then n + OVERHEAD else bs[i].size
  {
    if bs[i].size >= n + OVERHEAD + min {
      CutSum(bs, i, n);
      var cut := Cut(bs, i, n);
      MarkedSum(cut, i, false);
      MarkedSpan(cut, i, false);
      var bs' := Marked(cut, i, false);
      forall j | 0 < j < |bs'|
        ensures !(bs'[j - 1].free && bs'[j].free)
      {
        if j < i {
          assert bs'[j - 1] == bs[j - 1] && bs'[j] == bs[j];
        } else if j > i + 1 {
          assert bs'[j] == bs[j - 1];
          assert bs[i].free;
          assert j == i + 2 ==> !(bs[i + 1 - 1].free && bs[i + 1].free);
          assert j > i + 2 ==> bs'[j - 1] == bs[j - 2];
        }
      }
    } else {
      MarkedSum(bs, i, false);
      MarkedSpan(bs, i, false);
    }
  }

  lemma ChosenAt(bs: seq<Block>, p: nat, n: nat, i: nat)
    ensures Chosen(bs, p, n, i) ==> i < |bs| && Fits(bs, n, i)
  {
  }

  lemma HeaderAt(h: map<nat, Header>, bs: seq<Block>, i: nat)
    requires Ring(h, bs) && i <= |bs|
    ensures Off(bs, i) in h
    ensures h[Off(bs, i)].free <==> i < |bs| && bs[i].free
    ensures h[Off(bs, i)].next == Off(bs, if i == |bs| then 0 else i + 1)
    ensures i < |bs| ==> Off(bs, i + 1) in h && Off(bs, i + 1) == Off(bs, i) + OVERHEAD + bs[i].size
  {
    assert Linked(h, bs, i);
    if i < |bs| {
      assert Linked(h, bs, i + 1);
      OffNext(bs, i);
    }
  }

  /** What GetMem leaves when it takes a free block. */
  lemma FreeTaken(h: map<nat, Header>, bs: seq<Block>, i: nat, n: nat, min: nat, p: nat)
    requires Ring(h, bs) && Coalesced(bs) && SearchOk(bs, p) && Fits(bs, n, i)
    requires Off(bs, i) in h && Off(bs, i + 1) in h
    ensures var bs', h' := Allocated(bs, i, n, min), AllocatedHeaders(h, bs, i, n, min);
      && Ring(h', bs') && Coalesced(bs') && Span(bs') == Span(bs)
      && FreeSum(bs') == FreeSum(bs) - (if bs[i].size >= n + OVERHEAD + min then n + OVERHEAD else bs[i].size)
      && i < |bs'| && Off(bs', i) == Off(bs, i) && h'[Off(bs, i)].next == Off(bs', i + 1)
      && SearchOk(bs', if p == Off(bs, i) then Off(bs', i + 1) else p)
      && n <= Given(bs, i, n, min) < n + OVERHEAD + min
      && Grants(bs, bs', Off(bs, i) + OVERHEAD, Given(bs, i, n, min))
      && (n == 0 && p == Off(bs, i) ==> TakenAnyway(bs, p, bs', Off(bs', i + 1), min, i))
  {
    hide Ring, Coalesced, Span, FreeSum, SearchOk, Grants, Given, Allocated, AllocatedHeaders, Off;
    AllocatedRing(h, bs, i, n, min);
    AllocatedSums(bs, i, n, min);
    AllocatedSearch(bs, i, n, min, p);
    AllocatedAt(bs, i, n, min);
    HeaderAt(AllocatedHeaders(h, bs, i, n, min), Allocated(bs, i, n, min), i);
    SearchAt(Allocated(bs, i, n, min), i + 1);
    AllocatedAllocs(bs, i, n, min);
  }

  /** What GetMem leaves when it takes a block in use, or the trailer. */
  lemma UsedTaken(h: map<nat, Header>, bs: seq<Block>, i: nat, min: nat, p: nat)
    requires Ring(h, bs) && i <= |bs| && Off(bs, i) in h && !h[Off(bs, i)].free && p == Off(bs, i)
    ensures h == h[Off(bs, i) := h[Off(bs, i)].(free := false)]
    ensures SearchOk(bs, h[Off(bs, i)].next)
    ensures TakenAnyway(bs, p, bs, h[Off(bs, i)].next, min, i)
  {
    HeaderAt(h, bs, i);
    hide Off;
    SearchAt(bs, if i == |bs| then 0 else i + 1);
  }

  lemma AllocatedAt(bs: seq<Block>, i: nat, n: nat, min: nat)
    requires i < |bs|
    ensures i < |Allocated(bs, i, n, min)|
  {
  }

  lemma MarkedSpan(bs: seq<Block>, i: nat, free: bool)
    requires i < |bs|
    ensures Span(Marked(bs, i, free)) == Span(bs)
  {
    MarkedOff(bs, i, free, |bs|);
    assert bs[..|bs|] == bs;
    assert Marked(bs, i, free)[..|bs|] == Marked(bs, i, free);
  }

  lemma AllocatedSearch(bs: seq<Block>, i: nat, n: nat, min: nat, p: nat)
    requires Fits(bs, n, i) && SearchOk(bs, p)
    ensures SearchOk(Allocated(bs, i, n, min), p)
  {
    hide Off;
    var k :| 0 <= k <= |bs| && Off(bs, k) == p;
    if bs[i].size >= n + OVERHEAD + min {
      CutOff(bs, i, n, k);
      MarkedOff(Cut(bs, i, n), i, false, Finer(i, k));
    } else {
      MarkedOff(bs, i, false, k);
    }
  }

  /** The units an allocation of n units from block i really gets. */
  function Given(bs: seq<Block>, i: nat, n: nat, min: nat): nat
    requires i < |bs|
  {
    if bs[i].size >= n + OVERHEAD + min then n else bs[i].size
  }

  /** An allocation of n units holds at least n and wastes less than a header and a minimal
      block; it was not live before, and every other allocation stays as it was. */
  lemma AllocatedAllocs(bs: seq<Block>, i: nat, n: nat, min: nat)
    requires Fits(bs, n, i)
    ensures n <= Given(bs, i, n, min) < n + OVERHEAD + min
    ensures Grants(bs, Allocated(bs, i, n, min), Off(bs, i) + OVERHEAD, Given(bs, i, n, min))
  {
    hide Off, Alloc, Cut, Marked;
    var p := Off(bs, i) + OVERHEAD;
    if bs[i].size >= n + OVERHEAD + min {
      CutAllocs(bs, i, n);
      CutOff(bs, i, n, i);
      CutAt(bs, i, n);
      MarkedAllocs(Cut(bs, i, n), i, false);
    } else {
      MarkedAllocs(bs, i, false);
    }
    forall k
      ensures !Alloc(bs, p, k)
    {
      NotLive(bs, i, k);
    }
  }

  lemma CutAt(bs: seq<Block>, i: nat, n: nat)
    requires i < |bs| && n + OVERHEAD <= bs[i].size && bs[i].free
    ensures |Cut(bs, i, n)| == |bs| + 1 && Cut(bs, i, n)[i] == Block(n, true)
  {
  }

  lemma NotLive(bs: seq<Block>, i: nat, k: nat)
    requires i < |bs| && bs[i].free
    ensures !Alloc(bs, Off(bs, i) + OVERHEAD, k)
  {
    hide Off;
    forall j | 0 <= j < |bs|
      ensures Off(bs, j) == Off(bs, i) <==> j == i
    {
      OffDistinct(bs, i, j);
    }
  }

  // ----- freeing ------------------------------------------------------------------------------

  /** Block i free and merged with its free neighbours. */
  function Freed(bs: seq<Block>, i: nat): seq<Block>
    requires i < |bs|
  {
    var marked := Marked(bs, i, true);
    if i > 0 && marked[i - 1].free
    then NextMerged(Merged(marked, i - 1), i - 1)
    else NextMerged(marked, i)
  }

  function NextMerged(bs: seq<Block>, i: nat): seq<Block>
    requires i < |bs|
  {
    if i + 1 < |bs| && bs[i + 1].free then Merged(bs, i) else bs
  }

  lemma FreedCoalesced(bs: seq<Block>, i: nat)
    requires i < |bs| && !bs[i].free && Coalesced(bs)
    ensures Coalesced(Freed(bs, i))
  {
    hide Coalesced;
    var lo: nat := if i > 0 && bs[i - 1].free then i - 1 else i;
    var hi: nat := if i + 1 < |bs| && bs[i + 1].free then i + 2 else i + 1;
    CoalescedEnds(bs, i, lo, hi);
    var b := FreedParts(bs, i, lo, hi);
    assert lo > 0 ==> bs[..lo][lo - 1] == bs[lo - 1];
    assert hi < |bs| ==> bs[hi..][0] == bs[hi];
    CoalescedAround(bs[..lo], b, bs[hi..]);
  }

  lemma FreedParts(bs: seq<Block>, i: nat, lo: nat, hi: nat) returns (b: Block)
    requires i < |bs| && !bs[i].free
    requires lo == if i > 0 && bs[i - 1].free then i - 1 else i
    requires hi == if i + 1 < |bs| && bs[i + 1].free then i + 2 else i + 1
    ensures Freed(bs, i) == bs[..lo] + [b] + bs[hi..]
  {
    var marked := Marked(bs, i, true);
    assert marked[..i] == bs[..i] && marked[i + 1..] == bs[i + 1..];
    if lo == i {
      b := NextParts(marked, bs[..lo], bs[i + 1..]);
    } else {
      var first := Merged(marked, lo);
      assert first == bs[..lo] + [first[lo]] + bs[i + 1..] by {
        assert marked[..lo] == bs[..lo] && marked[lo + 2..] == bs[i + 1..];
      }
      b := NextParts(first, bs[..lo], bs[i + 1..]);
    }
    assert hi == i + 2 ==> bs[i + 1..][0] == bs[i + 1] && bs[i + 1..][1..] == bs[hi..];
  }

  /** A block and its free right neighbour become one. */
  lemma NextParts(bs: seq<Block>, a: seq<Block>, c: seq<Block>) returns (b: Block)
    requires |a| < |bs| && bs == a + [bs[|a|]] + c
    ensures NextMerged(bs, |a|) == a + [b] + if c != [] && c[0].free then c[1..] else c
  {
    var i := |a|;
    b := NextMerged(bs, i)[i];
    assert bs[..i] == a && bs[i + 1..] == c;
    assert c != [] ==> bs[i + 1] == c[0] && bs[i + 2..] == c[1..];
  }

  /** What is left of a coalesced ring around a block in use and its free neighbours. */
  lemma CoalescedEnds(bs: seq<Block>, i: nat, lo: nat, hi: nat)
    requires i < |bs| && !bs[i].free && Coalesced(bs)
    requires lo == if i > 0 && bs[i - 1].free then i - 1 else i
    requires hi == if i + 1 < |bs| && bs[i + 1].free then i + 2 else i + 1
    ensures Coalesced(bs[..lo]) && Coalesced(bs[hi..])
    ensures lo > 0 ==> !bs[lo - 1].free
    ensures hi < |bs| ==> !bs[hi].free
  {
    assert lo > 0 && lo == i - 1 ==> !bs[lo].free || !bs[lo - 1].free;
    assert hi < |bs| && hi == i + 2 ==> !bs[hi - 1].free || !bs[hi].free;
    forall j | 0 < j < |bs| - hi
      ensures !(bs[hi..][j - 1].free && bs[hi..][j].free)
    {
      assert !(bs[hi + j - 1].free && bs[hi + j].free);
    }
  }

  lemma CoalescedAround(a: seq<Block>, b: Block, c: seq<Block>)
    requires Coalesced(a) && Coalesced(c)
    requires a != [] ==> !a[|a| - 1].free
    requires c != [] ==> !c[0].free
    ensures Coalesced(a + [b] + c)
  {
    var all := a + [b] + c;
    forall j | 0 < j < |all|
      ensures !(all[j - 1].free && all[j].free)
    {
      if j < |a| {
        assert all[j - 1] == a[j - 1] && all[j] == a[j];
      } else if j > |a| + 1 {
        var m := j - |a| - 1;
        assert all[j - 1] == c[m - 1] && all[j] == c[m];
      }
    }
  }

  lemma RingAt(h: map<nat, Header>, bs: seq<Block>, i: nat)
    requires Ring(h, bs) && i <= |bs|
    ensures Linked(h, bs, i) && |bs| > 0
  {
  }

  /** Marking the live block i free, and what the header before it then says. */
  lemma MarkStep(h: map<nat, Header>, bs: seq<Block>, i: nat, p: nat)
    requires Ring(h, bs) && i < |bs| && !bs[i].free && SearchOk(bs, p)
    requires Linked(h, bs, i)
    ensures var h', bs' := h[Off(bs, i) := h[Off(bs, i)].(free := true)], Marked(bs, i, true);
      && Ring(h', bs') && |bs'| == |bs| && Off(bs', i) == Off(bs, i) && SearchOk(bs', p)
      && (forall j :: 0 <= j < |bs| ==> bs'[j] == if j == i then bs[i].(free := true) else bs[j])
      && FreeSum(bs') == FreeSum(bs) + bs[i].size && Span(bs') == Span(bs)
      && (forall q, m :: Alloc(bs', q, m) <==> Alloc(bs, q, m) && q != Off(bs, i) + OVERHEAD)
      && h[Off(bs, i)].prev in h' && (h'[h[Off(bs, i)].prev].free <==> i > 0 && bs[i - 1].free)
      && (i > 0 ==> h[Off(bs, i)].prev == Off(bs', i - 1))
      && h[Off(bs, i)].next == Off(bs', i + 1)
  {
    hide Off;
    MarkedRing(h, bs, i, true);
    MarkedSum(bs, i, true);
    MarkedSpan(bs, i, true);
    MarkedAllocs(bs, i, true);
    var before := if i == 0 then |bs| else i - 1;
    RingAt(h, bs, before);
    OffDistinct(bs, i, before);
    MarkedOff(bs, i, true, i);
    MarkedOff(bs, i, true, i + 1);
    MarkedOff(bs, i, true, before);
    var j :| 0 <= j <= |bs| && Off(bs, j) == p;
    MarkedOff(bs, i, true, j);
  }

  /** Merging the free blocks k and k + 1. */
  lemma MergeStep(h: map<nat, Header>, bs: seq<Block>, k: nat)
    requires Ring(h, bs) && k + 1 < |bs| && bs[k].free && bs[k + 1].free
    ensures Linked(h, bs, k) && Linked(h, bs, k + 1) && Linked(h, bs, k + 2)
    ensures var h', bs' := Joined(h, Off(bs, k), Off(bs, k + 2)), Merged(bs, k);
      && Ring(h', bs') && |bs'| == |bs| - 1 && bs'[k].free
      && Off(bs', k) == Off(bs, k) && SearchOk(bs', Off(bs, k))
      && (k + 1 < |bs'| ==> bs'[k + 1] == bs[k + 2])
      && FreeSum(bs') == FreeSum(bs) + OVERHEAD && Span(bs') == Span(bs)
      && (forall q, m :: Alloc(bs', q, m) <==> Alloc(bs, q, m))
  {
    hide Off;
    RingAt(h, bs, k);
    RingAt(h, bs, k + 1);
    RingAt(h, bs, k + 2);
    MergedRing(h, bs, k);
    MergedSum(bs, k);
    MergedAllocs(bs, k);
    MergedOff(bs, k, k);
  }

  lemma SearchAt(bs: seq<Block>, k: nat)
    requires k <= |bs|
    ensures SearchOk(bs, Off(bs, k))
  {
  }

  ghost function Holder(bs: seq<Block>, p: nat, n: nat): (i: nat)
    requires Alloc(bs, p, n)
    ensures i < |bs| && !bs[i].free && Off(bs, i) + OVERHEAD == p && bs[i].size == n
  {
    var i :| 0 <= i < |bs| && !bs[i].free && Off(bs, i) + OVERHEAD == p && bs[i].size == n;
    i
  }

  /** The only new allocation is m units at p, where nothing was allocated. */
  ghost predicate Grants(bs: seq<Block>, bs': seq<Block>, p: nat, m: nat) {
    && (forall k :: !Alloc(bs, p, k))
    && forall q, k :: Alloc(bs', q, k) <==> if q == p then k == m else Alloc(bs, q, k)
  }
}
