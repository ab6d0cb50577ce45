/** The heap of mem.c (mem_init, mem_malloc, mem_free, mem_trim, plug_holes), in units of
    one 4-byte word: MEM_ALIGNMENT is 4 and every block offset and size is a multiple of it.
    A struct mem is two words, `next` and `prev` in the first, `used` in the second.  Headers
    and user data share one array, as they share the heap in the source. */
module MemHeap {
  import opened Options

  const MEM_WORDS: nat := 2048
  const HEADER: nat := 2
  const MIN_WORDS: nat := 3

  datatype Word = Links(next: nat, prev: nat) | Flag(used: bool) | Raw(bits: nat)

  /** LWIP_MEM_ALIGN_SIZE on mem_size_t (16 bits), in words. */
  function RoundedWords(size: nat): nat {
    ((size + 3) / 4 * 4) % 0x1_0000 / 4
  }

  function Max(a: nat, b: nat): nat {
    if a < b then b else a
  }

  /** What a request for `size` bytes searches for; it holds the request exactly when the
      rounding does not wrap. */
  function Demand(size: nat): nat {
    Max(RoundedWords(size), MIN_WORDS)
  }

  lemma DemandHolds(size: nat)
    requires 0 < size <= 0xffff
    ensures size <= 4 * Demand(size) <==> size <= 0xfffc
    ensures size > 0xfffc ==> Demand(size) == MIN_WORDS
    ensures 4 * Demand(size) < size + 4 || Demand(size) == MIN_WORDS
  {
  }

  // ----- the layout, as a value ----------------------------------------------------------

  /** Block i occupies [starts[i], starts[i+1]); the last start is the end sentinel. */
  predicate Tiles(starts: seq<nat>) {
    && |starts| >= 2
    && starts[0] == 0 && starts[|starts| - 1] == MEM_WORDS
    && forall i :: 0 <= i < |starts| - 1 ==> Roomy(starts, i)
  }

  /** Every block holds at least MIN_SIZE_ALIGNED bytes. */
  predicate Roomy(starts: seq<nat>, i: nat)
    requires i + 1 < |starts|
  {
    starts[i] + HEADER + MIN_WORDS <= starts[i + 1]
  }

  lemma {:induction false} StartsGrow(starts: seq<nat>, i: nat, j: nat)
    requires Tiles(starts) && i < j < |starts|
    ensures starts[i] + HEADER + MIN_WORDS <= starts[j] <= MEM_WORDS
    decreases j - i
  {
    assert Roomy(starts, j - 1);
    if i + 1 < j {
      StartsGrow(starts, i, j - 1);
    }
    AtMostEnd(starts, j);
  }

  lemma {:induction false} AtMostEnd(starts: seq<nat>, j: nat)
    requires Tiles(starts) && j < |starts|
    ensures starts[j] <= MEM_WORDS
    ensures j < |starts| - 1 ==> starts[j] + HEADER + MIN_WORDS <= MEM_WORDS
    decreases |starts| - j
  {
    if j < |starts| - 1 {
      assert Roomy(starts, j);
      AtMostEnd(starts, j + 1);
    }
  }

  predicate IsFree(mem: seq<Word>, start: nat) {
    start + 1 < |mem| && mem[start + 1] == Flag(false)
  }

  function PrevStart(starts: seq<nat>, i: nat): nat
    requires i < |starts|
  {
    if i == 0 then 0 else starts[i - 1]
  }

  predicate HeadAt(mem: seq<Word>, starts: seq<nat>, i: nat)
    requires i + 1 < |starts|
  {
    && starts[i] + 1 < |mem|
    && mem[starts[i]] == Links(starts[i + 1], PrevStart(starts, i))
    && mem[starts[i] + 1].Flag?
  }

  predicate EndMark(mem: seq<Word>) {
    && |mem| == MEM_WORDS + HEADER
    && mem[MEM_WORDS].Links? && mem[MEM_WORDS].next == MEM_WORDS
    && mem[MEM_WORDS + 1] == Flag(true)
  }

  /** Blocks tile the heap and the headers describe them. */
  predicate Shaped(mem: seq<Word>, starts: seq<nat>) {
    && Tiles(starts) && EndMark(mem)
    && forall i :: 0 <= i < |starts| - 1 ==> HeadAt(mem, starts, i)
  }

  /** No two neighbours are both free. */
  predicate Coalesced(mem: seq<Word>, starts: seq<nat>) {
    forall i :: 0 <= i < |starts| - 2 ==> !BothFree(mem, starts, i)
  }

  predicate BothFree(mem: seq<Word>, starts: seq<nat>, i: nat)
    requires i + 1 < |starts|
  {
    IsFree(mem, starts[i]) && IsFree(mem, starts[i + 1])
  }

  /** lfree is the lowest free block, or the end. */
  predicate Lowest(mem: seq<Word>, starts: seq<nat>, lfree: nat) {
    && lfree in starts
    && (lfree == MEM_WORDS || IsFree(mem, lfree))
    && forall i :: 0 <= i < |starts| && starts[i] < lfree ==> !IsFree(mem, starts[i])
  }

  predicate HeapOk(mem: seq<Word>, starts: seq<nat>, lfree: nat) {
    Shaped(mem, starts) && Coalesced(mem, starts) && Lowest(mem, starts, lfree)
  }

  /** The live allocations: where the data of a used block begins, and where it ends. */
  predicate Alloc(mem: seq<Word>, starts: seq<nat>, p: nat, e: nat) {
    exists i :: 0 <= i < |starts| - 1 && AllocAt(mem, starts, i, p, e)
  }

  predicate AllocAt(mem: seq<Word>, starts: seq<nat>, i: nat, p: nat, e: nat)
    requires i + 1 < |starts|
  {
    starts[i] + HEADER == p && starts[i + 1] == e && !IsFree(mem, starts[i])
  }

  lemma StartsDistinct(starts: seq<nat>, i: nat, j: nat)
    requires Tiles(starts) && i < |starts| && j < |starts|
    ensures starts[i] == starts[j] <==> i == j
    ensures i < j ==> starts[i] + HEADER + MIN_WORDS <= starts[j]
    ensures j < i ==> starts[j] + HEADER + MIN_WORDS <= starts[i]
  {
    if i < j {
      StartsGrow(starts, i, j);
    } else if j < i {
      StartsGrow(starts, j, i);
    }
  }

  /** Live allocations do not overlap, and no header lies inside one. */
  lemma AllocsDisjoint(mem: seq<Word>, starts: seq<nat>, p: nat, e: nat, q: nat, f: nat)
    requires Tiles(starts) && Alloc(mem, starts, p, e) && Alloc(mem, starts, q, f)
    ensures p + MIN_WORDS <= e <= MEM_WORDS
    ensures p == q ==> e == f
    ensures p < q ==> e + HEADER <= q
    ensures forall k :: 0 <= k < |starts| ==> starts[k] + HEADER <= p || e <= starts[k]
  {
    var i :| 0 <= i < |starts| - 1 && AllocAt(mem, starts, i, p, e);
    var j :| 0 <= j < |starts| - 1 && AllocAt(mem, starts, j, q, f);
    StartsDistinct(starts, i, j);
    AtMostEnd(starts, i + 1);
    assert Roomy(starts, i);
    if i < j {
      if i + 1 < j {
        StartsDistinct(starts, i + 1, j);
      }
    }
    forall k | 0 <= k < |starts|
      ensures starts[k] + HEADER <= p || e <= starts[k]
    {
      StartsDistinct(starts, i, k);
      StartsDistinct(starts, i + 1, k);
    }
  }

  function RemoveAt(starts: seq<nat>, k: nat): seq<nat>
    requires k < |starts|
  {
    starts[..k] + starts[k + 1..]
  }

  function InsertAt(starts: seq<nat>, k: nat, x: nat): seq<nat>
    requires k <= |starts|
  {
    starts[..k] + [x] + starts[k..]
  }

  function WithNext(w: Word, next: nat): Word {
    if w.Links? then w.(next := next) else w
  }

  function WithPrev(w: Word, prev: nat): Word {
    if w.Links? then w.(prev := prev) else w
  }

  /** mem->next = nmem->next; ram[nmem->next]->prev = mem */
  function Absorbed(mem: seq<Word>, s: nat, far: nat): seq<Word>
    requires s < |mem| && far < |mem| && s != far
  {
    mem[s := WithNext(mem[s], far)][far := WithPrev(mem[far], s)]
  }

  /** Block i takes in block i + 1. */
  lemma AbsorbShaped(mem: seq<Word>, starts: seq<nat>, i: nat)
    requires Shaped(mem, starts) && i + 2 < |starts|
    ensures starts[i + 2] < |mem| && starts[i] < starts[i + 2]
    ensures Shaped(Absorbed(mem, starts[i], starts[i + 2]), RemoveAt(starts, i + 1))
  {
    var starts' := RemoveAt(starts, i + 1);
    StartsGrow(starts, i, i + 2);
    var mem' := Absorbed(mem, starts[i], starts[i + 2]);
    forall k | 0 <= k < |starts'| - 1
      ensures Roomy(starts', k)
      ensures HeadAt(mem', starts', k)
    {
      var j := if k <= i then k else k + 1;
      assert starts'[k] == starts[j] && HeadAt(mem, starts, j) && Roomy(starts, j);
      StartsDistinct(starts, j, i);
      StartsDistinct(starts, j, i + 2);
      assert HeadAt(mem, starts, i);
    }
  }

  /** Merging changes no used flag. */
  lemma AbsorbKeeps(mem: seq<Word>, starts: seq<nat>, i: nat, j: nat)
    requires Shaped(mem, starts) && i + 2 < |starts| && j < |starts|
    requires starts[i + 2] < |mem| && starts[i] < starts[i + 2]
    ensures IsFree(Absorbed(mem, starts[i], starts[i + 2]), starts[j]) == IsFree(mem, starts[j])
  {
    StartsDistinct(starts, j, i);
    StartsDistinct(starts, j, i + 2);
  }

  /** Merging two free blocks changes no live allocation. */
  lemma AbsorbAllocs(mem: seq<Word>, starts: seq<nat>, i: nat)
    requires Shaped(mem, starts) && i + 2 < |starts| && BothFree(mem, starts, i)
    requires starts[i + 2] < |mem| && starts[i] < starts[i + 2]
    ensures var mem', starts' := Absorbed(mem, starts[i], starts[i + 2]), RemoveAt(starts, i + 1);
      SameAllocs(mem, starts, mem', starts')
  {
    var mem', starts' := Absorbed(mem, starts[i], starts[i + 2]), RemoveAt(starts, i + 1);
    AbsorbShaped(mem, starts, i);
    forall p, e
      ensures Alloc(mem', starts', p, e) <==> Alloc(mem, starts, p, e)
    {
      if Alloc(mem', starts', p, e) {
        var k :| 0 <= k < |starts'| - 1 && AllocAt(mem', starts', k, p, e);
        var j := if k <= i then k else k + 1;
        AbsorbKeeps(mem, starts, i, j);
        assert AllocAt(mem, starts, j, p, e);
      }
      if Alloc(mem, starts, p, e) {
        var j :| 0 <= j < |starts| - 1 && AllocAt(mem, starts, j, p, e);
        AbsorbKeeps(mem, starts, i, j);
        assert AllocAt(mem', starts', if j < i then j else j - 1, p, e);
      }
    }
  }

  /** lfree stays the lowest free block; in particular it is not the block that vanishes. */
  lemma AbsorbLowest(mem: seq<Word>, starts: seq<nat>, lfree: nat, i: nat)
    requires Shaped(mem, starts) && i + 2 < |starts| && BothFree(mem, starts, i)
    requires starts[i + 2] < |mem| && starts[i] < starts[i + 2]
    requires Lowest(mem, starts, lfree)
    ensures lfree != starts[i + 1]
    ensures Lowest(Absorbed(mem, starts[i], starts[i + 2]), RemoveAt(starts, i + 1), lfree)
  {
    var mem', starts' := Absorbed(mem, starts[i], starts[i + 2]), RemoveAt(starts, i + 1);
    StartsDistinct(starts, i, i + 1);
    var k :| 0 <= k < |starts| && starts[k] == lfree;
    assert k != i + 1;
    AbsorbKeeps(mem, starts, i, k);
    assert starts'[if k <= i then k else k - 1] == lfree;
    forall j | 0 <= j < |starts'| && starts'[j] < lfree
      ensures !IsFree(mem', starts'[j])
    {
      AbsorbKeeps(mem, starts, i, if j <= i then j else j + 1);
    }
  }

  /** Coalesced except around block i. */
  predicate CoalescedBut(mem: seq<Word>, starts: seq<nat>, i: nat) {
    forall k :: 0 <= k < |starts| - 2 && k != i && k + 1 != i ==> !BothFree(mem, starts, k)
  }

  lemma AbsorbCoalesced(mem: seq<Word>, starts: seq<nat>, i: nat, at: nat)
    requires Shaped(mem, starts) && i + 2 < |starts| && BothFree(mem, starts, i)
    requires starts[i + 2] < |mem| && starts[i] < starts[i + 2]
    requires CoalescedBut(mem, starts, at) && (at == i || at == i + 1)
    requires at == i + 1 && at + 2 < |starts| ==> !BothFree(mem, starts, at)
    ensures var mem', starts' := Absorbed(mem, starts[i], starts[i + 2]), RemoveAt(starts, i + 1);
      && CoalescedBut(mem', starts', i)
      && (i + 2 < |starts'| ==> !BothFree(mem', starts', i))
      && (at == i + 1 ==> Coalesced(mem', starts'))
  {
    var mem', starts' := Absorbed(mem, starts[i], starts[i + 2]), RemoveAt(starts, i + 1);
    forall k | 0 <= k < |starts'| - 2 && (at == i + 1 || k + 1 != i)
      ensures !BothFree(mem', starts', k)
    {
      var j := if k <= i then k else k + 1;
      AbsorbKeeps(mem, starts, i, j);
      AbsorbKeeps(mem, starts, i, if k == i then i + 2 else j + 1);
      if k == i {
        assert !BothFree(mem, starts, i + 1);
      } else {
        assert !BothFree(mem, starts, j);
      }
    }
  }

  /** A new free block header at x, linked between s and far (the end mark's prev is not
      maintained). */
  function Split(mem: seq<Word>, s: nat, x: nat, far: nat): seq<Word>
    requires s < x < far < |mem|
  {
    var mem1 := mem[x := Links(far, s)];
    var mem2 := mem1[x + 1 := Flag(false)];
    var mem3 := mem2[s := WithNext(mem2[s], x)];
    if far != MEM_WORDS then mem3[far := WithPrev(mem3[far], x)] else mem3
  }

  /** Block i is cut at x; the rest becomes a free block. */
  lemma SplitShaped(mem: seq<Word>, starts: seq<nat>, i: nat, x: nat)
    requires Shaped(mem, starts) && i + 1 < |starts|
    requires starts[i] + HEADER + MIN_WORDS <= x && x + HEADER + MIN_WORDS <= starts[i + 1]
    ensures starts[i + 1] < |mem|
    ensures Shaped(Split(mem, starts[i], x, starts[i + 1]), InsertAt(starts, i + 1, x))
  {
    AtMostEnd(starts, i + 1);
    var mem', starts' := Split(mem, starts[i], x, starts[i + 1]), InsertAt(starts, i + 1, x);
    forall k | 0 <= k < |starts'| - 1
      ensures Roomy(starts', k)
      ensures HeadAt(mem', starts', k)
    {
      SplitHead(mem, starts, i, x, k);
    }
    assert starts'[0] == starts[0] && starts'[|starts'| - 1] == starts[|starts| - 1];
  }

  lemma SplitHead(mem: seq<Word>, starts: seq<nat>, i: nat, x: nat, k: nat)
    requires Shaped(mem, starts) && i + 1 < |starts| && starts[i + 1] < |mem|
    requires starts[i] + HEADER + MIN_WORDS <= x && x + HEADER + MIN_WORDS <= starts[i + 1]
    requires k < |starts|
    ensures Roomy(InsertAt(starts, i + 1, x), k)
    ensures HeadAt(Split(mem, starts[i], x, starts[i + 1]), InsertAt(starts, i + 1, x), k)
  {
    var mem' := Split(mem, starts[i], x, starts[i + 1]);
    var starts' := InsertAt(starts, i + 1, x);
    assert HeadAt(mem, starts, i);
    if k == i || k == i + 1 {
      assert starts'[i] == starts[i] && starts'[i + 1] == x && starts'[i + 2] == starts[i + 1];
    } else {
      var j := if k < i then k else k - 1;
      assert starts'[k] == starts[j] && starts'[k + 1] == starts[j + 1];
      assert HeadAt(mem, starts, j) && Roomy(starts, j);
      StartsDistinct(starts, j, i);
      StartsDistinct(starts, j, i + 1);
    }
  }

  /** The free block after block i is moved down to x. */
  lemma MoveShaped(mem: seq<Word>, starts: seq<nat>, i: nat, x: nat)
    requires Shaped(mem, starts) && i + 2 < |starts|
    requires starts[i] + HEADER + MIN_WORDS <= x < starts[i + 1]
    ensures x + 1 < starts[i + 2] < |mem|
    ensures Shaped(Split(mem, starts[i], x, starts[i + 2]), starts[i + 1 := x])
  {
    AtMostEnd(starts, i + 2);
    assert Roomy(starts, i + 1);
    var mem', starts' := Split(mem, starts[i], x, starts[i + 2]), starts[i + 1 := x];
    forall k | 0 <= k < |starts'| - 1
      ensures Roomy(starts', k)
      ensures HeadAt(mem', starts', k)
    {
      MoveHead(mem, starts, i, x, k);
    }
  }

  lemma MoveHead(mem: seq<Word>, starts: seq<nat>, i: nat, x: nat, k: nat)
    requires Shaped(mem, starts) && i + 2 < |starts| && k + 1 < |starts|
    requires starts[i] + HEADER + MIN_WORDS <= x < starts[i + 1]
    requires x + 1 < starts[i + 2] < |mem|
    ensures Roomy(starts[i + 1 := x], k)
    ensures HeadAt(Split(mem, starts[i], x, starts[i + 2]), starts[i + 1 := x], k)
  {
    assert HeadAt(mem, starts, i) && HeadAt(mem, starts, k) && Roomy(starts, k);
    assert Roomy(starts, i + 1);
    StartsDistinct(starts, k, i);
    StartsDistinct(starts, k, i + 1);
    StartsDistinct(starts, k, i + 2);
  }

  /** Words that no header write touches. */
  lemma SplitKeeps(mem: seq<Word>, s: nat, x: nat, far: nat, w: nat)
    requires s < x && x + 1 < far < |mem| && w < |mem|
    requires w != s && w != x && w != x + 1 && w != far
    ensures Split(mem, s, x, far)[w] == mem[w]
  {
  }

  /** The data of every allocation live in (mem, starts) is the same in mem'. */
  ghost predicate DataKept(mem: seq<Word>, starts: seq<nat>, mem': seq<Word>) {
    |mem'| == |mem| && forall p: nat, e: nat, w: nat {:trigger Alloc(mem, starts, p, e), mem'[w]} ::
      Alloc(mem, starts, p, e) && p <= w < e && w < |mem| ==> mem'[w] == mem[w]
  }

  lemma AbsorbData(mem: seq<Word>, starts: seq<nat>, i: nat)
    requires Shaped(mem, starts) && i + 2 < |starts|
    requires starts[i + 2] < |mem| && starts[i] < starts[i + 2]
    ensures DataKept(mem, starts, Absorbed(mem, starts[i], starts[i + 2]))
  {
    var mem' := Absorbed(mem, starts[i], starts[i + 2]);
    forall p: nat, e: nat, w: nat | Alloc(mem, starts, p, e) && p <= w < e && w < |mem|
      ensures mem'[w] == mem[w]
    {
      AllocsDisjoint(mem, starts, p, e, p, e);
    }
  }

  ghost predicate SameAllocs(mem: seq<Word>, starts: seq<nat>, mem': seq<Word>, starts': seq<nat>) {
    forall p: nat, e: nat :: Alloc(mem', starts', p, e) <==> Alloc(mem, starts, p, e)
  }

  lemma DataKeptTwice(mem: seq<Word>, starts: seq<nat>, mem1: seq<Word>, starts1: seq<nat>, mem2: seq<Word>)
    requires DataKept(mem, starts, mem1) && DataKept(mem1, starts1, mem2)
    requires SameAllocs(mem, starts, mem1, starts1)
    ensures DataKept(mem, starts, mem2)
  {
  }

  /** Allocations present both in (mem, starts) and in (mem', starts') hold the same data. */
  ghost predicate Kept(mem: seq<Word>, starts: seq<nat>, mem': seq<Word>, starts': seq<nat>) {
    |mem'| == |mem| &&
    forall p: nat, e: nat, f: nat, w: nat
      {:trigger Alloc(mem, starts, p, e), Alloc(mem', starts', p, f), mem'[w]} ::
      Alloc(mem, starts, p, e) && Alloc(mem', starts', p, f) && p <= w < e && w < f && w < |mem| ==>
        mem'[w] == mem[w]
  }

  lemma KeptRefl(mem: seq<Word>, starts: seq<nat>)
    ensures Kept(mem, starts, mem, starts)
  {
  }

  /** An allocation other than block i's lies outside block i and the next header. */
  lemma OutsideBlock(mem: seq<Word>, starts: seq<nat>, i: nat, p: nat, e: nat)
    requires Tiles(starts) && i + 1 < |starts| && Alloc(mem, starts, p, e)
    ensures p == starts[i] + HEADER ==> e == starts[i + 1] && !IsFree(mem, starts[i])
    ensures p != starts[i] + HEADER ==> e <= starts[i] || starts[i + 1] + HEADER <= p
    ensures e <= MEM_WORDS
  {
    var k :| 0 <= k < |starts| - 1 && AllocAt(mem, starts, k, p, e);
    StartsDistinct(starts, k, i);
    StartsDistinct(starts, k, i + 1);
    StartsDistinct(starts, k + 1, i);
    AtMostEnd(starts, k + 1);
  }

  /** Block k is free and holds n words of data. */
  predicate Fits(mem: seq<Word>, starts: seq<nat>, n: nat, k: nat) {
    k + 1 < |starts| && IsFree(mem, starts[k]) && starts[k] + HEADER + n <= starts[k + 1]
  }

  predicate NoFreeBelow(mem: seq<Word>, starts: seq<nat>, a: nat) {
    forall i :: 0 <= i < |starts| && starts[i] < a ==> !IsFree(mem, starts[i])
  }

  /** Taking free block i whole. */
  lemma TakeWhole(mem: seq<Word>, starts: seq<nat>, lfree: nat, i: nat)
    requires HeapOk(mem, starts, lfree) && i + 1 < |starts| && IsFree(mem, starts[i])
    ensures starts[i] + 1 < |mem|
    ensures var mem' := mem[starts[i] + 1 := Flag(true)];
      && Shaped(mem', starts) && Coalesced(mem', starts) && NoFreeBelow(mem', starts, lfree)
      && (lfree != starts[i] ==> Lowest(mem', starts, lfree))
      && CutAllocs(mem, starts, mem', starts, starts[i] + HEADER, starts[i + 1])
      && Kept(mem, starts, mem', starts)
  {
    var mem' := mem[starts[i] + 1 := Flag(true)];
    MarkUsed(mem, starts, i);
    forall k | 0 <= k < |starts| - 2
      ensures !BothFree(mem', starts, k)
    {
      assert !BothFree(mem, starts, k);
    }
    TakeAllocs(mem, starts, i);
  }

  lemma TakeAllocs(mem: seq<Word>, starts: seq<nat>, i: nat)
    requires Shaped(mem, starts) && i + 1 < |starts| && IsFree(mem, starts[i])
    requires starts[i] + 1 < |mem|
    ensures var mem' := mem[starts[i] + 1 := Flag(true)];
      && CutAllocs(mem, starts, mem', starts, starts[i] + HEADER, starts[i + 1])
      && Kept(mem, starts, mem', starts)
  {
    var mem' := mem[starts[i] + 1 := Flag(true)];
    MarkUsed(mem, starts, i);
    forall p: nat, e: nat
      ensures Alloc(mem', starts, p, e) <==>
        if p == starts[i] + HEADER then e == starts[i + 1] else Alloc(mem, starts, p, e)
    {
      if Alloc(mem', starts, p, e) {
        var k :| 0 <= k < |starts| - 1 && AllocAt(mem', starts, k, p, e);
        StartsDistinct(starts, k, i);
        assert k != i ==> AllocAt(mem, starts, k, p, e);
      }
      if Alloc(mem, starts, p, e) {
        var k :| 0 <= k < |starts| - 1 && AllocAt(mem, starts, k, p, e);
        StartsDistinct(starts, k, i);
        assert AllocAt(mem', starts, k, p, e);
      }
      assert AllocAt(mem', starts, i, starts[i] + HEADER, starts[i + 1]);
    }
    forall p: nat, e: nat, f: nat, w: nat
      | Alloc(mem, starts, p, e) && Alloc(mem', starts, p, f) && p <= w < e && w < f && w < |mem|
      ensures mem'[w] == mem[w]
    {
      OutsideBlock(mem, starts, i, p, e);
      assert Roomy(starts, i);
    }
  }

  /** What a cut at x leaves of the used flags and of the data outside block i. */
  lemma SplitFlags(mem: seq<Word>, starts: seq<nat>, i: nat, x: nat)
    requires Shaped(mem, starts) && i + 1 < |starts|
    requires starts[i] + HEADER + MIN_WORDS <= x && x + HEADER + MIN_WORDS <= starts[i + 1]
    ensures starts[i + 1] < |mem|
    ensures var mem' := Split(mem, starts[i], x, starts[i + 1]);
      && IsFree(mem', x)
      && (forall k :: 0 <= k < |starts| ==> IsFree(mem', starts[k]) == IsFree(mem, starts[k]))
      && (forall w :: 0 <= w < |mem| && w != starts[i] && w != x && w != x + 1 && w != starts[i + 1] ==>
            mem'[w] == mem[w])
  {
    AtMostEnd(starts, i + 1);
    var mem' := Split(mem, starts[i], x, starts[i + 1]);
    forall k | 0 <= k < |starts|
      ensures IsFree(mem', starts[k]) == IsFree(mem, starts[k])
    {
      StartsDistinct(starts, k, i);
      StartsDistinct(starts, k, i + 1);
      AtMostEnd(starts, k);
    }
  }

  /** Index of a start after the insertion of x behind block i. */
  function Shifted(i: nat, k: nat): nat {
    if k <= i then k else k + 1
  }

  /** Cutting block i at x, with the front used afterwards: free block i (mem_malloc) or a
      used block being trimmed (mem_trim).  The block behind must be in use. */
  lemma CutUsed(mem: seq<Word>, starts: seq<nat>, lfree: nat, i: nat, x: nat)
    requires HeapOk(mem, starts, lfree) && i + 1 < |starts|
    requires starts[i] + HEADER + MIN_WORDS <= x && x + HEADER + MIN_WORDS <= starts[i + 1]
    requires !IsFree(mem, starts[i + 1])
    ensures starts[i + 1] < |mem|
    ensures var mem', starts' := Split(mem, starts[i], x, starts[i + 1])[starts[i] + 1 := Flag(true)],
                                 InsertAt(starts, i + 1, x);
      && Shaped(mem', starts') && Coalesced(mem', starts')
      && CutAllocs(mem, starts, mem', starts', starts[i] + HEADER, x)
      && Kept(mem, starts, mem', starts')
      && (lfree <= starts[i] ==> NoFreeBelow(mem', starts', lfree))
      && (lfree < starts[i] ==> Lowest(mem', starts', lfree))
      && (starts[i] < lfree && !IsFree(mem, starts[i]) ==>
            Lowest(mem', starts', if x < lfree then x else lfree))
  {
    hide Split;
    SplitShaped(mem, starts, i, x);
    SplitFlags(mem, starts, i, x);
    var mem0, starts' := Split(mem, starts[i], x, starts[i + 1]), InsertAt(starts, i + 1, x);
    var mem' := mem0[starts[i] + 1 := Flag(true)];
    InsertedOld(starts, i, x, i);
    MarkUsed(mem0, starts', i);
    assert CutLayout(mem, starts, i, x, mem', starts') by {
      CutFlags(mem0, starts, i, x, mem');
    }
    CutCoalesced(mem, starts, i, x, mem', starts');
    CutAllocations(mem, starts, i, x, mem', starts');
    CutKept(mem, starts, i, x, mem', starts');
    CutLowest(mem, starts, lfree, i, x, mem', starts');
  }

  lemma InsertedNew(starts: seq<nat>, i: nat, x: nat, k: nat)
    requires i + 1 < |starts| && k < |starts|
    ensures InsertAt(starts, i + 1, x)[Shifted(i, k)] == starts[k]
  {
  }

  lemma InsertedOld(starts: seq<nat>, i: nat, x: nat, k: nat)
    requires i + 1 < |starts| && k < |starts| + 1 && k != i + 1
    ensures InsertAt(starts, i + 1, x)[k] == starts[if k <= i then k else k - 1]
  {
  }

  lemma CutFlags(mem0: seq<Word>, starts: seq<nat>, i: nat, x: nat, mem': seq<Word>)
    requires Tiles(starts) && i + 1 < |starts| && starts[i] + 1 < |mem0| && starts[i] + HEADER <= x
    requires mem' == mem0[starts[i] + 1 := Flag(true)]
    ensures IsFree(mem', x) == IsFree(mem0, x) && !IsFree(mem', starts[i])
    ensures forall k :: 0 <= k < |starts| && k != i ==> IsFree(mem', starts[k]) == IsFree(mem0, starts[k])
  {
    forall k | 0 <= k < |starts| && k != i
      ensures IsFree(mem', starts[k]) == IsFree(mem0, starts[k])
    {
      StartsDistinct(starts, k, i);
    }
  }

  lemma MarkUsed(mem: seq<Word>, starts: seq<nat>, i: nat)
    requires Shaped(mem, starts) && i + 1 < |starts|
    ensures starts[i] + 1 < |mem|
    ensures var mem' := mem[starts[i] + 1 := Flag(true)];
      && Shaped(mem', starts) && !IsFree(mem', starts[i])
      && (forall k :: 0 <= k < |starts| && k != i ==> IsFree(mem', starts[k]) == IsFree(mem, starts[k]))
  {
    AtMostEnd(starts, i);
    var mem' := mem[starts[i] + 1 := Flag(true)];
    forall k | 0 <= k < |starts|
      ensures k < |starts| - 1 ==> HeadAt(mem', starts, k)
      ensures k != i ==> IsFree(mem', starts[k]) == IsFree(mem, starts[k])
    {
      StartsDistinct(starts, k, i);
      if k < |starts| - 1 {
        assert HeadAt(mem, starts, k);
      }
    }
  }

  /** The cut layout: x is a free block behind the used block i; nothing else changed. */
  predicate CutLayout(mem: seq<Word>, starts: seq<nat>, i: nat, x: nat, mem': seq<Word>, starts': seq<nat>) {
    && i + 1 < |starts| && starts' == InsertAt(starts, i + 1, x)
    && IsFree(mem', x) && !IsFree(mem', starts[i])
    && (forall k :: 0 <= k < |starts| && k != i ==> IsFree(mem', starts[k]) == IsFree(mem, starts[k]))
  }

  lemma CutCoalesced(mem: seq<Word>, starts: seq<nat>, i: nat, x: nat, mem': seq<Word>, starts': seq<nat>)
    requires CutLayout(mem, starts, i, x, mem', starts')
    requires Coalesced(mem, starts) && !IsFree(mem, starts[i + 1])
    ensures Coalesced(mem', starts')
  {
    forall k | 0 <= k < |starts'| - 2
      ensures !BothFree(mem', starts', k)
    {
      if k < i {
        assert !BothFree(mem, starts, k);
        assert starts'[k] == starts[k] && starts'[k + 1] == starts[k + 1];
      } else if k > i + 1 {
        assert !BothFree(mem, starts, k - 1);
        assert starts'[k] == starts[k - 1] && starts'[k + 1] == starts[k];
      } else {
        assert starts'[i] == starts[i] && starts'[i + 2] == starts[i + 1];
      }
    }
  }

  /** Exactly one allocation, the one at p0, may have changed: it now ends at e0. */
  ghost predicate CutAllocs(mem: seq<Word>, starts: seq<nat>, mem': seq<Word>, starts': seq<nat>, p0: nat, e0: nat) {
    forall p: nat, e: nat :: Alloc(mem', starts', p, e) <==>
      if p == p0 then e == e0 else Alloc(mem, starts, p, e)
  }

  lemma CutAllocations(mem: seq<Word>, starts: seq<nat>, i: nat, x: nat, mem': seq<Word>, starts': seq<nat>)
    requires CutLayout(mem, starts, i, x, mem', starts')
    requires Tiles(starts) && Tiles(starts')
    ensures CutAllocs(mem, starts, mem', starts', starts[i] + HEADER, x)
  {
    forall p: nat, e: nat
      ensures Alloc(mem', starts', p, e) <==>
        if p == starts[i] + HEADER then e == x else Alloc(mem, starts, p, e)
    {
      if Alloc(mem', starts', p, e) {
        CutAllocBack(mem, starts, i, x, mem', starts', p, e);
      }
      if p == starts[i] + HEADER && e == x {
        assert AllocAt(mem', starts', i, p, e);
      }
      if Alloc(mem, starts, p, e) && p != starts[i] + HEADER {
        var k :| 0 <= k < |starts| - 1 && AllocAt(mem, starts, k, p, e);
        InsertedNew(starts, i, x, k);
        InsertedNew(starts, i, x, k + 1);
        assert AllocAt(mem', starts', Shifted(i, k), p, e);
      }
    }
  }

  lemma CutAllocBack(mem: seq<Word>, starts: seq<nat>, i: nat, x: nat, mem': seq<Word>, starts': seq<nat>,
                     p: nat, e: nat)
    requires CutLayout(mem, starts, i, x, mem', starts')
    requires Tiles(starts) && Tiles(starts') && Alloc(mem', starts', p, e)
    ensures if p == starts[i] + HEADER then e == x else Alloc(mem, starts, p, e)
  {
    var k :| 0 <= k < |starts'| - 1 && AllocAt(mem', starts', k, p, e);
    InsertedOld(starts, i, x, i);
    assert starts'[i + 1] == x && k != i + 1;
    InsertedOld(starts, i, x, k);
    StartsDistinct(starts', k, i);
    if k != i {
      InsertedOld(starts, i, x, k + 1);
      assert AllocAt(mem, starts, if k < i then k else k - 1, p, e);
    }
  }

  lemma CutKept(mem: seq<Word>, starts: seq<nat>, i: nat, x: nat, mem': seq<Word>, starts': seq<nat>)
    requires Tiles(starts) && i + 1 < |starts| && starts[i] + HEADER <= x && x + HEADER <= starts[i + 1]
    requires |mem'| == |mem|
    requires CutAllocs(mem, starts, mem', starts', starts[i] + HEADER, x)
    requires forall w :: (0 <= w < |mem| && !(starts[i] <= w <= starts[i] + 1) && w != x && w != x + 1
      && w != starts[i + 1]) ==> mem'[w] == mem[w]
    ensures Kept(mem, starts, mem', starts')
  {
    forall p: nat, e: nat, f: nat, w: nat
      | Alloc(mem, starts, p, e) && Alloc(mem', starts', p, f) && p <= w < e && w < f && w < |mem|
      ensures mem'[w] == mem[w]
    {
      OutsideBlock(mem, starts, i, p, e);
    }
  }

  lemma CutLowest(mem: seq<Word>, starts: seq<nat>, lfree: nat, i: nat, x: nat, mem': seq<Word>, starts': seq<nat>)
    requires CutLayout(mem, starts, i, x, mem', starts')
    requires Tiles(starts) && Tiles(starts') && Lowest(mem, starts, lfree)
    ensures lfree in starts'
    ensures lfree <= starts[i] ==> NoFreeBelow(mem', starts', lfree)
    ensures lfree < starts[i] ==> Lowest(mem', starts', lfree)
    ensures starts[i] < lfree && !IsFree(mem, starts[i]) ==>
      Lowest(mem', starts', if x < lfree then x else lfree)
  {
    var k :| 0 <= k < |starts| && starts[k] == lfree;
    InsertedNew(starts, i, x, k);
    assert starts'[i + 1] == x;
    InsertedOld(starts, i, x, i);
    StartsDistinct(starts', i, i + 1);
    StartsDistinct(starts, i, k);
    forall j | 0 <= j < |starts'| && starts'[j] < lfree && j != i + 1
      ensures !IsFree(mem', starts'[j])
    {
      InsertedOld(starts, i, x, j);
    }
  }

  /** mem_trim with a free block behind: that block moves down to x. */
  lemma MoveOk(mem: seq<Word>, starts: seq<nat>, lfree: nat, i: nat, x: nat)
    requires HeapOk(mem, starts, lfree) && i + 2 < |starts|
    requires starts[i] + HEADER + MIN_WORDS <= x < starts[i + 1]
    requires !IsFree(mem, starts[i]) && IsFree(mem, starts[i + 1])
    ensures x + 1 < starts[i + 2] < |mem|
    ensures var mem', starts' := Split(mem, starts[i], x, starts[i + 2]), starts[i + 1 := x];
      && HeapOk(mem', starts', if lfree == starts[i + 1] then x else lfree)
      && CutAllocs(mem, starts, mem', starts', starts[i] + HEADER, x)
      && Kept(mem, starts, mem', starts')
  {
    hide Split;
    MoveShaped(mem, starts, i, x);
    var mem', starts' := Split(mem, starts[i], x, starts[i + 2]), starts[i + 1 := x];
    MoveFlags(mem, starts, i, x);
    forall k | 0 <= k < |starts'| - 2
      ensures !BothFree(mem', starts', k)
    {
      assert !BothFree(mem, starts, k);
    }
    MoveLowest(mem, starts, lfree, i, x, mem');
    MoveAllocs(mem, starts, i, x, mem');
  }

  lemma MoveFlags(mem: seq<Word>, starts: seq<nat>, i: nat, x: nat)
    requires Shaped(mem, starts) && i + 2 < |starts|
    requires starts[i] + HEADER + MIN_WORDS <= x < starts[i + 1]
    requires x + 1 < starts[i + 2] < |mem|
    ensures var mem' := Split(mem, starts[i], x, starts[i + 2]);
      && IsFree(mem', x)
      && (forall k :: 0 <= k < |starts| && k != i + 1 ==> IsFree(mem', starts[k]) == IsFree(mem, starts[k]))
      && (forall w :: 0 <= w < |mem| && w != starts[i] && w != x && w != x + 1 && w != starts[i + 2] ==>
            mem'[w] == mem[w])
  {
    var mem' := Split(mem, starts[i], x, starts[i + 2]);
    assert Roomy(starts, i + 1);
    forall k | 0 <= k < |starts| && k != i + 1
      ensures IsFree(mem', starts[k]) == IsFree(mem, starts[k])
    {
      StartsDistinct(starts, k, i);
      StartsDistinct(starts, k, i + 1);
      StartsDistinct(starts, k, i + 2);
      AtMostEnd(starts, k);
    }
  }

  /** The moved layout keeps every used flag. */
  predicate MoveLayout(mem: seq<Word>, starts: seq<nat>, i: nat, x: nat, mem': seq<Word>) {
    && i + 2 < |starts| && Tiles(starts) && Tiles(starts[i + 1 := x]) && x < starts[i + 1]
    && !IsFree(mem, starts[i]) && IsFree(mem, starts[i + 1]) && IsFree(mem', x)
    && (forall k :: 0 <= k < |starts| && k != i + 1 ==> IsFree(mem', starts[k]) == IsFree(mem, starts[k]))
  }

  lemma MoveLowest(mem: seq<Word>, starts: seq<nat>, lfree: nat, i: nat, x: nat, mem': seq<Word>)
    requires MoveLayout(mem, starts, i, x, mem') && Lowest(mem, starts, lfree)
    ensures Lowest(mem', starts[i + 1 := x], if lfree == starts[i + 1] then x else lfree)
  {
    var starts' := starts[i + 1 := x];
    var k :| 0 <= k < |starts| && starts[k] == lfree;
    StartsDistinct(starts, k, i + 1);
    assert starts'[k] == if k == i + 1 then x else lfree;
    forall j | 0 <= j < |starts'| && starts'[j] < starts'[k]
      ensures !IsFree(mem', starts'[j])
    {
      StartsDistinct(starts', j, k);
      StartsDistinct(starts, j, k);
    }
  }

  lemma MoveAllocs(mem: seq<Word>, starts: seq<nat>, i: nat, x: nat, mem': seq<Word>)
    requires MoveLayout(mem, starts, i, x, mem') && |mem'| == |mem|
    requires starts[i] + HEADER <= x && x + 1 < starts[i + 2]
    requires forall w :: 0 <= w < |mem| && w != starts[i] && w != x && w != x + 1 && w != starts[i + 2] ==>
      mem'[w] == mem[w]
    ensures CutAllocs(mem, starts, mem', starts[i + 1 := x], starts[i] + HEADER, x)
    ensures Kept(mem, starts, mem', starts[i + 1 := x])
  {
    var starts' := starts[i + 1 := x];
    forall p: nat, e: nat
      ensures Alloc(mem', starts', p, e) <==>
        if p == starts[i] + HEADER then e == x else Alloc(mem, starts, p, e)
    {
      if Alloc(mem', starts', p, e) {
        var k :| 0 <= k < |starts'| - 1 && AllocAt(mem', starts', k, p, e);
        assert k != i + 1;
        StartsDistinct(starts, k, i);
        assert k != i ==> AllocAt(mem, starts, k, p, e);
      }
      if p == starts[i] + HEADER && e == x {
        assert AllocAt(mem', starts', i, p, e);
      }
      if Alloc(mem, starts, p, e) && p != starts[i] + HEADER {
        var k :| 0 <= k < |starts| - 1 && AllocAt(mem, starts, k, p, e);
        assert k != i + 1 && k != i;
        assert AllocAt(mem', starts', k, p, e);
      }
    }
    forall p: nat, e: nat, f: nat, w: nat
      | Alloc(mem, starts, p, e) && Alloc(mem', starts', p, f) && p <= w < e && w < f && w < |mem|
      ensures mem'[w] == mem[w]
    {
      OutsideBlock(mem, starts, i, p, e);
      OutsideBlock(mem, starts, i + 1, p, e);
    }
  }

  /** Where an allocation of n words cut from the block [s, far) ends. */
  function CutEnd(s: nat, far: nat, n: nat): nat {
    if far >= s + HEADER + n + HEADER + MIN_WORDS then s + HEADER + n else far
  }

  /** The allocation [p, e) was taken from block k, the lowest that fits n words. */
  predicate Placed(mem: seq<Word>, starts: seq<nat>, n: nat, k: nat, p: nat, e: nat) {
    && Fits(mem, starts, n, k) && p == starts[k] + HEADER
    && e == CutEnd(starts[k], starts[k + 1], n)
    && forall j :: 0 <= j < k ==> !Fits(mem, starts, n, j)
  }

  /** An allocation [p, e) for n words is large enough, and less than a block larger. */
  predicate Snug(n: nat, p: nat, e: nat) {
    p + n <= e < p + n + HEADER + MIN_WORDS
  }

  /** The words from `from` up to `far` are nothing, or one free block. */
  predicate RestFree(mem: seq<Word>, starts: seq<nat>, from: nat, far: nat) {
    from == far || exists j :: 0 <= j < |starts| - 1 && FreeBlock(mem, starts, j, from, far)
  }

  predicate FreeBlock(mem: seq<Word>, starts: seq<nat>, j: nat, from: nat, far: nat)
    requires j + 1 < |starts|
  {
    starts[j] == from && starts[j + 1] == far && IsFree(mem, from)
  }

  /** Every free block has less than n words behind its header. */
  predicate NoRoom(mem: seq<Word>, starts: seq<nat>, n: nat) {
    forall i :: 0 <= i < |starts| - 1 && IsFree(mem, starts[i]) ==> starts[i + 1] - starts[i] < HEADER + n
  }

  lemma WhetherFits(mem: seq<Word>, starts: seq<nat>, n: nat)
    ensures NoRoom(mem, starts, n) <==> forall k :: !Fits(mem, starts, n, k)
  {
    if !NoRoom(mem, starts, n) {
      var i :| 0 <= i < |starts| - 1 && IsFree(mem, starts[i]) && starts[i + 1] - starts[i] >= HEADER + n;
      assert Fits(mem, starts, n, i);
    }
  }

  /** Where an allocation [p, e) ends once trimmed to n words: the rest goes to a free block
      behind, or becomes one if it can stand alone, or stays. */
  predicate TrimEnd(mem: seq<Word>, p: nat, e: nat, n: nat, f: nat) {
    f == if e == p + n || IsFree(mem, e) || p + n + HEADER + MIN_WORDS <= e then p + n else e
  }

  lemma NoRest(mem: seq<Word>, starts: seq<nat>, far: nat)
    ensures RestFree(mem, starts, far, far)
  {
  }

  /** What was cut off block i at x is a free block. */
  lemma RestIsFree(mem: seq<Word>, starts: seq<nat>, i: nat, x: nat)
    requires Shaped(mem, starts) && i + 1 < |starts| && starts[i + 1] < |mem|
    requires starts[i] + HEADER + MIN_WORDS <= x && x + HEADER + MIN_WORDS <= starts[i + 1]
    ensures var mem' := Split(mem, starts[i], x, starts[i + 1])[starts[i] + 1 := Flag(true)];
      RestFree(mem', InsertAt(starts, i + 1, x), x, starts[i + 1])
  {
    var mem' := Split(mem, starts[i], x, starts[i + 1])[starts[i] + 1 := Flag(true)];
    assert FreeBlock(mem', InsertAt(starts, i + 1, x), i + 1, x, starts[i + 1]);
  }

  /** The free block behind block i now begins at x. */
  lemma MovedIsFree(mem: seq<Word>, starts: seq<nat>, i: nat, x: nat)
    requires Tiles(starts) && i + 2 < |starts| && starts[i + 2] < |mem|
    requires starts[i] + HEADER + MIN_WORDS <= x < starts[i + 1] && x < starts[i + 2]
    ensures starts[i + 1] <= starts[i + 2]
    ensures var mem' := Split(mem, starts[i], x, starts[i + 2]);
      RestFree(mem', starts[i + 1 := x], x, starts[i + 2])
  {
    assert Roomy(starts, i + 1);
    assert FreeBlock(Split(mem, starts[i], x, starts[i + 2]), starts[i + 1 := x], i + 1, x, starts[i + 2]);
  }

  lemma NothingFits(mem: seq<Word>, starts: seq<nat>, n: nat)
    requires Tiles(starts) && n > MEM_WORDS
    ensures forall k :: !Fits(mem, starts, n, k)
  {
    forall k: nat
      ensures !Fits(mem, starts, n, k)
    {
      if k + 1 < |starts| {
        AtMostEnd(starts, k + 1);
      }
    }
  }

  /** The scan may stop at MEM_WORDS - n. */
  lemma NoneFitsFrom(mem: seq<Word>, starts: seq<nat>, n: nat, i: nat)
    requires Tiles(starts) && i < |starts| && starts[i] >= MEM_WORDS - n
    requires forall k :: 0 <= k < i ==> !Fits(mem, starts, n, k)
    ensures forall k :: !Fits(mem, starts, n, k)
  {
    forall k: nat
      ensures !Fits(mem, starts, n, k)
    {
      if i <= k && k + 1 < |starts| {
        StartsDistinct(starts, i, k);
        AtMostEnd(starts, k + 1);
      }
    }
  }

  lemma FollowedByUsed(mem: seq<Word>, starts: seq<nat>, i: nat)
    requires Shaped(mem, starts) && Coalesced(mem, starts) && i + 1 < |starts| && IsFree(mem, starts[i])
    ensures !IsFree(mem, starts[i + 1])
  {
    if i + 2 < |starts| {
      assert !BothFree(mem, starts, i);
    }
  }

  lemma StillUsed(mem: seq<Word>, starts: seq<nat>, i: nat)
    requires Shaped(mem, starts) && i + 1 < |starts| && !IsFree(mem, starts[i])
    ensures starts[i] + 1 < |mem| && mem[starts[i] + 1] == Flag(true)
  {
    assert HeadAt(mem, starts, i);
  }

  lemma SameCut(mem: seq<Word>, starts: seq<nat>, p: nat, e: nat)
    requires Tiles(starts) && Alloc(mem, starts, p, e)
    ensures CutAllocs(mem, starts, mem, starts, p, e)
  {
    forall f: nat | Alloc(mem, starts, p, f)
      ensures f == e
    {
      AllocsDisjoint(mem, starts, p, e, p, f);
    }
  }

  /** Data words are neither heads nor used flags. */
  lemma StoreOk(mem: seq<Word>, starts: seq<nat>, lfree: nat, p: nat, e: nat, w: nat, v: Word)
    requires HeapOk(mem, starts, lfree) && Alloc(mem, starts, p, e) && p <= w < e <= MEM_WORDS
    ensures HeapOk(mem[w := v], starts, lfree)
    ensures SameAllocs(mem, starts, mem[w := v], starts)
  {
    AllocsDisjoint(mem, starts, p, e, p, e);
    hide Alloc, HeapOk;
    ClearOk(mem, starts, lfree, w, v);
  }

  lemma ClearOk(mem: seq<Word>, starts: seq<nat>, lfree: nat, w: nat, v: Word)
    requires HeapOk(mem, starts, lfree) && w < MEM_WORDS
    requires forall k :: 0 <= k < |starts| ==> starts[k] + HEADER <= w || w < starts[k]
    ensures HeapOk(mem[w := v], starts, lfree)
    ensures SameAllocs(mem, starts, mem[w := v], starts)
  {
    var mem' := mem[w := v];
    forall k | 0 <= k < |starts|
      ensures IsFree(mem', starts[k]) == IsFree(mem, starts[k])
    {
    }
    forall k | 0 <= k < |starts| - 1
      ensures HeadAt(mem', starts, k)
    {
      assert HeadAt(mem, starts, k);
    }
    forall k | 0 <= k < |starts| - 2
      ensures !BothFree(mem', starts, k)
    {
      assert !BothFree(mem, starts, k);
    }
    SameFlags(mem, mem', starts);
  }

  lemma SameFlags(mem: seq<Word>, mem': seq<Word>, starts: seq<nat>)
    requires forall k :: 0 <= k < |starts| ==> IsFree(mem', starts[k]) == IsFree(mem, starts[k])
    ensures SameAllocs(mem, starts, mem', starts)
  {
    forall q: nat, f: nat
      ensures Alloc(mem', starts, q, f) <==> Alloc(mem, starts, q, f)
    {
      if Alloc(mem', starts, q, f) {
        var k :| 0 <= k < |starts| - 1 && AllocAt(mem', starts, k, q, f);
        assert AllocAt(mem, starts, k, q, f);
      }
      if Alloc(mem, starts, q, f) {
        var k :| 0 <= k < |starts| - 1 && AllocAt(mem, starts, k, q, f);
        assert AllocAt(mem', starts, k, q, f);
      }
    }
  }

  // ----- the heap ------------------------------------------------------------------------

  class Heap {
    const ram: array<Word>
    var lfree: nat
    ghost var starts: seq<nat>

    ghost predicate Valid()
      reads this, ram
    {
      HeapOk(ram[..], starts, lfree)
    }

    /** p is what mem_malloc returned for a live allocation that ends at e. */
    ghost predicate Live(p: nat, e: nat)
      reads this, ram
    {
      Alloc(ram[..], starts, p, e)
    }

    /** Once every allocation is freed, in whatever order, the heap is one free block. */
    lemma NothingLeaks()
      requires Valid() && forall p, e :: !Live(p, e)
      ensures starts == [0, MEM_WORDS] && lfree == 0
    {
      forall i | 0 <= i < |starts| - 1
        ensures IsFree(ram[..], starts[i])
      {
        assert !Live(starts[i] + HEADER, starts[i + 1]);
        assert !AllocAt(ram[..], starts, i, starts[i] + HEADER, starts[i + 1]);
      }
      assert |starts| > 2 ==> !BothFree(ram[..], starts, 0);
    }

    /** mem_init. */
    constructor ()
      ensures Valid() && fresh(ram)
      ensures forall p, e :: !Live(p, e)
      ensures starts == [0, MEM_WORDS]
    {
      ram := new Word[MEM_WORDS + HEADER](_ => Raw(0));
      lfree := 0;
      starts := [0, MEM_WORDS];
      new;
      ram[0] := Links(MEM_WORDS, 0);
      ram[1] := Flag(false);
      ram[MEM_WORDS] := Links(MEM_WORDS, MEM_WORDS);
      ram[MEM_WORDS + 1] := Flag(true);
      assert HeadAt(ram[..], starts, 0);
    }

    /** One merge of plug_holes: free block i takes in free block i + 1.  The headers
        describe the coarser tiling; allocations and their data stay. */
    method Absorb(mem: nat, nmem: nat, ghost i: nat, ghost at: nat)
      requires Shaped(ram[..], starts) && Lowest(ram[..], starts, lfree)
      requires i + 2 < |starts| && BothFree(ram[..], starts, i)
      requires CoalescedBut(ram[..], starts, at) && (at == i || at == i + 1)
      requires at == i + 1 && at + 2 < |starts| ==> !BothFree(ram[..], starts, at)
      requires starts[i] == mem && starts[i + 1] == nmem
      modifies ram, `starts
      ensures starts == RemoveAt(old(starts), i + 1)
      ensures Shaped(ram[..], starts) && Lowest(ram[..], starts, lfree)
      ensures CoalescedBut(ram[..], starts, i) && IsFree(ram[..], mem)
      ensures i + 2 < |starts| ==> !BothFree(ram[..], starts, i)
      ensures at == i + 1 ==> Coalesced(ram[..], starts)
      ensures SameAllocs(old(ram[..]), old(starts), ram[..], starts)
      ensures DataKept(old(ram[..]), old(starts), ram[..])
    {
      AbsorbShaped(ram[..], starts, i);
      AbsorbLowest(ram[..], starts, lfree, i);
      AbsorbAllocs(ram[..], starts, i);
      AbsorbCoalesced(ram[..], starts, i, at);
      AbsorbKeeps(ram[..], starts, i, i);
      AbsorbData(ram[..], starts, i);
      assert HeadAt(ram[..], starts, i) && HeadAt(ram[..], starts, i + 1);
      ghost var before := ram[..];
      var far := ram[nmem].next;
      ram[mem] := WithNext(ram[mem], far);
      ram[far] := WithPrev(ram[far], mem);
      assert ram[..] == Absorbed(before, mem, far);
      starts := RemoveAt(starts, i + 1);
    }

    /** plug_holes: block i was just freed. */
    method PlugHoles(mem: nat, ghost i: nat)
      requires Shaped(ram[..], starts) && Lowest(ram[..], starts, lfree)
      requires i + 1 < |starts| && starts[i] == mem && IsFree(ram[..], mem)
      requires CoalescedBut(ram[..], starts, i)
      modifies this, ram
      ensures Valid()
      ensures SameAllocs(old(ram[..]), old(starts), ram[..], starts)
      ensures DataKept(old(ram[..]), old(starts), ram[..])
    {
      hide Alloc, DataKept, Shaped, Lowest, CoalescedBut, Coalesced;
      PlugForward(mem, i);
      ghost var mem1, starts1 := ram[..], starts;
      PlugBackward(mem, i);
      DataKeptTwice(old(ram[..]), old(starts), mem1, starts1, ram[..]);
    }

    method PlugForward(mem: nat, ghost i: nat)
      requires Shaped(ram[..], starts) && Lowest(ram[..], starts, lfree)
      requires i + 1 < |starts| && starts[i] == mem && IsFree(ram[..], mem)
      requires CoalescedBut(ram[..], starts, i)
      modifies this, ram
      ensures Shaped(ram[..], starts) && Lowest(ram[..], starts, lfree)
      ensures i + 1 < |starts| && starts[i] == mem && IsFree(ram[..], mem)
      ensures CoalescedBut(ram[..], starts, i)
      ensures i + 2 < |starts| ==> !BothFree(ram[..], starts, i)
      ensures SameAllocs(old(ram[..]), old(starts), ram[..], starts)
      ensures DataKept(old(ram[..]), old(starts), ram[..])
    {
      assert HeadAt(ram[..], starts, i);
      StartsDistinct(starts, i + 1, |starts| - 1);
      var nmem := ram[mem].next;
      if nmem != MEM_WORDS {
        assert HeadAt(ram[..], starts, i + 1);
        AbsorbShaped(ram[..], starts, i);
      }
      if mem != nmem && ram[nmem + 1] == Flag(false) && nmem != MEM_WORDS {
        AbsorbLowest(ram[..], starts, lfree, i);
        // the source would lower lfree from nmem here; it is never there, as lfree <= mem
        assert lfree != nmem;
        Absorb(mem, nmem, i, i);
      }
    }

    method PlugBackward(mem: nat, ghost i: nat)
      requires Shaped(ram[..], starts) && Lowest(ram[..], starts, lfree)
      requires i + 1 < |starts| && starts[i] == mem && IsFree(ram[..], mem)
      requires CoalescedBut(ram[..], starts, i)
      requires i + 2 < |starts| ==> !BothFree(ram[..], starts, i)
      modifies this, ram
      ensures Valid()
      ensures SameAllocs(old(ram[..]), old(starts), ram[..], starts)
      ensures DataKept(old(ram[..]), old(starts), ram[..])
    {
      assert HeadAt(ram[..], starts, i);
      var pmem := ram[mem].prev;
      if i > 0 {
        assert HeadAt(ram[..], starts, i - 1);
        StartsDistinct(starts, i - 1, i);
        AbsorbShaped(ram[..], starts, i - 1);
      }
      if pmem != mem && ram[pmem + 1] == Flag(false) {
        AbsorbLowest(ram[..], starts, lfree, i - 1);
        // likewise for lfree at mem: pmem is lower, and free
        assert lfree != mem;
        Absorb(pmem, mem, i - 1, i);
      } else {
        AlmostCoalesced(ram[..], starts, i);
      }
    }

    /** mem_free.  `rmem` is an offset from the start of the heap; an address outside the heap
        (or NULL) is ignored. */
    method Free(rmem: int)
      requires Valid()
      requires 0 <= rmem < MEM_WORDS ==> exists e: nat :: Live(rmem, e)
      modifies this, ram
      ensures Valid()
      ensures forall p: nat, e: nat :: Live(p, e) <==> old(Live(p, e)) && p != rmem
      ensures KeptSince(old(ram[..]), old(starts))
    {
      if rmem < 0 || rmem >= MEM_WORDS {
        KeptRefl(ram[..], starts);
        AllocsInside(ram[..], starts);
        return;
      }
      ghost var e: nat :| Live(rmem, e);
      ghost var i :| 0 <= i < |starts| - 1 && AllocAt(ram[..], starts, i, rmem, e);
      ghost var before := ram[..];
      var mem := rmem - HEADER;
      assert HeadAt(ram[..], starts, i);
      FreeMark(ram[..], starts, lfree, i);
      ram[mem + 1] := Flag(false);
      assert ram[..] == before[mem + 1 := Flag(false)];
      if mem < lfree {
        // lfree is to stay the lowest free header
        lfree := mem;
      }
      ghost var marked := ram[..];
      PlugHoles(mem, i);
      FreeKept(before, old(starts), i, marked, ram[..], starts);
    }

    /** The owner of an allocation may write any of its words: no header is there. */
    method Store(p: nat, ghost e: nat, w: nat, bits: nat)
      requires Valid() && Live(p, e) && p <= w < e
      modifies ram
      ensures Valid()
      ensures forall q: nat, f: nat :: Live(q, f) <==> old(Live(q, f))
      ensures forall k :: 0 <= k < ram.Length ==> ram[k] == if k == w then Raw(bits) else old(ram[k])
    {
      AllocsDisjoint(ram[..], starts, p, e, p, e);
      StoreOk(ram[..], starts, lfree, p, e, w, Raw(bits));
      ghost var before := ram[..];
      ram[w] := Raw(bits);
      assert ram[..] == before[w := Raw(bits)];
    }

    /** mem_malloc, for a request of `size` bytes (mem_size_t is 16 bits).  NULL only if
        nothing fits; otherwise the lowest free block that fits, cut if the rest can stand
        alone. */
    method Malloc(size: nat) returns (r: Option<nat>)
      requires Valid() && size <= 0xffff
      modifies this, ram
      ensures Valid()
      ensures r.None? <==> size == 0 || NoRoom(old(ram[..]), old(starts), Demand(size))
      ensures r.None? ==> unchanged(this, ram)
      ensures r.Some? ==> exists e: nat, k: nat ::
        && Placed(old(ram[..]), old(starts), Demand(size), k, r.value, e)
        && CutAllocs(old(ram[..]), old(starts), ram[..], starts, r.value, e)
        && Snug(Demand(size), r.value, e) && RestFree(ram[..], starts, e, old(starts)[k + 1])
      ensures KeptSince(old(ram[..]), old(starts))
    {
      r := None;
      KeptRefl(ram[..], starts);
      WhetherFits(ram[..], starts, Demand(size));
      if size == 0 {
        return;
      }
      var n := Max(RoundedWords(size), MIN_WORDS);
      if n > MEM_WORDS {
        NothingFits(ram[..], starts, n);
        return;
      }
      ghost var i;
      r, i := Scan(n);
      if r.Some? {
        assert Fits(ram[..], starts, Demand(size), i);
        ghost var e := Take(r.value, n, i);
        assert Placed(old(ram[..]), old(starts), n, i, r.value + HEADER, e);
        r := Some(r.value + HEADER);
      }
    }

    /** The scan of mem_malloc: from the lowest free block, stopping early near the end; it
        finds the lowest block that fits, or there is none. */
    method Scan(n: nat) returns (r: Option<nat>, ghost i: nat)
      requires Valid() && n <= MEM_WORDS
      ensures r.Some? ==> Fits(ram[..], starts, n, i) && starts[i] == r.value
      ensures r.Some? ==> forall k :: 0 <= k < i ==> !Fits(ram[..], starts, n, k)
      ensures r.None? ==> forall k :: !Fits(ram[..], starts, n, k)
    {
      i :| i < |starts| && starts[i] == lfree;
      forall k | 0 <= k < i
        ensures !IsFree(ram[..], starts[k])
      {
        StartsDistinct(starts, k, i);
      }
      var ptr := lfree;
      while ptr < MEM_WORDS - n
        invariant i < |starts| && starts[i] == ptr
        invariant forall k :: 0 <= k < i ==> !Fits(ram[..], starts, n, k)
        decreases MEM_WORDS - ptr
      {
        StartsDistinct(starts, i, |starts| - 1);
        assert HeadAt(ram[..], starts, i) && Roomy(starts, i);
        var next := ram[ptr].next;
        if ram[ptr + 1] == Flag(false) && next >= ptr + HEADER + n {
          return Some(ptr), i;
        }
        ptr := next;
        i := i + 1;
      }
      NoneFitsFrom(ram[..], starts, n, i);
      r := None;
    }

    /** The allocation part of mem_malloc: block i is free and large enough. */
    method Take(mem: nat, n: nat, ghost i: nat) returns (ghost e: nat)
      requires Valid() && n >= MIN_WORDS
      requires Fits(ram[..], starts, n, i) && starts[i] == mem
      modifies this, ram
      ensures Valid()
      ensures e == CutEnd(old(starts[i]), old(starts[i + 1]), n)
      ensures CutAllocs(old(ram[..]), old(starts), ram[..], starts, mem + HEADER, e)
      ensures Snug(n, mem + HEADER, e) && RestFree(ram[..], starts, e, old(starts[i + 1]))
      ensures KeptSince(old(ram[..]), old(starts))
    {
      hide Split, CutAllocs, Kept, RestFree;
      ghost var before := ram[..];
      assert lfree <= mem;
      AtMostEnd(starts, i + 1);
      assert HeadAt(ram[..], starts, i);
      var next := ram[mem].next;
      if next >= mem + HEADER + n + HEADER + MIN_WORDS {
        // the rest is large enough for a header and a block of its own
        var ptr2 := mem + HEADER + n;
        e := ptr2;
        FollowedByUsed(ram[..], starts, i);
        CutUsed(ram[..], starts, lfree, i, ptr2);
        NewHeader(mem, ptr2, next);
        ghost var cut := ram[..];
        ram[mem + 1] := Flag(true);
        assert ram[..] == cut[mem + 1 := Flag(true)];
        RestIsFree(before, starts, i, ptr2);
        starts := InsertAt(starts, i + 1, ptr2);
      } else {
        NoRest(before[mem + 1 := Flag(true)], starts, next);
        // the rest would be too small: the whole block is handed out
        e := next;
        TakeWhole(ram[..], starts, lfree, i);
        ram[mem + 1] := Flag(true);
        assert ram[..] == before[mem + 1 := Flag(true)];
      }
      if mem == lfree {
        AdvanceLfree(i);
      }
    }

    /** A free struct mem at ptr2, linked between the ones at mem and next. */
    method NewHeader(mem: nat, ptr2: nat, next: nat)
      requires mem < ptr2 < next < ram.Length
      modifies ram
      ensures ram[..] == Split(old(ram[..]), mem, ptr2, next)
    {
      ghost var before := ram[..];
      ram[ptr2] := Links(next, mem);
      ram[ptr2 + 1] := Flag(false);
      ram[mem] := WithNext(ram[mem], ptr2);
      if next != MEM_WORDS {
        ram[next] := WithPrev(ram[next], ptr2);
      }
      assert ram[..] == Split(before, mem, ptr2, next);
    }

    /** lfree was taken: it moves on to the next block that is free, or to the end. */
    method AdvanceLfree(ghost i: nat)
      requires Shaped(ram[..], starts) && Coalesced(ram[..], starts)
      requires NoFreeBelow(ram[..], starts, lfree)
      requires i < |starts| && starts[i] == lfree
      modifies `lfree
      ensures Valid()
    {
      ghost var j: nat := i;
      var cur := lfree;
      AtMostEnd(starts, j);
      while ram[cur + 1] == Flag(true) && cur != MEM_WORDS
        invariant j < |starts| && starts[j] == cur <= MEM_WORDS
        invariant NoFreeBelow(ram[..], starts, cur)
        decreases MEM_WORDS - cur
      {
        StartsDistinct(starts, j, |starts| - 1);
        assert HeadAt(ram[..], starts, j) && Roomy(starts, j);
        AtMostEnd(starts, j + 1);
        forall k | 0 <= k < |starts| && starts[k] < starts[j + 1]
          ensures !IsFree(ram[..], starts[k])
        {
          StartsDistinct(starts, k, j);
          StartsDistinct(starts, k, j + 1);
        }
        cur := ram[cur].next;
        j := j + 1;
      }
      StartsDistinct(starts, j, |starts| - 1);
      if j < |starts| - 1 {
        assert HeadAt(ram[..], starts, j);
      }
      lfree := cur;
    }

    /** mem_trim: shrink the allocation at `rmem` to `newsize` bytes, in place.  NULL if that
        would be growing; the address otherwise. */
    method Trim(rmem: nat, newsize: nat) returns (r: Option<nat>)
      requires Valid() && newsize <= 0xffff
      requires rmem < MEM_WORDS ==> exists e: nat :: Live(rmem, e)
      modifies this, ram
      ensures Valid()
      ensures Demand(newsize) > MEM_WORDS ==> r == None && unchanged(this, ram)
      ensures rmem >= MEM_WORDS && Demand(newsize) <= MEM_WORDS ==> r == Some(rmem) && unchanged(this, ram)
      ensures rmem < MEM_WORDS && Demand(newsize) <= MEM_WORDS ==>
        exists e: nat {:trigger old(Live(rmem, e))} :: old(Live(rmem, e)) &&
          (e < rmem + Demand(newsize) ==> r == None && unchanged(this, ram)) &&
          (e >= rmem + Demand(newsize) ==>
             (r == Some(rmem) && exists f: nat, g: nat ::
                && TrimEnd(old(ram[..]), rmem, e, Demand(newsize), f)
                && CutAllocs(old(ram[..]), old(starts), ram[..], starts, rmem, f)
                && Snug(Demand(newsize), rmem, f) && e <= g && RestFree(ram[..], starts, f, g)))
      ensures KeptSince(old(ram[..]), old(starts))
    {
      KeptRefl(ram[..], starts);
      var n := Max(RoundedWords(newsize), MIN_WORDS);
      if n > MEM_WORDS {
        return None;
      }
      if rmem >= MEM_WORDS {
        return Some(rmem);
      }
      ghost var e: nat :| Live(rmem, e);
      ghost var i :| 0 <= i < |starts| - 1 && AllocAt(ram[..], starts, i, rmem, e);
      assert HeadAt(ram[..], starts, i) && Roomy(starts, i);
      var mem := rmem - HEADER;
      var size := ram[mem].next - mem - HEADER;
      assert old(Live(rmem, e));
      if n > size {
        return None;
      }
      r := Some(rmem);
      if n == size {
        SameCut(ram[..], starts, rmem, e);
        assert TrimEnd(old(ram[..]), rmem, e, n, e) && Snug(n, rmem, e) && RestFree(ram[..], starts, e, e);
        return;
      }
      ghost var f, g := Shrink(mem, n, size, i);
    }

    /** The relinking part of mem_trim. */
    method Shrink(mem: nat, n: nat, size: nat, ghost i: nat) returns (ghost f: nat, ghost g: nat)
      requires Valid() && i + 1 < |starts| && starts[i] == mem && !IsFree(ram[..], mem)
      requires starts[i + 1] == mem + HEADER + size && MIN_WORDS <= n < size
      modifies this, ram
      ensures Valid()
      ensures TrimEnd(old(ram[..]), mem + HEADER, old(starts[i + 1]), n, f)
      ensures CutAllocs(old(ram[..]), old(starts), ram[..], starts, mem + HEADER, f)
      ensures Snug(n, mem + HEADER, f) && old(starts[i + 1]) <= g && RestFree(ram[..], starts, f, g)
      ensures KeptSince(old(ram[..]), old(starts))
    {
      hide Split, CutAllocs, Kept, RestFree;
      ghost var before := ram[..];
      AtMostEnd(starts, i + 1);
      assert HeadAt(ram[..], starts, i);
      var mem2 := ram[mem].next;
      var ptr2 := mem + HEADER + n;
      if ram[mem2 + 1] == Flag(false) {
        // the free neighbour behind grows at its front
        assert i + 2 < |starts|;
        assert HeadAt(ram[..], starts, i + 1);
        var next := ram[mem2].next;
        f, g := ptr2, next;
        MoveOk(ram[..], starts, lfree, i, ptr2);
        if lfree == mem2 {
          lfree := ptr2;
        }
        NewHeader(mem, ptr2, next);
        MovedIsFree(before, starts, i, ptr2);
        starts := starts[i + 1 := ptr2];
      } else if n + HEADER + MIN_WORDS <= size {
        // the rest becomes a free block in front of the block in use
        f, g := ptr2, mem2;
        StillUsed(ram[..], starts, i);
        CutUsed(ram[..], starts, lfree, i, ptr2);
        if ptr2 < lfree {
          lfree := ptr2;
        }
        NewHeader(mem, ptr2, mem2);
        SplitKeeps(before, mem, ptr2, mem2, mem + 1);
        assert ram[..][mem + 1 := Flag(true)] == ram[..];
        RestIsFree(before, starts, i, ptr2);
        starts := InsertAt(starts, i + 1, ptr2);
      } else {
        // too small a rest: it stays with the block
        f, g := mem2, mem2;
        NoRest(ram[..], starts, mem2);
        assert AllocAt(ram[..], starts, i, mem + HEADER, mem2);
        SameCut(ram[..], starts, mem + HEADER, mem2);
        KeptRefl(ram[..], starts);
      }
    }

    /** Every allocation that is live now was live then with the same data, as far as it
        reaches now. */
    ghost predicate KeptSince(mem: seq<Word>, starts0: seq<nat>)
      reads this, ram
    {
      Kept(mem, starts0, ram[..], starts)
    }
  }

  /** Clearing the used flag of block i removes its allocation and no other. */
  lemma FreeMark(mem: seq<Word>, starts: seq<nat>, lfree: nat, i: nat)
    requires HeapOk(mem, starts, lfree) && i + 1 < |starts| && !IsFree(mem, starts[i])
    ensures starts[i] + 1 < |mem|
    ensures var mem', lfree' := mem[starts[i] + 1 := Flag(false)], if starts[i] < lfree then starts[i] else lfree;
      && Shaped(mem', starts) && Lowest(mem', starts, lfree') && CoalescedBut(mem', starts, i)
      && IsFree(mem', starts[i])
      && (forall p: nat, e: nat :: Alloc(mem', starts, p, e) <==>
            Alloc(mem, starts, p, e) && p != starts[i] + HEADER)
      && DataKept(mem', starts, mem)
  {
    AtMostEnd(starts, i);
    var mem' := mem[starts[i] + 1 := Flag(false)];
    var lfree' := if starts[i] < lfree then starts[i] else lfree;
    forall k | 0 <= k < |starts|
      ensures k < |starts| - 1 ==> HeadAt(mem', starts, k)
      ensures k != i ==> IsFree(mem', starts[k]) == IsFree(mem, starts[k])
    {
      StartsDistinct(starts, k, i);
      if k < |starts| - 1 {
        assert HeadAt(mem, starts, k);
      }
    }
    forall k | 0 <= k < |starts| - 2 && k != i && k + 1 != i
      ensures !BothFree(mem', starts, k)
    {
      assert !BothFree(mem, starts, k);
    }
    FreeMarkAllocs(mem, starts, i);
  }

  lemma FreeMarkAllocs(mem: seq<Word>, starts: seq<nat>, i: nat)
    requires Shaped(mem, starts) && i + 1 < |starts| && !IsFree(mem, starts[i])
    requires starts[i] + 1 < |mem|
    ensures var mem' := mem[starts[i] + 1 := Flag(false)];
      && (forall p: nat, e: nat :: Alloc(mem', starts, p, e) <==>
            Alloc(mem, starts, p, e) && p != starts[i] + HEADER)
      && DataKept(mem', starts, mem)
  {
    var mem' := mem[starts[i] + 1 := Flag(false)];
    forall p: nat, e: nat
      ensures Alloc(mem', starts, p, e) <==> Alloc(mem, starts, p, e) && p != starts[i] + HEADER
    {
      if Alloc(mem', starts, p, e) {
        var k :| 0 <= k < |starts| - 1 && AllocAt(mem', starts, k, p, e);
        StartsDistinct(starts, k, i);
        assert AllocAt(mem, starts, k, p, e);
      }
      if Alloc(mem, starts, p, e) && p != starts[i] + HEADER {
        var k :| 0 <= k < |starts| - 1 && AllocAt(mem, starts, k, p, e);
        StartsDistinct(starts, k, i);
        assert AllocAt(mem', starts, k, p, e);
      }
    }
    forall p: nat, e: nat, w: nat | Alloc(mem', starts, p, e) && p <= w < e && w < |mem|
      ensures mem[w] == mem'[w]
    {
      AllocsDisjoint(mem', starts, p, e, p, e);
    }
  }

  lemma AllocsInside(mem: seq<Word>, starts: seq<nat>)
    requires Tiles(starts)
    ensures forall p: nat, e: nat :: Alloc(mem, starts, p, e) ==> p < MEM_WORDS
  {
    forall p: nat, e: nat | Alloc(mem, starts, p, e)
      ensures p < MEM_WORDS
    {
      AllocsDisjoint(mem, starts, p, e, p, e);
    }
  }

  lemma FreeKept(mem: seq<Word>, starts: seq<nat>, i: nat, marked: seq<Word>, mem': seq<Word>, starts': seq<nat>)
    requires DataKept(marked, starts, mem) && DataKept(marked, starts, mem')
    requires SameAllocs(marked, starts, mem', starts')
    requires Tiles(starts')
    requires forall p: nat, e: nat :: Alloc(marked, starts, p, e) ==> Alloc(mem, starts, p, e)
    ensures Kept(mem, starts, mem', starts')
  {
    forall p: nat, e: nat, f: nat, w: nat
      | Alloc(mem, starts, p, e) && Alloc(mem', starts', p, f) && p <= w < e && w < f && w < |mem|
      ensures mem'[w] == mem[w]
    {
      assert Alloc(marked, starts, p, f);
    }
  }

  lemma AlmostCoalesced(mem: seq<Word>, starts: seq<nat>, i: nat)
    requires CoalescedBut(mem, starts, i) && i + 1 < |starts|
    requires i + 2 < |starts| ==> !BothFree(mem, starts, i)
    requires i > 0 ==> !BothFree(mem, starts, i - 1)
    ensures Coalesced(mem, starts)
  {
  }
}
