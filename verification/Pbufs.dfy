/** Packet buffers (pbuf.c): reference-counted segments linked into chains, each chain denoting
    one string of octets.  Memory maps addresses to the pbufs that are allocated; `chain` is a
    ghost map from each pbuf to the addresses from it to the end of its chain, `handles` counts
    the references held outside of the pbufs. */
module Pbufs {
  import opened Options
  import opened TcpWindow

  /** `data` is the visible payload; `len` is its length. */
  datatype Pbuf = Pbuf(next: Option<nat>, data: seq<Octet>, totLen: nat, ref: nat)

  type Memory = map<nat, Pbuf>
  type Chains = map<nat, seq<nat>>

  // ----- chains and their contents ---------------------------------------------------------

  predicate Linked(mem: Memory, chain: Chains, p: nat)
    requires p in mem
  {
    && p in chain
    && match mem[p].next
       case None => chain[p] == [p]
       case Some(q) => q in mem && q in chain && chain[p] == [p] + chain[q]
  }

  predicate Chained(mem: Memory, chain: Chains) {
    chain.Keys == mem.Keys && forall p {:trigger Linked(mem, chain, p)} :: p in mem ==> Linked(mem, chain, p)
  }

  predicate Live(mem: Memory, c: seq<nat>) {
    forall i :: 0 <= i < |c| ==> c[i] in mem
  }

  function Flat(mem: Memory, c: seq<nat>): seq<Octet>
    requires Live(mem, c)
  {
    if c == [] then [] else mem[c[0]].data + Flat(mem, c[1..])
  }

  /** The octets of the chain that begins at p. */
  ghost function Content(mem: Memory, chain: Chains, p: nat): seq<Octet>
    requires Chained(mem, chain) && p in mem
  {
    ChainAt(mem, chain, p, 0);
    Flat(mem, chain[p])
  }

  /** The chain of the i-th pbuf of a chain is the rest of that chain. */
  lemma {:induction false} ChainAt(mem: Memory, chain: Chains, p: nat, i: nat)
    requires Chained(mem, chain) && p in mem
    ensures Live(mem, chain[p]) && |chain[p]| > 0 && chain[p][0] == p
    ensures i < |chain[p]| ==> chain[chain[p][i]] == chain[p][i..]
    ensures i < |chain[p]| ==>
      mem[chain[p][i]].next == if i + 1 < |chain[p]| then Some(chain[p][i + 1]) else None
    decreases |if p in chain then chain[p] else []|
  {
    assert Linked(mem, chain, p);
    var c := chain[p];
    if mem[p].next.Some? {
      var q := mem[p].next.value;
      ChainAt(mem, chain, q, if i > 0 then i - 1 else 0);
      assert c[1..] == chain[q];
      forall j | 0 <= j < |c|
        ensures c[j] in mem
      {
        assert j > 0 ==> c[j] == chain[q][j - 1];
      }
      if 0 < i < |c| {
        assert c[i] == chain[q][i - 1] && c[i..] == chain[q][i - 1..];
      }
    }
  }

  lemma ChainDistinct(mem: Memory, chain: Chains, p: nat, i: nat, j: nat)
    requires Chained(mem, chain) && p in mem && i < |chain[p]| && j < |chain[p]|
    ensures chain[p][i] == chain[p][j] <==> i == j
  {
    ChainAt(mem, chain, p, i);
    ChainAt(mem, chain, p, j);
    assert |chain[p][i..]| == |chain[p]| - i && |chain[p][j..]| == |chain[p]| - j;
  }

  lemma ChainFresh(mem: Memory, chain: Chains, p: nat, i: nat)
    requires Chained(mem, chain) && p in mem && i < |chain[p]|
    ensures chain[p][i] !in chain[p][..i] && chain[p][i] !in chain[p][i + 1..]
  {
    forall j | 0 <= j < |chain[p]| && j != i
      ensures chain[p][j] != chain[p][i]
    {
      ChainDistinct(mem, chain, p, i, j);
    }
  }

  lemma LiveAppend(mem: Memory, a: seq<nat>, b: seq<nat>)
    ensures Live(mem, a + b) <==> Live(mem, a) && Live(mem, b)
  {
    assert forall i :: 0 <= i < |a| ==> a[i] == (a + b)[i];
    assert forall i :: 0 <= i < |b| ==> b[i] == (a + b)[|a| + i];
  }

  lemma {:induction false} FlatAppend(mem: Memory, a: seq<nat>, b: seq<nat>)
    requires Live(mem, a) && Live(mem, b)
    ensures Live(mem, a + b) && Flat(mem, a + b) == Flat(mem, a) + Flat(mem, b)
  {
    LiveAppend(mem, a, b);
    if a == [] {
      assert a + b == b;
    } else {
      assert (a + b)[1..] == a[1..] + b && a == [a[0]] + a[1..];
      LiveAppend(mem, [a[0]], a[1..]);
      hide Live;
      FlatAppend(mem, a[1..], b);
    }
  }

  /** Cutting a chain's contents at the i-th pbuf. */
  lemma FlatAt(mem: Memory, c: seq<nat>, i: nat)
    requires Live(mem, c) && i < |c|
    ensures c[i] in mem && Live(mem, c[..i]) && Live(mem, c[i + 1..]) && Live(mem, c[i..])
    ensures Flat(mem, c) == Flat(mem, c[..i]) + mem[c[i]].data + Flat(mem, c[i + 1..])
    ensures Flat(mem, c[i..]) == mem[c[i]].data + Flat(mem, c[i + 1..])
    ensures Live(mem, c[..i + 1]) && Flat(mem, c[..i + 1]) == Flat(mem, c[..i]) + mem[c[i]].data
  {
    hide Live, Flat;
    FlatOne(mem, c[i]);
    SplitAt(c, i);
    LiveAppend(mem, c[..i], c[i..]);
    LiveAppend(mem, [c[i]], c[i + 1..]);
    FlatAppend(mem, [c[i]], c[i + 1..]);
    FlatAppend(mem, c[..i], c[i..]);
    FlatAppend(mem, c[..i], [c[i]]);
  }

  lemma SplitAt(c: seq<nat>, i: nat)
    requires i < |c|
    ensures c == c[..i] + c[i..] && c[..i + 1] == c[..i] + [c[i]]
    ensures c[i..] == [c[i]] + c[i + 1..]
  {
    assert |c[i..]| == |[c[i]] + c[i + 1..]|;
    forall k | 0 <= k < |c| - i
      ensures c[i..][k] == ([c[i]] + c[i + 1..])[k]
    {
      assert k > 0 ==> ([c[i]] + c[i + 1..])[k] == c[i + 1..][k - 1];
    }
  }

  lemma FlatOne(mem: Memory, x: nat)
    ensures Live(mem, [x]) <==> x in mem
    ensures x in mem ==> Flat(mem, [x]) == mem[x].data
  {
    assert Live(mem, [x]) ==> [x][0] in mem;
    assert x in mem ==> Flat(mem, [x]) == mem[x].data + [];
  }

  lemma {:induction false} FlatSame(mem: Memory, mem': Memory, c: seq<nat>)
    requires Live(mem, c) && Live(mem', c)
    requires forall i :: 0 <= i < |c| ==> mem[c[i]].data == mem'[c[i]].data
    ensures Flat(mem, c) == Flat(mem', c)
  {
    if c != [] {
      FlatSame(mem, mem', c[1..]);
    }
  }

  // ----- the invariant ---------------------------------------------------------------------

  /** tot_len counts the octets from here to the end of the chain. */
  predicate TotOk(mem: Memory, p: nat)
    requires p in mem
  {
    && mem[p].totLen <= 0xffff
    && match mem[p].next
       case None => mem[p].totLen == |mem[p].data|
       case Some(q) => q in mem && mem[p].totLen == |mem[p].data| + mem[q].totLen
  }

  predicate Tots(mem: Memory) {
    forall p {:trigger TotOk(mem, p)} :: p in mem ==> TotOk(mem, p)
  }

  lemma {:induction false} TotCounts(mem: Memory, chain: Chains, p: nat)
    requires Chained(mem, chain) && Tots(mem) && p in mem
    ensures mem[p].totLen == |Content(mem, chain, p)|
    decreases |if p in chain then chain[p] else []|
  {
    assert Linked(mem, chain, p) && TotOk(mem, p);
    ChainAt(mem, chain, p, 0);
    if mem[p].next.Some? {
      TotCounts(mem, chain, mem[p].next.value);
      assert chain[p][1..] == chain[mem[p].next.value];
    } else {
      assert chain[p][1..] == [];
      assert Flat(mem, chain[p]) == mem[p].data + [];
    }
  }

  /** The pbufs whose next pointer is p. */
  function Preds(mem: Memory, p: nat): set<nat> {
    set q | q in mem && mem[q].next == Some(p)
  }

  /** The reference count is the number of references; one more of p is about to be dropped. */
  predicate RefOk(mem: Memory, handles: multiset<nat>, extra: Option<nat>, p: nat)
    requires p in mem
  {
    && mem[p].ref == handles[p] + |Preds(mem, p)| + (if extra == Some(p) then 1 else 0)
    && 0 < mem[p].ref <= 0xffff
  }

  predicate Refs(mem: Memory, handles: multiset<nat>, extra: Option<nat>) {
    && (forall p {:trigger RefOk(mem, handles, extra, p)} :: p in mem ==> RefOk(mem, handles, extra, p))
    && (forall p :: p in handles ==> p in mem)
    && (extra.Some? ==> extra.value in mem)
  }

  predicate Links(mem: Memory, chain: Chains, handles: multiset<nat>, extra: Option<nat>) {
    Chained(mem, chain) && Refs(mem, handles, extra)
  }

  predicate Good(mem: Memory, chain: Chains, handles: multiset<nat>, extra: Option<nat>) {
    Links(mem, chain, handles, extra) && Tots(mem)
  }

  /** Only pbufs of c link to pbufs of c. */
  predicate Owns(mem: Memory, c: seq<nat>) {
    forall x {:trigger Joins(mem, c, x)} :: x in mem && x !in c ==> !Joins(mem, c, x)
  }

  predicate Joins(mem: Memory, c: seq<nat>, x: nat)
    requires x in mem
  {
    mem[x].next.Some? && mem[x].next.value in c
  }

  lemma {:induction false} StaysOutside(mem: Memory, chain: Chains, c: seq<nat>, x: nat)
    requires Chained(mem, chain) && x in mem && Owns(mem, c) && x !in c
    ensures forall j :: 0 <= j < |chain[x]| ==> chain[x][j] !in c
    decreases |if x in chain then chain[x] else []|
  {
    assert Linked(mem, chain, x) && !Joins(mem, c, x);
    if mem[x].next.Some? {
      StaysOutside(mem, chain, c, mem[x].next.value);
    }
  }

  // ----- freeing -----------------------------------------------------------------------------

  /** What is left when the first k pbufs of chain c are gone and the next one lost a reference. */
  function FreedMem(mem: Memory, c: seq<nat>, k: nat): Memory
    requires k <= |c|
  {
    map x | x in mem && x !in c[..k] ::
      if k < |c| && x == c[k] && mem[x].ref > 0 then mem[x].(ref := mem[x].ref - 1) else mem[x]
  }

  lemma DropFirst(mem: Memory, chain: Chains, handles: multiset<nat>, p: nat)
    requires Links(mem, chain, handles, Some(p)) && mem[p].ref == 1
    ensures Links(mem - {p}, chain - {p}, handles, mem[p].next)
    ensures Tots(mem) ==> Tots(mem - {p})
  {
    var mem', chain' := mem - {p}, chain - {p};
    assert RefOk(mem, handles, Some(p), p) && Linked(mem, chain, p);
    assert Preds(mem, p) == {};
    forall x | x in mem
      ensures mem[x].next != Some(p)
    {
      assert x !in Preds(mem, p);
    }
    forall x | x in mem'
      ensures Linked(mem', chain', x) && RefOk(mem', handles, mem[p].next, x)
      ensures TotOk(mem, x) ==> TotOk(mem', x)
    {
      assert Linked(mem, chain, x) && RefOk(mem, handles, Some(p), x);
      assert Preds(mem', x) == Preds(mem, x) - {p};
      assert p in Preds(mem, x) <==> mem[p].next == Some(x);
    }
  }

  /** Changing the reference counts changes neither links nor totals. */
  lemma Recount(mem: Memory, mem': Memory, chain: Chains)
    requires Chained(mem, chain) && mem'.Keys == mem.Keys
    requires forall x :: x in mem ==> mem'[x] == mem[x].(ref := mem'[x].ref)
    ensures Chained(mem', chain) && (Tots(mem') <==> Tots(mem))
    ensures forall x :: x in mem ==> Preds(mem', x) == Preds(mem, x)
  {
    forall x | x in mem'
      ensures Linked(mem', chain, x) && (TotOk(mem', x) <==> TotOk(mem, x))
    {
      assert Linked(mem, chain, x);
    }
  }

  lemma DropLast(mem: Memory, chain: Chains, handles: multiset<nat>, p: nat)
    requires Links(mem, chain, handles, Some(p)) && mem[p].ref > 1
    ensures Links(mem[p := mem[p].(ref := mem[p].ref - 1)], chain, handles, None)
    ensures Tots(mem) ==> Tots(mem[p := mem[p].(ref := mem[p].ref - 1)])
  {
    var mem' := mem[p := mem[p].(ref := mem[p].ref - 1)];
    Recount(mem, mem', chain);
    forall x | x in mem'
      ensures RefOk(mem', handles, None, x)
    {
      assert RefOk(mem, handles, Some(p), x);
    }
  }

  /** A handle on p is about to be dropped, or becomes a link. */
  lemma GiveUp(mem: Memory, handles: multiset<nat>, p: nat)
    requires Refs(mem, handles, None) && p in handles
    ensures Refs(mem, handles - multiset{p}, Some(p))
  {
    forall x | x in mem
      ensures RefOk(mem, handles - multiset{p}, Some(p), x)
    {
      assert RefOk(mem, handles, None, x);
    }
  }

  /** The first k pbufs of c are those that lose their last reference. */
  predicate IsRun(mem: Memory, c: seq<nat>, k: nat) {
    k <= |c| && Singles(mem, c, k) && (k < |c| ==> c[k] in mem && mem[c[k]].ref > 1)
  }

  predicate Singles(mem: Memory, c: seq<nat>, k: nat)
    requires k <= |c|
  {
    forall j :: 0 <= j < k ==> c[j] in mem && mem[c[j]].ref == 1
  }

  /** pbuf_free of the chain c: the pbufs that lose their last reference are gone, the next
      one has lost a reference, and the 8-bit count says how many are gone. */
  ghost predicate FreedBy(mem: Memory, c: seq<nat>, count: nat, mem': Memory) {
    exists k: nat :: IsRun(mem, c, k) && count == k % 0x100 && mem' == FreedMem(mem, c, k)
  }

  ghost function RunOf(mem: Memory, c: seq<nat>, count: nat, mem': Memory): (k: nat)
    requires FreedBy(mem, c, count, mem')
    ensures k <= |c| && IsRun(mem, c, k) && count == k % 0x100 && mem' == FreedMem(mem, c, k)
  {
    var k: nat :| IsRun(mem, c, k) && count == k % 0x100 && mem' == FreedMem(mem, c, k);
    k
  }

  lemma FreedHow(mem: Memory, c: seq<nat>, k: nat, count: nat, mem': Memory)
    requires k <= |c| && IsRun(mem, c, k) && count == k % 0x100 && mem' == FreedMem(mem, c, k)
    ensures FreedBy(mem, c, count, mem')
  {
  }

  lemma SinglesStep(mem: Memory, c: seq<nat>, k: nat)
    requires k < |c| && Singles(mem, c, k) && c[k] in mem && mem[c[k]].ref == 1
    ensures Singles(mem, c, k + 1)
  {
  }

  lemma RunEnds(mem: Memory, c: seq<nat>, k: nat)
    requires k <= |c| && Singles(mem, c, k) && (k < |c| ==> c[k] in mem)
    ensures IsRun(mem, c, k) <==> k == |c| || mem[c[k]].ref > 1
  {
  }

  /** mem' is what is left of mem after deallocations. */
  predicate Shrunk(mem: Memory, chain: Chains, mem': Memory, chain': Chains) {
    forall x :: x in mem' ==>
      x in mem && x in chain && x in chain' && chain'[x] == chain[x] && mem'[x].data == mem[x].data
  }

  lemma ShrunkStep(mem: Memory, chain: Chains, mem': Memory, chain': Chains, a: nat)
    requires Shrunk(mem, chain, mem', chain') && a in mem'
    ensures Shrunk(mem, chain, mem' - {a}, chain' - {a})
    ensures mem'[a].ref > 0 ==> Shrunk(mem, chain, mem'[a := mem'[a].(ref := mem'[a].ref - 1)], chain')
  {
  }

  lemma ContentKept(mem: Memory, chain: Chains, mem': Memory, chain': Chains, x: nat)
    requires Chained(mem, chain) && Chained(mem', chain') && x in mem && x in mem'
    requires chain'[x] == chain[x]
    requires forall y :: y in mem && y in mem' ==> mem[y].data == mem'[y].data
    ensures Content(mem', chain', x) == Content(mem, chain, x)
  {
    ChainAt(mem, chain, x, 0);
    ChainAt(mem', chain', x, 0);
    FlatSame(mem, mem', chain[x]);
  }

  /** What survives in mem' of mem reads as before. */
  ghost predicate Kept(mem: Memory, chain: Chains, mem': Memory, chain': Chains)
    requires Chained(mem, chain) && Chained(mem', chain')
  {
    forall x :: x in mem' && x in mem ==> Content(mem', chain', x) == Content(mem, chain, x)
  }

  lemma AllKept(mem: Memory, chain: Chains, mem': Memory, chain': Chains)
    requires Chained(mem, chain) && Chained(mem', chain')
    requires Shrunk(mem', chain', mem, chain) || Shrunk(mem, chain, mem', chain')
    ensures Kept(mem, chain, mem', chain')
  {
    forall x | x in mem' && x in mem
      ensures Content(mem', chain', x) == Content(mem, chain, x)
    {
      ContentKept(mem, chain, mem', chain', x);
    }
  }

  lemma Same(mem: Memory, chain: Chains)
    requires Chained(mem, chain)
    ensures Shrunk(mem, chain, mem, chain) && Kept(mem, chain, mem, chain)
  {
  }

  // ----- the heap of pbufs --------------------------------------------------------------------

  const ERR_OK: int := 0
  const ERR_VAL: int := -6
  const ERR_ARG: int := -14

  class PbufHeap {
    var mem: Memory
    ghost var chain: Chains
    ghost var handles: multiset<nat>

    /** Links and reference counts are right. */
    ghost predicate Sound()
      reads this
    {
      Links(mem, chain, handles, None)
    }

    /** The totals are right too. */
    ghost predicate Valid()
      reads this
    {
      Good(mem, chain, handles, None)
    }

    ghost function Text(p: nat): seq<Octet>
      reads this
      requires Chained(mem, chain) && p in mem
    {
      Content(mem, chain, p)
    }

    constructor ()
      ensures Valid() && mem == map[]
    {
      mem, chain, handles := map[], map[], multiset{};
    }

    /** pbuf_alloc of a single pbuf at the address the allocator gives. */
    method Alloc(addr: Option<nat>, data: seq<Octet>)
      requires Sound() && |data| <= 0xffff && (addr.Some? ==> addr.value !in mem)
      modifies this
      ensures Sound() && (Tots(mem) <==> old(Tots(mem)))
      ensures addr.None? ==> unchanged(this)
      ensures addr.Some? ==>
        && mem == old(mem)[addr.value := Pbuf(None, data, |data|, 1)]
        && handles == old(handles) + multiset{addr.value}
        && Text(addr.value) == data
      ensures Kept(old(mem), old(chain), mem, chain)
    {
      hide Chained, Tots, Refs, Content, Flat, Kept;
      if addr.Some? {
        var p := addr.value;
        AllocGood(mem, chain, handles, p, data);
        mem := mem[p := Pbuf(None, data, |data|, 1)];
        chain := chain[p := [p]];
        handles := handles + multiset{p};
      } else {
        Same(mem, chain);
      }
    }

    /** pbuf_ref.  The 16-bit count is right unless it was at its end. */
    method Ref(p: nat)
      requires Sound() && p in mem
      modifies this`mem, this`handles
      ensures handles == old(handles) + multiset{p}
      ensures Sound() <==> old(mem)[p].ref < 0xffff
      ensures Chained(mem, chain) && (Tots(mem) <==> old(Tots(mem)))
      ensures mem == old(mem)[p := old(mem)[p].(ref := (old(mem)[p].ref + 1) % 0x1_0000)]
      ensures Kept(old(mem), chain, mem, chain)
    {
      hide Chained, Tots, Refs, Content, Flat, Kept;
      AddRef(mem, chain, handles, p);
      mem := mem[p := mem[p].(ref := (mem[p].ref + 1) % 0x1_0000)];
      handles := handles + multiset{p};
    }

    /** pbuf_free: the reference to p is given up; pbufs at the head of the chain are
        deallocated while no reference is left.  The count is an 8-bit number. */
    method Free(p: Option<nat>) returns (count: nat)
      requires Links(mem, chain, handles, p)
      modifies this`mem, this`chain
      ensures Sound() && (old(Tots(mem)) ==> Tots(mem))
      ensures p.None? ==> count == 0 && mem == old(mem) && chain == old(chain)
      ensures p.Some? ==> FreedBy(old(mem), old(chain)[p.value], count, mem)
      ensures Shrunk(old(mem), old(chain), mem, chain)
      ensures Kept(old(mem), old(chain), mem, chain)
    {
      hide Shrunk, FreedBy, Freeing, Kept, Content, Flat, Chained, Tots, Refs;
      count := 0;
      if p.None? {
        Same(mem, chain);
        return;
      }
      var q := p;
      ghost var mem0, chain0, i: nat := mem, chain, 0;
      FreeingStart(mem, chain, handles, p.value);
      while q.Some?
        invariant count == i % 0x100 && Freeing(mem0, chain0, p.value, i, mem, chain, handles, q)
        decreases |chain0[p.value]| - i, if q.Some? then 1 else 0
      {
        FreeingAt(mem0, chain0, p.value, i, mem, chain, handles, q);
        var a := q.value;
        var ref := mem[a].ref - 1;
        if ref == 0 {
          FreeingDrop(mem0, chain0, p.value, i, mem, chain, handles, a);
          q := mem[a].next;
          mem := mem - {a};
          chain := chain - {a};
          i := i + 1;
          count := (count + 1) % 0x100;
        } else {
          FreeingStop(mem0, chain0, p.value, i, mem, chain, handles, a);
          mem := mem[a := mem[a].(ref := ref)];
          q := None;
        }
      }
      FreeingEnd(mem0, chain0, p.value, i, mem, chain, handles, count);
    }

    /** pbuf_free by the holder of a handle. */
    method Release(p: nat) returns (count: nat)
      requires Sound() && p in handles
      modifies this
      ensures Sound() && handles == old(handles) - multiset{p} && (old(Tots(mem)) ==> Tots(mem))
      ensures FreedBy(old(mem), old(chain)[p], count, mem)
      ensures Shrunk(old(mem), old(chain), mem, chain)
      ensures Kept(old(mem), old(chain), mem, chain)
    {
      hide Chained, Tots, Refs, Content, Flat, Kept, Live, FreedMem, FreedBy;
      GiveUp(mem, handles, p);
      handles := handles - multiset{p};
      count := Free(Some(p));
    }

    /** pbuf_cat: the caller's reference to t becomes the link from the last pbuf of h.  The
        totals that are updated are those of the chain of h. */
    method Cat(h: nat, t: nat)
      requires Sound() && h in mem && t in handles && CanLink(chain, h, t)
      modifies this
      ensures Sound() && handles == old(handles) - multiset{t}
      ensures t in old(mem) && Last(old(chain)[h]) in old(mem) && mem == CatMem(old(mem), old(chain)[h], t)
      ensures h in mem && chain[h] == old(chain[h] + chain[t]) && Text(h) == old(Text(h) + Text(t))
      ensures Extended(old(mem), old(chain), mem, chain, Last(old(chain)[h]), old(Text(t)))
      ensures old(Tots(mem)) ==> (Tots(mem) <==>
        (Owns(old(mem), old(chain)[h]) || old(mem)[t].totLen == 0) && old(mem)[h].totLen + old(mem)[t].totLen <= 0xffff)
    {
      hide Chained, Tots, Refs, Content, Flat, Live, Raised, Shifted, Rechain, Owns, Extended;
      LinksAt(mem, chain, handles, None);
      HandleAt(mem, handles, t);
      ghost var mem0, c, i: nat := mem, chain[h], 0;
      var d := mem[t].totLen;
      ChainAt(mem0, chain, h, 0);
      RaisedNone(mem0, c, d);
      var p := h;
      while mem[p].next.Some?
        invariant i < |c| && p == c[i] && p in mem0 && mem == Raised(mem0, c, i, d) && p in mem && mem[p] == mem0[p]
        modifies `mem
        decreases |c| - i
      {
        ChainAt(mem0, chain, h, i);
        ChainFresh(mem0, chain, h, i);
        RaisedStep(mem0, c, i, d);
        mem := mem[p := mem[p].(totLen := (mem[p].totLen + d) % 0x1_0000)];
        p := mem[p].next.value;
        i := i + 1;
        ChainFresh(mem0, chain, h, i);
        ChainAt(mem0, chain, h, i);
        RaisedRest(mem0, c, i, d);
      }
      ChainAt(mem0, chain, h, i);
      ChainFresh(mem0, chain, h, i);
      CatGood(mem0, chain, handles, h, t);
      ShiftedIs(mem0, c, i, d, Some(t), mem0[p].data);
      assert c[..i + 1] == c;
      mem := mem[p := mem[p].(totLen := (mem[p].totLen + d) % 0x1_0000)];
      mem := mem[p := mem[p].(next := Some(t))];
      assert mem == CatMem(mem0, c, t);
      if Tots(mem0) {
        CatTotalsExact(mem0, chain, h, t);
      }
      ShiftedRef(mem0, c, d, Some(t), mem0[p].data, h);
      chain := Rechain(chain, p, Some(t));
      handles := handles - multiset{t};
    }

    /** pbuf_chain: as pbuf_cat, but the caller keeps its reference to t. */
    method Chain(h: nat, t: nat)
      requires Sound() && h in mem && t in handles && CanLink(chain, h, t)
      modifies this
      ensures t in old(mem) && (Sound() <==> old(mem)[t].ref < 0xffff) && Chained(mem, chain)
      ensures handles == old(handles) && mem.Keys == old(mem).Keys
      ensures chain[h] == old(chain[h] + chain[t]) && Text(h) == old(Text(h) + Text(t))
      ensures Extended(old(mem), old(chain), mem, chain, Last(old(chain)[h]), old(Text(t)))
      ensures old(Tots(mem)) ==> (Tots(mem) <==>
        (Owns(old(mem), old(chain)[h]) || old(mem)[t].totLen == 0) && old(mem)[h].totLen + old(mem)[t].totLen <= 0xffff)
    {
      hide Chained, Tots, Refs, Content, Flat, Live, Owns, Extended, Shifted, Kept;
      HandleAt(mem, handles, t);
      LinksAt(mem, chain, handles, None);
      Cat(h, t);
      ghost var mem1 := mem;
      ShiftedRef(old(mem), old(chain)[h], old(mem)[t].totLen, Some(t), old(mem)[Last(old(chain)[h])].data, t);
      Ref(t);
      ExtendedKept(old(mem), old(chain), mem1, chain, mem, Last(old(chain)[h]), old(Text(t)));
      KeptUse(mem1, chain, mem, chain, h);
      assert handles == old(handles) - multiset{t} + multiset{t};
    }

    /** pbuf_dechain: the first pbuf is cut from the rest of its chain, which is given up.  The
        8-bit count that pbuf_free returns decides whether the rest is returned. */
    method Dechain(p: nat) returns (r: Option<nat>)
      requires Valid() && p in mem
      modifies this`mem, this`chain
      ensures Sound() && p in mem && chain[p] == [p] && Text(p) == old(mem)[p].data
      ensures mem[p] == old(mem)[p].(next := None, totLen := |old(mem)[p].data|)
      ensures old(mem)[p].next.None? ==> r.None? && mem == old(mem)
      ensures exists k: nat ::
        && TailFreed(old(mem), old(chain), old(mem)[p].next, k, mem)
        && (old(mem)[p].next.Some? ==> r == if k % 0x100 == 0 then old(mem)[p].next else None)
      ensures Shortened(old(mem), old(chain), mem, chain, p, old(mem)[p].totLen - |old(mem)[p].data|)
      ensures RestSame(old(mem), mem, old(chain)[p])
      ensures Tots(mem) <==> Preds(old(mem), p) == {} || old(mem)[p].totLen == |old(mem)[p].data|
    {
      hide Chained, Tots, Refs, Content, Flat, Live, Raised, Shortened, RestSame, TailFreed;
      hide Linked, TotOk, RefOk, Preds, Owns;
      r := None;
      LinksAt(mem, chain, handles, None);
      DechainCut(mem, chain, p);
      ghost var len := |mem[p].data|;
      var next := mem[p].next;
      if next.Some? {
        var q := next.value;
        mem := mem[q := mem[q].(totLen := mem[p].totLen - |mem[p].data|)];
        assert mem == old(mem);
        RaisedNone(mem, chain[p], len - mem[p].totLen);
        var gone, k := CutOff(mem, p, 0, p, |mem[p].data|, len - mem[p].totLen);
        OnlyPbuf(mem, chain, p);
        r := if gone > 0 then None else next;
      } else {
        DechainNone(mem, chain, p);
        EndText(mem, chain, p);
      }
    }

    /** The chain ends with its pbuf q, of which rem octets are left; the pbufs behind it lose
        the reference and are freed or not. */
    method CutOff(ghost mem0: Memory, ghost p: nat, ghost i: nat, q: nat, rem: nat, ghost d: int)
      returns (count: nat, ghost k: nat)
      requires Good(mem0, chain, handles, None) && p in mem0 && i < |chain[p]| && q == chain[p][i]
      requires q in mem0 && rem <= |mem0[q].data| && rem <= 0xffff && mem0[q].totLen + d == rem
      requires mem == Raised(mem0, chain[p], i, d) && q in mem && mem[q] == mem0[q]
      modifies this`mem, this`chain
      ensures Sound() && p in mem && chain[p] == old(chain)[p][..i + 1]
      ensures q in mem && mem[q] == mem0[q].(next := None, data := mem0[q].data[..rem], totLen := rem)
      ensures mem[p].totLen == (mem0[p].totLen + d) % 0x1_0000
      ensures Shortened(mem0, old(chain), mem, chain, q, -d) && RestSame(mem0, mem, old(chain)[p])
      ensures TailFreed(mem0, old(chain), mem0[q].next, k, mem) && count == k % 0x100
      ensures Tots(mem) <==> Owns(mem0, chain[p]) || d == 0
    {
      hide Chained, Tots, Refs, Content, Flat, Live, CutMem, Rechain, FreedMem, FreedBy, Raised;
      hide Kept, IsRun, Shrunk, Shortened, RestSame, Relinked, TailFreed, Linked, TotOk, RefOk, Preds, Owns;
      LinksAt(mem0, chain, handles, None);
      CutGood(mem0, chain, handles, p, i, d, rem);
      ReallocShift(mem0, chain, p, i, d, mem0[q].data[..rem]);
      ghost var chain0, data := chain, mem0[q].data[..rem];
      Fits16(rem);
      mem := mem[q := mem[q].(data := mem[q].data[..rem], totLen := rem)];
      var rest := mem[q].next;
      mem := mem[q := mem[q].(next := None)];
      assert mem == CutMem(mem0, chain[p], i, d, data);
      chain := Rechain(chain0, q, None);
      ghost var mem1, chain1 := mem, chain;
      LinksAt(mem, chain, handles, rest);
      if rest.Some? {
        count := Free(rest);
        k := RunOf(mem1, chain1[rest.value], count, mem);
      } else {
        count, k := 0, 0;
        NoRest(mem1, chain1);
      }
      CutFreed(mem0, chain0, mem1, p, i, d, data, k);
      CutFreedTots(mem0, chain0, mem1, mem, chain, p, i, d, data, k);
      ShortenedKept(mem0, chain0, mem1, chain1, mem, chain, q, -d);
      ShrunkAt(mem1, chain1, mem, chain, p);
    }

    /** pbuf_realloc: the chain of p is shortened to newLen octets; what is behind is given up. */
    method Realloc(p: nat, newLen: nat)
      requires Valid() && p in mem && newLen <= 0xffff
      modifies this`mem, this`chain
      ensures Sound() && p in mem && chain[p] != [] && chain[p] <= old(chain)[p] && Last(chain[p]) in old(mem)
      ensures newLen >= old(mem)[p].totLen ==> mem == old(mem) && chain == old(chain)
      ensures newLen < old(mem)[p].totLen ==>
        && newLen <= |old(Text(p))| && Text(p) == old(Text(p))[..newLen] && mem[p].totLen == newLen
        && Shortened(old(mem), old(chain), mem, chain, Last(chain[p]), old(mem)[p].totLen - newLen)
        && (exists k: nat :: TailFreed(old(mem), old(chain), old(mem)[Last(chain[p])].next, k, mem))
        && (Tots(mem) <==> Owns(old(mem), chain[p]))
      ensures RestSame(old(mem), mem, old(chain)[p])
    {
      hide Chained, Tots, Refs, Content, Flat, Live, Raised, Shortened, RestSame, TailFreed;
      hide Linked, TotOk, RefOk, Preds, Owns;
      LinksAt(mem, chain, handles, None);
      ReallocNone(mem, chain, p);
      if newLen >= mem[p].totLen {
        return;
      }
      ghost var mem0, chain0, c, i: nat := mem, chain, chain[p], 0;
      var grow := newLen - mem[p].totLen;
      var remLen: nat, q := newLen, p;
      ReallocStart(mem, chain, p, grow);
      while remLen > |mem[q].data|
        invariant i < |c| && q == c[i] && q in mem0 && mem == Raised(mem0, c, i, grow) && q in mem && mem[q] == mem0[q]
        invariant Live(mem0, c[..i]) && newLen == |Flat(mem0, c[..i])| + remLen
        modifies `mem
        decreases |c| - i
      {
        ReallocStep(mem0, chain0, p, i, newLen, remLen);
        RaiseNext(mem0, chain0, p, i, grow);
        remLen := remLen - |mem[q].data|;
        mem := mem[q := mem[q].(totLen := (mem[q].totLen + grow) % 0x1_0000)];
        q := mem[q].next.value;
        i := i + 1;
      }
      ReallocCut(mem0, chain0, p, i, newLen, remLen, grow);
      var _, k := CutOff(mem0, p, i, q, remLen, grow);
      ReallocEnd(mem0, chain0, mem, chain, p, i, newLen);
    }
  }

  lemma HandleAt(mem: Memory, handles: multiset<nat>, p: nat)
    requires Refs(mem, handles, None) && p in handles
    ensures p in mem
  {
  }

  /** pbuf_free has deallocated the first i pbufs of the chain of p; q is the next to lose a
      reference. */
  ghost predicate Freeing(mem0: Memory, chain0: Chains, p: nat, i: nat,
                          mem: Memory, chain: Chains, handles: multiset<nat>, q: Option<nat>) {
    && Chained(mem0, chain0) && p in mem0 && i <= |chain0[p]| && Singles(mem0, chain0[p], i)
    && (q.Some? ==> i < |chain0[p]| && q.value == chain0[p][i] && mem == Without(mem0, chain0[p][..i]))
    && (q.None? ==> mem == FreedMem(mem0, chain0[p], i) && IsRun(mem0, chain0[p], i))
    && Links(mem, chain, handles, q) && (Tots(mem0) ==> Tots(mem)) && Shrunk(mem0, chain0, mem, chain)
  }

  lemma FreeingStart(mem: Memory, chain: Chains, handles: multiset<nat>, p: nat)
    requires Links(mem, chain, handles, Some(p))
    ensures p in chain && Freeing(mem, chain, p, 0, mem, chain, handles, Some(p))
  {
    ChainAt(mem, chain, p, 0);
    WithoutNone(mem, chain[p]);
    Same(mem, chain);
  }

  lemma FreeingAt(mem0: Memory, chain0: Chains, p: nat, i: nat,
                  mem: Memory, chain: Chains, handles: multiset<nat>, q: Option<nat>)
    requires Freeing(mem0, chain0, p, i, mem, chain, handles, q)
    ensures p in chain0 && i <= |chain0[p]|
    ensures q.Some? ==> i < |chain0[p]| && q.value in mem && mem[q.value].ref > 0
  {
    LinksAt(mem, chain, handles, q);
  }

  lemma FreeingDrop(mem0: Memory, chain0: Chains, p: nat, i: nat,
                    mem: Memory, chain: Chains, handles: multiset<nat>, a: nat)
    requires Freeing(mem0, chain0, p, i, mem, chain, handles, Some(a)) && a in mem && mem[a].ref == 1
    ensures Freeing(mem0, chain0, p, i + 1, mem - {a}, chain - {a}, handles, mem[a].next)
  {
    hide Shrunk, Live, Linked, Tots, TotOk, Refs, RefOk, Preds, Singles, IsRun, FreedMem, Without;
    ChainAt(mem0, chain0, p, i);
    ChainFresh(mem0, chain0, p, i);
    WithoutStep(mem0, chain0[p], i);
    ShrunkStep(mem0, chain0, mem, chain, a);
    DropFirst(mem, chain, handles, a);
    SinglesStep(mem0, chain0[p], i);
    RunEnds(mem0, chain0[p], i + 1);
  }

  lemma FreeingStop(mem0: Memory, chain0: Chains, p: nat, i: nat,
                    mem: Memory, chain: Chains, handles: multiset<nat>, a: nat)
    requires Freeing(mem0, chain0, p, i, mem, chain, handles, Some(a)) && a in mem && mem[a].ref > 1
    ensures Freeing(mem0, chain0, p, i, mem[a := mem[a].(ref := mem[a].ref - 1)], chain, handles, None)
  {
    hide Shrunk, Live, Linked, Tots, TotOk, Refs, RefOk, Preds, Singles, IsRun, FreedMem, Without;
    ChainAt(mem0, chain0, p, i);
    ChainFresh(mem0, chain0, p, i);
    WithoutStep(mem0, chain0[p], i);
    ShrunkStep(mem0, chain0, mem, chain, a);
    DropLast(mem, chain, handles, a);
    RunEnds(mem0, chain0[p], i);
  }

  lemma FreeingEnd(mem0: Memory, chain0: Chains, p: nat, i: nat,
                   mem: Memory, chain: Chains, handles: multiset<nat>, count: nat)
    requires Freeing(mem0, chain0, p, i, mem, chain, handles, None) && count == i % 0x100
    ensures p in chain0 && FreedBy(mem0, chain0[p], count, mem)
    ensures Links(mem, chain, handles, None) && (Tots(mem0) ==> Tots(mem))
    ensures Chained(mem0, chain0) && Chained(mem, chain)
    ensures Shrunk(mem0, chain0, mem, chain) && Kept(mem0, chain0, mem, chain)
  {
    AllKept(mem0, chain0, mem, chain);
    FreedHow(mem0, chain0[p], i, count, mem);
  }

  lemma LinksAt(mem: Memory, chain: Chains, handles: multiset<nat>, extra: Option<nat>)
    requires Links(mem, chain, handles, extra)
    ensures chain.Keys == mem.Keys
    ensures extra.Some? ==> extra.value in mem && mem[extra.value].ref > 0
  {
    assert extra.Some? ==> extra.value in mem && RefOk(mem, handles, extra, extra.value);
  }

  lemma AddRef(mem: Memory, chain: Chains, handles: multiset<nat>, p: nat)
    requires Links(mem, chain, handles, None) && p in mem
    ensures var mem' := mem[p := mem[p].(ref := (mem[p].ref + 1) % 0x1_0000)];
      && (Links(mem', chain, handles + multiset{p}, None) <==> mem[p].ref < 0xffff)
      && Chained(mem', chain) && (Tots(mem') <==> Tots(mem)) && Kept(mem, chain, mem', chain)
  {
    var mem' := mem[p := mem[p].(ref := (mem[p].ref + 1) % 0x1_0000)];
    Recount(mem, mem', chain);
    assert RefOk(mem, handles, None, p);
    if mem[p].ref < 0xffff {
      forall x | x in mem
        ensures RefOk(mem', handles + multiset{p}, None, x)
      {
        assert RefOk(mem, handles, None, x);
      }
    } else {
      assert !RefOk(mem', handles + multiset{p}, None, p);
    }
    AllKept(mem, chain, mem', chain);
  }

  function Without(mem: Memory, c: seq<nat>): Memory {
    map x | x in mem && x !in c :: mem[x]
  }

  lemma WithoutNone(mem: Memory, c: seq<nat>)
    ensures Without(mem, c[..0]) == mem && Singles(mem, c, 0)
  {
  }

  lemma WithoutStep(mem: Memory, c: seq<nat>, i: nat)
    requires i < |c| && c[i] !in c[..i] && c[i] in mem
    ensures Without(mem, c[..i]) - {c[i]} == Without(mem, c[..i + 1])
    ensures i + 1 == |c| ==> Without(mem, c[..i + 1]) == FreedMem(mem, c, i + 1)
    ensures c[i] in Without(mem, c[..i]) && Without(mem, c[..i])[c[i]] == mem[c[i]]
    ensures mem[c[i]].ref > 0 ==>
      Without(mem, c[..i])[c[i] := mem[c[i]].(ref := mem[c[i]].ref - 1)] == FreedMem(mem, c, i)
  {
    assert c[..i + 1] == c[..i] + [c[i]];
  }

  /** A new pbuf at an unused address. */
  lemma AllocGood(mem: Memory, chain: Chains, handles: multiset<nat>, p: nat, data: seq<Octet>)
    requires Links(mem, chain, handles, None) && p !in mem && |data| <= 0xffff
    ensures var mem', chain' := mem[p := Pbuf(None, data, |data|, 1)], chain[p := [p]];
      && Links(mem', chain', handles + multiset{p}, None) && (Tots(mem') <==> Tots(mem))
      && Content(mem', chain', p) == data && Kept(mem, chain, mem', chain')
  {
    var mem', chain', handles' := mem[p := Pbuf(None, data, |data|, 1)], chain[p := [p]], handles + multiset{p};
    assert chain'.Keys == mem'.Keys;
    assert p !in handles;
    forall x | x in mem'
      ensures Linked(mem', chain', x) && RefOk(mem', handles', None, x)
      ensures TotOk(mem', x) <==> x == p || TotOk(mem, x)
    {
      hide Chained, Tots, Refs;
      AllocAt(mem, chain, handles, p, data, x);
    }
    hide Linked, RefOk, TotOk;
    AllocText(mem, chain, p, data);
  }

  lemma AllocText(mem: Memory, chain: Chains, p: nat, data: seq<Octet>)
    requires p !in mem && Chained(mem, chain)
    requires Chained(mem[p := Pbuf(None, data, |data|, 1)], chain[p := [p]])
    ensures var mem', chain' := mem[p := Pbuf(None, data, |data|, 1)], chain[p := [p]];
      Content(mem', chain', p) == data && Kept(mem, chain, mem', chain')
  {
    hide Linked;
    var mem', chain' := mem[p := Pbuf(None, data, |data|, 1)], chain[p := [p]];
    assert [p][1..] == [] && data + [] == data;
    assert Flat(mem', [p]) == data;
    AllKept(mem, chain, mem', chain');
  }

  lemma AllocAt(mem: Memory, chain: Chains, handles: multiset<nat>, p: nat, data: seq<Octet>, x: nat)
    requires Links(mem, chain, handles, None) && p !in mem && |data| <= 0xffff && (x in mem || x == p)
    ensures var mem', chain' := mem[p := Pbuf(None, data, |data|, 1)], chain[p := [p]];
      && Linked(mem', chain', x) && RefOk(mem', handles + multiset{p}, None, x)
      && (TotOk(mem', x) <==> x == p || TotOk(mem, x))
  {
    var mem' := mem[p := Pbuf(None, data, |data|, 1)];
    forall y | y in mem
      ensures mem[y].next != Some(p)
    {
      assert Linked(mem, chain, y);
    }
    assert p !in handles;
    assert x in mem ==> Linked(mem, chain, x) && RefOk(mem, handles, None, x);
    assert Preds(mem', x) == if x == p then {} else Preds(mem, x);
  }

  // ----- one link changed -----------------------------------------------------------------------

  /** What comes before z in c. */
  function Before(c: seq<nat>, z: nat): seq<nat> {
    if c == [] || c[0] == z then [] else [c[0]] + Before(c[1..], z)
  }

  function Last(c: seq<nat>): nat
    requires c != []
  {
    c[|c| - 1]
  }

  /** Every chain through z ends as the chain of z. */
  lemma {:induction false} Through(mem: Memory, chain: Chains, x: nat, z: nat)
    requires Chained(mem, chain) && x in mem && z in chain[x]
    ensures z in mem && Live(mem, Before(chain[x], z)) && z !in Before(chain[x], z)
    ensures chain[x] == Before(chain[x], z) + chain[z]
    decreases |if x in chain then chain[x] else []|
  {
    assert Linked(mem, chain, x);
    if x != z {
      var q := mem[x].next.value;
      assert chain[x][1..] == chain[q];
      Through(mem, chain, q, z);
      LiveAppend(mem, [x], Before(chain[q], z));
    }
  }

  lemma ThroughAt(mem: Memory, chain: Chains, p: nat, i: nat)
    requires Chained(mem, chain) && p in mem && i < |chain[p]|
    ensures chain[p][i] in mem && chain[chain[p][i]] == chain[p][i..]
    ensures Before(chain[p], chain[p][i]) == chain[p][..i]
  {
    ChainAt(mem, chain, p, i);
    Through(mem, chain, p, chain[p][i]);
    assert chain[p] == chain[p][..i] + chain[p][i..];
  }

  /** Only the link of z is changed, to n; payloads other than that of z are as before. */
  ghost predicate Relinked(mem: Memory, mem': Memory, chain: Chains, z: nat, n: Option<nat>) {
    && mem'.Keys == mem.Keys && chain.Keys == mem.Keys && z in mem
    && (forall x {:trigger mem'[x]} :: x in mem ==>
         && mem'[x].ref == mem[x].ref && mem'[x].next == (if x == z then n else mem[x].next)
         && (x != z ==> mem'[x].data == mem[x].data))
    && (n.Some? ==> n.value in mem && z !in chain[n.value])
  }

  lemma RelinkedKeys(mem: Memory, mem': Memory, chain: Chains, z: nat, n: Option<nat>)
    requires Relinked(mem, mem', chain, z, n)
    ensures mem'.Keys == mem.Keys && mem'[z].next == n && forall x :: x in mem ==> mem'[x].ref == mem[x].ref
  {
  }

  function From(chain: Chains, n: Option<nat>): seq<nat> {
    if n.Some? && n.value in chain then chain[n.value] else []
  }

  /** The chains when the link of z is changed to n: all that go through z have a new end. */
  function Rechain(chain: Chains, z: nat, n: Option<nat>): Chains {
    map x | x in chain :: if z in chain[x] then Before(chain[x], z) + [z] + From(chain, n) else chain[x]
  }

  lemma RelinkedChains(mem: Memory, mem': Memory, chain: Chains, z: nat, n: Option<nat>)
    requires Chained(mem, chain) && Relinked(mem, mem', chain, z, n)
    ensures Chained(mem', Rechain(chain, z, n))
  {
    forall x | x in mem'
      ensures Linked(mem', Rechain(chain, z, n), x)
    {
      RelinkedAt(mem, mem', chain, z, n, x);
    }
  }

  lemma RelinkedAt(mem: Memory, mem': Memory, chain: Chains, z: nat, n: Option<nat>, x: nat)
    requires Chained(mem, chain) && Relinked(mem, mem', chain, z, n) && x in mem
    ensures Linked(mem', Rechain(chain, z, n), x)
  {
    assert Linked(mem, chain, x);
    RechainAt(mem, chain, z, n, x);
    var chain' := Rechain(chain, z, n);
    if x == z {
      if n.Some? {
        RechainAt(mem, chain, z, n, n.value);
      }
    } else if mem[x].next.Some? {
      var q := mem[x].next.value;
      RechainAt(mem, chain, z, n, q);
      BeforeStep(chain[q], x, z);
      hide Rechain, Before, Chained;
      if z in chain[x] {
        Regroup([x], Before(chain[q], z), chain'[z]);
      }
    }
  }

  lemma BeforeStep(c: seq<nat>, x: nat, z: nat)
    requires x != z
    ensures Before([x] + c, z) == [x] + Before(c, z) && (z in [x] + c <==> z in c)
  {
    assert ([x] + c)[1..] == c;
  }

  /** The octets before z of the chain of x. */
  ghost function Front(mem: Memory, chain: Chains, x: nat, z: nat): seq<Octet>
    requires Chained(mem, chain) && x in mem
  {
    if z in chain[x] then Through(mem, chain, x, z); Flat(mem, Before(chain[x], z)) else []
  }

  lemma ThroughText(mem: Memory, chain: Chains, x: nat, z: nat)
    requires Chained(mem, chain) && x in mem && z in chain[x]
    ensures z in mem && Content(mem, chain, x) == Front(mem, chain, x, z) + Content(mem, chain, z)
  {
    Through(mem, chain, x, z);
    ChainAt(mem, chain, z, 0);
    FlatAppend(mem, Before(chain[x], z), chain[z]);
  }

  lemma RechainAt(mem: Memory, chain: Chains, z: nat, n: Option<nat>, x: nat)
    requires Chained(mem, chain) && x in mem && z in mem
    ensures x in Rechain(chain, z, n) && z in Rechain(chain, z, n) && Rechain(chain, z, n)[z] == [z] + From(chain, n)
    ensures z in chain[x] ==> Rechain(chain, z, n)[x] == Before(chain[x], z) + Rechain(chain, z, n)[z]
    ensures z !in chain[x] ==> Rechain(chain, z, n)[x] == chain[x]
  {
    HeadBefore(mem, chain, x);
    HeadBefore(mem, chain, z);
    RechainIs(chain, z, n, x);
    RechainIs(chain, z, n, z);
    hide *;
    Regroup([], [z], From(chain, n));
    Regroup(Before(chain[x], z), [z], From(chain, n));
  }

  lemma Regroup<T>(a: seq<T>, b: seq<T>, c: seq<T>)
    ensures a + b + c == a + (b + c)
    ensures [] + b == b && a + [] == a
  {
  }

  lemma HeadBefore(mem: Memory, chain: Chains, z: nat)
    requires Chained(mem, chain) && z in mem
    ensures z in chain && z in chain[z] && Before(chain[z], z) == []
  {
    ChainAt(mem, chain, z, 0);
  }

  lemma RechainIs(chain: Chains, z: nat, n: Option<nat>, x: nat)
    requires x in chain
    ensures x in Rechain(chain, z, n)
    ensures Rechain(chain, z, n)[x] == if z in chain[x] then Before(chain[x], z) + [z] + From(chain, n) else chain[x]
  {
    hide Before, From;
  }

  lemma TextAt(mem: Memory, chain: Chains, x: nat)
    requires Chained(mem, chain) && x in mem
    ensures x in chain && Live(mem, chain[x]) && Content(mem, chain, x) == Flat(mem, chain[x])
  {
    ChainAt(mem, chain, x, 0);
  }

  /** Chains through z read the same up to z, others as a whole. */
  lemma RelinkedText(mem: Memory, mem': Memory, chain: Chains, z: nat, n: Option<nat>, x: nat)
    requires Chained(mem, chain) && Relinked(mem, mem', chain, z, n) && x in mem
    ensures var chain' := Rechain(chain, z, n);
      && Chained(mem', chain')
      && Content(mem', chain', x) == if z in chain[x] then Front(mem, chain, x, z) + Content(mem', chain', z)
                                     else Content(mem, chain, x)
  {
    hide Linked, Flat, Rechain, Before, Content, Chained;
    var chain' := Rechain(chain, z, n);
    RelinkedChains(mem, mem', chain, z, n);
    RechainAt(mem, chain, z, n, x);
    TextAt(mem, chain, x);
    TextAt(mem', chain', x);
    if z in chain[x] {
      TextAt(mem', chain', z);
      Through(mem, chain, x, z);
      SameBefore(mem, mem', chain, z, n, Before(chain[x], z));
      FlatAppend(mem', Before(chain[x], z), chain'[z]);
    } else {
      SameBefore(mem, mem', chain, z, n, chain[x]);
    }
  }

  lemma SameBefore(mem: Memory, mem': Memory, chain: Chains, z: nat, n: Option<nat>, c: seq<nat>)
    requires Relinked(mem, mem', chain, z, n) && Live(mem, c) && z !in c
    ensures Live(mem', c) && Flat(mem', c) == Flat(mem, c)
  {
    FlatSame(mem, mem', c);
  }

  /** What is read at z itself. */
  lemma RelinkedEnd(mem: Memory, mem': Memory, chain: Chains, z: nat, n: Option<nat>)
    requires Chained(mem, chain) && Relinked(mem, mem', chain, z, n)
    ensures var chain' := Rechain(chain, z, n);
      && Chained(mem', chain') && chain'[z] == [z] + From(chain, n)
      && Content(mem', chain', z) == mem'[z].data + if n.Some? then Content(mem, chain, n.value) else []
  {
    hide Linked, Rechain, Before, Content, Chained;
    var chain' := Rechain(chain, z, n);
    RelinkedChains(mem, mem', chain, z, n);
    RechainAt(mem, chain, z, n, z);
    TextAt(mem', chain', z);
    assert chain'[z][1..] == From(chain, n);
    if n.Some? {
      TextAt(mem, chain, n.value);
      SameBefore(mem, mem', chain, z, n, chain[n.value]);
    }
  }

  lemma LinkRefs(mem: Memory, mem': Memory, chain: Chains, handles: multiset<nat>, z: nat, t: nat)
    requires Refs(mem, handles, None) && Relinked(mem, mem', chain, z, Some(t)) && mem[z].next.None? && t in handles
    ensures Refs(mem', handles - multiset{t}, None)
  {
    forall x | x in mem'
      ensures RefOk(mem', handles - multiset{t}, None, x)
    {
      assert RefOk(mem, handles, None, x);
      assert Preds(mem', x) == if x == t then Preds(mem, x) + {z} else Preds(mem, x);
    }
  }

  lemma UnlinkRefs(mem: Memory, mem': Memory, chain: Chains, handles: multiset<nat>, z: nat)
    requires Refs(mem, handles, None) && Relinked(mem, mem', chain, z, None)
    requires mem[z].next.Some? ==> mem[z].next.value in mem
    ensures Refs(mem', handles, mem[z].next)
  {
    forall x | x in mem'
      ensures RefOk(mem', handles, mem[z].next, x)
    {
      assert RefOk(mem, handles, None, x);
      assert Preds(mem', x) == Preds(mem, x) - {z};
    }
  }

  // ----- totals after a link was changed ----------------------------------------------------------

  /** The first i pbufs of c with d added to their totals, in 16 bits. */
  function Raised(mem: Memory, c: seq<nat>, i: nat, d: int): Memory
    requires i <= |c|
  {
    map x | x in mem :: if x in c[..i] then mem[x].(totLen := (mem[x].totLen + d) % 0x1_0000) else mem[x]
  }

  lemma RaisedNone(mem: Memory, c: seq<nat>, d: int)
    ensures Raised(mem, c, 0, d) == mem
  {
  }

  lemma RaisedStep(mem: Memory, c: seq<nat>, i: nat, d: int)
    requires i < |c| && c[i] !in c[..i] && c[i] in mem
    ensures c[i] in Raised(mem, c, i, d) && Raised(mem, c, i, d)[c[i]] == mem[c[i]]
    ensures Raised(mem, c, i, d)[c[i] := mem[c[i]].(totLen := (mem[c[i]].totLen + d) % 0x1_0000)]
         == Raised(mem, c, i + 1, d)
  {
    assert c[..i + 1] == c[..i] + [c[i]];
  }

  lemma RaisedRest(mem: Memory, c: seq<nat>, i: nat, d: int)
    requires i < |c| && c[i] !in c[..i] && c[i] in mem
    ensures c[i] in Raised(mem, c, i, d) && Raised(mem, c, i, d)[c[i]] == mem[c[i]]
  {
  }

  /** The totals of c are changed by d, in 16 bits; its last pbuf gets another link and payload. */
  function Shifted(mem: Memory, c: seq<nat>, d: int, n: Option<nat>, data: seq<Octet>): Memory
    requires c != []
  {
    map x | x in mem ::
      if x in c then
        var y := mem[x].(totLen := (mem[x].totLen + d) % 0x1_0000);
        if x == Last(c) then y.(next := n, data := data) else y
      else mem[x]
  }

  lemma ShiftedIs(mem: Memory, c: seq<nat>, i: nat, d: int, n: Option<nat>, data: seq<Octet>)
    requires i < |c| && c[i] in mem && c[i] !in c[..i]
    ensures Shifted(mem, c[..i + 1], d, n, data)
         == Raised(mem, c, i, d)[c[i] := Pbuf(n, data, (mem[c[i]].totLen + d) % 0x1_0000, mem[c[i]].ref)]
  {
    assert c[..i + 1] == c[..i] + [c[i]];
  }

  lemma ShiftedAt(mem: Memory, c: seq<nat>, d: int, n: Option<nat>, data: seq<Octet>, x: nat)
    requires c != [] && x in mem
    ensures Shifted(mem, c, d, n, data).Keys == mem.Keys
    ensures var y := Shifted(mem, c, d, n, data)[x];
      && y.totLen == (if x in c then (mem[x].totLen + d) % 0x1_0000 else mem[x].totLen)
      && (x !in c ==> y == mem[x])
  {
  }

  lemma ShiftedLinks(mem: Memory, chain: Chains, p: nat, i: nat, d: int, n: Option<nat>, data: seq<Octet>)
    requires Chained(mem, chain) && p in mem && i < |chain[p]|
    requires n.Some? ==> n.value in mem && chain[p][i] !in chain[n.value]
    ensures chain[p][i] in mem
    ensures var mem' := Shifted(mem, chain[p][..i + 1], d, n, data);
      Relinked(mem, mem', chain, chain[p][i], n) && mem'[chain[p][i]].data == data
  {
    ChainAt(mem, chain, p, i);
    assert chain[p][..i + 1][i] == chain[p][i];
  }

  lemma BoundInside(mem: Memory, chain: Chains, h: nat, x: nat)
    requires Chained(mem, chain) && Tots(mem) && h in mem && x in chain[h]
    ensures x in mem && mem[x].totLen <= mem[h].totLen
  {
    var i: nat :| i < |chain[h]| && chain[h][i] == x;
    TotBound(mem, chain, h, i);
  }

  /** Totals do not grow along a chain. */
  lemma {:induction false} TotBound(mem: Memory, chain: Chains, p: nat, i: nat)
    requires Chained(mem, chain) && Tots(mem) && p in mem && i < |chain[p]|
    ensures chain[p][i] in mem && mem[chain[p][i]].totLen <= mem[p].totLen
  {
    ChainAt(mem, chain, p, i);
    if i > 0 {
      TotBound(mem, chain, p, i - 1);
      ChainAt(mem, chain, p, i - 1);
      assert TotOk(mem, chain[p][i - 1]);
    }
  }

  /** Which chains go through the i-th pbuf of the chain of p. */
  lemma PassesThrough(mem: Memory, chain: Chains, p: nat, i: nat, x: nat)
    requires Chained(mem, chain) && Tots(mem) && p in mem && i < |chain[p]| && x in mem
    ensures var c, z := chain[p][..i + 1], chain[p][i];
      && z in mem
      && (x in c ==> z in chain[x] && mem[z].totLen <= mem[x].totLen <= mem[p].totLen)
      && (x !in c && Owns(mem, c) ==> z !in chain[x])
      && (x !in c && Joins(mem, c, x) ==> z in chain[x])
  {
    var c, z := chain[p][..i + 1], chain[p][i];
    ChainAt(mem, chain, p, i);
    assert c[i] == z;
    if x in c {
      InPrefix(mem, chain, p, i, x);
    } else if Owns(mem, c) {
      StaysOutside(mem, chain, c, x);
    } else if Joins(mem, c, x) {
      assert Linked(mem, chain, x);
      InPrefix(mem, chain, p, i, mem[x].next.value);
    }
  }

  lemma InPrefix(mem: Memory, chain: Chains, p: nat, i: nat, x: nat)
    requires Chained(mem, chain) && Tots(mem) && p in mem && i < |chain[p]| && x in chain[p][..i + 1]
    ensures x in mem && chain[p][i] in chain[x] && chain[p][i] in mem
    ensures mem[chain[p][i]].totLen <= mem[x].totLen <= mem[p].totLen
  {
    var j: nat :| j < i + 1 && chain[p][..i + 1][j] == x;
    ChainAt(mem, chain, p, j);
    assert chain[p][j..][i - j] == chain[p][i];
    BoundInside(mem, chain, p, x);
    BoundInside(mem, chain, x, chain[p][i]);
  }

  /** How much longer chains have become by a change of a link. */
  lemma LengthAfter(mem: Memory, mem': Memory, chain: Chains, z: nat, n: Option<nat>, d: int, x: nat)
    requires Chained(mem, chain) && Tots(mem) && Relinked(mem, mem', chain, z, n) && x in mem
    requires mem[z].totLen + d == |mem'[z].data| + if n.Some? then mem[n.value].totLen else 0
    ensures Chained(mem', Rechain(chain, z, n))
    ensures |Content(mem', Rechain(chain, z, n), x)| == mem[x].totLen + if z in chain[x] then d else 0
  {
    hide Linked, Tots, TotOk, Content, Rechain, Front;
    RelinkedText(mem, mem', chain, z, n, x);
    RelinkedEnd(mem, mem', chain, z, n);
    TotCounts(mem, chain, x);
    TotCounts(mem, chain, z);
    if n.Some? {
      TotCounts(mem, chain, n.value);
    }
    if z in chain[x] {
      ThroughText(mem, chain, x, z);
    }
  }

  predicate Counts(mem: Memory, length: int, x: nat) {
    x in mem && mem[x].totLen == length && length <= 0xffff
  }

  /** The totals are right if each is the length of what is read there. */
  lemma CountsTots(mem: Memory, chain: Chains)
    requires Chained(mem, chain)
    requires forall x :: x in mem ==> Counts(mem, |Content(mem, chain, x)|, x)
    ensures Tots(mem)
  {
    forall x | x in mem
      ensures TotOk(mem, x)
    {
      assert Linked(mem, chain, x) && Counts(mem, |Content(mem, chain, x)|, x);
      ChainAt(mem, chain, x, 0);
      if mem[x].next.Some? {
        var q := mem[x].next.value;
        assert chain[x][1..] == chain[q] && Counts(mem, |Content(mem, chain, q)|, q);
      } else {
        EndText(mem, chain, x);
      }
    }
  }

  lemma BoundedTotal(mem: Memory, x: nat)
    requires Tots(mem) && x in mem
    ensures mem[x].totLen <= 0xffff
  {
    assert TotOk(mem, x);
  }

  /** The total of x after the change is what is read there, or how it fails to be. */
  lemma ShiftedCounts(mem: Memory, chain: Chains, p: nat, i: nat, d: int, n: Option<nat>, data: seq<Octet>, x: nat)
    requires Chained(mem, chain) && Tots(mem) && p in mem && i < |chain[p]| && x in mem && chain[p][i] in mem
    requires n.Some? ==> n.value in mem && chain[p][i] !in chain[n.value]
    requires mem[chain[p][i]].totLen + d == |data| + if n.Some? then mem[n.value].totLen else 0
    ensures var c, chain' := chain[p][..i + 1], Rechain(chain, chain[p][i], n);
      var mem' := Shifted(mem, c, d, n, data);
      && Chained(mem', chain') && x in mem'
      && ((Owns(mem, c) || d == 0) && mem[p].totLen + d <= 0xffff ==> Counts(mem', |Content(mem', chain', x)|, x))
      && (x == p && mem[p].totLen + d > 0xffff ==> !Counts(mem', |Content(mem', chain', x)|, x))
      && (x !in c && Joins(mem, c, x) && d != 0 ==> mem'[x].totLen != |Content(mem', chain', x)|)
  {
    hide Shifted, Rechain, Content, Linked, TotOk, Owns, Joins, Relinked;
    var c, z, mem' := chain[p][..i + 1], chain[p][i], Shifted(mem, chain[p][..i + 1], d, n, data);
    ShiftedLinks(mem, chain, p, i, d, n, data);
    LengthAfter(mem, mem', chain, z, n, d, x);
    PassesThrough(mem, chain, p, i, x);
    ShiftedAt(mem, c, d, n, data, x);
    ChainAt(mem, chain, p, 0);
    assert p in c by {
      assert c[0] == p;
    }
    BoundedTotal(mem, x);
    assert 0 <= mem[x].totLen <= 0xffff && mem[z].totLen + d >= 0;
  }

  /** When all totals are right after the change: no other chain continues into those pbufs, or
      the length is the same; and the new length fits 16 bits. */
  lemma ShiftedTotals(mem: Memory, chain: Chains, p: nat, i: nat, d: int, n: Option<nat>, data: seq<Octet>)
    requires Chained(mem, chain) && Tots(mem) && p in mem && i < |chain[p]| && chain[p][i] in mem
    requires n.Some? ==> n.value in mem && chain[p][i] !in chain[n.value]
    requires mem[chain[p][i]].totLen + d == |data| + if n.Some? then mem[n.value].totLen else 0
    ensures Tots(Shifted(mem, chain[p][..i + 1], d, n, data)) <==>
      (Owns(mem, chain[p][..i + 1]) || d == 0) && mem[p].totLen + d <= 0xffff
  {
    hide Shifted, Rechain, Content, Linked;
    var c, z, mem' := chain[p][..i + 1], chain[p][i], Shifted(mem, chain[p][..i + 1], d, n, data);
    var chain' := Rechain(chain, z, n);
    forall x | x in mem
      ensures x in mem' && Chained(mem', chain')
      ensures (Owns(mem, c) || d == 0) && mem[p].totLen + d <= 0xffff ==> Counts(mem', |Content(mem', chain', x)|, x)
    {
      ShiftedCounts(mem, chain, p, i, d, n, data, x);
    }
    ShiftedAt(mem, c, d, n, data, p);
    if (Owns(mem, c) || d == 0) && mem[p].totLen + d <= 0xffff {
      CountsTots(mem', chain');
    } else if Tots(mem') {
      if mem[p].totLen + d > 0xffff {
        TotCounts(mem', chain', p);
        BoundedTotal(mem', p);
        ShiftedCounts(mem, chain, p, i, d, n, data, p);
      } else {
        var x :| x in mem && x !in c && Joins(mem, c, x);
        ShiftedCounts(mem, chain, p, i, d, n, data, x);
        TotCounts(mem', chain', x);
      }
    }
  }

  // ----- concatenation --------------------------------------------------------------------------

  /** The two chains have no end in common, so that none of their pbufs either; linking them
      would make a ring. */
  predicate CanLink(chain: Chains, h: nat, t: nat) {
    h in chain && t in chain && chain[h] != [] && Last(chain[h]) !in chain[t]
  }

  function CatMem(mem: Memory, c: seq<nat>, t: nat): Memory
    requires c != [] && Last(c) in mem && t in mem
  {
    Shifted(mem, c, mem[t].totLen, Some(t), mem[Last(c)].data)
  }

  /** Every chain through z has s appended; the others read as before. */
  ghost predicate Extended(mem: Memory, chain: Chains, mem': Memory, chain': Chains, z: nat, s: seq<Octet>)
    requires Chained(mem, chain) && Chained(mem', chain')
  {
    mem'.Keys == mem.Keys && forall x :: x in mem && x in mem' ==>
      Content(mem', chain', x) == Content(mem, chain, x) + if z in chain[x] then s else []
  }

  /** pbuf_cat updates the totals of the chain it walks only: all totals are right afterwards
      exactly if no other chain continues into that chain, or nothing is appended, and the
      total of the whole fits 16 bits. */
  lemma CatTotalsExact(mem: Memory, chain: Chains, h: nat, t: nat)
    requires Chained(mem, chain) && Tots(mem) && h in mem && t in mem && CanLink(chain, h, t)
    ensures Last(chain[h]) in mem
    ensures Tots(CatMem(mem, chain[h], t)) <==>
      (Owns(mem, chain[h]) || mem[t].totLen == 0) && mem[h].totLen + mem[t].totLen <= 0xffff
  {
    var c, i := chain[h], |chain[h]| - 1;
    ChainAt(mem, chain, h, i);
    assert c[..i + 1] == c;
    assert TotOk(mem, Last(c));
    ShiftedTotals(mem, chain, h, i, mem[t].totLen, Some(t), mem[Last(c)].data);
  }

  lemma CatGood(mem: Memory, chain: Chains, handles: multiset<nat>, h: nat, t: nat)
    requires Links(mem, chain, handles, None) && h in mem && t in handles && CanLink(chain, h, t)
    ensures t in mem && Last(chain[h]) in mem
    ensures var mem', chain' := CatMem(mem, chain[h], t), Rechain(chain, Last(chain[h]), Some(t));
      && Links(mem', chain', handles - multiset{t}, None) && chain'[h] == chain[h] + chain[t]
      && Extended(mem, chain, mem', chain', Last(chain[h]), Content(mem, chain, t))
      && Content(mem', chain', h) == Content(mem, chain, h) + Content(mem, chain, t)
  {
    hide Shifted, Rechain, Content, Linked, Chained, Refs, RefOk, Before, Relinked, Front;
    var c, z, i := chain[h], Last(chain[h]), |chain[h]| - 1;
    HandleAt(mem, handles, t);
    ChainAt(mem, chain, h, i);
    assert c[..i + 1] == c;
    var mem', chain' := CatMem(mem, c, t), Rechain(chain, z, Some(t));
    ShiftedLinks(mem, chain, h, i, mem[t].totLen, Some(t), mem[z].data);
    RelinkedChains(mem, mem', chain, z, Some(t));
    LinkRefs(mem, mem', chain, handles, z, t);
    ThroughAt(mem, chain, h, i);
    RechainAt(mem, chain, z, Some(t), h);
    RelinkedKeys(mem, mem', chain, z, Some(t));
    assert c == c[..i] + [z];
    forall x | x in mem
      ensures Content(mem', chain', x) == Content(mem, chain, x) + if z in chain[x] then Content(mem, chain, t) else []
    {
      CatText(mem, mem', chain, z, t, x);
    }
  }

  lemma CatText(mem: Memory, mem': Memory, chain: Chains, z: nat, t: nat, x: nat)
    requires Chained(mem, chain) && Relinked(mem, mem', chain, z, Some(t)) && x in mem
    requires mem[z].next.None? && mem'[z].data == mem[z].data
    ensures var chain' := Rechain(chain, z, Some(t));
      Chained(mem', chain') && Content(mem', chain', x)
        == Content(mem, chain, x) + if z in chain[x] then Content(mem, chain, t) else []
  {
    TextAt(mem, chain, x);
    assert z in mem && t in mem && z in mem';
    hide *;
    RelinkedText(mem, mem', chain, z, Some(t), x);
    RelinkedEnd(mem, mem', chain, z, Some(t));
    EndText(mem, chain, z);
    if z in chain[x] {
      ThroughText(mem, chain, x, z);
      Regroup(Front(mem, chain, x, z), mem[z].data, Content(mem, chain, t));
    } else {
      Regroup(Content(mem, chain, x), [], []);
    }
  }

  lemma EndText(mem: Memory, chain: Chains, z: nat)
    requires Chained(mem, chain) && z in mem && mem[z].next.None?
    ensures Content(mem, chain, z) == mem[z].data
  {
    assert Linked(mem, chain, z);
    assert [z][1..] == [];
    assert Flat(mem, []) == [];
  }

  lemma KeptUse(mem: Memory, chain: Chains, mem': Memory, chain': Chains, x: nat)
    requires Chained(mem, chain) && Chained(mem', chain') && Kept(mem, chain, mem', chain')
    requires x in mem && x in mem'
    ensures Content(mem', chain', x) == Content(mem, chain, x)
  {
  }

  lemma ShiftedRef(mem: Memory, c: seq<nat>, d: int, n: Option<nat>, data: seq<Octet>, x: nat)
    requires c != [] && x in mem
    ensures x in Shifted(mem, c, d, n, data) && Shifted(mem, c, d, n, data)[x].ref == mem[x].ref
    ensures Shifted(mem, c, d, n, data).Keys == mem.Keys
  {
  }

  lemma ExtendedKept(mem: Memory, chain: Chains, mem1: Memory, chain1: Chains, mem2: Memory,
                     z: nat, s: seq<Octet>)
    requires Chained(mem, chain) && Chained(mem1, chain1) && Chained(mem2, chain1)
    requires Extended(mem, chain, mem1, chain1, z, s) && Kept(mem1, chain1, mem2, chain1) && mem2.Keys == mem1.Keys
    ensures Extended(mem, chain, mem2, chain1, z, s)
  {
    hide Chained, Content;
  }

  // ----- cutting a chain ------------------------------------------------------------------------

  /** What is behind the i-th pbuf of a chain does not link back. */
  lemma NotBack(mem: Memory, chain: Chains, p: nat, i: nat, x: nat)
    requires Chained(mem, chain) && p in mem && i < |chain[p]| && x in chain[p] && x !in chain[p][..i + 1]
    ensures x in mem && !Joins(mem, chain[p][..i + 1], x)
  {
    var c := chain[p];
    assert c == c[..i + 1] + c[i + 1..];
    var k: nat :| k < |c[i + 1..]| && c[i + 1..][k] == x;
    var j := i + 1 + k;
    ChainAt(mem, chain, p, j);
    if j + 1 < |c| {
      forall m | 0 <= m <= i
        ensures c[m] != c[j + 1]
      {
        ChainDistinct(mem, chain, p, m, j + 1);
      }
    }
  }

  /** The total of the j-th pbuf of a chain. */
  lemma {:induction false} TotSuffix(mem: Memory, chain: Chains, p: nat, j: nat)
    requires Chained(mem, chain) && Tots(mem) && p in mem && j < |chain[p]|
    ensures Live(mem, chain[p][..j]) && chain[p][j] in mem
    ensures mem[chain[p][j]].totLen == mem[p].totLen - |Flat(mem, chain[p][..j])|
  {
    ChainAt(mem, chain, p, j);
    FlatAt(mem, chain[p], j);
    if j > 0 {
      TotSuffix(mem, chain, p, j - 1);
      ChainAt(mem, chain, p, j - 1);
      assert TotOk(mem, chain[p][j - 1]);
      FlatAt(mem, chain[p], j - 1);
    }
  }

  /** Every chain through z has lost its last n octets; the others read as before. */
  ghost predicate Shortened(mem: Memory, chain: Chains, mem': Memory, chain': Chains, z: nat, n: int)
    requires Chained(mem, chain) && Chained(mem', chain')
  {
    forall x :: x in mem' ==>
      x in mem && Lost(Content(mem, chain, x), Content(mem', chain', x), if z in chain[x] then n else 0)
  }

  /** s' is s without its last n octets. */
  predicate Lost(s: seq<Octet>, s': seq<Octet>, n: int) {
    s' <= s && |s'| == |s| - n
  }

  /** The chain of p was cut behind its i-th pbuf, which keeps `data`; totals up to it changed
      by d. */
  function CutMem(mem: Memory, c: seq<nat>, i: nat, d: int, data: seq<Octet>): Memory
    requires i < |c|
  {
    Shifted(mem, c[..i + 1], d, None, data)
  }

  lemma CutGood(mem: Memory, chain: Chains, handles: multiset<nat>, p: nat, i: nat, d: int, rem: nat)
    requires Good(mem, chain, handles, None) && p in mem && i < |chain[p]| && chain[p][i] in mem
    requires rem <= |mem[chain[p][i]].data| && mem[chain[p][i]].totLen + d == rem
    ensures var c, z, data := chain[p], chain[p][i], mem[chain[p][i]].data[..rem];
      var mem', chain' := CutMem(mem, c, i, d, data), Rechain(chain, z, None);
      && Links(mem', chain', handles, mem[z].next) && Relinked(mem, mem', chain, z, None)
      && chain'[p] == c[..i + 1] && Shortened(mem, chain, mem', chain', z, -d)
      && (Tots(mem') <==> Owns(mem, c[..i + 1]) || d == 0)
      && From(chain', mem[z].next) == From(chain, mem[z].next) == c[i + 1..]
  {
    TextAt(mem, chain, p);
    assert Chained(mem, chain) && Tots(mem) && Refs(mem, handles, None);
    var c, z, data := chain[p], chain[p][i], mem[chain[p][i]].data[..rem];
    var mem', chain' := Shifted(mem, c[..i + 1], d, None, data), Rechain(chain, z, None);
    assert mem' == CutMem(mem, c, i, d, data);
    hide *;
    CutLinks(mem, chain, handles, p, i, d, data);
    CutPath(mem, chain, p, i);
    CutRest(mem, chain, p, i);
    CutShort(mem, mem', chain, z, d, rem);
    CutTots(mem, chain, p, i, d, data);
    AreLinks(mem', chain', handles, mem[z].next);
  }

  lemma AreLinks(mem: Memory, chain: Chains, handles: multiset<nat>, extra: Option<nat>)
    requires Chained(mem, chain) && Refs(mem, handles, extra)
    ensures Links(mem, chain, handles, extra)
  {
  }

  lemma CutShort(mem: Memory, mem': Memory, chain: Chains, z: nat, d: int, rem: nat)
    requires Chained(mem, chain) && Tots(mem) && Relinked(mem, mem', chain, z, None)
    requires rem <= |mem[z].data| && mem'[z].data == mem[z].data[..rem] && mem[z].totLen + d == rem
    ensures Chained(mem', Rechain(chain, z, None))
    ensures Shortened(mem, chain, mem', Rechain(chain, z, None), z, -d)
  {
    RelinkedChains(mem, mem', chain, z, None);
    RelinkedKeys(mem, mem', chain, z, None);
    var chain' := Rechain(chain, z, None);
    forall x | x in mem'
      ensures x in mem && Lost(Content(mem, chain, x), Content(mem', chain', x), if z in chain[x] then -d else 0)
    {
      hide Content, Rechain, Linked, Chained, Tots, Relinked, Lost;
      CutText(mem, mem', chain, z, d, rem, x);
    }
  }

  lemma CutLinks(mem: Memory, chain: Chains, handles: multiset<nat>, p: nat, i: nat, d: int, data: seq<Octet>)
    requires Chained(mem, chain) && Refs(mem, handles, None) && p in mem && i < |chain[p]|
    ensures chain[p][i] in mem
    ensures var z, mem', chain' := chain[p][i], CutMem(mem, chain[p], i, d, data), Rechain(chain, chain[p][i], None);
      && Chained(mem', chain') && Refs(mem', handles, mem[z].next) && Relinked(mem, mem', chain, z, None)
      && mem'.Keys == mem.Keys && mem'[z].data == data
  {
    TextAt(mem, chain, p);
    var z, mem' := chain[p][i], CutMem(mem, chain[p], i, d, data);
    ShiftedLinks(mem, chain, p, i, d, None, data);
    assert Relinked(mem, mem', chain, z, None) && mem'[z].data == data;
    hide *;
    CutRest(mem, chain, p, i);
    RelinkedChains(mem, mem', chain, z, None);
    UnlinkRefs(mem, mem', chain, handles, z);
    RelinkedKeys(mem, mem', chain, z, None);
  }

  lemma CutPath(mem: Memory, chain: Chains, p: nat, i: nat)
    requires Chained(mem, chain) && p in mem && i < |chain[p]|
    ensures p in Rechain(chain, chain[p][i], None)
    ensures Rechain(chain, chain[p][i], None)[p] == chain[p][..i + 1]
  {
    HeadBefore(mem, chain, p);
    hide *;
    FromNone(chain);
    ThroughAt(mem, chain, p, i);
    RechainAt(mem, chain, chain[p][i], None, p);
    Regroup([], [chain[p][i]], []);
    SplitAt(chain[p], i);
  }

  lemma CutTots(mem: Memory, chain: Chains, p: nat, i: nat, d: int, data: seq<Octet>)
    requires Chained(mem, chain) && Tots(mem) && p in mem && i < |chain[p]| && chain[p][i] in mem
    requires |data| <= |mem[chain[p][i]].data| && mem[chain[p][i]].totLen + d == |data|
    ensures Tots(CutMem(mem, chain[p], i, d, data)) <==> Owns(mem, chain[p][..i + 1]) || d == 0
  {
    ShiftedTotals(mem, chain, p, i, d, None, data);
    BoundedTotal(mem, p);
    assert TotOk(mem, chain[p][i]);
  }

  lemma FromNone(chain: Chains)
    ensures From(chain, None) == []
  {
  }

  lemma CutText(mem: Memory, mem': Memory, chain: Chains, z: nat, d: int, rem: nat, x: nat)
    requires Chained(mem, chain) && Tots(mem) && Relinked(mem, mem', chain, z, None) && x in mem
    requires rem <= |mem[z].data| && mem'[z].data == mem[z].data[..rem] && mem[z].totLen + d == rem
    ensures var chain' := Rechain(chain, z, None);
      Chained(mem', chain') && Lost(Content(mem, chain, x), Content(mem', chain', x), if z in chain[x] then -d else 0)
  {
    TextAt(mem, chain, x);
    assert z in mem && z in mem';
    hide Content, Rechain, Relinked, Front, Chained, Linked, Tots, TotOk;
    RelinkedText(mem, mem', chain, z, None, x);
    RelinkedEnd(mem, mem', chain, z, None);
    TotCounts(mem, chain, z);
    StartsWith(mem, chain, z);
    if z in chain[x] {
      ThroughText(mem, chain, x, z);
    }
  }

  lemma StartsWith(mem: Memory, chain: Chains, z: nat)
    requires Chained(mem, chain) && z in mem
    ensures mem[z].data <= Content(mem, chain, z)
  {
    ChainAt(mem, chain, z, 0);
  }

  /** What is cut off is a chain of its own. */
  lemma CutRest(mem: Memory, chain: Chains, p: nat, i: nat)
    requires Chained(mem, chain) && p in mem && i < |chain[p]|
    ensures chain[p][i] in mem
    ensures var z := chain[p][i];
      && (mem[z].next.Some? ==> mem[z].next.value in mem)
      && From(Rechain(chain, z, None), mem[z].next) == From(chain, mem[z].next) == chain[p][i + 1..]
  {
    ChainAt(mem, chain, p, i);
    if i + 1 < |chain[p]| {
      ChainAt(mem, chain, p, i + 1);
      ChainFresh(mem, chain, p, i);
    }
  }

  /** Of mem, the first k pbufs of the chain cut off at q are gone: those that lose their last
      reference. */
  ghost predicate TailFreed(mem: Memory, chain: Chains, q: Option<nat>, k: nat, mem': Memory) {
    var c := From(chain, q);
    IsRun(mem, c, k) && forall x :: x in mem' <==> x in mem && x !in c[..k]
  }

  /** Everything but the chain c is as it was. */
  predicate RestSame(mem: Memory, mem': Memory, c: seq<nat>) {
    forall x :: x in mem && x !in c ==> x in mem' && mem'[x] == mem[x]
  }

  /** After what was cut off is given up: what is gone, and what stays as it is. */
  lemma CutFreed(mem: Memory, chain: Chains, mem1: Memory, p: nat, i: nat, d: int, data: seq<Octet>, k: nat)
    requires Chained(mem, chain) && p in mem && i < |chain[p]| && chain[p][i] in mem
    requires mem1 == CutMem(mem, chain[p], i, d, data) && Relinked(mem, mem1, chain, chain[p][i], None)
    requires IsRun(mem1, chain[p][i + 1..], k) && k <= |chain[p][i + 1..]|
    ensures var mem2 := FreedMem(mem1, chain[p][i + 1..], k);
      && TailFreed(mem, chain, mem[chain[p][i]].next, k, mem2) && RestSame(mem, mem2, chain[p])
      && p in mem2 && mem2[p] == mem1[p] && chain[p][i] in mem2 && mem2[chain[p][i]] == mem1[chain[p][i]]
      && forall x :: x in mem2 ==> x in mem1
  {
    TextAt(mem, chain, p);
    hide *;
    var z, rest := chain[p][i], chain[p][i + 1..];
    CutRest(mem, chain, p, i);
    RelinkedKeys(mem, mem1, chain, z, None);
    CutRun(mem, mem1, chain, z, rest, k);
    FreedKeys(mem, mem1, chain, mem[z].next, rest, k);
    CutSurvives(mem, chain, p, i, d, data, k);
  }

  /** After it is given up the totals are right exactly as after the cut. */
  lemma CutFreedTots(mem: Memory, chain: Chains, mem1: Memory, mem2: Memory, chain2: Chains,
                     p: nat, i: nat, d: int, data: seq<Octet>, k: nat)
    requires Chained(mem, chain) && Tots(mem) && p in mem && i < |chain[p]| && chain[p][i] in mem
    requires mem1 == CutMem(mem, chain[p], i, d, data) && mem[chain[p][i]].totLen + d == |data|
    requires Chained(mem1, Rechain(chain, chain[p][i], None)) && Chained(mem2, chain2)
    requires Kept(mem1, Rechain(chain, chain[p][i], None), mem2, chain2)
    requires k <= |chain[p][i + 1..]| && mem2 == FreedMem(mem1, chain[p][i + 1..], k)
    requires (Tots(mem1) <==> Owns(mem, chain[p][..i + 1]) || d == 0) && (Tots(mem1) ==> Tots(mem2))
    ensures Tots(mem2) <==> Owns(mem, chain[p][..i + 1]) || d == 0
  {
    TextAt(mem, chain, p);
    hide *;
    if Tots(mem2) && !Owns(mem, chain[p][..i + 1]) && d != 0 {
      CutTotals(mem, chain, mem1, mem2, chain2, p, i, d, data, k);
    }
  }

  lemma FreedKeys(mem: Memory, mem1: Memory, chain: Chains, q: Option<nat>, c: seq<nat>, k: nat)
    requires mem1.Keys == mem.Keys && From(chain, q) == c && IsRun(mem, c, k)
    ensures k <= |c| && TailFreed(mem, chain, q, k, FreedMem(mem1, c, k))
    ensures forall x :: x in FreedMem(mem1, c, k) ==> x in mem1
  {
  }

  lemma CutRun(mem: Memory, mem1: Memory, chain: Chains, z: nat, c: seq<nat>, k: nat)
    requires Relinked(mem, mem1, chain, z, None) && IsRun(mem1, c, k)
    ensures k <= |c| && IsRun(mem, c, k)
  {
  }

  lemma ShortenedKept(mem: Memory, chain: Chains, mem1: Memory, chain1: Chains, mem2: Memory, chain2: Chains,
                      z: nat, n: int)
    requires Chained(mem, chain) && Chained(mem1, chain1) && Chained(mem2, chain2)
    requires Shortened(mem, chain, mem1, chain1, z, n) && Kept(mem1, chain1, mem2, chain2)
    requires forall x :: x in mem2 ==> x in mem1
    ensures Shortened(mem, chain, mem2, chain2, z, n)
  {
    hide Chained, Content, Lost;
  }

  /** The pbufs outside of what is cut off stay as they are. */
  lemma CutSurvives(mem: Memory, chain: Chains, p: nat, i: nat, d: int, data: seq<Octet>, k: nat)
    requires Chained(mem, chain) && p in mem && i < |chain[p]| && k <= |chain[p][i + 1..]|
    ensures var mem1 := CutMem(mem, chain[p], i, d, data);
      var mem2 := FreedMem(mem1, chain[p][i + 1..], k);
      && RestSame(mem, mem2, chain[p]) && p in mem2 && mem2[p] == mem1[p]
      && chain[p][i] in mem2 && mem2[chain[p][i]] == mem1[chain[p][i]]
  {
    var c := chain[p];
    ChainAt(mem, chain, p, 0);
    NotInRest(mem, chain, p, i);
    ChainAt(mem, chain, p, i);
    ChainFresh(mem, chain, p, i);
    var mem1 := CutMem(mem, c, i, d, data);
    hide Chained;
    forall x | x in mem && (x == p || x == c[i] || x !in c)
      ensures x !in c[i + 1..]
    {
      assert c == c[..i + 1] + c[i + 1..];
    }
    assert c[i + 1..] == c[i + 1..][..k] + c[i + 1..][k..];
    forall x | x in mem && x !in c
      ensures x in mem1 && mem1[x] == mem[x]
    {
      assert c == c[..i + 1] + c[i + 1..];
    }
  }

  /** The total of a pbuf that links into what was cut is wrong afterwards. */
  lemma CutTotals(mem: Memory, chain: Chains, mem1: Memory, mem2: Memory, chain2: Chains,
                  p: nat, i: nat, d: int, data: seq<Octet>, k: nat)
    requires Chained(mem, chain) && Tots(mem) && p in mem && i < |chain[p]| && chain[p][i] in mem
    requires mem1 == CutMem(mem, chain[p], i, d, data) && mem[chain[p][i]].totLen + d == |data|
    requires Chained(mem1, Rechain(chain, chain[p][i], None)) && Chained(mem2, chain2)
    requires Kept(mem1, Rechain(chain, chain[p][i], None), mem2, chain2)
    requires k <= |chain[p][i + 1..]| && mem2 == FreedMem(mem1, chain[p][i + 1..], k)
    requires !Owns(mem, chain[p][..i + 1]) && d != 0
    ensures !Tots(mem2)
  {
    hide Linked, Content, Rechain, TotOk, Tots;
    var c := chain[p];
    var x :| x in mem && x !in c[..i + 1] && Joins(mem, c[..i + 1], x);
    if x in c {
      NotBack(mem, chain, p, i, x);
    }
    CutSurvives(mem, chain, p, i, d, data, k);
    ShiftedCounts(mem, chain, p, i, d, None, data, x);
    ShiftedAt(mem, c[..i + 1], d, None, data, x);
    assert x in mem1 && mem1[x] == mem[x] && x in mem2 && mem2[x] == mem[x];
    KeptUse(mem1, Rechain(chain, c[i], None), mem2, chain2, x);
    if Tots(mem2) {
      TotCounts(mem2, chain2, x);
    }
  }

  // ----- what pbuf_dechain and pbuf_realloc need ------------------------------------------------

  /** What pbuf_dechain cuts is the first pbuf. */
  lemma DechainCut(mem: Memory, chain: Chains, p: nat)
    requires Chained(mem, chain) && Tots(mem) && p in mem
    ensures |chain[p]| > 0 && chain[p][0] == p && chain[p][..1] == [p]
    ensures mem[p].next.None? ==> chain[p] == [p]
    ensures mem[p].next.Some? ==>
      var q, len := mem[p].next.value, |mem[p].data|;
      && q in mem && q != p && mem[q].totLen == mem[p].totLen - len
    ensures Owns(mem, [p]) <==> Preds(mem, p) == {}
    ensures mem[p].data[..|mem[p].data|] == mem[p].data && |mem[p].data| <= 0xffff
  {
    hide Owns, Preds;
    assert Linked(mem, chain, p) && TotOk(mem, p);
    ChainAt(mem, chain, p, 0);
    NotLonger(chain[p], p);
    OwnsOne(mem, chain, p);
  }

  lemma NotLonger(c: seq<nat>, x: nat)
    ensures c != [x] + c
  {
    assert |[x] + c| == 1 + |c|;
  }

  lemma OwnsOne(mem: Memory, chain: Chains, p: nat)
    requires Chained(mem, chain) && p in mem
    ensures Owns(mem, [p]) <==> Preds(mem, p) == {}
  {
    assert Linked(mem, chain, p);
    NotLonger(chain[p], p);
    if x :| x in Preds(mem, p) {
      assert Joins(mem, [p], x);
    } else {
      forall x | x in mem && x !in [p]
        ensures !Joins(mem, [p], x)
      {
        assert x !in Preds(mem, p);
      }
    }
  }

  lemma OnlyPbuf(mem: Memory, chain: Chains, p: nat)
    requires Chained(mem, chain) && p in mem && chain[p] == [p]
    ensures Content(mem, chain, p) == mem[p].data
  {
    ChainAt(mem, chain, p, 0);
    EndText(mem, chain, p);
  }

  /** A pbuf without successor is not changed by pbuf_dechain. */
  lemma DechainNone(mem: Memory, chain: Chains, p: nat)
    requires Chained(mem, chain) && Tots(mem) && p in mem && mem[p].next.None?
    ensures mem[p].totLen == |mem[p].data| && TailFreed(mem, chain, None, 0, mem)
    ensures Shortened(mem, chain, mem, chain, p, 0) && RestSame(mem, mem, chain[p])
  {
    assert TotOk(mem, p);
    hide Content;
  }

  lemma ShrunkAt(mem1: Memory, chain1: Chains, mem2: Memory, chain2: Chains, p: nat)
    requires Chained(mem2, chain2) && Shrunk(mem1, chain1, mem2, chain2) && p in mem2
    ensures p in chain1 && p in chain2 && chain2[p] == chain1[p]
  {
  }

  lemma ReallocStart(mem: Memory, chain: Chains, p: nat, grow: int)
    requires Chained(mem, chain) && p in mem
    ensures p in chain && |chain[p]| > 0 && chain[p][0] == p && Raised(mem, chain[p], 0, grow) == mem
    ensures Live(mem, chain[p][..0]) && Flat(mem, chain[p][..0]) == []
  {
    ChainAt(mem, chain, p, 0);
    RaisedNone(mem, chain[p], grow);
  }

  lemma ReallocStep(mem: Memory, chain: Chains, p: nat, i: nat, newLen: nat, rem: nat)
    requires Chained(mem, chain) && Tots(mem) && p in mem && i < |chain[p]| && chain[p][i] in mem
    requires newLen < mem[p].totLen && Live(mem, chain[p][..i])
    requires newLen == |Flat(mem, chain[p][..i])| + rem && rem > |mem[chain[p][i]].data|
    ensures i + 1 < |chain[p]| && mem[chain[p][i]].next == Some(chain[p][i + 1])
    ensures Live(mem, chain[p][..i + 1])
    ensures newLen == |Flat(mem, chain[p][..i + 1])| + rem - |mem[chain[p][i]].data|
  {
    hide Linked, TotOk, Tots;
    ChainAt(mem, chain, p, i);
    TextAt(mem, chain, p);
    FlatAt(mem, chain[p], i);
    TotCounts(mem, chain, p);
    assert |Flat(mem, chain[p][i + 1..])| > 0;
    assert chain[p][i + 1..] != [];
  }

  /** One more total is changed. */
  lemma RaiseNext(mem: Memory, chain: Chains, p: nat, i: nat, d: int)
    requires Chained(mem, chain) && p in mem && i + 1 < |chain[p]|
    ensures var c := chain[p];
      && c[i] in mem && c[i + 1] in mem
      && Raised(mem, c, i, d)[c[i] := mem[c[i]].(totLen := (mem[c[i]].totLen + d) % 0x1_0000)]
           == Raised(mem, c, i + 1, d)
      && c[i + 1] in Raised(mem, c, i + 1, d) && Raised(mem, c, i + 1, d)[c[i + 1]] == mem[c[i + 1]]
  {
    hide Raised, Linked;
    ChainAt(mem, chain, p, i);
    ChainAt(mem, chain, p, i + 1);
    ChainFresh(mem, chain, p, i);
    ChainFresh(mem, chain, p, i + 1);
    RaisedStep(mem, chain[p], i, d);
    RaisedRest(mem, chain[p], i + 1, d);
  }

  /** The cut of pbuf_realloc. */
  lemma ReallocCut(mem: Memory, chain: Chains, p: nat, i: nat, newLen: nat, rem: nat, grow: int)
    requires Chained(mem, chain) && Tots(mem) && p in mem && i < |chain[p]| && chain[p][i] in mem
    requires newLen < mem[p].totLen && Live(mem, chain[p][..i])
    requires newLen == |Flat(mem, chain[p][..i])| + rem && rem <= |mem[chain[p][i]].data|
    requires grow == newLen - mem[p].totLen
    ensures mem[chain[p][i]].totLen + grow == rem
    ensures newLen % 0x1_0000 == newLen
  {
    TextAt(mem, chain, p);
    hide *;
    TotSuffix(mem, chain, p, i);
    BoundedTotal(mem, p);
    Fits16(newLen);
  }

  lemma Fits16(n: nat)
    requires n <= 0xffff
    ensures n % 0x1_0000 == n
  {
  }

  lemma ReallocShift(mem: Memory, chain: Chains, p: nat, i: nat, d: int, data: seq<Octet>)
    requires Chained(mem, chain) && p in mem && i < |chain[p]| && chain[p][i] in mem
    ensures var q, mem' := mem[chain[p][i]], CutMem(mem, chain[p], i, d, data);
      && mem' == Raised(mem, chain[p], i, d)[chain[p][i] := Pbuf(None, data, (q.totLen + d) % 0x1_0000, q.ref)]
      && p in mem' && mem'[p].totLen == (mem[p].totLen + d) % 0x1_0000
  {
    TextAt(mem, chain, p);
    ChainFresh(mem, chain, p, i);
    ChainAt(mem, chain, p, 0);
    hide Linked, Raised, Shifted, Chained, Live;
    ShiftedIs(mem, chain[p], i, d, None, data);
    ShiftedAt(mem, chain[p][..i + 1], d, None, data, p);
    assert chain[p][..i + 1][0] == p;
  }

  lemma ReallocNone(mem: Memory, chain: Chains, p: nat)
    requires Chained(mem, chain) && p in mem
    ensures chain[p] != [] && Last(chain[p]) in mem && RestSame(mem, mem, chain[p])
  {
    ChainAt(mem, chain, p, 0);
    ChainAt(mem, chain, p, |chain[p]| - 1);
  }

  /** Nothing is cut off. */
  lemma NoRest(mem: Memory, chain: Chains)
    requires Chained(mem, chain)
    ensures IsRun(mem, [], 0) && FreedMem(mem, [], 0) == mem && Kept(mem, chain, mem, chain)
    ensures Shrunk(mem, chain, mem, chain)
  {
    Same(mem, chain);
  }

  lemma ReallocEnd(mem: Memory, chain: Chains, mem2: Memory, chain2: Chains, p: nat, i: nat, newLen: nat)
    requires Chained(mem, chain) && Tots(mem) && p in mem && i < |chain[p]| && newLen < mem[p].totLen
    requires Chained(mem2, chain2) && p in mem2 && chain2[p] == chain[p][..i + 1]
    requires Shortened(mem, chain, mem2, chain2, chain[p][i], mem[p].totLen - newLen)
    ensures Last(chain2[p]) == chain[p][i]
    ensures newLen <= |Content(mem, chain, p)| && Content(mem2, chain2, p) == Content(mem, chain, p)[..newLen]
  {
    TotCounts(mem, chain, p);
    hide Content;
    assert Lost(Content(mem, chain, p), Content(mem2, chain2, p), mem[p].totLen - newLen);
  }

  lemma NotInRest(mem: Memory, chain: Chains, p: nat, i: nat)
    requires Chained(mem, chain) && p in mem && i < |chain[p]|
    ensures p !in chain[p][i + 1..]
  {
    ChainAt(mem, chain, p, 0);
    forall j | i < j < |chain[p]|
      ensures chain[p][j] != p
    {
      ChainDistinct(mem, chain, p, 0, j);
    }
  }
}
