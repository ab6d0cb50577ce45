/** The contents of pbuf chains (pbuf.c pbuf_take, pbuf_copy_partial, pbuf_copy; the front trim
    of tcp_receive in tcp_in.c).  Every statement is about the octets a chain denotes, so none
    depends on how the chain is cut into pbufs. */
module PbufData {
  import opened Options
  import opened TcpWindow
  import opened Pbufs

  // ----- changing payloads in place ----------------------------------------------------------

  /** mem' differs from mem in octets of payloads only, and only in pbufs of c. */
  predicate Rewritten(mem: Memory, mem': Memory, c: seq<nat>) {
    && mem'.Keys == mem.Keys
    && forall x {:trigger mem'[x]} :: x in mem ==>
         && mem'[x] == mem[x].(data := mem'[x].data) && |mem'[x].data| == |mem[x].data|
         && (x !in c ==> mem'[x] == mem[x])
  }

  lemma RewrittenGood(mem: Memory, mem': Memory, chain: Chains, handles: multiset<nat>, c: seq<nat>)
    requires Good(mem, chain, handles, None) && Rewritten(mem, mem', c)
    ensures Good(mem', chain, handles, None)
  {
    forall x | x in mem'
      ensures Linked(mem', chain, x) && TotOk(mem', x) && RefOk(mem', handles, None, x)
    {
      assert mem'[x].next == mem[x].next;
      assert Linked(mem, chain, x) && TotOk(mem, x) && RefOk(mem, handles, None, x);
      forall y | y in mem
        ensures mem'[y].next == mem[y].next
      {
      }
      assert Preds(mem', x) == Preds(mem, x);
    }
  }

  lemma RewrittenSelf(mem: Memory, c: seq<nat>)
    ensures Rewritten(mem, mem, c)
  {
  }

  lemma RewrittenText(mem: Memory, mem': Memory, chain: Chains, c: seq<nat>, x: nat)
    requires Chained(mem, chain) && Chained(mem', chain) && Rewritten(mem, mem', c) && x in mem
    requires forall j :: 0 <= j < |chain[x]| ==> chain[x][j] !in c
    ensures x in mem' && Content(mem', chain, x) == Content(mem, chain, x)
  {
    ChainAt(mem, chain, x, 0);
    ChainAt(mem', chain, x, 0);
    FlatSame(mem, mem', chain[x]);
  }

  // ----- reading a part ------------------------------------------------------------------------

  /** At most n octets of s from position o on. */
  function Part(s: seq<Octet>, o: nat, n: nat): seq<Octet> {
    if o >= |s| then [] else if o + n > |s| then s[o..] else s[o..o + n]
  }

  lemma PartAppend(a: seq<Octet>, b: seq<Octet>, o: nat, n: nat)
    ensures |Part(a, o, n)| <= n
    ensures Part(a + b, o, n) == Part(a, o, n) + Part(b, if o > |a| then o - |a| else 0, n - |Part(a, o, n)|)
  {
  }

  /** pbuf_copy_partial: `left`, `copied` and the return value are the length of dst. */
  method CopyPartial(h: PbufHeap, buf: nat, length: nat, start: nat) returns (dst: seq<Octet>)
    requires h.Valid() && buf in h.mem
    ensures dst == Part(h.Text(buf), start, length)
  {
    hide Linked, Tots, Refs, Part;
    var p, len, offset := Some(buf), length, start;
    dst := [];
    ghost var c, i: nat := h.chain[buf], 0;
    ChainAt(h.mem, h.chain, buf, 0);
    PartNone(start, length);
    while len != 0 && p.Some?
      invariant i <= |c| && p == (if i < |c| then Some(c[i]) else None)
      invariant Live(h.mem, c[..i])
      invariant dst == Part(Flat(h.mem, c[..i]), start, length) && len == length - |dst|
      invariant offset == if start > |Flat(h.mem, c[..i])| then start - |Flat(h.mem, c[..i])| else 0
      decreases |c| - i
    {
      ChainAt(h.mem, h.chain, buf, i);
      FlatAt(h.mem, c, i);
      var q := h.mem[p.value];
      PartAppend(Flat(h.mem, c[..i]), q.data, start, length);
      PartOne(q.data, offset, len);
      if offset != 0 && offset >= |q.data| {
        offset := offset - |q.data|;
      } else {
        var n := |q.data| - offset;
        if n > len {
          n := len;
        }
        dst := dst + q.data[offset..offset + n];
        len := len - n;
        offset := 0;
      }
      p := q.next;
      i := i + 1;
    }
    assert c[..i] + c[i..] == c;
    LiveAppend(h.mem, c[..i], c[i..]);
    FlatAppend(h.mem, c[..i], c[i..]);
    PartAppend(Flat(h.mem, c[..i]), Flat(h.mem, c[i..]), start, length);
    PartOne(Flat(h.mem, c[i..]), offset, len);
  }

  /** Its octets, one by one. */
  lemma PartElements(s: seq<Octet>, o: nat, n: nat)
    ensures |Part(s, o, n)| == if o >= |s| then 0 else if n < |s| - o then n else |s| - o
    ensures forall k :: 0 <= k < |Part(s, o, n)| ==> Part(s, o, n)[k] == s[o + k]
  {
  }

  lemma PartNone(o: nat, n: nat)
    ensures Part([], o, n) == []
  {
  }

  lemma PartOne(s: seq<Octet>, o: nat, n: nat)
    ensures o >= |s| || n == 0 ==> Part(s, o, n) == []
    ensures o <= |s| ==> Part(s, o, n) == s[o..o + if |s| - o > n then n else |s| - o]
  {
  }

  // ----- filling a chain -----------------------------------------------------------------------

  /** pbuf_take: the first octets of the chain become the given ones. */
  method Take(h: PbufHeap, buf: nat, data: seq<Octet>) returns (err: int)
    requires h.Valid() && buf in h.mem
    modifies h`mem
    ensures h.Valid() && Rewritten(old(h.mem), h.mem, h.chain[buf])
    ensures err == if |old(h.Text(buf))| < |data| then ERR_ARG else ERR_OK
    ensures err != ERR_OK ==> h.mem == old(h.mem)
    ensures err == ERR_OK ==> h.Text(buf) == data + old(h.Text(buf))[|data|..]
  {
    hide Linked, Refs, Live, Filled, Rewritten, Content, Flat;
    TotCounts(h.mem, h.chain, buf);
    TextAt(h.mem, h.chain, buf);
    RewrittenSelf(h.mem, h.chain[buf]);
    if h.mem[buf].totLen < |data| {
      return ERR_ARG;
    }
    ghost var mem, c, i: nat := h.mem, h.chain[buf], 0;
    ChainAt(mem, h.chain, buf, 0);
    FillNone(mem, c, data);
    var p, left: nat, copied: nat := Some(buf), |data|, 0;
    while left != 0
      invariant i <= |c| && p == (if i < |c| then Some(c[i]) else None) && copied + left == |data|
      invariant Filled(mem, h.mem, c, data, i, copied)
      modifies h`mem
      decreases |c| - i
    {
      FilledNext(mem, h.mem, c, data, i, copied);
      ChainAt(mem, h.chain, buf, i);
      ChainFresh(mem, h.chain, buf, i);
      var q := h.mem[p.value];
      var n := if left > |q.data| then |q.data| else left;
      FillStep(mem, h.mem, c, data, i, copied, n);
      h.mem := h.mem[p.value := q.(data := data[copied..copied + n] + q.data[n..])];
      left := left - n;
      copied := copied + n;
      p := q.next;
      i := i + 1;
    }
    FilledWhere(mem, h.mem, c, data, i, copied);
    RewrittenGood(mem, h.mem, h.chain, h.handles, c);
    FillEnd(mem, h.mem, h.chain, buf, data, i);
    err := ERR_OK;
  }

  /** pbuf_take has filled the first i pbufs of c with the first octets of data. */
  predicate Filled(mem: Memory, mem': Memory, c: seq<nat>, data: seq<Octet>, i: nat, copied: nat) {
    && i <= |c| && Live(mem, c) && Live(mem, c[..i]) && Live(mem', c[..i]) && |data| <= |Flat(mem, c)|
    && Rewritten(mem, mem', c) && (forall x {:trigger mem'[x]} :: x in mem && x !in c[..i] ==> mem'[x] == mem[x])
    && copied <= |data| && copied <= |Flat(mem, c[..i])| && (copied < |data| ==> copied == |Flat(mem, c[..i])|)
    && Flat(mem', c[..i]) == data[..copied] + Flat(mem, c[..i])[copied..]
  }

  lemma FillNone(mem: Memory, c: seq<nat>, data: seq<Octet>)
    requires Live(mem, c) && |data| <= |Flat(mem, c)|
    ensures Filled(mem, mem, c, data, 0, 0)
  {
  }

  lemma FilledNext(mem: Memory, mem': Memory, c: seq<nat>, data: seq<Octet>, i: nat, copied: nat)
    requires Filled(mem, mem', c, data, i, copied) && copied < |data|
    ensures i < |c| && c[i] in mem && c[i] in mem'
    ensures c[i] !in c[..i] ==> mem'[c[i]] == mem[c[i]]
  {
    assert c[..|c|] == c;
  }

  lemma FillStep(mem: Memory, mem': Memory, c: seq<nat>, data: seq<Octet>, i: nat, copied: nat, n: nat)
    requires Filled(mem, mem', c, data, i, copied) && copied < |data| && i < |c| && c[i] !in c[..i]
    requires c[i] in mem && c[i] in mem' && mem'[c[i]] == mem[c[i]]
    requires var len := |mem[c[i]].data|; n == if |data| - copied > len then len else |data| - copied
    ensures Filled(mem, mem'[c[i] := mem[c[i]].(data := data[copied..copied + n] + mem[c[i]].data[n..])],
                   c, data, i + 1, copied + n)
  {
    var old' := mem[c[i]].data;
    var mem'' := mem'[c[i] := mem[c[i]].(data := data[copied..copied + n] + old'[n..])];
    FillFlat(mem, mem', mem'', c, i, data[copied..copied + n] + old'[n..]);
    var a, b := Flat(mem, c[..i]), Flat(mem, c[..i + 1]);
    FillOctets(a, old', data, copied, n);
    assert c[..i + 1] == c[..i] + [c[i]];
  }

  lemma FillOctets(a: seq<Octet>, was: seq<Octet>, data: seq<Octet>, copied: nat, n: nat)
    requires copied + n <= |data| && |a| == copied && n <= |was|
    ensures data[..copied] + a[copied..] + (data[copied..copied + n] + was[n..])
         == data[..copied + n] + (a + was)[copied + n..]
  {
    assert (a + was)[copied + n..] == was[n..];
    assert data[..copied + n] == data[..copied] + data[copied..copied + n];
  }

  lemma FillFlat(mem: Memory, mem': Memory, mem'': Memory, c: seq<nat>, i: nat, new': seq<Octet>)
    requires i < |c| && c[i] !in c[..i] && Live(mem, c) && Live(mem, c[..i]) && Live(mem', c[..i])
    requires c[i] in mem' && mem'' == mem'[c[i] := mem'[c[i]].(data := new')]
    ensures Live(mem, c[..i + 1]) && Flat(mem, c[..i + 1]) == Flat(mem, c[..i]) + mem[c[i]].data
    ensures Live(mem'', c[..i + 1]) && Flat(mem'', c[..i + 1]) == Flat(mem', c[..i]) + new'
  {
    FlatAt(mem, c, i);
    assert c[..i + 1] == c[..i] + [c[i]];
    LiveAppend(mem'', c[..i], [c[i]]);
    FlatSame(mem', mem'', c[..i]);
    assert c[..i + 1][..i] == c[..i] && c[..i + 1][i + 1..] == [] && c[..i + 1][i] == c[i];
    FlatAt(mem'', c[..i + 1], i);
    assert Flat(mem'', []) == [];
  }

  lemma FilledWhere(mem: Memory, mem': Memory, c: seq<nat>, data: seq<Octet>, i: nat, copied: nat)
    requires Filled(mem, mem', c, data, i, copied)
    ensures Rewritten(mem, mem', c)
  {
  }

  lemma FillEnd(mem: Memory, mem': Memory, chain: Chains, buf: nat, data: seq<Octet>, i: nat)
    requires Chained(mem, chain) && Chained(mem', chain) && buf in mem && buf in mem'
    requires i <= |chain[buf]| && Filled(mem, mem', chain[buf], data, i, |data|)
    ensures |data| <= |Content(mem, chain, buf)|
    ensures Content(mem', chain, buf) == data + Content(mem, chain, buf)[|data|..]
  {
    TextAt(mem, chain, buf);
    hide *;
    TextAt(mem', chain, buf);
    FillTail(mem, mem', chain, buf, data, i);
    FillJoin(mem, mem', chain[buf], data, i);
  }

  lemma FillJoin(mem: Memory, mem': Memory, c: seq<nat>, data: seq<Octet>, i: nat)
    requires i <= |c| && Live(mem, c) && Live(mem', c)
    requires Live(mem, c[..i]) && Live(mem', c[..i]) && Live(mem, c[i..]) && Live(mem', c[i..])
    requires |data| <= |Flat(mem, c[..i])| && Flat(mem', c[..i]) == data + Flat(mem, c[..i])[|data|..]
    requires Flat(mem', c[i..]) == Flat(mem, c[i..])
    ensures |data| <= |Flat(mem, c)| && Flat(mem', c) == data + Flat(mem, c)[|data|..]
  {
    hide *;
    assert c == c[..i] + c[i..];
    FlatAppend(mem, c[..i], c[i..]);
    FlatAppend(mem', c[..i], c[i..]);
  }

  /** Behind what was filled nothing has changed. */
  lemma FillTail(mem: Memory, mem': Memory, chain: Chains, buf: nat, data: seq<Octet>, i: nat)
    requires Chained(mem, chain) && buf in mem && i <= |chain[buf]|
    requires Filled(mem, mem', chain[buf], data, i, |data|)
    ensures Live(mem, chain[buf]) && Live(mem, chain[buf][..i]) && Live(mem', chain[buf][..i])
    ensures Live(mem, chain[buf][i..]) && Live(mem', chain[buf][i..])
    ensures Flat(mem', chain[buf][i..]) == Flat(mem, chain[buf][i..]) && |data| <= |Flat(mem, chain[buf][..i])|
    ensures Flat(mem', chain[buf][..i]) == data + Flat(mem, chain[buf][..i])[|data|..]
  {
    var c := chain[buf];
    assert data[..|data|] == data;
    forall j | 0 <= j < |c[i..]|
      ensures c[i..][j] in mem && c[i..][j] in mem' && mem'[c[i..][j]].data == mem[c[i..][j]].data
    {
      NotIn(mem, chain, buf, i, i + j);
    }
    hide Flat, Chained;
    FlatSame(mem, mem', c[i..]);
  }

  lemma NotIn(mem: Memory, chain: Chains, buf: nat, i: nat, j: nat)
    requires Chained(mem, chain) && buf in mem && i <= j < |chain[buf]|
    ensures chain[buf][j] !in chain[buf][..i]
  {
    forall k | 0 <= k < i
      ensures chain[buf][k] != chain[buf][j]
    {
      ChainDistinct(mem, chain, buf, k, j);
    }
  }

  /** What pbuf_take has put into a chain, pbuf_copy_partial reads back from any offset,
      however the chain is cut. */
  method RoundTrip(h: PbufHeap, buf: nat, data: seq<Octet>, start: nat, n: nat) returns (dst: seq<Octet>)
    requires h.Valid() && buf in h.mem && start + n <= |data| <= |h.Text(buf)|
    modifies h`mem
    ensures h.Valid() && dst == data[start..start + n]
  {
    hide Chained, Tots, Refs, Content, Flat;
    ghost var rest := h.Text(buf)[|data|..];
    var _ := Take(h, buf, data);
    dst := CopyPartial(h, buf, n, start);
    PartAppend(data, rest, start, n);
    PartOne(data, start, n);
    PartOne(rest, 0, n - |Part(data, start, n)|);
  }

  // ----- copying between chains ------------------------------------------------------------------

  predicate NonEmpty(mem: Memory, c: seq<nat>) {
    forall k :: 0 <= k < |c| ==> c[k] in mem && mem[c[k]].data != []
  }

  /** The first octets of the chain `to`, up to pbuf i and offset offTo, are those of the chain
      `from`, up to pbuf j and offset offFrom. */
  predicate Moved(mem: Memory, mem': Memory, to: seq<nat>, from: seq<nat>, i: nat, offTo: nat, j: nat, offFrom: nat) {
    && i <= |to| && j <= |from| && Live(mem, to) && Live(mem, from) && Live(mem', to)
    && Rewritten(mem, mem', to)
    && Live(mem, to[..i]) && Live(mem, from[..j])
    && (if i < |to| then offTo <= |mem[to[i]].data| else offTo == 0)
    && (if j < |from| then offFrom <= |mem[from[j]].data| else offFrom == 0)
    && var moved := |Flat(mem, to[..i])| + offTo;
       && moved == |Flat(mem, from[..j])| + offFrom && moved <= |Flat(mem, from)| && moved <= |Flat(mem, to)|
       && (Apart(to, from) ==> Flat(mem', to) == Flat(mem, from)[..moved] + Flat(mem, to)[moved..])
  }

  /** The chains share no pbuf. */
  predicate Apart(to: seq<nat>, from: seq<nat>) {
    forall k :: 0 <= k < |from| ==> from[k] !in to
  }

  /** No pbuf is empty, and the chain `to` holds the chain `from`. */
  ghost predicate CanCopy(mem: Memory, chain: Chains, to: nat, from: nat)
    requires Chained(mem, chain) && to in mem && from in mem
  {
    && NonEmpty(mem, chain[to]) && NonEmpty(mem, chain[from])
    && |Content(mem, chain, from)| <= |Content(mem, chain, to)|
  }

  /** The pbuf is the end of a packet with more pbufs behind it. */
  predicate IsQueue(mem: Memory, p: Option<nat>) {
    p.Some? && p.value in mem && |mem[p.value].data| == mem[p.value].totLen && mem[p.value].next.Some?
  }

  function At(c: seq<nat>, i: nat): Option<nat> {
    if i < |c| then Some(c[i]) else None
  }

  /** pbuf_copy.  Only octets of the chain `to` change; they are those of `from` if the chains
      share no pbuf. */
  method Copy(h: PbufHeap, to: nat, from: nat) returns (err: int)
    requires h.Valid() && to in h.mem && from in h.mem
    modifies h`mem
    ensures h.Valid() && Rewritten(old(h.mem), h.mem, h.chain[to])
    ensures |old(h.Text(from))| > |old(h.Text(to))| ==> err == ERR_ARG && h.mem == old(h.mem)
    ensures err == ERR_OK ==> |old(h.Text(from))| <= |old(h.Text(to))|
    ensures Apart(h.chain[to], h.chain[from]) ==>
      && h.Text(from) == old(h.Text(from))
      && (err == ERR_OK ==> h.Text(to) == old(h.Text(from)) + old(h.Text(to))[|old(h.Text(from))|..])
    ensures CanCopy(old(h.mem), h.chain, to, from) ==> err == ERR_OK
  {
    hide Linked, Tots, Refs, Live, Moved, Rewritten, Content, Flat, NonEmpty, IsQueue, Apart, TotOk;
    ghost var mem, ct, cf := h.mem, h.chain[to], h.chain[from];
    RewrittenSelf(mem, ct);
    TextAt(mem, h.chain, to);
    TextAt(mem, h.chain, from);
    TotCounts(mem, h.chain, to);
    TotCounts(mem, h.chain, from);
    if h.mem[to].totLen < h.mem[from].totLen {
      return ERR_ARG;
    }
    MoveNone(mem, h.chain, to, from);
    ghost var i: nat, j: nat := 0, 0;
    var pTo, pFrom, offTo: nat, offFrom: nat := to, from, 0, 0;
    while true
      invariant i < |ct| && j < |cf| && pTo == ct[i] && pFrom == cf[j]
      invariant Moved(mem, h.mem, ct, cf, i, offTo, j, offFrom)
      modifies h`mem
      decreases |ct| - i + |cf| - j
    {
      ChainAt(mem, h.chain, to, i);
      ChainAt(mem, h.chain, from, j);
      var n := CopyPiece(h, mem, to, from, i, pTo, offTo, j, pFrom, offFrom);
      offTo := offTo + n;
      offFrom := offFrom + n;
      var nextTo, nextFrom := Some(pTo), Some(pFrom);
      if offFrom >= |h.mem[pFrom].data| {
        offFrom := 0;
        nextFrom := h.mem[pFrom].next;
        MoveFrom(mem, h.mem, ct, cf, i, offTo, j);
        j := j + 1;
      }
      if offTo == |h.mem[pTo].data| {
        offTo := 0;
        nextTo := h.mem[pTo].next;
        MoveTo(mem, h.mem, ct, cf, i, j, offFrom);
        i := i + 1;
      }
      MovedWhere(mem, h.mem, h.chain, h.handles, to, i, offTo, from, j, offFrom);
      CopyGoesOn(mem, h.mem, h.chain, to, i, offTo, from, j, offFrom);
      assert nextTo == At(ct, i) && nextFrom == At(cf, j);
      if nextTo.None? && nextFrom.Some? {
        return ERR_ARG;
      }
      if IsQueue(h.mem, nextFrom) || IsQueue(h.mem, nextTo) {
        return ERR_VAL;
      }
      if nextFrom.None? {
        return ERR_OK;
      }
      pTo, pFrom := nextTo.value, nextFrom.value;
    }
  }

  /** As many octets as the pbuf p still has room for and the pbuf q still has. */
  method CopyPiece(h: PbufHeap, ghost mem: Memory, ghost to: nat, ghost from: nat,
                   ghost i: nat, p: nat, offTo: nat, ghost j: nat, q: nat, offFrom: nat) returns (n: nat)
    requires Chained(mem, h.chain) && to in mem && from in mem
    requires i < |h.chain[to]| && j < |h.chain[from]| && p == h.chain[to][i] && q == h.chain[from][j]
    requires Moved(mem, h.mem, h.chain[to], h.chain[from], i, offTo, j, offFrom)
    modifies h`mem
    ensures Moved(mem, h.mem, h.chain[to], h.chain[from], i, offTo + n, j, offFrom + n)
    ensures p in mem && q in mem && p in h.mem && q in h.mem
    ensures h.mem[p].next == mem[p].next && h.mem[q].next == mem[q].next
    ensures offTo + n <= |h.mem[p].data| == |mem[p].data| && offFrom + n <= |h.mem[q].data| == |mem[q].data|
    ensures offTo + n == |mem[p].data| || offFrom + n == |mem[q].data|
  {
    hide Linked, Live, Moved, Rewritten, Flat, Apart, Patched;
    MovedAt(mem, h.mem, h.chain, to, from, i, offTo, j, offFrom);
    var a, b := h.mem[p], h.mem[q];
    n := if |a.data| - offTo >= |b.data| - offFrom then |b.data| - offFrom else |a.data| - offTo;
    var now := a.data[..offTo] + b.data[offFrom..offFrom + n] + a.data[offTo + n..];
    IsPatched(a.data, offTo, b.data, offFrom, n, now);
    ChainFresh(mem, h.chain, to, i);
    MoveStep(mem, h.mem, h.chain[to], h.chain[from], i, offTo, j, offFrom, n, now);
    h.mem := h.mem[p := a.(data := now)];
    PatchedSize(a.data, offTo, b.data, offFrom, n, now);
  }

  lemma MoveNone(mem: Memory, chain: Chains, to: nat, from: nat)
    requires Chained(mem, chain) && to in mem && from in mem
    ensures |chain[to]| > 0 && |chain[from]| > 0 && chain[to][0] == to && chain[from][0] == from
    ensures Moved(mem, mem, chain[to], chain[from], 0, 0, 0, 0)
  {
    ChainAt(mem, chain, to, 0);
    ChainAt(mem, chain, from, 0);
  }

  /** Where a chain has been walked to, its links are those of the memory it started from. */
  lemma MovedAt(mem: Memory, mem': Memory, chain: Chains, to: nat, from: nat,
                i: nat, offTo: nat, j: nat, offFrom: nat)
    requires Chained(mem, chain) && to in mem && from in mem
    requires i < |chain[to]| && j < |chain[from]|
    requires Moved(mem, mem', chain[to], chain[from], i, offTo, j, offFrom)
    ensures chain[to][i] in mem' && chain[from][j] in mem' && chain[to][i] in mem && chain[from][j] in mem
    ensures var b := mem'[chain[from][j]];
      && b == mem[chain[from][j]].(data := b.data) && |b.data| == |mem[chain[from][j]].data|
      && (Apart(chain[to], chain[from]) ==> b == mem[chain[from][j]])
    ensures var a := mem'[chain[to][i]];
      a == mem[chain[to][i]].(data := a.data) && |a.data| == |mem[chain[to][i]].data| >= offTo
    ensures offFrom <= |mem[chain[from][j]].data|
  {
  }

  lemma MoveFrom(mem: Memory, mem': Memory, to: seq<nat>, from: seq<nat>, i: nat, offTo: nat, j: nat)
    requires j < |from| && from[j] in mem && Moved(mem, mem', to, from, i, offTo, j, |mem[from[j]].data|)
    ensures Moved(mem, mem', to, from, i, offTo, j + 1, 0)
  {
    FlatAt(mem, from, j);
  }

  lemma MoveTo(mem: Memory, mem': Memory, to: seq<nat>, from: seq<nat>, i: nat, j: nat, offFrom: nat)
    requires i < |to| && to[i] in mem && Moved(mem, mem', to, from, i, |mem[to[i]].data|, j, offFrom)
    ensures Moved(mem, mem', to, from, i + 1, 0, j, offFrom)
  {
    FlatAt(mem, to, i);
  }

  /** Replacing octets of one pbuf replaces the same octets of the chain. */
  lemma Splice(mem: Memory, mem': Memory, c: seq<nat>, i: nat, off: nat, piece: seq<Octet>)
    requires i < |c| && Live(mem, c) && c[i] !in c[..i] && c[i] !in c[i + 1..]
    requires c[i] in mem && off + |piece| <= |mem[c[i]].data|
    requires mem' == mem[c[i] := mem[c[i]].(data := mem[c[i]].data[..off] + piece + mem[c[i]].data[off + |piece|..])]
    ensures Live(mem', c) && Live(mem, c[..i])
    ensures var pos, s := |Flat(mem, c[..i])| + off, Flat(mem, c);
      pos + |piece| <= |s| && Flat(mem', c) == s[..pos] + piece + s[pos + |piece|..]
  {
    hide *;
    var b := mem[c[i]].data;
    SpliceParts(mem, mem', c, i, b[..off] + piece + b[off + |piece|..]);
    SpliceOctets(Flat(mem, c[..i]), b, Flat(mem, c[i + 1..]), off, piece);
  }

  lemma SpliceParts(mem: Memory, mem': Memory, c: seq<nat>, i: nat, data: seq<Octet>)
    requires i < |c| && Live(mem, c) && c[i] !in c[..i] && c[i] !in c[i + 1..]
    requires c[i] in mem && mem' == mem[c[i] := mem[c[i]].(data := data)]
    ensures Live(mem', c) && Live(mem, c[..i]) && Live(mem, c[i + 1..])
    ensures Flat(mem, c) == Flat(mem, c[..i]) + mem[c[i]].data + Flat(mem, c[i + 1..])
    ensures Flat(mem', c) == Flat(mem, c[..i]) + data + Flat(mem, c[i + 1..])
  {
    hide Flat;
    FlatAt(mem, c, i);
    assert Live(mem', c);
    FlatAt(mem', c, i);
    FlatSame(mem, mem', c[..i]);
    FlatSame(mem, mem', c[i + 1..]);
  }

  lemma SpliceOctets(a: seq<Octet>, b: seq<Octet>, c: seq<Octet>, off: nat, piece: seq<Octet>)
    requires off + |piece| <= |b|
    ensures var s, pos := a + b + c, |a| + off;
      a + (b[..off] + piece + b[off + |piece|..]) + c == s[..pos] + piece + s[pos + |piece|..]
  {
    var s, pos := a + b + c, |a| + off;
    assert s[..pos] == a + b[..off];
    assert s[pos + |piece|..] == b[off + |piece|..] + c;
  }

  /** `now` is `was` with a piece of the source at offTo. */
  predicate Patched(was: seq<Octet>, offTo: nat, source: seq<Octet>, offFrom: nat, n: nat, now: seq<Octet>) {
    && offTo + n <= |was| && offFrom + n <= |source| && |now| == |was|
    && now == was[..offTo] + source[offFrom..offFrom + n] + was[offTo + n..]
  }

  lemma IsPatched(was: seq<Octet>, offTo: nat, source: seq<Octet>, offFrom: nat, n: nat, now: seq<Octet>)
    requires offTo + n <= |was| && offFrom + n <= |source|
    requires now == was[..offTo] + source[offFrom..offFrom + n] + was[offTo + n..]
    ensures Patched(was, offTo, source, offFrom, n, now)
  {
  }

  /** What `to` denotes after n more octets were moved. */
  lemma MoveFlat(mem: Memory, mem': Memory, ct: seq<nat>, cf: seq<nat>,
                 i: nat, offTo: nat, j: nat, offFrom: nat, n: nat, now: seq<Octet>)
    requires i < |ct| && j < |cf| && Moved(mem, mem', ct, cf, i, offTo, j, offFrom) && Apart(ct, cf)
    requires ct[i] !in ct[..i] && ct[i] !in ct[i + 1..] && ct[i] in mem' && ct[i] in mem && cf[j] in mem
    requires |mem'[ct[i]].data| == |mem[ct[i]].data|
    requires Patched(mem'[ct[i]].data, offTo, mem[cf[j]].data, offFrom, n, now)
    ensures var mem'' := mem'[ct[i] := mem'[ct[i]].(data := now)];
      && Live(mem'', ct)
      && var s, t, moved := Flat(mem, cf), Flat(mem, ct), |Flat(mem, ct[..i])| + (offTo + n);
         moved <= |s| && moved <= |t| && Flat(mem'', ct) == s[..moved] + t[moved..]
  {
    hide Flat, Rewritten, Live, Moved, Apart;
    var mem'', piece := mem'[ct[i] := mem'[ct[i]].(data := now)], mem[cf[j]].data[offFrom..offFrom + n];
    MovedParts(mem, mem', ct, cf, i, offTo, j, offFrom);
    Splice(mem', mem'', ct, i, offTo, piece);
    SameLength(mem, mem', ct, ct[..i]);
    MoveBounds(mem, ct, cf, i, offTo, j, offFrom, n);
    MoveOctets(Flat(mem, cf), Flat(mem, ct), Flat(mem', ct), |Flat(mem, ct[..i])| + offTo, piece);
  }

  lemma MoveStep(mem: Memory, mem': Memory, ct: seq<nat>, cf: seq<nat>,
                 i: nat, offTo: nat, j: nat, offFrom: nat, n: nat, now: seq<Octet>)
    requires i < |ct| && j < |cf| && Moved(mem, mem', ct, cf, i, offTo, j, offFrom)
    requires ct[i] !in ct[..i] && ct[i] !in ct[i + 1..]
    requires ct[i] in mem' && ct[i] in mem && cf[j] in mem && cf[j] in mem'
    requires |mem'[ct[i]].data| == |mem[ct[i]].data| && |mem'[cf[j]].data| == |mem[cf[j]].data|
    requires Apart(ct, cf) ==> mem'[cf[j]] == mem[cf[j]]
    requires Patched(mem'[ct[i]].data, offTo, mem'[cf[j]].data, offFrom, n, now)
    ensures Moved(mem, mem'[ct[i] := mem'[ct[i]].(data := now)], ct, cf, i, offTo + n, j, offFrom + n)
  {
    hide *;
    MovedParts(mem, mem', ct, cf, i, offTo, j, offFrom);
    PatchedSize(mem'[ct[i]].data, offTo, mem'[cf[j]].data, offFrom, n, now);
    MoveBounds(mem, ct, cf, i, offTo, j, offFrom, n);
    if Apart(ct, cf) {
      MoveFlat(mem, mem', ct, cf, i, offTo, j, offFrom, n, now);
    }
    MoveRewritten(mem, mem', ct, i, now);
    MovedJoin(mem, mem'[ct[i] := mem'[ct[i]].(data := now)], ct, cf, i, offTo + n, j, offFrom + n);
  }

  lemma PatchedSize(was: seq<Octet>, offTo: nat, source: seq<Octet>, offFrom: nat, n: nat, now: seq<Octet>)
    requires Patched(was, offTo, source, offFrom, n, now)
    ensures |now| == |was| && offTo + n <= |was| && offFrom + n <= |source|
  {
  }

  lemma MovedParts(mem: Memory, mem': Memory, to: seq<nat>, from: seq<nat>, i: nat, offTo: nat, j: nat, offFrom: nat)
    requires i < |to| && j < |from| && Moved(mem, mem', to, from, i, offTo, j, offFrom)
    ensures Live(mem, to) && Live(mem, from) && Live(mem', to) && Rewritten(mem, mem', to)
    ensures Live(mem, to[..i]) && Live(mem, from[..j])
    ensures var moved := |Flat(mem, to[..i])| + offTo;
      && moved == |Flat(mem, from[..j])| + offFrom && moved <= |Flat(mem, from)| && moved <= |Flat(mem, to)|
      && (Apart(to, from) ==> Flat(mem', to) == Flat(mem, from)[..moved] + Flat(mem, to)[moved..])
  {
    hide Live, Rewritten, Flat, Apart;
  }

  lemma MovedJoin(mem: Memory, mem': Memory, to: seq<nat>, from: seq<nat>, i: nat, offTo: nat, j: nat, offFrom: nat)
    requires i < |to| && j < |from|
    requires Live(mem, to) && Live(mem, from) && Live(mem', to) && Rewritten(mem, mem', to)
    requires Live(mem, to[..i]) && Live(mem, from[..j])
    requires to[i] in mem && from[j] in mem && offTo <= |mem[to[i]].data| && offFrom <= |mem[from[j]].data|
    requires var moved := |Flat(mem, to[..i])| + offTo;
      && moved == |Flat(mem, from[..j])| + offFrom && moved <= |Flat(mem, from)| && moved <= |Flat(mem, to)|
      && (Apart(to, from) ==> Flat(mem', to) == Flat(mem, from)[..moved] + Flat(mem, to)[moved..])
    ensures Moved(mem, mem', to, from, i, offTo, j, offFrom)
  {
    hide Live, Rewritten, Flat, Apart;
  }

  /** The octets to move are the next ones of the source, and there is room for them. */
  lemma MoveBounds(mem: Memory, ct: seq<nat>, cf: seq<nat>, i: nat, offTo: nat, j: nat, offFrom: nat, n: nat)
    requires Live(mem, ct) && Live(mem, cf) && i < |ct| && j < |cf| && Live(mem, ct[..i]) && Live(mem, cf[..j])
    requires |Flat(mem, ct[..i])| + offTo == |Flat(mem, cf[..j])| + offFrom
    requires offTo + n <= |mem[ct[i]].data| && offFrom + n <= |mem[cf[j]].data|
    ensures var moved := |Flat(mem, ct[..i])| + offTo;
      && moved + n <= |Flat(mem, cf)| && moved + n <= |Flat(mem, ct)|
      && Flat(mem, cf)[moved..moved + n] == mem[cf[j]].data[offFrom..offFrom + n]
  {
    hide *;
    FlatAt(mem, ct, i);
    FlatAt(mem, cf, j);
    SliceMid(Flat(mem, cf[..j]), mem[cf[j]].data, Flat(mem, cf[j + 1..]), offFrom, n);
  }

  lemma SliceMid(a: seq<Octet>, b: seq<Octet>, c: seq<Octet>, off: nat, n: nat)
    requires off + n <= |b|
    ensures (a + b + c)[|a| + off..|a| + off + n] == b[off..off + n]
  {
  }

  lemma MoveRewritten(mem: Memory, mem': Memory, c: seq<nat>, i: nat, data: seq<Octet>)
    requires Rewritten(mem, mem', c) && i < |c| && c[i] in mem' && |data| == |mem'[c[i]].data|
    ensures var mem'' := mem'[c[i] := mem'[c[i]].(data := data)];
      Rewritten(mem, mem'', c) && (Live(mem', c) ==> Live(mem'', c))
  {
  }

  lemma MoveOctets(s: seq<Octet>, t: seq<Octet>, u: seq<Octet>, moved: nat, piece: seq<Octet>)
    requires moved + |piece| <= |s| && moved + |piece| <= |t|
    requires u == s[..moved] + t[moved..] && s[moved..moved + |piece|] == piece
    ensures u[..moved] + piece + u[moved + |piece|..] == s[..moved + |piece|] + t[moved + |piece|..]
  {
    assert u[..moved] == s[..moved] && u[moved + |piece|..] == t[moved + |piece|..];
    assert s[..moved + |piece|] == s[..moved] + s[moved..moved + |piece|];
  }

  lemma {:induction false} SameLength(mem: Memory, mem': Memory, c: seq<nat>, d: seq<nat>)
    requires Rewritten(mem, mem', c) && Live(mem, d)
    ensures Live(mem', d) && |Flat(mem', d)| == |Flat(mem, d)|
  {
    if d != [] {
      SameLength(mem, mem', c, d[1..]);
    }
  }

  /** After each step the heap is good, and the walk has not ended early unless there are empty
      pbufs. */
  lemma MovedWhere(mem: Memory, mem': Memory, chain: Chains, handles: multiset<nat>, to: nat, i: nat, offTo: nat,
                   from: nat, j: nat, offFrom: nat)
    requires Good(mem, chain, handles, None) && to in mem && from in mem
    requires Moved(mem, mem', chain[to], chain[from], i, offTo, j, offFrom)
    ensures Good(mem', chain, handles, None) && Rewritten(mem, mem', chain[to])
    ensures j == |chain[from]| ==> |Content(mem, chain, from)| <= |Content(mem, chain, to)|
    ensures Apart(chain[to], chain[from]) ==>
      && Content(mem', chain, from) == Content(mem, chain, from)
      && (j == |chain[from]| ==>
           var s, t := Content(mem, chain, from), Content(mem, chain, to);
           |s| <= |t| && Content(mem', chain, to) == s + t[|s|..])
  {
    var ct, cf := chain[to], chain[from];
    RewrittenGood(mem, mem', chain, handles, ct);
    if Apart(ct, cf) {
      RewrittenText(mem, mem', chain, ct, from);
    }
    TextAt(mem, chain, from);
    TextAt(mem, chain, to);
    TextAt(mem', chain, to);
    assert ct[..|ct|] == ct && cf[..|cf|] == cf;
  }

  /** A copy that can succeed does not stop early. */
  lemma CopyGoesOn(mem: Memory, mem': Memory, chain: Chains, to: nat, i: nat, offTo: nat,
                   from: nat, j: nat, offFrom: nat)
    requires Chained(mem, chain) && Tots(mem) && to in mem && from in mem
    requires Moved(mem, mem', chain[to], chain[from], i, offTo, j, offFrom)
    requires j < |chain[from]| ==> offFrom == 0 || (chain[from][j] in mem && offFrom < |mem[chain[from][j]].data|)
    ensures CanCopy(mem, chain, to, from) ==>
      && (i == |chain[to]| ==> j == |chain[from]|)
      && !IsQueue(mem', At(chain[to], i)) && !IsQueue(mem', At(chain[from], j))
  {
    var ct, cf := chain[to], chain[from];
    if CanCopy(mem, chain, to, from) {
      NoQueue(mem, mem', chain, to, i, ct);
      NoQueue(mem, mem', chain, from, j, ct);
      TextAt(mem, chain, from);
      TextAt(mem, chain, to);
      assert ct[..|ct|] == ct;
      if j < |cf| {
        FlatAt(mem, cf, j);
        assert mem[cf[j]].data != [];
      }
    }
  }

  lemma NoQueue(mem: Memory, mem': Memory, chain: Chains, p: nat, i: nat, c: seq<nat>)
    requires Chained(mem, chain) && Tots(mem) && p in mem && NonEmpty(mem, chain[p]) && Rewritten(mem, mem', c)
    ensures !IsQueue(mem', At(chain[p], i))
  {
    if i < |chain[p]| {
      ChainAt(mem, chain, p, i);
      var x := chain[p][i];
      assert TotOk(mem, x) && mem'[x].next == mem[x].next;
      if i + 1 < |chain[p]| {
        assert TotOk(mem, chain[p][i + 1]) && mem[chain[p][i + 1]].data != [];
      }
    }
  }

  // ----- the front trim of tcp_receive ---------------------------------------------------------

  /** The first i pbufs of c are emptied, and the next one has lost rem octets. */
  function Trimmed(mem: Memory, c: seq<nat>, i: nat, newTot: nat, rem: nat): Memory
    requires i < |c| && c[i] in mem && rem <= |mem[c[i]].data| && rem <= mem[c[i]].totLen
  {
    Emptied(mem, c, i, newTot)[c[i] :=
      mem[c[i]].(data := mem[c[i]].data[rem..], totLen := mem[c[i]].totLen - rem)]
  }

  function Emptied(mem: Memory, c: seq<nat>, i: nat, newTot: nat): Memory
    requires i <= |c|
  {
    map x | x in mem :: if x in c[..i] then mem[x].(data := [], totLen := newTot) else mem[x]
  }

  /** Every pbuf outside of the chain of p that continues into it does so behind its first off
      octets. */
  predicate JoinsBehind(mem: Memory, c: seq<nat>, p: nat, off: nat)
    requires p in mem
  {
    forall x {:trigger Joins(mem, c, x)} :: x in mem && x !in c && Joins(mem, c, x) ==>
      mem[x].next.value in mem && mem[mem[x].next.value].totLen + off <= mem[p].totLen
  }

  /** The front trim: off octets are hidden at the front of the chain of p, which stays linked
      as it was.  The totals of other chains are right afterwards exactly if they lose none. */
  method FrontTrim(h: PbufHeap, p: nat, off: nat)
    requires h.Valid() && p in h.mem && off <= h.mem[p].totLen
    modifies h`mem
    ensures h.Sound() && h.mem.Keys == old(h.mem).Keys
    ensures Tots(h.mem) <==> JoinsBehind(old(h.mem), h.chain[p], p, off)
    ensures off <= |old(h.Text(p))| && h.Text(p) == old(h.Text(p))[off..]
    ensures forall x :: x in h.mem && x !in h.chain[p] ==> h.mem[x] == old(h.mem)[x]
    ensures forall x :: x in h.mem ==> h.mem[x].ref == old(h.mem)[x].ref && h.mem[x].next == old(h.mem)[x].next
  {
    hide Linked, Tots, Refs, Live, Content, Flat, Emptied, Trimmed, TotOk, JoinsBehind;
    ghost var mem, c, i: nat := h.mem, h.chain[p], 0;
    TrimStart(mem, h.chain, p);
    var rem: nat, q := off, p;
    ghost var newTot := mem[p].totLen - off;
    EmptiedNone(mem, c, newTot);
    if |h.mem[p].data| < rem {
      var newTotLen := h.mem[p].totLen - rem;
      while |h.mem[q].data| < rem
        invariant i < |c| && q == c[i] && h.mem == Emptied(mem, c, i, newTot) && q in h.mem && q in mem
        invariant h.mem[q] == mem[q] && Live(mem, c[..i]) && off == |Flat(mem, c[..i])| + rem
        modifies h`mem
        decreases |c| - i
      {
        TrimStep(mem, h.chain, p, i, off, rem, newTot);
        rem := rem - |h.mem[q].data|;
        h.mem := h.mem[q := h.mem[q].(totLen := newTotLen, data := [])];
        q := h.mem[q].next.value;
        i := i + 1;
      }
    }
    TrimGood(mem, h.chain, h.handles, p, i, off, rem);
    TrimmedIs(mem, c, i, newTot, rem);
    h.mem := h.mem[q := h.mem[q].(data := h.mem[q].data[rem..], totLen := h.mem[q].totLen - rem)];
  }

  lemma TrimmedIs(mem: Memory, c: seq<nat>, i: nat, newTot: nat, rem: nat)
    requires i < |c| && c[i] in mem && rem <= |mem[c[i]].data| && rem <= mem[c[i]].totLen
    ensures Trimmed(mem, c, i, newTot, rem) == Emptied(mem, c, i, newTot)[c[i] :=
      mem[c[i]].(data := mem[c[i]].data[rem..], totLen := mem[c[i]].totLen - rem)]
  {
  }

  lemma EmptiedNone(mem: Memory, c: seq<nat>, newTot: nat)
    ensures Emptied(mem, c, 0, newTot) == mem
  {
  }

  lemma TrimStart(mem: Memory, chain: Chains, p: nat)
    requires Chained(mem, chain) && p in mem
    ensures |chain[p]| > 0 && chain[p][0] == p && Live(mem, chain[p][..0]) && Flat(mem, chain[p][..0]) == []
  {
    ChainAt(mem, chain, p, 0);
  }

  lemma TrimStep(mem: Memory, chain: Chains, p: nat, i: nat, off: nat, rem: nat, newTot: nat)
    requires Chained(mem, chain) && Tots(mem) && p in mem && i < |chain[p]| && chain[p][i] in mem
    requires off <= mem[p].totLen && Live(mem, chain[p][..i])
    requires off == |Flat(mem, chain[p][..i])| + rem && rem > |mem[chain[p][i]].data|
    ensures var c := chain[p];
      && i + 1 < |c| && mem[c[i]].next == Some(c[i + 1])
      && Emptied(mem, c, i, newTot)[c[i] := mem[c[i]].(data := [], totLen := newTot)] == Emptied(mem, c, i + 1, newTot)
      && c[i + 1] in mem && c[i + 1] in Emptied(mem, c, i + 1, newTot)
      && Emptied(mem, c, i + 1, newTot)[c[i + 1]] == mem[c[i + 1]]
      && Live(mem, c[..i + 1]) && off == |Flat(mem, c[..i + 1])| + rem - |mem[c[i]].data|
  {
    var c := chain[p];
    ChainAt(mem, chain, p, i);
    FlatAt(mem, c, i);
    TotCounts(mem, chain, p);
    TextAt(mem, chain, p);
    assert |Flat(mem, c[i + 1..])| > 0;
    assert c[i + 1..] != [];
    assert c[..i + 1] == c[..i] + [c[i]];
    ChainAt(mem, chain, p, i + 1);
    ChainFresh(mem, chain, p, i + 1);
  }

  lemma TrimmedAt(mem: Memory, c: seq<nat>, i: nat, newTot: nat, rem: nat, x: nat)
    requires i < |c| && c[i] in mem && rem <= |mem[c[i]].data| && rem <= mem[c[i]].totLen && x in mem
    requires c[i] !in c[..i]
    ensures Trimmed(mem, c, i, newTot, rem).Keys == mem.Keys
    ensures Trimmed(mem, c, i, newTot, rem)[x] ==
      if x == c[i] then mem[x].(data := mem[x].data[rem..], totLen := mem[x].totLen - rem)
      else if x in c[..i] then mem[x].(data := [], totLen := newTot) else mem[x]
  {
  }

  lemma TrimGood(mem: Memory, chain: Chains, handles: multiset<nat>, p: nat, i: nat, off: nat, rem: nat)
    requires Good(mem, chain, handles, None) && p in mem && i < |chain[p]|
    requires chain[p][i] in mem && Live(mem, chain[p][..i]) && off == |Flat(mem, chain[p][..i])| + rem
    requires rem <= |mem[chain[p][i]].data| && off <= mem[p].totLen
    ensures rem <= mem[chain[p][i]].totLen
    ensures var mem' := Trimmed(mem, chain[p], i, mem[p].totLen - off, rem);
      && Links(mem', chain, handles, None) && mem'.Keys == mem.Keys
      && (Tots(mem') <==> JoinsBehind(mem, chain[p], p, off))
      && off <= |Content(mem, chain, p)| && Content(mem', chain, p) == Content(mem, chain, p)[off..]
      && (forall x :: x in mem && x !in chain[p] ==> mem'[x] == mem[x])
      && forall x :: x in mem ==> mem'[x].ref == mem[x].ref && mem'[x].next == mem[x].next
  {
    assert TotOk(mem, chain[p][i]);
    var mem' := Trimmed(mem, chain[p], i, mem[p].totLen - off, rem);
    TrimKept(mem, chain, p, i, mem[p].totLen - off, rem);
    hide Trimmed, Emptied, Linked, TotOk, Joins;
    SameLinks(mem, mem', chain, handles);
    forall x | x in mem'
      ensures TotOk(mem', x) <==> (x !in chain[p] && Joins(mem, chain[p], x) ==>
        mem[x].next.value in mem && mem[mem[x].next.value].totLen + off <= mem[p].totLen)
    {
      TrimTot(mem, chain, p, i, off, rem, x);
    }
    TrimText(mem, chain, p, i, off, rem);
  }

  lemma TrimKept(mem: Memory, chain: Chains, p: nat, i: nat, newTot: nat, rem: nat)
    requires Chained(mem, chain) && p in mem && i < |chain[p]|
    requires chain[p][i] in mem && rem <= |mem[chain[p][i]].data| && rem <= mem[chain[p][i]].totLen
    ensures var mem' := Trimmed(mem, chain[p], i, newTot, rem);
      && mem'.Keys == mem.Keys
      && (forall x :: x in mem && x !in chain[p] ==> mem'[x] == mem[x])
      && forall x :: x in mem ==> mem'[x].ref == mem[x].ref && mem'[x].next == mem[x].next
  {
    var c, mem' := chain[p], Trimmed(mem, chain[p], i, newTot, rem);
    ChainFresh(mem, chain, p, i);
    hide Trimmed, Linked;
    TrimmedAt(mem, c, i, newTot, rem, c[i]);
    forall x | x in mem
      ensures mem'[x].ref == mem[x].ref && mem'[x].next == mem[x].next
      ensures x !in c ==> mem'[x] == mem[x]
    {
      TrimmedAt(mem, c, i, newTot, rem, x);
      assert x in c[..i] ==> x in c;
    }
  }

  lemma SameLinks(mem: Memory, mem': Memory, chain: Chains, handles: multiset<nat>)
    requires Chained(mem, chain) && Refs(mem, handles, None) && mem'.Keys == mem.Keys
    requires forall x :: x in mem ==> mem'[x].ref == mem[x].ref && mem'[x].next == mem[x].next
    ensures Chained(mem', chain) && Refs(mem', handles, None)
  {
    forall x | x in mem'
      ensures Linked(mem', chain, x) && RefOk(mem', handles, None, x)
    {
      assert Linked(mem, chain, x) && RefOk(mem, handles, None, x);
      assert Preds(mem', x) == Preds(mem, x);
    }
  }

  lemma TrimTot(mem: Memory, chain: Chains, p: nat, i: nat, off: nat, rem: nat, x: nat)
    requires Chained(mem, chain) && Tots(mem) && p in mem && i < |chain[p]|
    requires chain[p][i] in mem && Live(mem, chain[p][..i]) && off == |Flat(mem, chain[p][..i])| + rem
    requires rem <= |mem[chain[p][i]].data| && rem <= mem[chain[p][i]].totLen && off <= mem[p].totLen && x in mem
    ensures var mem' := Trimmed(mem, chain[p], i, mem[p].totLen - off, rem);
      && x in mem'
      && (TotOk(mem', x) <==> (x !in chain[p] && Joins(mem, chain[p], x) ==>
            mem[x].next.value in mem && mem[mem[x].next.value].totLen + off <= mem[p].totLen))
  {
    var c, newTot := chain[p], mem[p].totLen - off;
    BoundedTotal(mem, p);
    assert Linked(mem, chain, x) && TotOk(mem, x);
    ChainFresh(mem, chain, p, i);
    hide Trimmed, Chained, Tots, Live, Flat;
    TrimmedAt(mem, c, i, newTot, rem, x);
    if mem[x].next.Some? {
      TrimmedAt(mem, c, i, newTot, rem, mem[x].next.value);
    }
    if x in c {
      var j: nat :| j < |c| && c[j] == x;
      TrimmedTotal(mem, chain, p, i, off, rem, j);
      TrimNext(mem, chain, p, j);
      if j + 1 < |c| {
        TrimmedTotal(mem, chain, p, i, off, rem, j + 1);
      }
    } else if Joins(mem, c, x) {
      var j: nat :| j < |c| && c[j] == mem[x].next.value;
      TrimmedTotal(mem, chain, p, i, off, rem, j);
    }
  }

  /** The total of the j-th pbuf of the chain after the trim, and when it is the same. */
  lemma TrimmedTotal(mem: Memory, chain: Chains, p: nat, i: nat, off: nat, rem: nat, j: nat)
    requires Chained(mem, chain) && Tots(mem) && p in mem && i < |chain[p]| && j < |chain[p]|
    requires chain[p][i] in mem && Live(mem, chain[p][..i]) && off == |Flat(mem, chain[p][..i])| + rem
    requires rem <= |mem[chain[p][i]].data| && rem <= mem[chain[p][i]].totLen && off <= mem[p].totLen
    ensures var x, mem' := chain[p][j], Trimmed(mem, chain[p], i, mem[p].totLen - off, rem);
      && x in mem && x in mem' && (x == chain[p][i] <==> j == i) && (x in chain[p][..i] <==> j < i)
      && mem'[x].totLen == (if j < i then mem[p].totLen - off
                            else if j == i then mem[x].totLen - rem else mem[x].totLen)
      && (mem'[x].totLen == mem[x].totLen <==> mem[x].totLen + off <= mem[p].totLen)
      && (j == i ==> mem'[x].totLen == mem[p].totLen - off)
  {
    var c := chain[p];
    TotSuffix(mem, chain, p, j);
    TotSuffix(mem, chain, p, i);
    ChainFresh(mem, chain, p, i);
    ChainDistinct(mem, chain, p, i, j);
    TrimmedAt(mem, c, i, mem[p].totLen - off, rem, c[j]);
    ChainAt(mem, chain, p, 0);
    if j < i {
      assert c[..i][j] == c[j];
      PrefixGrows(mem, c, j, i);
    } else if j > i {
      PrefixGrows(mem, c, i + 1, j);
      FlatAt(mem, c, i);
      NotIn(mem, chain, p, i, j);
    }
  }

  /** What follows the j-th pbuf of a chain. */
  lemma TrimNext(mem: Memory, chain: Chains, p: nat, j: nat)
    requires Chained(mem, chain) && p in mem && j < |chain[p]|
    ensures chain[p][j] in mem
    ensures mem[chain[p][j]].next == if j + 1 < |chain[p]| then Some(chain[p][j + 1]) else None
  {
    ChainAt(mem, chain, p, j);
  }

  lemma PrefixGrows(mem: Memory, c: seq<nat>, j: nat, i: nat)
    requires j <= i <= |c| && Live(mem, c)
    ensures Live(mem, c[..j]) && Live(mem, c[..i]) && |Flat(mem, c[..j])| <= |Flat(mem, c[..i])|
  {
    assert c[..i] == c[..j] + c[j..i];
    FlatAppend(mem, c[..j], c[j..i]);
  }

  lemma TrimText(mem: Memory, chain: Chains, p: nat, i: nat, off: nat, rem: nat)
    requires Chained(mem, chain) && p in mem && i < |chain[p]|
    requires chain[p][i] in mem && Live(mem, chain[p][..i]) && off == |Flat(mem, chain[p][..i])| + rem
    requires rem <= |mem[chain[p][i]].data| && rem <= mem[chain[p][i]].totLen && off <= mem[p].totLen
    requires Chained(Trimmed(mem, chain[p], i, mem[p].totLen - off, rem), chain)
    ensures p in Trimmed(mem, chain[p], i, mem[p].totLen - off, rem)
    ensures off <= |Content(mem, chain, p)|
    ensures Content(Trimmed(mem, chain[p], i, mem[p].totLen - off, rem), chain, p) == Content(mem, chain, p)[off..]
  {
    hide Trimmed, Linked;
    var c, newTot := chain[p], mem[p].totLen - off;
    var mem' := Trimmed(mem, c, i, newTot, rem);
    ChainFresh(mem, chain, p, i);
    TrimmedAt(mem, c, i, newTot, rem, p);
    TrimmedAt(mem, c, i, newTot, rem, c[i]);
    TextAt(mem, chain, p);
    TextAt(mem', chain, p);
    FlatAt(mem, c, i);
    FlatAt(mem', c, i);
    hide Chained, Flat;
    forall k | 0 <= k < i
      ensures mem'[c[..i][k]].data == []
    {
      ChainDistinct(mem, chain, p, i, k);
      TrimmedAt(mem, c, i, newTot, rem, c[k]);
      assert c[k] in c[..i];
    }
    FlatEmpty(mem', c[..i]);
    var rest := c[i + 1..];
    forall k | 0 <= k < |rest|
      ensures mem'[rest[k]].data == mem[rest[k]].data
    {
      NotIn(mem, chain, p, i + 1, i + 1 + k);
      assert c[..i + 1] == c[..i] + [c[i]];
      TrimmedAt(mem, c, i, newTot, rem, c[i + 1 + k]);
    }
    FlatSame(mem, mem', rest);
    hide *;
    TrimOctets(Flat(mem, c[..i]), mem[c[i]].data, Flat(mem, c[i + 1..]), rem);
  }

  lemma TrimOctets(a: seq<Octet>, b: seq<Octet>, c: seq<Octet>, rem: nat)
    requires rem <= |b|
    ensures [] + b[rem..] + c == (a + b + c)[|a| + rem..]
  {
  }

  lemma {:induction false} FlatEmpty(mem: Memory, c: seq<nat>)
    requires Live(mem, c) && forall k :: 0 <= k < |c| ==> mem[c[k]].data == []
    ensures Flat(mem, c) == []
  {
    if c != [] {
      FlatEmpty(mem, c[1..]);
    }
  }
}
