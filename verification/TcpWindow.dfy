/** What one arriving segment may contribute to a byte stream, on unbounded integers.
    The receiver in TcpPcb.dfy computes the same thing with 32-bit sequence numbers,
    a front trim and a window trim. */
module TcpWindow {
  import opened SeqNum
  import opened Seqs

  const TCP_MSS: nat := 1460
  const TCP_WND: nat := 2920

  type Octet = x: int | 0 <= x < 256

  datatype Segment = Segment(
    seqno: u32, ackno: u32, syn: bool, ack: bool, fin: bool, rst: bool, data: seq<Octet>)

  /** TCP_TCPLEN: SYN and FIN together still count one. */
  function SegLen(s: Segment): nat {
    |s.data| + if s.fin || s.syn then 1 else 0
  }

  function Min(a: int, b: int): int {
    if a < b then a else b
  }

  /** How far rcv_nxt moves for a segment that starts `d` positions after it, occupies
      `len` positions, and meets a window of `wnd`. */
  function Advance(d: int, len: nat, wnd: nat): nat {
    if wnd > 0 && d <= 0 < d + len then Min(d + len, wnd) else 0
  }

  /** Position `p` (relative to rcv_nxt) is carried by the segment and inside the window. */
  predicate Usable(d: int, len: nat, wnd: nat, p: int) {
    d <= p < d + len && 0 <= p < wnd
  }

  /** The advance is the longest gap-free run of usable positions starting at rcv_nxt. */
  lemma AdvanceIsLongestRun(d: int, len: nat, wnd: nat, a: nat)
    ensures a <= Advance(d, len, wnd) <==> forall p :: 0 <= p < a ==> Usable(d, len, wnd, p)
  {
    if a > Advance(d, len, wnd) {
      assert !Usable(d, len, wnd, if Advance(d, len, wnd) == 0 then 0 else a - 1);
    }
  }

  /** What is taken from a segment: positions consumed, octets handed up, FIN consumed. */
  datatype Cut = Cut(adv: nat, text: seq<Octet>, fin: bool)

  function CutOf(s: Segment, d: int, wnd: nat): (c: Cut)
    ensures c.adv <= wnd
    ensures c.adv == |c.text| + (if c.adv > 0 && (s.syn || c.fin) then 1 else 0)
  {
    var a := Advance(d, SegLen(s), wnd);
    if a == 0 then
      Cut(0, [], false)
    else
      var fin := s.fin && a == d + SegLen(s);
      var n := a - if s.syn || fin then 1 else 0;
      Cut(a, s.data[-d..-d + n], fin)
  }

  /** The octets of `stream` among the first `got` positions; position |stream| is the FIN. */
  function Received(stream: seq<Octet>, got: nat): seq<Octet> {
    stream[..Min(got, |stream|)]
  }

  /** The segment carries the stream from position `k` on, and FIN only at its end. */
  predicate CarriesSlice(s: Segment, stream: seq<Octet>, k: int) {
    && 0 <= k <= k + |s.data| <= |stream|
    && s.data == stream[k..k + |s.data|]
    && (s.fin ==> k + |s.data| == |stream|)
  }

  /** Whatever slice arrives, what is taken from it continues the stream exactly where the
      receiver stands, and the FIN is taken exactly when the receiver passes the end. */
  lemma CutContinuesStream(s: Segment, stream: seq<Octet>, k: int, got: nat, wnd: nat)
    requires !s.syn && CarriesSlice(s, stream, k)
    requires got <= |stream|
    ensures var c := CutOf(s, k - got, wnd);
      && got + c.adv <= |stream| + 1
      && Received(stream, got) + c.text == Received(stream, got + c.adv)
      && (c.fin <==> got + c.adv == |stream| + 1)
  {
    var c := CutOf(s, k - got, wnd);
    if c.adv > 0 {
      SliceOfSlice(stream, k, k + |s.data|, got - k, got - k + |c.text|);
      SliceAppend(stream, 0, got, got + |c.text|);
      assert Received(stream, got + c.adv) == stream[0..got + |c.text|];
    } else {
      assert c.text == [];
    }
  }

  /** A SYN counts a position but carries no octet of text, so a SYN segment that reaches
      the text section keeps "octets handed up = positions passed" exactly when nothing is
      taken from it.  (The guard is the window test itself.) */
  lemma SynTextExact(s: Segment, d: int, wnd: nat)
    requires s.syn
    ensures var c := CutOf(s, d, wnd);
      |c.text| == c.adv <==> !(wnd > 0 && d <= 0 < d + SegLen(s))
  {
  }

  /** One such segment: SYN+ACK with one octet repeated at rcv_nxt - 1 passes position 0
      of the stream without handing up its octet. */
  lemma SynTextLosesOctet(x: Octet)
    ensures var s := Segment(0, 0, true, true, false, false, [x]);
      CutOf(s, -1, TCP_WND) == Cut(1, [], false)
  {
  }

  // ----- the window announced to the peer ---------------------------------------------

  /** tcp_update_rcv_ann_wnd on distances: `lead` is the announced right edge minus
      rcv_nxt, `m` is min(TCP_WND / 2, mss). */
  function NextAnn(lead: int, wnd: nat, m: nat): int {
    if m <= wnd - lead < HALF + m then wnd else if lead < 0 then 0 else lead
  }

  /** An announcement made with this window moves the announced edge right, never past the
      actual edge. */
  lemma NextAnnWithinWindow(lead: int, wnd: nat, m: nat)
    requires lead <= wnd
    ensures lead <= NextAnn(lead, wnd, m) <= wnd
  {
  }

  /** Silly-window avoidance: less than m positions of the open window are ever withheld, and an
      edge still ahead of the receiver moves by m positions at least or not at all. */
  lemma WithheldIsSmall(lead: int, wnd: nat, m: nat)
    requires lead <= wnd && wnd - lead < HALF + m && 0 < m
    ensures wnd - NextAnn(lead, wnd, m) < m
    ensures lead >= 0 ==> NextAnn(lead, wnd, m) == lead || NextAnn(lead, wnd, m) - lead >= m
  {
  }

  /** The window the C code computes, with its wrapped comparisons, for a receiver at
      position r. */
  function AnnOnWire(rcvNxt: u32, rcvWnd: nat, annEdge: u32, m: nat): int {
    if SeqGeq(Wrap(rcvNxt + rcvWnd), Wrap(annEdge + m)) then rcvWnd
    else if SeqGt(rcvNxt, annEdge) then 0
    else Wrap(annEdge - rcvNxt)
  }

  /** How far the receiver is past the announced edge, as far as 32 bits tell: a little to the
      left of it or up to almost a lap to the right. */
  function PastOnWire(r: int, edge: int): (e: int)
    ensures -0x1_0000 <= e < WRAP - 0x1_0000
    ensures -0x1_0000 <= r - edge < WRAP - 0x1_0000 ==> e == r - edge
  {
    (r - edge + 0x1_0000) % WRAP - 0x1_0000
  }

  /** The wrapped computation meets its 16-bit assertion, and the announced edge stays between its
      old place and the actual edge, exactly when the distance modulo 2^32 shows the receiver less
      than 2^31 positions past the announced edge (or the first comparison, which looks m
      positions further right, is still in range) and not further left than the window. */
  lemma AnnOnWireExact(r: int, wnd: nat, edge: int, m: nat)
    requires edge <= r + wnd && wnd <= TCP_WND && m <= TCP_MSS
    ensures var ann, e := AnnOnWire(Wrap(r), wnd, Wrap(edge), m), PastOnWire(r, edge);
      var inRange := 0 <= e + wnd && (e < HALF || e + wnd - m < HALF);
      && (inRange <==> ann <= 0xffff && edge <= r + ann <= r + wnd)
      && (inRange ==> ann == NextAnn(-e, wnd, m))
  {
    var e := PastOnWire(r, edge);
    SamePlace(r, edge);
    hide PastOnWire, Wrap, Diff;
    if 0 <= e + wnd {
      AnnWithinLap(edge + e, wnd, edge, m);
    } else {
      WrapAdd(edge + e, wnd);
      WrapAdd(edge, m);
      AnnCompare(edge + e + wnd, edge + m);
      AnnCompare(edge + e, edge);
      LeadLeft(edge + e, edge);
    }
  }

  lemma SamePlace(r: int, edge: int)
    ensures Wrap(edge + PastOnWire(r, edge)) == Wrap(r)
    ensures r >= edge - 0x1_0000 ==> r - edge >= PastOnWire(r, edge)
  {
    var x := r - edge + 0x1_0000;
    assert edge + PastOnWire(r, edge) == r - x / WRAP * WRAP;
    WrapLap(r, x / WRAP);
  }

  lemma WrapLap(x: int, k: int)
    ensures Wrap(x - k * WRAP) == Wrap(x)
  {
    assert x - k * WRAP == (x / WRAP - k) * WRAP + x % WRAP;
  }

  /** Left of the announced edge. */
  lemma LeadLeft(r: int, edge: int)
    requires -0x1_0000 <= r - edge <= 0
    ensures Wrap(Wrap(edge) - Wrap(r)) == edge - r
  {
    WrappedLead(r, edge);
  }

  lemma WrappedLead(r: int, edge: int)
    ensures Wrap(Wrap(edge) - Wrap(r)) == Wrap(edge - r)
  {
    assert Wrap(edge) == edge - edge / WRAP * WRAP && Wrap(r) == r - r / WRAP * WRAP;
    WrapLap(edge - r, edge / WRAP - r / WRAP);
  }

  lemma AnnWithinLap(r: int, wnd: nat, edge: int, m: nat)
    requires edge <= r + wnd && wnd <= TCP_WND && m <= TCP_MSS
    requires r - edge < WRAP - 0x1_0000
    ensures var ann := AnnOnWire(Wrap(r), wnd, Wrap(edge), m);
      var inRange := r - edge < HALF || (r + wnd) - (edge + m) < HALF;
      && (inRange <==> ann <= 0xffff && edge <= r + ann <= r + wnd)
      && (inRange ==> ann == NextAnn(edge - r, wnd, m))
  {
    WrapAdd(r, wnd);
    WrapAdd(edge, m);
    AnnCompare(r + wnd, edge + m);
    AnnCompare(r, edge);
    LeadOnWire(r, edge);
  }

  lemma AnnCompare(x: int, y: int)
    requires -0x2_0000 <= x - y < WRAP
    ensures Diff(Wrap(x), Wrap(y)) == if x - y < HALF then x - y else x - y - WRAP
  {
    if x - y < HALF {
      DiffOfWrap(x, y);
    } else {
      DiffOneLap(x, y);
    }
  }

  lemma LeadOnWire(r: int, edge: int)
    requires -0x1_0000 < r - edge < WRAP
    ensures (Wrap(edge) - Wrap(r)) % WRAP == if r <= edge then edge - r else edge - r + WRAP
  {
    WrappedLead(r, edge);
    if edge < r {
      WrapLap(edge - r, -1);
    }
  }
}
