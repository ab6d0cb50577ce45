/** The receive side of a TCP protocol control block: tcp_input, tcp_process, tcp_receive
    (TCP_QUEUE_OOSEQ = 0), tcp_process_refused_data, tcp_recved, tcp_update_rcv_ann_wnd and
    the closing calls.

    Ghost history: `stream` is all the peer will ever send, `got` counts the positions of
    it (its octets, then the FIN) that rcv_nxt has passed, `accepted` is what the receive
    callback has taken, `eofs` counts end-of-file callbacks.  `intact` records that no
    received octet was thrown away by a close, a purge or an abort.  `ours` is what became of
    our own SYN and FIN. */
module TcpPcb {
  import opened SeqNum
  import opened Seqs
  import opened TcpWindow

  datatype TcpState =
    | CLOSED | LISTEN | SYN_SENT | SYN_RCVD | ESTABLISHED | FIN_WAIT_1 | FIN_WAIT_2
    | CLOSE_WAIT | CLOSING | LAST_ACK | TIME_WAIT

  /** The states in which segment text is still processed (state < CLOSE_WAIT). */
  predicate TakesText(st: TcpState) {
    st == ESTABLISHED || st == FIN_WAIT_1 || st == FIN_WAIT_2
  }

  /** The answer of the application's recv callback to a buffer; `credit` is what the
      callback itself returns through tcp_recved before it answers. */
  datatype Reply = Took(credit: nat) | Refused | Aborted

  /** Every answer of the application while one segment is processed. */
  datatype Callbacks = Callbacks(
    again: Reply, againEofAborts: bool, connectedAborts: bool, acceptFails: bool,
    sentAborts: bool, recv: Reply, eofAborts: bool)

  /** pcb->refused_data with its PBUF_FLAG_TCP_FIN. */
  datatype Held = Nothing | Held(data: seq<Octet>, fin: bool)

  /** The transitions of section 3.9 of RFC 793 that an arriving segment causes.
      `opens`: it acknowledges our SYN; `fin`: its FIN was taken; `acksAll`: it
      acknowledges everything sent. */
  function NextState(st: TcpState, opens: bool, fin: bool, acksAll: bool): TcpState {
    match st
    case SYN_SENT => if opens then ESTABLISHED else SYN_SENT
    case SYN_RCVD => if !opens then SYN_RCVD else if fin then CLOSE_WAIT else ESTABLISHED
    case ESTABLISHED => if fin then CLOSE_WAIT else ESTABLISHED
    case FIN_WAIT_1 =>
      if fin then (if acksAll then TIME_WAIT else CLOSING)
      else if acksAll then FIN_WAIT_2 else FIN_WAIT_1
    case FIN_WAIT_2 => if fin then TIME_WAIT else FIN_WAIT_2
    case CLOSING => if acksAll then TIME_WAIT else CLOSING
    case _ => st
  }

  /** Our own SYN and FIN: the SYN was acknowledged (`open`), the FIN was queued by tcp_send_fin,
      after the peer's had been taken or not, was sent `out`; since it was queued everything sent
      so far was acknowledged (`answered`), and that was so when the FIN was out (`acked`). */
  datatype Ours = Ours(open: bool, queued: bool, after: bool, out: bool, answered: bool, acked: bool)

  const NOTHING_YET := Ours(false, false, false, false, false, false)

  function Noted(o: Ours, opens: bool, acksAll: bool): Ours {
    o.(open := o.open || opens,
       answered := o.answered || (o.queued && acksAll),
       acked := o.acked || (o.out && acksAll))
  }

  /** What each state says of the two FINs.  TIME_WAIT without a FIN of ours comes from answering
      unread data with a reset. */
  predicate Phase(st: TcpState, taken: bool, o: Ours) {
    && (o.out || o.answered ==> o.queued) && (o.acked ==> o.out && o.answered)
    && match st
       case CLOSED | LISTEN | SYN_SENT | SYN_RCVD => !o.open && !o.queued && !taken
       case ESTABLISHED => o.open && !o.queued && !taken
       case CLOSE_WAIT => o.open && !o.queued && taken
       case FIN_WAIT_1 => o.queued && !o.after && !o.answered && !taken
       case FIN_WAIT_2 => o.queued && !o.after && o.answered && !taken
       case CLOSING => o.queued && !o.after && !o.answered && taken
       case LAST_ACK => o.queued && o.after && !o.answered && taken
       case TIME_WAIT => o.queued ==> !o.after && o.answered && taken
  }

  /** The state tells the truth about both FINs after every transition: CLOSING is left when ours
      is answered, FIN_WAIT_2 when the peer's is taken, and a segment that does both to FIN_WAIT_1
      leads to TIME_WAIT. */
  lemma TransitionsTellTheTruth(st: TcpState, taken: bool, o: Ours, opens: bool, fin: bool, acksAll: bool)
    requires Phase(st, taken, o)
    requires opens ==> st == SYN_SENT || st == SYN_RCVD
    requires fin ==> TakesText(st) || (st == SYN_RCVD && opens)
    requires st == LAST_ACK ==> !acksAll
    ensures Phase(NextState(st, opens, fin, acksAll), taken || fin, Noted(o, opens, acksAll))
    ensures var next, p := NextState(st, opens, fin, acksAll), Noted(o, opens, acksAll);
      && (next == TIME_WAIT && st != TIME_WAIT ==> p.answered && (taken || fin))
      && (p.answered && !o.answered ==> (p.acked <==> o.out || o.acked))
  {
  }

  class Pcb {
    var state: TcpState
    var live: bool
    var rxClosed: bool
    var sndNxt: u32
    var lastAck: u32
    var rcvNxt: u32
    var rcvWnd: nat
    var rcvAnnWnd: nat
    var rcvAnnEdge: u32
    var refused: Held
    const mss: nat

    ghost var irs: int
    ghost const stream: seq<Octet>
    ghost var got: nat
    ghost var annEdge: int
    ghost var accepted: seq<Octet>
    ghost var eofs: nat
    ghost var intact: bool
    ghost var ours: Ours

    ghost function HeldData(): seq<Octet>
      reads `refused
    {
      if refused.Held? then refused.data else []
    }

    ghost predicate HeldFin()
      reads `refused
    {
      refused.Held? && refused.fin
    }

    /** The announced window and both right edges. */
    ghost predicate WindowInv()
      reads `rcvWnd, `rcvNxt, `rcvAnnWnd, `rcvAnnEdge, `irs, `got, `annEdge
    {
      && 0 < mss <= TCP_MSS
      && rcvWnd <= TCP_WND
      && rcvNxt == Wrap(irs + 1 + got)
      && rcvAnnEdge == Wrap(irs + 1 + annEdge)
      && annEdge <= got + rcvAnnWnd
      && rcvAnnWnd <= rcvWnd
    }

    /** `text` and `fin` were consumed by tcp_receive but not yet passed on. */
    ghost predicate StreamInv(text: seq<Octet>, fin: bool)
      reads `state, `live, `rxClosed, `refused, `got, `accepted, `intact
    {
      && got <= |stream| + 1
      && (refused.Held? ==> live && |refused.data| > 0)
      && (intact ==> accepted + HeldData() + text == Received(stream, got))
      && (!intact ==>
            && accepted <= Received(stream, got) && refused == Nothing
            && |accepted| + |text| < |Received(stream, got)|
            && (live ==> rxClosed || state == TIME_WAIT))
    }

    ghost predicate FinInv(fin: bool)
      reads `state, `live, `refused, `got, `eofs, `intact
    {
      && eofs <= 1
      && (state in {CLOSED, LISTEN, SYN_SENT, SYN_RCVD} ==> got == 0 && refused == Nothing)
      && (live && TakesText(state) && !fin ==> got <= |stream|)
      && (eofs == 1 || fin || HeldFin() ==> got == |stream| + 1)
      && (fin || HeldFin() ==> eofs == 0)
      && (fin ==> !HeldFin())
      && (eofs == 1 ==> refused == Nothing)
      && (live && intact && got == |stream| + 1 ==> eofs == 1 || fin || HeldFin())
    }

    ghost predicate Inv(text: seq<Octet>, fin: bool)
      reads this
    {
      WindowInv() && StreamInv(text, fin) && FinInv(fin)
    }

    /** While the connection lives and nothing was thrown away, the accepted octets
        followed by the refused ones are exactly the received prefix of the stream, and
        the end of file is signalled once, or parked on the refused data, exactly when the
        receiver has passed the end. */
    ghost predicate Valid()
      reads this
    {
      Inv([], false)
    }

    /** The state agrees with what became of both FINs. */
    ghost predicate Truthful()
      reads `state, `got, `ours
    {
      Phase(state, got == |stream| + 1, ours)
    }

    lemma Passed(text: seq<Octet>, fin: bool)
      requires Inv(text, fin) && live
      ensures fin ==> got == |stream| + 1
      ensures TakesText(state) && !fin ==> got <= |stream|
      ensures state in {CLOSED, LISTEN, SYN_SENT, SYN_RCVD} ==> got <= |stream|
    {
    }

    lemma Bounds(text: seq<Octet>, fin: bool)
      requires Inv(text, fin)
      ensures rcvWnd <= TCP_WND && annEdge <= got + rcvWnd && eofs <= 1
      ensures fin || refused.Held? ==> eofs == 0
      ensures refused.Held? ==> intact
      ensures state in {CLOSED, LISTEN, SYN_SENT, SYN_RCVD} ==> got == 0 && refused == Nothing
    {
    }

    /** What Valid() means for the application: it has been given a beginning of the stream, in
        order and without gaps, the refused octets come next, and the end of file came at most
        once and only after the last octet. */
    lemma InOrder()
      requires Valid()
      ensures accepted <= stream && eofs <= 1
      ensures intact ==> accepted + HeldData() == stream[..Min(got, |stream|)]
      ensures intact && eofs == 1 ==> accepted == stream
      ensures live && intact && got == |stream| + 1 ==> eofs == 1 || HeldFin()
      ensures live && !rxClosed && state != TIME_WAIT ==> intact
    {
      EmptyEnds(accepted, HeldData());
      assert accepted <= Received(stream, got);
      assert Received(stream, got) <= stream;
    }

    /** Passive open: tcp_listen_input on a SYN with initial sequence number `seqno`. */
    constructor Passive(seqno: u32, iss: u32, mss: nat, ghost stream: seq<Octet>)
      requires 0 < mss <= TCP_MSS
      ensures Valid() && live && state == SYN_RCVD && !rxClosed && intact
      ensures this.stream == stream && irs == seqno && got == 0 && accepted == [] && eofs == 0
      ensures rcvWnd == TCP_WND && this.mss == mss && annEdge == 0
      ensures lastAck == iss && sndNxt == Wrap(iss + 1)
      ensures ours == NOTHING_YET && Truthful()
    {
      this.mss := mss;
      state, live, rxClosed := SYN_RCVD, true, false;
      lastAck, sndNxt := iss, Wrap(iss + 1);
      rcvNxt, rcvAnnEdge := Wrap(seqno + 1), Wrap(seqno + 1);
      rcvWnd, rcvAnnWnd := TCP_WND, TCP_WND;
      refused := Nothing;
      this.stream := stream;
      irs, got, annEdge, accepted, eofs, intact := seqno, 0, 0, [], 0, true;
      ours := NOTHING_YET;
    }

    /** Active open: tcp_connect; the peer's sequence number is not known yet. */
    constructor Active(iss: u32, mss: nat, ghost stream: seq<Octet>)
      requires 0 < mss <= TCP_MSS
      ensures Valid() && live && state == SYN_SENT && !rxClosed && intact
      ensures this.stream == stream && got == 0 && accepted == [] && eofs == 0
      ensures rcvWnd == TCP_WND && this.mss == mss && annEdge == 0
      ensures lastAck == iss && sndNxt == Wrap(iss + 1)
      ensures ours == NOTHING_YET && Truthful()
    {
      this.mss := mss;
      state, live, rxClosed := SYN_SENT, true, false;
      lastAck, sndNxt := iss, Wrap(iss + 1);
      rcvNxt, rcvAnnEdge := 0, 0;
      rcvWnd, rcvAnnWnd := TCP_WND, TCP_WND;
      refused := Nothing;
      this.stream := stream;
      irs, got, annEdge, accepted, eofs, intact := -1, 0, 0, [], 0, true;
      ours := NOTHING_YET;
    }

    /** Freeing refused data: octets are lost unless there were none. */
    method DropRefused(ghost text: seq<Octet>)
      modifies this`refused, this`intact
      ensures refused == Nothing
      ensures intact == (accepted + text == Received(stream, got))
    {
      refused := Nothing;
      intact := accepted + text == Received(stream, got);
    }

    /** tcp_pcb_purge and memp_free, after a reset, an abort or the end of LAST_ACK. */
    method Free(ghost text: seq<Octet>, ghost fin: bool)
      requires Inv(text, fin)
      modifies this`live, this`refused, this`intact
      ensures !live && Valid()
      ensures intact <==> old(intact && refused == Nothing) && text == []
    {
      EmptyEnds(accepted, text);
      EmptyEnds(accepted, HeldData());
      DropRefused([]);
      live := false;
    }

    // ----- window ----------------------------------------------------------------------

    /** tcp_update_rcv_ann_wnd: the wrapped arithmetic computes the announcement of
        TcpWindow.NextAnn, and its 16-bit assertion holds. */
    method UpdateAnnWnd() returns (inflation: nat)
      requires 0 < mss <= TCP_MSS && rcvWnd <= TCP_WND
      requires rcvNxt == Wrap(irs + 1 + got) && rcvAnnEdge == Wrap(irs + 1 + annEdge)
      requires annEdge <= got + rcvWnd && got - annEdge < HALF
      modifies this`rcvAnnWnd
      ensures rcvAnnWnd == NextAnn(annEdge - got, rcvWnd, Min(TCP_WND / 2, mss))
      ensures annEdge <= got + rcvAnnWnd && rcvAnnWnd <= rcvWnd
      ensures var gain := got + rcvWnd - annEdge;
        inflation == if Min(TCP_WND / 2, mss) <= gain < HALF + Min(TCP_WND / 2, mss) then gain else 0
    {
      hide Wrap, Diff, SeqGeq, SeqGt, NextAnn;
      ghost var r, edge := irs + 1 + got, irs + 1 + annEdge;
      var m := Min(TCP_WND / 2, mss);
      AnnOnWireExact(r, rcvWnd, edge, m);
      NextAnnWithinWindow(edge - r, rcvWnd, m);
      var newRightEdge := Wrap(rcvNxt + rcvWnd);
      inflation := 0;
      Gain(r, rcvWnd, edge, m);
      if SeqGeq(newRightEdge, Wrap(rcvAnnEdge + m)) {
        rcvAnnWnd := rcvWnd;
        inflation := Wrap(newRightEdge - rcvAnnEdge);
      } else if SeqGt(rcvNxt, rcvAnnEdge) {
        rcvAnnWnd := 0;
      } else {
        var newAnnWnd := Wrap(rcvAnnEdge - rcvNxt);
        assert newAnnWnd <= 0xffff;
        rcvAnnWnd := newAnnWnd;
      }
    }

    /** tcp_recved: the application returns `len` octets of window. */
    method Recved(len: nat, ghost text: seq<Octet>, ghost fin: bool)
      requires Inv(text, fin)
      requires len <= 0xffff - rcvWnd && got - annEdge < HALF
      modifies this`rcvWnd, this`rcvAnnWnd
      ensures Inv(text, fin)
      ensures rcvWnd == Min(old(rcvWnd) + len, TCP_WND)
      ensures got + rcvWnd >= old(got + rcvWnd)
    {
      rcvWnd := rcvWnd + len;
      if rcvWnd > TCP_WND {
        rcvWnd := TCP_WND;
      }
      var inflation := UpdateAnnWnd();
    }

    /** Any segment sent out announces the window (tcp_output_alloc_header and
        tcp_output_segment); neither edge moves left. */
    method Announce()
      requires Valid()
      modifies this`rcvAnnEdge, this`annEdge
      ensures Valid()
      ensures rcvAnnEdge == Wrap(rcvNxt + rcvAnnWnd)
      ensures old(annEdge) <= annEdge <= got + rcvWnd
    {
      rcvAnnEdge := Wrap(rcvNxt + rcvAnnWnd);
      WrapAdd(irs + 1 + got, rcvAnnWnd);
      annEdge := got + rcvAnnWnd;
    }

    // ----- one segment -----------------------------------------------------------------

    /** The peer's part of the contract.  A segment whose text or FIN is examined holds a
        slice of the stream, and lies less than half the sequence space from rcv_nxt (the
        segment lifetime rule of section 3.3 of RFC 793).  Only a segment that acknowledges
        our SYN can bring a SYN of its own this far; it must be a repetition, so that the
        window test refuses it. */
    ghost predicate FromPeer(s: Segment, k: int)
      reads `state, `lastAck, `sndNxt, `irs, `got, `rcvNxt, `rcvWnd
    {
      TextOpen(s) ==> Fits(s, k)
    }

    ghost predicate Fits(s: Segment, k: int)
      reads this`irs, this`got, this`rcvNxt, this`rcvWnd
    {
      SegLen(s) > 0 ==>
        if s.syn then
          Advance(Diff(s.seqno, rcvNxt), SegLen(s), rcvWnd) == 0 && !HalfSpaceOctet(s, rcvNxt)
        else
          && s.seqno == Wrap(irs + 1 + k) && -HALF < k - got < HALF
          && CarriesSlice(s, stream, k)
    }

    ghost predicate Opens(s: Segment)
      reads `state, `lastAck, `sndNxt
    {
      state == SYN_RCVD && s.ack && SeqBetween(s.ackno, Wrap(lastAck + 1), sndNxt)
    }

    /** From `at` and a window of `wnd` the receiver has moved by the cut of the segment at place
        p, and announces the window that is due then. */
    ghost predicate TookCut(s: Segment, p: int, at: nat, wnd: nat, text: seq<Octet>, fin: bool)
      reads this`rcvWnd, this`rcvAnnWnd, this`got, this`annEdge
    {
      var c := CutOf(s, p, wnd);
      && got == at + c.adv && rcvWnd == wnd - c.adv
      && text == c.text && fin == c.fin
      && (c.adv > 0 ==> rcvAnnWnd == NextAnn(annEdge - got, rcvWnd, Min(TCP_WND / 2, mss)))
    }

    lemma NothingTaken(s: Segment, p: int)
      requires !(rcvWnd > 0 && p <= 0 < p + SegLen(s)) || Advance(p, SegLen(s), rcvWnd) == 0
      ensures TookCut(s, p, got, rcvWnd, [], false)
    {
      NothingCut(s, p, rcvWnd);
    }

    /** The text section of tcp_receive, for any segment whatever: with wrapped comparisons, a
        front trim and a window trim it takes exactly the cut of the segment at its Place. */
    method ReceiveText(s: Segment) returns (text: seq<Octet>, fin: bool)
      requires WindowInv() && |s.data| < 0x7fff
      requires rcvWnd <= TCP_WND && got + rcvWnd - annEdge < HALF
      modifies this`rcvNxt, this`rcvWnd, this`rcvAnnWnd, this`got
      ensures WindowInv() && TookCut(s, Place(s, old(rcvNxt)), old(got), old(rcvWnd), text, fin)
    {
      assert SegLen(s) <= |s.data| + 1;
      hide *;
      text, fin := [], false;
      if SegLen(s) > 0 {
        var seqno, data := FrontTrim(s, rcvNxt);
        text, fin := TakeFront(s, Place(s, rcvNxt), seqno, data);
      } else {
        NothingTaken(s, Place(s, rcvNxt));
      }
    }

    /** The window test after the front trim; p is the place of the segment. */
    method TakeFront(s: Segment, ghost p: int, seqno: u32, data: seq<Octet>) returns (text: seq<Octet>, fin: bool)
      requires WindowInv() && 0 < SegLen(s)
      requires rcvWnd <= TCP_WND && got + rcvWnd - annEdge < HALF
      requires if p <= 0 < p + SegLen(s) then -p <= |s.data| && seqno == rcvNxt && data == s.data[-p..]
               else seqno != rcvNxt
      modifies this`rcvNxt, this`rcvWnd, this`rcvAnnWnd, this`got
      ensures WindowInv() && TookCut(s, p, old(got), old(rcvWnd), text, fin)
    {
      hide *;
      text, fin := [], false;
      WindowTest(seqno, rcvNxt, rcvWnd);
      if InWindow(seqno, rcvNxt, rcvWnd) && rcvNxt == seqno {
        text, fin := Consume(s, p, data);
      } else {
        NothingTaken(s, p);
      }
    }

    /** The in-sequence branch: the segment now starts at rcv_nxt with `front` as text. */
    method Consume(s: Segment, ghost d: int, front: seq<Octet>)
      returns (text: seq<Octet>, fin: bool)
      requires WindowInv() && rcvWnd > 0 && got + rcvWnd - annEdge < HALF
      requires d <= 0 < d + SegLen(s) && front == s.data[-d..]
      modifies this`rcvNxt, this`rcvWnd, this`rcvAnnWnd, this`got
      ensures WindowInv() && TookCut(s, d, old(got), old(rcvWnd), text, fin)
    {
      TrimsAreCut(s, d, rcvWnd);
      text, fin := front, s.fin;
      var tcplen := |text| + if fin || s.syn then 1 else 0;
      if tcplen > rcvWnd {
        // trim the end to the window; the FIN goes first
        fin := false;
        text := text[..rcvWnd - if s.syn then 1 else 0];
        tcplen := |text| + if fin || s.syn then 1 else 0;
        assert tcplen == rcvWnd;
      }
      WrapAdd(irs + 1 + got, tcplen);
      rcvNxt := Wrap(rcvNxt + tcplen);
      assert rcvWnd >= tcplen;
      rcvWnd := rcvWnd - tcplen;
      got := got + tcplen;
      var inflation := UpdateAnnWnd();
    }

    /** The segment is dropped before the state switch of tcp_process. */
    ghost predicate Ignored(s: Segment)
      reads `state
    {
      s.rst || (s.syn && state != SYN_SENT && state != SYN_RCVD)
    }

    /** The segment reaches the text section in a state that takes text. */
    ghost predicate TextOpen(s: Segment)
      reads `state, `lastAck, `sndNxt
    {
      !Ignored(s) && (TakesText(state) || Opens(s))
    }

    ghost predicate Connects(s: Segment)
      reads `state, `lastAck
    {
      state == SYN_SENT && s.ack && s.syn && s.ackno == Wrap(lastAck + 1)
    }

    /** The segment acknowledges our SYN in the way its state asks for. */
    ghost predicate AcksSyn(s: Segment)
      reads `state, `lastAck, `sndNxt
    {
      Opens(s) || Connects(s)
    }

    ghost predicate AcksAll(s: Segment)
      reads `sndNxt
    {
      s.ack && s.ackno == sndNxt
    }

    /** The segment ends the connection inside tcp_process. */
    ghost predicate Ends(s: Segment, cb: Callbacks)
      reads `state, `lastAck, `sndNxt, `rcvNxt, `rcvWnd
    {
      EndsAt(s, cb, rcvWnd)
    }

    /** The same for a window of `wnd`: a reset counts inside the window only. */
    ghost predicate EndsAt(s: Segment, cb: Callbacks, wnd: nat)
      reads `state, `lastAck, `sndNxt, `rcvNxt
    {
      if s.rst then
        if state == SYN_SENT then s.ackno == sndNxt
        else SeqBetween(s.seqno, rcvNxt, Wrap(rcvNxt + wnd))
      else if Ignored(s) then false
      else
        || (Connects(s) && cb.connectedAborts)
        || (Opens(s) && cb.acceptFails)
        || (state == LAST_ACK && AcksAll(s))
    }

    /** A reset ends a synchronized connection exactly if it lies at or inside the window; to the
        stream it is at place k. */
    lemma ResetExact(s: Segment, cb: Callbacks, k: int)
      requires WindowInv() && s.rst && state != SYN_SENT && s.seqno == Wrap(irs + 1 + k)
      requires -HALF <= k - got - rcvWnd && k - got < HALF
      ensures Ends(s, cb) <==> got <= k <= got + rcvWnd
    {
      DiffOfWrap(irs + 1 + k, irs + 1 + got);
      WrapAdd(irs + 1 + got, rcvWnd);
      DiffOfWrap(irs + 1 + k, irs + 1 + got + rcvWnd);
    }

    /** A reset refuses a connection that is being opened exactly if it names our SYN as what it
        acknowledges; the ACK flag is not looked at. */
    lemma RefusedExact(s: Segment, cb: Callbacks)
      requires s.rst && state == SYN_SENT && sndNxt == Wrap(lastAck + 1)
      ensures Ends(s, cb) <==> s.ackno == Wrap(lastAck + 1)
    {
    }

    /** While nothing but our SYN was sent, a segment opens the connection exactly if it
        acknowledges that. */
    lemma OpensExact(s: Segment)
      requires sndNxt == Wrap(lastAck + 1)
      ensures Opens(s) <==> state == SYN_RCVD && s.ack && s.ackno == sndNxt
      ensures Connects(s) <==> state == SYN_SENT && s.syn && s.ack && s.ackno == sndNxt
      ensures AcksSyn(s) ==> (Ignored(s) <==> s.rst)
    {
    }

    ghost function Taken(s: Segment): Cut
      reads `state, `lastAck, `sndNxt, `rcvNxt, `rcvWnd
    {
      if TextOpen(s) then CutOf(s, Diff(s.seqno, rcvNxt), rcvWnd) else Cut(0, [], false)
    }

    lemma PeerDistance(s: Segment, k: int)
      requires WindowInv() && Fits(s, k) && !s.syn && SegLen(s) > 0
      ensures Diff(s.seqno, rcvNxt) == k - got && CarriesSlice(s, stream, k)
    {
      DiffOfWrap(irs + 1 + k, irs + 1 + got);
    }

    /** What the peer's contract gives in a state that takes text. */
    lemma PeerCut(s: Segment, k: int)
      requires WindowInv() && got <= |stream| && Fits(s, k)
      ensures !HalfSpaceOctet(s, rcvNxt)
      ensures var c := CutOf(s, Diff(s.seqno, rcvNxt), rcvWnd);
        && got + c.adv <= |stream| + 1
        && Received(stream, got) + c.text == Received(stream, got + c.adv)
        && (c.fin <==> got + c.adv == |stream| + 1)
      ensures SegLen(s) == 0 ==> CutOf(s, Diff(s.seqno, rcvNxt), rcvWnd) == Cut(0, [], false)
    {
      hide Wrap, Diff;
      if !s.syn && SegLen(s) > 0 {
        PeerDistance(s, k);
        CutContinuesStream(s, stream, k, got, rcvWnd);
      } else {
        NothingCut(s, Diff(s.seqno, rcvNxt), rcvWnd);
      }
    }

    /** The acknowledgement part of tcp_receive, as far as the receive side needs it. */
    method NoteAck(s: Segment, ghost text: seq<Octet>, ghost fin: bool)
      requires Inv(text, fin)
      modifies this`lastAck
      ensures Inv(text, fin)
    {
      if s.ack && !SeqLeq(s.ackno, lastAck) && SeqBetween(s.ackno, Wrap(lastAck + 1), sndNxt) {
        lastAck := s.ackno;
      }
    }

    /** tcp_receive: note what is acknowledged, then take text unless a FIN was taken. */
    method Receive(s: Segment, ghost k: int) returns (text: seq<Octet>, fin: bool)
      requires Valid() && live && |s.data| < 0x7fff && (refused.Held? ==> SegLen(s) == 0)
      requires (TakesText(state) ==> Fits(s, k)) && got + rcvWnd - annEdge < HALF
      modifies this`lastAck, this`rcvNxt, this`rcvWnd, this`rcvAnnWnd, this`got
      ensures Inv(text, fin)
      ensures var c := if TakesText(state)
                       then CutOf(s, Diff(s.seqno, old(rcvNxt)), old(rcvWnd)) else Cut(0, [], false);
        && got == old(got) + c.adv && rcvWnd == old(rcvWnd) - c.adv
        && text == c.text && fin == c.fin
      ensures SegLen(s) == 0 ==> text == [] && !fin
      ensures text != [] ==> (intact || rxClosed) && (fin || got <= |stream|)
      ensures got + rcvWnd == old(got + rcvWnd)
    {
      hide Wrap, Diff, CutOf, NextAnn;
      NoteAck(s, [], false);
      text, fin := [], false;
      EmptyEnds(accepted, HeldData());
      if TakesText(state) {
        PeerCut(s, k);
        ghost var before := Received(stream, got);
        text, fin := ReceiveText(s);
        AppendBoth(accepted, HeldData(), before, text);
      }
    }

    /** A state change while `text` and `fin` are on their way to the application. */
    method Enter(st: TcpState, ghost text: seq<Octet>, ghost fin: bool)
      requires Inv(text, fin) && live && state != TIME_WAIT
      requires st !in {CLOSED, LISTEN, SYN_SENT, SYN_RCVD, TIME_WAIT}
      requires TakesText(st) && !fin ==> TakesText(state) || got == 0
      modifies this`state
      ensures Inv(text, fin) && state == st
    {
      state := st;
    }

    /** tcp_pcb_purge, then TIME-WAIT. */
    method EnterTimeWait(ghost text: seq<Octet>, ghost fin: bool)
      requires Inv(text, fin) && live && state != TIME_WAIT
      requires refused.Held? ==> text == [] && !fin
      requires text != [] ==> (intact || rxClosed) && (fin || got <= |stream|)
      modifies this`state, this`refused, this`intact
      ensures Inv(text, fin) && state == TIME_WAIT
      ensures text != [] ==> (intact || rxClosed) && (fin || got <= |stream|)
      ensures refused == Nothing
      ensures intact <==> old(intact) && old(refused) == Nothing
    {
      AppendBoth(accepted, HeldData(), accepted + HeldData(), text);
      DropRefused(text);
      EmptyEnds(accepted, text);
      state := TIME_WAIT;
    }

    /** The cases ESTABLISHED to LAST_ACK of tcp_process. */
    method ProcessSynchronized(s: Segment, ghost k: int)
      returns (text: seq<Octet>, fin: bool, gone: bool)
      requires Valid() && live && |s.data| < 0x7fff && (refused.Held? ==> SegLen(s) == 0)
      requires state !in {CLOSED, LISTEN, SYN_SENT, SYN_RCVD, TIME_WAIT}
      requires (TakesText(state) ==> Fits(s, k)) && got + rcvWnd - annEdge < HALF
      modifies this`state, this`live, this`refused, this`intact
      modifies this`lastAck, this`rcvNxt, this`rcvWnd, this`rcvAnnWnd, this`got
      ensures gone <==> old(state) == LAST_ACK && old(AcksAll(s))
      ensures gone ==> !live && Valid()
      ensures !gone ==> live && Inv(text, fin)
      ensures !gone ==>
        var c := if old(TakesText(state))
                 then CutOf(s, Diff(s.seqno, old(rcvNxt)), old(rcvWnd)) else Cut(0, [], false);
        && got == old(got) + c.adv && rcvWnd == old(rcvWnd) - c.adv
        && text == c.text && fin == c.fin
        && state == NextState(old(state), false, fin, old(AcksAll(s)))
      ensures !gone ==> refused == if state == TIME_WAIT then Nothing else old(refused)
      ensures !gone ==> (intact <==> old(intact) && (state == TIME_WAIT ==> old(refused) == Nothing))
      ensures gone ==> (intact <==> old(intact && refused == Nothing)) && accepted == old(accepted)
      ensures !gone ==> Deliverable(text, fin)
      ensures !gone && SegLen(s) == 0 ==> text == [] && !fin
      ensures !gone && old(Truthful()) ==>
        Phase(state, got == |stream| + 1, Noted(ours, false, old(AcksAll(s))))
    {
      hide Wrap, Diff, CutOf, WindowInv, StreamInv, FinInv, Fits, Phase, Noted;
      gone := false;
      Passed([], false);
      ghost var was, already := state, got == |stream| + 1;
      text, fin := Receive(s, k);
      var acksAll := s.ack && s.ackno == sndNxt;
      if state == ESTABLISHED && fin {
        Enter(CLOSE_WAIT, text, fin);
      } else if state == FIN_WAIT_1 && fin && !acksAll {
        Enter(CLOSING, text, fin);
      } else if state == FIN_WAIT_1 && !fin && acksAll {
        Enter(FIN_WAIT_2, text, fin);
      } else if (state == FIN_WAIT_1 && fin) || (state == FIN_WAIT_2 && fin)
                || (state == CLOSING && acksAll) {
        EnterTimeWait(text, fin);
      } else if state == LAST_ACK && acksAll {
        Free(text, fin);
        gone := true;
      }
      if !gone {
        StillTruthful(was, already, false, acksAll, text, fin);
      }
    }

    /** The state after a segment is as truthful as the one before. */
    lemma StillTruthful(was: TcpState, already: bool, opens: bool, acksAll: bool, text: seq<Octet>, fin: bool)
      requires Inv(text, fin) && live && (fin ==> TakesText(was) || (was == SYN_RCVD && opens))
      requires opens ==> was == SYN_SENT || was == SYN_RCVD
      requires was == LAST_ACK ==> !acksAll
      requires state == NextState(was, opens, fin, acksAll)
      requires !fin && was in {CLOSE_WAIT, CLOSING, LAST_ACK, TIME_WAIT} ==> already == (got == |stream| + 1)
      ensures Phase(was, already, ours) ==> Phase(state, got == |stream| + 1, Noted(ours, opens, acksAll))
    {
      Passed(text, fin);
      hide WindowInv, StreamInv, FinInv;
      if Phase(was, already, ours) {
        TransitionsTellTheTruth(was, already, ours, opens, fin, acksAll);
      }
    }

    /** What a segment that is not ignored acknowledges is noted once its text was taken. */
    ghost method Note(was: TcpState, already: bool, opens: bool, acksAll: bool, text: seq<Octet>, fin: bool)
      requires Inv(text, fin) && live && (fin ==> TakesText(was) || (was == SYN_RCVD && opens))
      requires opens ==> was == SYN_SENT || was == SYN_RCVD
      requires was == LAST_ACK ==> !acksAll
      requires state == NextState(was, opens, fin, acksAll)
      requires !fin && was in {CLOSE_WAIT, CLOSING, LAST_ACK, TIME_WAIT} ==> already == (got == |stream| + 1)
      modifies this`ours
      ensures ours == Noted(old(ours), opens, acksAll)
      ensures Phase(was, already, old(ours)) ==> Truthful()
    {
      hide Phase, Noted, WindowInv, StreamInv, FinInv, NextState;
      StillTruthful(was, already, opens, acksAll, text, fin);
      ours := Noted(ours, opens, acksAll);
    }

    /** What tcp_process leaves for tcp_input to pass on. */
    ghost predicate Deliverable(text: seq<Octet>, fin: bool)
      reads `state, `rxClosed, `refused, `got, `intact
    {
      && (text != [] ==> (intact || rxClosed) && (fin || got <= |stream|))
      && (refused.Held? ==> text == [] && !fin)
      && (fin ==> !TakesText(state))
    }

    /** The peer's answer to our SYN: its initial sequence number becomes known. */
    method Synchronize(s: Segment)
      requires Valid() && live && state == SYN_SENT
      modifies this`rcvNxt, this`rcvAnnEdge, this`lastAck, this`state, this`irs, this`annEdge
      ensures Valid() && state == ESTABLISHED && irs == s.seqno && annEdge == 0
    {
      rcvNxt := Wrap(s.seqno + 1);
      rcvAnnEdge := rcvNxt;
      lastAck := s.ackno;
      state := ESTABLISHED;
      irs, annEdge := s.seqno, 0;
    }

    /** What tcp_process does with a segment: whether it ends the connection and what is lost then;
        otherwise what is taken, what is purged, and the state that follows. */
    twostate predicate Processed(s: Segment, cb: Callbacks, text: seq<Octet>, fin: bool, gone: bool)
      reads `state, `live, `refused, `intact, `irs, `annEdge, `got, `rcvWnd, `accepted
    {
      && (gone <==> old(Ends(s, cb)))
      && accepted == old(accepted)
      && (gone ==> !live && (intact <==> old(intact && refused == Nothing)))
      && (!gone ==>
            var c := old(Taken(s));
            && live && got == old(got) + c.adv && rcvWnd == old(rcvWnd) - c.adv
            && text == c.text && fin == c.fin)
      && (!gone ==> refused == if state == TIME_WAIT then Nothing else old(refused))
      && (!gone ==> (intact <==> old(intact) && (state == TIME_WAIT ==> old(refused) == Nothing)))
      && (!gone ==>
            state == if old(Ignored(s)) then old(state)
                     else NextState(old(state), old(AcksSyn(s)), fin, old(AcksAll(s))))
      && (!gone || old(state) != SYN_SENT ==>
            if old(state) == SYN_SENT && state == ESTABLISHED then irs == s.seqno && annEdge == 0
            else irs == old(irs) && annEdge == old(annEdge))
    }

    /** tcp_process: the switch on the connection state. */
    method Switch(s: Segment, cb: Callbacks, ghost k: int)
      returns (text: seq<Octet>, fin: bool, gone: bool)
      requires Valid() && live && state != TIME_WAIT && |s.data| < 0x7fff
      requires refused.Held? ==> SegLen(s) == 0
      requires FromPeer(s, k) && got + rcvWnd - annEdge < HALF
      modifies this`state, this`live, this`refused, this`intact, this`irs, this`annEdge
      modifies this`lastAck, this`rcvNxt, this`rcvWnd, this`rcvAnnWnd, this`got, this`rcvAnnEdge
      ensures Processed(s, cb, text, fin, gone)
      ensures gone ==> Valid()
      ensures !gone ==> Inv(text, fin) && Deliverable(text, fin)
    {
      hide Wrap, Diff, CutOf, WindowInv, FinInv, StreamInv, Fits;
      text, fin, gone := [], false, false;
      if s.rst {
        gone := if state == SYN_SENT then s.ackno == sndNxt
                else SeqBetween(s.seqno, rcvNxt, Wrap(rcvNxt + rcvWnd));
        if gone {
          Free([], false);
        }
      } else if s.syn && state != SYN_SENT && state != SYN_RCVD {
        // an ACK is sent
      } else if state == SYN_SENT {
        if s.ack && s.syn && s.ackno == Wrap(lastAck + 1) {
          Synchronize(s);
          gone := cb.connectedAborts;
          if gone {
            Free([], false);
          }
        }
      } else if state == SYN_RCVD {
        if s.ack && SeqBetween(s.ackno, Wrap(lastAck + 1), sndNxt) {
          text, fin, gone := Accept(s, cb, k);
        }
      } else if state != CLOSED && state != LISTEN {
        text, fin, gone := ProcessSynchronized(s, k);
      }
    }

    /** tcp_process: the switch, and what becomes of our own SYN and FIN. */
    method Process(s: Segment, cb: Callbacks, ghost k: int)
      returns (text: seq<Octet>, fin: bool, gone: bool)
      requires Valid() && live && state != TIME_WAIT && |s.data| < 0x7fff
      requires refused.Held? ==> SegLen(s) == 0
      requires FromPeer(s, k) && got + rcvWnd - annEdge < HALF
      modifies this`state, this`live, this`refused, this`intact, this`irs, this`annEdge
      modifies this`lastAck, this`rcvNxt, this`rcvWnd, this`rcvAnnWnd, this`got, this`rcvAnnEdge
      modifies this`ours
      ensures Processed(s, cb, text, fin, gone)
      ensures gone ==> Valid()
      ensures !gone ==> Inv(text, fin) && Deliverable(text, fin)
      ensures !gone ==>
        ours == if old(Ignored(s)) then old(ours) else Noted(old(ours), old(AcksSyn(s)), old(AcksAll(s)))
      ensures !gone && old(Truthful()) ==> Truthful()
    {
      hide Wrap, Diff, CutOf, WindowInv, FinInv, StreamInv, Fits, Noted, Phase, NextState, Deliverable, SeqBetween;
      text, fin, gone := Switch(s, cb, k);
      if !gone && !old(Ignored(s)) {
        Note(old(state), old(got == |stream| + 1), old(AcksSyn(s)), old(AcksAll(s)), text, fin);
      }
    }

    /** Our SYN is acknowledged: the accept callback, then any text the segment brings. */
    method Accept(s: Segment, cb: Callbacks, ghost k: int)
      returns (text: seq<Octet>, fin: bool, gone: bool)
      requires Valid() && live && |s.data| < 0x7fff && state == SYN_RCVD
      requires refused.Held? ==> SegLen(s) == 0
      requires Fits(s, k) && got + rcvWnd - annEdge < HALF
      modifies this`state, this`live, this`refused, this`intact
      modifies this`lastAck, this`rcvNxt, this`rcvWnd, this`rcvAnnWnd, this`got
      ensures gone == cb.acceptFails
      ensures gone ==> !live && Valid() && (intact <==> old(intact && refused == Nothing))
      ensures !gone ==> live && Inv(text, fin) && Deliverable(text, fin)
      ensures !gone ==>
        var c := CutOf(s, Diff(s.seqno, old(rcvNxt)), old(rcvWnd));
        && got == old(got) + c.adv && rcvWnd == old(rcvWnd) - c.adv
        && text == c.text && fin == c.fin
        && refused == old(refused) && intact == old(intact)
        && state == if fin then CLOSE_WAIT else ESTABLISHED
    {
      hide Wrap, Diff, CutOf, WindowInv, StreamInv, Fits;
      text, fin, gone := [], false, cb.acceptFails;
      Enter(ESTABLISHED, [], false);
      if gone {
        Free([], false);
      } else {
        text, fin := Receive(s, k);
        if fin {
          Enter(CLOSE_WAIT, text, fin);
        }
      }
    }

    /** The window after refused data was taken: what the callback returned and, for a FIN parked on
        it, one more, but never above TCP_WND. */
    ghost function WindowAfterTaken(credit: nat): nat
      reads `rcvWnd, `refused
    {
      Min(rcvWnd + credit + if HeldFin() then 1 else 0, TCP_WND)
    }

    /** tcp_process_refused_data: offer the refused buffer again. */
    method ProcessRefused(reply: Reply, eofAborts: bool) returns (aborted: bool)
      requires Valid() && live && refused.Held?
      requires reply.Took? ==> reply.credit <= 0xffff - rcvWnd
      requires got - annEdge < HALF
      modifies this`refused, this`rcvWnd, this`rcvAnnWnd, this`accepted, this`eofs
      modifies this`live, this`intact
      ensures Valid() && live == !aborted
      ensures aborted <==> reply.Aborted? || (reply.Took? && old(HeldFin()) && eofAborts)
      ensures reply.Refused? ==> refused == old(refused) && rcvWnd == old(rcvWnd)
      ensures reply.Took? ==>
        && refused == Nothing && accepted == old(accepted + HeldData())
        && eofs == (if old(HeldFin()) then 1 else 0)
        && rcvWnd == old(WindowAfterTaken(reply.credit))
      ensures !reply.Took? ==> accepted == old(accepted) && eofs == old(eofs)
      ensures intact <==> live || reply.Took?
      ensures got + rcvWnd >= old(got + rcvWnd)
    {
      hide Wrap, Received;
      var kept := refused;
      refused := Nothing;
      aborted := false;
      match reply {
        case Took(credit) =>
          accepted := accepted + kept.data;
          EmptyEnds(accepted, []);
          if kept.fin {
            Recved(credit, [], true);
            SignalFin(eofAborts);
            aborted := eofAborts;
          } else {
            Recved(credit, [], false);
          }
        case Refused =>
          refused := kept;
        case Aborted =>
          refused := kept;
          Free([], false);
          aborted := true;
      }
    }

    /** The end of file: the application does not return window for the FIN's sequence
        number, so one is added here; then the recv callback is called without data. */
    method SignalFin(aborts: bool)
      requires Inv([], true) && live && refused == Nothing && !TakesText(state)
      modifies this`rcvWnd, this`eofs, this`live, this`refused, this`intact
      ensures Valid() && live == !aborts
      ensures rcvWnd == Min(old(rcvWnd) + 1, TCP_WND) && eofs == 1
      ensures refused == Nothing && intact == old(intact)
    {
      hide Wrap;
      EmptyEnds(accepted, []);
      if rcvWnd != TCP_WND {
        rcvWnd := rcvWnd + 1;
      }
      eofs := eofs + 1;
      if aborts {
        Free([], false);
      }
    }

    /** tcp_fasttmr for one control block.  Blocks in TIME-WAIT are in another list, which it does
        not walk. */
    method FastTimer(reply: Reply, eofAborts: bool)
      requires Valid() && live
      requires reply.Took? ==> reply.credit <= 0xffff - rcvWnd
      requires got - annEdge < HALF
      modifies this`refused, this`rcvWnd, this`rcvAnnWnd, this`accepted, this`eofs
      modifies this`live, this`intact
      ensures Valid()
      ensures old(state) == TIME_WAIT ==> unchanged(this)
      ensures old(state) != TIME_WAIT ==>
        && (live <==> (old(refused.Held?) ==>
              !reply.Aborted? && !(reply.Took? && old(HeldFin()) && eofAborts)))
        && accepted == old(accepted) + (if reply.Took? then old(HeldData()) else [])
        && eofs == old(eofs) + (if reply.Took? && old(HeldFin()) then 1 else 0)
        && (live ==> refused == if reply.Took? then Nothing else old(refused))
        && (intact <==> old(intact) && !(old(refused.Held?) && reply.Aborted?))
      ensures got + rcvWnd >= old(got + rcvWnd)
    {
      if state != TIME_WAIT && refused.Held? {
        var aborted := ProcessRefused(reply, eofAborts);
      }
    }

    /** tcp_slowtmr when a block has been in TIME-WAIT long enough: it goes without the error
        callback.  tcp_pcb_purge does nothing in this state, so that refused data is not even
        freed. */
    method Expire() returns (leaks: bool)
      requires Valid() && live && state == TIME_WAIT
      modifies this`live, this`refused, this`intact
      ensures Valid() && !live
      ensures leaks == old(refused.Held?)
      ensures intact <==> old(intact) && !leaks
    {
      leaks := refused.Held?;
      Free([], false);
    }

    /** The segment is dropped because older data is still refused. */
    ghost predicate DroppedAsFull(s: Segment, cb: Callbacks)
      reads this
    {
      refused.Held? && !cb.again.Took? && SegLen(s) > 0
    }

    ghost predicate EndsOnRefused(cb: Callbacks)
      reads this
    {
      refused.Held? &&
      (cb.again.Aborted? || (cb.again.Took? && HeldFin() && cb.againEofAborts))
    }

    /** The window when tcp_process runs: refused data may have been taken just before. */
    ghost function WindowAfterRefused(cb: Callbacks): nat
      reads this
    {
      if refused.Held? && cb.again.Took? then WindowAfterTaken(cb.again.credit) else rcvWnd
    }

    /** What a surviving segment contributes. */
    ghost function Contribution(s: Segment, cb: Callbacks): Cut
      reads this
    {
      if TextOpen(s) && !DroppedAsFull(s, cb)
      then CutOf(s, Diff(s.seqno, rcvNxt), WindowAfterRefused(cb)) else Cut(0, [], false)
    }

    /** The application is given the text of the segment and takes it. */
    ghost predicate HandsOver(cb: Callbacks)
      reads this`rxClosed
    {
      !cb.sentAborts && !rxClosed && cb.recv.Took?
    }

    /** The end of file is signalled for the FIN of the segment. */
    ghost predicate Signals(text: seq<Octet>, fin: bool, cb: Callbacks)
      reads this`rxClosed
    {
      fin && !cb.sentAborts && (text == [] || HandsOver(cb))
    }

    /** What is added to the window while text and end of file are passed on: what the application
        returns for the text it takes, and one for the FIN that is signalled. */
    ghost function Returned(text: seq<Octet>, fin: bool, cb: Callbacks): nat
      reads this`rxClosed
    {
      (if text != [] && HandsOver(cb) then cb.recv.credit else 0) + (if Signals(text, fin, cb) then 1 else 0)
    }

    /** No callback ends the connection while text and end of file are passed on, and the text
        does not meet a receive side that is shut. */
    ghost predicate Survives(text: seq<Octet>, fin: bool, cb: Callbacks)
      reads this`rxClosed
    {
      && !cb.sentAborts && (text != [] ==> !rxClosed && !cb.recv.Aborted?)
      && !(Signals(text, fin, cb) && cb.eofAborts)
    }

    /** The segment gets past refused data and does not end the connection in tcp_process. */
    ghost predicate GetsThrough(s: Segment, cb: Callbacks)
      reads this
    {
      !EndsOnRefused(cb) && !DroppedAsFull(s, cb) && !EndsAt(s, cb, WindowAfterRefused(cb))
    }

    /** When the segment ends the connection, text it brought was received but is not handed
        over. */
    ghost predicate LosesText(s: Segment, cb: Callbacks)
      reads this
    {
      && !EndsOnRefused(cb) && !(Opens(s) && cb.acceptFails)
      && Contribution(s, cb).text != [] && !HandsOver(cb)
    }

    /** The callbacks return no more window than the API allows: len <= 0xffff - rcv_wnd. */
    static predicate CreditsAllowed(cb: Callbacks) {
      && (cb.again.Took? ==> cb.again.credit <= 0xffff - TCP_WND)
      && (cb.recv.Took? ==> cb.recv.credit <= 0xffff - TCP_WND)
    }

    // ----- closing -----------------------------------------------------------------------

    /** Closing now answers with a reset because received octets were not taken. */
    ghost predicate Unread(rst: bool)
      reads this
    {
      rst && (state == ESTABLISHED || state == CLOSE_WAIT)
      && (refused.Held? || rcvWnd != TCP_WND)
    }

    /** What tcp_close_shutdown does: whether the block survives, whether the call succeeds, the
        state after it, and whether refused data was thrown away. */
    twostate predicate ClosedBy(rst: bool, finSent: bool, ok: bool)
      reads this
    {
      && (live <==> old(!(state in {CLOSED, LISTEN, SYN_SENT}) && !(Unread(rst) && state == CLOSE_WAIT)))
      && (ok <==> finSent || old(Unread(rst) || !(state in {SYN_RCVD, ESTABLISHED, CLOSE_WAIT})))
      && (live ==>
            && state == (
                 if old(Unread(rst)) then TIME_WAIT
                 else if !finSent then old(state)
                 else if old(state) == SYN_RCVD || old(state) == ESTABLISHED then FIN_WAIT_1
                 else if old(state) == CLOSE_WAIT then LAST_ACK
                 else old(state))
            && (intact <==> old(intact && !(Unread(rst) && refused.Held?)))
            && (!old(Unread(rst)) ==> refused == old(refused)))
      && (rst && live && state != old(state) && old(state) != SYN_RCVD ==>
            (state == TIME_WAIT <==> old(refused != Nothing || rcvWnd != TCP_WND)))
      && (old(Truthful()) && live ==> Truthful())
      && (live && ours != old(ours) ==>
            ours == old(ours).(queued := true, after := got == |stream| + 1) && finSent)
    }

    /** tcp_send_fin succeeds. */
    ghost method QueueFin()
      modifies this`ours
      ensures ours == old(ours).(queued := true, after := got == |stream| + 1)
    {
      ours := ours.(queued := true, after := got == |stream| + 1);
    }

    /** tcp_close_shutdown; `finSent` is the success of tcp_send_fin. */
    method CloseShutdown(rst: bool, finSent: bool) returns (ok: bool)
      requires Valid() && live && (rst && state in {ESTABLISHED, CLOSE_WAIT} ==> rxClosed)
      modifies this`state, this`live, this`refused, this`intact, this`ours
      ensures Valid() && ClosedBy(rst, finSent, ok)
    {
      hide Wrap, WindowInv, StreamInv, FinInv, Received;
      ok := true;
      Passed([], false);
      if rst && (state == ESTABLISHED || state == CLOSE_WAIT) {
        if refused.Held? || rcvWnd != TCP_WND {
          if state == ESTABLISHED {
            EnterTimeWait([], false);
          } else {
            Free([], false);
          }
          return;
        }
      }
      match state {
        case CLOSED =>
          Free([], false);
        case LISTEN =>
          Free([], false);
        case SYN_SENT =>
          Free([], false);
        case SYN_RCVD =>
          Bounds([], false);
          ok := finSent;
          if ok {
            QueueFin();
            Enter(FIN_WAIT_1, [], false);
          }
        case ESTABLISHED =>
          ok := finSent;
          if ok {
            QueueFin();
            Enter(FIN_WAIT_1, [], false);
          }
        case CLOSE_WAIT =>
          ok := finSent;
          if ok {
            QueueFin();
            Enter(LAST_ACK, [], false);
          }
        case _ =>
      }
    }

    /** tcp_close: no more data is received, unread data is answered with a reset. */
    method Close(finSent: bool) returns (ok: bool)
      requires Valid() && live
      modifies this`state, this`live, this`refused, this`intact, this`rxClosed, this`ours
      ensures Valid() && ClosedBy(true, finSent, ok)
      ensures rxClosed == (old(rxClosed) || old(state) != LISTEN)
    {
      if state != LISTEN {
        StopReceiving();
      }
      ok := CloseShutdown(true, finSent);
    }

    method StopReceiving()
      requires Valid()
      modifies this`rxClosed
      ensures Valid() && rxClosed
    {
      rxClosed := true;
    }

    /** Freeing the refused data of a receive side that is shut. */
    method FreeRefused()
      requires Valid() && live && rxClosed
      modifies this`refused, this`intact
      ensures Valid() && refused == Nothing
      ensures intact <==> old(intact && refused == Nothing)
    {
      EmptyEnds(accepted, HeldData());
      DropRefused([]);
      EmptyEnds(accepted, []);
    }

    /** What tcp_shutdown does to a block that does not listen. */
    twostate predicate ShutBy(rx: bool, tx: bool, finSent: bool, ok: bool)
      reads this
    {
      && rxClosed == (old(rxClosed) || rx)
      && (!tx ==> ok && live && state == old(state) && refused == if rx then Nothing else old(refused))
      && (rx && !tx ==> (intact <==> old(intact && refused == Nothing)))
      && (!rx && live ==> intact == old(intact) && refused == old(refused))
      && (rx && tx ==> ClosedBy(true, finSent, ok))
      && (!rx && tx ==>
            if old(state in {SYN_RCVD, ESTABLISHED, CLOSE_WAIT}) then ClosedBy(false, finSent, ok)
            else !ok && live && state == old(state))
    }

    /** tcp_shutdown: closing the receive side throws refused data away. */
    method Shutdown(rx: bool, tx: bool, finSent: bool) returns (ok: bool)
      requires Valid() && live
      modifies this`state, this`live, this`refused, this`intact, this`rxClosed, this`ours
      ensures Valid() && (old(Truthful()) && live ==> Truthful())
      ensures old(state) == LISTEN ==> !ok && unchanged(this)
      ensures old(state) != LISTEN ==> ShutBy(rx, tx, finSent, ok)
    {
      hide Wrap, WindowInv, StreamInv, FinInv, Received;
      if state == LISTEN {
        return false;
      }
      ok := true;
      if rx {
        StopReceiving();
        if tx {
          ok := CloseShutdown(true, finSent);
          return;
        }
        FreeRefused();
      }
      if tx {
        if state == SYN_RCVD || state == ESTABLISHED || state == CLOSE_WAIT {
          ok := CloseShutdown(rx, finSent);
        } else {
          ok := false;
        }
      }
    }

    /** tcp_output has sent a segment of n octets, SYN and FIN counted: snd_nxt is its end, unless
        it is a repetition.  `fin`: it was the one with our FIN, which has been queued. */
    method Sent(seqno: u32, n: nat, fin: bool)
      requires Valid() && (fin ==> ours.queued)
      modifies this`sndNxt, this`ours
      ensures Valid() && SeqLeq(old(sndNxt), sndNxt) && SeqGeq(sndNxt, Wrap(seqno + n))
      ensures sndNxt == Wrap(seqno + n) || sndNxt == old(sndNxt)
      ensures ours == old(ours).(out := old(ours).out || fin) && (old(Truthful()) ==> Truthful())
    {
      ours := ours.(out := ours.out || fin);
      var end := Wrap(seqno + n);
      if Diff(sndNxt, end) < 0 {
        sndNxt := end;
      }
    }

    /** What a segment does to a connection that is not in TIME-WAIT: whether it lives on, how far
        the receiver moves, what the application was given and signalled, what it still refuses,
        the state it is left in, that neither window edge moves left, and what is lost. */
    twostate predicate Arrived(s: Segment, cb: Callbacks)
      reads this
    {
      var c, through := old(Contribution(s, cb)), old(GetsThrough(s, cb));
      && (live <==> old(!EndsOnRefused(cb)) && (through ==> old(Survives(c.text, c.fin, cb)))
                    && (through || old(DroppedAsFull(s, cb))))
      && accepted == old(accepted) + old(TakenAgain(cb)) + (if through && old(HandsOver(cb)) then c.text else [])
      && eofs == old(eofs) + (if old(HeldFin()) && cb.again.Took? then 1 else 0)
                           + (if through && old(Signals(c.text, c.fin, cb)) then 1 else 0)
      && (live ==>
            && got == old(got) + c.adv
            && refused == if c.text != [] && !cb.recv.Took? then Held(c.text, c.fin)
                          else if state == TIME_WAIT || cb.again.Took? then Nothing else old(refused))
      && (live ==>
            state == if old(DroppedAsFull(s, cb)) || old(Ignored(s)) then old(state)
                     else NextState(old(state), old(AcksSyn(s)), c.fin, old(AcksAll(s))))
      && (live ==> rcvWnd == Min(old(WindowAfterRefused(cb)) - c.adv + old(Returned(c.text, c.fin, cb)), TCP_WND))
      && (live ==>
            && ours == (if old(DroppedAsFull(s, cb)) || old(Ignored(s)) then old(ours)
                        else Noted(old(ours), old(AcksSyn(s)), old(AcksAll(s))))
            && (old(Truthful()) ==> Truthful()))
      && (live || old(state) != SYN_SENT ==>
            if old(state) == SYN_SENT && state == ESTABLISHED then irs == s.seqno && annEdge == 0
            else irs == old(irs) && annEdge == old(annEdge))
      && (live ==>
            (intact <==> old(intact) && !(state == TIME_WAIT && old(refused.Held?) && cb.again.Refused?)))
      && (!live ==>
            (intact <==> old(intact) && (old(refused.Held?) ==> cb.again.Took?) && !old(LosesText(s, cb))))
    }

    /** The peer acknowledges our FIN in LAST_ACK after the receive side was shut: the block goes
        without the error callback. */
    ghost predicate EndsQuietly(s: Segment, cb: Callbacks)
      reads this
    {
      && state == LAST_ACK && rxClosed && !Ignored(s) && AcksAll(s)
      && !EndsOnRefused(cb) && !DroppedAsFull(s, cb)
    }

    /** What the application takes when older data is offered again. */
    ghost function TakenAgain(cb: Callbacks): seq<Octet>
      reads this
    {
      if refused.Held? && cb.again.Took? then refused.data else []
    }

    /** tcp_input for a segment of this connection.  Valid() is the delivery property.  A connection
        that ends without the error callback ends `quiet`. */
    method Input(s: Segment, cb: Callbacks, ghost k: int) returns (quiet: bool)
      requires Valid() && live && |s.data| < 0x7fff && CreditsAllowed(cb)
      requires FromPeer(s, k)
      requires got + TCP_WND - annEdge < HALF
      modifies this`state, this`live, this`refused, this`intact, this`irs, this`annEdge
      modifies this`lastAck, this`rcvNxt, this`rcvWnd, this`rcvAnnWnd, this`got, this`rcvAnnEdge
      modifies this`ours, this`accepted, this`eofs
      ensures Valid()
      ensures if old(state) == TIME_WAIT then unchanged(this) && !quiet else Arrived(s, cb)
      ensures live ==> got + rcvWnd >= old(got + rcvWnd)
      ensures old(state) != TIME_WAIT ==> (quiet <==> old(EndsQuietly(s, cb))) && (quiet ==> !live)
    {
      hide Wrap, Diff, CutOf, WindowInv, StreamInv, FinInv, NextState, Received, Advance, Noted, Phase;
      if state == TIME_WAIT {
        return false;
      }
      Bounds([], false);
      if refused.Held? {
        quiet := InputRefused(s, cb, k);
      } else {
        EndsWithText(s, cb);
        quiet := ProcessAndDeliver(s, cb, k);
      }
    }

    /** The start of tcp_input while older data is refused. */
    method InputRefused(s: Segment, cb: Callbacks, ghost k: int) returns (quiet: bool)
      requires Valid() && live && |s.data| < 0x7fff && CreditsAllowed(cb)
      requires FromPeer(s, k) && state != TIME_WAIT && refused.Held?
      requires got + TCP_WND - annEdge < HALF
      modifies this`state, this`live, this`refused, this`intact, this`irs, this`annEdge
      modifies this`lastAck, this`rcvNxt, this`rcvWnd, this`rcvAnnWnd, this`got, this`rcvAnnEdge
      modifies this`ours, this`accepted, this`eofs
      ensures Valid() && Arrived(s, cb)
      ensures (quiet <==> old(EndsQuietly(s, cb))) && (quiet ==> !live)
    {
      hide Wrap, Diff, CutOf, WindowInv, StreamInv, FinInv, NextState, Received, Advance, SegLen, Noted, Phase;
      hide Ignored, Connects, AcksSyn, AcksAll, EndsAt, SeqBetween, Survives, Signals, HandsOver, Returned;
      hide Truthful;
      Bounds([], false);
      NothingReturned(cb);
      EndsWithText(s, cb);
      NoSynWhileHeld(s, k);
      var aborted := ProcessRefused(cb.again, cb.againEofAborts);
      if aborted || (refused.Held? && SegLen(s) > 0) {
        return false;
      }
      EndsWithText(s, cb);
      quiet := ProcessAndDeliver(s, cb, k);
    }

    lemma NothingReturned(cb: Callbacks)
      ensures Returned([], false, cb) == 0
    {
    }

    /** Which segments end a connection in LAST_ACK. */
    lemma EndsInLastAck(s: Segment, cb: Callbacks)
      ensures state == LAST_ACK && !s.rst ==> (Ends(s, cb) <==> !Ignored(s) && AcksAll(s))
      ensures s.rst ==> Ignored(s)
    {
    }

    /** While data is refused no SYN is under way, so that what the peer promises does not depend
        on the window. */
    lemma NoSynWhileHeld(s: Segment, k: int)
      requires Valid() && refused.Held?
      ensures TextOpen(s) ==> !s.syn
    {
    }

    /** Text is under way at the end of the connection only where the accept callback fails. */
    lemma EndsWithText(s: Segment, cb: Callbacks)
      ensures TextOpen(s) ==> (Ends(s, cb) <==> Opens(s) && cb.acceptFails)
    {
    }

    /** tcp_process and what tcp_input does with its results. */
    method ProcessAndDeliver(s: Segment, cb: Callbacks, ghost k: int) returns (quiet: bool)
      requires Valid() && live && state != TIME_WAIT && |s.data| < 0x7fff && CreditsAllowed(cb)
      requires refused.Held? ==> SegLen(s) == 0
      requires FromPeer(s, k) && got + TCP_WND - annEdge < HALF
      modifies this`state, this`live, this`refused, this`intact, this`irs, this`annEdge
      modifies this`lastAck, this`rcvNxt, this`rcvWnd, this`rcvAnnWnd, this`got, this`rcvAnnEdge
      modifies this`ours, this`accepted, this`eofs
      ensures Valid()
      ensures live <==> !old(Ends(s, cb)) && old(Survives(Taken(s).text, Taken(s).fin, cb))
      ensures accepted == old(accepted) + if !old(Ends(s, cb)) && old(HandsOver(cb)) then old(Taken(s)).text else []
      ensures eofs == old(eofs) +
        if !old(Ends(s, cb)) && old(Signals(Taken(s).text, Taken(s).fin, cb)) then 1 else 0
      ensures live ==>
        var c := old(Taken(s));
        && got == old(got) + c.adv
        && refused == (if c.text != [] && !cb.recv.Took? then Held(c.text, c.fin)
                       else if state == TIME_WAIT then Nothing else old(refused))
        && (intact <==> old(intact) && (state == TIME_WAIT ==> old(refused) == Nothing))
        && rcvWnd == Min(old(rcvWnd) - c.adv + Returned(c.text, c.fin, cb), TCP_WND)
        && ours == (if old(Ignored(s)) then old(ours) else Noted(old(ours), old(AcksSyn(s)), old(AcksAll(s))))
        && (old(Truthful()) ==> Truthful())
      ensures live || old(state) != SYN_SENT ==>
        if old(state) == SYN_SENT && state == ESTABLISHED then irs == s.seqno && annEdge == 0
        else irs == old(irs) && annEdge == old(annEdge)
      ensures live ==>
        state == if old(Ignored(s)) then old(state)
                 else NextState(old(state), old(AcksSyn(s)), old(Taken(s)).fin, old(AcksAll(s)))
      ensures quiet <==> old(state == LAST_ACK && rxClosed && !Ignored(s) && AcksAll(s))
      ensures quiet ==> !live
      ensures !live ==>
        (intact <==> old(intact && refused == Nothing) &&
                     (old(Ends(s, cb)) || old(Taken(s)).text == [] || HandsOver(cb)))
    {
      hide Wrap, Diff, CutOf, WindowInv, StreamInv, FinInv, Fits, NextState, Noted, Phase, Returned, Min;
      hide Deliverable, Truthful, Opens, Connects, CreditsAllowed, TakesText;
      hide Ends, AcksSyn, AcksAll, Ignored, TextOpen, FromPeer, Taken, Survives, Signals, HandsOver;
      Bounds([], false);
      EndsInLastAck(s, cb);
      var was := state;
      var text, fin, gone := Process(s, cb, k);
      // such an end is reported only while the receive side is open
      quiet := gone && was == LAST_ACK && !s.rst && rxClosed;
      if !gone {
        Bounds(text, fin);
        Deliver(text, fin, cb);
      }
    }

    /** The tail of tcp_input: pass on what tcp_receive left in recv_data and recv_flags. */
    method Deliver(text: seq<Octet>, fin: bool, cb: Callbacks)
      requires live && Inv(text, fin)
      requires CreditsAllowed(cb) && got - annEdge < HALF
      requires Deliverable(text, fin)
      modifies this`live, this`refused, this`rcvWnd, this`rcvAnnWnd
      modifies this`accepted, this`eofs, this`intact
      ensures Valid()
      ensures live <==> Survives(text, fin, cb)
      ensures accepted == old(accepted) + if HandsOver(cb) then text else []
      ensures eofs == old(eofs) + if Signals(text, fin, cb) then 1 else 0
      ensures live ==>
        && refused == (if text != [] && !cb.recv.Took? then Held(text, fin) else old(refused))
        && intact == old(intact)
        && rcvWnd == Min(old(rcvWnd) + Returned(text, fin, cb), TCP_WND)
      ensures !live ==>
        (intact <==> old(intact && refused == Nothing) && (text == [] || HandsOver(cb)))
    {
      hide Wrap, WindowInv, StreamInv, FinInv, Received;
      Bounds(text, fin);
      if cb.sentAborts {
        Free(text, fin);
        return;
      }
      EmptyEnds(accepted, text);
      if text != [] {
        HandText(text, fin, cb);
        if !live {
          return;
        }
      }
      if fin {
        SignalEnd(cb.eofAborts);
      }
    }

    /** The text of a segment goes to the application, or is refused. */
    method HandText(text: seq<Octet>, fin: bool, cb: Callbacks)
      requires live && Inv(text, fin) && text != []
      requires CreditsAllowed(cb) && got - annEdge < HALF
      requires Deliverable(text, fin)
      modifies this`live, this`refused, this`rcvWnd, this`rcvAnnWnd, this`accepted, this`intact
      ensures if live then Inv([], fin) else Valid()
      ensures live <==> !rxClosed && !cb.recv.Aborted?
      ensures accepted == old(accepted) + if live && cb.recv.Took? then text else []
      ensures live ==>
        && refused == (if cb.recv.Took? then old(refused) else Held(text, false))
        && intact == old(intact)
        && rcvWnd == if cb.recv.Took? then Min(old(rcvWnd) + cb.recv.credit, TCP_WND) else old(rcvWnd)
      ensures !live ==> !intact && eofs == 0
    {
      Bounds(text, fin);
      hide Wrap, WindowInv;
      if rxClosed {
        // nobody is left to take the text: reset
        Free(text, fin);
        return;
      }
      match cb.recv
      case Took(credit) =>
        accepted := accepted + text;
        EmptyEnds(accepted, []);
        Recved(credit, [], fin);
      case Refused =>
        assert |accepted + HeldData() + text| <= got;
        EmptyEnds(accepted, text);
        refused := Held(text, false);
      case Aborted =>
        Free(text, fin);
    }

    /** The FIN is parked on refused data, or signalled as the end of file. */
    method SignalEnd(aborts: bool)
      requires live && Inv([], true) && !TakesText(state)
      modifies this`live, this`refused, this`rcvWnd, this`rcvAnnWnd, this`eofs, this`intact
      ensures Valid()
      ensures accepted == old(accepted)
      ensures rcvWnd == if old(refused) == Nothing then Min(old(rcvWnd) + 1, TCP_WND) else old(rcvWnd)
      ensures eofs == old(eofs) + if old(refused) == Nothing then 1 else 0
      ensures live <==> old(refused.Held?) || !aborts
      ensures intact == old(intact)
      ensures refused == if old(refused.Held?) then old(refused).(fin := true) else Nothing
    {
      hide Wrap, WindowInv;
      if refused.Held? {
        refused := refused.(fin := true);
      } else {
        SignalFin(aborts);
      }
    }
  }

  // ----- the end of a connection ---------------------------------------------------------------

  /** The states in which a block may go without the error callback: at the end of TIME_WAIT, and
      of LAST_ACK if the receive side was shut. */
  predicate GoesQuietly(st: TcpState, rxClosed: bool) {
    st == TIME_WAIT || (st == LAST_ACK && rxClosed)
  }

  /** A segment, or in TIME_WAIT the slow timer, ends a connection without the error callback in
      those states only. */
  method QuietEnds(p: Pcb, s: Segment, cb: Callbacks, ghost k: int) returns (quiet: bool)
    requires p.Valid() && p.live && |s.data| < 0x7fff && Pcb.CreditsAllowed(cb)
    requires p.FromPeer(s, k) && p.got + TCP_WND - p.annEdge < HALF
    modifies p
    ensures p.Valid() && (quiet ==> !p.live && GoesQuietly(old(p.state), old(p.rxClosed)))
    ensures quiet <==> old(p.state == TIME_WAIT || p.EndsQuietly(s, cb))
  {
    hide Pcb.WindowInv, Pcb.StreamInv, Pcb.FinInv, Wrap, Diff, CutOf;
    if p.state == TIME_WAIT {
      var _ := p.Expire();
      return true;
    }
    quiet := p.Input(s, cb, k);
  }

  // ----- progress ------------------------------------------------------------------------------

  /** No callback ends the connection. */
  predicate Patient(cb: Callbacks) {
    !cb.again.Aborted? && !cb.againEofAborts && !cb.sentAborts && !cb.recv.Aborted? && !cb.eofAborts
  }

  /** A segment that comes next in order is taken as far as the window reaches, once nothing older is
      refused any more; while the application reads on and aborts nothing, the connection lives and
      the octets reach the application at once. */
  method ComesNext(p: Pcb, s: Segment, cb: Callbacks, ghost k: int)
    requires p.Valid() && p.live && |s.data| < 0x7fff && Pcb.CreditsAllowed(cb)
    requires p.FromPeer(s, k) && p.got + TCP_WND - p.annEdge < HALF
    requires TakesText(p.state) && !s.rst && !s.syn && s.seqno == p.rcvNxt
    requires p.refused == Nothing || cb.again.Took?
    modifies p
    ensures p.Valid()
    ensures p.live ==> p.got == old(p.got) + Min(SegLen(s), old(p.WindowAfterRefused(cb)))
    ensures Patient(cb) && !old(p.rxClosed) ==> p.live
    ensures Patient(cb) && !old(p.rxClosed) && cb.recv.Took? && |s.data| <= old(p.WindowAfterRefused(cb)) ==>
      p.accepted == old(p.accepted + p.HeldData()) + s.data
  {
    hide Pcb.WindowInv, Pcb.StreamInv, Pcb.FinInv, Wrap, Diff, CutOf, Received, Advance, SegLen, Min, SeqBetween;
    hide NextState, Noted, Phase, Patient, Pcb.Contribution, Pcb.GetsThrough, Pcb.Survives, Pcb.HandsOver;
    hide Pcb.DroppedAsFull, Pcb.EndsOnRefused, Pcb.WindowAfterRefused, Pcb.LosesText, Pcb.Signals, Pcb.Returned;
    hide Pcb.Ignored;
    NextGetsThrough(p, s, cb);
    var _ := p.Input(s, cb, k);
  }

  lemma NextGetsThrough(p: Pcb, s: Segment, cb: Callbacks)
    requires TakesText(p.state) && !s.rst && !s.syn && s.seqno == p.rcvNxt
    requires p.refused == Nothing || cb.again.Took?
    ensures var c, w := p.Contribution(s, cb), p.WindowAfterRefused(cb);
      && c.adv == Min(SegLen(s), w) && (|s.data| <= w ==> c.text == s.data)
      && !p.DroppedAsFull(s, cb) && p.TakenAgain(cb) == p.HeldData()
      && (Patient(cb) && !p.rxClosed ==>
            !p.EndsOnRefused(cb) && p.GetsThrough(s, cb) && p.Survives(c.text, c.fin, cb))
      && (Patient(cb) && !p.rxClosed && cb.recv.Took? ==> p.HandsOver(cb))
  {
    hide Wrap, Diff, CutOf, SeqBetween;
    NextTaken(s, p.rcvNxt, p.WindowAfterRefused(cb));
  }

  /** What is cut from a segment that starts at rcv_nxt. */
  lemma NextTaken(s: Segment, rcvNxt: u32, wnd: nat)
    requires !s.syn && s.seqno == rcvNxt
    ensures var c := CutOf(s, Diff(s.seqno, rcvNxt), wnd);
      && c.adv == Min(SegLen(s), wnd) && c.text == s.data[..Min(|s.data|, wnd)]
      && (|s.data| <= wnd ==> c.text == s.data)
  {
    assert |s.data| <= wnd ==> s.data[..|s.data|] == s.data;
  }

  // ----- the truth about our FIN ---------------------------------------------------------------

  /** An acknowledgement of everything sent is taken for one of our FIN even when tcp_output has not
      sent that yet: on leaving FIN_WAIT_1 for FIN_WAIT_2 or TIME_WAIT our FIN is acknowledged if
      and only if it was out. */
  method LeaveFinWait1(p: Pcb, s: Segment, cb: Callbacks, ghost k: int)
    requires p.Valid() && p.Truthful() && p.live && |s.data| < 0x7fff && Pcb.CreditsAllowed(cb)
    requires p.FromPeer(s, k) && p.got + TCP_WND - p.annEdge < HALF && p.state == FIN_WAIT_1
    modifies p
    ensures p.Valid() && (p.live ==> p.Truthful() && p.ours.out == old(p.ours.out))
    ensures p.live && (p.state == FIN_WAIT_2 || p.state == TIME_WAIT) ==> (p.ours.acked <==> old(p.ours.out))
    ensures p.live && p.state == TIME_WAIT ==> p.got == |p.stream| + 1
    ensures p.live && (p.state == FIN_WAIT_1 || p.state == CLOSING) ==> !p.ours.acked
  {
    hide Pcb.WindowInv, Pcb.StreamInv, Pcb.FinInv, Wrap, Diff, CutOf, Received, Advance, SegLen;
    var _ := p.Input(s, cb, k);
  }

  /** A run in which our FIN is never sent: it is queued while tcp_output has no room for it, what
      was sent before is acknowledged, and the peer's FIN leads to TIME_WAIT, where it is purged. */
  method FinNeverSent(iss: u32, seqno: u32) returns (p: Pcb)
    ensures p.Valid() && p.Truthful() && p.live && p.state == TIME_WAIT && p.eofs == 1
    ensures p.ours.queued && !p.ours.out && !p.ours.acked
  {
    hide Pcb.StreamInv, Pcb.FinInv;
    p := ClosingUnsent(iss, seqno);
    var quiet := p.Input(Segment(p.rcvNxt, p.sndNxt, false, true, false, false, []), WILLING, 0);
    assert p.live && p.state == FIN_WAIT_2;
    quiet := p.Input(Segment(p.rcvNxt, p.sndNxt, false, true, true, false, []), WILLING, 0);
  }

  const WILLING := Callbacks(Took(0), false, false, false, false, Took(0), false)

  /** The beginning of that run: a connection that the application shuts at once. */
  method ClosingUnsent(iss: u32, seqno: u32) returns (p: Pcb)
    ensures fresh(p) && p.Valid() && p.Truthful() && p.live && p.state == FIN_WAIT_1
    ensures !p.ours.out && p.refused == Nothing && !p.rxClosed && p.stream == []
    ensures p.got == 0 && p.annEdge == 0 && p.rcvWnd == TCP_WND && p.eofs == 0
  {
    hide Pcb.WindowInv, Pcb.StreamInv, Pcb.FinInv, Wrap;
    p := Connected(iss, seqno);
    var ok := p.Shutdown(false, true, true);
  }

  method Connected(iss: u32, seqno: u32) returns (p: Pcb)
    ensures fresh(p) && p.Valid() && p.Truthful() && p.live && p.state == ESTABLISHED
    ensures p.ours == NOTHING_YET.(open := true) && p.refused == Nothing && !p.rxClosed && p.stream == []
    ensures p.got == 0 && p.annEdge == 0 && p.rcvWnd == TCP_WND && p.eofs == 0
  {
    hide Pcb.WindowInv, Pcb.StreamInv, Pcb.FinInv;
    p := new Pcb.Active(iss, TCP_MSS, []);
    p.Bounds([], false);
    var quiet := p.Input(Segment(seqno, Wrap(iss + 1), true, true, false, false, []), WILLING, 0);
  }

  // ----- TIME-WAIT -------------------------------------------------------------------------

  /** What can still happen to a block in TIME-WAIT: segments, the fast timer, and window that the
      application returns. */
  datatype Late = Arrives(s: Segment, cb: Callbacks) | Ticks(reply: Reply, eofAborts: bool) | Returns(len: nat)

  predicate Allowed(e: Late) {
    match e
    case Arrives(s, cb) => |s.data| < 0x7fff && Pcb.CreditsAllowed(cb)
    case Ticks(reply, _) => reply.Took? ==> reply.credit <= 0xffff - TCP_WND
    case Returns(len) => len <= 0xffff - TCP_WND
  }

  /** Until a block in TIME-WAIT goes, whatever happens, the application is given nothing more:
      text that was refused when the state was entered, and its end of file, reach nobody, and
      the text is never freed. */
  method NobodyIsTold(p: Pcb, events: seq<Late>) returns (leaks: bool)
    requires p.Valid() && p.live && p.state == TIME_WAIT && p.got + TCP_WND - p.annEdge < HALF
    requires forall e :: e in events ==> Allowed(e)
    modifies p
    ensures p.Valid() && !p.live && p.accepted == old(p.accepted) && p.eofs == old(p.eofs)
    ensures leaks == old(p.refused.Held?) && (p.intact <==> old(p.intact) && !leaks)
  {
    hide Wrap, Pcb.WindowInv, Pcb.StreamInv, Pcb.FinInv, Received;
    for i := 0 to |events|
      invariant p.Valid() && p.live && p.state == TIME_WAIT && p.got + TCP_WND - p.annEdge < HALF
      invariant p.accepted == old(p.accepted) && p.eofs == old(p.eofs)
      invariant p.refused == old(p.refused) && p.intact == old(p.intact)
    {
      assert events[i] in events;
      p.Bounds([], false);
      match events[i] {
        case Arrives(s, cb) =>
          var _ := p.Input(s, cb, 0);
        case Ticks(reply, eofAborts) => p.FastTimer(reply, eofAborts);
        case Returns(len) => p.Recved(len, [], false);
      }
    }
    leaks := p.Expire();
  }

  /** What tcp_update_rcv_ann_wnd returns is the gain over the announced edge. */
  lemma Gain(r: int, wnd: nat, edge: int, m: nat)
    requires edge <= r + wnd && r + wnd - edge < WRAP && m <= 0x1_0000
    ensures Wrap(Wrap(Wrap(r) + wnd) - Wrap(edge)) == r + wnd - edge
    ensures SeqGeq(Wrap(Wrap(r) + wnd), Wrap(Wrap(edge) + m)) <==> m <= r + wnd - edge < HALF + m
  {
    WrapAdd(r, wnd);
    WrapAdd(edge, m);
    WrapDifference(r + wnd, edge);
    hide Wrap;
    AnnCompare(r + wnd, edge + m);
    hide Diff;
  }

  lemma WrapDifference(x: int, y: int)
    requires 0 <= x - y < WRAP
    ensures Wrap(Wrap(x) - Wrap(y)) == x - y
  {
    assert (x % WRAP - y % WRAP) % WRAP == (x - y) % WRAP;
  }

  lemma NothingCut(s: Segment, d: int, wnd: nat)
    requires !(wnd > 0 && d <= 0 < d + SegLen(s)) || Advance(d, SegLen(s), wnd) == 0
    ensures CutOf(s, d, wnd) == Cut(0, [], false)
  {
  }

  /** The front-trim test of tcp_receive on distances.  It has one false positive: */
  lemma FrontTrimTest(rcvNxt: u32, seqno: u32, len: nat)
    requires 0 < len < 0x8000
    ensures SeqBetween(rcvNxt, Wrap(seqno + 1), Wrap(seqno + len - 1)) <==>
      1 <= -Diff(seqno, rcvNxt) <= len - 1 || (len == 1 && Diff(seqno, rcvNxt) == -HALF)
  {
    DiffSwap(rcvNxt, seqno);
    DiffBack(rcvNxt, seqno, 1);
    DiffBack(rcvNxt, seqno, len - 1);
  }

  /** ... a segment of length one exactly half the sequence space away passes the test; the
      offset, cast to 16 bits, is 0, so nothing is trimmed and its octet is taken as new. */
  predicate HalfSpaceOctet(s: Segment, rcvNxt: u32) {
    SegLen(s) == 1 && Diff(s.seqno, rcvNxt) == -HALF
  }

  lemma FrontOffset(rcvNxt: u32, seqno: u32)
    ensures -0x8000 < Diff(seqno, rcvNxt) <= 0 ==> S16(-Diff(rcvNxt, seqno)) == Diff(seqno, rcvNxt)
    ensures Diff(seqno, rcvNxt) == -HALF ==> S16(-Diff(rcvNxt, seqno)) == 0
  {
  }

  /** Where the receiver takes a segment to begin, relative to rcv_nxt. */
  function Place(s: Segment, rcvNxt: u32): int {
    if HalfSpaceOctet(s, rcvNxt) then 0 else Diff(s.seqno, rcvNxt)
  }

  /** A segment that overlaps rcv_nxt starts there without the octets received before; any
      other is untouched. */
  predicate TrimmedRight(s: Segment, rcvNxt: u32, seqno: u32, data: seq<Octet>) {
    var d := Diff(s.seqno, rcvNxt);
    if d <= 0 < d + SegLen(s) then seqno == rcvNxt && data == s.data[-d..]
    else seqno == s.seqno && data == s.data
  }

  /** Octets below rcv_nxt are duplicates; the segment then starts at rcv_nxt.  The offset is
      the signed difference, cast to 16 bits where the payload pointer is moved. */
  method FrontTrim(s: Segment, rcvNxt: u32) returns (seqno: u32, data: seq<Octet>)
    requires 0 < SegLen(s) < 0x8000
    ensures TrimmedRight(s, rcvNxt, seqno, data) <==> !HalfSpaceOctet(s, rcvNxt)
    ensures var p := Place(s, rcvNxt);
      if p <= 0 < p + SegLen(s) then seqno == rcvNxt && data == s.data[-p..]
      else seqno == s.seqno != rcvNxt && data == s.data
  {
    seqno, data := s.seqno, s.data;
    FrontCases(s, rcvNxt);
    hide Wrap, Diff, S16, SeqBetween, HalfSpaceOctet;
    if SeqBetween(rcvNxt, Wrap(s.seqno + 1), Wrap(s.seqno + SegLen(s) - 1)) {
      var off := Diff(rcvNxt, s.seqno);
      data := data[-S16(-off)..];
      seqno := rcvNxt;
    }
    if Diff(s.seqno, rcvNxt) == 0 {
      assert s.data[0..] == s.data;
    }
  }

  /** The three places a segment can have, and what the test and the offset say in each. */
  lemma FrontCases(s: Segment, rcvNxt: u32)
    requires 0 < SegLen(s) < 0x8000
    ensures var d, drop := Diff(s.seqno, rcvNxt), -S16(-Diff(rcvNxt, s.seqno));
      var test := SeqBetween(rcvNxt, Wrap(s.seqno + 1), Wrap(s.seqno + SegLen(s) - 1));
      && (d == 0 <==> s.seqno == rcvNxt)
      && if HalfSpaceOctet(s, rcvNxt) then test && drop == 0 && d < 0 && d + SegLen(s) <= 0
         else if d <= 0 < d + SegLen(s) then (test <==> d != 0) && drop == -d
         else !test && d != 0
  {
    FrontTrimTest(rcvNxt, s.seqno, SegLen(s));
    SameOrNot(s.seqno, rcvNxt);
    FrontOffset(rcvNxt, s.seqno);
    hide Wrap, Diff, S16, SeqBetween;
  }

  lemma SameOrNot(a: u32, b: u32)
    ensures Diff(a, b) == 0 <==> a == b
  {
  }

  predicate InWindow(seqno: u32, rcvNxt: u32, rcvWnd: nat) {
    SeqBetween(seqno, rcvNxt, Wrap(rcvNxt + rcvWnd - 1))
  }

  /** The window test of tcp_receive, together with rcv_nxt == seqno. */
  lemma WindowTest(seqno: u32, rcvNxt: u32, wnd: nat)
    requires wnd <= TCP_WND
    ensures InWindow(seqno, rcvNxt, wnd) && seqno == rcvNxt
      <==> seqno == rcvNxt && wnd > 0
  {
  }

  /** Front trim, then window trim, give CutOf. */
  lemma TrimsAreCut(s: Segment, d: int, wnd: nat)
    requires wnd > 0 && d <= 0 < d + SegLen(s)
    ensures var front := s.data[-d..];
      var len := |front| + if s.fin || s.syn then 1 else 0;
      CutOf(s, d, wnd) ==
        if len > wnd then Cut(wnd, front[..wnd - if s.syn then 1 else 0], false)
        else Cut(len, front, s.fin)
  {
    var front := s.data[-d..];
    assert d + SegLen(s) == |front| + if s.fin || s.syn then 1 else 0;
    assert Advance(d, SegLen(s), wnd) == Min(d + SegLen(s), wnd);
    var n := if d + SegLen(s) > wnd then wnd - (if s.syn then 1 else 0) else |front|;
    SliceOfRest(s.data, -d, n);
    assert front[..|front|] == front;
  }

  lemma SliceOfRest(data: seq<Octet>, from: nat, n: nat)
    requires from + n <= |data|
    ensures data[from..from + n] == data[from..][..n]
  {
  }
}
