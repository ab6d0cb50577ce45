/** The operations of a TCP netconn (api_msg.c): an application posts a message to the stack's
    thread and waits on a semaphore; the message is answered at once, or is kept in current_msg
    and answered by a later callback.  LWIP_TCPIP_CORE_LOCKING and LWIP_SO_SNDTIMEO are off.

    What the stack below answers (room in the send buffer, the results of tcp_write,
    tcp_connect, tcp_send_fin and of allocations) is a parameter. */
module Netconn {
  import opened Options
  import opened TcpPcb
  import opened TcpWindow

  // ----- error codes (err.h) -----------------------------------------------------------------

  type Err = e: int | -15 <= e <= 0

  const ERR_OK: Err := 0
  const ERR_MEM: Err := -1
  const ERR_INPROGRESS: Err := -5
  const ERR_VAL: Err := -6
  const ERR_WOULDBLOCK: Err := -7
  const ERR_ISCONN: Err := -9
  const ERR_CLSD: Err := -12
  const ERR_CONN: Err := -13

  predicate Fatal(e: Err) {
    e < ERR_ISCONN
  }

  datatype ConnState = NONE | WRITE | LISTENING | CONNECT | CLOSE

  datatype Shut = RD | WR | RDWR

  // ----- one round of do_writemore -----------------------------------------------------------

  /** How many of the `rest` octets one call of tcp_write is given. */
  function ChunkLen(rest: nat, sndbuf: nat): nat {
    var len := if rest > 0xffff then 0xffff else rest;
    if sndbuf < len then sndbuf else len
  }

  /** How many octets a round queues. */
  function Queued(rest: nat, sndbuf: nat, result: Err, dontblock: bool): nat {
    if result != ERR_OK || (dontblock && sndbuf == 0) then 0 else ChunkLen(rest, sndbuf)
  }

  /** A chunk is as large as what is left, the room in the send buffer and the 16 bits of tcp_write's
      length allow, and a round queues it whole or not at all. */
  lemma ChunkIsSmallest(rest: nat, sndbuf: nat, result: Err, dontblock: bool)
    ensures var n := Queued(rest, sndbuf, result, dontblock);
      && n <= rest && n <= sndbuf && n <= 0xffff
      && (result == ERR_OK ==> n == rest || n == sndbuf || n == 0xffff)
      && (result != ERR_OK ==> n == 0)
  {
  }

  /** A round keeps the message waiting, or answers it with an error and a length. */
  datatype Round = Waits | Answers(err: Err, len: nat)

  /** What a round does when `offset` of `size` octets are queued already. */
  function WriteRound(offset: nat, size: nat, sndbuf: nat, result: Err, dontblock: bool): Round
    requires offset < size
  {
    var n := Queued(size - offset, sndbuf, result, dontblock);
    if dontblock && sndbuf == 0 then Answers(ERR_WOULDBLOCK, 0)
    else if result == ERR_OK then if dontblock || offset + n == size then Answers(ERR_OK, offset + n) else Waits
    else if result == ERR_MEM && !dontblock then Waits
    else Answers(result, 0)
  }

  /** A round by what became of the chunk. */
  lemma RoundIs(offset: nat, size: nat, sndbuf: nat, result: Err, dontblock: bool)
    requires offset < size
    ensures var round := WriteRound(offset, size, sndbuf, result, dontblock);
      var n := Queued(size - offset, sndbuf, result, dontblock);
      var err := if dontblock && sndbuf == 0 then ERR_WOULDBLOCK else result;
      && offset + n <= size && (err != ERR_OK ==> n == 0)
      && round == (if err == ERR_OK then
                     if dontblock || offset + n == size then Answers(ERR_OK, offset + n) else Waits
                   else if err == ERR_MEM && !dontblock then Waits else Answers(err, 0))
  {
  }

  lemma FirstRound(size: nat, sndbuf: nat, result: Err, dontblock: bool)
    requires size > 0
    ensures var round := WriteRound(0, size, sndbuf, result, dontblock);
      && Queued(size, sndbuf, result, dontblock) <= size
      && (round.Answers? ==> round.len == Queued(size, sndbuf, result, dontblock))
  {
  }

  /** A round of a non-blocking write answers, with all that the stack took; one of a blocking write
      waits on unless everything is queued or the stack fails for good. */
  lemma RoundAnswers(offset: nat, size: nat, sndbuf: nat, result: Err, dontblock: bool)
    requires offset < size
    ensures var round := WriteRound(offset, size, sndbuf, result, dontblock);
      var n := Queued(size - offset, sndbuf, result, dontblock);
      && (dontblock ==> round.Answers? && (n > 0 ==> round == Answers(ERR_OK, offset + n)))
      && (dontblock && sndbuf == 0 ==> round == Answers(ERR_WOULDBLOCK, 0))
      && (round.Answers? && round.err != ERR_OK && !(dontblock && sndbuf == 0) ==> round.err == result)
      && (!dontblock ==> (round.Waits? <==> offset + n < size && (result == ERR_OK || result == ERR_MEM)))
  {
  }

  /** What the stack answers in one round. */
  datatype Offer = Offer(sndbuf: nat, result: Err)

  /** The rounds of a blocking write until it is answered, and the octets queued by then. */
  function WriteRounds(offset: nat, size: nat, offers: seq<Offer>): (Round, nat)
    requires offset < size
    decreases |offers|
  {
    if offers == [] then (Waits, offset)
    else
      var o := offers[0];
      var n := Queued(size - offset, o.sndbuf, o.result, false);
      var round := WriteRound(offset, size, o.sndbuf, o.result, false);
      if round.Answers? then (round, offset + n) else WriteRounds(offset + n, size, offers[1..])
  }

  /** The rounds in which the stack takes something, while none of them fails for good. */
  function Takes(offers: seq<Offer>): nat {
    if offers == [] then 0
    else (if offers[0].result == ERR_OK && offers[0].sndbuf > 0 then 1 else 0) + Takes(offers[1..])
  }

  /** Whatever the stack answers, a blocking write is answered ERR_OK exactly when everything
      is queued; any other answer reports length 0, whatever was queued before it.  Without a
      lasting error it is answered after at most one useful round for each octet. */
  lemma {:induction false} BlockingWrite(offset: nat, size: nat, offers: seq<Offer>)
    requires offset < size
    ensures var (round, total) := WriteRounds(offset, size, offers);
      && offset <= total <= size
      && (round == Answers(ERR_OK, size) <==> total == size)
      && (round.Answers? && round.err != ERR_OK ==> round.len == 0)
      && (Takes(offers) >= size - offset && (forall o :: o in offers ==> o.result == ERR_OK || o.result == ERR_MEM)
          ==> round == Answers(ERR_OK, size))
    decreases |offers|
  {
    if offers != [] {
      var o := offers[0];
      if WriteRound(offset, size, o.sndbuf, o.result, false).Waits? {
        BlockingWrite(offset + Queued(size - offset, o.sndbuf, o.result, false), size, offers[1..]);
      }
    }
  }

  /** The length a round answers with is the number of octets queued for the message, exactly
      if none was queued before or the stack takes the chunk; a failure after an earlier round
      has queued something reports length 0. */
  lemma AnswerCounts(offset: nat, size: nat, sndbuf: nat, result: Err, dontblock: bool)
    requires offset < size && WriteRound(offset, size, sndbuf, result, dontblock).Answers?
    ensures
      var r := WriteRound(offset, size, sndbuf, result, dontblock);
      var n := Queued(size - offset, sndbuf, result, dontblock);
      && (r.len == offset + n <==> offset == 0 || TakesChunk(sndbuf, result, dontblock))
      && (r.err == ERR_OK <==> TakesChunk(sndbuf, result, dontblock))
      && (r.err == ERR_OK && !dontblock ==> offset + n == size)
      && (r.err != ERR_OK ==> n == 0 && r.len == 0)
  {
  }

  /** tcp_write is tried and succeeds. */
  predicate TakesChunk(sndbuf: nat, result: Err, dontblock: bool) {
    result == ERR_OK && !(dontblock && sndbuf == 0)
  }

  /** Queueing the next n octets of the buffer queues a longer beginning of it. */
  lemma Extends(stream: seq<Octet>, mark: nat, data: seq<Octet>, offset: nat, n: nat)
    requires mark <= |stream| && offset + n <= |data| && stream[mark..] == data[..offset]
    ensures (stream + data[offset..offset + n])[mark..] == data[..offset + n]
  {
    assert data[..offset + n] == data[..offset] + data[offset..offset + n];
    assert (stream + data[offset..offset + n])[mark..] == stream[mark..] + data[offset..offset + n];
  }

  // ----- closing the pcb ---------------------------------------------------------------------

  /** The states in which the sending side can be shut. */
  predicate Sends(st: TcpState) {
    st == SYN_RCVD || st == ESTABLISHED || st == CLOSE_WAIT
  }

  /** The result of tcp_close or tcp_shutdown in a state of the pcb, when `fin` is the result of
      queueing a FIN (ERR_OK also where a reset is sent instead). */
  function ShutResult(st: TcpState, shut: Shut, fin: Err): Err {
    match st
    case SYN_RCVD | ESTABLISHED | CLOSE_WAIT => if shut.RD? then ERR_OK else fin
    case LISTEN => if shut.RDWR? then ERR_OK else ERR_CONN
    case _ => if shut.WR? then ERR_CONN else ERR_OK
  }

  /** The states after a FIN was sent. */
  predicate FinSent(st: TcpState) {
    st == FIN_WAIT_1 || st == FIN_WAIT_2 || st == CLOSING || st == TIME_WAIT || st == LAST_ACK
  }

  /** The state of the pcb after its sending side was shut. */
  function AfterShut(st: TcpState, shut: Shut): TcpState {
    if !shut.WR? then st
    else if st == SYN_RCVD || st == ESTABLISHED then FIN_WAIT_1
    else if st == CLOSE_WAIT then LAST_ACK else st
  }

  /** ShutResult and AfterShut are what tcp_close and tcp_shutdown do to a control block. */
  method ShutPcb(p: Pcb, shut: Shut, finSent: bool) returns (ok: bool)
    requires p.Valid() && p.live
    modifies p
    ensures p.Valid()
    ensures forall fin: Err ::
      (fin == ERR_OK <==> finSent || (shut.RDWR? && old(p.Unread(true)))) ==>
        (ok <==> ShutResult(old(p.state), shut, fin) == ERR_OK)
    ensures ok && !shut.RDWR? ==> p.live && p.state == AfterShut(old(p.state), shut)
    ensures !ok ==> p.live && p.state == old(p.state)
  {
    match shut {
      case RD => ok := p.Shutdown(true, false, finSent);
      case WR => ok := p.Shutdown(false, true, finSent);
      case RDWR => ok := p.Close(finSent);
    }
  }

  /** What can happen between two attempts: a retry, with the result of queueing a FIN, or a
      segment that moves the connection on. */
  datatype Attempt = Retry(fin: Err) | MovedOn(opens: bool, gotFin: bool, acksAll: bool)

  /** Some retry completes the shutdown. */
  predicate Completes(st: TcpState, shut: Shut, attempts: seq<Attempt>)
    decreases |attempts|
  {
    attempts != [] &&
    match attempts[0]
    case Retry(fin) => ShutResult(st, shut, fin) == ERR_OK || Completes(st, shut, attempts[1..])
    case MovedOn(opens, gotFin, acksAll) => Completes(NextState(st, opens, gotFin, acksAll), shut, attempts[1..])
  }

  ghost predicate CanComplete(st: TcpState, shut: Shut) {
    exists attempts :: Completes(st, shut, attempts)
  }

  /** The shutdown fails now and no segment makes it succeed later. */
  predicate Hopeless(st: TcpState, shut: Shut) {
    (shut.WR? && !Sends(st) && st != SYN_SENT) || (shut.RD? && st == LISTEN)
  }

  /** No sequence of retries and segments completes a shutdown, exactly if it is for the sending
      side of a pcb that is neither connected nor connecting, or for the receiving side of a
      listener. */
  lemma ShutNeverCompletes(st: TcpState, shut: Shut)
    ensures !CanComplete(st, shut) <==> Hopeless(st, shut)
  {
    if Hopeless(st, shut) {
      forall attempts
        ensures !Completes(st, shut, attempts)
      {
        NeverCompletes(st, shut, attempts);
      }
    } else if shut.WR? && st == SYN_SENT {
      var twice := [MovedOn(true, false, false), Retry(ERR_OK)];
      assert twice[1..] == [Retry(ERR_OK)] && Completes(ESTABLISHED, shut, twice[1..]);
      assert Completes(st, shut, twice);
    } else {
      var once := [Retry(ERR_OK)];
      assert once[0] == Retry(ERR_OK) && ShutResult(st, shut, ERR_OK) == ERR_OK;
      assert Completes(st, shut, once);
    }
  }

  lemma {:induction false} NeverCompletes(st: TcpState, shut: Shut, attempts: seq<Attempt>)
    requires Hopeless(st, shut)
    ensures !Completes(st, shut, attempts)
    decreases |attempts|
  {
    if attempts != [] {
      match attempts[0]
      case Retry(_) => NeverCompletes(st, shut, attempts[1..]);
      case MovedOn(opens, gotFin, acksAll) =>
        NeverCompletes(NextState(st, opens, gotFin, acksAll), shut, attempts[1..]);
    }
  }

  // ----- messages ----------------------------------------------------------------------------

  /** An api_msg_msg.  `len` is the length of a write on the way in and the number of octets
      written on the way out. */
  class Message {
    const data: seq<Octet>
    const dontblock: bool
    var shut: Shut
    var len: nat
    var err: Err
    ghost var posted: bool
    /** How often the waiting task was signalled for this message. */
    ghost var signals: nat

    constructor (data: seq<Octet>, dontblock: bool, shut: Shut)
      ensures this.data == data && this.dontblock == dontblock && this.shut == shut
      ensures len == |data| && Fresh()
    {
      this.data, this.dontblock, this.shut := data, dontblock, shut;
      this.len, this.err := |data|, ERR_OK;
      this.posted, this.signals := false, 0;
    }

    ghost predicate Fresh()
      reads this
    {
      !posted && signals == 0
    }

    ghost predicate Pending()
      reads this
    {
      posted && signals == 0
    }

    ghost predicate Answered()
      reads this
    {
      posted && signals == 1
    }
  }

  class Netconn {
    var state: ConnState
    var current: Message?
    var writeOffset: nat
    var nonblocking: bool
    var inNonblockingConnect: bool
    var pcb: Option<TcpState>
    /** TF_RXCLOSED of the pcb, and whether the stack has freed the pcb that is pointed to. */
    var rxClosed: bool
    var freed: bool
    var lastErr: Err
    ghost var posted: nat
    ghost var signals: nat
    /** Every octet tcp_write has accepted, and how many before the current write. */
    ghost var stream: seq<Octet>
    ghost var mark: nat
    /** A shutdown of the sending side has succeeded. */
    ghost var txShut: bool

    ghost predicate Valid()
      reads this, current
    {
      Balanced() && Shaped()
    }

    /** Each posted message was answered, or is current. */
    ghost predicate Balanced()
      reads `posted, `signals, `current
    {
      posted == signals + if current == null then 0 else 1
    }

    ghost predicate Shaped()
      reads this, current
    {
      && (current != null ==> current.Pending())
      && (current != null <==> state == WRITE || state == CLOSE || (state == CONNECT && !inNonblockingConnect))
      && (state != NONE ==> pcb.Some?)
      && (state == CONNECT <==> pcb == Some(SYN_SENT))
      && (state == LISTENING <==> pcb == Some(LISTEN))
      && (inNonblockingConnect ==> state == CONNECT || pcb.None?)
      && (state == WRITE ==> Writing(current))
      && Owned()
    }

    /** A freed pcb went quietly, and only a pcb whose sending side was shut has sent a FIN. */
    ghost predicate Owned()
      reads `pcb, `rxClosed, `freed, `txShut
    {
      && (freed ==> pcb.Some? && GoesQuietly(pcb.value, rxClosed))
      && (pcb.Some? && FinSent(pcb.value) ==> txShut)
    }

    /** What the current write has queued is the beginning of the caller's buffer. */
    ghost predicate Writing(m: Message)
      reads `writeOffset, `stream, `mark, m
    {
      && writeOffset < m.len == |m.data|
      && mark <= |stream| && stream[mark..] == m.data[..writeOffset]
    }

    /** netconn_new. */
    constructor ()
      ensures Valid() && state == NONE && pcb == Some(CLOSED) && posted == 0 && stream == [] && !freed
    {
      state, current, writeOffset := NONE, null, 0;
      nonblocking, inNonblockingConnect := false, false;
      pcb, rxClosed, freed, lastErr := Some(CLOSED), false, false, ERR_OK;
      posted, signals, stream, mark, txShut := 0, 0, [], 0, false;
    }

    /** The netconn that accept_function makes for a connection just opened. */
    constructor Accepted(err: Err)
      ensures Valid() && state == NONE && pcb == Some(ESTABLISHED) && lastErr == err && stream == [] && !freed
    {
      state, current, writeOffset := NONE, null, 0;
      nonblocking, inNonblockingConnect := false, false;
      pcb, rxClosed, freed, lastErr := Some(ESTABLISHED), false, false, err;
      posted, signals, stream, mark, txShut := 0, 0, [], 0, false;
    }

    /** NETCONN_SET_SAFE_ERR. */
    method SetSafeErr(err: Err)
      modifies `lastErr
      ensures lastErr == if Fatal(old(lastErr)) then old(lastErr) else err
      ensures old(Valid()) ==> Valid()
    {
      if !Fatal(lastErr) {
        lastErr := err;
      }
    }

    /** sys_sem_signal(&conn->op_completed), for message m. */
    ghost method Signal(m: Message)
      modifies `signals, m`signals
      ensures signals == old(signals) + 1 && m.signals == old(m.signals) + 1
    {
      signals, m.signals := signals + 1, m.signals + 1;
    }

    /** The application posts m; the stack's thread has taken it from its mailbox. */
    ghost method Take(m: Message)
      modifies `posted, m`posted
      ensures posted == old(posted) + 1 && m.posted
    {
      posted, m.posted := posted + 1, true;
    }

    /** A call that cannot be started is answered at once. */
    method AnswerNow(m: Message, err: Err)
      requires Valid() && m.Fresh()
      modifies `posted, `signals, m`err, m`posted, m`signals
      ensures Valid() && m.Answered() && m.err == err
      ensures posted == old(posted) + 1
    {
      Take(m);
      m.err := err;
      Signal(m);
    }

    // ----- writing ---------------------------------------------------------------------------

    /** tcp_write takes the next n octets of the current buffer, or none when it fails. */
    ghost method TcpWrite(n: nat)
      requires current != null && Writing(current) && writeOffset + n <= |current.data|
      modifies `stream
      ensures stream == old(stream) + current.data[writeOffset..writeOffset + n]
      ensures mark <= |stream| && stream[mark..] == current.data[..writeOffset + n]
    {
      Extends(stream, mark, current.data, writeOffset, n);
      stream := stream + current.data[writeOffset..writeOffset + n];
    }

    /** The first half of do_writemore: the next chunk is cut to the send buffer and given to
        tcp_write.  Without room a non-blocking write does not try. */
    method SendChunk(dontblock: bool, sndbuf: nat, result: Err) returns (err: Err, len: nat)
      requires current != null && Writing(current)
      modifies `stream
      ensures err == if dontblock && sndbuf == 0 then ERR_WOULDBLOCK else result
      ensures var n := Queued(|current.data| - writeOffset, sndbuf, result, dontblock);
        && (err == ERR_OK ==> len == n) && (err != ERR_OK ==> n == 0)
        && stream == old(stream) + current.data[writeOffset..writeOffset + n]
        && mark <= |stream| && stream[mark..] == current.data[..writeOffset + n]
    {
      err := result;
      var diff := current.len - writeOffset;
      len := if diff > 0xffff then 0xffff else diff;
      if sndbuf < len {
        len := sndbuf;
        if dontblock && len == 0 {
          err := ERR_WOULDBLOCK;
        }
      }
      TcpWrite(if err == ERR_OK then len else 0);
    }

    /** do_writemore. */
    method DoWritemore(sndbuf: nat, result: Err)
      requires Valid() && state == WRITE && sndbuf <= 0xffff && !freed
      modifies `state, `current, `writeOffset, `signals, `stream, current`len, current`err, current`signals
      ensures Valid()
      ensures
        var m, off := old(current), old(writeOffset);
        var dontblock := old(nonblocking) || m.dontblock;
        var n := Queued(|m.data| - off, sndbuf, result, dontblock);
        var round := WriteRound(off, |m.data|, sndbuf, result, dontblock);
        && stream == old(stream) + m.data[off..off + n]
        && stream[mark..] == m.data[..off + n]
        && (round.Waits? ==> state == WRITE && current == m && writeOffset == off + n)
        && (round.Answers? ==>
              && state == NONE && current == null && m.Answered() && m.err == round.err && m.len == round.len
              && writeOffset == if m.err == ERR_OK then 0 else off)
    {
      hide Queued, WriteRound, Balanced, Owned;
      var m := current;
      var dontblock := nonblocking || m.dontblock;
      RoundIs(writeOffset, |m.data|, sndbuf, result, dontblock);
      var err, len := SendChunk(dontblock, sndbuf, result);
      var writeFinished := false;
      if err == ERR_OK {
        writeOffset := writeOffset + len;
        if writeOffset == m.len || dontblock {
          m.len := writeOffset;
          writeFinished := true;
          writeOffset := 0;
        }
      } else if err == ERR_MEM && !dontblock {
        // the round is repeated by sent_tcp or poll_tcp
      } else {
        writeFinished := true;
        m.len := 0;
      }
      if writeFinished {
        Finish(err);
      }
    }

    /** The current message is answered and the netconn is idle again. */
    method Finish(err: Err)
      requires Balanced() && current != null && current.Pending()
      requires pcb.Some? && pcb.value != SYN_SENT && pcb.value != LISTEN && !inNonblockingConnect && Owned()
      modifies `state, `current, `signals, current`err, current`signals
      ensures Valid() && state == NONE && current == null
      ensures old(current).Answered() && old(current).err == err
    {
      ghost var m := current;
      current.err := err;
      current := null;
      state := NONE;
      Signal(m);
    }

    /** do_write. */
    method DoWrite(m: Message, sndbuf: nat, result: Err)
      requires Valid() && m.Fresh() && m.len == |m.data| > 0 && sndbuf <= 0xffff
      requires freed ==> state != NONE || Fatal(lastErr)
      modifies `state, `current, `writeOffset, `posted, `signals, `stream, `mark, m
      ensures Valid() && posted == old(posted) + 1 && m.posted
      ensures (current == m && m.Pending() && old(current) == null) || (current == old(current) && m.Answered())
      ensures pcb == old(pcb) && (current == m ==> state == WRITE)
      ensures
        if Fatal(old(lastErr)) then
          m.Answered() && m.err == old(lastErr) && stream == old(stream) && state == old(state)
        else if old(state) != NONE then
          m.Answered() && m.err == ERR_INPROGRESS && stream == old(stream) && state == old(state)
        else if old(pcb).None? then
          m.Answered() && m.err == ERR_CONN && stream == old(stream) && state == old(state)
        else
          var dontblock := old(nonblocking) || m.dontblock;
          var n := Queued(|m.data|, sndbuf, result, dontblock);
          var round := WriteRound(0, |m.data|, sndbuf, result, dontblock);
          && stream == old(stream) + m.data[..n]
          && (m.Answered() <==> round.Answers?)
          && (m.Answered() ==> m.err == round.err && m.len == round.len == n)
          && (m.Pending() ==> mark == |old(stream)| && writeOffset == n)
    {
      hide WriteRound, Queued, Owned;
      if Fatal(lastErr) {
        AnswerNow(m, lastErr);
      } else if state != NONE {
        AnswerNow(m, ERR_INPROGRESS);
      } else if pcb.Some? {
        FirstRound(|m.data|, sndbuf, result, nonblocking || m.dontblock);
        Take(m);
        state := WRITE;
        current := m;
        writeOffset := 0;
        mark := |stream|;
        DoWritemore(sndbuf, result);
        assert m.data[0..] == m.data;
      } else {
        AnswerNow(m, ERR_CONN);
      }
    }

    // ----- connecting and listening ----------------------------------------------------------

    /** do_connect; `result` is what tcp_connect returns for a closed pcb. */
    method DoConnect(m: Message, result: Err)
      requires Valid() && m.Fresh() && (freed ==> state != NONE)
      modifies `state, `current, `pcb, `inNonblockingConnect, `posted, `signals, m
      ensures Valid() && posted == old(posted) + 1 && stream == old(stream) && m.posted
      ensures (current == m && m.Pending() && old(current) == null) || (current == old(current) && m.Answered())
      ensures
        var connects := old(state) == NONE && old(pcb) == Some(CLOSED) && result == ERR_OK;
        && (connects ==> state == CONNECT && inNonblockingConnect == old(nonblocking))
        && (!connects ==> state == old(state) && pcb == old(pcb))
        && (m.Pending() && current == m <==> connects && !old(nonblocking))
        && (m.Answered() && current == old(current) <==> !connects || old(nonblocking))
      ensures m.Answered() ==> (m.err ==
        if old(pcb).None? then ERR_CLSD
        else if old(state) != NONE || old(pcb) != Some(CLOSED) then ERR_ISCONN
        else if result == ERR_OK then ERR_INPROGRESS else result)
    {
      hide Writing;
      Take(m);
      if pcb.None? {
        m.err := ERR_CLSD;
      } else if state != NONE {
        m.err := ERR_ISCONN;
      } else {
        m.err := if pcb.value == CLOSED then result else ERR_ISCONN;
        if m.err == ERR_OK {
          pcb := Some(SYN_SENT);
          state := CONNECT;
          inNonblockingConnect := nonblocking;
          if nonblocking {
            m.err := ERR_INPROGRESS;
          } else {
            current := m;
            return;
          }
        }
      }
      Signal(m);
    }

    /** do_connected: the SYN was acknowledged. */
    method DoConnected(err: Err)
      requires Valid() && pcb == Some(SYN_SENT) && !freed
      modifies `state, `current, `pcb, `inNonblockingConnect, `lastErr, `signals, current
      ensures Valid()
      ensures if current == old(current) then current != null ==> current.Pending()
              else current == null && old(current).Answered()
      ensures state == NONE && pcb == Some(ESTABLISHED) && current == null
      ensures old(current) != null ==> old(current).Answered() && old(current).err == err
      ensures signals == old(signals) + if old(inNonblockingConnect) then 0 else 1
    {
      pcb := Some(ESTABLISHED);
      if current != null {
        current.err := err;
      }
      var wasBlocking := !inNonblockingConnect;
      inNonblockingConnect := false;
      ghost var m := current;
      current := null;
      state := NONE;
      if !wasBlocking {
        SetSafeErr(ERR_OK);
      }
      if wasBlocking {
        Signal(m);
      }
    }

    /** do_listen; a listening pcb and an accept mailbox are allocated, or not. */
    method DoListen(m: Message, pcbOk: bool, mboxOk: Err)
      requires Valid() && m.Fresh() && (freed ==> state != NONE || Fatal(lastErr))
      modifies `state, `pcb, `posted, `signals, m
      ensures Valid() && posted == old(posted) + 1 && stream == old(stream)
      ensures m.Answered() && current == old(current)
      ensures m.err ==
        if Fatal(old(lastErr)) then old(lastErr)
        else if old(pcb).None? || old(state) != NONE then ERR_CONN
        else if old(pcb) != Some(CLOSED) || !pcbOk then ERR_MEM else mboxOk
      ensures
        var tries := !Fatal(old(lastErr)) && old(state) == NONE && old(pcb) == Some(CLOSED) && pcbOk;
        && state == (if tries && mboxOk == ERR_OK then LISTENING else old(state))
        && pcb == if !tries then old(pcb) else if mboxOk == ERR_OK then Some(LISTEN) else None
    {
      Take(m);
      if Fatal(lastErr) {
        m.err := lastErr;
      } else {
        m.err := ERR_CONN;
        if pcb.Some? && state == NONE {
          if !(pcb.value == CLOSED && pcbOk) {
            m.err := ERR_MEM;
          } else {
            m.err := mboxOk;
            if m.err == ERR_OK {
              state := LISTENING;
              pcb := Some(LISTEN);
            } else {
              pcb := None;
            }
          }
        }
      }
      Signal(m);
    }

    // ----- closing ---------------------------------------------------------------------------

    /** A close or shutdown is in progress.  Deleting a netconn that is still connecting passes
        through here too, but then the pcb is closed at once. */
    ghost predicate Closing()
      reads this, current
    {
      && state == CLOSE && current != null && current.Pending() && pcb.Some? && !freed && Owned()
      && (pcb.value == LISTEN || pcb.value == SYN_SENT || inNonblockingConnect ==> current.shut.RDWR?)
      && (inNonblockingConnect ==> pcb.value == SYN_SENT)
    }

    /** The close or shutdown that m asks for is complete, exactly if the stack's call succeeds on
        a pcb in state st; otherwise m waits for a retry and the pcb stays. */
    ghost predicate ClosedOr(st: TcpState, m: Message, fin: Err)
      reads this, m
    {
      if ShutResult(st, m.shut, fin) == ERR_OK then
        && state == NONE && current == null && m.Answered() && m.err == ERR_OK
        && pcb == if m.shut.RDWR? then None else Some(AfterShut(st, m.shut))
      else
        state == CLOSE && current == m && m.Pending() && pcb == Some(st)
    }

    /** do_close_internal; `fin` is the result of queueing the FIN. */
    method DoCloseInternal(fin: Err)
      requires Closing()
      modifies `state, `current, `pcb, `rxClosed, `signals, `txShut, current`err, current`signals
      ensures Shaped() && (Balanced() <==> old(Balanced()))
      ensures rxClosed == (old(rxClosed) || (!old(current.shut).WR? && old(pcb) != Some(LISTEN)))
      ensures txShut == (old(txShut) || (old(current.shut).WR? && state == NONE))
      ensures ClosedOr(old(pcb).value, old(current), fin)
    {
      var m := current;
      var err := ShutResult(pcb.value, m.shut, fin);
      if !m.shut.WR? && pcb.value != LISTEN {
        rxClosed := true;
      }
      if err == ERR_OK {
        txShut := txShut || m.shut.WR?;
        m.err := ERR_OK;
        current := null;
        state := NONE;
        if m.shut.RDWR? {
          pcb := None;
        } else {
          pcb := Some(AfterShut(pcb.value, m.shut));
        }
        Signal(m);
      }
    }

    /** do_close. */
    method DoClose(m: Message, fin: Err)
      requires Valid() && m.Fresh() && (freed ==> state != NONE)
      modifies `state, `current, `pcb, `rxClosed, `posted, `signals, `txShut, m
      ensures Valid() && posted == old(posted) + 1 && stream == old(stream) && m.posted
      ensures (current == m && m.Pending() && old(current) == null) || (current == old(current) && m.Answered())
      ensures m.shut == old(m.shut)
      ensures
        if old(state) != NONE && old(state) != LISTENING then
          m.Answered() && m.err == ERR_INPROGRESS && state == old(state) && pcb == old(pcb)
        else if old(pcb).None? then
          m.Answered() && m.err == ERR_VAL && state == old(state) && pcb == old(pcb)
        else if old(state) == LISTENING && !old(m.shut).RDWR? then
          m.Answered() && m.err == ERR_CONN && state == LISTENING && pcb == old(pcb)
        else ClosedOr(old(pcb).value, m, fin)
    {
      hide Writing;
      Take(m);
      if state != NONE && state != LISTENING {
        m.err := ERR_INPROGRESS;
      } else if pcb.Some? {
        if !m.shut.RDWR? && state == LISTENING {
          m.err := ERR_CONN;
        } else {
          state := CLOSE;
          current := m;
          DoCloseInternal(fin);
          return;
        }
      } else {
        m.err := ERR_VAL;
      }
      Signal(m);
    }

    /** do_delconn.  A blocking connect still in progress loses its message: current_msg is
        overwritten and nothing will answer it. */
    method DoDelconn(m: Message, fin: Err)
      requires Valid() && m.Fresh() && (freed ==> state != NONE)
      modifies `state, `current, `pcb, `rxClosed, `posted, `signals, `txShut, m
      ensures posted == old(posted) + 1 && stream == old(stream) && m.posted
      ensures Valid() <==> !(old(state) == CONNECT && old(current) != null)
      ensures !(old(state) == CONNECT && old(current) != null) ==>
        (current == m && m.Pending() && old(current) == null) || (current == old(current) && m.Answered())
      ensures old(state) == CONNECT && old(current) != null ==> current == null && old(current).Pending()
      ensures
        if old(state) == WRITE || old(state) == CLOSE then
          m.Answered() && m.err == ERR_INPROGRESS && current == old(current) && state == old(state) && pcb == old(pcb)
        else if old(pcb).None? then m.Answered() && state == old(state) && pcb.None?
        else m.shut == RDWR && ClosedOr(old(pcb).value, m, fin)
    {
      hide Writing;
      Take(m);
      if state != NONE && state != LISTENING && state != CONNECT {
        m.err := ERR_INPROGRESS;
      } else if pcb.Some? {
        state := CLOSE;
        m.shut := RDWR;
        current := m;
        DoCloseInternal(fin);
        return;
      }
      Signal(m);
    }

    method SetNonblocking(on: bool)
      requires Valid()
      modifies `nonblocking
      ensures Valid() && nonblocking == on
    {
      nonblocking := on;
    }

    /** The message waits for a shutdown that no retry completes. */
    ghost predicate Stuck(m: Message)
      reads this, m
    {
      state == CLOSE && current == m && m.shut.WR? && pcb.Some? && !Sends(pcb.value)
    }

    // ----- callbacks -------------------------------------------------------------------------

    /** sent_tcp and poll_tcp, which differ only in the events they raise. */
    method Resume(sndbuf: nat, result: Err, fin: Err)
      requires Valid() && sndbuf <= 0xffff && !freed
      modifies `state, `current, `pcb, `rxClosed, `writeOffset, `signals, `stream, `txShut, current
      ensures Valid()
      ensures if current == old(current) then current != null ==> current.Pending()
              else current == null && old(current).Answered()
      ensures old(stream) <= stream && (old(current) != null && old(Stuck(current)) ==> Stuck(old(current)))
      ensures old(state) == WRITE ==>
        var m, off := old(current), old(writeOffset);
        var dontblock := old(nonblocking) || m.dontblock;
        var n := Queued(|m.data| - off, sndbuf, result, dontblock);
        var round := WriteRound(off, |m.data|, sndbuf, result, dontblock);
        && pcb == old(pcb) && |stream| >= mark && stream[mark..] == m.data[..off + n]
        && (round.Waits? <==> state == WRITE && current == m && m.Pending())
        && (round.Answers? <==> state == NONE && m.Answered())
        && (round.Answers? ==>
              && m.err == round.err && m.len == round.len
              && (m.err == ERR_OK && !dontblock ==> m.len == |m.data|)
              && (m.len == |stream| - mark <==> off == 0 || TakesChunk(sndbuf, result, dontblock)))
      ensures old(state) == CLOSE ==>
        stream == old(stream) && old(current).shut == old(current.shut) && ClosedOr(old(pcb).value, old(current), fin)
      ensures old(state) != WRITE && old(state) != CLOSE ==>
        state == old(state) && current == old(current) && pcb == old(pcb) && stream == old(stream)
    {
      if state == WRITE {
        if WriteRound(writeOffset, |current.data|, sndbuf, result, nonblocking || current.dontblock).Answers? {
          AnswerCounts(writeOffset, |current.data|, sndbuf, result, nonblocking || current.dontblock);
        }
        DoWritemore(sndbuf, result);
      } else if state == CLOSE {
        DoCloseInternal(fin);
      }
    }

    /** err_tcp: the pcb is gone. */
    method ErrTcp(err: Err)
      requires Valid() && pcb.Some? && Fatal(err) && !freed
      modifies `state, `current, `pcb, `inNonblockingConnect, `lastErr, `signals, current
      ensures Valid()
      ensures if current == old(current) then current != null ==> current.Pending()
              else current == null && old(current).Answered()
      ensures state == NONE && pcb.None? && current == null && lastErr == err
      ensures old(current) != null ==> old(current).Answered() && old(current).err == err
    {
      pcb := None;
      lastErr := err;
      var oldState := state;
      state := NONE;
      if oldState == WRITE || oldState == CLOSE || oldState == CONNECT {
        var wasNonblockingConnect := inNonblockingConnect;
        inNonblockingConnect := false;
        if !wasNonblockingConnect {
          ghost var m := current;
          current.err := err;
          current := null;
          Signal(m);
        }
      }
    }

    /** A segment that does not end the connection moves it on, as tcp_process does; one that
        opens it comes with the connected callback. */
    method Moves(opens: bool, fin: bool, acksAll: bool)
      requires Valid() && pcb.Some? && !freed && (pcb == Some(SYN_SENT) ==> !opens)
      modifies `pcb
      ensures Valid() && pcb == Some(NextState(old(pcb).value, opens, fin, acksAll))
      ensures current != null && old(Stuck(current)) ==> Stuck(current)
    {
      pcb := Some(NextState(pcb.value, opens, fin, acksAll));
    }

    /** The stack frees the pcb and calls nobody: the pointer to it is left behind. */
    method Vanishes()
      requires Valid() && pcb.Some? && !freed && GoesQuietly(pcb.value, rxClosed)
      modifies `freed
      ensures Valid() && freed && txShut
    {
      freed := true;
    }
  }

  // ----- whole runs --------------------------------------------------------------------------

  /** What can happen to a netconn: calls of the application, callbacks of the stack. */
  datatype Event =
    | CallWrite(data: seq<Octet>, dontblock: bool, sndbuf: nat, result: Err)
    | CallConnect(result: Err)
    | CallListen(pcbOk: bool, result: Err)
    | CallClose(shut: Shut, fin: Err)
    | CallDelete(fin: Err)
    | SentOrPoll(sndbuf: nat, result: Err, fin: Err)
    | Connected(err: Err)
    | Failed(err: Err)
    | Moved(opens: bool, gotFin: bool, acksAll: bool)
    | Vanished
    | SetNonblocking(on: bool)
    | SetErr(err: Err)

  predicate IsCall(e: Event) {
    e.CallWrite? || e.CallConnect? || e.CallListen? || e.CallClose? || e.CallDelete?
  }

  /** The call would use a pcb that was freed. */
  predicate Touches(c: Netconn, e: Event)
    reads c
  {
    && c.freed && IsCall(e) && c.state == NONE
    && (e.CallWrite? || e.CallListen? ==> !Fatal(c.lastErr))
  }

  /** Whether an event can happen: empty writes never reach the stack, a callback belongs to a
      pcb in the right state, a netconn is not deleted during a blocking connect, and nothing can
      be said of a call that uses a freed pcb. */
  predicate Enabled(c: Netconn, e: Event)
    reads c
  {
    && !Touches(c, e)
    && match e
       case CallWrite(data, _, sndbuf, _) => data != [] && sndbuf <= 0xffff
       case CallDelete(_) => c.state == CONNECT ==> c.current == null
       case SentOrPoll(sndbuf, _, _) => sndbuf <= 0xffff && !c.freed
       case Connected(_) => c.pcb == Some(SYN_SENT)
       case Failed(err) => c.pcb.Some? && !c.freed && Fatal(err)
       case Moved(opens, _, _) => c.pcb.Some? && !c.freed && (c.pcb == Some(SYN_SENT) ==> !opens)
       case Vanished => c.pcb.Some? && !c.freed && GoesQuietly(c.pcb.value, c.rxClosed)
       case _ => true
  }

  /** Every message posted so far is current and not yet answered, or was answered once. */
  ghost predicate Accounted(c: Netconn, all: set<Message>)
    reads c, c.current, all
  {
    && c.Valid() && c.posted == |all| && (c.current != null ==> c.current in all)
    && forall m :: m in all ==> m.posted && if m == c.current then m.Pending() else m.Answered()
  }

  /** A call of the application: its message is kept, or answered and everything else left to
      the call under way. */
  method Call(c: Netconn, e: Event) returns (m: Message)
    requires c.Valid() && Enabled(c, e)
    requires IsCall(e)
    modifies c
    ensures c.Valid() && c.posted == old(c.posted) + 1 && m.posted && fresh(m)
    ensures if c.current == m then m.Pending() && old(c.current) == null
            else m.Answered() && c.current == old(c.current)
    ensures old(c.stream) <= c.stream
    ensures old(c.current) != null && old(c.state) == CLOSE ==> c.state == CLOSE && c.pcb == old(c.pcb)
    ensures c.freed == old(c.freed) && (c.freed ==> c.current == old(c.current))
  {
    assert c.freed ==> c.state != LISTENING && c.state != CONNECT && (c.state == NONE ==> c.current == null);
    hide Netconn.Shaped, Netconn.Balanced, WriteRound, Queued, ShutResult;
    m := new Message(if e.CallWrite? then e.data else [], e.CallWrite? && e.dontblock,
                     if e.CallClose? then e.shut else RDWR);
    match e {
      case CallWrite(data, _, sndbuf, result) => c.DoWrite(m, sndbuf, result);
      case CallConnect(result) => c.DoConnect(m, result);
      case CallListen(pcbOk, result) => c.DoListen(m, pcbOk, result);
      case CallClose(_, fin) => c.DoClose(m, fin);
      case CallDelete(fin) => c.DoDelconn(m, fin);
    }
  }

  /** The message of a call is accounted for, and no answer given before is touched. */
  method ServeCall(c: Netconn, e: Event, ghost all: set<Message>) returns (ghost all': set<Message>)
    requires Accounted(c, all) && Enabled(c, e)
    requires IsCall(e)
    modifies c
    ensures Accounted(c, all') && all <= all' && fresh(all' - all)
    ensures old(c.stream) <= c.stream
    ensures forall x :: x in all && old(c.Stuck(x)) ==> c.Stuck(x)
    ensures c.freed == old(c.freed) && (c.freed ==> c.current == old(c.current))
  {
    hide Netconn.Shaped, Netconn.Balanced, Sends, Enabled;
    var m := Call(c, e);
    all' := all + {m};
  }

  /** An event that is not a call: the waiting message waits on or is answered. */
  method Callback(c: Netconn, e: Event)
    requires c.Valid() && Enabled(c, e) && !IsCall(e)
    modifies c, c.current
    ensures c.Valid() && c.posted == old(c.posted) && old(c.stream) <= c.stream
    ensures c.current == old(c.current) || c.current == null
    ensures old(c.current) != null ==> old(c.current).posted && if c.current == null then old(c.current).Answered()
                                                                 else old(c.current).Pending()
    ensures old(c.current) != null && old(c.Stuck(c.current)) && !e.Failed? ==> c.Stuck(old(c.current))
    ensures c.freed <==> old(c.freed) || e.Vanished?
    ensures old(c.freed) ==> c.current == old(c.current)
  {
    assert c.pcb == Some(SYN_SENT) ==> c.state == CONNECT;
    assert c.freed ==> c.pcb.Some? && c.pcb.value != SYN_SENT;
    assert c.current != null ==> c.current.Pending();
    hide Netconn.Shaped, Netconn.Balanced, WriteRound, Queued, NextState, Sends, GoesQuietly, Netconn.ClosedOr;
    match e {
      case SentOrPoll(sndbuf, result, fin) => c.Resume(sndbuf, result, fin);
      case Connected(err) => c.DoConnected(err);
      case Failed(err) => c.ErrTcp(err);
      case Moved(opens, gotFin, acksAll) => c.Moves(opens, gotFin, acksAll);
      case Vanished => c.Vanishes();
      case SetNonblocking(on) => c.SetNonblocking(on);
      case SetErr(err) => c.SetSafeErr(err);
    }
  }

  /** One event, whatever it is, keeps every posted message accounted for. */
  method Serve(c: Netconn, e: Event, ghost all: set<Message>) returns (ghost all': set<Message>)
    requires Accounted(c, all) && Enabled(c, e)
    modifies c, c.current
    ensures Accounted(c, all') && all <= all' && fresh(all' - all)
    ensures old(c.stream) <= c.stream
    ensures forall m :: m in all && old(c.Stuck(m)) && !e.Failed? ==> c.Stuck(m)
    ensures c.freed <==> old(c.freed) || e.Vanished?
    ensures old(c.freed) ==> c.current == old(c.current)
  {
    hide Netconn.Shaped, Netconn.Balanced, Sends, Enabled;
    if IsCall(e) {
      all' := ServeCall(c, e, all);
    } else {
      all' := all;
      Callback(c, e);
    }
  }

  /** Over every run of a netconn, each posted message is answered exactly once, or is the one
      in current_msg and was not answered yet. */
  method Run(events: seq<Event>) returns (c: Netconn, ghost all: set<Message>)
    ensures fresh(c) && fresh(all) && Accounted(c, all)
    ensures c.signals == |all| - if c.current == null then 0 else 1
    ensures c.freed ==> c.txShut && c.pcb.Some? && GoesQuietly(c.pcb.value, c.rxClosed)
  {
    c := new Netconn();
    all := {};
    for i := 0 to |events|
      invariant fresh(c) && fresh(all) && Accounted(c, all)
    {
      if Enabled(c, events[i]) {
        all := Serve(c, events[i], all);
      }
    }
  }

  /** A shutdown of a connection, and whatever happens to the netconn afterwards short of a fatal
      error.  For the sending side of a pcb that is not connected or is closing already, the
      waiting thread is never signalled.  Otherwise it is as soon as the FIN can be queued. */
  method ShutdownRun(c: Netconn, m: Message, fin: Err, events: seq<Event>, ghost all: set<Message>)
      returns (ghost all': set<Message>)
    requires Accounted(c, all) && m.Fresh() && m !in all && c.state == NONE && c.pcb.Some? && !c.freed
    requires forall e :: e in events ==> !e.Failed?
    modifies c, m
    ensures Accounted(c, all') && m in all'
    ensures old(m.shut).WR? && !Sends(old(c.pcb).value) ==> m.Pending() && c.Stuck(m)
    ensures !(old(m.shut).WR? && !Sends(old(c.pcb).value)) && fin == ERR_OK ==> m.Answered()
  {
    c.DoClose(m, fin);
    all' := all + {m};
    ghost var stuck := m.shut.WR? && !Sends(old(c.pcb).value);
    for i := 0 to |events|
      invariant Accounted(c, all') && m in all'
      invariant forall x :: x in all' ==> fresh(x) || x == m || x.Answered()
      invariant forall x :: x in all' && !fresh(x) && x != m ==> x != c.current
      invariant stuck ==> c.Stuck(m)
      invariant !stuck && fin == ERR_OK ==> m.Answered()
    {
      assert events[i] in events;
      if Enabled(c, events[i]) {
        all' := Serve(c, events[i], all');
      }
    }
  }

  /** A call that waits when the pcb vanishes is never answered, whatever follows. */
  method StrandedRun(c: Netconn, m: Message, events: seq<Event>, ghost all: set<Message>)
      returns (ghost all': set<Message>)
    requires Accounted(c, all) && c.freed && c.current == m
    modifies c, m
    ensures Accounted(c, all') && c.freed && c.current == m && m.Pending()
  {
    all' := all;
    for i := 0 to |events|
      invariant Accounted(c, all') && c.freed && c.current == m
    {
      if Enabled(c, events[i]) {
        all' := Serve(c, events[i], all');
      }
    }
  }

  /** A connection whose sending side is shut runs into TIME_WAIT and vanishes: closing the netconn
      then uses a freed pcb. */
  method PointerLeftBehind() returns (c: Netconn)
    ensures c.Valid() && c.freed && c.pcb == Some(TIME_WAIT) && Touches(c, CallClose(RDWR, ERR_OK))
  {
    c := new Netconn.Accepted(ERR_OK);
    var m := new Message([], false, WR);
    c.DoClose(m, ERR_OK);
    c.Moves(false, false, true);
    c.Moves(false, true, false);
    c.Vanishes();
  }
}
