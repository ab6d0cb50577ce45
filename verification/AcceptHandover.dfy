/** The hand-over of receive events between event_callback and lwip_accept (sockets.c): data may
    arrive for a connection before the application has a socket for it.  Until then the events
    are counted downwards in conn->socket; lwip_accept moves the count to the new socket.
    Any number of callbacks run at the same time as lwip_accept; each step is one section between
    SYS_ARCH_PROTECT and SYS_ARCH_UNPROTECT, or one unprotected read. */
module AcceptHandover {
  import opened SeqNum

  /** A callback for one receive event: it has read a negative socket number outside of the
      protected section, knows the socket, or has counted its event. */
  datatype Callback = Begun | SawNegative | SawSocket | Counted

  /** How far lwip_accept is. */
  datatype Accept = Waiting | Allocated(s: nat) | HandedOver(s: nat)

  /** `taken` counts what the application has received and was taken off the counter. */
  datatype State = State(socket: int, rcvevent: int, accept: Accept, callbacks: seq<Callback>, taken: nat)

  datatype Step =
    | Arrive
    | ReadSocket(i: nat)
    | CountEarly(i: nat)
    | CountLate(i: nat)
    | Allocate(s: nat)
    | HandOver
    | Take

  predicate Enabled(st: State, step: Step) {
    match step
    case Arrive => true
    case ReadSocket(i) => i < |st.callbacks| && st.callbacks[i] == Begun
    case CountEarly(i) => i < |st.callbacks| && st.callbacks[i] == SawNegative
    case CountLate(i) => i < |st.callbacks| && st.callbacks[i] == SawSocket
    case Allocate(_) => st.accept == Waiting
    case HandOver => st.accept.Allocated?
    case Take => st.accept.HandedOver?
  }

  function Next(st: State, step: Step): State
    requires Enabled(st, step)
  {
    match step
    case Arrive => st.(callbacks := st.callbacks + [Begun])
    case ReadSocket(i) => st.(callbacks := st.callbacks[i := if st.socket < 0 then SawNegative else SawSocket])
    case CountEarly(i) =>
      // the socket number is read again under protection
      if st.socket < 0 then st.(socket := st.socket - 1, callbacks := st.callbacks[i := Counted])
      else st.(callbacks := st.callbacks[i := SawSocket])
    case CountLate(i) => st.(rcvevent := S16(st.rcvevent + 1), callbacks := st.callbacks[i := Counted])
    case Allocate(s) => st.(rcvevent := 0, accept := Allocated(s))
    case HandOver =>
      var early := S16(-1 - st.socket);
      st.(rcvevent := S16(st.rcvevent + early), socket := st.accept.s, accept := HandedOver(st.accept.s))
    case Take => st.(rcvevent := S16(st.rcvevent - 1), taken := st.taken + 1)
  }

  function CountedIn(cs: seq<Callback>): nat {
    if cs == [] then 0 else (if cs[0] == Counted then 1 else 0) + CountedIn(cs[1..])
  }

  /** Every event that was counted is in the socket number or in the socket's counter. */
  predicate Inv(st: State) {
    match st.accept
    case HandedOver(s) => st.socket == s && st.rcvevent == S16(CountedIn(st.callbacks) - st.taken)
    case _ =>
      && st.socket == -1 - CountedIn(st.callbacks)
      && (st.accept.Allocated? ==> st.rcvevent == 0)
      && SawSocket !in st.callbacks && st.taken == 0
  }

  function Start(rcvevent: int): State {
    State(-1, rcvevent, Waiting, [], 0)
  }

  lemma S16Add(x: int, y: int)
    ensures S16(S16(x) + y) == S16(x + y) && S16(x + S16(y)) == S16(x + y)
  {
    var q := (x + 0x8000) / 0x1_0000;
    var p := (y + 0x8000) / 0x1_0000;
    assert S16(x) == x - q * 0x1_0000 && S16(y) == y - p * 0x1_0000;
    S16Periodic(x + y, -q);
    S16Periodic(x + y, -p);
  }

  lemma S16Periodic(x: int, k: int)
    ensures S16(x + k * 0x1_0000) == S16(x)
  {
    var q := (x + 0x8000) / 0x1_0000;
    assert x + k * 0x1_0000 + 0x8000 == (q + k) * 0x1_0000 + (x + 0x8000) % 0x1_0000;
  }

  lemma {:induction false} CountedUpdate(cs: seq<Callback>, i: nat, c: Callback)
    requires i < |cs|
    ensures CountedIn(cs[i := c]) ==
      CountedIn(cs) - (if cs[i] == Counted then 1 else 0) + if c == Counted then 1 else 0
  {
    if i > 0 {
      CountedUpdate(cs[1..], i - 1, c);
      assert cs[i := c][1..] == cs[1..][i - 1 := c];
    } else {
      assert cs[0 := c][1..] == cs[1..];
    }
  }

  lemma {:induction false} CountedArrive(cs: seq<Callback>)
    ensures CountedIn(cs + [Begun]) == CountedIn(cs)
  {
    if cs == [] {
      assert [Begun][1..] == [];
    } else {
      assert (cs + [Begun])[1..] == cs[1..] + [Begun];
      CountedArrive(cs[1..]);
    }
  }

  lemma StepInv(st: State, step: Step)
    requires Inv(st) && Enabled(st, step)
    ensures Inv(Next(st, step))
  {
    hide S16, CountedIn;
    match step
    case Arrive => CountedArrive(st.callbacks);
    case ReadSocket(i) => CountedUpdate(st.callbacks, i, if st.socket < 0 then SawNegative else SawSocket);
    case CountEarly(i) => CountedUpdate(st.callbacks, i, if st.socket < 0 then Counted else SawSocket);
    case CountLate(i) =>
      CountedUpdate(st.callbacks, i, Counted);
      S16Add(CountedIn(st.callbacks) - st.taken, 1);
    case Allocate(_) =>
    case HandOver => S16Add(0, CountedIn(st.callbacks));
    case Take => S16Add(CountedIn(st.callbacks) - st.taken, -1);
  }

  predicate Reaches(st: State, steps: seq<Step>, st': State)
    decreases |steps|
  {
    if steps == [] then st == st'
    else Enabled(st, steps[0]) && Reaches(Next(st, steps[0]), steps[1..], st')
  }

  lemma {:induction false} RunInv(st: State, steps: seq<Step>, st': State)
    requires Inv(st) && Reaches(st, steps, st')
    ensures Inv(st')
    decreases |steps|
  {
    if steps != [] {
      StepInv(st, steps[0]);
      RunInv(Next(st, steps[0]), steps[1..], st');
    }
  }

  /** The socket lwip_accept goes on with is one that was allocated on the way. */
  lemma {:induction false} AllocatedOnTheWay(st: State, steps: seq<Step>, st': State)
    requires Reaches(st, steps, st') && !st'.accept.Waiting?
    ensures (!st.accept.Waiting? && st.accept.s == st'.accept.s) || Allocate(st'.accept.s) in steps
    decreases |steps|
  {
    if steps != [] {
      AllocatedOnTheWay(Next(st, steps[0]), steps[1..], st');
    }
  }

  /** However the callbacks, lwip_accept and receiving interleave, no event is lost and none
      counted twice: after the hand-over the counter of the socket is the number of events counted
      so far less those taken, exactly as long as 16 bits hold it. */
  lemma NoEventLost(rcvevent: int, steps: seq<Step>, st: State)
    requires Reaches(Start(rcvevent), steps, st)
    ensures st.accept.HandedOver? ==> st.socket == st.accept.s && Allocate(st.accept.s) in steps
    ensures st.accept.HandedOver? ==>
      (st.rcvevent == CountedIn(st.callbacks) - st.taken <==>
         -0x8000 <= CountedIn(st.callbacks) - st.taken <= 0x7fff)
    ensures !st.accept.HandedOver? ==> st.socket == -1 - CountedIn(st.callbacks) && st.taken == 0
  {
    RunInv(Start(rcvevent), steps, st);
    if !st.accept.Waiting? {
      AllocatedOnTheWay(Start(rcvevent), steps, st);
    }
  }
}
