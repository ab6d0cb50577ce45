/** lwip_select and event_callback (sockets.c) as interleaved atomic steps, one for each
    section between SYS_ARCH_PROTECT and SYS_ARCH_UNPROTECT.  Any number of tasks select on
    any sockets, and any number of event_callback calls run at the same time. */
module Select {
  import opened Options

  datatype Sock = Sock(rcvevent: int, sendevent: bool, errevent: bool, lastdata: bool, waiting: int)

  datatype Event = RcvPlus | RcvMinus | SendPlus | SendMinus | Error

  /** The sets passed to select; descriptors from maxfdp1 on are not watched. */
  datatype Watch = Watch(maxfdp1: nat, read: set<nat>, write: set<nat>, except: set<nat>)

  /** Where a task stands in lwip_select.  The index is the descriptor a loop is at. */
  datatype Pc =
    | Idle | Scan1(i: nat) | Insert | Raise(i: nat) | Scan2(i: nat) | Wait
    | Lower(i: nat) | Remove | FreeSem | Scan3(i: nat)

  /** A task with its struct lwip_select_cb.  `found` says whether nready is positive, `timedOut`
      whether waitres is SYS_ARCH_TIMEOUT, `sem` is the semaphore's count, `signals` the number of
      times it was signalled for the present call. */
  datatype Task = Task(
    pc: Pc, watch: Watch, found: bool, timedOut: bool, next: Option<nat>, prev: Option<nat>,
    signalled: bool, sem: nat, semLive: bool, signals: nat)

  /** A call of event_callback: not running, or between two protected sections of its loop,
      with scb == at and last_select_cb_ctr == last. */
  datatype Callback = Resting | Looping(s: nat, at: nat, last: nat)

  /** `order` is the content of select_cb_list, for reasoning only: every step reads the
      list through head and the next/prev fields. */
  datatype State = State(
    socks: seq<Sock>, tasks: seq<Task>, cbs: seq<Callback>,
    head: Option<nat>, ctr: nat, order: seq<nat>)

  // ----- tests ------------------------------------------------------------------------

  predicate Watched(w: Watch, s: nat) {
    s < w.maxfdp1 && (s in w.read || s in w.write || s in w.except)
  }

  /** lwip_selscan's test of one socket. */
  predicate Ready(k: Sock, w: Watch, s: nat) {
    || (s in w.read && (k.lastdata || k.rcvevent > 0))
    || (s in w.write && k.sendevent)
    || (s in w.except && k.errevent)
  }

  /** event_callback's test of one waiting task. */
  predicate Matches(k: Sock, w: Watch, s: nat) {
    || (k.rcvevent > 0 && s in w.read)
    || (k.sendevent && s in w.write)
    || (k.errevent && s in w.except)
  }

  function SetEvent(k: Sock, e: Event): Sock {
    match e
    case RcvPlus => k.(rcvevent := k.rcvevent + 1)
    case RcvMinus => k.(rcvevent := k.rcvevent - 1)
    case SendPlus => k.(sendevent := true)
    case SendMinus => k.(sendevent := false)
    case Error => k.(errevent := true)
  }

  // ----- steps ------------------------------------------------------------------------

  datatype Step =
    | Call(t: nat, watch: Watch)              // enter lwip_select
    | Scan(t: nat, poll: bool)                // one socket of a scan, or its end
    | Enlist(t: nat, semOk: bool)             // put select_cb on top of the list
    | Count(t: nat)                           // one socket of the select_waiting loops
    | Wake(t: nat)                            // sys_arch_sem_wait returns: signalled
    | Timeout(t: nat)                         // sys_arch_sem_wait returns: timed out
    | Unlink(t: nat)                          // take select_cb off the list
    | Destroy(t: nat)                         // sys_sem_free
    | Notify(c: nat, s: nat, e: Event)        // event_callback: set the event, first entry
    | Advance(c: nat)                         // event_callback: next entry, or restart
    | Keep(s: nat, lastdata: bool)            // lwip_recvfrom keeps or drops lastdata

  function SetTask(st: State, t: nat, k: Task): State
    requires t < |st.tasks|
  {
    st.(tasks := st.tasks[t := k])
  }

  function SetPc(st: State, t: nat, pc: Pc): State
    requires t < |st.tasks|
  {
    SetTask(st, t, st.tasks[t].(pc := pc))
  }

  function AddWaiting(st: State, s: nat, n: int): State
    requires s < |st.socks|
  {
    st.(socks := st.socks[s := st.socks[s].(waiting := st.socks[s].waiting + n)])
  }

  predicate ValidTask(st: State, t: nat) {
    t < |st.tasks| && st.tasks[t].watch.maxfdp1 <= |st.socks|
  }

  /** Every pointer the step follows is the address of a task's select_cb. */
  predicate Pointer(st: State, p: Option<nat>) {
    p.Some? ==> p.value < |st.tasks|
  }

  predicate Enabled(st: State, step: Step) {
    match step
    case Call(t, w) => t < |st.tasks| && st.tasks[t].pc == Idle && w.maxfdp1 <= |st.socks|
    case Scan(t, _) => ValidTask(st, t) &&
      (st.tasks[t].pc.Scan1? || st.tasks[t].pc.Scan2? || st.tasks[t].pc.Scan3?)
    case Enlist(t, _) => ValidTask(st, t) && st.tasks[t].pc == Insert && Pointer(st, st.head)
    case Count(t) => ValidTask(st, t) && (st.tasks[t].pc.Raise? || st.tasks[t].pc.Lower?)
    case Wake(t) => ValidTask(st, t) && st.tasks[t].pc == Wait && st.tasks[t].sem > 0
    case Timeout(t) => ValidTask(st, t) && st.tasks[t].pc == Wait
    case Unlink(t) => ValidTask(st, t) && st.tasks[t].pc == Remove
      && Pointer(st, st.tasks[t].next) && Pointer(st, st.tasks[t].prev)
    case Destroy(t) => ValidTask(st, t) && st.tasks[t].pc == FreeSem
    case Notify(c, s, _) => c < |st.cbs| && st.cbs[c].Resting? && s < |st.socks|
      && Pointer(st, st.head)
    case Advance(c) => c < |st.cbs| && st.cbs[c].Looping? && st.cbs[c].s < |st.socks|
      && st.cbs[c].at < |st.tasks| && Pointer(st, st.head)
      && (st.cbs[c].last == st.ctr ==> Pointer(st, st.tasks[st.cbs[c].at].next))
    case Keep(s, _) => s < |st.socks|
  }

  function Apply(st: State, step: Step): State
    requires Enabled(st, step)
  {
    match step
    case Call(t, w) =>
      SetTask(st, t, st.tasks[t].(pc := Scan1(0), watch := w, found := false, timedOut := false))
    case Scan(t, poll) => DoScan(st, t, poll)
    case Enlist(t, semOk) => if semOk then DoEnlist(st, t) else SetPc(st, t, Idle)
    case Count(t) => DoCount(st, t)
    case Wake(t) =>
      SetTask(st, t, st.tasks[t].(sem := st.tasks[t].sem - 1, pc := Lower(0)))
    case Timeout(t) => SetTask(st, t, st.tasks[t].(timedOut := true, pc := Lower(0)))
    case Unlink(t) => DoUnlink(st, t)
    case Destroy(t) =>
      SetTask(st, t, st.tasks[t].(semLive := false, found := false,
                                  pc := if st.tasks[t].timedOut then Idle else Scan3(0)))
    case Notify(c, s, e) =>
      var st1 := st.(socks := st.socks[s := SetEvent(st.socks[s], e)]);
      if st1.socks[s].waiting == 0 then st1 else Visit(st1, c, s, st1.head)
    case Advance(c) =>
      var Looping(s, at, last) := st.cbs[c];
      Visit(st, c, s, if last != st.ctr then st.head else st.tasks[at].next)
    case Keep(s, b) => st.(socks := st.socks[s := st.socks[s].(lastdata := b)])
  }

  function DoScan(st: State, t: nat, poll: bool): State
    requires Enabled(st, Scan(t, poll))
  {
    var k := st.tasks[t];
    var i := k.pc.i;
    if i < k.watch.maxfdp1 then
      var hit := Ready(st.socks[i], k.watch, i);
      SetTask(st, t, k.(found := k.found || hit, pc := k.pc.(i := i + 1)))
    else match k.pc
      case Scan1(_) => SetPc(st, t, if k.found || poll then Idle else Insert)
      case Scan2(_) => SetPc(st, t, if k.found then Lower(0) else Wait)
      case _ => SetPc(st, t, Idle)
  }

  /** Insertion at the head, in the order of the source's assignments. */
  function DoEnlist(st: State, t: nat): State
    requires Enabled(st, Enlist(t, true))
  {
    var me := st.tasks[t].(pc := Raise(0), next := st.head, prev := None,
                           signalled := false, sem := 0, semLive := true, signals := 0);
    var st1 := SetTask(st, t, me);
    var st2 := SetPrev(st1, st.head, Some(t));
    st2.(head := Some(t), ctr := st.ctr + 1, order := [t] + st.order)
  }

  function DoCount(st: State, t: nat): State
    requires Enabled(st, Count(t))
  {
    var k := st.tasks[t];
    var i := k.pc.i;
    if i < k.watch.maxfdp1 then
      var st1 := if Watched(k.watch, i) then AddWaiting(st, i, if k.pc.Raise? then 1 else -1) else st;
      SetPc(st1, t, k.pc.(i := i + 1))
    else if k.pc.Raise? then
      SetTask(st, t, k.(pc := Scan2(0), found := false))
    else
      SetPc(st, t, Remove)
  }

  function DoUnlink(st: State, t: nat): State
    requires Enabled(st, Unlink(t))
  {
    var me := st.tasks[t];
    var st1 := SetPrev(st, me.next, me.prev);
    var st2 := if st1.head == Some(t) then st1.(head := me.next) else SetNext(st1, me.prev, me.next);
    SetPc(st2.(ctr := st.ctr + 1, order := Without(st.order, t)), t, FreeSem)
  }

  /** if (p != NULL) p->prev = to */
  function SetPrev(st: State, p: Option<nat>, to: Option<nat>): (st': State)
    requires Pointer(st, p)
    ensures |st'.tasks| == |st.tasks|
  {
    if p.Some? then SetTask(st, p.value, st.tasks[p.value].(prev := to)) else st
  }

  /** if (p != NULL) p->next = to */
  function SetNext(st: State, p: Option<nat>, to: Option<nat>): (st': State)
    requires Pointer(st, p)
    ensures |st'.tasks| == |st.tasks|
  {
    if p.Some? then SetTask(st, p.value, st.tasks[p.value].(next := to)) else st
  }

  function Without(q: seq<nat>, t: nat): seq<nat> {
    if q == [] then [] else if q[0] == t then q[1..] else [q[0]] + Without(q[1..], t)
  }

  /** The body of event_callback's loop for the entry `at`, and the loop's end. */
  function Visit(st: State, c: nat, s: nat, at: Option<nat>): State
    requires c < |st.cbs| && s < |st.socks| && Pointer(st, at)
  {
    if at.None? then
      st.(cbs := st.cbs[c := Resting])
    else
      var k := st.tasks[at.value];
      var st1 := if !k.signalled && Matches(st.socks[s], k.watch, s)
                 then SetTask(st, at.value, k.(signalled := true, sem := k.sem + 1, signals := k.signals + 1))
                 else st;
      st1.(cbs := st.cbs[c := Looping(s, at.value, st.ctr)])
  }

  // ----- invariants -------------------------------------------------------------------

  /** The task's entry is on the list. */
  predicate Listed(k: Task) {
    k.pc.Raise? || k.pc.Scan2? || k.pc == Wait || k.pc.Lower? || k.pc == Remove
  }

  predicate Distinct(q: seq<nat>) {
    forall i, j :: 0 <= i < j < |q| ==> q[i] != q[j]
  }

  /** head, next and prev spell out `order`. */
  predicate Linked(st: State) {
    && Distinct(st.order)
    && st.head == (if st.order == [] then None else Some(st.order[0]))
    && (forall i :: 0 <= i < |st.order| ==> LinksAt(st, i))
  }

  predicate LinksAt(st: State, i: nat)
    requires i < |st.order|
  {
    var t := st.order[i];
    t < |st.tasks| && st.tasks[t].next == After(st.order, i) && st.tasks[t].prev == Before(st.order, i)
  }

  function After(q: seq<nat>, i: nat): Option<nat> {
    if i + 1 < |q| then Some(q[i + 1]) else None
  }

  function Before(q: seq<nat>, i: nat): Option<nat> {
    if 0 < i <= |q| then Some(q[i - 1]) else None
  }

  /** How a task came to leave the list: its second scan found an event, its semaphore was
      signalled, or the wait timed out.  Nothing found is why it sleeps. */
  predicate LeftFor(k: Task) {
    && (k.pc == Wait ==> !k.found)
    && (k.pc.Lower? || k.pc == Remove || k.pc == FreeSem ==> k.found || k.signalled || k.timedOut)
    && (k.timedOut ==> !k.found && (k.pc.Lower? || k.pc == Remove || k.pc == FreeSem || k.pc == Idle))
  }

  /** A listed entry has a live semaphore, signalled at most once and only if so marked. */
  predicate TaskOk(k: Task, n: nat) {
    && k.watch.maxfdp1 <= n
    && LeftFor(k)
    && (Listed(k) ==>
          && k.semLive
          && k.signals == (if k.signalled then 1 else 0)
          && k.sem <= k.signals
          && (k.pc.Raise? || k.pc.Scan2? || k.pc == Wait ==> k.sem == k.signals))
  }

  predicate TasksOk(st: State) {
    forall t :: 0 <= t < |st.tasks| ==>
      TaskOk(st.tasks[t], |st.socks|) && (t in st.order <==> Listed(st.tasks[t]))
  }

  /** The task has raised select_waiting of socket s and not lowered it yet. */
  predicate Counted(k: Task, s: nat) {
    Watched(k.watch, s) && match k.pc
      case Raise(i) => s < i
      case Scan2(_) => true
      case Wait => true
      case Lower(i) => i <= s
      case _ => false
  }

  function Waiters(st: State, s: nat): set<nat> {
    set t | 0 <= t < |st.tasks| && Counted(st.tasks[t], s)
  }

  predicate WaitingOk(st: State) {
    forall s :: 0 <= s < |st.socks| ==> st.socks[s].waiting == |Waiters(st, s)|
  }

  /** A running callback whose counter is current stands on a listed entry. */
  predicate CallbacksOk(st: State) {
    forall c :: 0 <= c < |st.cbs| && st.cbs[c].Looping? ==>
      && st.cbs[c].s < |st.socks|
      && st.cbs[c].at < |st.tasks|
      && st.cbs[c].last <= st.ctr
      && (st.cbs[c].last == st.ctr ==> st.cbs[c].at in st.order)
  }

  /** Position of t in q. */
  function IndexOf(q: seq<nat>, t: nat): (i: nat)
    requires t in q
    ensures i < |q| && q[i] == t
  {
    if q[0] == t then 0 else 1 + IndexOf(q[1..], t)
  }

  /** Callback c has yet to visit the entry of task t. */
  predicate YetToVisit(st: State, c: nat, t: nat)
    requires c < |st.cbs|
  {
    && st.cbs[c].Looping?
    && t in st.order
    && (st.cbs[c].last == st.ctr && st.cbs[c].at in st.order ==>
          IndexOf(st.order, st.cbs[c].at) < IndexOf(st.order, t))
  }

  /** Task t has looked at socket s for the last time before sleeping, saw nothing, and has
      not been signalled. */
  predicate Exposed(k: Task, s: nat) {
    && Watched(k.watch, s)
    && !k.signalled
    && (k.pc == Wait || (k.pc.Scan2? && s < k.pc.i && !k.found))
  }

  predicate Attended(st: State, s: nat, t: nat) {
    exists c :: 0 <= c < |st.cbs| && st.cbs[c].Looping? && st.cbs[c].s == s && YetToVisit(st, c, t)
  }

  /** No pending event of a watched socket is overlooked. */
  predicate NoneLost(st: State) {
    forall t, s | 0 <= t < |st.tasks| && 0 <= s < |st.socks| ::
      Exposed(st.tasks[t], s) && Matches(st.socks[s], st.tasks[t].watch, s) ==> Attended(st, s, t)
  }

  predicate Inv(st: State) {
    Linked(st) && TasksOk(st) && WaitingOk(st) && CallbacksOk(st) && NoneLost(st)
  }

  predicate Init(st: State) {
    && st.order == [] && st.head == None
    && (forall s :: 0 <= s < |st.socks| ==> st.socks[s].waiting == 0)
    && (forall t :: 0 <= t < |st.tasks| ==>
          st.tasks[t].pc == Idle && !st.tasks[t].timedOut && st.tasks[t].watch.maxfdp1 <= |st.socks|)
    && (forall c :: 0 <= c < |st.cbs| ==> st.cbs[c].Resting?)
  }

  lemma InitInv(st: State)
    requires Init(st)
    ensures Inv(st)
  {
    forall s | 0 <= s < |st.socks|
      ensures st.socks[s].waiting == |Waiters(st, s)|
    {
      assert Waiters(st, s) == {};
    }
  }

  // ----- every step keeps the invariant --------------------------------------------------

  lemma CountedFrame(st: State, st': State)
    requires WaitingOk(st) && |st'.tasks| == |st.tasks| && |st'.socks| == |st.socks|
    requires forall s :: 0 <= s < |st.socks| ==> st'.socks[s].waiting == st.socks[s].waiting
    requires forall t, s | 0 <= t < |st.tasks| && 0 <= s < |st.socks| ::
      Counted(st'.tasks[t], s) == Counted(st.tasks[t], s)
    ensures WaitingOk(st')
  {
    forall s | 0 <= s < |st.socks|
      ensures Waiters(st', s) == Waiters(st, s)
    {
    }
  }

  lemma LinkedFrame(st: State, st': State)
    requires Linked(st) && st'.order == st.order && st'.head == st.head
    requires |st'.tasks| == |st.tasks|
    requires forall t :: 0 <= t < |st.tasks| ==>
      st'.tasks[t].next == st.tasks[t].next && st'.tasks[t].prev == st.tasks[t].prev
    ensures Linked(st')
  {
    forall i | 0 <= i < |st.order|
      ensures LinksAt(st', i)
    {
      assert LinksAt(st, i);
    }
  }

  /** Who attends whom depends on the callbacks, the counter and the list alone. */
  lemma AttendedFrame(st: State, st': State)
    requires st'.cbs == st.cbs && st'.ctr == st.ctr && st'.order == st.order
    ensures forall s, t :: Attended(st, s, t) == Attended(st', s, t)
  {
    forall s, t
      ensures Attended(st, s, t) == Attended(st', s, t)
    {
      forall c | 0 <= c < |st.cbs|
        ensures YetToVisit(st, c, t) == YetToVisit(st', c, t)
      {
      }
    }
  }

  /** A task changes its own record, but neither its links nor its standing. */
  lemma TaskStep(st: State, t: nat, k: Task)
    requires Inv(st) && t < |st.tasks|
    requires k.next == st.tasks[t].next && k.prev == st.tasks[t].prev
    requires TaskOk(k, |st.socks|) && Listed(k) == Listed(st.tasks[t])
    requires forall s | 0 <= s < |st.socks| :: Counted(k, s) == Counted(st.tasks[t], s)
    requires forall s | 0 <= s < |st.socks| ::
      Exposed(k, s) && Matches(st.socks[s], k.watch, s) ==> Attended(st, s, t)
    ensures Inv(SetTask(st, t, k))
  {
    hide Counted, TaskOk, Exposed, Matches, Attended, Listed;
    var st' := SetTask(st, t, k);
    LinkedFrame(st, st');
    CountedFrame(st, st');
    AttendedFrame(st, st');
  }

  lemma CallInv(st: State, t: nat, w: Watch)
    requires Inv(st) && Enabled(st, Call(t, w))
    ensures Inv(Apply(st, Call(t, w)))
  {
    TaskStep(st, t, st.tasks[t].(pc := Scan1(0), watch := w, found := false, timedOut := false));
  }

  lemma ScanInv(st: State, t: nat, poll: bool)
    requires Inv(st) && Enabled(st, Scan(t, poll))
    ensures Inv(Apply(st, Scan(t, poll)))
  {
    TaskStep(st, t, DoScan(st, t, poll).tasks[t]);
  }

  lemma WakeInv(st: State, t: nat)
    requires Inv(st) && Enabled(st, Wake(t))
    ensures Inv(Apply(st, Wake(t)))
  {
    TaskStep(st, t, st.tasks[t].(sem := st.tasks[t].sem - 1, pc := Lower(0)));
  }

  lemma TimeoutInv(st: State, t: nat)
    requires Inv(st) && Enabled(st, Timeout(t))
    ensures Inv(Apply(st, Timeout(t)))
  {
    TaskStep(st, t, st.tasks[t].(timedOut := true, pc := Lower(0)));
  }

  lemma DestroyInv(st: State, t: nat)
    requires Inv(st) && Enabled(st, Destroy(t))
    ensures Inv(Apply(st, Destroy(t)))
  {
    TaskStep(st, t, Apply(st, Destroy(t)).tasks[t]);
  }

  lemma KeepInv(st: State, s: nat, b: bool)
    requires Inv(st) && Enabled(st, Keep(s, b))
    ensures Inv(Apply(st, Keep(s, b)))
  {
    hide Counted, TaskOk, Exposed, Attended, Listed;
    var st' := Apply(st, Keep(s, b));
    LinkedFrame(st, st');
    CountedFrame(st, st');
    AttendedFrame(st, st');
  }

  lemma CountInv(st: State, t: nat)
    requires Inv(st) && Enabled(st, Count(t))
    ensures Inv(Apply(st, Count(t)))
  {
    var k := st.tasks[t];
    var k' := Apply(st, Count(t)).tasks[t];
    if k.pc.i < k.watch.maxfdp1 && Watched(k.watch, k.pc.i) {
      CountOne(st, t, k', k.pc.i, if k.pc.Raise? then 1 else -1);
    } else {
      TaskStep(st, t, k');
    }
  }

  /** Raising or lowering select_waiting of socket s moves the task in or out of the
      socket's waiter set. */
  lemma CountOne(st: State, t: nat, k: Task, s: nat, n: int)
    requires Inv(st) && t < |st.tasks| && s < |st.socks|
    requires k.next == st.tasks[t].next && k.prev == st.tasks[t].prev
    requires TaskOk(k, |st.socks|) && Listed(k) == Listed(st.tasks[t])
    requires forall r | 0 <= r < |st.socks| && r != s :: Counted(k, r) == Counted(st.tasks[t], r)
    requires n == if Counted(k, s) then 1 else -1
    requires Counted(k, s) != Counted(st.tasks[t], s)
    requires forall r :: !Exposed(k, r)
    ensures Inv(SetTask(AddWaiting(st, s, n), t, k))
  {
    hide Counted, TaskOk, Exposed, Matches, Attended, Listed;
    var st' := SetTask(AddWaiting(st, s, n), t, k);
    LinkedFrame(st, st');
    AttendedFrame(st, st');
    WaiterMove(st, t, k, s, n);
    SameEvents(st, st');
  }

  lemma WaiterMove(st: State, t: nat, k: Task, s: nat, n: int)
    requires WaitingOk(st) && t < |st.tasks| && s < |st.socks|
    requires forall r | 0 <= r < |st.socks| && r != s :: Counted(k, r) == Counted(st.tasks[t], r)
    requires n == if Counted(k, s) then 1 else -1
    requires Counted(k, s) != Counted(st.tasks[t], s)
    ensures WaitingOk(SetTask(AddWaiting(st, s, n), t, k))
  {
    hide Counted, Waiters;
    var st' := SetTask(AddWaiting(st, s, n), t, k);
    forall r | 0 <= r < |st.socks|
      ensures st'.socks[r].waiting == |Waiters(st', r)|
    {
      OthersCounted(st, st', r, t);
    }
  }

  lemma OthersCounted(st: State, st': State, s: nat, t: nat)
    requires t < |st.tasks| && |st'.tasks| == |st.tasks|
    requires forall u :: 0 <= u < |st.tasks| && u != t ==> st'.tasks[u] == st.tasks[u]
    ensures |Waiters(st', s)| - |Waiters(st, s)| ==
      (if Counted(st'.tasks[t], s) then 1 else 0) - (if Counted(st.tasks[t], s) then 1 else 0)
  {
    hide Counted;
    SameOthers(st, st', s, t);
    assert t in Waiters(st, s) <==> Counted(st.tasks[t], s);
    assert t in Waiters(st', s) <==> Counted(st'.tasks[t], s);
    hide *;
    WithOrWithout(Waiters(st, s), t);
    WithOrWithout(Waiters(st', s), t);
  }

  lemma SameOthers(st: State, st': State, s: nat, t: nat)
    requires |st'.tasks| == |st.tasks|
    requires forall u :: 0 <= u < |st.tasks| && u != t ==> st'.tasks[u] == st.tasks[u]
    ensures Waiters(st', s) - {t} == Waiters(st, s) - {t}
  {
    hide Counted;
  }

  lemma WithOrWithout(w: set<nat>, t: nat)
    ensures |w| == |w - {t}| + if t in w then 1 else 0
  {
    if t in w {
      assert w == (w - {t}) + {t};
    } else {
      assert w == w - {t};
    }
  }

  /** select_waiting plays no part in matching. */
  lemma SameEvents(st: State, st': State)
    requires |st'.socks| == |st.socks|
    requires forall s :: 0 <= s < |st.socks| ==>
      st'.socks[s] == st.socks[s].(waiting := st'.socks[s].waiting)
    ensures forall s, w | 0 <= s < |st.socks| :: Matches(st'.socks[s], w, s) == Matches(st.socks[s], w, s)
  {
  }

  // ----- the list changes -----------------------------------------------------------------

  lemma {:induction false} IndexUnique(q: seq<nat>, i: nat)
    requires i < |q| && Distinct(q)
    ensures IndexOf(q, q[i]) == i
  {
    if i > 0 {
      assert q[0] != q[i];
      assert q[1..][i - 1] == q[i];
      IndexUnique(q[1..], i - 1);
    }
  }

  lemma {:induction false} WithoutIs(q: seq<nat>, t: nat)
    requires t in q && Distinct(q)
    ensures var p := IndexOf(q, t); Without(q, t) == q[..p] + q[p + 1..]
  {
    if q[0] != t {
      WithoutIs(q[1..], t);
    }
  }

  /** A change of the list restarts every running callback, so whoever was attended is
      attended still. */
  lemma RestartAttends(st: State, st': State)
    requires NoneLost(st) && CallbacksOk(st) && TasksOk(st')
    requires st'.cbs == st.cbs && st'.socks == st.socks && st'.ctr > st.ctr
    requires |st'.tasks| == |st.tasks|
    requires forall t, s | 0 <= t < |st.tasks| && 0 <= s < |st.socks| ::
      Exposed(st'.tasks[t], s) ==> Exposed(st.tasks[t], s) && st'.tasks[t].watch == st.tasks[t].watch
    ensures NoneLost(st') && CallbacksOk(st')
  {
    hide Matches;
    forall t, s | 0 <= t < |st.tasks| && 0 <= s < |st.socks|
      && Exposed(st'.tasks[t], s) && Matches(st'.socks[s], st'.tasks[t].watch, s)
      ensures Attended(st', s, t)
    {
      assert Attended(st, s, t);
      var c :| 0 <= c < |st.cbs| && st.cbs[c].Looping? && st.cbs[c].s == s && YetToVisit(st, c, t);
      assert t in st'.order;
      assert YetToVisit(st', c, t);
    }
  }

  lemma EnlistInv(st: State, t: nat, semOk: bool)
    requires Inv(st) && Enabled(st, Enlist(t, semOk))
    ensures Inv(Apply(st, Enlist(t, semOk)))
  {
    if !semOk {
      TaskStep(st, t, st.tasks[t].(pc := Idle));
      return;
    }
    var st' := DoEnlist(st, t);
    EnlistLinks(st, t);
    EnlistTasks(st, t);
    CountedFrame(st, st');
    RestartAttends(st, st');
  }

  lemma EnlistLinks(st: State, t: nat)
    requires Linked(st) && TasksOk(st) && Enabled(st, Enlist(t, true))
    ensures Linked(DoEnlist(st, t))
  {
    var st' := DoEnlist(st, t);
    assert t !in st.order;
    forall i | 0 <= i < |st'.order|
      ensures LinksAt(st', i)
    {
      if i > 0 {
        assert LinksAt(st, i - 1);
      }
    }
  }

  lemma EnlistTasks(st: State, t: nat)
    requires Linked(st) && TasksOk(st) && Enabled(st, Enlist(t, true))
    ensures TasksOk(DoEnlist(st, t))
  {
    var st' := DoEnlist(st, t);
    forall u | 0 <= u < |st.tasks|
      ensures TaskOk(st'.tasks[u], |st.socks|) && (u in st'.order <==> Listed(st'.tasks[u]))
    {
      assert TaskOk(st.tasks[u], |st.socks|) && (u in st.order <==> Listed(st.tasks[u]));
    }
  }

  lemma UnlinkInv(st: State, t: nat)
    requires Inv(st) && Enabled(st, Unlink(t))
    ensures Inv(Apply(st, Unlink(t)))
  {
    var st' := DoUnlink(st, t);
    assert t in st.order;
    WithoutIs(st.order, t);
    UnlinkFields(st, t);
    UnlinkLinks(st, st', t, IndexOf(st.order, t));
    UnlinkTasks(st, st', t);
    UnlinkRest(st, st', t);
  }

  /** What unlinking does to each entry. */
  predicate Unlinked(st: State, st': State, t: nat)
    requires t < |st.tasks|
  {
    var me := st.tasks[t];
    && |st'.tasks| == |st.tasks| && st'.socks == st.socks && st'.cbs == st.cbs
    && st'.ctr == st.ctr + 1 && st'.order == Without(st.order, t)
    && st'.head == (if st.head == Some(t) then me.next else st.head)
    && forall u :: 0 <= u < |st.tasks| ==> UnlinkedTask(st, st'.tasks[u], t, u)
  }

  predicate UnlinkedTask(st: State, k: Task, t: nat, u: nat)
    requires t < |st.tasks| && u < |st.tasks|
  {
    var me, old' := st.tasks[t], st.tasks[u];
    k == old'.(pc := if u == t then FreeSem else old'.pc,
               prev := if me.next == Some(u) then me.prev else old'.prev,
               next := if st.head != Some(t) && me.prev == Some(u) then me.next else old'.next)
  }

  lemma UnlinkFields(st: State, t: nat)
    requires Enabled(st, Unlink(t))
    ensures Unlinked(st, DoUnlink(st, t), t)
  {
    var me, st' := st.tasks[t], DoUnlink(st, t);
    var st1 := SetPrev(st, me.next, me.prev);
    var st2 := if st1.head == Some(t) then st1.(head := me.next) else SetNext(st1, me.prev, me.next);
    assert st' == st2.(ctr := st.ctr + 1, order := Without(st.order, t),
                       tasks := st2.tasks[t := st2.tasks[t].(pc := FreeSem)]);
    hide SetPrev, SetNext, DoUnlink, Without;
    SetPrevFields(st, me.next, me.prev);
    SetNextFields(st1, me.prev, me.next);
  }

  lemma SetPrevFields(st: State, p: Option<nat>, to: Option<nat>)
    requires Pointer(st, p)
    ensures var st' := SetPrev(st, p, to);
      && st' == st.(tasks := st'.tasks) && |st'.tasks| == |st.tasks|
      && forall u :: 0 <= u < |st.tasks| ==>
           st'.tasks[u] == st.tasks[u].(prev := if p == Some(u) then to else st.tasks[u].prev)
  {
  }

  lemma SetNextFields(st: State, p: Option<nat>, to: Option<nat>)
    requires Pointer(st, p)
    ensures var st' := SetNext(st, p, to);
      && st' == st.(tasks := st'.tasks) && |st'.tasks| == |st.tasks|
      && forall u :: 0 <= u < |st.tasks| ==>
           st'.tasks[u] == st.tasks[u].(next := if p == Some(u) then to else st.tasks[u].next)
  {
  }

  lemma UnlinkRest(st: State, st': State, t: nat)
    requires Inv(st) && t < |st.tasks| && st.tasks[t].pc == Remove
    requires Unlinked(st, st', t) && Linked(st') && TasksOk(st')
    ensures Inv(st')
  {
    forall u | 0 <= u < |st.tasks|
      ensures UnlinkedTask(st, st'.tasks[u], t, u)
    {
    }
    CountedFrame(st, st');
    RestartAttends(st, st');
  }

  lemma UnlinkLinks(st: State, st': State, t: nat, p: nat)
    requires Linked(st) && t < |st.tasks| && Unlinked(st, st', t)
    requires p < |st.order| && st.order[p] == t
    requires Without(st.order, t) == st.order[..p] + st.order[p + 1..]
    ensures Linked(st')
  {
    hide UnlinkedTask, LinksAt;
    assert LinksAt(st, p);
    LinksValues(st, p);
    WithoutDistinct(st.order, p);
    forall i | 0 <= i < |st'.order|
      ensures LinksAt(st', i)
    {
      UnlinkLinkAt(st, st', t, p, i);
    }
  }

  lemma WithoutDistinct(q: seq<nat>, p: nat)
    requires Distinct(q) && p < |q|
    ensures var q' := q[..p] + q[p + 1..];
      && Distinct(q')
      && (q' != [] ==> q'[0] == if p == 0 then q[1] else q[0])
      && (q' == [] <==> |q| == 1) && (q[0] == q[p] <==> p == 0)
  {
    var q' := q[..p] + q[p + 1..];
    forall i, j | 0 <= i < j < |q'|
      ensures q'[i] != q'[j]
    {
      assert q[if i < p then i else i + 1] != q[if j < p then j else j + 1];
    }
  }

  lemma LinksValues(st: State, i: nat)
    requires i < |st.order| && LinksAt(st, i)
    ensures st.order[i] < |st.tasks|
    ensures st.tasks[st.order[i]].next == After(st.order, i)
    ensures st.tasks[st.order[i]].prev == Before(st.order, i)
  {
  }

  lemma UnlinkLinkAt(st: State, st': State, t: nat, p: nat, i: nat)
    requires Linked(st) && t < |st.tasks| && Unlinked(st, st', t)
    requires p < |st.order| && st.order[p] == t && i < |st'.order|
    requires st'.order == st.order[..p] + st.order[p + 1..]
    ensures LinksAt(st', i)
  {
    var j := if i < p then i else i + 1;
    Neighbours(st.order, p, i);
    LinksValues(st, j);
    LinksValues(st, p);
    assert UnlinkedTask(st, st'.tasks[st.order[j]], t, st.order[j]);
    hide After, Before, Without;
  }

  /** Without its p-th element each element of q has the neighbours it had, except that those of
      the p-th become neighbours. */
  lemma Neighbours(q: seq<nat>, p: nat, i: nat)
    requires Distinct(q) && p < |q| && i < |q| - 1
    ensures var q', j := q[..p] + q[p + 1..], if i < p then i else i + 1;
      && q'[i] == q[j] && q[j] != q[p]
      && After(q', i) == (if Before(q, p) == Some(q[j]) then After(q, p) else After(q, j))
      && Before(q', i) == (if After(q, p) == Some(q[j]) then Before(q, p) else Before(q, j))
      && (Before(q, p) == Some(q[j]) <==> 0 < p && j == p - 1)
      && (After(q, p) == Some(q[j]) <==> j == p + 1)
  {
    var q' := q[..p] + q[p + 1..];
    forall k | 0 <= k < |q'|
      ensures q'[k] == q[if k < p then k else k + 1]
    {
    }
  }

  lemma UnlinkTasks(st: State, st': State, t: nat)
    requires Linked(st) && TasksOk(st) && t in st.order && t < |st.tasks| && st.tasks[t].pc == Remove
    requires Unlinked(st, st', t)
    requires var p := IndexOf(st.order, t); st'.order == st.order[..p] + st.order[p + 1..]
    ensures TasksOk(st')
  {
    forall u | 0 <= u < |st.tasks|
      ensures TaskOk(st'.tasks[u], |st.socks|) && (u in st'.order <==> Listed(st'.tasks[u]))
    {
      assert TaskOk(st.tasks[u], |st.socks|) && (u in st.order <==> Listed(st.tasks[u]));
      assert UnlinkedTask(st, st'.tasks[u], t, u);
      hide IndexOf, Without;
      WithoutMember(st.order, IndexOf(st.order, t), u);
    }
  }

  lemma WithoutMember(q: seq<nat>, p: nat, u: nat)
    requires Distinct(q) && p < |q|
    ensures u in q[..p] + q[p + 1..] <==> u in q && u != q[p]
  {
    assert q == q[..p] + [q[p]] + q[p + 1..];
  }

  // ----- event_callback --------------------------------------------------------------------

  /** The entries from `at` on. */
  predicate Covers(st: State, at: Option<nat>, t: nat) {
    && at.Some? && at.value in st.order && t in st.order
    && IndexOf(st.order, at.value) <= IndexOf(st.order, t)
  }

  predicate AttendedByOther(st: State, c: nat, s: nat, t: nat) {
    exists b :: 0 <= b < |st.cbs| && b != c && st.cbs[b].Looping? && st.cbs[b].s == s && YetToVisit(st, b, t)
  }

  /** Visiting entry `at` re-establishes the invariant if every overlooked event is left to
      another callback or to the entries from `at` on. */
  lemma VisitInv(st: State, c: nat, s: nat, at: Option<nat>)
    requires Linked(st) && TasksOk(st) && WaitingOk(st) && CallbacksOk(st)
    requires c < |st.cbs| && s < |st.socks|
    requires at.Some? ==> at.value in st.order && at.value < |st.tasks|
    requires forall t, r | 0 <= t < |st.tasks| && 0 <= r < |st.socks| ::
      Exposed(st.tasks[t], r) && Matches(st.socks[r], st.tasks[t].watch, r) ==>
        AttendedByOther(st, c, r, t) || (r == s && Covers(st, at, t))
    ensures Inv(Visit(st, c, s, at))
  {
    var st' := Visit(st, c, s, at);
    LinkedFrame(st, st');
    VisitTasks(st, c, s, at);
    CountedFrame(st, st');
    forall t, r | 0 <= t < |st.tasks| && 0 <= r < |st.socks|
      && Exposed(st'.tasks[t], r) && Matches(st'.socks[r], st'.tasks[t].watch, r)
      ensures Attended(st', r, t)
    {
      VisitAttends(st, c, s, at, t, r);
    }
  }

  lemma VisitTasks(st: State, c: nat, s: nat, at: Option<nat>)
    requires TasksOk(st) && CallbacksOk(st)
    requires c < |st.cbs| && s < |st.socks|
    requires at.Some? ==> at.value in st.order && at.value < |st.tasks|
    ensures TasksOk(Visit(st, c, s, at)) && CallbacksOk(Visit(st, c, s, at))
  {
    var st' := Visit(st, c, s, at);
    forall u | 0 <= u < |st.tasks|
      ensures TaskOk(st'.tasks[u], |st.socks|) && (u in st'.order <==> Listed(st'.tasks[u]))
    {
      assert TaskOk(st.tasks[u], |st.socks|) && (u in st.order <==> Listed(st.tasks[u]));
    }
  }

  lemma VisitAttends(st: State, c: nat, s: nat, at: Option<nat>, t: nat, r: nat)
    requires Linked(st) && c < |st.cbs| && s < |st.socks| && t < |st.tasks| && r < |st.socks|
    requires at.Some? ==> at.value in st.order && at.value < |st.tasks|
    requires Exposed(st.tasks[t], r) && Matches(st.socks[r], st.tasks[t].watch, r) ==>
        AttendedByOther(st, c, r, t) || (r == s && Covers(st, at, t))
    requires var st' := Visit(st, c, s, at);
      Exposed(st'.tasks[t], r) && Matches(st'.socks[r], st'.tasks[t].watch, r)
    ensures Attended(Visit(st, c, s, at), r, t)
  {
    hide Matches;
    var st' := Visit(st, c, s, at);
    if AttendedByOther(st, c, r, t) {
      var b :| 0 <= b < |st.cbs| && b != c && st.cbs[b].Looping? && st.cbs[b].s == r && YetToVisit(st, b, t);
      assert YetToVisit(st', b, t);
    } else {
      assert t != at.value;
      assert YetToVisit(st', c, t);
    }
  }

  lemma NotifyInv(st: State, c: nat, s: nat, e: Event)
    requires Inv(st) && Enabled(st, Notify(c, s, e))
    ensures Inv(Apply(st, Notify(c, s, e)))
  {
    var st1 := st.(socks := st.socks[s := SetEvent(st.socks[s], e)]);
    LinkedFrame(st, st1);
    CountedFrame(st, st1);
    forall t, r | 0 <= t < |st.tasks| && 0 <= r < |st.socks|
      && Exposed(st1.tasks[t], r) && Matches(st1.socks[r], st1.tasks[t].watch, r)
      ensures AttendedByOther(st1, c, r, t) || (r == s && Covers(st1, st1.head, t))
      ensures AttendedByOther(st1, c, r, t) ==> Attended(st1, r, t)
      ensures r == s ==> st1.socks[s].waiting != 0
    {
      if r == s {
        assert t in Waiters(st1, s);
        assert t in st1.order;
        IndexUnique(st1.order, 0);
      } else {
        assert Attended(st, r, t);
        var b :| 0 <= b < |st.cbs| && st.cbs[b].Looping? && st.cbs[b].s == r && YetToVisit(st, b, t);
        assert YetToVisit(st1, b, t);
      }
    }
    if st1.socks[s].waiting != 0 {
      VisitInv(st1, c, s, st1.head);
    }
  }

  lemma AdvanceInv(st: State, c: nat)
    requires Inv(st) && Enabled(st, Advance(c))
    ensures Inv(Apply(st, Advance(c)))
  {
    var Looping(s, at, last) := st.cbs[c];
    var next := if last != st.ctr then st.head else st.tasks[at].next;
    NextEntry(st, c);
    forall t, r | 0 <= t < |st.tasks| && 0 <= r < |st.socks|
      && Exposed(st.tasks[t], r) && Matches(st.socks[r], st.tasks[t].watch, r)
      ensures AttendedByOther(st, c, r, t) || (r == s && Covers(st, next, t))
    {
      assert Attended(st, r, t);
      var b :| 0 <= b < |st.cbs| && st.cbs[b].Looping? && st.cbs[b].s == r && YetToVisit(st, b, t);
    }
    VisitInv(st, c, s, next);
  }

  /** event_callback never reads a removed entry: it continues from a listed one, or starts
      over; either way the next entry covers everything it has yet to visit. */
  lemma NextEntry(st: State, c: nat)
    requires Inv(st) && Enabled(st, Advance(c))
    ensures var Looping(s, at, last) := st.cbs[c];
      var next := if last != st.ctr then st.head else st.tasks[at].next;
      && (last == st.ctr ==> at in st.order)
      && (next.Some? ==> next.value in st.order && next.value < |st.tasks| && st.tasks[next.value].semLive)
      && (forall t :: YetToVisit(st, c, t) ==> Covers(st, next, t))
  {
    var Looping(s, at, last) := st.cbs[c];
    if last != st.ctr {
      if st.order != [] {
        IndexUnique(st.order, 0);
        assert LinksAt(st, 0);
      }
    } else {
      var i := IndexOf(st.order, at);
      assert LinksAt(st, i);
      if i + 1 < |st.order| {
        IndexUnique(st.order, i + 1);
        assert LinksAt(st, i + 1);
      }
    }
  }

  // ----- runs --------------------------------------------------------------------------------

  lemma StepInv(st: State, step: Step)
    requires Inv(st) && Enabled(st, step)
    ensures Inv(Apply(st, step))
  {
    hide Inv;
    match step
    case Call(t, w) => CallInv(st, t, w);
    case Scan(t, poll) => ScanInv(st, t, poll);
    case Enlist(t, semOk) => EnlistInv(st, t, semOk);
    case Count(t) => CountInv(st, t);
    case Wake(t) => WakeInv(st, t);
    case Timeout(t) => TimeoutInv(st, t);
    case Unlink(t) => UnlinkInv(st, t);
    case Destroy(t) => DestroyInv(st, t);
    case Notify(c, s, e) => NotifyInv(st, c, s, e);
    case Advance(c) => AdvanceInv(st, c);
    case Keep(s, b) => KeepInv(st, s, b);
  }

  /** An interleaving: a sequence of steps, each enabled when it is taken. */
  predicate Legal(st: State, steps: seq<Step>)
    decreases |steps|
  {
    steps == [] || (Enabled(st, steps[0]) && Legal(Apply(st, steps[0]), steps[1..]))
  }

  function Run(st: State, steps: seq<Step>): State
    requires Legal(st, steps)
    decreases |steps|
  {
    if steps == [] then st else Run(Apply(st, steps[0]), steps[1..])
  }

  lemma {:induction false} RunInv(st: State, steps: seq<Step>)
    requires Inv(st) && Legal(st, steps)
    ensures Inv(Run(st, steps))
    decreases |steps|
  {
    if steps != [] {
      StepInv(st, steps[0]);
      RunInv(Apply(st, steps[0]), steps[1..]);
    }
  }

  /** How often event `e` came for socket s. */
  function Times(steps: seq<Step>, s: nat, e: Event): nat {
    if steps == [] then 0
    else (if steps[0].Notify? && steps[0].s == s && steps[0].e == e then 1 else 0) + Times(steps[1..], s, e)
  }

  predicate Tells(step: Step, s: nat, writable: bool) {
    step.Notify? && step.s == s && step.e == if writable then SendPlus else SendMinus
  }

  /** The last event about writing on socket s said so. */
  predicate LastTold(steps: seq<Step>, s: nat, writable: bool) {
    exists i :: 0 <= i < |steps| && Tells(steps[i], s, writable)
      && forall j :: i < j < |steps| ==> !Tells(steps[j], s, !writable)
  }

  /** Over every run the socket's fields say what its events said: the counter is what came less what
      was taken, the socket is writable if the last event about writing said so, an error stays. */
  lemma {:induction false} FieldsCountEvents(start: State, steps: seq<Step>, s: nat)
    requires Legal(start, steps) && s < |start.socks|
    ensures |Run(start, steps).socks| == |start.socks|
    ensures var k, k' := start.socks[s], Run(start, steps).socks[s];
      && k'.rcvevent == k.rcvevent + Times(steps, s, RcvPlus) - Times(steps, s, RcvMinus)
      && (forall w: bool :: LastTold(steps, s, w) ==> k'.sendevent == w)
      && ((forall i :: 0 <= i < |steps| ==> !Tells(steps[i], s, true) && !Tells(steps[i], s, false))
            ==> k'.sendevent == k.sendevent)
      && (k'.errevent <==> k.errevent || Times(steps, s, Error) > 0)
    decreases |steps|
  {
    if steps != [] {
      var rest := steps[1..];
      StepFields(start, steps[0], s);
      FieldsCountEvents(Apply(start, steps[0]), rest, s);
      hide Apply, Enabled;
      assert forall j :: 0 <= j < |rest| ==> rest[j] == steps[j + 1];
      forall w: bool | LastTold(steps, s, w)
        ensures Run(start, steps).socks[s].sendevent == w
      {
        LastOfRest(steps, s, w);
      }
    }
  }

  /** The last word is in the rest, or it is the first step and the rest has none. */
  lemma LastOfRest(steps: seq<Step>, s: nat, w: bool)
    requires steps != [] && LastTold(steps, s, w)
    ensures LastTold(steps[1..], s, w)
      || (Tells(steps[0], s, w) &&
          forall j :: 0 <= j < |steps[1..]| ==> (!Tells(steps[1..][j], s, w) && !Tells(steps[1..][j], s, !w)))
  {
    var rest := steps[1..];
    var i :| 0 <= i < |steps| && Tells(steps[i], s, w)
      && forall j :: i < j < |steps| ==> !Tells(steps[j], s, !w);
    if i > 0 {
      assert Tells(rest[i - 1], s, w);
    } else if j :| 0 <= j < |rest| && Tells(rest[j], s, w) {
      assert LastTold(rest, s, w);
    }
  }

  /** What one step does to the fields of a socket. */
  lemma StepFields(st: State, step: Step, s: nat)
    requires Enabled(st, step) && s < |st.socks|
    ensures |Apply(st, step).socks| == |st.socks|
    ensures var k, k' := st.socks[s], Apply(st, step).socks[s];
      && k'.rcvevent - k.rcvevent == Times([step], s, RcvPlus) - Times([step], s, RcvMinus)
      && k'.sendevent == (if Tells(step, s, true) then true else if Tells(step, s, false) then false else k.sendevent)
      && (k'.errevent <==> k.errevent || Times([step], s, Error) > 0)
  {
    assert [step][1..] == [];
    if step.Notify? {
      NotifyFields(st, step.c, step.s, step.e);
    } else {
      OtherFields(st, step, s);
    }
    hide Apply, Enabled;
  }

  lemma NotifyFields(st: State, c: nat, s: nat, e: Event)
    requires Enabled(st, Notify(c, s, e))
    ensures Apply(st, Notify(c, s, e)).socks == st.socks[s := SetEvent(st.socks[s], e)]
  {
    hide Matches, SetEvent;
  }

  /** Only event_callback touches the fields that events are about. */
  lemma OtherFields(st: State, step: Step, s: nat)
    requires Enabled(st, step) && !step.Notify? && s < |st.socks|
    ensures |Apply(st, step).socks| == |st.socks|
    ensures var k, k' := st.socks[s], Apply(st, step).socks[s];
      k'.rcvevent == k.rcvevent && k'.sendevent == k.sendevent && k'.errevent == k.errevent
  {
    hide Matches, Ready, Watched;
  }

  /** The event that a task which watches s in this way waits for. */
  predicate WaitsFor(w: Watch, s: nat, e: Event) {
    s < w.maxfdp1 &&
    match e
    case RcvPlus => s in w.read
    case SendPlus => s in w.write
    case Error => s in w.except
    case _ => false
  }

  /** An event wakes: when it comes, every task that sleeps in select for it is signalled, or the
      callback that brought the event, or another for this socket, is on its way to it. */
  lemma EventWakes(st: State, c: nat, s: nat, e: Event, t: nat)
    requires Inv(st) && Enabled(st, Notify(c, s, e)) && t < |st.tasks| && st.tasks[t].pc == Wait
    requires WaitsFor(st.tasks[t].watch, s, e) && (e == RcvPlus ==> st.socks[s].rcvevent >= 0)
    ensures var st' := Apply(st, Notify(c, s, e));
      t < |st'.tasks| && st'.tasks[t].pc == Wait && (st'.tasks[t].sem == 1 || Attended(st', s, t))
  {
    var st' := Apply(st, Notify(c, s, e));
    NotifyInv(st, c, s, e);
    assert Matches(st'.socks[s], st'.tasks[t].watch, s);
    hide Matches, Attended, SetEvent;
    assert TaskOk(st'.tasks[t], |st'.socks|);
    assert !st'.tasks[t].signalled ==> Exposed(st'.tasks[t], s);
  }

  predicate HasEvent(k: Sock, w: Watch, s: nat) {
    (s in w.read && k.rcvevent > 0) || (s in w.write && k.sendevent) || (s in w.except && k.errevent)
  }

  /** Nothing is made up: a step that signals a task belongs to a callback for a socket with an
      event that the task watches. */
  lemma SignalsForEvents(st: State, step: Step, t: nat)
    requires Enabled(st, step) && t < |st.tasks| && !st.tasks[t].signalled
    ensures var k, st' := st.tasks[t], Apply(st, step);
      && t < |st'.tasks|
      && (st'.tasks[t].signalled ==> exists s :: 0 <= s < |st'.socks| && HasEvent(st'.socks[s], k.watch, s))
  {
    hide Ready, Watched, Matches, Visit, HasEvent;
    if step.Notify? {
      var st1 := st.(socks := st.socks[step.s := SetEvent(st.socks[step.s], step.e)]);
      VisitSignals(st1, step.c, step.s, st1.head, t);
    }
    if step.Advance? {
      var Looping(s, at, last) := st.cbs[step.c];
      VisitSignals(st, step.c, s, if last != st.ctr then st.head else st.tasks[at].next, t);
    }
  }

  lemma VisitSignals(st: State, c: nat, s: nat, at: Option<nat>, t: nat)
    requires c < |st.cbs| && s < |st.socks| && Pointer(st, at) && t < |st.tasks| && !st.tasks[t].signalled
    ensures var st' := Visit(st, c, s, at);
      && st'.socks == st.socks && |st'.tasks| == |st.tasks|
      && (st'.tasks[t].signalled ==> HasEvent(st.socks[s], st.tasks[t].watch, s))
  {
  }

  /** ... and a scan that finds something looks at such a socket, or at one that has kept data. */
  lemma FindsOnlyEvents(st: State, step: Step, t: nat)
    requires Enabled(st, step) && t < |st.tasks| && !st.tasks[t].found
    ensures var k, st' := st.tasks[t], Apply(st, step);
      && t < |st'.tasks|
      && (st'.tasks[t].found ==> exists s :: (0 <= s < k.watch.maxfdp1 && s < |st.socks|
            && (HasEvent(st.socks[s], k.watch, s) || (s in k.watch.read && st.socks[s].lastdata))))
  {
    hide Matches, Watched;
    if step.Scan? && step.t == t && st.tasks[t].pc.i < st.tasks[t].watch.maxfdp1 {
      var i := st.tasks[t].pc.i;
      assert Ready(st.socks[i], st.tasks[t].watch, i) ==>
        HasEvent(st.socks[i], st.tasks[t].watch, i) || (i in st.tasks[t].watch.read && st.socks[i].lastdata);
    }
  }

  /** After any interleaving: a task that sleeps has found nothing, and one that has left the sleep
      has found an event, was signalled, or timed out. */
  lemma LeavesFor(start: State, steps: seq<Step>, t: nat)
    requires Init(start) && Legal(start, steps)
    ensures var st := Run(start, steps);
      t < |st.tasks| ==>
        var k := st.tasks[t];
        && (k.pc == Wait ==> !k.found)
        && (k.pc.Lower? || k.pc == Remove || k.pc == FreeSem ==> k.found || k.signalled || k.timedOut)
        && (k.pc.Scan3? ==> !k.timedOut)
  {
    InitInv(start);
    RunInv(start, steps);
    var st := Run(start, steps);
    if t < |st.tasks| {
      assert TaskOk(st.tasks[t], |st.socks|);
    }
  }

  /** No lost wake-up: after any interleaving, if a task sleeps in select with its semaphore
      unsignalled while a socket it watches has a matching event, then some event_callback
      for that socket is running and has yet to visit the task's entry. */
  lemma NoLostWakeup(start: State, steps: seq<Step>, t: nat, s: nat)
    requires Init(start) && Legal(start, steps)
    ensures var st := Run(start, steps);
      t < |st.tasks| && s < |st.socks| && st.tasks[t].pc == Wait && st.tasks[t].sem == 0
      && Watched(st.tasks[t].watch, s) && Matches(st.socks[s], st.tasks[t].watch, s)
      ==> Attended(st, s, t)
  {
    InitInv(start);
    RunInv(start, steps);
    var st := Run(start, steps);
    if t < |st.tasks| {
      assert TaskOk(st.tasks[t], |st.socks|);
    }
  }

  /** After any interleaving: a running callback continues from an entry that is on the list,
      or starts over; the entry it visits next is on the list with a live semaphore; and a
      listed entry was signalled at most once. */
  lemma VisitsOnlyListed(start: State, steps: seq<Step>, c: nat, t: nat)
    requires Init(start) && Legal(start, steps)
    ensures var st := Run(start, steps);
      && (c < |st.cbs| && st.cbs[c].Looping? ==>
            && Enabled(st, Advance(c))
            && (st.cbs[c].last == st.ctr ==> st.cbs[c].at in st.order)
            && var next := if st.cbs[c].last != st.ctr then st.head else st.tasks[st.cbs[c].at].next;
               next.Some? ==> next.value in st.order && st.tasks[next.value].semLive)
      && (t in st.order ==> t < |st.tasks| && st.tasks[t].signals <= 1)
  {
    InitInv(start);
    RunInv(start, steps);
    var st := Run(start, steps);
    PointersValid(st);
    if c < |st.cbs| && st.cbs[c].Looping? {
      NextEntry(st, c);
    }
    if t in st.order {
      assert LinksAt(st, IndexOf(st.order, t));
      assert TaskOk(st.tasks[t], |st.socks|);
    }
  }

  /** The pointers that steps follow are always addresses of entries, so the Pointer
      conditions of Enabled exclude nothing. */
  lemma PointersValid(st: State)
    requires Inv(st)
    ensures Pointer(st, st.head)
    ensures forall t :: 0 <= t < |st.tasks| && Listed(st.tasks[t]) ==>
      Pointer(st, st.tasks[t].next) && Pointer(st, st.tasks[t].prev)
    ensures forall c | 0 <= c < |st.cbs| && st.cbs[c].Looping? :: Enabled(st, Advance(c))
  {
    if st.order != [] {
      assert LinksAt(st, 0);
    }
    forall c | 0 <= c < |st.cbs| && st.cbs[c].Looping?
      ensures Enabled(st, Advance(c))
    {
      if st.cbs[c].last == st.ctr {
        var i := IndexOf(st.order, st.cbs[c].at);
        assert LinksAt(st, i);
        if i + 1 < |st.order| {
          assert LinksAt(st, i + 1);
        }
      }
    }
    forall t | 0 <= t < |st.tasks| && Listed(st.tasks[t])
      ensures Pointer(st, st.tasks[t].next) && Pointer(st, st.tasks[t].prev)
    {
      assert t in st.order;
      var i := IndexOf(st.order, t);
      assert LinksAt(st, i);
      if i + 1 < |st.order| {
        assert LinksAt(st, i + 1);
      }
      if i > 0 {
        assert LinksAt(st, i - 1);
      }
    }
  }

  /** The counters never go negative: the assertions on select_waiting hold. */
  lemma WaitingNonNegative(start: State, steps: seq<Step>, s: nat, t: nat)
    requires Init(start) && Legal(start, steps)
    ensures var st := Run(start, steps);
      s < |st.socks| && t < |st.tasks| ==>
        && st.socks[s].waiting >= 0
        && (Counted(st.tasks[t], s) ==> st.socks[s].waiting > 0)
  {
    InitInv(start);
    RunInv(start, steps);
    var st := Run(start, steps);
    if s < |st.socks| && t < |st.tasks| && Counted(st.tasks[t], s) {
      assert t in Waiters(st, s);
    }
  }

  // ----- delivery ------------------------------------------------------------------------------

  /** Callback c runs alone for up to n sections. */
  function Solo(st: State, c: nat, n: nat): State
    decreases n
  {
    if n == 0 || !Enabled(st, Advance(c)) then st
    else Solo(Apply(st, Advance(c)), c, n - 1)
  }

  function Distance(st: State, c: nat, t: nat): nat
    requires c < |st.cbs| && YetToVisit(st, c, t)
  {
    if st.cbs[c].last == st.ctr && st.cbs[c].at in st.order
    then IndexOf(st.order, t) - IndexOf(st.order, st.cbs[c].at)
    else IndexOf(st.order, t) + 1
  }

  /** One more section of the callback either signals the task or comes nearer to it. */
  lemma Nearer(st: State, c: nat, s: nat, t: nat)
    requires Inv(st) && c < |st.cbs| && st.cbs[c].Looping? && st.cbs[c].s == s
    requires s < |st.socks| && t < |st.tasks| && YetToVisit(st, c, t)
    requires Matches(st.socks[s], st.tasks[t].watch, s) && Enabled(st, Advance(c))
    ensures var st' := Apply(st, Advance(c));
      && st'.socks == st.socks && |st'.tasks| == |st.tasks| && |st'.cbs| == |st.cbs|
      && st'.tasks[t].watch == st.tasks[t].watch && st'.order == st.order
      && (st'.tasks[t].signalled
          || (st'.cbs[c].Looping? && st'.cbs[c].s == s && YetToVisit(st', c, t)
              && Distance(st', c, t) < Distance(st, c, t)))
  {
    hide Matches;
    NextEntry(st, c);
    NextIndex(st, c);
    var at := if st.cbs[c].last != st.ctr then st.head else st.tasks[st.cbs[c].at].next;
    assert Covers(st, at, t);
  }

  /** Left alone, a callback that has yet to visit a task with a matching event wakes it
      within as many sections as there are entries on the list. */
  lemma {:induction false} Delivered(st: State, c: nat, s: nat, t: nat) returns (n: nat)
    requires Inv(st) && c < |st.cbs| && st.cbs[c].Looping? && st.cbs[c].s == s
    requires s < |st.socks| && t < |st.tasks| && YetToVisit(st, c, t)
    requires Matches(st.socks[s], st.tasks[t].watch, s)
    ensures n <= Distance(st, c, t) <= |st.order|
    ensures t < |Solo(st, c, n).tasks| && Solo(st, c, n).tasks[t].signalled
    decreases Distance(st, c, t)
  {
    hide Matches, Apply, YetToVisit, Inv;
    PointersValid(st);
    Nearer(st, c, s, t);
    AdvanceInv(st, c);
    DistanceBound(st, c, t);
    var st' := Apply(st, Advance(c));
    n := 1;
    assert Solo(st, c, 1) == Solo(st', c, 0);
    if !st'.tasks[t].signalled {
      var m := Delivered(st', c, s, t);
      n := m + 1;
    }
  }

  lemma DistanceBound(st: State, c: nat, t: nat)
    requires c < |st.cbs| && YetToVisit(st, c, t)
    ensures 0 < Distance(st, c, t) <= |st.order|
  {
  }

  lemma NextIndex(st: State, c: nat)
    requires Inv(st) && c < |st.cbs| && st.cbs[c].Looping? && Enabled(st, Advance(c))
    ensures var Looping(s, at, last) := st.cbs[c];
      var next := if last != st.ctr then st.head else st.tasks[at].next;
      && (next.Some? ==> next.value in st.order)
      && (next.Some? ==> IndexOf(st.order, next.value) ==
                           if last != st.ctr then 0 else IndexOf(st.order, at) + 1)
  {
    var Looping(s, at, last) := st.cbs[c];
    if last != st.ctr {
      if st.order != [] {
        IndexUnique(st.order, 0);
      }
    } else {
      var i := IndexOf(st.order, at);
      assert LinksAt(st, i);
      if i + 1 < |st.order| {
        IndexUnique(st.order, i + 1);
      }
    }
  }
}
