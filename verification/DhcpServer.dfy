/** The lease table of dhcp_server.c: eight entries, each with a fixed address, driven by
    messages of clients, one tick a second and deletions.  Hardware addresses are numbers and 0
    is the all-zero address, which marks an entry nobody has used. */
module DhcpServer {
  import opened Options

  const CLIENTS: nat := 8
  const LEASE: nat := 315360000
  const TIMEOUT: nat := 10

  datatype ClientState = IDLE | SELECT | REQUEST | BIND

  datatype Client = Client(state: ClientState, timeout: nat, ip: nat, mac: nat, lease: nat)

  datatype MsgType = Discover | Request | Release | Decline | Other

  /** What the server answers. */
  datatype Answer = Silence | Offer(ip: nat, to: nat) | Ack(ip: nat, to: nat) | Nak(to: nat)

  type Table = seq<Client>

  // ----- finding entries -------------------------------------------------------------------

  /** What the scan of the table looks for. */
  datatype Kind = Mine | Requested | MyHistory | Unused | History | Taken

  predicate Is(c: Client, kind: Kind, mac: nat, req: nat) {
    match kind
    case Mine => c.state != IDLE && c.mac == mac
    case Taken => c.state != IDLE && c.mac != mac && c.ip == req
    case Requested => c.state == IDLE && c.ip == req
    case MyHistory => c.state == IDLE && c.mac == mac
    case Unused => c.state == IDLE && c.mac == 0
    case History => c.state == IDLE && c.mac != 0
  }

  /** The first of the first n entries of a kind. */
  function First(t: Table, n: nat, kind: Kind, mac: nat, req: nat): (r: Option<nat>)
    requires n <= |t|
    ensures r.Some? ==> r.value < n && Is(t[r.value], kind, mac, req)
    ensures r.Some? ==> forall i :: 0 <= i < r.value ==> !Is(t[i], kind, mac, req)
    ensures r.None? ==> forall i :: 0 <= i < n ==> !Is(t[i], kind, mac, req)
  {
    if n == 0 then None
    else
      var r := First(t, n - 1, kind, mac, req);
      if r.Some? then r else if Is(t[n - 1], kind, mac, req) then Some(n - 1) else None
  }

  lemma FirstNone(t: Table, mac: nat, req: nat)
    ensures forall kind :: First(t, 0, kind, mac, req) == None
  {
  }

  lemma FirstNext(t: Table, i: nat, mac: nat, req: nat)
    requires i < |t|
    ensures forall kind {:trigger First(t, i + 1, kind, mac, req)} :: (First(t, i + 1, kind, mac, req) ==
      var r := First(t, i, kind, mac, req);
      if r.Some? then r else if Is(t[i], kind, mac, req) then Some(i) else None)
  {
  }

  lemma KindOf(c: Client, mac: nat, req: nat)
    ensures Is(c, Mine, mac, req) <==> c.state != IDLE && c.mac == mac
    ensures Is(c, Taken, mac, req) <==> c.state != IDLE && c.mac != mac && c.ip == req
    ensures Is(c, Requested, mac, req) <==> c.state == IDLE && c.ip == req
    ensures Is(c, MyHistory, mac, req) <==> c.state == IDLE && c.mac == mac
    ensures Is(c, Unused, mac, req) <==> c.state == IDLE && c.mac == 0
    ensures Is(c, History, mac, req) <==> c.state == IDLE && c.mac != 0
  {
  }

  function Find(t: Table, kind: Kind, mac: nat, req: nat): Option<nat> {
    First(t, |t|, kind, mac, req)
  }

  // ----- one message -----------------------------------------------------------------------

  /** An entry given back by its client: only a client that was bound leaves its address behind
      as history. */
  function GivenBack(c: Client): Client {
    c.(state := IDLE, mac := if c.state == BIND then c.mac else 0)
  }

  /** The entry that _ClientTableLookup answers with.  `ours`: the message names this server or
      none. */
  function Entry(t: Table, m: MsgType, mac: nat, req: nat, ours: bool): Option<nat> {
    var mine, requested := Find(t, Mine, mac, req), Find(t, Requested, mac, req);
    match m
    case Discover =>
      if requested.Some? then requested
      else if mine.Some? then mine
      else if Find(t, MyHistory, mac, req).Some? then Find(t, MyHistory, mac, req)
      else if Find(t, Unused, mac, req).Some? then Find(t, Unused, mac, req)
      else Find(t, History, mac, req)
    case Request =>
      if !ours || Find(t, Taken, mac, req).Some? then None
      else if requested.Some? then requested else mine
    case _ => None
  }

  /** What the lookup does to the client's present entry. */
  function LookedUp(t: Table, m: MsgType, mac: nat, req: nat): Table {
    match Find(t, Mine, mac, req)
    case None => t
    case Some(i) =>
      match m
      case Discover =>
        t[i := t[i].(state := IDLE, mac := if Find(t, Requested, mac, req).Some? then 0 else t[i].mac)]
      case Request =>
        if Find(t, Taken, mac, req).Some? || Find(t, Requested, mac, req).Some? then t[i := GivenBack(t[i])] else t
      case Other => t
      case _ => t[i := GivenBack(t[i])]
  }

  /** Idle entries lose this hardware address. */
  function Cleaned(t: Table, mac: nat): Table {
    seq(|t|, i requires 0 <= i < |t| => if t[i].state == IDLE && t[i].mac == mac then t[i].(mac := 0) else t[i])
  }

  /** The table after a message. */
  function Served(t: Table, m: MsgType, mac: nat, req: nat, ours: bool): Table {
    var t1 := LookedUp(t, m, mac, req);
    match Entry(t, m, mac, req, ours)
    case None => t1
    case Some(i) =>
      if i >= |t1| then t1
      else if m == Discover then t1[i := t1[i].(mac := mac, timeout := TIMEOUT, state := REQUEST)]
      else Cleaned(t1[i := t1[i].(mac := mac, lease := LEASE, state := BIND)], mac)
  }

  function Answered(t: Table, m: MsgType, mac: nat, req: nat, ours: bool): Answer {
    match Entry(t, m, mac, req, ours)
    case None => if m == Release || m == Decline then Silence else Nak(mac)
    case Some(i) => if i >= |t| then Silence else if m == Discover then Offer(t[i].ip, mac) else Ack(t[i].ip, mac)
  }

  // ----- the invariant -----------------------------------------------------------------------

  predicate EntryOk(c: Client) {
    match c.state
    case IDLE => true
    case SELECT => false
    case REQUEST => c.mac != 0 && 1 <= c.timeout <= TIMEOUT
    case BIND => c.mac != 0 && 1 <= c.lease <= LEASE
  }

  /** No entry stays in SELECT, a client holds at most one entry, and every negotiation and every
      lease will end. */
  predicate Inv(t: Table) {
    && |t| == CLIENTS
    && (forall i :: 0 <= i < |t| ==> EntryOk(t[i]))
    && forall i, j :: 0 <= i < j < |t| && t[i].state != IDLE && t[j].state != IDLE ==> t[i].mac != t[j].mac
  }

  predicate Distinct(t: Table) {
    forall i, j :: 0 <= i < j < |t| ==> t[i].ip != t[j].ip
  }

  /** Entries of other clients that are in use are not touched, and addresses never move. */
  predicate OthersKept(t: Table, t': Table, mac: nat) {
    && |t'| == |t|
    && forall i :: 0 <= i < |t| ==>
         t'[i].ip == t[i].ip && (t[i].state != IDLE && t[i].mac != mac ==> t'[i] == t[i])
  }

  /** At most one entry is the client's: what Find answers. */
  lemma MineUnique(t: Table, mac: nat, req: nat, i: nat)
    requires Inv(t) && i < |t| && t[i].state != IDLE && t[i].mac == mac
    ensures Find(t, Mine, mac, req) == Some(i)
  {
    var r := Find(t, Mine, mac, req);
    assert Is(t[i], Mine, mac, req);
  }

  lemma LookedUpInv(t: Table, m: MsgType, mac: nat, req: nat)
    requires Inv(t)
    ensures Inv(LookedUp(t, m, mac, req)) && OthersKept(t, LookedUp(t, m, mac, req), mac)
    ensures forall i :: 0 <= i < |t| && LookedUp(t, m, mac, req)[i].state != IDLE ==>
      LookedUp(t, m, mac, req)[i] == t[i]
  {
  }

  /** The entry chosen is idle or the client's own, and afterwards no other entry is the
      client's. */
  lemma EntryFree(t: Table, m: MsgType, mac: nat, req: nat, ours: bool)
    requires Inv(t) && mac != 0 && Entry(t, m, mac, req, ours).Some?
    ensures var i, t1 := Entry(t, m, mac, req, ours).value, LookedUp(t, m, mac, req);
      && (m == Discover || m == Request)
      && i < |t| && (t[i].state == IDLE || t[i].mac == mac)
      && forall j :: 0 <= j < |t| && j != i && t1[j].state != IDLE ==> t1[j].mac != mac
  {
    var i, t1 := Entry(t, m, mac, req, ours).value, LookedUp(t, m, mac, req);
    forall j | 0 <= j < |t| && j != i && t1[j].state != IDLE
      ensures t1[j].mac != mac
    {
      LookedUpInv(t, m, mac, req);
      if t[j].state != IDLE && t[j].mac == mac {
        MineUnique(t, mac, req, j);
      }
    }
  }

  lemma ServedInv(t: Table, m: MsgType, mac: nat, req: nat, ours: bool)
    requires Inv(t) && mac != 0
    ensures Inv(Served(t, m, mac, req, ours)) && OthersKept(t, Served(t, m, mac, req, ours), mac)
  {
    LookedUpInv(t, m, mac, req);
    if Entry(t, m, mac, req, ours).Some? {
      EntryFree(t, m, mac, req, ours);
      var i, t1 := Entry(t, m, mac, req, ours).value, LookedUp(t, m, mac, req);
      var c := t1[i].(mac := mac, timeout := TIMEOUT, state := REQUEST);
      var d := t1[i].(mac := mac, lease := LEASE, state := BIND);
      GivenInv(t1, i, c);
      GivenInv(t1, i, d);
      CleanedInv(t1[i := d], mac);
    }
  }

  lemma GivenInv(t: Table, i: nat, c: Client)
    requires Inv(t) && i < |t| && EntryOk(c)
    requires forall j :: 0 <= j < |t| && j != i && t[j].state != IDLE ==> t[j].mac != c.mac
    ensures Inv(t[i := c])
  {
  }

  lemma CleanedInv(t: Table, mac: nat)
    requires Inv(t)
    ensures Inv(Cleaned(t, mac)) && OthersKept(t, Cleaned(t, mac), mac)
  {
  }

  /** An address that is offered or acknowledged was in no other client's hands before, and is in
      this client's hands after. */
  lemma NoDoubleLease(t: Table, m: MsgType, mac: nat, req: nat, ours: bool)
    requires Inv(t) && Distinct(t) && mac != 0
    requires Answered(t, m, mac, req, ours).Offer? || Answered(t, m, mac, req, ours).Ack?
    ensures var a, t' := Answered(t, m, mac, req, ours), Served(t, m, mac, req, ours);
      && a.to == mac
      && (forall i :: 0 <= i < |t| && t[i].ip == a.ip ==> t[i].state == IDLE || t[i].mac == mac)
      && exists i :: 0 <= i < |t'| && t'[i].ip == a.ip
           && if a.Offer? then OfferedTo(t'[i], mac) else LeasedTo(t'[i], mac)
  {
    EntryFree(t, m, mac, req, ours);
    LookedUpInv(t, m, mac, req);
    var i := Entry(t, m, mac, req, ours).value;
    assert Served(t, m, mac, req, ours)[i].ip == t[i].ip;
  }

  predicate OfferedTo(c: Client, mac: nat) {
    c.state == REQUEST && c.mac == mac && c.timeout == TIMEOUT
  }

  predicate LeasedTo(c: Client, mac: nat) {
    c.state == BIND && c.mac == mac && c.lease == LEASE
  }

  /** A discover is refused only when every address is in other clients' hands. */
  lemma RefusedWhenFull(t: Table, mac: nat, req: nat, ours: bool)
    ensures Answered(t, Discover, mac, req, ours).Nak? <==>
      forall i :: 0 <= i < |t| ==> t[i].state != IDLE && t[i].mac != mac
  {
    if forall i :: 0 <= i < |t| ==> t[i].state != IDLE && t[i].mac != mac {
    } else {
      var i :| 0 <= i < |t| && (t[i].state == IDLE || t[i].mac == mac);
      assert Is(t[i], Mine, mac, req) || Is(t[i], Unused, mac, req) || Is(t[i], History, mac, req);
    }
  }

  // ----- what is answered, entry by entry -------------------------------------------------------

  predicate InUseBy(c: Client, mac: nat) {
    c.state != IDLE && c.mac == mac
  }

  predicate InUseByOther(c: Client, mac: nat) {
    c.state != IDLE && c.mac != mac
  }

  predicate IdleAt(c: Client, ip: nat) {
    c.state == IDLE && c.ip == ip
  }

  /** A request is refused exactly if it names another server, if its address is in another client's
      hands, or if no idle entry has the address and the client holds none. */
  lemma RequestRefused(t: Table, mac: nat, req: nat, ours: bool)
    ensures Answered(t, Request, mac, req, ours) == Nak(mac) <==>
      || !ours
      || (exists i :: 0 <= i < |t| && InUseByOther(t[i], mac) && t[i].ip == req)
      || (forall i :: 0 <= i < |t| ==> !IdleAt(t[i], req) && !InUseBy(t[i], mac))
  {
    forall i | 0 <= i < |t|
      ensures InUseByOther(t[i], mac) && t[i].ip == req <==> Is(t[i], Taken, mac, req)
      ensures IdleAt(t[i], req) <==> Is(t[i], Requested, mac, req)
      ensures InUseBy(t[i], mac) <==> Is(t[i], Mine, mac, req)
    {
    }
    hide Is;
  }

  /** A request that is not refused is acknowledged with the address asked for if that is idle, and
      otherwise with the one the client holds: with the address asked for exactly if that is one of
      the table's. */
  lemma RequestGranted(t: Table, mac: nat, req: nat)
    requires Inv(t) && Distinct(t) && !Answered(t, Request, mac, req, true).Nak?
    ensures var a := Answered(t, Request, mac, req, true);
      && a.Ack? && a.to == mac
      && (forall i :: 0 <= i < |t| && IdleAt(t[i], req) ==> a.ip == req)
      && ((forall i :: 0 <= i < |t| ==> !IdleAt(t[i], req)) ==>
            exists i :: 0 <= i < |t| && InUseBy(t[i], mac) && a.ip == t[i].ip)
      && (a.ip == req <==> exists i :: 0 <= i < |t| && t[i].ip == req)
  {
    RequestRefused(t, mac, req, true);
    var i := Entry(t, Request, mac, req, true).value;
    assert Is(t[i], Requested, mac, req) || Is(t[i], Mine, mac, req);
    if k :| 0 <= k < |t| && t[k].ip == req {
      assert Is(t[k], Taken, mac, req) || Is(t[k], Requested, mac, req) || Is(t[k], Mine, mac, req);
    }
  }

  /** A client that asks for the address it holds, offered or leased, has its lease afterwards. */
  lemma Renewal(t: Table, mac: nat, i: nat)
    requires Inv(t) && Distinct(t) && i < |t| && InUseBy(t[i], mac)
    ensures Answered(t, Request, mac, t[i].ip, true) == Ack(t[i].ip, mac)
    ensures Served(t, Request, mac, t[i].ip, true)[i] == t[i].(state := BIND, lease := LEASE)
  {
    var req := t[i].ip;
    MineUnique(t, mac, req, i);
    forall k | 0 <= k < |t|
      ensures !Is(t[k], Taken, mac, req) && !Is(t[k], Requested, mac, req)
    {
    }
  }

  /** The handshake: an address that was offered is acknowledged when it is asked for, whatever
      others do in between, if that is before the negotiation times out. */
  lemma Handshake(t: Table, mac: nat, req: nat, ours: bool, events: seq<Event>)
    requires Inv(t) && Distinct(t) && mac != 0 && Sane(events)
    requires Answered(t, Discover, mac, req, ours).Offer?
    requires OfOthers(events, mac) && Ticks(events) < TIMEOUT
    ensures var ip, t' := Answered(t, Discover, mac, req, ours).ip, Run(Served(t, Discover, mac, req, ours), events);
      && Answered(t', Request, mac, ip, true) == Ack(ip, mac)
      && exists c :: c in Served(t', Request, mac, ip, true) && c.ip == ip && LeasedTo(c, mac)
  {
    NoDoubleLease(t, Discover, mac, req, ours);
    ServedInv(t, Discover, mac, req, ours);
    var t1 := Served(t, Discover, mac, req, ours);
    var i :| 0 <= i < |t1| && t1[i].ip == Answered(t, Discover, mac, req, ours).ip && OfferedTo(t1[i], mac);
    NegotiationEnds(t1, events, i);
    RunInv(t1, events);
    hide Answered, Served, Ticks, Run, Next;
    var t2 := Run(t1, events);
    Renewal(t2, mac, i);
    ServedInv(t2, Request, mac, t1[i].ip, true);
    assert Served(t2, Request, mac, t1[i].ip, true)[i] in Served(t2, Request, mac, t1[i].ip, true);
  }

  /** The priority of an entry for a new negotiation, high to low: the idle entry with the address
      asked for, the client's present entry, its history, an entry nobody has used, the history of
      others; 5 is no entry to be had. */
  function Rank(c: Client, mac: nat, req: nat): nat {
    if c.state != IDLE then (if c.mac == mac then 1 else 5)
    else if c.ip == req then 0
    else if c.mac == mac then 2
    else if c.mac == 0 then 3
    else 4
  }

  /** Entry i comes first among those of the highest priority there is. */
  predicate Best(t: Table, i: nat, mac: nat, req: nat)
    requires i < |t|
  {
    && Rank(t[i], mac, req) < 5
    && (forall j :: 0 <= j < |t| ==> Rank(t[i], mac, req) <= Rank(t[j], mac, req))
    && forall j :: 0 <= j < i ==> Rank(t[i], mac, req) < Rank(t[j], mac, req)
  }

  /** A discover is offered the first entry of the highest priority there is. */
  lemma DiscoverPriority(t: Table, mac: nat, req: nat, ours: bool)
    requires Inv(t) && mac != 0 && Answered(t, Discover, mac, req, ours).Offer?
    ensures exists i ::
      0 <= i < |t| && Best(t, i, mac, req) && Answered(t, Discover, mac, req, ours) == Offer(t[i].ip, mac)
  {
    var i := Entry(t, Discover, mac, req, ours).value;
    forall j | 0 <= j < |t|
      ensures Rank(t[i], mac, req) <= Rank(t[j], mac, req)
      ensures j < i ==> Rank(t[i], mac, req) < Rank(t[j], mac, req)
    {
      RankKind(t[j], mac, req);
      RankKind(t[i], mac, req);
      if InUseBy(t[i], mac) && InUseBy(t[j], mac) {
        MineUnique(t, mac, req, i);
        MineUnique(t, mac, req, j);
      }
      hide Is;
    }
  }

  lemma RankKind(c: Client, mac: nat, req: nat)
    requires mac != 0
    ensures Rank(c, mac, req) == 0 <==> Is(c, Requested, mac, req)
    ensures Rank(c, mac, req) == 1 <==> Is(c, Mine, mac, req)
    ensures Rank(c, mac, req) == 2 <==> Is(c, MyHistory, mac, req) && !Is(c, Requested, mac, req)
    ensures Rank(c, mac, req) == 3 <==> Is(c, Unused, mac, req) && !Is(c, Requested, mac, req)
    ensures Rank(c, mac, req) == 4 <==>
      Is(c, History, mac, req) && !Is(c, MyHistory, mac, req) && !Is(c, Requested, mac, req)
    ensures InUseBy(c, mac) <==> Is(c, Mine, mac, req)
  {
  }

  /** A client that gives its entry back is not answered; the entry is idle, and keeps the client as
      its history if it was leased; nothing else changes. */
  lemma GivesBack(t: Table, m: MsgType, mac: nat, req: nat, ours: bool)
    requires Inv(t) && (m == Release || m == Decline)
    ensures Answered(t, m, mac, req, ours) == Silence
    ensures var t' := Served(t, m, mac, req, ours);
      |t'| == |t| && forall i :: 0 <= i < |t| ==>
        t'[i] == if !InUseBy(t[i], mac) then t[i]
                 else t[i].(state := IDLE, mac := if t[i].state == BIND then mac else 0)
  {
    forall i | 0 <= i < |t| && InUseBy(t[i], mac)
      ensures Find(t, Mine, mac, req) == Some(i)
    {
      MineUnique(t, mac, req, i);
    }
  }

  /** What becomes of the other entries: an idle one with another history stays as it is unless its
      address is the one granted, and after an acknowledgement the client is nobody's history. */
  lemma HistoriesKept(t: Table, m: MsgType, mac: nat, req: nat, ours: bool)
    requires Inv(t) && Distinct(t) && mac != 0
    ensures var a, t' := Answered(t, m, mac, req, ours), Served(t, m, mac, req, ours);
      && |t'| == |t|
      && (forall i :: 0 <= i < |t| && t[i].state == IDLE && t[i].mac != mac ==>
            (t'[i] == t[i] || ((a.Offer? || a.Ack?) && a.ip == t[i].ip)))
      && (a.Ack? ==> forall i :: 0 <= i < |t'| && t'[i].state == IDLE ==> t'[i].mac != mac)
  {
    ServedInv(t, m, mac, req, ours);
    LookedUpInv(t, m, mac, req);
    if Entry(t, m, mac, req, ours).Some? {
      EntryFree(t, m, mac, req, ours);
    }
  }

  // ----- ticks, deletions and whole runs -------------------------------------------------------

  /** An entry after one tick; `present` are the stations still associated. */
  function Ticked(c: Client, present: set<nat>): Client {
    match c.state
    case REQUEST =>
      if c.timeout == 0 then c
      else if c.timeout == 1 then c.(timeout := 0, mac := 0, state := IDLE)
      else c.(timeout := c.timeout - 1)
    case BIND =>
      var lease := if c.lease == 0 then 0 else c.lease - 1;
      if (c.lease > 0 && lease == 0) || c.mac !in present then c.(lease := lease, state := IDLE)
      else c.(lease := lease)
    case _ => c
  }

  function TickedTable(t: Table, present: set<nat>): Table {
    seq(|t|, i requires 0 <= i < |t| => Ticked(t[i], present))
  }

  /** DHCPS_ClientDelete: a bound client loses its lease. */
  function Deleted(t: Table, mac: nat): Table {
    match Find(t, Mine, mac, 0)
    case None => t
    case Some(i) => if t[i].state == BIND then t[i := t[i].(state := IDLE)] else t
  }

  datatype Event =
    | Message(m: MsgType, mac: nat, req: nat, ours: bool)
    | Tick(present: set<nat>)
    | Delete(mac: nat)

  function Next(t: Table, e: Event): Table {
    match e
    case Message(m, mac, req, ours) => Served(t, m, mac, req, ours)
    case Tick(present) => TickedTable(t, present)
    case Delete(mac) => Deleted(t, mac)
  }

  function Run(t: Table, events: seq<Event>): Table
    decreases |events|
  {
    if events == [] then t else Run(Next(t, events[0]), events[1..])
  }

  predicate Sane(events: seq<Event>) {
    forall e :: e in events && e.Message? ==> e.mac != 0
  }

  lemma NextInv(t: Table, e: Event)
    requires Inv(t) && (e.Message? ==> e.mac != 0)
    ensures Inv(Next(t, e)) && forall i :: 0 <= i < |t| ==> Next(t, e)[i].ip == t[i].ip
  {
    match e
    case Message(m, mac, req, ours) => ServedInv(t, m, mac, req, ours);
    case Tick(_) =>
    case Delete(_) =>
  }

  /** In every run no two clients hold the same address, and no client holds two. */
  lemma {:induction false} RunInv(t: Table, events: seq<Event>)
    requires Inv(t) && Distinct(t) && Sane(events)
    ensures Inv(Run(t, events)) && Distinct(Run(t, events))
    ensures forall i :: 0 <= i < |t| ==> Run(t, events)[i].ip == t[i].ip
    ensures forall i, j :: 0 <= i < j < |t| && Run(t, events)[i].state != IDLE && Run(t, events)[j].state != IDLE ==>
      Run(t, events)[i].ip != Run(t, events)[j].ip && Run(t, events)[i].mac != Run(t, events)[j].mac
    decreases |events|
  {
    if events != [] {
      assert events[0] in events;
      NextInv(t, events[0]);
      assert Sane(events[1..]) by {
        assert forall e :: e in events[1..] ==> e in events;
      }
      RunInv(Next(t, events[0]), events[1..]);
    }
  }

  /** Events that do not concern this client, except for time. */
  predicate OfOthers(events: seq<Event>, mac: nat) {
    forall e :: e in events ==>
      match e
      case Message(_, other, _, _) => other != mac && other != 0
      case Tick(present) => mac in present
      case Delete(other) => other != mac
  }

  function Ticks(events: seq<Event>): nat {
    if events == [] then 0 else (if events[0].Tick? then 1 else 0) + Ticks(events[1..])
  }

  /** One event of others: the client's entry changes by time only. */
  lemma OthersNext(t: Table, e: Event, i: nat)
    requires Inv(t) && i < |t| && t[i].state != IDLE && OfOthers([e], t[i].mac)
    ensures Inv(Next(t, e)) && i < |Next(t, e)|
    ensures Next(t, e)[i] == if e.Tick? then Ticked(t[i], e.present) else t[i]
  {
    assert e in [e];
    NextInv(t, e);
    if e.Message? {
      ServedInv(t, e.m, e.mac, e.req, e.ours);
    }
  }

  lemma OfOthersRest(events: seq<Event>, mac: nat)
    requires events != [] && OfOthers(events, mac)
    ensures OfOthers([events[0]], mac) && OfOthers(events[1..], mac)
  {
    assert events[0] in events;
    assert forall e :: e in events[1..] ==> e in events;
  }

  /** The address of a bound client stays with it through any run in which its station stays
      associated, it sends no message and is not deleted, until its lease has run out in ticks; with
      the last tick the entry is idle, and the client is its history. */
  lemma {:induction false} LeaseHolds(t: Table, events: seq<Event>, i: nat)
    requires Inv(t) && i < |t| && t[i].state == BIND && OfOthers(events, t[i].mac)
    ensures i < |Run(t, events)|
    ensures Ticks(events) < t[i].lease ==> Run(t, events)[i] == t[i].(lease := t[i].lease - Ticks(events))
    ensures Ticks(events) == t[i].lease && events[|events| - 1].Tick? ==>
      Run(t, events)[i] == t[i].(lease := 0, state := IDLE)
    decreases |events|
  {
    RunSize(t, events);
    if events != [] {
      OfOthersRest(events, t[i].mac);
      OthersNext(t, events[0], i);
      assert events[0] in [events[0]];
      var t' := Next(t, events[0]);
      if t'[i].state == BIND {
        LeaseHolds(t', events[1..], i);
      } else {
        NoTicks(events[1..]);
        assert events[1..] == [] ==> Run(t, events) == t';
      }
      assert events[1..] != [] ==> events[1..][|events| - 2] == events[|events| - 1];
    }
  }

  /** A lease ends at once when the station has left or the client is deleted; the entry is then idle
      with the client as its history.  Deleting touches no other entry, and none in negotiation. */
  lemma LeaseEnds(t: Table, e: Event, i: nat)
    requires Inv(t) && i < |t| && t[i].state != IDLE
    requires e == Delete(t[i].mac) || (e.Tick? && t[i].mac !in e.present)
    ensures |Next(t, e)| == |t|
    ensures t[i].state == BIND ==>
      Next(t, e)[i].state == IDLE && Next(t, e)[i].mac == t[i].mac && Next(t, e)[i].ip == t[i].ip
    ensures e.Delete? ==> forall j :: 0 <= j < |t| && (j != i || t[j].state == REQUEST) ==> Next(t, e)[j] == t[j]
  {
    if e.Delete? {
      MineUnique(t, e.mac, 0, i);
    }
  }

  /** An offer is kept for its client, whatever others do, until the timeout has run out in
      ticks; with the last tick the entry is idle and nobody's. */
  lemma {:induction false} NegotiationEnds(t: Table, events: seq<Event>, i: nat)
    requires Inv(t) && i < |t| && t[i].state == REQUEST && OfOthers(events, t[i].mac)
    ensures i < |Run(t, events)|
    ensures Ticks(events) < t[i].timeout ==>
      Run(t, events)[i] == t[i].(timeout := t[i].timeout - Ticks(events))
    ensures Ticks(events) == t[i].timeout && events[|events| - 1].Tick? ==>
      Run(t, events)[i].state == IDLE && Run(t, events)[i].mac == 0
    decreases |events|
  {
    RunSize(t, events);
    if events != [] {
      OfOthersRest(events, t[i].mac);
      OthersNext(t, events[0], i);
      var t' := Next(t, events[0]);
      if t'[i].state == REQUEST {
        NegotiationEnds(t', events[1..], i);
        assert events[1..] != [] ==> events[1..][|events| - 2] == events[|events| - 1];
      } else {
        NoTicks(events[1..]);
        assert events[1..] == [] ==> Run(t, events) == t';
        assert events[1..] != [] ==> events[1..][|events| - 2] == events[|events| - 1];
      }
    }
  }

  lemma {:induction false} NoTicks(events: seq<Event>)
    ensures Ticks(events) == 0 && events != [] ==> !events[|events| - 1].Tick?
  {
    if |events| > 1 {
      NoTicks(events[1..]);
    }
  }

  lemma {:induction false} RunSize(t: Table, events: seq<Event>)
    ensures |Run(t, events)| == |t|
    decreases |events|
  {
    if events != [] {
      RunSize(Next(t, events[0]), events[1..]);
    }
  }

  /** A bound client that restarts with a discover keeps its address, as the entry of its new
      negotiation, exactly if the address it asks for is not that of an idle entry; the test
      that is to spare a bound entry comes after the state was reset. */
  lemma RestartKeepsHistory(t: Table, mac: nat, req: nat, ours: bool, i: nat)
    requires Inv(t) && mac != 0 && i < |t| && t[i].state == BIND && t[i].mac == mac
    ensures Served(t, Discover, mac, req, ours)[i].mac == mac <==> forall j :: 0 <= j < |t| ==> !IdleAt(t[j], req)
    ensures Served(t, Discover, mac, req, ours)[i].mac != mac ==> Served(t, Discover, mac, req, ours)[i].mac == 0
  {
    MineUnique(t, mac, req, i);
  }

  /** One such restart: the client of address 100 asks for the idle address 101. */
  lemma RestartLosesHistory()
    ensures
      var idle := seq(CLIENTS, i requires 0 <= i < CLIENTS => Client(IDLE, 0, 100 + i, 0, LEASE));
      var t := idle[0 := Client(BIND, 0, 100, 7, LEASE)];
      Inv(t) && t[0].mac == 7 && Served(t, Discover, 7, 101, true)[0].mac == 0
  {
    var idle := seq(CLIENTS, i requires 0 <= i < CLIENTS => Client(IDLE, 0, 100 + i, 0, LEASE));
    var t := idle[0 := Client(BIND, 0, 100, 7, LEASE)];
    assert Is(t[1], Requested, 7, 101);
    RestartKeepsHistory(t, 7, 101, true, 0);
  }

  // ----- the pool ------------------------------------------------------------------------------

  /** DHCPS_Start: the host part of the i-th address, for a host mask of `hosts`. */
  function HostOf(start: nat, hosts: nat, i: nat): nat
    requires hosts > 0
  {
    if Mod(start + i, hosts) != 0 then Mod(start + i, hosts) else 1
  }

  function Mod(a: nat, m: nat): (r: nat)
    requires m > 0
    ensures r < m
  {
    a % m
  }

  lemma ModOnce(a: nat, m: nat)
    requires 0 < m && a < 2 * m
    ensures Mod(a, m) == if a < m then a else a - m
  {
    if m <= a {
      assert a == m + (a - m);
    }
  }

  /** The eight addresses are different exactly when the pool does not reach past the end of the
      subnet; both host 0 and host 1 would be given out as host 1. */
  lemma PoolDistinct(start: nat, hosts: nat)
    requires 1 <= start <= hosts
    ensures (forall i: nat, j: nat :: i < j < CLIENTS ==> HostOf(start, hosts, i) != HostOf(start, hosts, j))
       <==> start + 7 < hosts || (start + 7 == hosts && start != 1)
  {
    forall i: nat | i < CLIENTS
      ensures start + i <= hosts ==> HostOf(start, hosts, i) == if start + i == hosts then 1 else start + i
      ensures start + i == hosts + 1 ==> HostOf(start, hosts, i) == 1
    {
      HostAt(start, hosts, i);
    }
    hide HostOf;
    if start + 7 == hosts && start == 1 {
      assert HostOf(start, hosts, 0) == HostOf(start, hosts, 7);
    } else if start + 7 > hosts {
      assert HostOf(start, hosts, hosts - start) == HostOf(start, hosts, hosts - start + 1);
    }
  }

  lemma HostAt(start: nat, hosts: nat, i: nat)
    requires 1 <= start <= hosts
    ensures start + i <= hosts ==> HostOf(start, hosts, i) == if start + i == hosts then 1 else start + i
    ensures start + i == hosts + 1 ==> HostOf(start, hosts, i) == 1
  {
    hide Mod;
    if start + i < 2 * hosts {
      ModOnce(start + i, hosts);
    }
  }

  lemma HostLap(start: nat, hosts: nat, i: nat)
    requires 1 <= start < hosts && start + i < 2 * hosts
    ensures HostOf(start, hosts, i) ==
      if start + i < hosts then start + i else if start + i == hosts then 1 else start + i - hosts
  {
    hide Mod;
    ModOnce(start + i, hosts);
  }

  /** The server's own address is outside of the pool exactly if the subnet is large enough. */
  lemma ServerOutside(host: nat, hosts: nat)
    requires 1 <= host < hosts
    ensures (forall i: nat :: i < CLIENTS ==> HostOf(HostOf(host, hosts, 1), hosts, i) != host)
       <==> hosts > 9 || (hosts == 9 && host != 1 && host != 8)
  {
    HostLap(host, hosts, 1);
    var start := HostOf(host, hosts, 1);
    if hosts > 9 || (hosts == 9 && host != 1 && host != 8) {
      forall i: nat | i < CLIENTS
        ensures HostOf(start, hosts, i) != host
      {
        HostLap(start, hosts, i);
      }
    } else {
      var i: nat := if host + 1 == hosts || host == 1 then hosts - 2 else hosts - 1;
      HostLap(start, hosts, i);
      assert HostOf(start, hosts, i) == host;
    }
  }

  /** The table the server starts with. */
  function StartTable(net: nat, host: nat, hosts: nat): Table
    requires hosts > 0
  {
    seq(CLIENTS, i requires 0 <= i < CLIENTS =>
      Client(IDLE, 0, net + HostOf(HostOf(host, hosts, 1), hosts, i), 0, LEASE))
  }

  /** It meets the invariant, and its addresses differ exactly if the pool does not wrap. */
  lemma StartsDistinct(net: nat, host: nat, hosts: nat)
    requires hosts > 0
    ensures Inv(StartTable(net, host, hosts))
    ensures var start := HostOf(host, hosts, 1);
      Distinct(StartTable(net, host, hosts)) <==> start + 7 < hosts || (start + 7 == hosts && start != 1)
  {
    var start := HostOf(host, hosts, 1);
    assert 1 <= start <= hosts;
    PoolDistinct(start, hosts);
    var t := StartTable(net, host, hosts);
    forall i: nat, j: nat | i < CLIENTS && j < CLIENTS
      ensures t[i].ip == t[j].ip <==> HostOf(start, hosts, i) == HostOf(start, hosts, j)
    {
    }
    hide HostOf;
    if Distinct(t) {
      forall i: nat, j: nat | i < j < CLIENTS
        ensures HostOf(start, hosts, i) != HostOf(start, hosts, j)
      {
        assert t[i].ip != t[j].ip;
      }
    }
  }

  // ----- the server ------------------------------------------------------------------------------

  class Server {
    const serverIp: nat
    var enable: bool
    const clients: array<Client>

    ghost predicate Valid()
      reads this, clients
    {
      Inv(clients[..])
    }

    /** DHCPS_Start, for a server with host part `host` in a subnet with host mask `hosts`. */
    constructor (net: nat, host: nat, hosts: nat)
      requires hosts > 0 && host <= hosts
      ensures Valid() && fresh(clients) && serverIp == net + host && enable
      ensures clients[..] == StartTable(net, host, hosts)
    {
      serverIp, enable := net + host, true;
      var start := HostOf(host, hosts, 1);
      clients := new Client[CLIENTS](i requires i >= 0 => Client(IDLE, 0, net + HostOf(start, hosts, i), 0, LEASE));
    }

    /** DHCPS_Stop. */
    method Stop()
      modifies this, clients
      ensures !enable && forall i :: 0 <= i < clients.Length ==> clients[i] == Client(IDLE, 0, 0, 0, 0)
    {
      enable := false;
      forall i | 0 <= i < clients.Length {
        clients[i] := Client(IDLE, 0, 0, 0, 0);
      }
    }

    /** The loop of _ClientTableLookup over the table. */
    method Scan(mac: nat, req: nat)
      returns (mine: Option<nat>, want: Option<nat>, myHistory: Option<nat>, free: Option<nat>, history: Option<nat>,
               unavailable: bool)
      requires Valid()
      ensures mine == Find(clients[..], Mine, mac, req) && want == Find(clients[..], Requested, mac, req)
      ensures myHistory == Find(clients[..], MyHistory, mac, req) && free == Find(clients[..], Unused, mac, req)
      ensures history == Find(clients[..], History, mac, req)
      ensures unavailable <==> Find(clients[..], Taken, mac, req).Some?
    {
      hide First, Is, Inv;
      mine, want, myHistory, free, history, unavailable := None, None, None, None, None, false;
      ghost var t := clients[..];
      FirstNone(t, mac, req);
      for i := 0 to clients.Length
        invariant clients[..] == t
        invariant free == First(t, i, Unused, mac, req) && want == First(t, i, Requested, mac, req)
        invariant myHistory == First(t, i, MyHistory, mac, req) && history == First(t, i, History, mac, req)
        invariant mine == First(t, i, Mine, mac, req)
        invariant unavailable <==> First(t, i, Taken, mac, req).Some?
      {
        var c := clients[i];
        assert c == t[i];
        FirstNext(t, i, mac, req);
        KindOf(c, mac, req);
        if c.state == IDLE {
          if myHistory.None? && c.mac == mac {
            myHistory := Some(i);
          }
          if want.None? && c.ip == req {
            want := Some(i);
          }
          if free.None? && c.mac == 0 {
            free := Some(i);
          }
          if history.None? && c.mac != 0 {
            history := Some(i);
          }
        } else if c.mac == mac {
          OneMine(t, i, mac, req);
          mine := Some(i);
        } else if c.ip == req {
          unavailable := true;
        }
      }
    }

    /** _ClientTableLookup. */
    method Lookup(mac: nat, m: MsgType, req: nat, serverId: nat) returns (r: Option<nat>)
      requires Valid() && mac != 0
      modifies clients
      ensures r == Entry(old(clients[..]), m, mac, req, serverId == 0 || serverId == serverIp)
      ensures r.Some? ==> r.value < clients.Length
      ensures clients[..] ==
        var t1 := LookedUp(old(clients[..]), m, mac, req);
        if r.Some? then t1[r.value := t1[r.value].(mac := mac)] else t1
    {
      hide First;
      var mine, want, myHistory, free, history, unavailable := Scan(mac, req);
      var ours := serverId == 0 || serverIp == serverId;
      r := None;
      if m == Discover {
        if mine.Some? {
          var j := mine.value;
          clients[j] := clients[j].(state := IDLE);
          if want.Some? {
            if clients[j].state != BIND {
              clients[j] := clients[j].(mac := 0);
            }
            r := want;
          } else {
            r := mine;
          }
        } else if want.Some? {
          r := want;
        } else if myHistory.Some? {
          r := myHistory;
        } else if free.Some? {
          r := free;
        } else {
          r := history;
        }
      } else if m == Request {
        if mine.Some? {
          if unavailable || want.Some? {
            GiveBack(mine.value);
          }
          if !unavailable && ours {
            r := if want.Some? then want else mine;
          }
        } else if !unavailable && ours {
          r := want;
        }
      } else if m == Release || m == Decline {
        if mine.Some? {
          GiveBack(mine.value);
        }
      }
      if r.Some? {
        clients[r.value] := clients[r.value].(mac := mac);
      }
    }

    /** The client's entry becomes idle; an address that was only offered leaves no history. */
    method GiveBack(j: nat)
      requires j < clients.Length
      modifies clients
      ensures clients[..] == old(clients[..])[j := GivenBack(old(clients[j]))]
    {
      if clients[j].state != BIND {
        clients[j] := clients[j].(mac := 0);
      }
      clients[j] := clients[j].(state := IDLE);
    }

    /** _CleanClientHistory. */
    method CleanHistory(mac: nat)
      modifies clients
      ensures clients[..] == Cleaned(old(clients[..]), mac)
    {
      ghost var t := clients[..];
      for i := 0 to clients.Length
        invariant forall k :: 0 <= k < clients.Length ==> clients[k] == if k < i then Cleaned(t, mac)[k] else t[k]
      {
        if clients[i].state == IDLE && clients[i].mac == mac {
          clients[i] := clients[i].(mac := 0);
        }
      }
    }

    /** _DhcpClientSMEHandle, for the entry that the lookup has found. */
    method ClientSme(j: nat, m: MsgType) returns (a: Answer)
      requires j < clients.Length && (m == Discover || m == Request)
      requires clients[j].state != SELECT && (m == Discover ==> clients[j].state == IDLE)
      modifies clients
      ensures a == if m == Discover then Offer(old(clients[j]).ip, old(clients[j]).mac)
                   else Ack(old(clients[j]).ip, old(clients[j]).mac)
      ensures clients[..] ==
        var t, c := old(clients[..]), old(clients[j]);
        if m == Discover then t[j := c.(timeout := TIMEOUT, state := REQUEST)]
        else Cleaned(t[j := c.(lease := LEASE, state := BIND)], c.mac)
    {
      ghost var t := clients[..];
      var c := clients[j];
      if c.state == IDLE && m == Discover {
        clients[j] := c.(state := SELECT);
      }
      if clients[j].state == SELECT {
        a := Offer(c.ip, c.mac);
        clients[j] := clients[j].(timeout := TIMEOUT);
        clients[j] := clients[j].(state := REQUEST);
      } else {
        a := Ack(c.ip, c.mac);
        clients[j] := c.(lease := LEASE);
        clients[j] := clients[j].(state := BIND);
        CleanHistory(c.mac);
      }
    }

    /** DHCPS_RecvCb, for a well-formed message. */
    method RecvCb(m: MsgType, mac: nat, req: nat, serverId: nat) returns (a: Answer)
      requires Valid() && mac != 0
      modifies clients
      ensures Valid() && OthersKept(old(clients[..]), clients[..], mac)
      ensures clients[..] == Served(old(clients[..]), m, mac, req, serverId == 0 || serverId == serverIp)
      ensures a == Answered(old(clients[..]), m, mac, req, serverId == 0 || serverId == serverIp)
    {
      hide Inv, First, LookedUp, Entry, Cleaned;
      ghost var t, ours := clients[..], serverId == 0 || serverId == serverIp;
      ServedInv(t, m, mac, req, ours);
      LookedUpInv(t, m, mac, req);
      var r := Lookup(mac, m, req, serverId);
      if r.None? {
        if m != Release && m != Decline {
          return Nak(mac);
        }
        return Silence;
      }
      EntryFree(t, m, mac, req, ours);
      FoundIdle(t, m, mac, req, ours);
      ghost var i, t1 := r.value, LookedUp(t, m, mac, req);
      ghost var c := t1[i].(mac := mac);
      assert clients[i] == c && c.ip == t[i].ip;
      ghost var offered, bound := c.(timeout := TIMEOUT, state := REQUEST), c.(lease := LEASE, state := BIND);
      assert t1[i := c][i := offered] == t1[i := offered];
      assert t1[i := c][i := bound] == t1[i := bound];
      a := ClientSme(r.value, m);
    }

    /** _DhcpTickHandle. */
    method Tick(present: set<nat>)
      requires Valid()
      modifies clients
      ensures Valid()
      ensures clients[..] == if enable then TickedTable(old(clients[..]), present) else old(clients[..])
    {
      if !enable {
        return;
      }
      ghost var t := clients[..];
      NextInv(t, Event.Tick(present));
      hide Ticked;
      for i := 0 to clients.Length
        invariant forall k :: 0 <= k < clients.Length ==> clients[k] == if k < i then Ticked(t[k], present) else t[k]
      {
        TickEntry(i, present);
      }
      assert clients[..] == TickedTable(t, present);
    }

    /** One entry in _DhcpTickHandle. */
    method TickEntry(i: nat, present: set<nat>)
      requires i < clients.Length
      modifies clients
      ensures clients[i] == Ticked(old(clients[i]), present)
      ensures forall k :: 0 <= k < clients.Length && k != i ==> clients[k] == old(clients[k])
    {
      var c := clients[i];
      if c.state == REQUEST {
        if c.timeout > 0 {
          clients[i] := c.(timeout := c.timeout - 1);
          if clients[i].timeout == 0 {
            clients[i] := clients[i].(mac := 0, state := IDLE);
          }
        }
      } else if c.state == BIND {
        if c.lease > 0 {
          clients[i] := c.(lease := c.lease - 1);
        }
        if c.lease > 0 && clients[i].lease == 0 {
          clients[i] := clients[i].(state := IDLE);
        } else if clients[i].mac !in present {
          clients[i] := clients[i].(state := IDLE);
        }
      }
    }

    /** DHCPS_ClientDelete: 0, or the error for a server that is stopped, a missing address, and a
        client that is unknown or still negotiating. */
    method ClientDelete(address: Option<nat>) returns (err: int)
      requires Valid()
      modifies clients
      ensures Valid()
      ensures clients[..] ==
        if enable && address.Some? then Deleted(old(clients[..]), address.value) else old(clients[..])
      ensures err ==
        if !enable then -6 else if address.None? then -2
        else if Holds(old(clients[..]), BIND, address.value) then 0
        else if Holds(old(clients[..]), REQUEST, address.value) then -4 else -5
    {
      if !enable {
        return -6;
      }
      if address.None? {
        return -2;
      }
      var mac := address.value;
      ghost var t := clients[..];
      NextInv(t, Delete(mac));
      for i := 0 to clients.Length
        invariant clients[..] == t
        invariant forall k :: 0 <= k < i ==> !Is(t[k], Mine, mac, 0)
      {
        if clients[i].state != IDLE && clients[i].mac == mac {
          MineUnique(t, mac, 0, i);
          assert t[i].state == BIND || t[i].state == REQUEST;
          HoldsOne(t, i);
          if clients[i].state != BIND {
            return -4;
          }
          clients[i] := clients[i].(state := IDLE);
          return 0;
        }
      }
      err := -5;
    }
  }

  /** A client's entry in a certain state. */
  ghost predicate Holds(t: Table, state: ClientState, mac: nat) {
    exists i :: 0 <= i < |t| && t[i].state == state && t[i].mac == mac
  }

  lemma HoldsOne(t: Table, i: nat)
    requires Inv(t) && i < |t| && t[i].state != IDLE
    ensures forall state :: state != IDLE ==> (Holds(t, state, t[i].mac) <==> t[i].state == state)
  {
  }

  lemma OneMine(t: Table, i: nat, mac: nat, req: nat)
    requires Inv(t) && i < |t| && Is(t[i], Mine, mac, req)
    ensures First(t, i, Mine, mac, req).None?
  {
  }

  /** A discover works on an idle entry, and no entry is left in SELECT. */
  lemma FoundIdle(t: Table, m: MsgType, mac: nat, req: nat, ours: bool)
    requires Inv(t) && mac != 0 && Entry(t, m, mac, req, ours).Some?
    ensures var i, t1 := Entry(t, m, mac, req, ours).value, LookedUp(t, m, mac, req);
      i < |t1| && t1[i].state != SELECT && (m == Discover ==> t1[i].state == IDLE) && t1[i].ip == t[i].ip
  {
    LookedUpInv(t, m, mac, req);
    EntryFree(t, m, mac, req, ours);
  }
}
