/** The walks of tcp_fasttmr and tcp_slowtmr over the list of active control blocks (tcp.c), while
    callbacks open and close connections.  What serving a block does is the subject of TcpPcb;
    here it matters which blocks are served, which stay listed, and whether the walk ends.
    The stamp of a block is set by tcp_alloc and by the timers only, and tcp_connect makes a block
    active long after tcp_alloc, so any block may carry any value of the 8-bit counter. */
module TcpTimers {
  import opened Options

  /** An active block and the tick in which a timer last served it, or it was allocated. */
  datatype Block = Block(id: nat, lastTimer: nat)

  /** What a callback does to the list, which sets tcp_active_pcbs_changed: blocks that become
      active go to the front, with the stamps they have. */
  datatype Change = Change(added: seq<Block>, gone: set<nat>)

  function Kept(list: seq<Block>, gone: set<nat>): seq<Block> {
    if list == [] then [] else (if list[0].id in gone then [] else [list[0]]) + Kept(list[1..], gone)
  }

  function Changed(list: seq<Block>, c: Change): seq<Block> {
    c.added + Kept(list, c.gone)
  }

  predicate AllIn(list: seq<Block>, ids: set<nat>) {
    forall i :: 0 <= i < |list| ==> list[i].id in ids
  }

  predicate Stamped(list: seq<Block>, tick: nat) {
    forall i :: 0 <= i < |list| ==> list[i].lastTimer == tick
  }

  predicate Unstamped(list: seq<Block>, tick: nat) {
    forall i :: 0 <= i < |list| ==> list[i].lastTimer != tick
  }

  /** The list when its first n blocks have been served. */
  function Served(list: seq<Block>, n: nat, tick: nat): (r: seq<Block>)
    requires n <= |list|
    ensures |r| == |list|
  {
    seq(|list|, i requires 0 <= i < |list| => if i < n then list[i].(lastTimer := tick) else list[i])
  }

  lemma {:induction false} KeptAppend(a: seq<Block>, b: seq<Block>, gone: set<nat>)
    ensures Kept(a + b, gone) == Kept(a, gone) + Kept(b, gone)
  {
    if a == [] {
      assert a + b == b;
    } else {
      assert (a + b)[1..] == a[1..] + b;
      KeptAppend(a[1..], b, gone);
    }
  }

  lemma {:induction false} KeptStamps(list: seq<Block>, gone: set<nat>, tick: nat)
    ensures |Kept(list, gone)| <= |list|
    ensures Stamped(list, tick) ==> Stamped(Kept(list, gone), tick)
    ensures Unstamped(list, tick) ==> Unstamped(Kept(list, gone), tick)
    ensures Kept(list, gone) == [] <==> AllIn(list, gone)
    ensures gone == {} ==> Kept(list, gone) == list
  {
    if list != [] {
      KeptStamps(list[1..], gone, tick);
      assert list == [list[0]] + list[1..];
    }
  }

  lemma UnstampedAppend(a: seq<Block>, b: seq<Block>, tick: nat)
    ensures Unstamped(a + b, tick) <==> Unstamped(a, tick) && Unstamped(b, tick)
  {
    if Unstamped(a + b, tick) {
      assert forall i :: 0 <= i < |a| ==> (a + b)[i] == a[i];
      assert forall i :: 0 <= i < |b| ==> (a + b)[|a| + i] == b[i];
    }
  }

  // ----- tcp_fasttmr ---------------------------------------------------------------------------

  datatype Walk = Walk(list: seq<Block>, at: nat)

  /** One iteration; `change` is what the callback that is offered refused data does to the
      list.  From a block that carries this tick the loop does not go on to the next one. */
  function FastStep(w: Walk, tick: nat, change: Option<Change>): Walk
    requires w.at < |w.list|
  {
    var b := w.list[w.at];
    var served := w.list[w.at := b.(lastTimer := tick)];
    if b.lastTimer == tick then w
    else if change.Some? then Walk(Changed(served, change.value), 0)
    else Walk(served, w.at + 1)
  }

  /** The loop is at a block that carries this tick. */
  predicate Spins(w: Walk, tick: nat) {
    w.at < |w.list| && w.list[w.at].lastTimer == tick
  }

  function FirstOf(changes: seq<Option<Change>>): Option<Change> {
    if changes == [] then None else changes[0]
  }

  function Later(changes: seq<Option<Change>>): seq<Option<Change>> {
    if changes == [] then [] else changes[1..]
  }

  /** The walk until it ends or spins; blocks served after the last of `changes` change nothing. */
  function FastRun(w: Walk, tick: nat, changes: seq<Option<Change>>): Walk
    decreases |changes|, |w.list| - w.at
  {
    if w.at >= |w.list| || Spins(w, tick) then w
    else FastRun(FastStep(w, tick, FirstOf(changes)), tick, Later(changes))
  }

  /** The first block of this pass whose callback changes the list, if the walk gets there. */
  function Until(changes: seq<Option<Change>>): (j: nat)
    ensures j <= |changes| && (j < |changes| ==> changes[j].Some?)
  {
    if changes == [] || changes[0].Some? then 0 else 1 + Until(changes[1..])
  }

  /** In no pass the walk comes to a block that carries this tick: a pass covers the list up to
      the first block whose callback changes it, and the next pass covers what that one left. */
  predicate Clear(list: seq<Block>, tick: nat, changes: seq<Option<Change>>)
    decreases |changes|
  {
    var j := Until(changes);
    if j >= |changes| || j >= |list| then Unstamped(list, tick)
    else
      && Unstamped(list[..j + 1], tick)
      && Clear(Changed(Served(list, j + 1, tick), changes[j].value), tick, changes[j + 1..])
  }

  /** From a block that carries this tick the loop never goes on, whatever happens. */
  lemma SpinsForever(w: Walk, tick: nat, change: Option<Change>)
    requires Spins(w, tick)
    ensures FastStep(w, tick, change) == w
  {
  }

  /** One pass of the walk from its n-th block on. */
  lemma {:induction false} PassRun(list: seq<Block>, n: nat, tick: nat, changes: seq<Option<Change>>)
    requires n <= |list|
    ensures var r, j := FastRun(Walk(Served(list, n, tick), n), tick, changes), n + Until(changes);
      if n + |changes| <= j || |list| <= j then
        if Unstamped(list[n..], tick) then r == Walk(Served(list, |list|, tick), |list|) else Spins(r, tick)
      else if Unstamped(list[n..j + 1], tick) then
        r == FastRun(Walk(Changed(Served(list, j + 1, tick), changes[j - n].value), 0), tick, changes[j - n + 1..])
      else Spins(r, tick)
    decreases |list| - n
  {
    hide Unstamped, Changed, Kept;
    if n == |list| {
      assert list[n..] == [];
      NoneUnstamped(tick);
    } else {
      PassParts(list, n, n + Until(changes), tick);
      ServedNext(list, n, tick);
      if list[n].lastTimer != tick && FirstOf(changes).None? {
        PassRun(list, n + 1, tick, Later(changes));
      }
    }
  }

  lemma NoneUnstamped(tick: nat)
    ensures Unstamped([], tick)
  {
  }

  lemma ServedNext(list: seq<Block>, n: nat, tick: nat)
    requires n < |list|
    ensures Served(list, n, tick)[n] == list[n]
    ensures Served(list, n, tick)[n := list[n].(lastTimer := tick)] == Served(list, n + 1, tick)
  {
  }

  lemma PassParts(list: seq<Block>, n: nat, j: nat, tick: nat)
    requires n < |list|
    ensures Unstamped(list[n..], tick) <==> list[n].lastTimer != tick && Unstamped(list[n + 1..], tick)
    ensures n <= j < |list| ==>
      (Unstamped(list[n..j + 1], tick) <==> list[n].lastTimer != tick && Unstamped(list[n + 1..j + 1], tick))
    ensures Unstamped(list[n..n + 1], tick) <==> list[n].lastTimer != tick
  {
    assert list[n..] == [list[n]] + list[n + 1..];
    UnstampedAppend([list[n]], list[n + 1..], tick);
    if n <= j < |list| {
      assert list[n..j + 1] == [list[n]] + list[n + 1..j + 1];
      UnstampedAppend([list[n]], list[n + 1..j + 1], tick);
    }
  }

  /** For every list and all callbacks: the fast timer returns if and only if the walk comes to
      no block that carries the tick, and otherwise it loops for ever. */
  lemma {:induction false} FastReturns(list: seq<Block>, tick: nat, changes: seq<Option<Change>>)
    ensures var w := FastRun(Walk(list, 0), tick, changes);
      if Clear(list, tick, changes) then w.at == |w.list| else Spins(w, tick)
    decreases |changes|
  {
    var j := Until(changes);
    assert Served(list, 0, tick) == list && list[0..] == list;
    assert j < |list| ==> list[0..j + 1] == list[..j + 1];
    PassRun(list, 0, tick, changes);
    if j < |changes| && j < |list| && Unstamped(list[..j + 1], tick) {
      FastReturns(Changed(Served(list, j + 1, tick), changes[j].value), tick, changes[j + 1..]);
    }
  }

  /** Without a change the fast timer returns exactly if no block carries the tick. */
  lemma UnchangedReturns(list: seq<Block>, tick: nat)
    ensures FastRun(Walk(list, 0), tick, []).at == |FastRun(Walk(list, 0), tick, []).list| <==> Unstamped(list, tick)
  {
    FastReturns(list, tick, []);
  }

  /** A block allocated when the counter was `stamp` that becomes active 255 ticks later: with no
      callback at all the next fast timer does not return. */
  lemma StaleStampSpins(stamp: nat, id: nat)
    requires stamp < 0x100
    ensures var tick := ((stamp + 255) % 0x100 + 1) % 0x100;
      Spins(FastRun(Walk([Block(id, stamp)], 0), tick, []), tick)
  {
    FastReturns([Block(id, stamp)], stamp, []);
    assert [Block(id, stamp)][0].lastTimer == stamp;
  }

  /** If one callback changes the list, at block j, the walk ends exactly if every block served
      before is closed, and none that is opened or was not yet served carries the tick. */
  lemma RestartReturns(list: seq<Block>, tick: nat, changes: seq<Option<Change>>)
    requires Until(changes) < |changes| && Until(changes) < |list|
    requires var later := changes[Until(changes) + 1..]; Until(later) == |later|
    requires Unstamped(list[..Until(changes) + 1], tick)
    ensures var j, w := Until(changes), FastRun(Walk(list, 0), tick, changes);
      var c := changes[j].value;
      w.at == |w.list| <==>
        AllIn(list[..j + 1], c.gone) && Unstamped(c.added, tick) && Unstamped(Kept(list[j + 1..], c.gone), tick)
  {
    var j := Until(changes);
    var c, front, back := changes[j].value, Served(list, j + 1, tick)[..j + 1], list[j + 1..];
    assert Served(list, j + 1, tick) == front + back;
    FastReturns(list, tick, changes);
    assert Clear(list, tick, changes) <==> Unstamped(Changed(front + back, c), tick);
    assert Stamped(front, tick);
    SameIds(front, list[..j + 1], c.gone);
    hide *;
    ChangedStamps(front, back, c, tick);
  }

  lemma ChangedStamps(front: seq<Block>, back: seq<Block>, c: Change, tick: nat)
    requires Stamped(front, tick)
    ensures Unstamped(Changed(front + back, c), tick) <==>
      AllIn(front, c.gone) && Unstamped(c.added, tick) && Unstamped(Kept(back, c.gone), tick)
  {
    KeptAppend(front, back, c.gone);
    KeptStamps(front, c.gone, tick);
    UnstampedAppend(c.added, Kept(front, c.gone) + Kept(back, c.gone), tick);
    UnstampedAppend(Kept(front, c.gone), Kept(back, c.gone), tick);
    BothStamps(Kept(front, c.gone), tick);
  }

  lemma BothStamps(list: seq<Block>, tick: nat)
    requires Stamped(list, tick)
    ensures Unstamped(list, tick) <==> list == []
  {
    assert list != [] ==> list[0].lastTimer == tick;
  }

  lemma SameIds(a: seq<Block>, b: seq<Block>, ids: set<nat>)
    requires |a| == |b| && forall j :: 0 <= j < |a| ==> a[j].id == b[j].id
    ensures AllIn(a, ids) <==> AllIn(b, ids)
  {
    if AllIn(b, ids) {
      assert forall j :: 0 <= j < |a| ==> b[j].id in ids;
    } else {
      var j :| 0 <= j < |b| && b[j].id !in ids;
      assert a[j].id !in ids;
    }
  }

  /** A callback that opens a connection on a block allocated in this tick leaves the loop at
      that block, whatever follows. */
  lemma OpeningSpins(list: seq<Block>, tick: nat, changes: seq<Option<Change>>)
    requires Until(changes) < |changes| && Until(changes) < |list|
    requires var c := changes[Until(changes)].value; c.added != [] && c.added[0].lastTimer == tick
    ensures Spins(FastRun(Walk(list, 0), tick, changes), tick)
  {
    var j := Until(changes);
    var next, later := Changed(Served(list, j + 1, tick), changes[j].value), changes[j + 1..];
    assert next[0].lastTimer == tick;
    FastReturns(list, tick, changes);
    HeadUnclear(next, tick, later);
  }

  lemma HeadUnclear(list: seq<Block>, tick: nat, changes: seq<Option<Change>>)
    requires list != [] && list[0].lastTimer == tick
    ensures !Clear(list, tick, changes)
  {
    var j := Until(changes);
    if j < |list| {
      assert list[..j + 1][0] == list[0];
    }
  }

  /** One allocated earlier need not: the callback closes its own connection and opens another. */
  lemma OpeningReturns()
    ensures FastRun(Walk([Block(1, 0)], 0), 1, [Some(Change([Block(2, 0)], {1}))]) == Walk([Block(2, 1)], 1)
  {
    var c := Change([Block(2, 0)], {1});
    var w := Walk([Block(1, 0)], 0);
    KeptStamps([Block(1, 1)], {1}, 1);
    assert AllIn([Block(1, 1)], {1});
    assert Kept([Block(1, 1)], {1}) == [] && w.list[0 := Block(1, 1)] == [Block(1, 1)];
    assert FastStep(w, 1, Some(c)) == Walk([Block(2, 0)], 0);
    assert Later([Some(c)]) == [];
    assert FastStep(Walk([Block(2, 0)], 0), 1, None) == Walk([Block(2, 1)], 1);
    assert FastRun(Walk([Block(2, 1)], 1), 1, []) == Walk([Block(2, 1)], 1);
    assert FastRun(Walk([Block(2, 0)], 0), 1, []) == Walk([Block(2, 1)], 1);
  }

  // ----- tcp_slowtmr ---------------------------------------------------------------------------

  /** What happens to a block that is served: whether the timer removes it, and what the error
      or poll callback does to the list. */
  datatype Turn = Turn(remove: bool, change: Option<Change>)

  /** `prev` is the block behind which a block would be removed; `served` are the blocks served. */
  datatype Pass = Pass(list: seq<Block>, at: nat, prev: Option<nat>, served: seq<nat>)

  predicate Inside(p: Pass) {
    p.at < |p.list| && (p.prev.Some? ==> p.prev.value < p.at)
  }

  /** One iteration.  A block that carries this tick is skipped, and prev is left behind. */
  function SlowStep(p: Pass, tick: nat, t: Turn): Pass
    requires Inside(p)
  {
    var served := p.served + [p.list[p.at].id];
    if p.list[p.at].lastTimer == tick then p.(at := p.at + 1)
    else if t.change.Some? then Pass(Changed(Left(p, tick, t), t.change.value), 0, None, served)
    else if t.remove then Pass(Left(p, tick, t), |Before(p)|, p.prev, served)
    else Pass(Left(p, tick, t), p.at + 1, Some(p.at), served)
  }

  function Before(p: Pass): seq<Block>
    requires Inside(p)
  {
    if p.prev.Some? then p.list[..p.prev.value + 1] else []
  }

  /** The blocks skipped since prev. */
  function Skipped(p: Pass): seq<Block>
    requires Inside(p)
  {
    p.list[|Before(p)|..p.at]
  }

  /** The list without the block, if it is removed: what is behind it is linked to prev. */
  function Left(p: Pass, tick: nat, t: Turn): seq<Block>
    requires Inside(p)
  {
    if t.remove then Before(p) + p.list[p.at + 1..]
    else p.list[p.at := p.list[p.at].(lastTimer := tick)]
  }

  /** The list as it should be after this turn. */
  function Ideal(p: Pass, tick: nat, t: Turn): seq<Block>
    requires Inside(p)
  {
    var left := if t.remove then p.list[..p.at] + p.list[p.at + 1..]
                else p.list[p.at := p.list[p.at].(lastTimer := tick)];
    if t.change.Some? then Changed(left, t.change.value) else left
  }

  function ClosedBy(t: Turn): set<nat> {
    if t.change.Some? then t.change.value.gone else {}
  }

  /** For every list: a removal drops exactly the blocks skipped since prev with the block, so
      that the list is what it should be exactly if nothing is removed, or the callback closes
      all of those anyway. */
  lemma SlowStepExact(p: Pass, tick: nat, t: Turn)
    requires Inside(p) && p.list[p.at].lastTimer != tick
    ensures t.remove && t.change.None? ==>
      && SlowStep(p, tick, t).list == Before(p) + p.list[p.at + 1..]
      && Ideal(p, tick, t) == Before(p) + Skipped(p) + p.list[p.at + 1..]
    ensures SlowStep(p, tick, t).list == Ideal(p, tick, t) <==> (t.remove ==> AllIn(Skipped(p), ClosedBy(t)))
  {
    hide Kept, Changed;
    var front, skipped, back := Before(p), Skipped(p), p.list[p.at + 1..];
    assert p.list[..p.at] == front + skipped;
    if t.remove {
      if t.change.Some? {
        ChangedLoss(front, skipped, back, t.change.value);
      } else {
        assert |front + skipped + back| == |front + back| + |skipped|;
        assert skipped == [] ==> front + skipped == front;
        assert skipped != [] ==> skipped[0].id !in ClosedBy(t);
      }
    }
  }

  lemma ChangedLoss(front: seq<Block>, skipped: seq<Block>, back: seq<Block>, c: Change)
    ensures Changed(front + back, c) == Changed(front + skipped + back, c) <==> AllIn(skipped, c.gone)
  {
    KeptAppend(front, back, c.gone);
    KeptAppend(front, skipped, c.gone);
    KeptAppend(front + skipped, back, c.gone);
    KeptStamps(skipped, c.gone, 0);
    hide Kept;
    var a, b, d := Kept(front, c.gone), Kept(skipped, c.gone), Kept(back, c.gone);
    assert |c.added + (a + b + d)| == |c.added + (a + d)| + |b|;
    assert b == [] ==> a + b == a;
  }

  function FirstTurn(turns: seq<Turn>): Turn {
    if turns == [] then Turn(false, None) else turns[0]
  }

  function LaterTurns(turns: seq<Turn>): seq<Turn> {
    if turns == [] then [] else turns[1..]
  }

  /** The walk with a turn for each block that is served, in order; behind the last of `turns`
      nothing happens. */
  function SlowRun(p: Pass, tick: nat, turns: seq<Turn>): Pass
    decreases |turns|, |p.list| - p.at
  {
    if !Inside(p) then p
    else if p.list[p.at].lastTimer == tick then SlowRun(p.(at := p.at + 1), tick, turns)
    else SlowRun(SlowStep(p, tick, FirstTurn(turns)), tick, LaterTurns(turns))
  }

  function AddedBy(turns: seq<Turn>): set<Block> {
    set t, b | t in turns && t.change.Some? && b in t.change.value.added :: b
  }

  /** What lies behind carries the tick, and what carries it was served or is in `stale`. */
  predicate Passing(p: Pass, tick: nat, stale: set<Block>) {
    && p.at <= |p.list| && (p.prev.Some? ==> p.prev.value < p.at) && Stamped(p.list[..p.at], tick)
    && forall b :: b in p.list && b.lastTimer == tick ==> b.id in p.served || b in stale
  }

  lemma PassingStep(p: Pass, tick: nat, t: Turn, stale: set<Block>)
    requires Passing(p, tick, stale) && Inside(p)
    requires t.change.Some? ==> forall b :: b in t.change.value.added ==> b in stale
    ensures Passing(SlowStep(p, tick, t), tick, stale)
  {
    hide Kept, Changed, AddedBy;
    var b := p.list[p.at];
    if b.lastTimer == tick {
      assert p.list[..p.at + 1] == p.list[..p.at] + [b];
    } else {
      LeftMembers(p, tick, t);
      LeftStamps(p, tick, t);
      hide Left;
      if t.change.Some? {
        ChangedMembers(Left(p, tick, t), t.change.value);
      }
    }
  }

  lemma LeftStamps(p: Pass, tick: nat, t: Turn)
    requires Inside(p) && Stamped(p.list[..p.at], tick)
    ensures var n := if t.remove then |Before(p)| else p.at + 1;
      n <= |Left(p, tick, t)| && Stamped(Left(p, tick, t)[..n], tick)
  {
    if t.remove {
      assert Left(p, tick, t)[..|Before(p)|] == Before(p);
      assert forall i :: 0 <= i < |Before(p)| ==> Before(p)[i] == p.list[..p.at][i];
    } else {
      assert Left(p, tick, t)[..p.at + 1] == p.list[..p.at] + [p.list[p.at].(lastTimer := tick)];
    }
  }

  lemma ChangedMembers(list: seq<Block>, c: Change)
    ensures forall b :: b in Changed(list, c) ==> b in c.added || b in list
  {
    KeptMembers(list, c.gone);
  }

  lemma LeftMembers(p: Pass, tick: nat, t: Turn)
    requires Inside(p)
    ensures forall x :: x in Left(p, tick, t) ==> x in p.list || x == p.list[p.at].(lastTimer := tick)
  {
  }

  lemma {:induction false} KeptMembers(list: seq<Block>, gone: set<nat>)
    ensures forall b :: b in Kept(list, gone) ==> b in list
  {
    if list != [] {
      KeptMembers(list[1..], gone);
    }
  }

  /** For every list and all callbacks the slow timer returns; then each active block carries the
      tick, because it was served, or because it did so already when it was listed. */
  lemma {:induction false} SlowReturns(p: Pass, tick: nat, turns: seq<Turn>, stale: set<Block>)
    requires Passing(p, tick, stale) && AddedBy(turns) <= stale
    ensures var p' := SlowRun(p, tick, turns);
      && p'.at == |p'.list| && Stamped(p'.list, tick)
      && forall b :: b in p'.list ==> b.id in p'.served || b in stale
    decreases |turns|, |p.list| - p.at
  {
    if p.at == |p.list| {
      assert p.list[..p.at] == p.list;
    } else {
      var t := FirstTurn(turns);
      assert t.change.Some? ==> t in turns;
      PassingStep(p, tick, t, stale);
      if p.list[p.at].lastTimer == tick {
        SlowReturns(p.(at := p.at + 1), tick, turns, stale);
      } else {
        assert forall u :: u in LaterTurns(turns) ==> u in turns;
        SlowReturns(SlowStep(p, tick, t), tick, LaterTurns(turns), stale);
      }
    }
  }

  // ----- a slow timer without changes --------------------------------------------------------------

  /** The blocks to be served. */
  function Due(list: seq<Block>, tick: nat): seq<nat> {
    if list == [] then [] else (if list[0].lastTimer == tick then [] else [list[0].id]) + Due(list[1..], tick)
  }

  /** Blocks in `dead` are to be removed. */
  function Turns(ids: seq<nat>, dead: set<nat>): seq<Turn> {
    seq(|ids|, i requires 0 <= i < |ids| => Turn(ids[i] in dead, None))
  }

  /** The next block that is served is removed. */
  predicate Doomed(list: seq<Block>, tick: nat, dead: set<nat>) {
    list != [] && if list[0].lastTimer == tick then Doomed(list[1..], tick, dead) else list[0].id in dead
  }

  /** What stays: blocks before which no served block is removed next. */
  function Remaining(list: seq<Block>, tick: nat, dead: set<nat>): seq<Block> {
    if list == [] then []
    else (if Doomed(list, tick, dead) then [] else [list[0].(lastTimer := tick)]) + Remaining(list[1..], tick, dead)
  }

  /** What should stay: all but the served blocks that are to be removed. */
  function Wanted(list: seq<Block>, tick: nat, dead: set<nat>): seq<Block> {
    if list == [] then []
    else (if list[0].lastTimer != tick && list[0].id in dead then [] else [list[0].(lastTimer := tick)])
         + Wanted(list[1..], tick, dead)
  }

  /** For every list: the blocks that do not carry the tick are served, once and in order, and
      what stays is Remaining. */
  lemma SlowKeeps(list: seq<Block>, tick: nat, dead: set<nat>)
    ensures var p := SlowRun(Pass(list, 0, None, []), tick, Turns(Due(list, tick), dead));
      p.list == Remaining(list, tick, dead) && p.served == Due(list, tick)
  {
    assert PassAt([], [], list, []) == Pass(list, 0, None, []);
    SlowKeepsFrom([], [], list, [], tick, dead);
  }

  /** The walk has kept `front`, skipped `skipped` and still has `rest` before it. */
  function PassAt(front: seq<Block>, skipped: seq<Block>, rest: seq<Block>, served: seq<nat>): Pass {
    Pass(front + (skipped + rest), |front| + |skipped|, if front == [] then None else Some(|front| - 1), served)
  }

  lemma {:induction false} SlowKeepsFrom(front: seq<Block>, skipped: seq<Block>, rest: seq<Block>, served: seq<nat>,
                                         tick: nat, dead: set<nat>)
    ensures var p := SlowRun(PassAt(front, skipped, rest, served), tick, Turns(Due(rest, tick), dead));
      && p.list == front + ((if Doomed(rest, tick, dead) then [] else skipped) + Remaining(rest, tick, dead))
      && p.served == served + Due(rest, tick)
    decreases |rest|
  {
    hide *;
    if rest == [] {
      KeepEnd(front, skipped, served, tick, dead);
    } else {
      var front', skipped', served' := KeepNext(front, skipped, rest, served, tick, dead);
      SlowKeepsFrom(front', skipped', rest[1..], served', tick, dead);
    }
  }

  lemma KeepEnd(front: seq<Block>, skipped: seq<Block>, served: seq<nat>, tick: nat, dead: set<nat>)
    ensures var p := SlowRun(PassAt(front, skipped, [], served), tick, Turns(Due([], tick), dead));
      && p.list == front + ((if Doomed([], tick, dead) then [] else skipped) + Remaining([], tick, dead))
      && p.served == served + Due([], tick)
  {
    assert served + [] == served;
  }

  /** One iteration of such a walk. */
  lemma KeepNext(front: seq<Block>, skipped: seq<Block>, rest: seq<Block>, served: seq<nat>, tick: nat, dead: set<nat>)
    returns (front': seq<Block>, skipped': seq<Block>, served': seq<nat>)
    requires rest != []
    ensures SlowRun(PassAt(front, skipped, rest, served), tick, Turns(Due(rest, tick), dead))
         == SlowRun(PassAt(front', skipped', rest[1..], served'), tick, Turns(Due(rest[1..], tick), dead))
    ensures front + ((if Doomed(rest, tick, dead) then [] else skipped) + Remaining(rest, tick, dead))
         == front' + ((if Doomed(rest[1..], tick, dead) then [] else skipped') + Remaining(rest[1..], tick, dead))
    ensures served + Due(rest, tick) == served' + Due(rest[1..], tick)
  {
    hide *;
    var p, b := PassAt(front, skipped, rest, served), rest[0].(lastTimer := tick);
    var due, r := Due(rest[1..], tick), Remaining(rest[1..], tick, dead);
    RestIs(rest, tick, dead);
    if rest[0].lastTimer == tick {
      KeepSkip(front, skipped, rest, served, tick, Turns(Due(rest, tick), dead));
      front', skipped', served' := front, skipped + [b], served;
      Regroup(skipped, [b], r);
    } else {
      TurnsFirst(rest[0].id, due, dead);
      KeepServe(front, skipped, rest, served, tick, Turns(Due(rest, tick), dead));
      served', skipped' := served + [rest[0].id], [];
      front' := if rest[0].id in dead then front else front + (skipped + [b]);
      Regroup(front, skipped + [b], r);
      Regroup(skipped, [b], r);
      assert served + [rest[0].id] + due == served + ([rest[0].id] + due);
    }
  }

  lemma Regroup(a: seq<Block>, b: seq<Block>, c: seq<Block>)
    ensures a + b + c == a + (b + c)
    ensures [] + c == c
  {
  }

  lemma RestIs(rest: seq<Block>, tick: nat, dead: set<nat>)
    requires rest != []
    ensures var b, r := rest[0].(lastTimer := tick), Remaining(rest[1..], tick, dead);
      var stamped := rest[0].lastTimer == tick;
      && Due(rest, tick) == (if stamped then Due(rest[1..], tick) else [rest[0].id] + Due(rest[1..], tick))
      && Doomed(rest, tick, dead) == (if stamped then Doomed(rest[1..], tick, dead) else rest[0].id in dead)
      && Remaining(rest, tick, dead) == (if Doomed(rest, tick, dead) then [] else [b]) + r
  {
  }

  lemma TurnsFirst(id: nat, ids: seq<nat>, dead: set<nat>)
    ensures Turns([id] + ids, dead) == [Turn(id in dead, None)] + Turns(ids, dead)
  {
  }

  lemma KeepSkip(front: seq<Block>, skipped: seq<Block>, rest: seq<Block>, served: seq<nat>,
                 tick: nat, turns: seq<Turn>)
    requires rest != [] && rest[0].lastTimer == tick
    ensures SlowRun(PassAt(front, skipped, rest, served), tick, turns)
         == SlowRun(PassAt(front, skipped + [rest[0].(lastTimer := tick)], rest[1..], served), tick, turns)
  {
    var p := PassAt(front, skipped, rest, served);
    assert p.list[p.at] == rest[0] && rest[0].(lastTimer := tick) == rest[0];
    assert skipped + rest == (skipped + [rest[0]]) + rest[1..];
  }

  lemma KeepServe(front: seq<Block>, skipped: seq<Block>, rest: seq<Block>, served: seq<nat>,
                  tick: nat, turns: seq<Turn>)
    requires rest != [] && rest[0].lastTimer != tick && turns != [] && turns[0].change.None?
    ensures SlowRun(PassAt(front, skipped, rest, served), tick, turns)
         == SlowRun(PassAt(if turns[0].remove then front else front + (skipped + [rest[0].(lastTimer := tick)]), [],
                           rest[1..], served + [rest[0].id]), tick, turns[1..])
  {
    hide PassAt, SlowStep;
    KeepStep(front, skipped, rest, served, tick, turns[0]);
  }

  lemma KeepStep(front: seq<Block>, skipped: seq<Block>, rest: seq<Block>, served: seq<nat>, tick: nat, t: Turn)
    requires rest != [] && rest[0].lastTimer != tick && t.change.None?
    ensures var p := PassAt(front, skipped, rest, served); Inside(p) && p.list[p.at] == rest[0]
    ensures SlowStep(PassAt(front, skipped, rest, served), tick, t)
         == PassAt(if t.remove then front else front + (skipped + [rest[0].(lastTimer := tick)]), [],
                   rest[1..], served + [rest[0].id])
  {
    hide Kept, Left, Before;
    LeftAt(front, skipped, rest, served, tick, t);
  }

  lemma LeftAt(front: seq<Block>, skipped: seq<Block>, rest: seq<Block>, served: seq<nat>, tick: nat, t: Turn)
    requires rest != []
    ensures var p := PassAt(front, skipped, rest, served);
      && Inside(p) && p.list[p.at] == rest[0] && |Before(p)| == |front|
      && Left(p, tick, t) ==
           (if t.remove then front else front + (skipped + [rest[0].(lastTimer := tick)])) + ([] + rest[1..])
      && |front + (skipped + [rest[0].(lastTimer := tick)])| == p.at + 1
  {
    AroundNext(front, skipped, rest, rest[0].(lastTimer := tick));
  }

  lemma AroundNext(front: seq<Block>, skipped: seq<Block>, rest: seq<Block>, b: Block)
    requires rest != []
    ensures var list, at := front + (skipped + rest), |front| + |skipped|;
      && list[at] == rest[0] && list[..|front|] == front
      && list[at := b] == front + (skipped + [b]) + ([] + rest[1..])
      && front + list[at + 1..] == front + ([] + rest[1..])
      && |front + (skipped + [b])| == at + 1 && [] + list[at + 1..] == [] + ([] + rest[1..])
  {
    var list, at := front + (skipped + rest), |front| + |skipped|;
    assert list[at + 1..] == rest[1..] && [] + rest[1..] == rest[1..];
  }

  /** Nothing else is dropped exactly if no block carries the tick in front of a block that is
      served next and removed. */
  lemma {:induction false} SlowKeepsExact(list: seq<Block>, tick: nat, dead: set<nat>)
    ensures |Remaining(list, tick, dead)| <= |Wanted(list, tick, dead)|
    ensures Remaining(list, tick, dead) == Wanted(list, tick, dead) <==>
      forall i :: 0 <= i < |list| && list[i].lastTimer == tick ==> !Doomed(list[i..], tick, dead)
  {
    if list != [] {
      var rest := list[1..];
      SlowKeepsExact(rest, tick, dead);
      assert list[0..] == list;
      forall i | 0 <= i < |rest|
        ensures rest[i] == list[i + 1] && rest[i..] == list[i + 1..]
      {
      }
      var b, r, w := [list[0].(lastTimer := tick)], Remaining(rest, tick, dead), Wanted(rest, tick, dead);
      hide Remaining, Wanted;
      SameTail(b, r, w);
    }
  }

  lemma SameTail(b: seq<Block>, r: seq<Block>, w: seq<Block>)
    ensures b + r == b + w <==> r == w
    ensures [] + r == r && [] + w == w
  {
    assert b + r == b + w ==> (b + r)[|b|..] == (b + w)[|b|..];
  }

  /** A block whose stamp is that of this tick is dropped together with the next one. */
  lemma StaleBlocksDropped()
    ensures SlowRun(Pass([Block(7, 1), Block(8, 0)], 0, None, []), 1, [Turn(true, None)]).list == []
    ensures SlowRun(Pass([Block(1, 0), Block(2, 1), Block(3, 0)], 0, None, []), 1,
                    [Turn(false, None), Turn(true, None)]).list == [Block(1, 1)]
  {
    var a := [Block(7, 1), Block(8, 0)];
    SlowKeeps(a, 1, {8});
    assert Due(a, 1) == [8] by {
      assert a[1..] == [Block(8, 0)] && a[1..][1..] == [];
    }
    assert Remaining(a, 1, {8}) == [] by {
      assert a[1..] == [Block(8, 0)] && a[1..][1..] == [];
    }
    assert Turns([8], {8}) == [Turn(true, None)];
    var c := [Block(1, 0), Block(2, 1), Block(3, 0)];
    SlowKeeps(c, 1, {3});
    assert c[1..] == [Block(2, 1), Block(3, 0)] && c[1..][1..] == [Block(3, 0)] && c[1..][1..][1..] == [];
    assert Due(c, 1) == [1, 3];
    assert Remaining(c, 1, {3}) == [Block(1, 1)];
    assert Turns([1, 3], {3}) == [Turn(false, None), Turn(true, None)];
  }

  /** The poll callback of the first of two connections opens a third; the second has timed out:
      the list loses all three. */
  lemma SlowLosesBlocks()
    ensures SlowRun(Pass([Block(1, 0), Block(2, 0)], 0, None, []), 1,
                    [Turn(false, Some(Change([Block(3, 1)], {}))), Turn(true, None)]).list == []
  {
    var t0, t1 := Turn(false, Some(Change([Block(3, 1)], {}))), Turn(true, None);
    var p := Pass([Block(1, 0), Block(2, 0)], 0, None, []);
    var p1 := SlowStep(p, 1, t0);
    KeptStamps([Block(1, 1), Block(2, 0)], {}, 1);
    assert p1 == Pass([Block(3, 1), Block(1, 1), Block(2, 0)], 0, None, [1]);
    var p2 := p1.(at := 2);
    assert SlowStep(p2, 1, t1) == Pass([], 0, None, [1, 2]);
    assert LaterTurns([t0, t1]) == [t1];
    assert SlowRun(p1, 1, [t1]) == SlowRun(p1.(at := 1), 1, [t1]) == SlowRun(p2, 1, [t1]);
  }

  // ----- the timers ------------------------------------------------------------------------------

  class Active {
    var pcbs: seq<Block>
    var timerCtr: nat

    ghost predicate Valid()
      reads this
    {
      timerCtr < 0x100
    }

    /** tcp_fasttmr; it does not return if it `spins`. */
    method FastTmr(changes: seq<Option<Change>>) returns (spins: bool)
      requires Valid()
      modifies this
      ensures Valid() && timerCtr == (old(timerCtr) + 1) % 0x100
      ensures spins <==> !Clear(old(pcbs), timerCtr, changes)
      ensures pcbs == FastRun(Walk(old(pcbs), 0), timerCtr, changes).list
    {
      hide Clear, Kept, Until;
      timerCtr := (timerCtr + 1) % 0x100;
      spins := false;
      var at: nat, n: nat := 0, 0;
      FastReturns(pcbs, timerCtr, changes);
      while at < |pcbs| && !spins
        invariant n <= |changes| && timerCtr == (old(timerCtr) + 1) % 0x100
        invariant FastRun(Walk(pcbs, at), timerCtr, changes[n..]) == FastRun(Walk(old(pcbs), 0), timerCtr, changes)
        invariant at <= |pcbs| && (spins ==> Spins(Walk(pcbs, at), timerCtr))
        decreases |changes| - n, |pcbs| - at, !spins
      {
        if pcbs[at].lastTimer != timerCtr {
          assert changes[n..] != [] ==> changes[n..][1..] == changes[n + 1..];
          pcbs := pcbs[at := pcbs[at].(lastTimer := timerCtr)];
          var change := if n < |changes| then changes[n] else None;
          if n < |changes| {
            n := n + 1;
          }
          if change.Some? {
            pcbs := Changed(pcbs, change.value);
            at := 0;
          } else {
            at := at + 1;
          }
        } else {
          spins := true;
        }
      }
    }

    /** One active block in tcp_slowtmr. */
    method Serve(i: nat, before: Option<nat>, t: Turn, ghost served: seq<nat>) returns (at: nat, prev: Option<nat>)
      requires Inside(Pass(pcbs, i, before, served)) && pcbs[i].lastTimer != timerCtr
      modifies this`pcbs
      ensures Pass(pcbs, at, prev, served + [old(pcbs)[i].id])
           == SlowStep(Pass(old(pcbs), i, before, served), timerCtr, t)
      ensures at <= |pcbs| && (prev.Some? ==> prev.value < at)
      ensures t == Turn(false, None) ==> at == i + 1 && |pcbs| == |old(pcbs)|
    {
      if t.remove {
        // behind prev, or else at the front of the list
        var front := if before.Some? then pcbs[..before.value + 1] else [];
        pcbs := front + pcbs[i + 1..];
        at, prev := |front|, before;
      } else {
        pcbs := pcbs[i := pcbs[i].(lastTimer := timerCtr)];
        at, prev := i + 1, Some(i);
      }
      if t.change.Some? {
        pcbs := Changed(pcbs, t.change.value);
        at, prev := 0, None;
      }
    }

    /** tcp_slowtmr on the active blocks. */
    method SlowTmr(turns: seq<Turn>)
      requires Valid()
      modifies this
      ensures Valid() && timerCtr == (old(timerCtr) + 1) % 0x100
      ensures pcbs == SlowRun(Pass(old(pcbs), 0, None, []), timerCtr, turns).list
    {
      hide Kept, Changed, SlowStep;
      timerCtr := (timerCtr + 1) % 0x100;
      ghost var served: seq<nat> := [];
      var at: nat, n: nat := 0, 0;
      var prev: Option<nat> := None;
      while at < |pcbs|
        invariant n <= |turns| && timerCtr == (old(timerCtr) + 1) % 0x100
        invariant at <= |pcbs| && (prev.Some? ==> prev.value < at)
        invariant SlowRun(Pass(pcbs, at, prev, served), timerCtr, turns[n..])
               == SlowRun(Pass(old(pcbs), 0, None, []), timerCtr, turns)
        decreases |turns| - n, |pcbs| - at
      {
        if pcbs[at].lastTimer == timerCtr {
          at := at + 1;
          continue;
        }
        assert turns[n..] != [] ==> turns[n..][1..] == turns[n + 1..];
        var t := if n < |turns| then turns[n] else Turn(false, None);
        if n < |turns| {
          n := n + 1;
        }
        ghost var id := pcbs[at].id;
        at, prev := Serve(at, prev, t, served);
        served := served + [id];
      }
    }
  }
}
