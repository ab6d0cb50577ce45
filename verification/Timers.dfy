/** The timeout list of timers.c (NO_SYS = 0): a list of waiting times, each relative to the
    entry before it, refines a queue ordered by absolute deadline.

    `now` is the time accounted for: what the mailbox waits have charged to the head of the
    list.  Handlers are the environment; while one runs it may arm and cancel timeouts. */
module Timers {

  const U32: nat := 0xffff_ffff

  /** struct sys_timeo, without its link. */
  datatype Timeo = Timeo(time: nat, h: nat, arg: nat)

  /** A timeout of the queue: when it is due, and the how-many-th it was to be armed. */
  datatype Entry = Entry(due: nat, serial: nat, h: nat, arg: nat)

  function Sum(ts: seq<Timeo>): nat {
    if ts == [] then 0 else ts[0].time + Sum(ts[1..])
  }

  lemma {:induction false} SumAppend(a: seq<Timeo>, b: seq<Timeo>)
    ensures Sum(a + b) == Sum(a) + Sum(b)
  {
    if a == [] {
      assert a + b == b;
    } else {
      assert (a + b)[1..] == a[1..] + b;
      SumAppend(a[1..], b);
    }
  }

  lemma SumFirst(t: Timeo, ts: seq<Timeo>)
    ensures Sum([t] + ts) == t.time + Sum(ts)
  {
    assert ([t] + ts)[1..] == ts;
  }

  lemma SumNone(ts: seq<Timeo>)
    ensures Sum(ts[..0]) == 0
  {
  }

  lemma SumNext(ts: seq<Timeo>, i: nat)
    requires i < |ts|
    ensures Sum(ts[..i + 1]) == Sum(ts[..i]) + ts[i].time
  {
    assert ts[..i + 1] == ts[..i] + [ts[i]];
    SumAppend(ts[..i], [ts[i]]);
    assert Sum([ts[i]]) == ts[i].time;
  }

  // ----- the queue -----------------------------------------------------------------------------

  predicate Before(a: Entry, b: Entry) {
    a.due < b.due || (a.due == b.due && a.serial < b.serial)
  }

  /** By deadline, and by age among equal deadlines. */
  predicate Ordered(q: seq<Entry>) {
    forall i, j :: 0 <= i < j < |q| ==> Before(q[i], q[j])
  }

  /** Entry i of the queue is entry i of the list. */
  predicate EntryAt(now: nat, ts: seq<Timeo>, q: seq<Entry>, i: nat)
    requires i < |ts| && i < |q|
  {
    q[i].due == now + Sum(ts[..i + 1]) && q[i].h == ts[i].h && q[i].arg == ts[i].arg
  }

  predicate Refines(now: nat, ts: seq<Timeo>, q: seq<Entry>) {
    |ts| == |q| && forall i :: 0 <= i < |q| ==> EntryAt(now, ts, q, i)
  }

  function Inserted(q: seq<Entry>, e: Entry): seq<Entry> {
    if q == [] || Before(e, q[0]) then [e] + q else [q[0]] + Inserted(q[1..], e)
  }

  /** The first entry with this handler and argument is removed. */
  function Removed(q: seq<Entry>, h: nat, arg: nat): seq<Entry> {
    if q == [] then []
    else if q[0].h == h && q[0].arg == arg then q[1..]
    else [q[0]] + Removed(q[1..], h, arg)
  }

  /** Inserting adds the new entry only. */
  lemma {:induction false} InsertedElements(q: seq<Entry>, e: Entry)
    ensures multiset(Inserted(q, e)) == multiset(q) + multiset{e}
  {
    if q != [] && !Before(e, q[0]) {
      InsertedElements(q[1..], e);
      assert q == [q[0]] + q[1..];
    }
  }

  lemma InsertedElement(q: seq<Entry>, e: Entry, x: Entry)
    requires x in Inserted(q, e)
    ensures x == e || x in q
  {
    InsertedElements(q, e);
    assert x in multiset(Inserted(q, e));
  }

  /** Inserting keeps the queue ordered; among equal deadlines the new entry comes last. */
  lemma {:induction false} InsertedOrdered(q: seq<Entry>, e: Entry)
    requires Ordered(q) && forall x :: x in q ==> x.serial < e.serial
    ensures Ordered(Inserted(q, e))
  {
    if q == [] || Before(e, q[0]) {
      FirstOrdered(e, q);
    } else {
      RestOrdered(q);
      InsertedOrdered(q[1..], e);
      var r := Inserted(q[1..], e);
      forall x | x in r
        ensures Before(q[0], x)
      {
        InsertedElement(q[1..], e, x);
        assert q[0] in q;
        if x in q[1..] {
          LaterThanFirst(q, x);
        }
      }
      PrependOrdered(q[0], r);
    }
  }

  lemma FirstOrdered(e: Entry, q: seq<Entry>)
    requires Ordered(q) && (q == [] || Before(e, q[0]))
    ensures Ordered([e] + q)
  {
    forall x | x in q
      ensures Before(e, x)
    {
      var k: nat :| k < |q| && q[k] == x;
      assert k > 0 ==> Before(q[0], q[k]);
    }
    PrependOrdered(e, q);
  }

  lemma PrependOrdered(e: Entry, q: seq<Entry>)
    requires Ordered(q) && forall x :: x in q ==> Before(e, x)
    ensures Ordered([e] + q)
  {
    var r := [e] + q;
    forall i, j | 0 <= i < j < |r|
      ensures Before(r[i], r[j])
    {
      assert r[j] == q[j - 1];
      assert i > 0 ==> r[i] == q[i - 1];
    }
  }

  lemma RestOrdered(q: seq<Entry>)
    requires Ordered(q) && q != []
    ensures Ordered(q[1..]) && forall x :: x in q[1..] ==> x in q
  {
  }

  lemma LaterThanFirst(q: seq<Entry>, x: Entry)
    requires Ordered(q) && q != [] && x in q[1..]
    ensures Before(q[0], x)
  {
    var k: nat :| k < |q[1..]| && q[1..][k] == x;
    assert q[k + 1] == x;
  }

  /** Where an entry that is armed last goes. */
  lemma {:induction false} InsertedAt(q: seq<Entry>, e: Entry, k: nat)
    requires k <= |q|
    requires forall i :: 0 <= i < k ==> !Before(e, q[i])
    requires k < |q| ==> Before(e, q[k])
    ensures Inserted(q, e) == q[..k] + [e] + q[k..]
  {
    if k > 0 {
      InsertedAt(q[1..], e, k - 1);
      assert q[..k] == [q[0]] + q[1..][..k - 1];
    }
  }

  /** A new timeout goes behind all deadlines that are not later than its own. */
  lemma {:induction false} InsertedBehindEqual(q: seq<Entry>, e: Entry) returns (k: nat)
    requires Ordered(q) && forall x :: x in q ==> x.serial < e.serial
    ensures k <= |q| && Inserted(q, e) == q[..k] + [e] + q[k..]
    ensures forall i :: 0 <= i < k ==> q[i].due <= e.due
    ensures forall i :: k <= i < |q| ==> e.due < q[i].due
  {
    if q == [] || Before(e, q[0]) {
      k := 0;
      forall i | 0 <= i < |q|
        ensures e.due < q[i].due
      {
        assert q[0] in q && (i > 0 ==> Before(q[0], q[i]));
      }
    } else {
      RestOrdered(q);
      var m := InsertedBehindEqual(q[1..], e);
      k := m + 1;
      assert q[..k] == [q[0]] + q[1..][..m] && q[k..] == q[1..][m..];
      assert forall i :: 1 <= i < |q| ==> q[i] == q[1..][i - 1];
    }
  }

  predicate Matches(e: Entry, h: nat, arg: nat) {
    e.h == h && e.arg == arg
  }

  lemma {:induction false} RemovedAt(q: seq<Entry>, h: nat, arg: nat, k: nat)
    requires k <= |q|
    requires forall i :: 0 <= i < k ==> !Matches(q[i], h, arg)
    requires k < |q| ==> Matches(q[k], h, arg)
    ensures Removed(q, h, arg) == if k < |q| then q[..k] + q[k + 1..] else q
  {
    if q != [] {
      hide Removed;
      assert q == [q[0]] + q[1..];
      RemovedFirst(q[0], q[1..], h, arg);
      if k == 0 {
        assert q[..0] + q[1..] == q[1..];
      } else {
        RemovedAt(q[1..], h, arg, k - 1);
        assert k < |q| ==> q[..k] + q[k + 1..] == [q[0]] + (q[1..][..k - 1] + q[1..][k..]);
      }
    }
  }

  lemma RemovedFirst(e: Entry, q: seq<Entry>, h: nat, arg: nat)
    ensures Removed([e] + q, h, arg) == if Matches(e, h, arg) then q else [e] + Removed(q, h, arg)
  {
    assert ([e] + q)[1..] == q;
  }

  // ----- inserting and removing in the list ----------------------------------------------------

  /** The list with a new entry at k, which takes its time from the entry behind it. */
  function Armed(ts: seq<Timeo>, k: nat, t: Timeo): seq<Timeo>
    requires k <= |ts| && (k < |ts| ==> t.time <= ts[k].time)
  {
    ts[..k] + [t] + if k < |ts| then [ts[k].(time := ts[k].time - t.time)] + ts[k + 1..] else []
  }

  lemma ArmedSum(ts: seq<Timeo>, k: nat, t: Timeo, i: nat)
    requires k <= |ts| && (k < |ts| ==> t.time <= ts[k].time) && i <= |ts| + 1
    ensures |Armed(ts, k, t)| == |ts| + 1
    ensures Sum(Armed(ts, k, t)[..i]) ==
      if i <= k then Sum(ts[..i]) else if i == k + 1 then Sum(ts[..k]) + t.time else Sum(ts[..i - 1])
  {
    hide Sum;
    var a := Armed(ts, k, t);
    if i <= k {
      assert a[..i] == ts[..i];
    } else {
      assert a[..k] == ts[..k] && a[k] == t;
      SumNext(a, k);
      if i > k + 1 {
        SumNext(a, k + 1);
        SumNext(ts, k);
        assert a == a[..k + 2] + ts[k + 1..] && ts == ts[..k + 1] + ts[k + 1..];
        SumPast(a[..k + 2], ts[k + 1..], i - k - 2);
        SumPast(ts[..k + 1], ts[k + 1..], i - k - 2);
      }
    }
  }

  lemma SumPast(a: seq<Timeo>, b: seq<Timeo>, i: nat)
    requires i <= |b|
    ensures Sum((a + b)[..|a| + i]) == Sum(a) + Sum(b[..i])
  {
    assert (a + b)[..|a| + i] == a + b[..i];
    SumAppend(a, b[..i]);
  }

  lemma ArmedRefines(now: nat, ts: seq<Timeo>, q: seq<Entry>, k: nat, t: Timeo, e: Entry)
    requires Refines(now, ts, q) && k <= |ts| && (k < |ts| ==> t.time <= ts[k].time)
    requires e.due == now + Sum(ts[..k]) + t.time && e.h == t.h && e.arg == t.arg
    ensures Refines(now, Armed(ts, k, t), q[..k] + [e] + q[k..])
  {
    var a, q' := Armed(ts, k, t), q[..k] + [e] + q[k..];
    assert |a| == |ts| + 1;
    forall i | 0 <= i < |q'|
      ensures EntryAt(now, a, q', i)
    {
      ArmedSum(ts, k, t, i + 1);
      if i < k {
        assert EntryAt(now, ts, q, i);
      } else if i > k {
        assert EntryAt(now, ts, q, i - 1) && q'[i] == q[i - 1];
      }
    }
  }

  /** The list without entry k, whose time goes to the entry behind it. */
  function Disarmed(ts: seq<Timeo>, k: nat): seq<Timeo>
    requires k < |ts|
  {
    ts[..k] + if k + 1 < |ts| then [ts[k + 1].(time := ts[k + 1].time + ts[k].time)] + ts[k + 2..] else []
  }

  lemma DisarmedRefines(now: nat, ts: seq<Timeo>, q: seq<Entry>, k: nat)
    requires Refines(now, ts, q) && k < |ts|
    ensures Refines(now, Disarmed(ts, k), q[..k] + q[k + 1..])
    ensures Sum(Disarmed(ts, k)) <= Sum(ts)
  {
    var d, q' := Disarmed(ts, k), q[..k] + q[k + 1..];
    DisarmedLess(ts, k);
    hide Disarmed, Sum, EntryAt;
    forall i | 0 <= i < |q'|
      ensures EntryAt(now, d, q', i)
    {
      assert EntryAt(now, ts, q, if i < k then i else i + 1);
      DisarmedEntry(now, ts, q, k, i);
    }
  }

  lemma DisarmedEntry(now: nat, ts: seq<Timeo>, q: seq<Entry>, k: nat, i: nat)
    requires |ts| == |q| && k < |ts| && i < |ts| - 1 && EntryAt(now, ts, q, if i < k then i else i + 1)
    requires |Disarmed(ts, k)| == |ts| - 1
    ensures EntryAt(now, Disarmed(ts, k), q[..k] + q[k + 1..], i)
  {
    hide Disarmed, Sum;
    DisarmedSum(ts, k, i + 1);
    DisarmedAt(ts, k, i);
    assert (q[..k] + q[k + 1..])[i] == q[if i < k then i else i + 1];
  }

  lemma DisarmedAt(ts: seq<Timeo>, k: nat, i: nat)
    requires k < |ts| && i < |ts| - 1
    ensures |Disarmed(ts, k)| == |ts| - 1
    ensures Disarmed(ts, k)[i].h == ts[if i < k then i else i + 1].h
    ensures Disarmed(ts, k)[i].arg == ts[if i < k then i else i + 1].arg
  {
  }

  lemma DisarmedLess(ts: seq<Timeo>, k: nat)
    requires k < |ts|
    ensures |Disarmed(ts, k)| == |ts| - 1 && Sum(Disarmed(ts, k)) <= Sum(ts)
  {
    DisarmedSum(ts, k, |ts| - 1);
    var d := Disarmed(ts, k);
    assert d[..|ts| - 1] == d && ts[..|ts|] == ts;
    SumNext(ts, |ts| - 1);
  }

  lemma DisarmedSum(ts: seq<Timeo>, k: nat, i: nat)
    requires k < |ts| && i < |ts|
    ensures |Disarmed(ts, k)| == |ts| - 1
    ensures Sum(Disarmed(ts, k)[..i]) == if i <= k then Sum(ts[..i]) else Sum(ts[..i + 1])
  {
    var d := Disarmed(ts, k);
    if i <= k {
      assert d[..i] == ts[..i];
    } else {
      assert d[..k] == ts[..k];
      SumNext(d, k);
      SumNext(ts, k);
      SumNext(ts, k + 1);
      assert d[..i] == d[..k + 1] + ts[k + 2..i + 1];
      assert ts[..i + 1] == ts[..k + 2] + ts[k + 2..i + 1];
      SumAppend(d[..k + 1], ts[k + 2..i + 1]);
      SumAppend(ts[..k + 2], ts[k + 2..i + 1]);
    }
  }

  // ----- time passes ---------------------------------------------------------------------------

  /** Time charged to the head of the list moves no deadline. */
  lemma Elapse(now: nat, ts: seq<Timeo>, q: seq<Entry>, d: nat)
    requires Refines(now, ts, q) && ts != [] && d <= ts[0].time
    ensures Refines(now + d, Charged(ts, d), q)
    ensures Sum(Charged(ts, d)) <= Sum(ts)
  {
    SumFirst(ts[0].(time := ts[0].time - d), ts[1..]);
    var now', ts' := now + d, Charged(ts, d);
    forall i | 0 <= i < |q|
      ensures EntryAt(now', ts', q, i)
    {
      hide Sum, EntryAt, Charged;
      assert EntryAt(now, ts, q, i);
      ElapseEntry(now, ts, q, d, i);
    }
  }

  function Charged(ts: seq<Timeo>, d: nat): (ts': seq<Timeo>)
    requires ts != [] && d <= ts[0].time
    ensures |ts'| == |ts|
  {
    [ts[0].(time := ts[0].time - d)] + ts[1..]
  }

  lemma ElapseEntry(now: nat, ts: seq<Timeo>, q: seq<Entry>, d: nat, i: nat)
    requires |ts| == |q| && i < |q| && d <= ts[0].time && EntryAt(now, ts, q, i)
    ensures EntryAt(now + d, Charged(ts, d), q, i)
  {
    hide Sum;
    var ts' := Charged(ts, d);
    assert ts'[..i + 1] == [ts'[0]] + ts[1..][..i] && ts[..i + 1] == [ts[0]] + ts[1..][..i];
    SumFirst(ts'[0], ts[1..][..i]);
    SumFirst(ts[0], ts[1..][..i]);
  }

  /** The head is taken off when its time has run out. */
  lemma HeadOff(now: nat, ts: seq<Timeo>, q: seq<Entry>)
    requires Refines(now, ts, q) && ts != [] && ts[0].time == 0
    ensures q != [] && q[0].due == now && q[0].h == ts[0].h && q[0].arg == ts[0].arg
    ensures Refines(now, ts[1..], q[1..])
  {
    assert EntryAt(now, ts, q, 0);
    assert Sum(ts[..1]) == 0 by {
      SumNext(ts, 0);
    }
    forall i | 0 <= i < |q[1..]|
      ensures EntryAt(now, ts[1..], q[1..], i)
    {
      assert EntryAt(now, ts, q, i + 1);
      assert ts[..i + 2] == [ts[0]] + ts[1..][..i + 1];
      SumFirst(ts[0], ts[1..][..i + 1]);
    }
  }

  // ----- nothing is lost and nothing runs twice ------------------------------------------------

  function Serials(q: seq<Entry>): multiset<nat> {
    if q == [] then multiset{} else multiset{q[0].serial} + Serials(q[1..])
  }

  lemma {:induction false} SerialsAppend(a: seq<Entry>, b: seq<Entry>)
    ensures Serials(a + b) == Serials(a) + Serials(b)
  {
    if a == [] {
      assert a + b == b;
    } else {
      assert (a + b)[1..] == a[1..] + b;
      SerialsAppend(a[1..], b);
    }
  }

  lemma {:induction false} SerialsAt(q: seq<Entry>, x: Entry)
    requires x in q
    ensures x.serial in Serials(q)
  {
    if q[0] != x {
      SerialsAt(q[1..], x);
    }
  }

  /** Each of the first n serial numbers once. */
  function Upto(n: nat): (m: multiset<nat>)
    ensures forall s: nat :: m[s] == if s < n then 1 else 0
  {
    if n == 0 then multiset{} else Upto(n - 1) + multiset{n - 1}
  }

  lemma {:induction false} InsertedSerials(q: seq<Entry>, e: Entry)
    ensures Serials(Inserted(q, e)) == Serials(q) + multiset{e.serial}
  {
    if q == [] || Before(e, q[0]) {
      assert ([e] + q)[1..] == q;
    } else {
      InsertedSerials(q[1..], e);
      assert Inserted(q, e)[1..] == Inserted(q[1..], e);
    }
  }

  /** Every timeout armed so far is pending, has run or was cancelled: one of these, once. */
  predicate Conserved(armed: nat, queue: seq<Entry>, fired: seq<Entry>, cancelled: multiset<nat>) {
    Serials(queue) + Serials(fired) + cancelled == Upto(armed)
  }

  lemma SerialBound(armed: nat, queue: seq<Entry>, fired: seq<Entry>, cancelled: multiset<nat>)
    requires Conserved(armed, queue, fired, cancelled)
    ensures forall x :: x in queue ==> x.serial < armed
  {
    forall x | x in queue
      ensures x.serial < armed
    {
      SerialsAt(queue, x);
      assert x.serial in Upto(armed);
    }
  }

  /** Handlers ran in the order of their deadlines, and none before its deadline. */
  predicate FiredOk(fired: seq<Entry>, now: nat) {
    && (forall i, j :: 0 <= i < j < |fired| ==> fired[i].due <= fired[j].due)
    && forall i :: 0 <= i < |fired| ==> fired[i].due <= now
  }

  // ----- the timeouts of a task ------------------------------------------------------------------

  /** What a handler may do while it runs; `ok` says whether a timeout can be allocated. */
  datatype Action = Arm(msecs: nat, h: nat, arg: nat, ok: bool) | Cancel(h: nat, arg: nat)

  /** The queue and the number of timeouts armed after the actions of a handler. */
  function Acted(q: seq<Entry>, armed: nat, now: nat, acts: seq<Action>): (seq<Entry>, nat)
    decreases |acts|
  {
    if acts == [] then (q, armed)
    else match acts[0]
      case Arm(msecs, h, arg, ok) =>
        if ok then Acted(Inserted(q, Entry(now + msecs, armed, h, arg)), armed + 1, now, acts[1..])
        else Acted(q, armed, now, acts[1..])
      case Cancel(h, arg) => Acted(Removed(q, h, arg), armed, now, acts[1..])
  }

  predicate Sane(acts: seq<Action>) {
    forall a :: a in acts ==> a.Arm? ==> a.msecs <= U32
  }

  /** One wait of the mailbox: whether a message arrives in it, and after how long; and what the
      handler does if the wait times out. */
  datatype Wait = Wait(arrives: bool, after: nat, acts: seq<Action>)

  class Timeouts {
    /** next_timeout. */
    var next: seq<Timeo>
    ghost var now: nat
    ghost var armed: nat
    ghost var queue: seq<Entry>
    ghost var fired: seq<Entry>
    ghost var cancelled: multiset<nat>

    ghost predicate Valid()
      reads this
    {
      && Refines(now, next, queue) && Ordered(queue) && Sum(next) <= U32
      && FiredOk(fired, now) && Conserved(armed, queue, fired, cancelled)
    }

    constructor ()
      ensures Valid() && queue == [] && fired == [] && now == 0
    {
      next, now, armed, queue, fired, cancelled := [], 0, 0, [], [], multiset{};
    }

    /** sys_timeout. */
    method SysTimeout(msecs: nat, h: nat, arg: nat, ok: bool)
      requires Valid() && msecs <= U32
      modifies `next, `armed, `queue
      ensures Valid()
      ensures queue == if ok then Inserted(old(queue), Entry(now + msecs, old(armed), h, arg)) else old(queue)
      ensures armed == old(armed) + if ok then 1 else 0
    {
      hide Ordered, FiredOk, Conserved, Refines, Sum, Inserted;
      if !ok {
        return;
      }
      SumNone(next);
      ghost var ts, k: nat, e := next, 0, Entry(now + msecs, armed, h, arg);
      var timeout := Timeo(msecs, h, arg);
      if next == [] {
        next := [timeout];
      } else if next[0].time > msecs {
        next := [timeout, next[0].(time := next[0].time - msecs)] + next[1..];
      } else {
        var t := 0;
        while true
          invariant t < |ts| && next == ts && timeout.h == h && timeout.arg == arg
          invariant Sum(ts[..t]) + timeout.time == msecs && ts[t].time <= timeout.time
          modifies `next
          decreases |ts| - t
        {
          SumNext(ts, t);
          timeout := timeout.(time := timeout.time - next[t].time);
          if t + 1 == |next| || next[t + 1].time > timeout.time {
            next := next[..t + 1] + [timeout] +
              if t + 1 < |next| then [next[t + 1].(time := next[t + 1].time - timeout.time)] + next[t + 2..] else [];
            k := t + 1;
            break;
          }
          t := t + 1;
        }
      }
      assert next == Armed(ts, k, timeout);
      ArmedGood(now, ts, queue, armed, fired, cancelled, k, timeout, e);
      queue := Inserted(queue, e);
      armed := armed + 1;
    }

    /** sys_untimeout: the first timeout with this handler and argument is cancelled. */
    method SysUntimeout(h: nat, arg: nat)
      requires Valid()
      modifies `next, `queue, `cancelled
      ensures Valid() && queue == Removed(old(queue), h, arg)
    {
      hide Ordered, FiredOk, Conserved, Refines, Removed;
      ghost var ts := next;
      var t := 0;
      while t < |next|
        invariant t <= |ts| && next == ts
        invariant forall i :: 0 <= i < t ==> !(ts[i].h == h && ts[i].arg == arg)
      {
        if next[t].h == h && next[t].arg == arg {
          next := next[..t] +
            if t + 1 < |next| then [next[t + 1].(time := next[t + 1].time + next[t].time)] + next[t + 2..] else [];
          DisarmedGood(now, ts, queue, armed, fired, cancelled, t, h, arg);
          cancelled := cancelled + multiset{queue[t].serial};
          queue := Removed(queue, h, arg);
          return;
        }
        t := t + 1;
      }
      NoneRemoved(now, ts, queue, h, arg);
    }

    /** A handler runs and does `acts`. */
    method Handle(acts: seq<Action>)
      requires Valid() && Sane(acts)
      modifies `next, `armed, `queue, `cancelled
      ensures Valid() && (queue, armed) == Acted(old(queue), old(armed), now, acts)
    {
      hide Ordered, FiredOk, Conserved, Refines;
      for i := 0 to |acts|
        invariant Valid()
        invariant Acted(queue, armed, now, acts[i..]) == Acted(old(queue), old(armed), now, acts)
      {
        assert acts[i] in acts && acts[i..][1..] == acts[i + 1..];
        match acts[i] {
          case Arm(msecs, h, arg, ok) => SysTimeout(msecs, h, arg, ok);
          case Cancel(h, arg) => SysUntimeout(h, arg);
        }
      }
    }

    /** The wait for the head of the list has timed out: the head is unlinked and its handler
        runs, exactly when its deadline is reached. */
    method Fire(acts: seq<Action>)
      requires Valid() && next != [] && Sane(acts)
      modifies this
      ensures Valid() && old(queue) != []
      ensures now == old(queue)[0].due >= old(now) && fired == old(fired) + [old(queue)[0]]
      ensures (queue, armed) == Acted(old(queue)[1..], old(armed), now, acts)
    {
      hide Ordered, Conserved, Refines;
      ghost var d := next[0].time;
      Elapse(now, next, queue, d);
      ghost var spent := [next[0].(time := next[0].time - d)] + next[1..];
      HeadOff(now + d, spent, queue);
      assert spent[1..] == next[1..];
      HeadFires(armed, queue, fired, cancelled);
      now := now + d;
      next := next[1..];
      fired := fired + [queue[0]];
      queue := queue[1..];
      Handle(acts);
    }

    /** sys_timeouts_mbox_fetch, as far as `waits` go: whether a message was got.  The time accounted
        is then that of the wait for it, but no more than up to the first deadline, and none
        without a timeout to wait for. */
    method MboxFetch(waits: seq<Wait>) returns (got: bool)
      requires Valid() && forall w :: w in waits ==> Sane(w.acts)
      modifies this
      ensures Valid() && now >= old(now)
      ensures old(fired) <= fired
      ensures !got ==> |fired| == |old(fired)| + |waits| && now == SinceLast(fired, |old(fired)|, old(now))
      ensures got ==>
        var k := |fired| - |old(fired)|;
        && k < |waits|
        && var last := SinceLast(fired, |old(fired)|, old(now));
           if queue == [] then now == last
           else
             && waits[k].arrives && last < queue[0].due
             && (now == last + waits[k].after <= queue[0].due || now == queue[0].due <= last + waits[k].after)
      ensures forall j :: 0 <= j < |fired| - |old(fired)| ==>
        NoMessageFor(fired, |old(fired)|, old(now), j, waits[j])
    {
      hide Ordered, FiredOk, Conserved, Refines;
      got := false;
      var i := 0;
      while i < |waits|
        invariant i <= |waits| && Valid() && now >= old(now) && old(fired) <= fired
        invariant |fired| == |old(fired)| + i && now == SinceLast(fired, |old(fired)|, old(now))
        invariant forall j :: 0 <= j < i ==> NoMessageFor(fired, |old(fired)|, old(now), j, waits[j])
      {
        var w := waits[i];
        assert w in waits;
        HeadDue(now, next, queue);
        if next == [] {
          // the wait ends with a message only
          return true;
        }
        if next[0].time > 0 && w.arrives {
          ghost var d := if w.after < next[0].time then w.after else next[0].time;
          Elapse(now, next, queue, d);
          Later(fired, now, d);
          next := [next[0].(time := if w.after < next[0].time then next[0].time - w.after else 0)] + next[1..];
          now := now + d;
          return true;
        }
        ghost var before := fired;
        Fire(w.acts);
        assert fired[..|before|] == before;
        forall j | 0 <= j < i
          ensures NoMessageFor(fired, |old(fired)|, old(now), j, waits[j])
        {
          SamePrefix(before, fired, |old(fired)|, old(now), j, waits[j]);
        }
        i := i + 1;
      }
    }
  }

  /** The deadline of the last of the timeouts that ran since there were n of them. */
  function SinceLast(fired: seq<Entry>, n: nat, was: nat): nat {
    if |fired| <= n then was else fired[|fired| - 1].due
  }

  /** The wait before the j-th of the timeouts that ran since there were n of them brought no
      message, or the timeout was due already, so that there was no wait. */
  predicate NoMessageFor(fired: seq<Entry>, n: nat, was: nat, j: nat, w: Wait)
    requires n + j < |fired|
  {
    w.arrives ==> fired[n + j].due == SinceLast(fired[..n + j], n, was)
  }

  lemma SamePrefix(before: seq<Entry>, fired: seq<Entry>, n: nat, was: nat, j: nat, w: Wait)
    requires before <= fired && n + j < |before| && NoMessageFor(before, n, was, j, w)
    ensures NoMessageFor(fired, n, was, j, w)
  {
    assert fired[..n + j] == before[..n + j];
  }

  lemma HeadDue(now: nat, ts: seq<Timeo>, q: seq<Entry>)
    requires Refines(now, ts, q)
    ensures ts == [] <==> q == []
    ensures ts != [] ==> q[0].due == now + ts[0].time
  {
    if ts != [] {
      assert EntryAt(now, ts, q, 0);
      SumNext(ts, 0);
    }
  }

  lemma Later(fired: seq<Entry>, now: nat, d: nat)
    requires FiredOk(fired, now)
    ensures FiredOk(fired, now + d)
  {
  }

  /** The place that sys_timeout finds is the place behind all deadlines that are not later. */
  lemma ArmedGood(now: nat, ts: seq<Timeo>, q: seq<Entry>, armed: nat, fired: seq<Entry>, cancelled: multiset<nat>,
                  k: nat, t: Timeo, e: Entry)
    requires Refines(now, ts, q) && Ordered(q) && Conserved(armed, q, fired, cancelled) && Sum(ts) <= U32
    requires k <= |ts| && (k < |ts| ==> t.time < ts[k].time)
    requires e == Entry(now + Sum(ts[..k]) + t.time, armed, t.h, t.arg) && Sum(ts[..k]) + t.time <= U32
    ensures var a, q' := Armed(ts, k, t), Inserted(q, e);
      Refines(now, a, q') && Ordered(q') && Sum(a) <= U32 && Conserved(armed + 1, q', fired, cancelled)
  {
    SerialBound(armed, q, fired, cancelled);
    ArmedPlace(now, ts, q, k, t, e);
    InsertedAt(q, e, k);
    InsertedOrdered(q, e);
    InsertedSerials(q, e);
    ArmedRefines(now, ts, q, k, t, e);
    ArmedTotal(ts, k, t);
  }

  lemma ArmedTotal(ts: seq<Timeo>, k: nat, t: Timeo)
    requires k <= |ts| && (k < |ts| ==> t.time <= ts[k].time)
    requires Sum(ts) <= U32 && Sum(ts[..k]) + t.time <= U32
    ensures Sum(Armed(ts, k, t)) <= U32
  {
    ArmedSum(ts, k, t, |ts| + 1);
    assert Armed(ts, k, t)[..|ts| + 1] == Armed(ts, k, t) && ts[..|ts|] == ts;
  }

  lemma ArmedPlace(now: nat, ts: seq<Timeo>, q: seq<Entry>, k: nat, t: Timeo, e: Entry)
    requires Refines(now, ts, q) && k <= |ts| && (k < |ts| ==> t.time < ts[k].time)
    requires e.due == now + Sum(ts[..k]) + t.time && forall x :: x in q ==> x.serial < e.serial
    ensures forall i :: 0 <= i < |q| ==> (Before(e, q[i]) <==> i >= k)
  {
    forall i | 0 <= i < |q|
      ensures Before(e, q[i]) <==> i >= k
    {
      assert EntryAt(now, ts, q, i);
      assert q[i] in q;
      PrefixSums(ts, k, i);
    }
  }

  lemma {:induction false} PrefixSums(ts: seq<Timeo>, k: nat, i: nat)
    requires k <= |ts| && i < |ts|
    ensures i < k ==> Sum(ts[..i + 1]) <= Sum(ts[..k])
    ensures i >= k ==> Sum(ts[..i + 1]) >= Sum(ts[..k]) + ts[k].time
    decreases if i < k then k - i else i - k
  {
    if i + 1 < k {
      PrefixSums(ts, k, i + 1);
      SumNext(ts, i + 1);
    } else if i > k {
      PrefixSums(ts, k, i - 1);
      SumNext(ts, i);
    } else if i == k {
      SumNext(ts, k);
    }
  }

  lemma DisarmedGood(now: nat, ts: seq<Timeo>, q: seq<Entry>, armed: nat, fired: seq<Entry>, cancelled: multiset<nat>,
                     k: nat, h: nat, arg: nat)
    requires Refines(now, ts, q) && Ordered(q) && Conserved(armed, q, fired, cancelled)
    requires k < |ts| && ts[k].h == h && ts[k].arg == arg
    requires forall i :: 0 <= i < k ==> !(ts[i].h == h && ts[i].arg == arg)
    ensures k < |q|
    ensures var d, q' := Disarmed(ts, k), Removed(q, h, arg);
      && Refines(now, d, q') && Ordered(q') && Sum(d) <= Sum(ts)
      && Conserved(armed, q', fired, cancelled + multiset{q[k].serial})
  {
    forall i | 0 <= i <= k
      ensures Matches(q[i], h, arg) <==> i == k
    {
      assert EntryAt(now, ts, q, i);
    }
    RemovedAt(q, h, arg, k);
    DisarmedRefines(now, ts, q, k);
    hide Refines, Disarmed, Sum;
    WithoutOne(q, k);
  }

  lemma WithoutOne(q: seq<Entry>, k: nat)
    requires Ordered(q) && k < |q|
    ensures Ordered(q[..k] + q[k + 1..])
    ensures Serials(q) == Serials(q[..k] + q[k + 1..]) + multiset{q[k].serial}
  {
    SerialsWithout(q, k);
    hide Serials;
    var q' := q[..k] + q[k + 1..];
    forall i, j | 0 <= i < j < |q'|
      ensures Before(q'[i], q'[j])
    {
      assert Before(q[if i < k then i else i + 1], q[if j < k then j else j + 1]);
    }
  }

  lemma SerialsFirst(e: Entry, q: seq<Entry>)
    ensures Serials([e] + q) == multiset{e.serial} + Serials(q)
  {
    assert ([e] + q)[1..] == q;
  }

  lemma SerialsWithout(q: seq<Entry>, k: nat)
    requires k < |q|
    ensures Serials(q) == Serials(q[..k] + q[k + 1..]) + multiset{q[k].serial}
  {
    hide Serials;
    assert q == q[..k] + ([q[k]] + q[k + 1..]);
    SerialsAppend(q[..k], [q[k]] + q[k + 1..]);
    SerialsAppend(q[..k], q[k + 1..]);
    SerialsFirst(q[k], q[k + 1..]);
  }

  lemma NoneRemoved(now: nat, ts: seq<Timeo>, q: seq<Entry>, h: nat, arg: nat)
    requires Refines(now, ts, q) && forall i :: 0 <= i < |ts| ==> !(ts[i].h == h && ts[i].arg == arg)
    ensures Removed(q, h, arg) == q
  {
    forall i | 0 <= i < |q|
      ensures !Matches(q[i], h, arg)
    {
      assert EntryAt(now, ts, q, i);
    }
    RemovedAt(q, h, arg, |q|);
  }

  lemma HeadFires(armed: nat, q: seq<Entry>, fired: seq<Entry>, cancelled: multiset<nat>)
    requires Conserved(armed, q, fired, cancelled) && Ordered(q) && q != []
    ensures Conserved(armed, q[1..], fired + [q[0]], cancelled) && Ordered(q[1..])
  {
    SerialsAppend(fired, [q[0]]);
    assert [q[0]][1..] == [];
  }
}
