/** lwip_recvfrom (sockets.c) on a TCP socket, over any number of calls.  What the mailbox hands
    out, and the pending-event counter at the moments it is read, are the environment. */
module Recvfrom {
  import opened Options
  import opened TcpWindow

  /** A received pbuf chain, with PBUF_FLAG_PUSH. */
  datatype Buffer = Buffer(text: seq<Octet>, push: bool)

  /** netconn_recv_tcp_pbuf. */
  datatype Fetch = Got(buffer: Buffer) | Failed(closed: bool)

  /** One pass of the loop: whether an event is pending before the fetch and after the copy. */
  datatype Turn = Turn(pendingBefore: bool, fetch: Fetch, pendingAfter: bool)

  /** Why nothing can be had in this turn: -1 if the call must not wait and no event is pending, or
      on an error; 0 if the peer has closed. */
  predicate StopsWith(t: Turn, dontwait: bool, r: int) {
    if dontwait && !t.pendingBefore then r == -1
    else t.fetch.Failed? && r == if t.fetch.closed then 0 else -1
  }

  /** A turn after which the call need not go on: it was only to peek, no event is pending, or the
      buffer was pushed. */
  predicate MayEnd(t: Turn, pushed: bool, peek: bool) {
    peek || !t.pendingAfter || pushed || (t.fetch.Got? && t.fetch.buffer.push)
  }

  predicate Empty(t: Turn) {
    t.fetch.Got? && t.fetch.buffer.text == []
  }

  predicate SomeStops(turns: seq<Turn>, dontwait: bool, r: int) {
    exists t :: t in turns && StopsWith(t, dontwait, r)
  }

  predicate SomeMayEnd(turns: seq<Turn>, pushed: bool, peek: bool) {
    exists t :: t in turns && MayEnd(t, pushed, peek)
  }

  predicate SomeEmpty(turns: seq<Turn>) {
    exists t :: t in turns && Empty(t)
  }

  predicate Sane(turns: seq<Turn>) {
    forall t :: t in turns ==> Sized(t)
  }

  /** The first n octets, or all there are. */
  function Front(s: seq<Octet>, n: nat): (r: seq<Octet>)
    ensures |r| == (if n < |s| then n else |s|) && r <= s
  {
    if n < |s| then s[..n] else s
  }

  class Socket {
    var lastdata: Option<Buffer>
    var lastoffset: nat
    /** Everything taken from the mailbox, everything handed to the application for good,
        everything it has peeked at, and the window credit given back. */
    ghost var fetched: seq<Octet>
    ghost var returned: seq<Octet>
    ghost var peeked: nat
    ghost var credit: nat

    /** What is left of the last buffer. */
    ghost function Rest(): seq<Octet>
      reads `lastdata, `lastoffset
    {
      if lastdata.None? || lastoffset > |lastdata.value.text| then [] else lastdata.value.text[lastoffset..]
    }

    /** Nothing is lost and nothing repeated. */
    ghost predicate Flowing()
      reads `lastdata, `lastoffset, `fetched, `returned
    {
      && (lastdata.None? ==> lastoffset == 0)
      && (lastdata.Some? ==> lastoffset <= |lastdata.value.text| <= 0xffff)
      && fetched == returned + Rest()
    }

    ghost predicate Valid()
      reads this
    {
      Flowing() && credit == |returned| + peeked
    }

    constructor ()
      ensures Valid() && fetched == [] && returned == [] && peeked == 0
    {
      lastdata, lastoffset := None, 0;
      fetched, returned, peeked, credit := [], [], 0, 0;
    }

    /** lwip_recvfrom with room for `len` octets: -1 or the number of octets; `blocked` if the
        turns end while the call still waits.  Window credit is the number returned, also when
        the octets were only peeked at and stay in the socket. */
    method Recvfrom(len: nat, dontwait: bool, peek: bool, turns: seq<Turn>)
      returns (r: int, mem: seq<Octet>, blocked: bool)
      requires Valid() && Sane(turns)
      modifies this
      ensures !blocked ==> Valid() && |mem| <= len && (r == |mem| || (r == -1 && mem == []))
      ensures blocked ==> Flowing() && credit == old(credit) && peeked == old(peeked)
      ensures old(fetched) <= fetched
      ensures !peek ==> returned == old(returned) + mem && peeked == old(peeked)
      ensures peek && !blocked ==> returned == old(returned) && peeked == old(peeked) + |mem|
      ensures peek && !blocked ==> mem <= Rest()
      ensures !blocked ==> credit == old(credit) + |mem|
      ensures old(Rest()) != [] && len > 0 && turns != [] ==> mem != []
      ensures !blocked && r == -1 ==> SomeStops(turns, dontwait, -1)
      ensures !blocked && r == 0 && len > 0 && (old(lastdata).Some? ==> old(Rest()) != []) ==>
        SomeStops(turns, dontwait, 0) || SomeEmpty(turns)
      ensures blocked && turns != [] ==> !peek && turns[|turns| - 1].pendingAfter
      ensures !blocked && 0 < r < len ==>
        || SomeStops(turns, dontwait, 0) || SomeStops(turns, dontwait, -1)
        || SomeMayEnd(turns, old(lastdata.Some? && lastdata.value.push), peek)
    {
      assert Flowing() && credit == |returned| + peeked;
      NothingYet(fetched, returned, peek);
      hide *;
      mem, r, blocked := [], 0, false;
      var left: nat, done, i := len, false, 0;
      ghost var pushed := lastdata.Some? && lastdata.value.push;
      while !done
        invariant i <= |turns| && Flowing() && |mem| + left == len
        invariant Joined(returned, old(returned), mem, peek) && Grown(old(fetched), fetched)
        invariant credit == old(credit) && peeked == old(peeked)
        invariant peek && done ==> mem <= Rest()
        invariant peek && !done ==> mem == []
        invariant i == 0 ==> Rest() == old(Rest()) && mem == [] && !done
        invariant i > 0 && old(Rest()) != [] && len > 0 ==> mem != []
        invariant if i == 0 then lastdata == old(lastdata) else !done ==> lastdata.None?
        invariant i > 0 && mem == [] && len > 0 && (old(lastdata).Some? ==> old(Rest()) != []) ==> SomeEmpty(turns)
        invariant i > 0 && !done ==> !peek && turns[i - 1].pendingAfter
        invariant done && left > 0 ==> SomeMayEnd(turns, pushed, peek)
        decreases |turns| - i, !done
      {
        if i == |turns| {
          blocked := true;
          Handed(old(fetched), fetched, returned, old(returned), mem, peek);
          return;
        }
        var t := turns[i];
        SaneAt(turns, i);
        SomeTurn(turns, i, dontwait, pushed, peek);
        i := i + 1;
        ghost var fetchedWas, returnedWas := fetched, returned;
        var stop, piece, last := Pass(t, left, dontwait, peek);
        GrownOn(old(fetched), fetchedWas, fetched);
        JoinedOn(returnedWas, returned, old(returned), mem, piece, peek);
        if stop.Some? {
          r := Stop(mem, stop.value);
          Handed(old(fetched), fetched, returned, old(returned), mem, peek);
          Settled();
          return;
        }
        mem := mem + piece;
        left := left - |piece|;
        done := left <= 0 || last;
      }
      if mem != [] {
        Recved(|mem|);
      }
      if peek {
        peeked := peeked + |mem|;
      }
      Handed(old(fetched), fetched, returned, old(returned), mem, peek);
      Settled();
      r := |mem|;
    }

    lemma Settled()
      requires Flowing() && credit == |returned| + peeked
      ensures Valid()
    {
    }

    /** One pass of the loop: why nothing more can be had, or the octets copied and whether they
        are to be the last. */
    method Pass(t: Turn, left: nat, dontwait: bool, peek: bool)
      returns (stop: Option<int>, piece: seq<Octet>, last: bool)
      requires Flowing() && Sized(t)
      modifies `fetched, `returned, `lastdata, `lastoffset
      ensures Flowing() && old(fetched) <= fetched && |piece| <= left
      ensures returned == if peek then old(returned) else old(returned) + piece
      ensures stop.Some? ==> piece == [] && StopsWith(t, dontwait, stop.value) && old(Rest()) == []
      ensures stop.None? && piece == [] && left > 0 ==> if old(lastdata).None? then Empty(t) else old(Rest()) == []
      ensures stop.None? && !peek && |piece| < left ==> lastdata.None?
      ensures stop.None? && last ==> MayEnd(t, old(lastdata.Some? && lastdata.value.push), peek)
      ensures stop.None? && !last ==> !peek && t.pendingAfter
      ensures stop.None? && peek ==> last && piece <= Rest()
      ensures old(Rest()) != [] && left > 0 ==> piece != []
    {
      hide Flowing, Rest, Front;
      piece, last := [], false;
      stop := Fill(t, dontwait);
      if stop.None? {
        last := lastdata.value.push || !t.pendingAfter || peek;
        piece := CopyOut(left, peek);
      }
    }

    /** Without data left over, the next buffer comes out of the mailbox; or the reason why there
        is none. */
    method Fill(t: Turn, dontwait: bool) returns (stop: Option<int>)
      requires Flowing() && Sized(t)
      modifies `fetched, `lastdata
      ensures Flowing()
      ensures stop.Some? ==> lastdata == old(lastdata) && fetched == old(fetched)
      ensures stop.Some? ==> old(lastdata).None? && StopsWith(t, dontwait, stop.value) && old(Rest()) == []
      ensures stop.None? ==> lastdata.Some? && old(fetched) <= fetched
      ensures stop.None? && old(lastdata).None? ==>
        t.fetch.Got? && lastdata == Some(t.fetch.buffer) && Rest() == t.fetch.buffer.text
      ensures old(lastdata).Some? || old(Rest()) != [] ==> lastdata == old(lastdata) && Rest() == old(Rest())
    {
      if lastdata.None? {
        if dontwait && !t.pendingBefore {
          return Some(-1);
        }
        if t.fetch.Failed? {
          return Some(if t.fetch.closed then 0 else -1);
        }
        fetched := fetched + t.fetch.buffer.text;
        lastdata := Some(t.fetch.buffer);
      }
      stop := None;
    }

    /** As much of the last buffer as fits is copied; unless it is only peeked at it is consumed,
        and an empty buffer is freed. */
    method CopyOut(left: nat, peek: bool) returns (piece: seq<Octet>)
      requires Flowing() && lastdata.Some?
      modifies `returned, `lastdata, `lastoffset
      ensures Flowing() && piece == Front(old(Rest()), left)
      ensures returned == if peek then old(returned) else old(returned) + piece
      ensures |piece| <= left && (old(Rest()) != [] && left > 0 ==> piece != [])
      ensures !peek && |piece| < left ==> lastdata.None?
      ensures peek ==> lastdata == old(lastdata) && lastoffset == old(lastoffset) && piece <= Rest()
    {
      hide *;
      Flows();
      var buf := lastdata.value;
      var buflen := |buf.text| - lastoffset;
      var copylen := if left > buflen then buflen else left;
      piece := buf.text[lastoffset..lastoffset + copylen];
      FrontIs(buf.text, lastoffset, left, copylen);
      if !peek {
        Consumed(fetched, returned, buf.text, lastoffset, copylen);
        returned := returned + piece;
        if buflen - copylen > 0 {
          lastoffset := lastoffset + copylen;
        } else {
          lastdata := None;
          lastoffset := 0;
        }
      }
      Settles(if lastdata.Some? then lastdata.value.text[lastoffset..] else []);
    }

    /** What Flowing() says, in terms of what is left. */
    lemma Flows()
      requires Flowing()
      ensures fetched == returned + Rest()
      ensures lastdata.Some? ==> lastoffset <= |lastdata.value.text| <= 0xffff
      ensures lastdata.Some? ==> Rest() == lastdata.value.text[lastoffset..]
    {
    }

    lemma Settles(rest: seq<Octet>)
      requires lastdata.None? ==> lastoffset == 0 && rest == []
      requires lastdata.Some? ==> lastoffset <= |lastdata.value.text| <= 0xffff
      requires lastdata.Some? ==> rest == lastdata.value.text[lastoffset..]
      requires fetched == returned + rest
      ensures Flowing() && Rest() == rest
    {
    }

    /** Nothing more can be had: what is there already is returned, or else `err`. */
    method Stop(mem: seq<Octet>, err: int) returns (r: int)
      modifies `credit
      ensures credit == old(credit) + |mem| && r == if mem != [] then |mem| else err
    {
      if mem != [] {
        Recved(|mem|);
        return |mem|;
      }
      r := err;
    }

    /** netconn_recved. */
    ghost method Recved(n: nat)
      modifies `credit
      ensures credit == old(credit) + n
    {
      credit := credit + n;
    }
  }

  predicate Sized(t: Turn) {
    t.fetch.Got? ==> |t.fetch.buffer.text| <= 0xffff
  }

  lemma SomeTurn(turns: seq<Turn>, i: nat, dontwait: bool, pushed: bool, peek: bool)
    requires i < |turns|
    ensures forall r :: StopsWith(turns[i], dontwait, r) ==> SomeStops(turns, dontwait, r) && -1 <= r <= 0
    ensures MayEnd(turns[i], pushed, peek) || MayEnd(turns[i], false, peek) ==> SomeMayEnd(turns, pushed, peek)
    ensures Empty(turns[i]) ==> SomeEmpty(turns)
  {
    assert turns[i] in turns;
    assert MayEnd(turns[i], false, peek) ==> MayEnd(turns[i], pushed, peek);
  }

  lemma SaneAt(turns: seq<Turn>, i: nat)
    requires Sane(turns) && i < |turns|
    ensures Sized(turns[i])
  {
    assert turns[i] in turns;
  }

  /** `mem` was handed out, for good or only peeked at. */
  predicate Joined(all: seq<Octet>, was: seq<Octet>, mem: seq<Octet>, peek: bool) {
    all == if peek then was else was + mem
  }

  lemma JoinedOn(all: seq<Octet>, all': seq<Octet>, was: seq<Octet>, mem: seq<Octet>, piece: seq<Octet>, peek: bool)
    requires Joined(all, was, mem, peek) && all' == if peek then all else all + piece
    ensures Joined(all', was, mem + piece, peek)
    ensures mem == [] ==> mem + piece == piece
    ensures |mem + piece| == |mem| + |piece| && (mem != [] || piece != [] ==> mem + piece != [])
  {
    assert was + mem + piece == was + (mem + piece);
  }

  predicate Grown(was: seq<Octet>, s: seq<Octet>) {
    was <= s
  }

  lemma GrownOn(a: seq<Octet>, b: seq<Octet>, c: seq<Octet>)
    requires Grown(a, b) && b <= c
    ensures Grown(a, c)
  {
  }

  lemma NothingYet(fetched: seq<Octet>, returned: seq<Octet>, peek: bool)
    ensures Grown(fetched, fetched) && Joined(returned, returned, [], peek)
  {
  }

  lemma Handed(fetchedWas: seq<Octet>, fetched: seq<Octet>,
               all: seq<Octet>, was: seq<Octet>, mem: seq<Octet>, peek: bool)
    requires Grown(fetchedWas, fetched) && Joined(all, was, mem, peek)
    ensures fetchedWas <= fetched && all == (if peek then was else was + mem)
    ensures |all| == |was| + if peek then 0 else |mem|
  {
  }

  lemma FrontIs(text: seq<Octet>, offset: nat, left: nat, n: nat)
    requires offset <= |text| && n == if left > |text| - offset then |text| - offset else left
    ensures text[offset..offset + n] == Front(text[offset..], left) <= text[offset..]
    ensures |text[offset..]| == |text| - offset
  {
  }

  /** Handing out the next octets of a buffer leaves the rest. */
  lemma Consumed(fetched: seq<Octet>, returned: seq<Octet>, text: seq<Octet>, offset: nat, n: nat)
    requires offset + n <= |text| && fetched == returned + text[offset..]
    ensures fetched == returned + text[offset..offset + n] + text[offset + n..]
    ensures offset + n == |text| ==> text[offset + n..] == []
  {
    assert text[offset..] == text[offset..offset + n] + text[offset + n..];
  }
}
