/** tcp_new_port (tcp.c): the next local port that no pcb on the four lists uses. */
module NewPort {

  const START: nat := 0xc000
  const END: nat := 0xffff
  const PORTS: nat := 0x4000

  type Port = p: nat | START <= p <= END witness START

  /** Some pcb on some list has this local port. */
  predicate Used(lists: seq<seq<nat>>, p: nat) {
    exists i :: 0 <= i < |lists| && p in lists[i]
  }

  /** The k-th port after p, going round the range. */
  function After(p: Port, k: nat): Port {
    START + (p - START + k) % PORTS
  }

  lemma AfterNext(p: Port, k: nat)
    ensures After(p, k + 1) == if After(p, k) == END then START else After(p, k) + 1
  {
  }

  /** Once round the range meets every port. */
  lemma AllMet(p: Port, q: Port)
    ensures exists k :: 1 <= k <= PORTS && After(p, k) == q
  {
    var k := if q > p then q - p else q - p + PORTS;
    assert After(p, k) == q;
  }

  class Ports {
    var tcpPort: Port

    constructor (seed: Port)
      ensures tcpPort == seed
    {
      tcpPort := seed;
    }

    /** The first port after the last one handed out that is not used, or 0 exactly when all
        16384 are; the next search goes on from there. */
    method NewPort(lists: seq<seq<nat>>) returns (r: nat)
      modifies this
      ensures r == 0 <==> forall p: Port :: Used(lists, p)
      ensures r != 0 ==> START <= r <= END && !Used(lists, r) && tcpPort == r
      ensures r != 0 ==> exists k :: (1 <= k <= PORTS && r == After(old(tcpPort), k)
        && forall j :: 1 <= j < k ==> Used(lists, After(old(tcpPort), j)))
    {
      ghost var p0 := tcpPort;
      var n := 0;
      while true
        invariant n < PORTS && tcpPort == After(p0, n)
        invariant forall j :: 1 <= j <= n ==> Used(lists, After(p0, j))
        decreases PORTS - n
      {
        AfterNext(p0, n);
        tcpPort := if tcpPort == END then START else tcpPort + 1;
        var taken := InUse(lists, tcpPort);
        if !taken {
          return tcpPort;
        }
        n := n + 1;
        if n > END - START {
          forall p: Port
            ensures Used(lists, p)
          {
            AllMet(p0, p);
          }
          return 0;
        }
      }
    }
  }

  /** The scan of the lists. */
  method InUse(lists: seq<seq<nat>>, port: nat) returns (r: bool)
    ensures r <==> Used(lists, port)
  {
    for i := 0 to |lists|
      invariant forall k :: 0 <= k < i ==> port !in lists[k]
    {
      for j := 0 to |lists[i]|
        invariant port !in lists[i][..j]
      {
        if lists[i][j] == port {
          return true;
        }
      }
      assert lists[i][..|lists[i]|] == lists[i];
    }
    r := false;
  }
}
