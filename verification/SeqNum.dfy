/** 32-bit TCP sequence numbers, as the TCP_SEQ_* macros of tcp_impl.h compare them:
    by the sign of the wrapped difference.  The lemmas connect the wrapped numbers to
    unbounded stream positions, so that everything above can be stated on integers. */
module SeqNum {

  const WRAP: int := 0x1_0000_0000
  const HALF: int := 0x8000_0000

  type u32 = x: int | 0 <= x < 0x1_0000_0000

  /** The sequence number of an unbounded position. */
  function Wrap(x: int): u32 {
    x % 0x1_0000_0000
  }

  /** The C expression (s32_t)((u32_t)a - (u32_t)b). */
  function Diff(a: u32, b: u32): int {
    var d := (a - b) % 0x1_0000_0000;
    if d < 0x8000_0000 then d else d - 0x1_0000_0000
  }

  /** The C cast (s16_t). */
  function S16(x: int): (r: int)
    ensures -0x8000 <= r < 0x8000
  {
    (x + 0x8000) % 0x1_0000 - 0x8000
  }

  predicate SeqLeq(a: u32, b: u32) {
    Diff(a, b) <= 0
  }

  predicate SeqGt(a: u32, b: u32) {
    Diff(a, b) > 0
  }

  predicate SeqGeq(a: u32, b: u32) {
    Diff(a, b) >= 0
  }

  predicate SeqBetween(a: u32, b: u32, c: u32) {
    SeqGeq(a, b) && SeqLeq(a, c)
  }

  lemma WrapPeriodic(x: int, m: int)
    ensures Wrap(x + m * WRAP) == Wrap(x)
  {
  }

  /** Positions less than half the sequence space apart are ordered as their numbers are;
      beyond that the macros see the nearest congruent position instead. */
  lemma DiffOfWrap(x: int, y: int)
    ensures -HALF <= x - y < HALF <==> Diff(Wrap(x), Wrap(y)) == x - y
  {
    assert (x % WRAP - y % WRAP) % WRAP == (x - y) % WRAP;
  }

  /** From half the space to one and a half, the macros see the difference one lap less. */
  lemma DiffOneLap(x: int, y: int)
    requires HALF <= x - y < WRAP + HALF
    ensures Diff(Wrap(x), Wrap(y)) == x - y - WRAP
  {
    WrapPeriodic(x, -1);
    DiffOfWrap(x - WRAP, y);
  }

  lemma WrapAdd(x: int, n: int)
    ensures Wrap(Wrap(x) + n) == Wrap(x + n)
  {
  }

  lemma DiffSwap(a: u32, b: u32)
    ensures Diff(a, b) == if Diff(b, a) == -HALF then -HALF else -Diff(b, a)
  {
  }

  /** Moving the right operand n places up moves the difference n places down, around the
      lower end of the half space. */
  lemma DiffBack(a: u32, b: u32, n: nat)
    requires n < HALF
    ensures var e := Diff(a, b) - n;
      Diff(a, Wrap(b + n)) == if e < -HALF then e + WRAP else e
  {
    var w := Wrap(b + n);
    assert w == b + n || w == b + n - WRAP;
  }
}
