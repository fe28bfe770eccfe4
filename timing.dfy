/**
 * Shared timing state of the emulator: the 32-bit cycle counter, the queue of
 * scheduled events, and the C integer conversions that the timing code
 * relies on (unsigned 32-bit wrap-around, unsigned-to-signed reinterpretation
 * and division that truncates toward zero).
 */
module Timing {

  const TWO_32: int := 0x1_0000_0000
  const TWO_31: int := 0x8000_0000

  /** A `libspectrum_byte`: unsigned 8-bit. */
  type Byte = x: int | 0 <= x < 0x100

  /** A `libspectrum_word`: unsigned 16-bit. */
  type Word = x: int | 0 <= x < 0x1_0000

  /** A `libspectrum_dword`: unsigned 32-bit. */
  type U32 = x: int | 0 <= x < 0x1_0000_0000

  /** A `libspectrum_signed_dword`: signed 32-bit, two's complement. */
  type Int32 = x: int | -0x8000_0000 <= x < 0x8000_0000

  /** Conversion of any integer to unsigned 32-bit, as C does on assignment. */
  function Wrap32(x: int): (r: U32)
    ensures 0 <= x < TWO_32 ==> r == x
    ensures (x - r) % TWO_32 == 0
  {
    x % TWO_32
  }

  /** Reinterpretation of an unsigned 32-bit value as a signed one. */
  function Signed32(x: U32): (r: Int32)
    ensures Wrap32(r) == x
    ensures x < TWO_31 <==> r >= 0
  {
    if x < TWO_31 then x else x - TWO_32
  }

  lemma SignedOfWrap(e: Int32)
    ensures Signed32(Wrap32(e)) == e
  {
  }

  /** C's `/` on signed integers with a positive divisor: truncates toward zero. */
  function CDiv(a: int, b: int): int
    requires b > 0
  {
    if a >= 0 then a / b else -((-a) / b)
  }

  /** C's `%` on signed integers with a positive divisor: takes the sign of `a`. */
  function CMod(a: int, b: int): int
    requires b > 0
  {
    if a >= 0 then a % b else -((-a) % b)
  }

  /** The defining law of C division: quotient times divisor plus remainder
      gives back the dividend, and the remainder has the dividend's sign. */
  lemma CDivMod(a: int, b: int)
    requires b > 0
    ensures CDiv(a, b) * b + CMod(a, b) == a
    ensures a >= 0 ==> 0 <= CMod(a, b) < b
    ensures a < 0 ==> -b < CMod(a, b) <= 0
    ensures a >= 0 ==> CDiv(a, b) == a / b && CMod(a, b) == a % b
  {
  }

  /** Adding a small amount to a 32-bit value that stays below 2^31 neither
      wraps nor turns negative when the sum is reinterpreted as signed. */
  lemma WrapAdd(x: int, k: nat)
    requires Wrap32(x) + k < TWO_31
    ensures Signed32(Wrap32(x + k)) == Wrap32(x) + k
  {
    var q := x / TWO_32;
    assert x == q * TWO_32 + Wrap32(x);
    assert x + k == q * TWO_32 + (Wrap32(x) + k);
  }

  lemma MulMono(m: int, n: int)
    requires m >= 1 && n > 0
    ensures m * n >= n
  {
    assert m * n == (m - 1) * n + n;
    assert (m - 1) * n >= 0;
  }

  /** Quotient and remainder are the only pair with the division law. */
  lemma DivModUnique(a: int, n: int, q: int, r: int)
    requires n > 0 && a == q * n + r && 0 <= r < n
    ensures a / n == q && a % n == r
  {
    var q', r' := a / n, a % n;
    assert a == q' * n + r';
    if q' < q {
      MulMono(q - q', n);
    } else if q' > q {
      MulMono(q' - q, n);
    }
  }

  /** Two integers convert to the same 32-bit value exactly when they differ
      by a multiple of 2^32. */
  lemma WrapCongruent(a: int, b: int)
    ensures Wrap32(a) == Wrap32(b) <==> (a - b) % TWO_32 == 0
  {
    var qa, qb := a / TWO_32, b / TWO_32;
    if Wrap32(a) == Wrap32(b) {
      DivModUnique(a - b, TWO_32, qa - qb, 0);
    } else {
      var q := (a - b) / TWO_32;
      if (a - b) % TWO_32 == 0 {
        DivModUnique(a, TWO_32, qb + q, Wrap32(b));
      }
    }
  }

  /** Adding less than the distance to the next multiple of `n` adds to the remainder. */
  lemma ModStep(x: nat, k: nat, n: int)
    requires n > 0 && x % n + k < n
    ensures (x + k) % n == x % n + k
  {
    DivModUnique(x + k, n, x / n, x % n + k);
  }

  /** Division by a positive number is monotone. */
  lemma DivMonotone(a: nat, b: nat, n: int)
    requires a <= b && n > 0
    ensures a / n <= b / n
  {
    if a / n > b / n {
      MulMono(a / n - b / n, n);
    }
  }

  /** The three event kinds the processor registers, and the end-of-frame
      event the machine registers. */
  datatype EventKind = RetriggeredInterrupt | NonMaskableInterrupt | Iff2Update | EndOfFrame

  /** A pending event: when it fires and what it is. */
  datatype Event = Event(stamp: int, kind: EventKind)

  /** Every pending event moved `len` cycles earlier, in the same order. */
  function Rebased(q: seq<Event>, len: int): (r: seq<Event>)
    ensures |r| == |q|
    ensures forall i :: 0 <= i < |q| ==> r[i] == Event(q[i].stamp - len, q[i].kind)
  {
    if q == [] then [] else [Event(q[0].stamp - len, q[0].kind)] + Rebased(q[1..], len)
  }

  /** Rebasing never reorders: every pair of events keeps its relative order,
      and an event that was due later than the frame length keeps a positive stamp. */
  lemma RebasePreservesOrder(q: seq<Event>, len: int, i: int, j: int)
    requires 0 <= i < |q| && 0 <= j < |q|
    ensures Rebased(q, len)[i].stamp < Rebased(q, len)[j].stamp <==> q[i].stamp < q[j].stamp
    ensures Rebased(q, len)[i].stamp == Rebased(q, len)[j].stamp <==> q[i].stamp == q[j].stamp
    ensures q[i].stamp > len ==> Rebased(q, len)[i].stamp == q[i].stamp - len > 0
  {
  }

  /** The cycle counter, the pending-event queue and the instruction-count
      offset kept for input recordings: the timing state that the processor
      and the frame code both update. */
  class Clock {
    var tstates: U32
    var events: seq<Event>
    var rzxInstructionsOffset: int

    constructor ()
      ensures tstates == 0 && events == [] && rzxInstructionsOffset == 0
    {
      tstates := 0;
      events := [];
      rzxInstructionsOffset := 0;
    }

    /** Schedules an event of `kind` at absolute cycle `stamp`. */
    method Add(stamp: U32, kind: EventKind)
      modifies this`events
      ensures events == old(events) + [Event(stamp, kind)]
    {
      events := events + [Event(stamp, kind)];
    }

    /** Moves every pending event `len` cycles earlier. */
    method Rebase(len: U32)
      modifies this`events
      ensures events == Rebased(old(events), len)
    {
      events := Rebased(events, len);
    }
  }
}
