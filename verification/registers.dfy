/** Register-level model of the STM32F4 peripherals the LED driver touches: the
    GPIO ports (reference manual RM0090, section 8.4) and the AHB1 clock-enable
    word of the RCC (RM0090, section 7.3.10).

    A register word is modelled as the set of the positions of its 1 bits, so
    `w | m` is `w + m`, `w & ~m` is `w - m` and `(w & m) != 0` is `w * m != {}`.
    `BitsOf` ties a word to the unsigned 32-bit number it holds, and the
    lemmas about the C operators below are stated through it.

    A GPIO port is reduced to three words, one position per line: the lines
    configured as outputs, the output data register (ODR), and the levels
    that outside circuitry puts on the lines that are not outputs. The input data register
    (IDR) samples the pads, so it reads ODR on an output line and the outside
    level on any other line (RM0090, sections 8.3.10 and 8.4.5). The bit
    set/reset register (BSRR) is write-only and is modelled by its effect on
    ODR. */
module Registers {

  /** A register word: the positions of its 1 bits. */
  type Word = set<nat>

  /** The lines of a GPIO port, and the bits of a GPIO port register. */
  const LineCount: nat := 16

  /** GPIOA .. GPIOK: the largest STM32F4 parts have eleven GPIO ports. */
  const PortCount: nat := 11

  // ---------------------------------------------------------------------
  // Words as the unsigned numbers they stand for

  /** 2^n. */
  function Pow2(n: nat): (p: nat)
    ensures p >= 1
  {
    if n == 0 then 1 else 2 * Pow2(n - 1)
  }

  /** Bit i of the binary numeral of x. */
  predicate Bit(x: int, i: nat)
    decreases i
  {
    if i == 0 then x % 2 == 1 else Bit(x / 2, i - 1)
  }

  /** The word holding the number x in a 32-bit register: the positions of
      the 1 bits of x below 32. */
  function BitsOf(x: int): Word
  {
    set i: nat | i < 32 && Bit(x, i)
  }

  /** Zero has no 1 bit. */
  lemma {:induction false} ZeroBit(i: nat)
    ensures !Bit(0, i)
  {
    if i > 0 {
      ZeroBit(i - 1);
    }
  }

  /** 2^n has bit n alone. */
  lemma {:induction false} PowBit(n: nat, i: nat)
    ensures Bit(Pow2(n), i) <==> i == n
  {
    if n == 0 {
      if i > 0 {
        ZeroBit(i - 1);
      }
    } else if i > 0 {
      PowBit(n - 1, i - 1);
    }
  }

  /** Multiplying by 2^k moves every bit up by k. */
  lemma {:induction false} MulBit(x: int, k: nat, i: nat)
    ensures Bit(x * Pow2(k), i) <==> k <= i && Bit(x, i - k)
  {
    if k > 0 {
      var y := x * Pow2(k - 1);
      assert x * Pow2(k) == 2 * y;
      if i > 0 {
        MulBit(x, k - 1, i - 1);
      }
    }
  }

  /** Multiplication by d is monotonic in steps of d. */
  lemma {:induction false} MulStep(d: nat, x: int, y: int)
    ensures x < y ==> d * x + d <= d * y
    decreases y - x
  {
    if x < y {
      if x + 1 < y {
        MulStep(d, x, y - 1);
      }
      assert d * y == d * (y - 1) + d;
    }
  }

  /** Quotient and remainder are unique. */
  lemma DivModUnique(a: int, d: nat, q: int, r: nat)
    requires d > 0 && r < d && a == d * q + r
    ensures a / d == q && a % d == r
  {
    MulStep(d, a / d, q);
    MulStep(d, q, a / d);
  }

  /** Halving commutes with reduction modulo an even number. */
  lemma ModHalf(y: int, p: nat)
    requires p > 0
    ensures (y % (2 * p)) % 2 == y % 2
    ensures (y % (2 * p)) / 2 == (y / 2) % p
  {
    var q, r := y / (2 * p), y % (2 * p);
    assert y == 2 * (p * q + r / 2) + r % 2;
    DivModUnique(y, 2, p * q + r / 2, r % 2);
    DivModUnique(y / 2, p, q, r / 2);
  }

  /** Dividing by 2p is halving and then dividing by p. */
  lemma DivHalf(x: int, p: nat)
    requires p > 0
    ensures x / (2 * p) == (x / 2) / p
  {
    var q, r := (x / 2) / p, (x / 2) % p;
    assert x == (2 * p) * q + (2 * r + x % 2);
    DivModUnique(x, 2 * p, q, 2 * r + x % 2);
  }

  /** Reduction modulo 2^m keeps the bits below m and clears the others. */
  lemma {:induction false} ModBit(y: int, m: nat, i: nat)
    ensures Bit(y % Pow2(m), i) <==> i < m && Bit(y, i)
    decreases m
  {
    if m == 0 {
      ZeroBit(i);
    } else {
      ModHalf(y, Pow2(m - 1));
      if i > 0 {
        ModBit(y / 2, m - 1, i - 1);
      }
    }
  }

  /** Dividing by 2^m moves every bit down by m. */
  lemma {:induction false} DivBit(x: int, m: nat, i: nat)
    ensures Bit(x / Pow2(m), i) <==> Bit(x, i + m)
    decreases m
  {
    if m > 0 {
      DivHalf(x, Pow2(m - 1));
      DivBit(x / 2, m - 1, i);
    }
  }

  // ---------------------------------------------------------------------
  // The C operators on words

  /** `1 << n` for a 32-bit unsigned n below 32. src/led.cpp:34 names it
      BLINK_PIN_MASK. */
  function PinMask(n: nat): (m: Word)
    requires n < 32
    ensures m == BitsOf(Pow2(n))
  {
    assert BitsOf(Pow2(n)) == {n} by {
      forall i: nat
        ensures i in BitsOf(Pow2(n)) <==> i == n
      {
        PowBit(n, i);
      }
    }
    {n}
  }

  /** `(w & (1 << n)) != 0` tests bit n of w. */
  lemma {:induction false} MaskTestsBit(w: Word, n: nat)
    requires n < 32
    ensures (w * PinMask(n) != {}) == (n in w)
  {
    if n in w {
      assert n in w * PinMask(n);
    } else {
      assert w * PinMask(n) == {};
    }
  }

  /** `w << k` in a 32-bit register. */
  function ShiftLeft(w: Word, k: nat): Word
  {
    set b | b in w && b + k < 32 :: b + k
  }

  /** Bit i of `w << k` is bit i - k of w, below bit 32. */
  lemma ShiftLeftBit(w: Word, k: nat, i: nat)
    ensures i in ShiftLeft(w, k) <==> (k <= i < 32 && i - k in w)
  {
    if k <= i < 32 && i - k in w {
      var b := i - k;
      assert b in w && b + k < 32 && b + k == i;
    }
  }

  /** Shifting a word left by k multiplies the number it holds by 2^k,
      modulo 2^32. */
  lemma {:induction false} ShiftLeftValue(x: nat, k: nat)
    ensures ShiftLeft(BitsOf(x), k) == BitsOf(x * Pow2(k) % Pow2(32))
  {
    var y := x * Pow2(k);
    forall i: nat
      ensures i in ShiftLeft(BitsOf(x), k) <==> i in BitsOf(y % Pow2(32))
    {
      ShiftLeftBit(BitsOf(x), k, i);
      ShiftedBit(x, y, k, i);
    }
  }

  /** Bit i of x * 2^k modulo 2^32, for the bit tests of ShiftLeftValue. */
  lemma ShiftedBit(x: int, y: int, k: nat, i: nat)
    requires y == x * Pow2(k)
    ensures Bit(y % Pow2(32), i) <==> i < 32 && k <= i && Bit(x, i - k)
  {
    ModBit(y, 32, i);
    MulBit(x, k, i);
  }

  /** The low half of a 32-bit word, as a 16-bit word: `w & 0xFFFF`. */
  function LowHalf(w: Word): Word
  {
    set b | b in w && b < 16
  }

  /** The low half of a word holds the number modulo 2^16. */
  lemma {:induction false} LowHalfValue(x: nat)
    ensures LowHalf(BitsOf(x)) == BitsOf(x % Pow2(16))
  {
    forall i: nat
      ensures i in LowHalf(BitsOf(x)) <==> i in BitsOf(x % Pow2(16))
    {
      ModBit(x, 16, i);
    }
  }

  /** The high half of a 32-bit word, as a 16-bit word: `(w >> 16) & 0xFFFF`. */
  function HighHalf(w: Word): Word
  {
    set b | b in w && 16 <= b < 32 :: b - 16
  }

  /** Bit i of the high half is bit i + 16 of the word, for i below 16. */
  lemma HighHalfBit(w: Word, i: nat)
    ensures i in HighHalf(w) <==> (i < 16 && i + 16 in w)
  {
    if i < 16 && i + 16 in w {
      var b := i + 16;
      assert b in w && 16 <= b < 32 && b - 16 == i;
    }
  }

  /** The high half of a word holds the number divided by 2^16, modulo
      2^16. */
  lemma {:induction false} HighHalfValue(x: nat)
    ensures HighHalf(BitsOf(x)) == BitsOf(x / Pow2(16) % Pow2(16))
  {
    var y := x / Pow2(16);
    forall i: nat
      ensures i in HighHalf(BitsOf(x)) <==> i in BitsOf(y % Pow2(16))
    {
      HighHalfBit(BitsOf(x), i);
      UpperBit(x, y, i);
    }
  }

  /** Bit i of x / 2^16 modulo 2^16, for the bit tests of HighHalfValue. */
  lemma UpperBit(x: int, y: int, i: nat)
    requires y == x / Pow2(16)
    ensures Bit(y % Pow2(16), i) <==> i < 16 && Bit(x, i + 16)
  {
    ModBit(y, 16, i);
    DivBit(x, 16, i);
  }

  datatype GpioPort = GpioPort(outputs: Word, external: Word, odr: Word)

  /** The input data register. On the lines configured as outputs it mirrors
      ODR; on the other lines it reads what outside circuitry drives. */
  function Idr(g: GpioPort): (idr: Word)
    ensures idr * g.outputs == g.odr * g.outputs
    ensures idr - g.outputs == g.external - g.outputs
  {
    (g.external - g.outputs) + (g.odr * g.outputs)
  }

  /** ODR after a write of `bsrr` to BSRR (RM0090, section 8.4.7). Line by
      line, the write sets line i when bit i is written, resets it when only
      bit i + 16 is, and otherwise leaves it as it was: the set bit wins when
      both are written. Positions above the port's lines are not touched, so
      a 16-bit ODR stays a 16-bit ODR. */
  function SetReset(odr: Word, bsrr: Word): (r: Word)
    ensures forall i: nat | i < LineCount :: i in r <==> (i in bsrr || (i + 16 !in bsrr && i in odr))
    ensures forall i: nat | i >= LineCount :: i in r <==> i in odr
  {
    var r := (odr - HighHalf(bsrr)) + LowHalf(bsrr);
    assert forall i: nat :: i in HighHalf(bsrr) <==> (i < 16 && i + 16 in bsrr) by {
      forall i: nat
        ensures i in HighHalf(bsrr) <==> (i < 16 && i + 16 in bsrr)
      {
        HighHalfBit(bsrr, i);
      }
    }
    r
  }

  /** Writing the same value to BSRR twice has the effect of writing it once. */
  lemma SetResetIdempotent(odr: Word, bsrr: Word)
    ensures SetReset(SetReset(odr, bsrr), bsrr) == SetReset(odr, bsrr)
  {
  }

  /** The peripheral registers: the AHB1 clock-enable word of the RCC and the
      GPIO ports, indexed by port number (0 is GPIOA). The clock-enable word
      is kept as written; the model does not make a port ignore accesses
      while its clock is gated. */
  class Peripherals {
    var ahb1enr: Word
    const gpio: array<GpioPort>

    ghost predicate Valid()
    {
      gpio.Length == PortCount
    }

    /** The registers after reset, as far as the model keeps them: AHB1ENR
        clear, every line an input, every ODR clear, every pad low. */
    constructor Reset()
      ensures Valid() && fresh(gpio)
      ensures ahb1enr == {}
      ensures forall p | 0 <= p < PortCount :: gpio[p] == GpioPort({}, {}, {})
    {
      ahb1enr := {};
      gpio := new GpioPort[PortCount](_ => GpioPort({}, {}, {}));
    }

    /** `RCC->AHB1ENR |= mask`. */
    method EnableClocks(mask: Word)
      modifies this
      ensures ahb1enr == old(ahb1enr) + mask
    {
      ahb1enr := ahb1enr + mask;
    }

    /** The part of HAL_GPIO_Init the model keeps: the lines in `pins` of the
        port become push-pull outputs. */
    method InitOutputs(port: nat, pins: Word)
      requires Valid() && port < PortCount
      modifies gpio
      ensures gpio[..] == old(gpio[..])[port := old(gpio[port]).(outputs := old(gpio[port].outputs) + pins)]
    {
      gpio[port] := gpio[port].(outputs := gpio[port].outputs + pins);
    }

    /** The part of HAL_GPIO_Init the model keeps for input mode: the lines
        in `pins` of the port stop being outputs. */
    method InitInputs(port: nat, pins: Word)
      requires Valid() && port < PortCount
      modifies gpio
      ensures gpio[..] == old(gpio[..])[port := old(gpio[port]).(outputs := old(gpio[port].outputs) - pins)]
    {
      gpio[port] := gpio[port].(outputs := gpio[port].outputs - pins);
    }

    /** `GPIOx->BSRR = value`. */
    method WriteBsrr(port: nat, value: Word)
      requires Valid() && port < PortCount
      modifies gpio
      ensures gpio[..] == old(gpio[..])[port := old(gpio[port]).(odr := SetReset(old(gpio[port].odr), value))]
    {
      gpio[port] := gpio[port].(odr := SetReset(gpio[port].odr, value));
    }

    /** `GPIOx->ODR = value`. */
    method WriteOdr(port: nat, value: Word)
      requires Valid() && port < PortCount
      modifies gpio
      ensures gpio[..] == old(gpio[..])[port := old(gpio[port]).(odr := value)]
    {
      gpio[port] := gpio[port].(odr := value);
    }
  }
}
