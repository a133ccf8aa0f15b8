/** The LED output device of src/led.cpp: one GPIO line, identified by its port
    and bit, with an active-low flag. The device keeps no state of its own
    beyond its identity; whether it is lit lives in the port registers, which
    every operation reads or writes. */
module Leds {
  import opened Registers

  /** RCC_AHB1ENR_GPIOAEN: bit 0 of RCC_AHB1ENR gates the clock of GPIOA, and
      the ports that follow it use the bits that follow. */
  const GpioAEnable: Word := {0}

  /** BLINK_RCC_MASKx(port), `RCC_AHB1ENR_GPIOAEN << port`: the clock-enable
      bit of the port alone. */
  function RccMask(port: nat): (m: Word)
    requires port < 32
    ensures forall i :: i in m <==> i == port
  {
    assert 0 in GpioAEnable && 0 + port < 32;
    ShiftLeft(GpioAEnable, port)
  }

  /** The value turn_on writes to BSRR: it asks to set the device's line
      when the device is active-high and to reset it when it is active-low,
      and asks nothing of any other line. */
  function OnCommand(bit: nat, activeLow: bool): (v: Word)
    requires bit < LineCount
    ensures LowHalf(v) == (if activeLow then {} else {bit})
    ensures HighHalf(v) == (if activeLow then {bit} else {})
  {
    var v := if activeLow then PinMask(bit + 16) else PinMask(bit);
    HalvesOfOneBit(v, if activeLow then bit + 16 else bit);
    v
  }

  /** The value turn_off writes to BSRR: it asks for the opposite level from
      OnCommand, and asks nothing of any other line. */
  function OffCommand(bit: nat, activeLow: bool): (v: Word)
    requires bit < LineCount
    ensures LowHalf(v) == (if activeLow then {bit} else {})
    ensures HighHalf(v) == (if activeLow then {} else {bit})
  {
    var v := if activeLow then PinMask(bit) else PinMask(bit + 16);
    HalvesOfOneBit(v, if activeLow then bit else bit + 16);
    v
  }

  /** The halves of a word with one bit set, below bit 32. */
  lemma HalvesOfOneBit(v: Word, n: nat)
    requires v == {n} && n < 32
    ensures LowHalf(v) == (if n < 16 then {n} else {})
    ensures HighHalf(v) == (if n < 16 then {} else {n - 16})
  {
    forall i: nat
      ensures i in HighHalf(v) <==> (n >= 16 && i == n - 16)
    {
      HighHalfBit(v, i);
    }
  }

  /** A device reads as on when its line is low if it is active-low, and high
      otherwise. */
  predicate Lit(idr: Word, bit: nat, activeLow: bool)
  {
    (bit in idr) != activeLow
  }

  /** ODR after turn_on. */
  function LitOdr(odr: Word, bit: nat, activeLow: bool): (r: Word)
    requires bit < LineCount
    ensures (bit in r) == !activeLow
    ensures r - {bit} == odr - {bit}
  {
    SetReset(odr, OnCommand(bit, activeLow))
  }

  /** ODR after turn_off. */
  function DarkOdr(odr: Word, bit: nat, activeLow: bool): (r: Word)
    requires bit < LineCount
    ensures (bit in r) == activeLow
    ensures r - {bit} == odr - {bit}
  {
    SetReset(odr, OffCommand(bit, activeLow))
  }

  /** ODR after toggle with pin mask `mask`: `ODR &= ~mask` when IDR reads a
      bit of the mask set, `ODR |= mask` otherwise. The lines of the mask all
      end low when IDR read any of them high, and all end high otherwise; the
      other lines keep their level. */
  function ToggledOdr(odr: Word, idr: Word, mask: Word): (r: Word)
    ensures forall i | i in mask :: i in r <==> idr * mask == {}
    ensures forall i | i !in mask :: i in r <==> i in odr
  {
    if idr * mask != {} then odr - mask else odr + mask
  }

  /** toggle drives the line to the opposite of the level IDR reads on it and
      moves no other line of ODR. */
  lemma ToggleFlipsLine(odr: Word, idr: Word, bit: nat)
    requires bit < LineCount
    ensures (bit in ToggledOdr(odr, idr, PinMask(bit))) == (bit !in idr)
    ensures ToggledOdr(odr, idr, PinMask(bit)) - {bit} == odr - {bit}
  {
    MaskTestsBit(idr, bit);
  }

  /** With the line configured as an output, turn_on makes isOn true and
      turn_off makes it false, whatever the polarity; the pad is low while an
      active-low device is lit. */
  lemma SwitchReadsBack(g: GpioPort, bit: nat, activeLow: bool)
    requires bit < LineCount && bit in g.outputs
    ensures Lit(Idr(g.(odr := LitOdr(g.odr, bit, activeLow))), bit, activeLow)
    ensures !Lit(Idr(g.(odr := DarkOdr(g.odr, bit, activeLow))), bit, activeLow)
    ensures (bit in Idr(g.(odr := LitOdr(g.odr, bit, activeLow)))) == !activeLow
  {
  }

  /** A second turn_on leaves ODR as the first left it, and so does a second
      turn_off. */
  lemma SwitchIdempotent(odr: Word, bit: nat, activeLow: bool)
    requires bit < LineCount
    ensures LitOdr(LitOdr(odr, bit, activeLow), bit, activeLow) == LitOdr(odr, bit, activeLow)
    ensures DarkOdr(DarkOdr(odr, bit, activeLow), bit, activeLow) == DarkOdr(odr, bit, activeLow)
  {
    SetResetIdempotent(odr, OnCommand(bit, activeLow));
    SetResetIdempotent(odr, OffCommand(bit, activeLow));
  }

  /** On an output line, toggle flips what isOn reads. */
  lemma ToggleFlipsLit(g: GpioPort, bit: nat, activeLow: bool)
    requires bit < LineCount && bit in g.outputs
    ensures Lit(Idr(g.(odr := ToggledOdr(g.odr, Idr(g), PinMask(bit)))), bit, activeLow)
        == !Lit(Idr(g), bit, activeLow)
  {
    ToggleFlipsLine(g.odr, Idr(g), bit);
  }

  /** On an input line, toggle writes ODR but isOn reads the outside level,
      so what isOn reads does not change. */
  lemma ToggleOnInputLine(g: GpioPort, bit: nat, activeLow: bool)
    requires bit < LineCount && bit !in g.outputs
    ensures Lit(Idr(g.(odr := ToggledOdr(g.odr, Idr(g), PinMask(bit)))), bit, activeLow)
        == Lit(Idr(g), bit, activeLow)
  {
    ToggleFlipsLine(g.odr, Idr(g), bit);
  }

  /** On an output line, two toggles restore the port exactly. */
  lemma {:induction false} ToggleTwiceRestores(g: GpioPort, bit: nat)
    requires bit < LineCount && bit in g.outputs
    ensures var once := g.(odr := ToggledOdr(g.odr, Idr(g), PinMask(bit)));
      once.(odr := ToggledOdr(once.odr, Idr(once), PinMask(bit))) == g
  {
    var once := g.(odr := ToggledOdr(g.odr, Idr(g), PinMask(bit)));
    var twice := once.(odr := ToggledOdr(once.odr, Idr(once), PinMask(bit)));
    MaskTestsBit(Idr(g), bit);
    MaskTestsBit(Idr(once), bit);
    if bit in g.odr {
      assert twice.odr == (g.odr - {bit}) + {bit};
    } else {
      assert twice.odr == (g.odr + {bit}) - {bit};
    }
  }

  /** One LED: the `led` class of src/led.cpp. Its fields are set once, by the
      constructor. */
  class Led {
    const port: nat
    const bit: nat
    const activeLow: bool
    const bitMask: Word

    /** The port and bit address a real line and the mask is the line's
        bit. */
    predicate Valid()
    {
      port < PortCount && bit < LineCount && bitMask == PinMask(bit)
    }

    /** led::led: records the line and computes its mask. */
    constructor (port: nat, bit: nat, activeLow: bool)
      requires bit < 32
      ensures this.port == port && this.bit == bit && this.activeLow == activeLow
      ensures bitMask == PinMask(bit)
      ensures port < PortCount && bit < LineCount ==> Valid()
    {
      this.port := port;
      this.bit := bit;
      this.activeLow := activeLow;
      this.bitMask := PinMask(bit);
    }

    /** The device's line has been configured as an output. */
    ghost predicate IsOutput(regs: Peripherals)
      reads regs.gpio
      requires Valid() && regs.Valid()
    {
      bit in regs.gpio[port].outputs
    }

    /** isOn: reads the line through IDR and reinterprets it by polarity. */
    function IsOn(regs: Peripherals): (on: bool)
      reads regs.gpio
      requires Valid() && regs.Valid()
      ensures on == Lit(Idr(regs.gpio[port]), bit, activeLow)
    {
      MaskTestsBit(Idr(regs.gpio[port]), bit);
      if activeLow then Idr(regs.gpio[port]) * bitMask == {}
      else Idr(regs.gpio[port]) * bitMask != {}
    }

    /** power_up: enables the port's clock, makes the line an output and turns
        the device off. */
    method PowerUp(regs: Peripherals)
      requires Valid() && regs.Valid()
      modifies regs, regs.gpio
      ensures regs.ahb1enr == old(regs.ahb1enr) + RccMask(port)
      ensures regs.gpio[..] == old(regs.gpio[..])[port := old(regs.gpio[port]).(
        outputs := old(regs.gpio[port].outputs) + {bit},
        odr := DarkOdr(old(regs.gpio[port].odr), bit, activeLow))]
      ensures IsOutput(regs) && !IsOn(regs)
    {
      regs.EnableClocks(RccMask(port));
      regs.InitOutputs(port, bitMask);
      TurnOff(regs);
    }

    /** turn_on: one write to BSRR. */
    method TurnOn(regs: Peripherals)
      requires Valid() && regs.Valid()
      modifies regs.gpio
      ensures regs.gpio[..] == old(regs.gpio[..])[port := old(regs.gpio[port]).(
        odr := LitOdr(old(regs.gpio[port].odr), bit, activeLow))]
      ensures IsOutput(regs) ==> IsOn(regs)
    {
      if activeLow {
        regs.WriteBsrr(port, PinMask(bit + 16));
      } else {
        regs.WriteBsrr(port, bitMask);
      }
    }

    /** turn_off: one write to BSRR. */
    method TurnOff(regs: Peripherals)
      requires Valid() && regs.Valid()
      modifies regs.gpio
      ensures regs.gpio[..] == old(regs.gpio[..])[port := old(regs.gpio[port]).(
        odr := DarkOdr(old(regs.gpio[port].odr), bit, activeLow))]
      ensures IsOutput(regs) ==> !IsOn(regs)
    {
      if activeLow {
        regs.WriteBsrr(port, bitMask);
      } else {
        regs.WriteBsrr(port, PinMask(bit + 16));
      }
    }

    /** toggle: reads the line through IDR, then clears or sets it in ODR. */
    method Toggle(regs: Peripherals)
      requires Valid() && regs.Valid()
      modifies regs.gpio
      ensures regs.gpio[..] == old(regs.gpio[..])[port := old(regs.gpio[port]).(
        odr := ToggledOdr(old(regs.gpio[port].odr), old(Idr(regs.gpio[port])), bitMask))]
      ensures IsOutput(regs) ==> IsOn(regs) == !old(IsOn(regs))
      ensures !IsOutput(regs) ==> IsOn(regs) == old(IsOn(regs))
    {
      var g := regs.gpio[port];
      if Idr(g) * bitMask != {} {
        regs.WriteOdr(port, g.odr - bitMask);
      } else {
        regs.WriteOdr(port, g.odr + bitMask);
      }
      if IsOutput(regs) {
        ToggleFlipsLit(g, bit, activeLow);
      } else {
        ToggleOnInputLine(g, bit, activeLow);
      }
    }
  }
}
