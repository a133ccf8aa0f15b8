/** The plant-watering control loop of src/main.cpp.

    The program keeps a 32-bit unsigned water level, starting at 50, and a
    32-bit unsigned minute counter, starting at 0. Each turn of its endless
    loop advances the counter; once a day (every 1440th minute) a simulated
    sensor lowers the level by a pseudo-random amount below 25; whenever the
    level is below 50 the motor adds one unit, LED 0 lights and LED 2 goes
    dark, and when that brings the level back to exactly 50 the motor stops
    and the two LEDs swap back.

    The pure part, `Iterate` and `Run`, states what one turn and a sequence
    of turns do to the abstract state `Plant`; the class `ControlLoop` runs
    the same turn on the registers through the LED driver and is proved to
    agree with it. */
module PlantWatering {
  import opened Registers
  import opened Leds

  /** 2^32: uint32_t arithmetic is modulo this. */
  const Uint32Limit: int := 0x1_0000_0000

  type uint32 = x: int | 0 <= x < Uint32Limit

  /** A value of `rand() % 25`: rand() never returns a negative number. */
  type Draw = r: int | 0 <= r < 25

  const MinutesPerDay: nat := 1440

  /** The level below which the motor runs, and the level it refills to. */
  const FullLevel: nat := 50

  /** `uint32_t water_level = 50;` */
  const InitialLevel: uint32 := 50

  /** `x++` on a uint32_t. */
  function Increment(x: uint32): (y: uint32)
    ensures x + 1 < Uint32Limit ==> y == x + 1
    ensures x + 1 == Uint32Limit ==> y == 0
  {
    (x + 1) % Uint32Limit
  }

  /** `water_level -= rand_int` on a uint32_t: no clamp at zero, so an amount
      larger than the level wraps it to the top of the range. */
  function Decrement(level: uint32, r: Draw): (l: uint32)
    ensures r <= level ==> l == level - r
    ensures r > level ==> l == level - r + Uint32Limit && l >= Uint32Limit - 24
  {
    (level - r) % Uint32Limit
  }

  // ---------------------------------------------------------------------
  // Blink timing

  /** BLINK_ON_TICKS, `FREQUENCY_HZ * 3 / 4`: three quarters of a second,
      rounded down. */
  function BlinkOnTicks(hz: nat): (t: nat)
    ensures 4 * t <= 3 * hz < 4 * t + 4
  {
    hz * 3 / 4
  }

  /** BLINK_OFF_TICKS, `FREQUENCY_HZ - BLINK_ON_TICKS`: the rest of the
      second, never shorter than a quarter of it. */
  function BlinkOffTicks(hz: nat): (t: nat)
    ensures t + BlinkOnTicks(hz) == hz
    ensures hz <= 4 * t
  {
    hz - BlinkOnTicks(hz)
  }

  // ---------------------------------------------------------------------
  // One turn of the loop, on values

  /** What one turn of the loop reads and writes: the level, the minute
      counter, and what isOn reports for LED 0 and LED 2. */
  datatype Plant = Plant(level: uint32, minute: uint32, led0: bool, led2: bool)

  /** The state before the first turn: the LEDs come out of power_up off. */
  const Initial: Plant := Plant(InitialLevel, 0, false, false)

  /** The turn that starts with the counter at `minute` runs the daily
      sensor update when its incremented counter is a multiple of 1440:
      every 1440th minute, and also the turn where the counter wraps to 0. */
  function DayBoundary(minute: uint32): (b: bool)
    ensures minute + 1 < Uint32Limit ==> (b <==> (minute + 1) % MinutesPerDay == 0)
    ensures minute + 1 == Uint32Limit ==> b
  {
    Increment(minute) % MinutesPerDay == 0
  }

  /** The level after the daily step of a turn: unchanged except on a day
      boundary, where it drops by the draw or, when the draw is larger,
      wraps to the top of the range. */
  function Daily(s: Plant, r: Draw): (l: uint32)
    ensures !DayBoundary(s.minute) ==> l == s.level
    ensures DayBoundary(s.minute) && r <= s.level ==> l == s.level - r
    ensures l <= s.level || (DayBoundary(s.minute) && l >= Uint32Limit - 24)
  {
    if DayBoundary(s.minute) then Decrement(s.level, r) else s.level
  }

  /** One turn of `while(1)`, with `r` the value rand() % 25 would take if
      this turn is a day boundary.

      The turn advances the counter by one. The motor branch runs exactly
      when the level after the daily step is below 50, and then adds exactly
      one unit; in it, the motor-off half (LED 0 dark, LED 2 lit) runs
      exactly when the level entering the branch was 49, and from any lower
      level LED 0 is lit and LED 2 dark. Outside the branch neither the level
      nor an LED changes. */
  function Iterate(s: Plant, r: Draw): (t: Plant)
    ensures t.minute == (s.minute + 1) % Uint32Limit
    ensures Daily(s, r) < FullLevel <==> t.level == Daily(s, r) + 1
    ensures Daily(s, r) < FullLevel ==>
      (t.led2 <==> Daily(s, r) == 49) && (t.led0 <==> Daily(s, r) != 49)
    ensures Daily(s, r) >= FullLevel ==>
      t == s.(level := Daily(s, r), minute := Increment(s.minute))
  {
    var l := Daily(s, r);
    if l < FullLevel then
      if Increment(l) == FullLevel then Plant(Increment(l), Increment(s.minute), false, true)
      else Plant(Increment(l), Increment(s.minute), true, false)
    else
      Plant(l, Increment(s.minute), s.led0, s.led2)
  }

  /** A turn that starts at or above 50 and is not a day boundary changes
      only the counter. */
  lemma QuietTurn(s: Plant, r: Draw)
    requires s.level >= FullLevel && !DayBoundary(s.minute)
    ensures Iterate(s, r) == s.(minute := Increment(s.minute))
  {
  }

  /** A turn that starts at or below 50 ends at or below 50 unless the daily
      update wrapped the level; a wrapped level is far above 50, so the motor
      does not run. */
  lemma {:induction false} BoundedUnlessWrapped(s: Plant, r: Draw)
    requires s.level <= FullLevel
    ensures Iterate(s, r).level <= FullLevel || (DayBoundary(s.minute) && r > s.level)
    ensures DayBoundary(s.minute) && r > s.level ==>
      Iterate(s, r) == s.(level := s.level - r + Uint32Limit, minute := Increment(s.minute))
  {
    if DayBoundary(s.minute) && r > s.level {
      assert Daily(s, r) >= Uint32Limit - 24;
    }
  }

  // ---------------------------------------------------------------------
  // Many turns

  /** The state after one turn per draw, in order. */
  function Run(s: Plant, draws: seq<Draw>): (t: Plant)
    ensures t.minute == (s.minute + |draws|) % Uint32Limit
    decreases |draws|
  {
    if |draws| == 0 then s
    else
      var before := Run(s, draws[..|draws| - 1]);
      CounterStep(s.minute + |draws| - 1);
      Iterate(before, draws[|draws| - 1])
  }

  /** Counting one on from a counter that has wrapped is counting on before
      the wrap. */
  lemma CounterStep(a: nat)
    ensures (a % Uint32Limit + 1) % Uint32Limit == (a + 1) % Uint32Limit
  {
    var q := a / Uint32Limit;
    assert a == Uint32Limit * q + a % Uint32Limit;
    assert a + 1 == Uint32Limit * q + (a % Uint32Limit + 1);
  }

  /** Running two stretches one after the other is running them joined. */
  lemma {:induction false} RunAppend(s: Plant, d1: seq<Draw>, d2: seq<Draw>)
    ensures Run(Run(s, d1), d2) == Run(s, d1 + d2)
    decreases |d2|
  {
    if |d2| == 0 {
      assert d1 + d2 == d1;
    } else {
      var d2' := d2[..|d2| - 1];
      assert (d1 + d2)[..|d1 + d2| - 1] == d1 + d2';
      RunAppend(s, d1, d2');
    }
  }

  /** The counter neither wraps nor reaches a multiple of 1440 in the next
      n turns after `minute`. */
  predicate NoBoundaryWithin(minute: uint32, n: nat)
  {
    minute + n < Uint32Limit && minute % MinutesPerDay + n < MinutesPerDay
  }

  /** Counting on from m without passing a multiple of 1440 counts on the
      minute of the day. */
  lemma ModStep(m: nat, k: nat)
    requires m % MinutesPerDay + k < MinutesPerDay
    ensures (m + k) % MinutesPerDay == m % MinutesPerDay + k
  {
    var q := m / MinutesPerDay;
    assert m + k == MinutesPerDay * q + (m % MinutesPerDay + k);
  }

  /** With the level at or above 50 and no day boundary ahead, a stretch of
      turns only advances the counter. */
  lemma {:induction false} QuietStretch(s: Plant, draws: seq<Draw>)
    requires s.level >= FullLevel && NoBoundaryWithin(s.minute, |draws|)
    ensures Run(s, draws) == s.(minute := s.minute + |draws|)
    decreases |draws|
  {
    if |draws| > 0 {
      var n := |draws|;
      QuietStretch(s, draws[..n - 1]);
      var before := Run(s, draws[..n - 1]);
      assert before.minute + 1 == s.minute + n;
      ModStep(s.minute, n);
    }
  }

  /** A run of one turn is that turn. */
  lemma RunOne(s: Plant, r: Draw)
    ensures Run(s, [r]) == Iterate(s, r)
  {
    assert [r][..0] == [];
  }

  /** A turn below 50 off a day boundary refills by one unit, and the motor
      stops exactly when that reaches 50. */
  lemma RefillTurn(s: Plant, r: Draw)
    requires s.level < FullLevel && !DayBoundary(s.minute)
    ensures Iterate(s, r) ==
      Plant(s.level + 1, Increment(s.minute), s.level + 1 != FullLevel, s.level + 1 == FullLevel)
  {
  }

  /** With the level below 50 and no day boundary in the next 50 - level
      turns, the motor refills the plant in exactly that many turns and leaves
      LED 0 dark and LED 2 lit. */
  lemma {:induction false} RefillToFull(s: Plant, draws: seq<Draw>)
    requires s.level < FullLevel && |draws| == FullLevel - s.level
    requires NoBoundaryWithin(s.minute, |draws|)
    ensures Run(s, draws) == Plant(FullLevel, s.minute + |draws|, false, true)
    decreases |draws|
  {
    ModStep(s.minute, 1);
    assert !DayBoundary(s.minute);
    RefillTurn(s, draws[0]);
    RunOne(s, draws[0]);
    if |draws| > 1 {
      RefillToFull(Iterate(s, draws[0]), draws[1..]);
      RunAppend(s, [draws[0]], draws[1..]);
      assert [draws[0]] + draws[1..] == draws;
    } else {
      assert draws == [draws[0]];
    }
  }

  /** The first simulated day from power-up: 1439 quiet turns, then the
      update of minute 1440 with draw r, followed in the same turn by the
      motor if the level fell. The level therefore ends at 50 - r + 1 for a
      non-zero draw, and at 50 for a zero one. */
  lemma {:induction false} FirstDay(draws: seq<Draw>)
    requires |draws| == MinutesPerDay
    ensures var r := draws[MinutesPerDay - 1];
      Run(Initial, draws) ==
        Plant(if r == 0 then FullLevel else FullLevel - r + 1, MinutesPerDay, r >= 2, r == 1)
  {
    var quiet := draws[..MinutesPerDay - 1];
    QuietStretch(Initial, quiet);
    assert Run(Initial, quiet) == Plant(InitialLevel, MinutesPerDay - 1, false, false);
  }

  // ---------------------------------------------------------------------
  // The invariant of every reachable state

  /** The states the loop can reach from power-up: the level stays between
      27 and 50 (so it never wraps), a refill that is under way finishes
      before the next day boundary, LED 0 is lit exactly while the level is
      below 50, and LED 2 is dark while it is. */
  predicate Healthy(s: Plant)
  {
    27 <= s.level <= FullLevel &&
    (s.level < FullLevel ==> s.minute % MinutesPerDay + (FullLevel - s.level) <= 23) &&
    (s.level < FullLevel ==> s.led0 && !s.led2) &&
    (s.level == FullLevel ==> !s.led0)
  }

  /** One turn keeps a state healthy, whatever the draw. */
  lemma {:induction false} IterateKeepsHealthy(s: Plant, r: Draw)
    requires Healthy(s)
    ensures Healthy(Iterate(s, r))
  {
    var m := Increment(s.minute);
    if s.level < FullLevel {
      assert s.minute != Uint32Limit - 1 by {
        assert (Uint32Limit - 1) % MinutesPerDay == 255;
      }
      assert m % MinutesPerDay == s.minute % MinutesPerDay + 1;
    } else if DayBoundary(s.minute) {
      assert m % MinutesPerDay == 0;
    }
  }

  /** Every state reached from power-up is healthy. */
  lemma {:induction false} RunKeepsHealthy(s: Plant, draws: seq<Draw>)
    requires Healthy(s)
    ensures Healthy(Run(s, draws))
    decreases |draws|
  {
    if |draws| > 0 {
      RunKeepsHealthy(s, draws[..|draws| - 1]);
      IterateKeepsHealthy(Run(s, draws[..|draws| - 1]), draws[|draws| - 1]);
    }
  }

  /** From power-up the level never wraps and never passes 50, and LED 0 is
      lit exactly while the motor is refilling. */
  lemma {:induction false} NeverDryNeverOverfull(draws: seq<Draw>)
    ensures 27 <= Run(Initial, draws).level <= FullLevel
    ensures Run(Initial, draws).led0 <==> Run(Initial, draws).level < FullLevel
  {
    RunKeepsHealthy(Initial, draws);
  }

  // ---------------------------------------------------------------------
  // Boards

  /** The boards src/main.cpp knows, by the macro that selects them. */
  datatype Board = Nucleo401RE | Discovery407 | Nucleo411RE | Discovery429 | OtherBoard

  /** One entry of a `blinkLeds` initializer. */
  datatype LedPin = LedPin(port: nat, bit: nat, activeLow: bool)

  /** The `blinkLeds` table of each board: at least one LED, every entry a
      real, active-high line other than PA0 (the user button), and no two
      entries on the same line. */
  function BoardLeds(b: Board): (t: seq<LedPin>)
    ensures |t| >= 1
    ensures forall i | 0 <= i < |t| :: t[i].port < PortCount && t[i].bit < LineCount && !t[i].activeLow
    ensures forall i | 0 <= i < |t| :: t[i].port != 0 || t[i].bit != 0
    ensures forall i, j | 0 <= i < j < |t| :: t[i].port != t[j].port || t[i].bit != t[j].bit
  {
    match b
    case Discovery407 =>
      [LedPin(3, 12, false), LedPin(3, 13, false), LedPin(3, 14, false), LedPin(3, 15, false)]
    case Discovery429 => [LedPin(6, 13, false), LedPin(6, 14, false)]
    case _ => [LedPin(0, 5, false)]
  }

  /** The static initializer of `blinkLeds`: one device per entry of the
      board's table, in order. */
  method BoardTable(b: Board) returns (leds: array<Led>)
    ensures fresh(leds) && leds.Length == |BoardLeds(b)|
    ensures forall i | 0 <= i < leds.Length ::
      leds[i].port == BoardLeds(b)[i].port && leds[i].bit == BoardLeds(b)[i].bit &&
      leds[i].activeLow == BoardLeds(b)[i].activeLow
    ensures AllValid(leds[..]) && Distinct(leds[..])
  {
    var pins := BoardLeds(b);
    var table: seq<Led> := [];
    while |table| < |pins|
      invariant |table| <= |pins|
      invariant forall i | 0 <= i < |table| ::
        table[i].port == pins[i].port && table[i].bit == pins[i].bit &&
        table[i].activeLow == pins[i].activeLow && table[i].bitMask == PinMask(pins[i].bit)
    {
      var pin := pins[|table|];
      var l := new Led(pin.port, pin.bit, pin.activeLow);
      table := table + [l];
    }
    leds := new Led[|pins|](i requires 0 <= i < |pins| => table[i]);
    assert leds[..] == table;
  }

  /** The loop indexes blinkLeds[0] and blinkLeds[2], so it stays inside the
      table only on a board with three LEDs or more: the STM32F4-Discovery
      alone. */
  function RunsControlLoop(b: Board): (ok: bool)
    ensures ok <==> b == Discovery407
  {
    |BoardLeds(b)| >= 3
  }

  // ---------------------------------------------------------------------
  // The loop on the registers

  /** Every LED of the table names a real line. */
  predicate AllValid(leds: seq<Led>)
  {
    forall i | 0 <= i < |leds| :: leds[i].Valid()
  }

  /** No two LEDs of the table share a line. */
  predicate Distinct(leds: seq<Led>)
  {
    forall i, j | 0 <= i < j < |leds| :: leds[i].port != leds[j].port || leds[i].bit != leds[j].bit
  }

  /** What isOn reports for LED l when the ports are `ports`:
      `Shows(regs.gpio[..], l)` is `l.IsOn(regs)`, stated on the port values
      so that a port can be rewritten without a heap. */
  predicate Shows(ports: seq<GpioPort>, l: Led)
    requires l.Valid() && |ports| == PortCount
  {
    Lit(Idr(ports[l.port]), l.bit, l.activeLow)
  }

  /** LED l's line is configured as an output in `ports`:
      `Drives(regs.gpio[..], l)` is `l.IsOutput(regs)`. */
  predicate Drives(ports: seq<GpioPort>, l: Led)
    requires l.Valid() && |ports| == PortCount
  {
    l.bit in ports[l.port].outputs
  }

  /** Rewriting the port of LED k with a value that differs from the old one
      on LED k's line alone leaves every other LED of a table of distinct
      lines as it was: still an output if it was one, and reading the same. */
  lemma {:induction false} OtherLedsKept(ports: seq<GpioPort>, leds: seq<Led>, k: nat, g: GpioPort)
    requires |ports| == PortCount && AllValid(leds) && Distinct(leds) && k < |leds|
    requires var old_g := ports[leds[k].port];
      g.outputs - {leds[k].bit} == old_g.outputs - {leds[k].bit} &&
      g.odr - {leds[k].bit} == old_g.odr - {leds[k].bit} &&
      g.external == old_g.external
    ensures forall i | 0 <= i < |leds| && i != k ::
      Shows(ports[leds[k].port := g], leds[i]) == Shows(ports, leds[i]) &&
      Drives(ports[leds[k].port := g], leds[i]) == Drives(ports, leds[i])
  {
    var p, b := leds[k].port, leds[k].bit;
    forall i | 0 <= i < |leds| && i != k
      ensures Shows(ports[p := g], leds[i]) == Shows(ports, leds[i])
      ensures Drives(ports[p := g], leds[i]) == Drives(ports, leds[i])
    {
      var l := leds[i];
      assert l.port != p || l.bit != b by {
        if i < k {
          assert leds[i].port != leds[k].port || leds[i].bit != leds[k].bit;
        } else {
          assert leds[k].port != leds[i].port || leds[k].bit != leds[i].bit;
        }
      }
      if l.port == p {
        assert l.bit in g.outputs <==> l.bit in g.outputs - {b};
        assert l.bit in g.odr <==> l.bit in g.odr - {b};
        assert l.bit in ports[p].outputs <==> l.bit in ports[p].outputs - {b};
        assert l.bit in ports[p].odr <==> l.bit in ports[p].odr - {b};
      }
    }
  }

  /** The ports whose clocks the LEDs of the table need. */
  function LedPorts(leds: seq<Led>): set<nat>
  {
    set i | 0 <= i < |leds| :: leds[i].port
  }

  /** The lines of port p that LEDs of the table occupy. */
  function LedLines(leds: seq<Led>, p: nat): set<nat>
  {
    set i | 0 <= i < |leds| && leds[i].port == p :: leds[i].bit
  }

  /** One more LED adds its port to the clocks needed and its line to its
      port's lines. */
  lemma LedSetsGrow(leds: seq<Led>, i: nat)
    requires i < |leds|
    ensures LedPorts(leds[..i + 1]) == LedPorts(leds[..i]) + {leds[i].port}
    ensures forall p ::
      LedLines(leds[..i + 1], p) == LedLines(leds[..i], p) + (if leds[i].port == p then {leds[i].bit} else {})
  {
    var a, b := leds[..i], leds[..i + 1];
    assert b[i] == leds[i];
    assert forall j | 0 <= j < i :: b[j] == a[j];
  }

  /** From ports g0 to ports g, the LEDs of the table have been powered up:
      their lines have become outputs, no other line has changed direction
      or output level, and the outside levels are as they were. */
  predicate PoweredUp(g0: seq<GpioPort>, g: seq<GpioPort>, leds: seq<Led>)
  {
    |g0| == |g| == PortCount &&
    forall p | 0 <= p < PortCount ::
      g[p].outputs == g0[p].outputs + LedLines(leds, p) &&
      g[p].odr - LedLines(leds, p) == g0[p].odr - LedLines(leds, p) &&
      g[p].external == g0[p].external
  }

  /** power_up of LED i extends the power-up loop's invariant from the LEDs
      before it to the LEDs up to it: PoweredUp, every LED so far an output
      and off, and the clocks of their ports. */
  lemma PowerUpStep(g0: seq<GpioPort>, g: seq<GpioPort>, leds: seq<Led>, i: nat)
    requires i < |leds| && AllValid(leds) && Distinct(leds) && PoweredUp(g0, g, leds[..i])
    requires forall k | 0 <= k < i :: Drives(g, leds[k]) && !Shows(g, leds[k])
    ensures var l := leds[i];
      var h := g[l.port := g[l.port].(outputs := g[l.port].outputs + {l.bit},
                                       odr := DarkOdr(g[l.port].odr, l.bit, l.activeLow))];
      PoweredUp(g0, h, leds[..i + 1]) &&
      (forall k | 0 <= k < i + 1 :: Drives(h, leds[k]) && !Shows(h, leds[k])) &&
      LedPorts(leds[..i + 1]) == LedPorts(leds[..i]) + {l.port}
  {
    var l := leds[i];
    var h := g[l.port := g[l.port].(outputs := g[l.port].outputs + {l.bit},
                                     odr := DarkOdr(g[l.port].odr, l.bit, l.activeLow))];
    OtherLedsKept(g, leds, i, h[l.port]);
    assert Drives(h, l) && !Shows(h, l);
    LedSetsGrow(leds, i);
    forall p | 0 <= p < PortCount
      ensures h[p].outputs == g0[p].outputs + LedLines(leds[..i + 1], p)
      ensures h[p].odr - LedLines(leds[..i + 1], p) == g0[p].odr - LedLines(leds[..i + 1], p)
      ensures h[p].external == g0[p].external
    {
      var before, after := LedLines(leds[..i], p), LedLines(leds[..i + 1], p);
      if p == l.port {
        assert after == before + {l.bit};
        var d := DarkOdr(g[p].odr, l.bit, l.activeLow);
        assert d - {l.bit} == g[p].odr - {l.bit};
        assert g[p].odr - before == g0[p].odr - before;
        calc {
          h[p].odr - after;
          (d - {l.bit}) - before;
          (g[p].odr - before) - {l.bit};
          (g0[p].odr - before) - {l.bit};
          g0[p].odr - after;
        }
      } else {
        assert after == before && h[p] == g[p];
      }
    }
  }

  /** Making PA0 an input leaves every LED on another line as it was. */
  lemma ButtonKeepsLeds(ports: seq<GpioPort>, leds: seq<Led>, g: GpioPort)
    requires |ports| == PortCount && AllValid(leds)
    requires g == ports[0].(outputs := ports[0].outputs - {0})
    ensures forall i | 0 <= i < |leds| && (leds[i].port != 0 || leds[i].bit != 0) ::
      Shows(ports[0 := g], leds[i]) == Shows(ports, leds[i]) &&
      Drives(ports[0 := g], leds[i]) == Drives(ports, leds[i])
  {
  }

  /** The globals of src/main.cpp that the loop updates, and the LED table. */
  class ControlLoop {
    var waterLevel: uint32
    var minute: uint32
    const leds: array<Led>
    const regs: Peripherals

    /** Every LED names a real line, powered up as an output, and no two LEDs
        share a line. */
    ghost predicate Valid()
      reads this, leds, regs.gpio
    {
      regs.Valid() && AllValid(leds[..]) && Distinct(leds[..]) &&
      forall i | 0 <= i < leds.Length :: Drives(regs.gpio[..], leds[i])
    }

    /** The state the loop's turn reads and writes. */
    ghost function State(): Plant
      reads this, leds, regs.gpio
      requires Valid() && leds.Length >= 3
    {
      Plant(waterLevel, minute, leds[0].IsOn(regs), leds[2].IsOn(regs))
    }

    /** The start of main(): every LED is powered up in table order, then
        the counter starts at 0, with the level at its initial 50. */
    constructor Start(regs: Peripherals, leds: array<Led>)
      requires regs.Valid() && AllValid(leds[..]) && Distinct(leds[..])
      modifies regs, regs.gpio
      ensures Valid() && this.regs == regs && this.leds == leds
      ensures waterLevel == InitialLevel && minute == 0
      ensures forall i | 0 <= i < leds.Length :: !leds[i].IsOn(regs)
      ensures regs.ahb1enr == old(regs.ahb1enr) + LedPorts(leds[..])
      ensures PoweredUp(old(regs.gpio[..]), regs.gpio[..], leds[..])
      ensures leds.Length >= 3 ==> State() == Initial
    {
      this.regs := regs;
      this.leds := leds;
      waterLevel := InitialLevel;
      minute := 0;
      new;
      var i := 0;
      while i < leds.Length
        invariant 0 <= i <= leds.Length
        invariant waterLevel == InitialLevel && minute == 0
        invariant regs.Valid()
        invariant forall k | 0 <= k < i :: Drives(regs.gpio[..], leds[k]) && !Shows(regs.gpio[..], leds[k])
        invariant regs.ahb1enr == old(regs.ahb1enr) + LedPorts(leds[..i])
        invariant PoweredUp(old(regs.gpio[..]), regs.gpio[..], leds[..i])
      {
        assert leds[..][..i] == leds[..i] && leds[..][..i + 1] == leds[..i + 1];
        PowerUpStep(old(regs.gpio[..]), regs.gpio[..], leds[..], i);
        leds[i].PowerUp(regs);
        i := i + 1;
      }
      assert leds[..i] == leds[..];
    }

    /** sensor_daily_update, with `r` the value of rand() % 25. */
    method SensorDailyUpdate(r: Draw)
      modifies this`waterLevel
      ensures waterLevel == Decrement(old(waterLevel), r)
    {
      waterLevel := (waterLevel - r) % Uint32Limit;
    }

    /** motor_activate: the motor adds one unit of water. */
    method MotorActivate()
      modifies this`waterLevel
      ensures waterLevel == Increment(old(waterLevel))
    {
      waterLevel := (waterLevel + 1) % Uint32Limit;
    }

    /** motor_stop: an empty function. */
    method MotorStop()
      ensures unchanged(this)
    {
    }

    /** `blinkLeds[k].turn_on()` or `.turn_off()` inside the loop, with what
        it does to the table. */
    method Switch(k: nat, on: bool)
      requires Valid() && k < leds.Length
      modifies regs.gpio
      ensures Valid()
      ensures regs.gpio[..] == old(regs.gpio[..])[leds[k].port := old(regs.gpio[leds[k].port]).(
        odr := if on then LitOdr(old(regs.gpio[leds[k].port].odr), leds[k].bit, leds[k].activeLow)
               else DarkOdr(old(regs.gpio[leds[k].port].odr), leds[k].bit, leds[k].activeLow))]
      ensures leds[k].IsOn(regs) == on
      ensures forall i | 0 <= i < leds.Length && i != k :: leds[i].IsOn(regs) == old(leds[i].IsOn(regs))
    {
      ghost var before := regs.gpio[..];
      if on {
        leds[k].TurnOn(regs);
      } else {
        leds[k].TurnOff(regs);
      }
      OtherLedsKept(before, leds[..], k, regs.gpio[leds[k].port]);
    }

    /** One turn of `while(1)`; `timer.sleep` leaves the modelled state
        alone and the trace output is not modelled. */
    method Step(r: Draw)
      requires Valid() && leds.Length >= 3
      modifies this, regs.gpio
      ensures Valid()
      ensures State() == Iterate(old(State()), r)
      ensures forall k | 0 <= k < leds.Length && k != 0 && k != 2 ::
        leds[k].IsOn(regs) == old(leds[k].IsOn(regs))
    {
      minute := (minute + 1) % Uint32Limit;
      if minute % MinutesPerDay == 0 {
        SensorDailyUpdate(r);
      }
      if waterLevel < FullLevel {
        MotorActivate();
        Switch(0, true);
        Switch(2, false);
        if waterLevel == FullLevel {
          MotorStop();
          Switch(0, false);
          Switch(2, true);
        }
      }
    }

    /** configure_Button, called by main() between the power-up loop and
        the first turn: it enables the clock of GPIOA and makes PA0, the user
        button, an input; nothing reads it afterwards. Unless an LED sits on
        PA0, the LEDs keep their direction and what they read. */
    method ConfigureButton()
      requires Valid()
      modifies regs, regs.gpio
      ensures regs.ahb1enr == old(regs.ahb1enr) + GpioAEnable
      ensures regs.gpio[..] == old(regs.gpio[..])[0 := old(regs.gpio[0]).(outputs := old(regs.gpio[0].outputs) - {0})]
      ensures (forall i | 0 <= i < leds.Length :: leds[i].port != 0 || leds[i].bit != 0) ==>
        Valid() && forall i | 0 <= i < leds.Length :: leds[i].IsOn(regs) == old(leds[i].IsOn(regs))
    {
      ghost var before := regs.gpio[..];
      regs.EnableClocks(GpioAEnable);
      regs.InitInputs(0, PinMask(0));
      ButtonKeepsLeds(before, leds[..], regs.gpio[0]);
    }

    /** The loop for as many turns as there are draws. */
    method RunFor(draws: seq<Draw>)
      requires Valid() && leds.Length >= 3
      modifies this, regs.gpio
      ensures Valid()
      ensures State() == Run(old(State()), draws)
      ensures forall k | 0 <= k < leds.Length && k != 0 && k != 2 ::
        leds[k].IsOn(regs) == old(leds[k].IsOn(regs))
    {
      var i := 0;
      while i < |draws|
        invariant 0 <= i <= |draws|
        invariant Valid()
        invariant State() == Run(old(State()), draws[..i])
        invariant forall k | 0 <= k < leds.Length && k != 0 && k != 2 ::
          leds[k].IsOn(regs) == old(leds[k].IsOn(regs))
      {
        Step(draws[i]);
        assert draws[..i + 1][..i] == draws[..i];
        i := i + 1;
      }
      assert draws[..i] == draws;
    }
  }

  /** main() up to its first turn on board b: the registers come out of
      reset, `blinkLeds` is the board's table, every LED is powered up, and
      configure_Button makes PA0 an input. The loop and its registers are
      new, so a caller may run turns on them; on the STM32F4-Discovery the
      loop starts from `Initial`. */
  method Boot(b: Board) returns (loop: ControlLoop)
    ensures fresh(loop) && fresh(loop.regs) && fresh(loop.regs.gpio)
    ensures loop.Valid() && loop.leds.Length == |BoardLeds(b)|
    ensures forall i | 0 <= i < loop.leds.Length ::
      loop.leds[i].port == BoardLeds(b)[i].port && loop.leds[i].bit == BoardLeds(b)[i].bit &&
      loop.leds[i].activeLow == BoardLeds(b)[i].activeLow
    ensures loop.regs.ahb1enr == LedPorts(loop.leds[..]) + GpioAEnable
    ensures forall i | 0 <= i < loop.leds.Length :: !loop.leds[i].IsOn(loop.regs)
    ensures RunsControlLoop(b) ==> loop.leds.Length >= 3 && loop.State() == Initial
  {
    var regs := new Peripherals.Reset();
    var leds := BoardTable(b);
    loop := new ControlLoop.Start(regs, leds);
    loop.ConfigureButton();
  }

  /** main() on the STM32F4-Discovery, run on the registers for as many
      turns as there are draws: whatever rand() returns, the level stays
      between 27 and 50, LED 0 is lit exactly while it is below 50, and LEDs
      1 and 3 stay dark. */
  method Firmware(draws: seq<Draw>) returns (loop: ControlLoop)
    ensures loop.Valid() && loop.leds.Length == 4
    ensures 27 <= loop.waterLevel <= FullLevel
    ensures loop.leds[0].IsOn(loop.regs) <==> loop.waterLevel < FullLevel
    ensures !loop.leds[1].IsOn(loop.regs) && !loop.leds[3].IsOn(loop.regs)
  {
    loop := Boot(Discovery407);
    loop.RunFor(draws);
    NeverDryNeverOverfull(draws);
  }
}
