# Plant watering on an STM32F4: LED driver and control loop

This project models two parts of a small STM32F4 firmware in Dafny.

- **The LED output device** (`led` class of `src/led.cpp`). A device is one
  GPIO line: a port number, a bit number, the bit mask `1 << bit` and an
  active-low flag.
  - `power_up` enables the port's clock in `RCC->AHB1ENR`, configures the line
    as an output and turns the device off.
  - `turn_on` and `turn_off` each make one write to the port's bit set/reset
    register (BSRR). The low half of BSRR sets a line and the high half
    (`bit + 16`) resets it (RM0090, section 8.4.7).
  - `toggle` reads the line through the input data register (IDR) and then
    clears or sets it in the output data register (ODR).
  - `isOn` reads the line back through IDR and interprets it by polarity.
- **The plant-watering loop** (`src/main.cpp`). It keeps a 32-bit unsigned
  water level (starting at 50) and a 32-bit unsigned minute counter
  (starting at 0). Each turn of `while(1)`:
  - advances the counter;
  - every 1440th minute, lowers the level by `rand() % 25`, wrapping below
    zero;
  - while the level is below 50, adds one unit ("the motor"), lights LED 0
    and darkens LED 2;
  - when the level has come back to exactly 50, darkens LED 0 and lights
    LED 2.

Files and modules:

- `registers.dfy`, module `Registers`: the peripheral registers.
  - A register word is the set of positions of its 1 bits (`type Word = set<nat>`).
    So `|` is `+`, `& ~m` is `-` and `(w & m) != 0` is `w * m != {}`.
  - `BitsOf(x)` is the word that holds the unsigned number x in a 32-bit
    register. The shift, mask and half-word operations are proved against
    the numbers through it: `1 << n` holds 2^n, `w << k` holds x * 2^k
    modulo 2^32, and so on.
  - A GPIO port keeps the lines configured as outputs, its ODR, and the levels
    that outside circuitry puts on its other lines.
  - IDR samples the pads: it reads ODR on an output line and the outside level
    on any other line (RM0090, sections 8.3.10 and 8.4.5).
  - The class `Peripherals` holds `RCC->AHB1ENR` and the array of ports,
    indexed by port number. That array replaces the `BLINK_GPIOx` address
    arithmetic.
- `leds.dfy`, module `Leds`:
  - the class `Led`, one method per member function of `led`;
  - the ODR each operation leaves, as functions;
  - lemmas about those functions: polarity, "only this line changes",
    idempotence, and two toggles restore the port.
- `plant_watering.dfy`, module `PlantWatering`:
  - `Iterate` and `Run` state on values (`Plant`) what one turn and a
    sequence of turns do; the contract of `Iterate` and lemmas about `Run`
    prove the loop's properties;
  - the class `ControlLoop` holds `water_level`, `minute`, the LED table and
    the registers. Its method `Step` runs one turn on the registers through
    the LED driver and is proved to agree with `Iterate`;
  - the board tables (`#if` blocks) are kept as data. `Boot` goes from
    register reset through the board's table, the power-up loop and
    `configure_Button` to the first turn, and `Firmware` runs the loop after
    it on the STM32F4-Discovery.

Where the code differs from a plain reading of its comments or its
description, the model follows the code:

- `BLINK_ON_TICKS` is `FREQUENCY_HZ * 3 / 4`, three quarters of a second. The
  comment above it says two thirds (`src/main.cpp:60-61`).
- After the first day from power-up with draw `r > 0`, the level is
  `50 - r + 1`, not `50 - r`. The motor branch runs in the same turn as the
  daily update (`FirstDay`).
- 2^32 is not a multiple of 1440, so when the minute counter wraps, the "day"
  that spans the wrap is 256 minutes long. `IterateKeepsHealthy` uses
  (2^32 - 1) % 1440 == 255.
- A refill that started on a day boundary finishes within 24 turns, long
  before the next boundary. So from power-up the level stays between 27 and
  50 and never wraps (`NeverDryNeverOverfull`). The wrap-around of
  `sensor_daily_update` is modelled and proved (`Decrement`), but the program
  cannot reach it.
- The loop reads `blinkLeds[2]`, which exists only on the STM32F4-Discovery
  table (four LEDs). On every other board the loop indexes past the end of
  the array. The model requires three LEDs or more, and `RunsControlLoop`
  states which boards satisfy that.

## Model

| member | source | states |
|---|---|---|
| `Registers.PinMask` | src/led.cpp:34 | `1 << n` is the word holding the number 2^n |
| `Registers.MaskTestsBit` | src/led.cpp:110 | `(w & (1 << n)) != 0` holds exactly when bit n of w is set |
| `Registers.ShiftLeftValue` | src/led.cpp:35 | `w << k` on the word holding x holds x * 2^k modulo 2^32 |
| `Registers.LowHalfValue` | src/led.cpp:90 | the low half of BSRR, the set half, holds the written number modulo 2^16 |
| `Registers.HighHalfValue` | src/led.cpp:86 | the high half of BSRR, the reset half, holds the written number divided by 2^16, modulo 2^16 |
| `Registers.Idr` | src/led.cpp:110 | IDR mirrors ODR on the lines configured as outputs and reads the outside level on the others |
| `Registers.SetReset` | src/led.cpp:86 | a BSRR write sets line i when bit i is written, resets it when only bit i+16 is, otherwise keeps it, and never touches a position above the 16 lines |
| `Registers.SetResetIdempotent` | src/led.cpp:90 | writing the same BSRR value twice is the same as writing it once |
| `Registers.Peripherals.EnableClocks` | src/led.cpp:51 | ORs the mask into `RCC->AHB1ENR`: the new word is the old one with the mask's bits added |
| `Registers.Peripherals.InitOutputs` | src/led.cpp:53-60 | HAL_GPIO_Init adds the pins to the port's outputs and changes nothing else |
| `Registers.Peripherals.InitInputs` | src/main.cpp:158-162 | HAL_GPIO_Init in input mode removes the pins from the port's outputs and changes nothing else |
| `Registers.Peripherals.WriteBsrr` | src/led.cpp:86 | a BSRR write changes only the addressed port's ODR, by set/reset |
| `Registers.Peripherals.WriteOdr` | src/led.cpp:112 | an ODR write changes only the addressed port's ODR |
| `Leds.RccMask` | src/led.cpp:35 | `RCC_AHB1ENR_GPIOAEN << port` has exactly the port's clock-enable bit set |
| `Leds.OnCommand` | src/led.cpp:81-92 | the word turn_on writes to BSRR asks to set the device's line when it is active-high and to reset it when it is active-low, and asks nothing of any other line |
| `Leds.OffCommand` | src/led.cpp:94-105 | the word turn_off writes to BSRR asks for the opposite: reset when active-high, set when active-low, nothing of any other line |
| `Leds.LitOdr` | src/led.cpp:81-92 | after turn_on the line is high exactly when the device is active-high, and no other ODR bit changes |
| `Leds.DarkOdr` | src/led.cpp:94-105 | after turn_off the line is at the opposite level from turn_on, and no other ODR bit changes |
| `Leds.ToggledOdr` | src/led.cpp:107-118 | after toggle the mask's lines are low if IDR read any of them high and high otherwise, and every other line keeps its level |
| `Leds.ToggleFlipsLine` | src/led.cpp:107-118 | toggle drives the line to the opposite of what IDR read on it and keeps every other ODR bit |
| `Leds.SwitchReadsBack` | src/led.cpp:81-131 | on an output line, isOn reads true after turn_on and false after turn_off, for either polarity, and the pad is low when an active-low device is on |
| `Leds.SwitchIdempotent` | src/led.cpp:81-105 | a second turn_on (or turn_off) leaves ODR as the first left it |
| `Leds.ToggleFlipsLit` | src/led.cpp:107-131 | on an output line, toggle flips what isOn reads |
| `Leds.ToggleOnInputLine` | src/led.cpp:107-131 | on a line that is not an output, toggle does not change what isOn reads |
| `Leds.ToggleTwiceRestores` | src/led.cpp:107-118 | on an output line, two toggles restore the whole port exactly |
| `Leds.Led.constructor` | src/led.cpp:39-45 | port, bit and polarity are stored unchanged and the mask is `1 << bit` |
| `Leds.Led.IsOn` | src/led.cpp:120-131 | isOn is true exactly when the IDR bit differs from the active-low flag |
| `Leds.Led.PowerUp` | src/led.cpp:47-64 | ORs only the port's enable bit into AHB1ENR, makes the line an output, writes ODR as turn_off does, and leaves the device off |
| `Leds.Led.TurnOn` | src/led.cpp:81-92 | changes only the device's ODR bit, to the lit level; on an output line isOn then reads true |
| `Leds.Led.TurnOff` | src/led.cpp:94-105 | changes only the device's ODR bit, to the dark level; on an output line isOn then reads false |
| `Leds.Led.Toggle` | src/led.cpp:107-118 | clears the ODR bit when IDR reads it set and sets it otherwise; on an output line isOn flips, on an input line it does not |
| `PlantWatering.Increment` | src/main.cpp:171 | uint32 `++` adds one, and wraps 2^32 - 1 to 0 |
| `PlantWatering.Decrement` | src/main.cpp:165-168 | the level drops by exactly r when r <= level, and otherwise wraps to level - r + 2^32, which is at least 2^32 - 24 |
| `PlantWatering.BlinkOnTicks` | src/main.cpp:61 | BLINK_ON_TICKS is three quarters of FREQUENCY_HZ, rounded down |
| `PlantWatering.BlinkOffTicks` | src/main.cpp:62-63 | BLINK_OFF_TICKS is the rest of the second, at least a quarter of it |
| `PlantWatering.DayBoundary` | src/main.cpp:199-200 | the daily update runs on the turn whose new counter is a multiple of 1440, including the turn where the counter wraps to 0 |
| `PlantWatering.Daily` | src/main.cpp:199-203 | off a day boundary the level is unchanged; on one it drops by the draw, or wraps to at least 2^32 - 24 when the draw is larger |
| `PlantWatering.Iterate` | src/main.cpp:198-220 | a turn advances the counter by one modulo 2^32; the motor branch runs exactly when the level after the daily step is below 50 and adds exactly one; LED 2 ends lit and LED 0 dark exactly when the level entering the branch was 49, otherwise LED 0 lit and LED 2 dark; outside the branch no LED changes |
| `PlantWatering.QuietTurn` | src/main.cpp:199-220 | a turn that starts at 50 or above and is not a day boundary changes only the counter |
| `PlantWatering.BoundedUnlessWrapped` | src/main.cpp:198-220 | a turn from a level of at most 50 ends at most at 50 unless the daily update wrapped, and a wrapped level does not run the motor |
| `PlantWatering.Run` | src/main.cpp:198-223 | after n turns the counter has advanced by n modulo 2^32 |
| `PlantWatering.RunAppend` | src/main.cpp:198-223 | running two stretches of turns one after the other is running them joined |
| `PlantWatering.QuietStretch` | src/main.cpp:199-206 | at 50 or above and with no day boundary ahead, a stretch of turns only advances the counter |
| `PlantWatering.RefillTurn` | src/main.cpp:206-219 | a turn below 50 off a day boundary adds one unit, and swaps LED 0 and LED 2 back exactly when that reaches 50 |
| `PlantWatering.RefillToFull` | src/main.cpp:206-219 | from a level below 50, with no day boundary ahead, exactly 50 - level turns refill it to 50 and leave LED 0 dark and LED 2 lit |
| `PlantWatering.FirstDay` | src/main.cpp:195-223 | the first 1440 turns from power-up end with the level at 50 - r + 1 for a draw r > 0 (50 for r = 0), LED 0 lit iff r >= 2 and LED 2 lit iff r = 1 |
| `PlantWatering.IterateKeepsHealthy` | src/main.cpp:198-223 | one turn keeps the level within 27..50, keeps a refill ahead of the next day boundary, and keeps LED 0 lit exactly while the level is below 50 |
| `PlantWatering.RunKeepsHealthy` | src/main.cpp:198-223 | any number of turns keeps that invariant |
| `PlantWatering.NeverDryNeverOverfull` | src/main.cpp:153-223 | from power-up the level stays within 27..50, so it never wraps, and LED 0 is lit exactly while it is below 50 |
| `PlantWatering.BoardLeds` | src/main.cpp:68-140 | every board's LED table has at least one entry and names real, distinct, active-high lines, none of them PA0 |
| `PlantWatering.BoardTable` | src/main.cpp:68-140 | the `blinkLeds` initializer builds one device per table entry, in order, with the entry's port, bit and polarity |
| `PlantWatering.RunsControlLoop` | src/main.cpp:209-217 | the loop's `blinkLeds[0]` and `blinkLeds[2]` stay inside the table exactly on the STM32F4-Discovery board |
| `PlantWatering.OtherLedsKept` | src/led.cpp:86-116 | a write that changes one LED's line only leaves every other LED of the table reading the same and still an output |
| `PlantWatering.PowerUpStep` | src/main.cpp:190-193 | each `power_up` of the loop extends its invariant: the LEDs so far are outputs and off, only their lines changed direction or level, and their ports' clocks are the ones enabled |
| `PlantWatering.ButtonKeepsLeds` | src/main.cpp:155-163 | making PA0 an input leaves every LED on another line reading the same and still an output |
| `PlantWatering.ControlLoop.Start` | src/main.cpp:190-195 | powers up every LED in order: each ends an output and off; AHB1ENR gains exactly the LEDs' port bits; the LED lines become outputs, no other line changes direction or ODR level, and the outside levels stay; the level is 50 and the counter 0 |
| `PlantWatering.ControlLoop.SensorDailyUpdate` | src/main.cpp:165-168 | the level becomes the uint32 difference of the old level and the draw |
| `PlantWatering.ControlLoop.MotorActivate` | src/main.cpp:170-172 | the level becomes the uint32 successor of the old level |
| `PlantWatering.ControlLoop.MotorStop` | src/main.cpp:174-176 | changes no state |
| `PlantWatering.ControlLoop.ConfigureButton` | src/main.cpp:155-163 | ORs GPIOA's enable bit into AHB1ENR and makes PA0 an input, changing no other register; unless an LED sits on PA0 the table stays valid and every LED reads the same |
| `PlantWatering.ControlLoop.Switch` | src/main.cpp:209-210 | `blinkLeds[k].turn_on()`/`turn_off()` changes only LED k's port, whose ODR becomes what turn_on or turn_off leaves; LED k reads as asked and every other LED reads the same |
| `PlantWatering.ControlLoop.Step` | src/main.cpp:198-223 | one turn on the registers moves the level, the counter and LEDs 0 and 2 exactly as `Iterate` does, and leaves the other LEDs reading the same |
| `PlantWatering.ControlLoop.RunFor` | src/main.cpp:198-223 | successive turns on the registers agree with `Run`, and every LED other than 0 and 2 reads as it did before |
| `PlantWatering.Boot` | src/main.cpp:186-196 | from register reset, the board's table, the power-up loop and configure_Button give a new, valid loop whose LEDs are the table's entries, all off, with AHB1ENR holding the LEDs' port bits and GPIOA's; on the STM32F4-Discovery its state is the initial one |
| `PlantWatering.Firmware` | src/main.cpp:186-223 | main() on the STM32F4-Discovery, for any number of turns and any draws, keeps the level within 27..50 with LED 0 lit exactly while it is below 50, and LEDs 1 and 3 dark |

## Left out

- `led::pwm_up` (`src/led.cpp:66-79`) is not called by the program. It ORs the port's enable bit into `RCC->AHB1ENR`, as `power_up` does, and configures the line for an alternate function, which has no register effect in this model.
- PlantWatering.ControlLoop.ConfigureButton: the pull setting of PA0 and the input mode's other effects are not modelled; the button is never read.
- The `timer` class is not part of this model. `timer.start` and `timer.sleep` are a spin-wait on an interrupt-driven counter, and nothing in the loop changes the level or the LEDs while they run. So `sleep` is a no-op here, and `FREQUENCY_HZ` is the parameter of `BlinkOnTicks`/`BlinkOffTicks`.
- `trace_puts`/`trace_printf` are diagnostic output only.
- `rand()` is not modelled. Each turn takes the value `rand() % 25` as a parameter in 0..24, used only on a day boundary.
- The mode, speed and pull settings of `HAL_GPIO_Init`, and the HAL call itself, are not modelled. Only the "configured as output" flag is kept.
- `BLINK_GPIOx` address arithmetic (`src/led.cpp:33`) is replaced by indexing the array of ports by port number.
- Registers.Peripherals.Reset: only AHB1ENR, the output flags, ODR and the outside levels are kept. Other reset values of RM0090 are not modelled.
- Clock gating: the AHB1ENR word is kept as written, but its gating effect on the ports is not modelled. A port whose clock is off still takes writes in the model, where the hardware would ignore them.
- The levels outside circuitry puts on lines that are not outputs are a free field of the port. No operation changes them.
- Races between `toggle`'s read-modify-write and other contexts are not modelled. The program has a single thread.
- The commented-out blink demo (`src/main.cpp:224-290`) is not modelled. The `#if` board selection is kept only as the data `BoardLeds`.
- Leds.Led.constructor: requires `bit < 32`, because `1 << bit` with a larger bit is undefined in C++. Every table entry meets this.
- Leds.Led.PowerUp, TurnOn, TurnOff, Toggle, IsOn: require a port below 11 and a bit below 16, the lines an STM32F4 has. Other values address memory that is not a GPIO port.
- PlantWatering.ControlLoop.Step: requires at least three LEDs. With fewer, `blinkLeds[2]` is out of bounds and the behaviour is undefined.
- PlantWatering.ControlLoop.Step: its frame is stated as "every other LED reads the same". It does not say that every other register bit is unchanged.
