# Ultrasonic water-level controller (PIC16F887) — a Dafny model

The firmware in `nnn.c` measures the distance to the water surface with an HC-SR04
ultrasonic sensor, shows its status on a 16x2 HD44780 display driven in 4-bit mode, and
drives a relay (the pump) and a buzzer. Its `main` loop runs a 90-step countdown: every
in-range reading (at most 25 cm) shows `Off in: <n> sec` and counts down one step; a
reading above 25 cm switches the relay off, beeps the buzzer and shows `Water Level Low`
without counting; when the countdown reaches 0 the relay is switched off, `Motor OFF` is
shown and the program spins forever.

The model has three parts, one module each, plus a module of shared value types:

- `Lcd` (`lcd.dfy`): the nibble split of `LCD_Command`/`LCD_Char` as functions from a
  byte to the strobes on RS and D4..D7 (high nibble first), the display's view of the bus
  as a decoder with round-trip lemmas in both directions, and `LCD_String` as a method
  with the C code's pointer loop, proved to send exactly the characters before the NUL.
- `Sensor` (`sensor.dfy`): the arithmetic of `Measure_Distance` — the 16-bit Timer1
  count from its two bytes and its conversion to centimetres, with `0.0343 / 2` taken as
  the exact rational `343 / 20000` and truncation to an integer.
- `WaterController` (`controller.dfy`): one pass of the loop as the pure functions
  `Step` (the new state) and `Transfers` (the bytes sent to the display), runs of passes
  as `Run`/`Trace`, the invariants and properties of the countdown policy as lemmas, and
  the class `Controller` whose fields are the loop's variables and whose `Tick` method is
  one pass, proved against `Step` and `Transfers`. The halted flag stands for the final
  `while (1);`: a halted `Tick` changes nothing and sends nothing.

The count is converted as if one Timer1 tick were one microsecond, as the code does. With
the 8 MHz clock and the 1:1 prescaler one tick is 0.5 us, so the distances the code
computes are twice the physical ones; the model reproduces the code.

The code has no timeout on the echo and no error result from the measurement, keeps no
alarm state beyond the one pass, and does not truncate display text; the model does the
same, and proves instead that every text the loop shows fits the 16-byte buffer and the
16-character line.

## Model

| member | source | states |
|---|---|---|
| `Lcd.HighNibble` | nnn.c:32-35 | the first strobe carries bits 4..7 of the byte on D4..D7: the nibble's value is the byte divided by 16 |
| `Lcd.LowNibble` | nnn.c:40-43 | the second strobe carries bits 0..3: the nibble's value is the byte modulo 16 |
| `Lcd.HighBits` | nnn.c:32-35 | `(x >> 4..7) & 1` are the four bits of x / 16, lowest first |
| `Lcd.LowBits` | nnn.c:40-43 | `x & 1` and `(x >> 1..3) & 1` are the four bits of x % 16, lowest first |
| `Lcd.JoinSplit` | nnn.c:30-47 | joining the two nibbles sent for a byte gives the byte back |
| `Lcd.SplitJoin` | nnn.c:30-47 | every pair of nibbles is the split of exactly the byte they join to (the split is a bijection) |
| `Lcd.Send` | nnn.c:31-46 | a byte is two strobes with the same RS level, the first carrying the high nibble and the second the low nibble |
| `Lcd.SendJoins` | nnn.c:31-46 | the two nibbles sent for a byte join to that byte |
| `Lcd.Encode` | nnn.c:70-74 | a sequence of transfers takes exactly two strobes per transfer |
| `Lcd.LcdCommand` | nnn.c:30-47 | LCD_Command's strobes are read by the display as exactly that one command byte, high nibble first |
| `Lcd.LcdChar` | nnn.c:50-67 | LCD_Char's strobes are read by the display as exactly that one character, high nibble first |
| `Lcd.Decode` | nnn.c:30-67 | the display's side of the bus, not code in the firmware: a decodable bus has two strobes per byte, and one with an odd number of strobes does not decode |
| `Lcd.DecodeEncode` | nnn.c:30-67 | decoding the bus traffic of any commands and characters gives them back, RS telling them apart |
| `Lcd.EncodeDecode` | nnn.c:30-67 | any traffic the display can decode is exactly the encoding of what it decodes to |
| `Lcd.EncodeAppend` | nnn.c:70-74 | the traffic of consecutive transfers is the concatenation of their traffic |
| `Lcd.UntilNul` | nnn.c:71 | the C string of a buffer is the prefix before the first NUL: it holds no NUL and is followed by one unless it is the whole buffer |
| `Lcd.LcdString` | nnn.c:70-74 | LCD_String sends each character before the first NUL, in order, as data bytes, and nothing else |
| `Sensor.PulseCount` | nnn.c:120 | the count is at most 65535 and each Timer1 byte is recovered from it |
| `Sensor.PulseCountOnto` | nnn.c:109-120 | every count Timer1 can hold comes from one pair of bytes |
| `Sensor.DistanceCm` | nnn.c:123 | the distance is the largest whole d with d * 20000 <= count * 343, and at most 1123 for a 16-bit count |
| `Sensor.DistanceMonotone` | nnn.c:123 | a larger count never gives a smaller distance |
| `Sensor.LongestDistance` | nnn.c:120-123 | the bound 1123 is reached at count 65535 |
| `Sensor.FarIffCount` | nnn.c:123-146 | the distance exceeds 25 cm exactly when the count is 1517 or more |
| `Sensor.MeasureDistance` | nnn.c:96-126 | the distance from the two timer bytes is at most 1123 and is the floor of count * 343 / 20000 |
| `WaterController.Digits` | nnn.c:157 | `%d` of a non-negative number: decimal digits without a leading zero that denote the number, at most two below 100 |
| `WaterController.Decimal` | nnn.c:157 | `%d` of an int denotes it: for n >= 0, decimal digits without a leading zero whose value is n; for n < 0, a minus sign followed by such digits for -n |
| `WaterController.OffInShowsSeconds` | nnn.c:157 | the countdown text is "Off in: ", then decimal digits whose value is the seconds left, then " sec" |
| `WaterController.OffInText` | nnn.c:157 | `"Off in: %d sec"` is printable and twelve characters longer than the number |
| `WaterController.Text` | nnn.c:151-168 | every text the loop shows is printable ASCII |
| `WaterController.CString` | nnn.c:151-168 | the buffer given to LCD_String holds the text followed by a NUL, and its C string is the text |
| `WaterController.Init` | nnn.c:132-141 | the loop starts with a valid, running state with the relay on |
| `WaterController.Step` | nnn.c:144-171 | one pass: a halted controller is unchanged, the relay never goes from off to on, the countdown stays or drops by one, and the invariant is kept |
| `WaterController.Refresh` | nnn.c:149-151 | a display refresh is clear (0x01), then cursor to the first line (0x80), then as many bytes as the text has characters |
| `WaterController.Transfers` | nnn.c:149-168 | a pass sends nothing exactly when halted, and otherwise starts with clear and cursor to the first line |
| `WaterController.Run` | nnn.c:143-173 | passes in order; from a halted state any number of them leave it unchanged |
| `WaterController.Trace` | nnn.c:143-173 | the display traffic of passes in order; nothing once halted |
| `WaterController.CountdownMoves` | nnn.c:146-163 | the countdown never grows; it is unchanged exactly on readings above 25 (or once halted) and drops by exactly one otherwise |
| `WaterController.LowWaterTick` | nnn.c:146-154 | a reading above 25 cm turns the relay off, leaves the buzzer off at the end, keeps the countdown and refreshes "Water Level Low" |
| `WaterController.ThresholdIsStrict` | nnn.c:146 | 25 cm counts down and 26 cm raises the alarm |
| `WaterController.NormalTick` | nnn.c:155-166 | an in-range reading first shows the countdown from before the pass, then decrements it; the relay changes only when 0 is reached |
| `WaterController.HaltsExactlyAtZero` | nnn.c:155-169 | a pass halts exactly when it decrements the countdown from 1 to 0; the relay is then off, "Motor OFF" is shown, and the pass sends the refresh with the last second, a clear, then the characters of "Motor OFF" |
| `WaterController.ShownIsLastText` | nnn.c:149-168 | on every running pass the message recorded as shown is what the display was last given: the pass ends with a command byte followed by exactly that message's characters |
| `WaterController.RelayNeverReturns` | nnn.c:141-166 | if the relay is on after some passes it was on before them: once off it stays off |
| `WaterController.RunKeepsValid` | nnn.c:132-172 | any number of passes keep the buzzer off and the countdown within its bounds |
| `WaterController.CountdownCountsNormalTicks` | nnn.c:155-169 | a running controller halts exactly when as many in-range readings as its countdown have arrived, whatever comes between; until then the countdown is what is left |
| `WaterController.HaltsAfterNinetyNormalTicks` | nnn.c:132-169 | from power-on the controller halts, relay off, exactly after 90 in-range readings, the countdown being 90 minus their number before that |
| `WaterController.OffInFitsBuffer` | nnn.c:131-157 | the countdown text with its NUL fits `char buffer[16]`, and every message fits the 16-character line |
| `WaterController.LowWaterIffLongEcho` | nnn.c:120-146 | a running controller takes the low-water branch exactly when the Timer1 count is 1517 or more |
| `WaterController.FirstNormalTick` | nnn.c:132-163 | the first in-range reading after power-on shows "Off in: 90 sec", leaves 89 and the relay on |
| `WaterController.Controller.constructor` | nnn.c:132-141 | the loop's variables start as `Init`: countdown 90, relay on |
| `WaterController.Controller.Tick` | nnn.c:144-171 | one pass updates the fields as `Step`, sends exactly the strobes of `Transfers`, `pulsed` (the buzzer pin read on the alarm branch after its message, before it is switched off) is true exactly on a reading above 25 while running, and keeps the invariant |
| `WaterController.Controller.LowWaterPass` | nnn.c:146-154 | the alarm branch updates the fields as `Step`, sends the strobes of `Transfers`, and the buzzer pin reads on after the message has been sent, before it is switched off |
| `WaterController.Controller.CountdownPass` | nnn.c:155-170 | the countdown branch updates the fields as `Step` and sends the strobes of `Transfers` |
| `WaterController.Controller.SwitchOff` | nnn.c:165-169 | relay off, halted, "Motor OFF" recorded, and the strobes are a clear followed by "Motor OFF"; nothing else changes |
| `WaterController.Controller.Operate` | nnn.c:143-173 | a finite number of passes of the loop leave the state of `Run` and send the traffic of `Trace` |
| `WaterController.WriteText` | nnn.c:151 | LCD_String on a message's buffer sends the message's characters |
| `WaterController.ShowMessage` | nnn.c:149-151 | clear, cursor to the first line and the text are sent, and the display decodes them as those bytes |
| `WaterController.RefreshBus` | nnn.c:149-151 | the traffic of a refresh is the two command writes followed by the text's characters |
| `WaterController.FinalBus` | nnn.c:158-168 | the strobes of the pass that halts are those of the refresh showing the last second, then those of a clear, then those of "Motor OFF" |

## Left out

- Configuration fuses, the oscillator setting, the TRIS registers and the `LCD_Init` command sequence (nnn.c:4-11, 78-93, 134-139): hardware bring-up without logic; the meaning of the HD44780 command bytes is not modelled either, only that they are sent.
- The trigger pulse and the two busy-waits on ECHO (nnn.c:101-114): they depend on an external signal and have no timeout in the code; the model takes the Timer1 bytes (or the distance) as input. Timer1 overflow during a long echo is not handled by the code and not modelled.
- All `__delay_ms`/`__delay_us` calls and the EN pulse timing: real-time behaviour. A strobe stands for one EN pulse with the levels of RS and D4..D7 while EN is high.
- Sensor.DistanceCm: uses the exact rational 343 / 20000 and its floor; the firmware evaluates `pulse_time * 0.0343` in XC8 floating point, which can differ by one centimetre from the exact floor wherever count * 343 / 20000 lies within the float's rounding error of a whole number. Which counts are affected depends on the float width and rounding XC8 uses; this is not modelled.
- WaterController.Decimal: `sprintf` is modelled only for the one `%d` the loop prints. `Decimal` covers any `int`, the negative case as a minus sign before the digits of the magnitude, though the countdown provably stays in 0..90. Other conversions and the 16-bit `int` wrap-around are not modelled.
- WaterController.Init: the code never writes BUZZER before the loop, so the pin starts at its power-on latch value; the model takes it as off.
- WaterController.Controller.Tick: `pulsed` is the buzzer pin's level read once, after the alarm message is sent and before the pin is switched off; how long it stays on (the one-second delay) is not modelled.
- The loop in `main` never ends; `Operate` models any finite number of its passes.
