# svm32 sous-vide controller in Dafny

A model of the logic in the STM32 sous-vide firmware. Two parts are modelled:

- The DS18B20 driver (`ds18b20.c`). It talks 1-Wire over a half-duplex UART, following Maxim Application Note 214.
  - Each 1-Wire time slot is one UART byte: `0x00` writes a 0 and `0xFF` writes a 1 or opens a read slot.
  - The two command tables are Skip ROM + Convert T and Skip ROM + Read Scratchpad, spelled out slot by slot.
  - The presence test looks at the byte that comes back after the `0xF0` reset pattern.
  - A loop decodes the 16 read slots into the raw reading, which becomes degrees Celsius.
- The cook controller (`main.c`, with the minute interrupt of `alarm.c`).
  - It is a five-state machine: REST, WARMING, COOKING, PAUSED, FINISHED.
  - It is fed by a one-slot command mailbox.
  - The Bluetooth receive interrupt fills that mailbox. It upper-cases the line and classifies it by prefix (`getPrefix`), and it validates the TIME and TEMP arguments.
  - The relay is driven by time-proportioning against the PID output.

Modules:

- `OneWireCodec` holds the values: slot constants, `Expand`, the tables, the decoding specification `SlotsToWord` / `ScratchpadTemperature`, `Present` and `Celsius`. Its lemmas cover the tables, the round trip, both directions of decoding and the bit-by-bit meaning of the reading.
- `Ds18b20` has the class `Sensor` with the driver's statics and the state of the LPUART and its two DMA channels.
  - `Transmit`, `Receive` and `Reset` carry the NULL guards, the baud-rate switch and the presence test.
  - `TxComplete` and `RxComplete` are the DMA completion events.
  - `Decode` is the shift-in loop, proved against `ScratchpadTemperature`.
  - `Process` is `DS18B20_Process`.
- `CookCommands` holds the pure parts of the receive handler: `toupper`, the upper-casing of a C buffer, `getPrefix`, and the TIME and TEMP validation.
- `CookController` models the controller state.
  - `Next` specifies one pass of the main loop's `switch`, `Tick` the RTC alarm interrupt, and `Received` the receive interrupt.
  - `Consistent` is the invariant every reachable state keeps.
  - The class `Controller` keeps the statics `status`, `command`, `minutes`, `cookingTime`, `cookingTemperature` and `buffer` as fields, with the relay output and the alarm enable. The TEMP scratch variable `tempTemp` is not among them (see the finding below). Its methods (`Step`, `MinuteTick`, `UpperCase`, `ReceiveLine`) update them in place and are proved against those functions.
- `Firmware` holds one main-loop iteration: the sensor is read, then the state machine steps on that temperature.

Numbers are unbounded in Dafny, so the C widths are written out:

- `uint16` and `byte` are range-limited integers.
- `minutes` wraps at 2^16.
- The SysTick value and the PID output are `bv32`, compared after a wrapping subtraction.
- In the decode loop, `(t >> 1) | 0x8000` on a `uint16_t` is written as `t / 2 + 0x8000`. This is the same value, since `t / 2 < 0x8000`.
- Doubles are exact reals.

Behaviours of the code that a reader might not expect, all modelled as written:

- The raw reading is an unsigned `uint16_t` and is never sign-extended (ds18b20.c:332, 346). `NegativeReadingNotSignExtended` shows -10.125 °C reading as 4085.875.
- The first slot decoded ends up as the least significant bit of the reading, as the DS18B20 sends it.
- PAUSED + START only goes back to WARMING with the relay on. The minute alarm is enabled again only when the set-point is reached (main.c:170-173). The minutes counted before the pause are kept.
- A pending command is cleared only when it causes a transition (main.c:125-189). Other commands stay in the mailbox, for example START during COOKING.
- There is no control window. `windowSize` is never used and `windowStart` is never assigned, so the relay is on exactly when `output > SysTick->VAL` (main.c:39-40, 139).

## Model

| member | source | states |
|---|---|---|
| `OneWireCodec.Slot` | ds18b20.c:8-9 | every slot is `0x00` or `0xFF`, and it is `0xFF` exactly for a 1 |
| `OneWireCodec.ExpandBits` | ds18b20.c:12-26 | n bits become n slots, each `0x00` or `0xFF` |
| `OneWireCodec.Expand` | ds18b20.c:12-26 | a byte becomes 8 slots, and slot i is `0xFF` exactly when bit i of the byte is set (least significant bit first) |
| `OneWireCodec.ExpandSkipRom` | ds18b20.c:22 | the expansion of Skip ROM `0xCC` is the table's first 8 slots |
| `OneWireCodec.ExpandConvertT` | ds18b20.c:16 | the expansion of Convert T `0x44` is the convert table's last 8 slots |
| `OneWireCodec.ExpandReadScratchpad` | ds18b20.c:23 | the expansion of Read Scratchpad `0xBE` is the read table's slots 8 to 15 |
| `OneWireCodec.TempConvertIsExpansion` | ds18b20.c:12-17 | `temp_convert` is `Expand(0xCC) + Expand(0x44)`, and every entry is `0x00` or `0xFF` |
| `OneWireCodec.TempReadIsExpansion` | ds18b20.c:19-26 | `temp_read` has 32 entries: the first 16 are `Expand(0xCC) + Expand(0xBE)`, the last 16 are all read slots `0xFF`, and every entry is `0x00` or `0xFF` |
| `OneWireCodec.SlotsToWord` | ds18b20.c:335-345 | n echoed slots decode to a value below 2^n |
| `OneWireCodec.Normalize` | ds18b20.c:337 | what an echo means slot by slot: any byte other than `0xFF` is a 0 |
| `OneWireCodec.ScratchpadTemperature` | ds18b20.c:332-345 | bit k of the reading is 1 exactly when echo byte 16+k is `0xFF`, for k in 0..15; only bytes 16..31 are read |
| `OneWireCodec.Celsius` | ds18b20.c:346 | the reading divided by 16 exactly; never negative and below 4096, because the `uint16_t` is not sign-extended |
| `OneWireCodec.Present` | ds18b20.c:120-129 | the presence test: the reset echo is neither `0xF0` (nobody pulled) nor `0x00`; `Ds18b20.Sensor.Reset` states that the driver reports exactly this |
| `OneWireCodec.Pow2Sixteen` | ds18b20.c:332 | the powers of two behind the 8-bit and 16-bit widths and the top bit `0x8000` |
| `OneWireCodec.ExpandBitsAt` | ds18b20.c:12-26 | slot i of an expansion is `0xFF` exactly when bit i is set |
| `OneWireCodec.ExpandBitsAll` | ds18b20.c:12-26 | the same for every slot at once |
| `OneWireCodec.DecodeExpandBits` | ds18b20.c:335-345 | decoding the n-slot expansion of a value below 2^n gives that value back |
| `OneWireCodec.ExpandDecode` | ds18b20.c:335-345 | expanding a decoded echo gives the echo back up to its meaning (`Normalize`) |
| `OneWireCodec.ExpandBitsSplit` | ds18b20.c:19-26 | the expansion of `lo + 2^n * hi` is that of `lo` followed by that of `hi`, so the 16 read slots of a reading are its low byte's slots, then its high byte's |
| `OneWireCodec.HalfOfSplit` | ds18b20.c:339 | halving `lo + 2^n * hi` halves `lo` and moves `hi` down one position |
| `OneWireCodec.DecodedBits` | ds18b20.c:335-345 | bit k of a decoded word is 1 exactly when slot k is `0xFF` |
| `OneWireCodec.DecodeIff` | ds18b20.c:335-345 | 16 slots decode to v if and only if they say v's bits, least significant first |
| `OneWireCodec.SlotsToWordNormalize` | ds18b20.c:337 | decoding depends only on which slots are `0xFF` |
| `OneWireCodec.RoundTrip` | ds18b20.c:332-346 | for every 16-bit v, an echo whose read slots are `Expand(v % 256) + Expand(v / 256)` decodes to exactly v |
| `OneWireCodec.ExampleReading` | ds18b20.c:346 | the sensor value `0x0191` reads as 25.0625 °C |
| `OneWireCodec.NegativeReadingNotSignExtended` | ds18b20.c:332-346 | the two's-complement value `0xFF5E` (-10.125 °C) reads as 4085.875 |
| `OneWireCodec.SlotsToWordSnoc` | ds18b20.c:339 | appending a `0xFF` slot adds the weight of its position, and any other slot adds nothing |
| `OneWireCodec.SlotsToWordZeros` | ds18b20.c:332 | empty slots decode to 0, the loop's start value |
| `OneWireCodec.ShiftIn` | ds18b20.c:337-344 | one loop step (halve, then put the slot's bit in bit 15) is the same as sliding a 16-slot window by one slot |
| `Ds18b20.Window` | ds18b20.c:332-345 | the decode loop's word before slot i is the 16-slot window of zeros and slots 16..i-1 |
| `Ds18b20.WindowStart` | ds18b20.c:332 | the window before the loop decodes to 0 |
| `Ds18b20.WindowStep` | ds18b20.c:335-345 | reading slot i halves the word and adds `0x8000` exactly when the slot is `0xFF` |
| `Ds18b20.Store` | ds18b20.c:319-320 | the receive channel stores the echo at the start of its buffer and leaves the rest alone |
| `Ds18b20.Sensor.constructor` | ds18b20.c:13-32 | at start-up the tables hold their slots, nothing has been received and the temperature is 0 |
| `Ds18b20.Sensor.Transmit` | ds18b20.c:34-62 | with NULL nothing changes; otherwise channel 6 gets the buffer and size and is enabled, and the receive side is untouched |
| `Ds18b20.Sensor.Receive` | ds18b20.c:64-91 | with NULL nothing changes; otherwise channel 7 gets the buffer and size and is enabled |
| `Ds18b20.Sensor.Reset` | ds18b20.c:93-146 | reports presence exactly when the echo is neither `0xF0` nor `0x00`, and the baud rate is back to 115200 |
| `Ds18b20.Sensor.TxComplete` | ds18b20.c:353-364 | the transmit interrupt disables channel 6 and changes nothing else |
| `Ds18b20.Sensor.RxComplete` | ds18b20.c:366-380 | the echo is in the buffer, channel 7 is disabled and the data-received flag is set |
| `Ds18b20.Sensor.Decode` | ds18b20.c:332-345 | the loop's result is `ScratchpadTemperature` of the 32-byte buffer |
| `Ds18b20.Sensor.Process` | ds18b20.c:302-351 | with a sensor, the buffer holds the read echo, the temperature is `Celsius` of its decoded reading, the flag is cleared and both channels are idle; without one, the temperature is 0 and the buffer, the flag and both DMA channels are untouched |
| `CookCommands.ToUpper` | main.c:222 | the result is never lower case; only lower-case letters change; NUL stays NUL |
| `CookCommands.CString` | main.c:221 | the string in a buffer is its prefix up to the first NUL |
| `CookCommands.Upper` | main.c:222 | each character goes through `toupper`, and the length is kept |
| `CookCommands.UpperAll` | main.c:221-223 | the loop upper-cases the string before the terminator and leaves the terminator and the rest of the buffer alone |
| `CookCommands.Compared` | main.c:195-215 | `getPrefix` never compares more characters than a keyword has |
| `CookCommands.Matches` | main.c:196-211 | `strncmp(buffer, keyword, n) == 0`: the line reaches n characters and agrees with the keyword on them; `CookCommands.Exclusive` shows no line matches two keywords |
| `CookCommands.Prefix` | main.c:195-215 | `getPrefix`: the first keyword in the order REPORT, TEMP, TIME, START, STOP, PAUSE that the line matches, else INVALID; `CookCommands.PrefixIff` characterises it independently of that order |
| `CookCommands.Exclusive` | main.c:195-215 | no line begins with two of the compared prefixes REPOR, TEMP, TIME, START, STOP, PAUSE |
| `CookCommands.PrefixIff` | main.c:195-215 | a line is classified as command c exactly when it begins with c's compared prefix, and as INVALID exactly when it begins with none of them |
| `CookCommands.UnknownInitial` | main.c:195-215 | a line whose first character is not R, T, S or P is INVALID |
| `CookCommands.PrefixComparesOnlyPrefix` | main.c:196-213 | "REPOR" is REPORT, "STOPPED" is STOP and "PAUSED" is PAUSE |
| `CookCommands.PrefixExamples` | main.c:199-214 | TEMP and TIME lines are told apart; "STAR" and the empty line are INVALID |
| `CookCommands.LowerCaseAccepted` | main.c:221-224 | "start" and "Time 90" are recognised after upper-casing |
| `CookCommands.TimeTotal` | main.c:237-248 | the `numOfArgs` switch: h*60+m for two numbers, h for one, 0 otherwise; `CookCommands.SetCookingTime` states when it is taken |
| `CookCommands.TimeAccepted` | main.c:249 | a cooking time is accepted strictly between 0 and 2880 minutes; `CookCommands.TimeStaysInRange` shows TIME keeps it there |
| `CookCommands.SetCookingTime` | main.c:236-254 | the time becomes h*60+m (two numbers), h (one number) or 0 (none), and only if that is strictly between 0 and 2880; otherwise it is unchanged |
| `CookCommands.TimeStaysInRange` | main.c:249-251 | once a time is in range, TIME commands keep it in range |
| `CookCommands.TimeExamples` | main.c:237-254 | "1 30" sets 90 and "45" sets 45; 0, 2880, "48 0" and no number are rejected |
| `CookCommands.FahrenheitToCelsius` | main.c:228 | c*9 = (f-32)*5 |
| `CookCommands.TemperatureAccepted` | main.c:229 | a set-point is accepted strictly between 20 and 95 °C; `CookCommands.TemperatureRangeFahrenheit` gives the same range in Fahrenheit |
| `CookCommands.SetCookingTemperature` | main.c:226-234 | the corrected TEMP branch: the set-point becomes (F-32)*5/9 only when a number was read and the result is strictly between 20 and 95; otherwise it is unchanged |
| `CookCommands.TemperatureRangeFahrenheit` | main.c:228-229 | the accepted range is exactly 68 °F to 203 °F, both excluded |
| `CookCommands.TemperatureStaysInRange` | main.c:229-231 | once a set-point is in range, TEMP commands keep it in range |
| `CookCommands.TempCommandAsWritten` | main.c:226-234 | the TEMP branch as written: the value converted is the one just read or, when none was read, the stale `tempTemp`; `CookCommands.BareTempReconverts` states its defect for all inputs |
| `CookCommands.BareTempReconverts` | main.c:226-234 | as written, a bare TEMP after any accepted set-point t (still in `tempTemp`) converts t again as Fahrenheit: above 68 it replaces the set-point by a different value, otherwise it is rejected; the corrected branch keeps the set-point |
| `CookCommands.TempCommandAgreesWhenScanned` | main.c:227-231 | when a number is read, the as-written and the corrected branch agree |
| `CookCommands.StaleTemperatureReconverted` | main.c:227-231 | "TEMP 194" then a bare "TEMP" sets 290/9 °C as written, and keeps 90 °C when corrected |
| `CookController.RelayDrive` | main.c:139 | the time-proportioning test `output > currentTime - windowStart` on `uint32_t`; `CookController.RelayDriveAgainstNow` reduces it to `output > now` |
| `CookController.RelayDriveAgainstNow` | main.c:39-40 | with `windowStart` never assigned, the relay is on exactly when the output exceeds the SysTick value |
| `CookController.RelayDriveExamples` | main.c:139-143 | with output 2000 the relay is on exactly while the counter is below 2000; output 0 never turns it on |
| `CookController.Next` | main.c:123-191 | one pass keeps `Consistent`; leaves the time and set-point alone; clears the command exactly when it acts, and then the state changes; resets `minutes` only on STOP from COOKING or PAUSED |
| `CookController.Tick` | alarm.c:53-58 | the alarm interrupt changes only `minutes`, and changes it exactly when the alarm is enabled |
| `CookController.Received` | main.c:217-255 | the command becomes the line's prefix, whatever was pending; only TIME can change the time and only TEMP the set-point; state, relay, alarm and minutes are untouched |
| `CookController.InitialConsistent` | main.c:28-35 | the start-up state (REST, relay off, alarm off) is consistent |
| `CookController.StartWarmCook` | main.c:150-167 | REST + START gives WARMING with the relay on; it stays there below the set-point and becomes COOKING with the alarm on once the set-point is reached, relay untouched |
| `CookController.CookingRelay` | main.c:136-148 | in COOKING with no PAUSE or STOP, the state stays COOKING with the relay following the comparison while `minutes < cookingTime`, and becomes FINISHED with relay and alarm off otherwise |
| `CookController.PendingStartFiresAfterFinish` | main.c:144-184 | a START received while cooking survives until FINISHED and then restarts WARMING |
| `CookController.ResumeDoesNotCount` | main.c:169-173 | PAUSED + START gives WARMING with the alarm off and `minutes` kept, so ticks count nothing until the set-point is reached |
| `CookController.FinishedKeepsMinutes` | main.c:174-189 | STOP or START from FINISHED keeps `minutes`; STOP from PAUSED clears it |
| `CookController.LastLineWins` | main.c:224 | any line replaces a pending START, and an unrecognised one leaves INVALID |
| `CookController.Apply` | main.c:105-191 | every event (loop pass, minute tick, received line) keeps `Consistent` |
| `CookController.RunConsistent` | main.c:105-191 | every state reachable by a run of events from a consistent one is consistent |
| `CookController.NoCountingOutsideCooking` | alarm.c:53-58 | outside COOKING any number of minute ticks leaves the state unchanged |
| `CookController.CountsWhileEnabled` | alarm.c:53-58 | while the alarm is enabled, k minute ticks add k to `minutes` modulo 2^16 and change nothing else |
| `CookController.Controller.constructor` | main.c:28-36 | the statics start as REST, INVALID, cooking time 0, set-point 0.0, relay and alarm off, with a zeroed buffer; `minutes` starts at 0 as in alarm.c |
| `CookController.Controller.Step` | main.c:123-191 | the `switch` updates the fields to `Next` of their old values and keeps `Valid` |
| `CookController.Controller.MinuteTick` | alarm.c:53-58 | the fields become `Tick` of their old values |
| `CookController.Controller.UpperCase` | main.c:221-223 | the in-place loop leaves `UpperAll` of the old buffer |
| `CookController.Controller.ReceiveLine` | main.c:217-255 | the buffer holds the upper-cased line, and the fields become `Received` of their old values for the upper-cased line |
| `CookController.Controller.Classify` | main.c:224-255 | prefix, TEMP and TIME branches update the fields as `Received` says |
| `CookController.Controller.ReadLine` | main.c:220-223 | after `fgets` and the loop, the buffer holds a terminator and its string is the upper-cased line |
| `CookController.Controller.Fill` | main.c:220 | `fgets` stores the line and a terminator at the start of the buffer |
| `CookController.LineText` | main.c:220-224 | the string `getPrefix` sees is the upper-cased line up to its first NUL |
| `CookController.CStringOfFilled` | main.c:220 | the string of a line plus terminator is the line up to its own first NUL |
| `CookController.CStringUpper` | main.c:221-223 | upper-casing keeps the terminator in place |
| `CookController.CStringAt` | main.c:221 | a buffer whose first NUL is at k holds its first k characters |
| `Firmware.LoopIteration` | main.c:105-191 | one iteration: the temperature is `Celsius` of the decoded echo, or 0 without a sensor, and the controller steps on that value |
| `Firmware.NoSensorKeepsWarming` | ds18b20.c:348-350 | without a sensor the reading is 0, so with an accepted set-point WARMING never ends on its own |
| `Firmware.StartWithoutSettings` | main.c:136-167 | START before any TIME or TEMP goes REST, WARMING, COOKING, FINISHED in three passes, because 0 °C counts as reached and 0 minutes as elapsed |

## Left out

- Hardware bring-up has no logic here and is not modelled. This covers the GPIO, DMA, LPUART1, USART1, clock and RTC register configuration (`DS18B20_GPIO_Init`, `DS18B20_TX_DMA_Init`, `DS18B20_RX_DMA_Init`, `DS18B20_LPUART1_Init`, `DS18B20_LPUART1_Enable`, SysClock.c, UART.c, `Relay_Init`, `RTC_Set_Alarm`, `RTC_Alarm_Enable`). Only their effect on the initial state is kept: relay off, alarm off.
- Busy-waits and delays are taken as completed. These are the waits on the DMA enable bits, on TXE/TC, on `temperatureDataReceived`, on ALRAWF, and `delay(750)`. None of these waits has a timeout: a DMA or UART completion that never arrives would stall the loop, and the model takes each one as completed. An absent sensor does not stall: the first reset reads back `0xF0` and `Process` returns with 0 °C.
- Each interrupt is one atomic event between main-loop iterations. An interrupt that lands inside the `switch`, between a command test and its clearing, is not modelled.
- The register-level details of a DMA transfer are reduced to buffer, count and enable. These are the IFCR flag clearing, the DMAT/DMAR toggles and the TCIF tests in the handlers.
- PID `compute` (main.c:44-56) uses double arithmetic, divides by a possibly zero time step and converts a double to `uint32_t`. Its `output` and the SysTick value are `bv32` parameters.
- The LCD and `printf` output is not modelled: the status, temperature, timer and relay lines, the REPORT text and the acknowledgements.
- `fgets` is reduced to the line it delivers, of at most 1023 characters. End of input and read errors are not modelled. A longer line that `fgets` splits across calls is not modelled either. The RXNE test at the handler's entry is the event itself.
- `sscanf` is a library call: what it read is a parameter. For TEMP it is an optional number; for TIME it is the count and the two integers.
- SetCookingTime: the hours and minutes are unbounded integers. The C code's `int` overflow in `tempHour * 60`, and the `%u` into `int` conversion, are not modelled.
- SetCookingTemperature: computes on exact reals; the rounding of `double` near the 20 and 95 bounds is not modelled.
- FahrenheitToCelsius: exact reals, no `double` rounding.
- Celsius: exact reals; `temperature / 16.0` is exact in `double` as well, since the reading has at most 16 bits.
- ToUpper: `toupper` in the C locale on Dafny characters. Other locales and negative `char` values are not modelled.
- The relay output and the alarm enable are booleans. `Relay_On`, `Relay_Off`, `Alarm_Enable` and `Alarm_Disable` are single register writes.
- CookController.Received: applies the corrected TEMP branch (`SetCookingTemperature`) and has no `tempTemp`, so on a TEMP line with no number it keeps the set-point, where main.c:227-231 converts the stale `tempTemp` again (the finding below).
- CookController.Controller.Classify: the same corrected TEMP branch, without the static `tempTemp`.
- CookController.Controller.ReceiveLine: the same corrected TEMP branch, without the static `tempTemp`; the as-written behaviour is `TempCommandAsWritten`, related to the corrected one by `TempCommandAgreesWhenScanned` and `BareTempReconverts`.
- The RTC alarm is modelled as firing once a minute while enabled. The minute timing itself is not modelled.

## Findings

| source | as written | input that shows it | evidently intended | confidence | as-written member | corrected member |
|---|---|---|---|---|---|---|
| main.c:226-234 | the result of `sscanf(buffer + 4, "%lf", &tempTemp)` is not checked. When no number is read, the static `tempTemp` still holds the previous command's value, already converted to Celsius, and it is converted again as if it were Fahrenheit | "TEMP 194" (90 °C) followed by a bare "TEMP": the set-point becomes (90-32)*5/9 = 290/9, about 32.2 °C | a TEMP line without a number is rejected and the set-point stays as it was | high; not executed | `CookCommands.TempCommandAsWritten` (`CookCommands.BareTempReconverts`, `CookCommands.StaleTemperatureReconverted`) | `CookCommands.SetCookingTemperature` |
