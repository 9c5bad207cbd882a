# Temperature monitor: LCD driver, alarm latch and ADC arithmetic

The program runs on a PIC microcontroller. It samples an LM35 temperature sensor on analog channel 0 and
shows the temperature on a 16x2 character LCD. If the temperature exceeds 80 °C, it shows a warning and
sounds a buzzer once. This Dafny project models the parts of `main.c` with real logic:

- **Protocol** (`protocol.dfy`): the HD44780-style 4-bit bus as an observer of the pins sees it. It covers:
  - how one byte becomes two latched nibbles, high nibble first, with RS choosing between the command
    and data registers;
  - how a trace of latches decodes back into bytes, proved as a round trip in both directions;
  - the C-string prefix that `LCD_String` sends;
  - the cursor address that `LCD_Set_Cursor` computes in `unsigned char` arithmetic.
- **Lcd** (`lcd.dfy`): the output pins as a `Board` class. The fields are `RS`, `EN`, `D4`..`D7` and `RC0`,
  plus a ghost `trace` that records a latch on every falling edge of EN and every write of the buzzer
  line. `LCD_Command`, `LCD_Char`, `LCD_String`, `LCD_Set_Cursor` and `LCD_Init` are methods that assign
  the pins step by step, as the C code does. Each is proved to append exactly the latches of the bytes it
  sends.
- **Monitor** (`monitor.dfy`): the body of `main`'s `while (1)` as a `Controller` class. It holds the
  board, the three string literals and `buzzer_triggered`.
  - `Step` is one iteration: the status row, then the reading row, then the buzzer latch.
  - `Run` loops `Step` over a finite sequence of readings.
  - Proved (the run-counting property): from power-on, the buzzer pulses exactly once per maximal run
    of hot readings, exactly at the first reading of each run.
- **Adc** (`adc.dfy`): the register arithmetic of `ADC_Init` and `ADC_Read`. This is the channel select
  by mask-and-or into ADCON0, and the result combined from ADRESH and ADRESL.
- **Hd44780** (`hd44780.dfy`): a byte-level reference model of the display controller at the other end
  of the bus, covering the display RAM, the address counter and the mode flags. It fixes what the bytes
  the driver sends mean.
- **Screen** (`screen.dfy`): the two models combined.
  - `LCD_Init` leaves the controller in one fixed state, whatever state it started in.
  - Each iteration rewrites both rows whole. So after any number of readings the display shows the
    last one: its status on row 1, and its value padded with blanks on row 2.
  - The display receives exactly the initialisation commands followed by the bytes of the iterations.

Bytes are `bv8`, pins `bv1` and nibbles `bv4`. C evaluates the cursor sum and the channel shift in `int`
and truncates the result to 8 bits where it is stored: at `LCD_Command`'s `unsigned char` parameter
(main.c:135) and at the assignment to ADCON0 (main.c:147). Arithmetic on `bv8` truncates the same way.

The temperature computation is abstracted. An iteration receives two inputs:

- `hot`: the outcome of `temperature > 80.0`;
- `text`: the bytes `sprintf` would have written into `temp_str`.

The buzzer's five-second on-time and all other delays are not part of the trace.

## Model

| member | source | states |
|---|---|---|
| `Protocol.NibbleBits` | main.c:87-96 | The first nibble put on D4..D7 carries bits 4-7 of the byte and the second carries bits 0-3, in bit order. |
| `Protocol.SplitJoin` | main.c:87-97 | Joining the two nibbles gives back the byte; first nibble × 16 + second nibble = the byte. |
| `Protocol.JoinSplit` | main.c:87-97 | Splitting a joined pair of nibbles gives back both nibbles. |
| `Protocol.Transmit` | main.c:86-97 | The two latches that carry one byte: RS, high nibble, then RS, low nibble. Its properties are in `TransmitNibbles`, `DecodeEncode` and `EncodeDecode`. |
| `Protocol.TransmitNibbles` | main.c:86-97 | One byte is exactly two latches, both with the byte's RS level, high nibble first. The first nibble's value × 16 + the second's is the byte. |
| `Protocol.EncodeShape` | main.c:127-131 | n bytes sent on one register give 2n latches, every one on that register and nothing else. |
| `Protocol.DecodeEncode` | main.c:85-115 | Reading the latches of any byte sequence back as bytes gives that sequence. |
| `Protocol.EncodeDecode` | main.c:85-115 | Any trace that reads back as bytes is exactly the encoding of those bytes. No latch is lost or added. |
| `Protocol.CommandAndDataDifferInRsOnly` | main.c:85-115 | For the same byte, `LCD_Command` and `LCD_Char` latch the same nibbles in the same order. Only RS differs. |
| `Protocol.UntilNul` | main.c:128 | The characters a C string presents: a prefix of the buffer without NUL that ends at the first NUL, or at the end of the buffer. |
| `Protocol.CursorAddress` | main.c:134-135 | The command byte `LCD_Set_Cursor` sends: 0x80 for row 1, else 0xC0, plus column − 1 in 8 bits. Its properties are in the three lemmas below. |
| `Protocol.CursorAddressValue` | main.c:133-135 | The cursor command is (0x80 for row 1, else 0xC0) + column − 1, reduced modulo 256. Every row other than 1 selects row 2. |
| `Protocol.CursorAddressExamples` | main.c:133-135 | (1,1) → 0x80, (1,5) → 0x84, (2,16) → 0xCF. |
| `Protocol.CursorRoundTrip` | main.c:133-135 | For rows 1-2 and columns 1-64 the command has bit 7 set (set DDRAM address), bit 6 is the row and bits 0-5 are the column − 1. For columns 1-40 the address is a cell of that row's line; for columns 41-64 it is a cell of neither line. |
| `Protocol.CursorColumnZero` | main.c:133-135 | Column 0 wraps: on row 1 to 0x7F, a command without bit 7 (a set CGRAM address command); on row 2 to 0xBF, a set DDRAM address command for 0x3F, past the end of line 1. |
| `Lcd.Board.constructor` | main.c:16-22 | All pins low and nothing yet observed. The levels are a model choice (the hardware leaves them undefined at reset), and nothing depends on them. |
| `Lcd.Board.WriteEnable` | main.c:91 | Writing EN latches RS and the data lines exactly on a high-to-low edge. No other pin changes. |
| `Lcd.Board.WriteBuzzer` | main.c:69-71 | Writing RC0 records the level. No display pin changes. |
| `Lcd.Board.Command` | main.c:85-99 | Appends exactly the two latches of the byte with RS = 0. Afterwards EN is low, the lines hold the low nibble, and RC0 is unchanged. |
| `Lcd.Board.Char` | main.c:101-115 | As `Command`, with RS = 1. |
| `Lcd.Board.String` | main.c:127-131 | Appends the latches of every character before the first NUL, in order, on the data register. An empty string changes no pin. |
| `Lcd.Board.SetCursor` | main.c:133-136 | Appends exactly the latches of the cursor-address command. |
| `Lcd.Board.Init` | main.c:117-125 | Appends exactly the latches of the commands 0x02, 0x28, 0x0C, 0x06, 0x01, in order. |
| `Lcd.InitEncoding` | main.c:117-125 | The latches of the initialisation sequence, command by command. |
| `Lcd.InitSendsOnlyCommands` | main.c:117-125 | Those latches read back as exactly the five commands, all with RS = 0, and no data byte. |
| `Monitor.WarningTextFillsRow` | main.c:56 | The warning text is 16 characters without NUL. |
| `Monitor.NormalTextFillsRow` | main.c:58 | The normal status text is 16 characters without NUL. |
| `Monitor.BlankRowFillsRow` | main.c:63 | The clearing text is 16 characters without NUL. |
| `Monitor.BlankRowSpaces` | main.c:63 | Every character of the clearing text is a space. |
| `Monitor.FixedTexts` | main.c:56-63 | The three literals of the loop each fill one row and are sent whole. |
| `Monitor.Pulses` | main.c:68 | The condition of the first buzzer `if`: the reading is hot and `buzzer_triggered` is clear. `StepBuzzer` proves that the buzzer is written exactly then. |
| `Monitor.StatusFrames` | main.c:53-59 | The bytes of the first row: the cursor command for (1,1), then the status text up to its NUL. `Controller.ShowStatus` is proved to send exactly these. |
| `Monitor.ReadingFrames` | main.c:61-65 | The bytes of the second row: cursor (2,1), the blank text, cursor (2,1), the reading. `Controller.ShowReading` is proved to send exactly these. |
| `Monitor.StepFrames` | main.c:53-65 | The display bytes of one iteration: status row, then reading row. `Screen.StepRows` proves what they show. |
| `Monitor.NextLatch` | main.c:68-77 | After an iteration, `buzzer_triggered` equals the reading's hotness, whatever it was before. |
| `Monitor.StepBuzzer` | main.c:68-73 | An iteration writes the buzzer line as on then off if and only if the reading is hot and the latch clear. Otherwise it does not write it at all. |
| `Monitor.LatchAfter` | main.c:47-77 | After one or more iterations the latch equals the last reading's hotness. It is clear after every reading that is not hot. |
| `Monitor.PulseCountIsRuns` | main.c:68-77 | Number of pulses + (1 if the latch was already set when a first hot run begins) = number of maximal runs of hot readings. |
| `Monitor.PulseExactlyAtRunStart` | main.c:37-77 | From the initial clear latch, iteration i pulses if and only if reading i is hot and reading i−1 is not. |
| `Monitor.LoopBuzzer` | main.c:47-80 | Over any readings, the buzzer line carries exactly one on-off pair per pulsing iteration, and nothing else. |
| `Monitor.PulsesPerHotRun` | main.c:37-80 | From power-on, the buzzer carries exactly one on-off pair per maximal run of hot readings. |
| `Monitor.LoopTrace` | main.c:47-80 | The trace of the loop over a sequence of readings: each iteration's trace, started from the latch the previous one left. `Controller.Run` is proved to produce it; `LoopBuzzer` and `Screen.LoopDisplayTraffic` state what it carries. |
| `Monitor.LoopTraceSnoc` | main.c:47-80 | The trace of n+1 iterations is the trace of n followed by one iteration started with the latch the n left. |
| `Monitor.Controller.constructor` | main.c:37-45 | Latch clear, buzzer off, then exactly the initialisation latches. |
| `Monitor.Controller.ShowStatus` | main.c:53-59 | Exactly the latches of: cursor to (1,1), then the warning or the normal text as chosen by `hot`. |
| `Monitor.Controller.ShowReading` | main.c:61-65 | Exactly the latches of: cursor to (2,1), 16 blanks, cursor to (2,1), then the reading. |
| `Monitor.Controller.Step` | main.c:53-77 | One iteration: the display bytes, then a buzzer pulse exactly when hot with the latch clear. The latch becomes `NextLatch`, and RC0 is 0 after a pulse and unchanged otherwise. |
| `Monitor.Controller.Run` | main.c:47-80 | After the readings, the latch is `LatchAfter` and the trace is exactly the iterations' traces in order. |
| `Adc.SelectChannel` | main.c:146-147 | ADCON0 masked with 0xC5, then or-ed with the channel shifted left by three, truncated to 8 bits. Its properties are in the three lemmas below. |
| `Adc.SelectChannelBits` | main.c:146-147 | For channel < 8, bits 3-5 of ADCON0 hold the channel afterwards, bit 1 is clear, and bits 0, 2, 6 and 7 are unchanged. |
| `Adc.SelectChannelTwice` | main.c:146-147 | Selecting a second channel discards the first selection entirely. |
| `Adc.SelectChannelEight` | main.c:146-147 | Whatever ADCON0 held, channel 8 spills into bit 6 (clock select) and leaves channel field 0. After `ADC_Init` (0x41, bit 6 already set) it leaves ADCON0 unchanged, exactly as channel 0 does. |
| `Adc.Combine` | main.c:151 | ADRESH shifted up by eight bits plus ADRESL, in 16 bits: the upper byte of the result is ADRESH and the lower byte ADRESL, so the registers can be recovered from it. |
| `Adc.CombineBounds` | main.c:151 | The value is ≤ 1023 when ADRESH ≤ 3, and is non-negative as a 16-bit signed int exactly when ADRESH < 0x80. |
| `Adc.CombinePlace` | main.c:142-151 | With ADCON1's right-justify bit set, the combined registers equal the 10-bit conversion result; left-justified, the result × 64. |
| `Adc.Converter.constructor` | main.c:140-143 | ADCON0 = 0x41 and ADCON1 = 0x80. ADRESH and ADRESL start at 0 as a model choice (undefined on the hardware), and `Read` overwrites both. |
| `Adc.Converter.Read` | main.c:145-151 | ADCON0 ends with the channel selected and GO/DONE clear, and ADCON1 is unchanged. The returned value combines the result registers, which equals the conversion result when right-justified. |
| `Adc.InitThenRead` | main.c:44-48 | `ADC_Init` then `ADC_Read(0)`: converter on, channel 0, idle, returning the conversion result. |
| `Hd44780.InitFromAnyState` | main.c:117-125 | From any controller state, the five initialisation commands leave the same state: blank, home, two lines, display on, cursor off, increment. |
| `Hd44780.SetAddress` | main.c:133-135 | A command with bit 7 set moves the address counter to its low seven bits and changes nothing else. |
| `Hd44780.WriteChars` | main.c:127-131 | Characters that fit before the end of their line land in consecutive cells from the address counter. No other cell or mode changes. |
| `Screen.ReadingRow` | main.c:61-65 | The second row for a reading: its characters, then blanks up to column 16. |
| `Screen.WriteRow` | main.c:62-65 | Cursor to column 1 of a row, then up to 16 characters: these fill the first cells of that row, nothing else changes. |
| `Screen.StatusRow` | main.c:53-59 | Row 1 shows the status text afterwards and row 2 is untouched. |
| `Screen.ClearSecondRow` | main.c:62-63 | Row 2 shows 16 blanks afterwards and row 1 is untouched. |
| `Screen.WriteSecondRow` | main.c:64-65 | Row 2 starts with the reading and keeps what followed, and row 1 is untouched. |
| `Screen.ReadingRows` | main.c:61-65 | Row 2 shows the reading padded with blanks, so no character of an earlier, longer reading survives. |
| `Screen.StepRows` | main.c:53-65 | After one iteration, row 1 shows the status for `hot` and row 2 the padded reading. No mode changes. |
| `Screen.LoopRows` | main.c:47-80 | After one or more iterations the display shows the last reading, whatever it showed before. |
| `Screen.LoopDisplayTraffic` | main.c:47-80 | The latches of the iterations are exactly the encoding of their display bytes, whatever the buzzer does. |
| `Screen.AfterSetupTraffic` | main.c:42-80 | After a buzzer write and any setup bytes, the display traffic decodes to the setup bytes followed by the iterations' bytes. |
| `Screen.ProgramDisplayTraffic` | main.c:33-80 | From power-on, the display receives exactly the initialisation commands, then the iterations' bytes. |
| `Screen.AfterSetupBuzzer` | main.c:42-80 | After any setup bytes, the buzzer line carries its initial off, then one pulse per run of hot readings. |
| `Screen.ProgramBuzzer` | main.c:33-80 | From power-on, the buzzer line is written 0 once, then pulses once per maximal run of hot readings. |
| `Screen.ProgramTrace` | main.c:33-80 | What the pins show from power-on: RC0 written 0, the initialisation latches, then `LoopTrace` from a clear latch. `ProgramDisplayTraffic` and `ProgramBuzzer` state what it carries. |
| `Screen.PowerOn` | main.c:33-80 | `main` over a finite sequence of readings: the latch ends as the last reading's hotness and the board's trace is `ProgramTrace`. |
| `Screen.ShowsLastReading` | main.c:33-80 | Whatever the display held at power-on, after the program has handled one or more readings it shows the last one on both rows. |

## Left out

- The `#pragma config` fuses and the TRIS pin-direction setup (main.c:7-14, 39-41) are platform configuration. The write `RC0 = 0` at main.c:42 is modelled.
- Delays (`__delay_ms`, `__delay_us`) are left out. The model keeps order, not time; in particular the 5-second buzzer on-time is not recorded.
- The float conversion `adc_value * 4.88 / 10.0` and the comparison with 80.0 are floating point. An iteration receives their outcome as `hot`.
- `sprintf` (main.c:51) is a library call on a float. An iteration receives its output as `text`.
- The infinite `while (1)` is modelled by `Run` and `PowerOn` over any finite sequence of readings.
- Screen.PowerOn and Monitor.Controller.constructor: they do not call `ADC_Init` (main.c:44) or `ADC_Read` (main.c:48). The ADC is modelled on its own by `Adc.InitThenRead`, and the loop receives each reading's outcome as an input.
- Protocol.UntilNul: a buffer without a NUL stops at its end in the model. In C, `LCD_String` would then read past the buffer, which is undefined behaviour; the model does not capture that. In `main` every string passed carries its NUL: the three literals, and `temp_str`, into which `sprintf` writes at most 14 characters and a NUL for the ADC's range.
- Monitor.Controller.Step: it takes the formatted text as a second input alongside `hot`, because the text is what the second row shows.
- Adc.Converter.Read: the busy-wait on GO/DONE (main.c:150) is not modelled. The converter's side of the handshake is one step that writes ADRESH and ADRESL from the `sample` parameter and clears GO/DONE. Acquisition time and conversion timing are not modelled.
- Adc.Combine: the return value is kept as the 16 bits of XC8's `int`, read unsigned. Its signed reading is not modelled; `CombineBounds` states when it is non-negative (ADRESH < 0x80), which the right-justified setting guarantees.
- Hd44780: the controller receives whole bytes. Its power-on 8-bit mode, the nibble synchronisation of the 4-bit interface, the busy flag, display shift, CGRAM contents and the cursor/display shift command's display half are not modelled.
- Hd44780.InitFromAnyState: it assumes the controller is already in 4-bit mode and in step with the nibbles. The general power-on case is not covered.
- Screen.LoopRows and Screen.ShowsLastReading: they cover readings of at most 16 characters (`Fits`). Longer readings are not covered, and the format at main.c:51 never produces one for the ADC's range.
- Protocol: `LCD_Init`'s first command 0x02 is modelled as the code sends it, a full command byte in two nibbles (a return-home command at byte level). It is not modelled as a lone nibble that switches the interface width.
