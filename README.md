# ST7306 packed-monochrome display driver, modelled in Dafny

This project models the driver for the ST7306 reflective monochrome LCD
controller. The driver keeps a packed framebuffer of `ROWS x COLS` cells. A
cell is three bytes and covers 12 pixel columns and 2 pixel rows, with one bit
per pixel (set means black). The driver talks to the controller over SPI,
framed by a chip-select (CS) and a data/command (DC) pin, and it drives a
reset pin (RST) and a millisecond delay provider.

The model has five modules:

- `Instructions`: the controller's command set, the one-byte opcode each
  command is sent as (`command as u8`), and the inverse table.
- `Bus`: the hardware seen as an append-only trace of events (`CsLow`,
  `CsHigh`, `DcLow`, `DcHigh`, `RstLow`, `RstHigh`, `Spi(byte)`, `Delay(ms)`).
  It also gives the controller's view of a trace: the bytes clocked in while
  CS is asserted, each tagged as command or data by the DC line. It also gives
  the raw bytes on the bus.
- `Pixels`: the framebuffer encoding. This covers which byte and which bit
  hold pixel (x, y), what `set_pixel` does to a buffer, the clipping and
  colour truncation of `draw_pixels`, and the brightness test of `clear`.
- `Commands`: the event sequences the driver's operations emit, as pure
  functions. These include the fixed initialisation script (`init`), `flush`,
  `set_address_window` and the display, inversion and sleep commands. They
  come with lemmas about what the controller receives from each.
- `Driver`: the `ST7306` class. It has the flat framebuffer as an `array<bv8>`
  (byte `(row * COLS + col) * 3 + b` is `framebuffer[row][col][b]`), the offset
  fields `dx` and `dy`, and the trace of everything emitted so far. Each method
  states the exact events it appends and the new state of the buffer.

The SPI bus, the pins and the delay provider are not modelled as objects.
Every call the source makes on them becomes one event appended to `trace`, in
the same order. Pin and SPI calls never fail in this model, so every operation
completes; see "Left out".

Two observations follow from the proofs:

- `clear` always fills the buffer with `0xFF` (all black). With 5-, 6- and
  5-bit channels the brightness `r + g + b / 3` is at most 104, which is
  below the threshold of 128 (`Pixels.ClearFill`, `Pixels.ColToBright`).
- `draw_pixels` passes on the low byte of the raw RGB565 value, so a colour
  is drawn black exactly when its low three green bits and its blue bits are
  all zero. Red never matters (`Pixels.ColorByteBlack`).

## Model

| member | source | states |
|---|---|---|
| Instructions.Discriminant | src/instruction.rs:3-121 | every command's explicit discriminant lies between 0x00 and 0xFC |
| Instructions.OpcodeIsDiscriminant | src/instruction.rs:3-121 | the byte sent for a command equals its discriminant; the discriminant is at most 0xFC, so truncating it to u8 changes nothing |
| Instructions.DecodeOpcode | src/instruction.rs:3-121 | the inverse table recovers every command from its discriminant |
| Instructions.OpcodeInjective | src/instruction.rs:3-121 | two commands have the same opcode if and only if they are the same command |
| Instructions.AddressingOpcodes | src/instruction.rs:28-38 | CASET, RASET, RAMWR and MADCTL are 0x2A, 0x2B, 0x2C and 0x36 |
| Instructions.PairedOpcodes | src/instruction.rs:12-44 | SLPIN/SLPOUT, INVOFF/INVON, DISPOFF/DISPON and HPM/LPM are 0x10, 0x20, 0x28 and 0x38, each followed by its partner at one more |
| Instructions.PanelOpcodes | src/instruction.rs:55-101 | GATESET, FRCTRL, GCTRL, AUTOPWRCTRL, BSTEN, NVMLOADCTRL and OSCSET have their fixed values 0xB0, 0xB2, 0xC0, 0xD0, 0xD1, 0xD6 and 0xD8 |
| Bus.StartDataFraming | src/lib.rs:365-368 | selecting the chip and raising DC delivers nothing and leaves the lines selected for data |
| Bus.DataEventsReceived | src/lib.rs:370-375 | a data payload written while selected with DC high reaches the controller as data, byte for byte, and leaves the lines as they were |
| Bus.DataEventsBusBytes | src/lib.rs:370-375 | the bus carries exactly the payload bytes, in order |
| Bus.CommandReceived | src/lib.rs:353-363 | whatever the lines were, a framed command reaches the controller as its opcode tagged as a command, followed by each parameter tagged as data; afterwards CS is deasserted, and DC is high exactly when there were parameters |
| Bus.CommandBusBytes | src/lib.rs:353-363 | the bytes on the bus for a command are its opcode followed by its parameters |
| Commands.HardResetSilent | src/lib.rs:340-351 | a hard reset writes nothing to SPI, delivers nothing to the controller and leaves CS and DC unchanged |
| Commands.InitPhasesTrace | src/lib.rs:180-281 | the hard reset followed by the six phases of `init`, each appended in turn, extends the trace by exactly `init`'s events |
| Commands.InitReceived | src/lib.rs:174-284 | whatever the lines were, the controller receives from `init` exactly the opcodes and parameters of its script, in order; the reset contributes nothing |
| Commands.InitSends | src/lib.rs:181-281 | no setup phase sends INVON or INVOFF; the only step of `init`'s script that sends either is the inversion step (the fourth of the last five), and it sends the one the `inverted` flag selects |
| Commands.FinishDeliveries | src/lib.rs:265-281 | the last five commands deliver AUTOPWRCTRL with parameter 0xFF, then TEON, LPM, the inversion command and DISPON |
| Commands.InitEnding | src/lib.rs:271-281 | the last three things the controller receives from `init` are LPM, then INVON or INVOFF as the flag selects, then DISPON |
| Commands.InitInversion | src/lib.rs:274-279 | the controller receives INVON during `init` if and only if the panel is inverted, and INVOFF if and only if it is not |
| Commands.FlushReceived | src/lib.rs:115-132 | `flush` delivers CASET 18, 42, then RASET 0, 199, then RAMWR, then the whole buffer as data in row, column and byte order; CS stays asserted and DC high afterwards |
| Commands.FlushBusBytes | src/lib.rs:115-132 | the bus carries 0x2A 18 42 0x2B 0 199 0x2C and then every byte of the buffer, one per write |
| Commands.WritePixelsReceived | src/lib.rs:451-460 | `write_pixels` delivers RAMWR followed by the colour bytes as data, and leaves the chip selected |
| Commands.AddressWindowAsWritten | src/lib.rs:394-404 | against the intended window (`Commands.AddressWindow`) of the same rectangle and offset, the window as written starts at the same column and row, but its column end is 24 cells and its row end 199 rows further on, modulo 256 |
| Commands.AddressWindowAsWrittenDiffers | src/lib.rs:394-404 | on no input does the window as written equal the intended window |
| Commands.AddressWindowFullFrame | src/lib.rs:394-404 | as written, the full 300 x 400 frame asks for columns 18..66 and rows 0..142; the column end lies past the panel's last column, 42 |
| Commands.AddressWindowFirstCell | src/lib.rs:394-404 | the one-cell, one-row rectangle (0, 0)..(11, 1) gives the window 18..18 x 0..0 once corrected; as written, it gives 18..42 x 0..199, the whole panel |
| Commands.AddressWindowCovers | src/lib.rs:394-404 | for an ordered rectangle that lies on the 300 x 400 panel after the offset, the corrected window stays inside the panel's address ranges and is ordered; its ends are exactly the cells and rows that hold the rectangle's corners |
| Commands.WindowReceived | src/lib.rs:394-404 | the controller receives CASET with the two column bytes, then RASET with the two row bytes, and the chip ends deselected |
| Commands.OnOffReceived | src/lib.rs:286-293 | `on_off` delivers exactly one command: 0x29 (DISPON) when on and 0x28 (DISPOFF) when off |
| Commands.InvertReceived | src/lib.rs:332-338 | `invert_screen` delivers exactly one command: 0x21 (INVON) when inverting and 0x20 (INVOFF) otherwise |
| Commands.SleepReceived | src/lib.rs:295-319 | `sleep_in` delivers only 0x10 and `sleep_out` only 0x11, and each trace ends with a 100 ms delay |
| Commands.MadctlInjective | src/lib.rs:48-54 | the four orientations have distinct MADCTL values, none of them the 0x48 that `init` sets |
| Pixels.Offset | src/lib.rs:407-409 | for a pixel whose cell lies in the buffer, the byte index `(row * COLS + col) * 3 + byte` is inside the buffer |
| Pixels.BitTableClosedForm | src/lib.rs:412-440 | the 24-entry table equals the closed form: byte `(x % 12) / 4` and mask `0x80 >> (2 * (x % 4) + y % 2)`; in particular the panicking arm is never reached |
| Pixels.LocationInjective | src/lib.rs:407-446 | two pixels of the buffer with the same byte index and the same mask are the same pixel |
| Pixels.PixelAtLocates | src/lib.rs:407-446 | every bit of every byte of the buffer belongs to some pixel inside the buffer: the encoding is onto |
| Pixels.SetBit | src/lib.rs:442-446 | `|= mask` and `&= !mask` leave every other bit of the byte alone, and the masked bit ends set exactly when the pixel is black |
| Pixels.ApplyPixel | src/lib.rs:407-448 | after `set_pixel(x, y, color)` only the pixel's byte can differ, and the pixel is black exactly when `color == 0` |
| Pixels.ApplyPixelByte | src/lib.rs:442-446 | the other seven bits of the pixel's byte are kept |
| Pixels.ApplyPixelOthers | src/lib.rs:407-448 | setting a pixel does not change the colour of any other pixel |
| Pixels.ApplyPixelIdempotent | src/lib.rs:407-448 | setting a pixel twice to the same colour gives the same buffer as setting it once |
| Pixels.ApplyPixelCommute | src/lib.rs:407-448 | two different pixels can be set in either order with the same result |
| Pixels.Raw | src/lib.rs:100-104 | the raw 16-bit value holds red in bits 15..11, green in 10..5 and blue in 4..0 |
| Pixels.ColorByteBlack | src/lib.rs:100-104 | the byte passed to `set_pixel` is `(g % 8) * 32 + b`, so a pixel is drawn black exactly when `g % 8 == 0` and `b == 0` |
| Pixels.ColToBright | src/lib.rs:476-479 | the brightness is `r + g + b / 3`, with only blue divided, and the u8 truncation never changes it because it is at most 104 |
| Pixels.ClearFill | src/lib.rs:533-535 | the fill byte of `clear` is 0xFF for every colour |
| Pixels.ClearAllBlack | src/lib.rs:533-545 | after `clear`, every pixel of the buffer is black, whatever the colour |
| Pixels.AsI32 | src/lib.rs:97-98 | `width as i32` is the two's-complement reading of the u32: congruent to it modulo 2^32 and never larger |
| Pixels.Draw1 | src/lib.rs:93-105 | a pixel that fails the clip test leaves the buffer unchanged |
| Pixels.DrawAllPixel | src/lib.rs:89-111 | after drawing a run of pixels, each pixel of the buffer is black exactly when the last unclipped pixel aimed at it had colour byte 0; it keeps its old colour when no such pixel exists |
| Pixels.DrawAllClipped | src/lib.rs:93-105 | a run of pixels that are all off screen leaves the buffer as it was |
| Pixels.FitsImpliesAllFit | src/lib.rs:93-105 | when `width <= 12 * COLS` and `height <= 2 * ROWS`, every pixel that passes the clip test lands inside the buffer |
| Driver.ST7306.constructor | src/lib.rs:64-87 | `new` gives an all-zero buffer of `ROWS * COLS * 3` bytes, zero offset, the given flag and size, and an empty trace |
| Driver.ST7306.StartData | src/lib.rs:365-368 | appends CS low, DC high |
| Driver.ST7306.WriteData | src/lib.rs:370-375 | appends one SPI write per byte, in order |
| Driver.ST7306.WriteByte | src/lib.rs:377-379 | appends one SPI write of the byte |
| Driver.ST7306.WriteCommand | src/lib.rs:353-363 | appends the framing of the command: CS low, DC low, the opcode; then, if there are parameters, CS low, DC high and the parameters; then CS high |
| Driver.ST7306.DelayMs | src/lib.rs:182 | a call to the delay provider (`delay.delay_ms`, here and at the other waits) appends one delay event of that length |
| Driver.ST7306.HardReset | src/lib.rs:340-351 | appends RST high, 10 ms, RST low, 10 ms, RST high |
| Driver.ST7306.Init | src/lib.rs:174-284 | appends exactly the hard reset and the initialisation script, with the inversion command that the `inverted` field selects |
| Driver.ST7306.InitBoot | src/lib.rs:181-185 | appends SWRESET, 200 ms, NVMLOADCTRL 0x17 0x02, BSTEN 0x01 |
| Driver.ST7306.InitVoltages | src/lib.rs:188-196 | appends the five voltage commands with their parameters |
| Driver.ST7306.InitTiming | src/lib.rs:202-221 | appends OSCSET, FRCTRL, GTUPEQH, GTUPEQL, SOUEQ and GATESET with their parameters |
| Driver.ST7306.InitWake | src/lib.rs:224-231 | appends SLPOUT, 255 ms, LOWPOWER 0xC1 0x4A 0x26, VSHLSEL 0x00 |
| Driver.ST7306.InitLayout | src/lib.rs:241-263 | appends MADCTL 0x48, DTFORM, GAMAMS, PNLSET, CASET 0x12 0x2A and RASET 0x00 0xC7 |
| Driver.ST7306.InitFinish | src/lib.rs:266-281 | appends AUTOPWRCTRL 0xFF, TEON, LPM, INVON or INVOFF as the flag selects, and DISPON |
| Driver.ST7306.OnOff | src/lib.rs:286-293 | appends DISPON when on and DISPOFF otherwise |
| Driver.ST7306.InvertScreen | src/lib.rs:332-338 | appends INVON when inverting and INVOFF otherwise |
| Driver.ST7306.SleepIn | src/lib.rs:295-310 | appends SLPIN, then a 100 ms delay |
| Driver.ST7306.SleepOut | src/lib.rs:312-319 | appends SLPOUT, then a 100 ms delay |
| Driver.ST7306.SetOffset | src/lib.rs:388-391 | sets `dx` and `dy` and appends nothing |
| Driver.ST7306.SetAddressWindow | src/lib.rs:394-404 | appends CASET and then RASET, carrying the window the code computes from the offset rectangle (`Commands.AddressWindowAsWritten`); the contract of `Commands.AddressWindowAsWritten` says how that window relates to the intended one |
| Driver.ST7306.SetPixel | src/lib.rs:407-448 | updates the buffer to `ApplyPixel` of the old buffer, and nothing else |
| Driver.ST7306.Flush | src/lib.rs:115-132 | appends the window and RAMWR commands, CS low, DC high, and then every byte of the buffer in order; the buffer is unchanged |
| Driver.ST7306.WriteFramebuffer | src/lib.rs:121-130 | the nested row and column loops write the buffer's bytes in exactly their flat order |
| Driver.ST7306.DrawPixels | src/lib.rs:89-111 | the buffer becomes `DrawAll` of the old buffer, and the trace grows by exactly a flush when `flush` is set and stays unchanged otherwise |
| Driver.ST7306.DrawIter | src/lib.rs:494-499 | the same as `draw_pixels` with a flush |
| Driver.ST7306.Clear | src/lib.rs:533-545 | every byte of the buffer becomes the fill byte, which is 0xFF, and then exactly a flush is appended |
| Driver.ST7306.WritePixels | src/lib.rs:451-460 | appends RAMWR, CS low, DC high, then one SPI write per colour byte |

## Left out

- Errors from the SPI bus and the pins, and the `Result` values the source passes on with `?`: every collaborator call succeeds in this model. Because of that, no operation stops early. `write_data` discards SPI results in the source anyway.
- The SPI, pin and delay collaborators are replaced by events in the trace. Timing and electrical behaviour are not modelled; a delay is an event carrying its length.
- `switch_mode` and `set_orientation`: both panic before any effect. Only the `Orientation` values `set_orientation` would send are modelled, in `Commands.Madctl`; the HPM and LPM commands of `switch_mode` are not.
- The `else` branch of `sleep_in`, which would send HPM, wait and retry: its guard is the constant `true`, so it is never taken.
- Commented-out code: `fill_contiguous_single_color`, `read_did` and `fill_contiguous`.
- The embedded-graphics glue: the `DrawTarget` and `OriginDimensions` trait plumbing and `size()`. `Rgb565` is a record of three bounded channels; `RawU16` is `Pixels.Raw`. The pixel iterator of `draw_pixels` is a sequence.
- The electrical meaning of the register values `init` writes: they appear only as literal parameter bytes.
- No display, sleep or power-mode state is kept, as in the source.
- examples/metro_m4_ferris_img.rs is board bring-up for another controller and is not part of this model.
- Driver.ST7306.SetAddressWindow: requires that the u16 sums of coordinate and offset do not overflow. The source would panic in a debug build and wrap in a release build; neither is modelled.
- Driver.ST7306.SetPixel: requires the pixel's cell to lie in the buffer. The source panics on the out-of-bounds index otherwise.
- Driver.ST7306.DrawPixels: requires every pixel that passes the clip test to land in the buffer, because `new` does not check `width <= 12 * COLS` or `height <= 2 * ROWS`, and `set_pixel` would panic otherwise. `Pixels.FitsImpliesAllFit` gives a sufficient condition.
- Driver.ST7306.DrawIter: the same requirement as `draw_pixels`.

## Findings

| source | as written | input that shows it | evidently intended | confidence | as-written member | corrected member |
|---|---|---|---|---|---|---|
| src/lib.rs:397-400 | the end of each range is the base range's END (0x2A for columns, 0xC7 for rows) plus the end coordinate's cell or row | `set_address_window(0, 0, 11, 1)` with no offset sends CASET 18, 42 and RASET 0, 199, the whole panel; the full 300 x 400 frame sends CASET 18, 66, past the last column 42 | both ends offset from the base START: CASET 18, 18 and RASET 0, 0, and for an on-panel rectangle a window inside the panel that covers exactly its cells (`Commands.AddressWindowCovers`) | not executed | Commands.AddressWindowAsWritten | Commands.AddressWindow |
