/**
 * The ST7306 driver object: a packed monochrome framebuffer, a global image
 * offset, and the pins and bus it drives, the last recorded as the trace of
 * events it has emitted so far.
 */
module Driver {
  import opened Instructions
  import opened Bus
  import opened Pixels
  import Commands

  class ST7306 {
    /** ROWS and COLS, the const-generic size of the buffer in cells. */
    const geometry: Geometry
    /** Whether `init` puts the panel in inverted mode. */
    const inverted: bool
    /** The drawable area given at construction, in pixels. */
    const width: u32
    const height: u32
    /** ROWS x COLS cells of three bytes, row-major. */
    const framebuffer: array<bv8>
    /** The global image offset. */
    var dx: u16
    var dy: u16
    /** Everything the driver has done to the pins, the bus and the delay provider, in order. */
    var trace: seq<Event>

    predicate Valid()
    {
      framebuffer.Length == geometry.Size()
    }

    /** `new`: an all-zero (all white) buffer, no offset, nothing emitted yet. */
    constructor (rows: nat, cols: nat, inverted: bool, width: u32, height: u32)
      ensures Valid()
      ensures geometry == Geometry(rows, cols) && this.inverted == inverted
      ensures this.width == width && this.height == height
      ensures framebuffer[..] == Filled(geometry.Size(), 0)
      ensures dx == 0 && dy == 0 && trace == []
      ensures fresh(framebuffer)
    {
      geometry := Geometry(rows, cols);
      this.inverted := inverted;
      this.width := width;
      this.height := height;
      framebuffer := new bv8[rows * cols * 3]((_: int) => 0);
      dx, dy := 0, 0;
      trace := [];
    }

    // ------------------------------------------------------------ bus primitives

    /** `start_data`: CS low, DC high. */
    method StartData()
      modifies this
      ensures trace == old(trace) + StartDataEvents()
      ensures dx == old(dx) && dy == old(dy)
    {
      trace := trace + [CsLow, DcHigh];
    }

    /** `write_data`: one single-byte SPI write per byte, in order. */
    method WriteData(data: seq<bv8>)
      modifies this
      ensures trace == old(trace) + DataEvents(data)
      ensures dx == old(dx) && dy == old(dy)
    {
      var i := 0;
      while i < |data|
        invariant 0 <= i <= |data|
        invariant trace == old(trace) + DataEvents(data[..i])
        invariant dx == old(dx) && dy == old(dy)
      {
        DataEventsAppend(data[..i], data[i]);
        assert data[..i + 1] == data[..i] + [data[i]];
        trace := trace + [Spi(data[i])];
        i := i + 1;
      }
      assert data[..i] == data;
    }

    /** `write_byte`: `write_data` of one byte. */
    method WriteByte(value: bv8)
      modifies this
      ensures trace == old(trace) + [Spi(value)]
      ensures dx == old(dx) && dy == old(dy)
    {
      WriteData([value]);
      assert [value][1..] == [];
    }

    /** `write_command`: the opcode with DC low, the parameters (if any) with DC high, then CS high. */
    method WriteCommand(command: Instruction, params: seq<bv8>)
      modifies this
      ensures trace == old(trace) + CommandEvents(command, params)
      ensures dx == old(dx) && dy == old(dy)
    {
      trace := trace + [CsLow, DcLow, Spi(Opcode(command))];
      if params != [] {
        StartData();
        WriteData(params);
      }
      trace := trace + [CsHigh];
    }

    /** A call to the delay provider. */
    method DelayMs(ms: u8)
      modifies this
      ensures trace == old(trace) + [Delay(ms)]
      ensures dx == old(dx) && dy == old(dy)
    {
      trace := trace + [Delay(ms)];
    }

    // ------------------------------------------------------------ panel control

    /** `hard_reset`: pulse RST low for 10 ms between two 10 ms waits. */
    method HardReset()
      modifies this
      ensures trace == old(trace) + Commands.HardResetEvents()
      ensures dx == old(dx) && dy == old(dy)
    {
      trace := trace + [RstHigh];
      DelayMs(10);
      trace := trace + [RstLow];
      DelayMs(10);
      trace := trace + [RstHigh];
    }

    /** `init`: a hard reset, then the fixed initialisation sequence, phase by phase. */
    method Init()
      modifies this
      ensures trace == old(trace) + Commands.InitEvents(inverted)
      ensures dx == old(dx) && dy == old(dy)
    {
      HardReset();
      assert trace == old(trace) + Commands.HardResetEvents();
      InitBoot();
      InitVoltages();
      InitTiming();
      InitWake();
      InitLayout();
      InitFinish();
      Commands.InitPhasesTrace(old(trace), inverted);
    }

    /** Software reset, 200 ms, NVM load and booster enable. */
    method InitBoot()
      modifies this
      ensures trace == Commands.Run(old(trace), Commands.Boot())
      ensures dx == old(dx) && dy == old(dy)
    {
      WriteCommand(SWRESET, []);
      DelayMs(200);
      WriteCommand(NVMLOADCTRL, [0x17, 0x02]);
      WriteCommand(BSTEN, [0x01]);
      Commands.RunFour(old(trace), Commands.Send(SWRESET, []), Commands.Pause(200), Commands.Send(NVMLOADCTRL, [0x17, 0x02]),
        Commands.Send(BSTEN, [0x01]));
    }

    /** Gate and source voltages. */
    method InitVoltages()
      modifies this
      ensures trace == Commands.Run(old(trace), Commands.Voltages())
      ensures dx == old(dx) && dy == old(dy)
    {
      WriteCommand(GCTRL, [0x08, 0x02]);
      WriteCommand(VSHPCTRL, [0x0B, 0x0B, 0x0B, 0x0B]);
      WriteCommand(VSLPCTRL, [0x23, 0x23, 0x23, 0x23]);
      WriteCommand(VSHNCTRL, [0x27, 0x27, 0x27, 0x27]);
      WriteCommand(VSLNCTRL, [0x35, 0x35, 0x35, 0x35]);
      Commands.RunFive(old(trace), Commands.Send(GCTRL, [0x08, 0x02]), Commands.Send(VSHPCTRL, [0x0B, 0x0B, 0x0B, 0x0B]),
        Commands.Send(VSLPCTRL, [0x23, 0x23, 0x23, 0x23]), Commands.Send(VSHNCTRL, [0x27, 0x27, 0x27, 0x27]),
        Commands.Send(VSLNCTRL, [0x35, 0x35, 0x35, 0x35]));
    }

    /** Oscillator, frame rate, equalisation and gate lines. */
    method InitTiming()
      modifies this
      ensures trace == Commands.Run(old(trace), Commands.Timing())
      ensures dx == old(dx) && dy == old(dy)
    {
      WriteCommand(OSCSET, [0xA6, 0xE9]);
      WriteCommand(FRCTRL, [0x12]);
      WriteCommand(GTUPEQH, [0xE5, 0xF6, 0x05, 0x46, 0x77, 0x77, 0x77, 0x77, 0x76, 0x45]);
      WriteCommand(GTUPEQL, [0x05, 0x46, 0x77, 0x77, 0x77, 0x77, 0x76, 0x45]);
      WriteCommand(SOUEQ, [0x13]);
      WriteCommand(GATESET, [0x64]);
      Commands.RunSix(old(trace), Commands.Send(OSCSET, [0xA6, 0xE9]), Commands.Send(FRCTRL, [0x12]),
        Commands.Send(GTUPEQH, [0xE5, 0xF6, 0x05, 0x46, 0x77, 0x77, 0x77, 0x77, 0x76, 0x45]),
        Commands.Send(GTUPEQL, [0x05, 0x46, 0x77, 0x77, 0x77, 0x77, 0x76, 0x45]),
        Commands.Send(SOUEQ, [0x13]), Commands.Send(GATESET, [0x64]));
    }

    /** Sleep out, 255 ms, the low-power code and the source voltage selection. */
    method InitWake()
      modifies this
      ensures trace == Commands.Run(old(trace), Commands.Wake())
      ensures dx == old(dx) && dy == old(dy)
    {
      WriteCommand(SLPOUT, []);
      DelayMs(255);
      WriteCommand(LOWPOWER, [0xC1, 0x4A, 0x26]);
      WriteCommand(VSHLSEL, [0x00]);
      Commands.RunFour(old(trace), Commands.Send(SLPOUT, []), Commands.Pause(255), Commands.Send(LOWPOWER, [0xC1, 0x4A, 0x26]),
        Commands.Send(VSHLSEL, [0x00]));
    }

    /** Memory access order, data format, gamma, panel setting and the full window. */
    method InitLayout()
      modifies this
      ensures trace == Commands.Run(old(trace), Commands.Layout())
      ensures dx == old(dx) && dy == old(dy)
    {
      var madctl: bv8 := 0x48;
      WriteCommand(MADCTL, [madctl]);
      WriteCommand(DTFORM, [0x11]);
      WriteCommand(GAMAMS, [0x20]);
      WriteCommand(PNLSET, [0x29]);
      WriteCommand(CASET, [0x12, 0x2A]);
      WriteCommand(RASET, [0x00, 0xC7]);
      Commands.RunSix(old(trace), Commands.Send(MADCTL, [0x48]), Commands.Send(DTFORM, [0x11]), Commands.Send(GAMAMS, [0x20]),
        Commands.Send(PNLSET, [0x29]), Commands.Send(CASET, [0x12, 0x2A]), Commands.Send(RASET, [0x00, 0xC7]));
    }

    /** Auto power-down, tearing effect, low-power mode, inversion and display on. */
    method InitFinish()
      modifies this
      ensures trace == Commands.Run(old(trace), Commands.Finish(inverted))
      ensures dx == old(dx) && dy == old(dy)
    {
      WriteCommand(AUTOPWRCTRL, [0xFF]);
      WriteCommand(TEON, []);
      WriteCommand(LPM, []);
      if inverted {
        WriteCommand(INVON, []);
      } else {
        WriteCommand(INVOFF, []);
      }
      WriteCommand(DISPON, []);
      Commands.RunFive(old(trace), Commands.Send(AUTOPWRCTRL, [0xFF]), Commands.Send(TEON, []), Commands.Send(LPM, []),
        Commands.Send(Commands.Inversion(inverted), []), Commands.Send(DISPON, []));
    }

    /** `on_off`: DISPON or DISPOFF. */
    method OnOff(on: bool)
      modifies this
      ensures trace == old(trace) + Commands.OnOffEvents(on)
      ensures dx == old(dx) && dy == old(dy)
    {
      if on {
        WriteCommand(DISPON, []);
      } else {
        WriteCommand(DISPOFF, []);
      }
    }

    /** `invert_screen`: INVON or INVOFF. */
    method InvertScreen(inverted: bool)
      modifies this
      ensures trace == old(trace) + Commands.InvertEvents(inverted)
      ensures dx == old(dx) && dy == old(dy)
    {
      if inverted {
        WriteCommand(INVON, []);
      } else {
        WriteCommand(INVOFF, []);
      }
    }

    /** `sleep_in`: SLPIN, then 100 ms (the branch through HPM is never taken). */
    method SleepIn()
      modifies this
      ensures trace == old(trace) + Commands.Play(Commands.SleepInSteps())
      ensures dx == old(dx) && dy == old(dy)
    {
      WriteCommand(SLPIN, []);
      DelayMs(100);
      Commands.TraceTwo(old(trace), Commands.Send(SLPIN, []), Commands.Pause(100));
    }

    /** `sleep_out`: SLPOUT, then 100 ms. */
    method SleepOut()
      modifies this
      ensures trace == old(trace) + Commands.Play(Commands.SleepOutSteps())
      ensures dx == old(dx) && dy == old(dy)
    {
      WriteCommand(SLPOUT, []);
      DelayMs(100);
      Commands.TraceTwo(old(trace), Commands.Send(SLPOUT, []), Commands.Pause(100));
    }

    // ------------------------------------------------------------ addressing

    /** `set_offset`: record the global offset; nothing is sent. */
    method SetOffset(dx: u16, dy: u16)
      modifies this
      ensures this.dx == dx && this.dy == dy
      ensures trace == old(trace)
    {
      this.dx, this.dy := dx, dy;
    }

    /**
     * `set_address_window`: CASET, then RASET, with the window the code
     * computes from the offset rectangle (see Commands.AddressWindowAsWritten).
     */
    method SetAddressWindow(sx: u16, sy: u16, ex: u16, ey: u16)
      requires sx + dx < 0x1_0000 && ex + dx < 0x1_0000 && sy + dy < 0x1_0000 && ey + dy < 0x1_0000
      modifies this
      ensures dx == old(dx) && dy == old(dy)
      ensures trace == old(trace) + Commands.Play(Commands.WindowSteps(Commands.AddressWindowAsWritten(sx, sy, ex, ey, dx, dy)))
    {
      var w := Commands.AddressWindowAsWritten(sx, sy, ex, ey, dx, dy);
      WriteCommand(CASET, Commands.CasetBytes(w));
      WriteCommand(RASET, Commands.RasetBytes(w));
      Commands.TraceTwo(old(trace), Commands.Send(CASET, Commands.CasetBytes(w)), Commands.Send(RASET, Commands.RasetBytes(w)));
    }

    // ------------------------------------------------------------ framebuffer

    /** `set_pixel`: set (black) or clear (white) the pixel's bit; nothing is sent. */
    method SetPixel(x: u16, y: u16, color: u8)
      requires Valid() && geometry.Contains(x, y)
      modifies framebuffer
      ensures framebuffer[..] == ApplyPixel(old(framebuffer[..]), geometry, x, y, color)
    {
      var row := y / 2;
      var col := x / 12;
      var black := color < 1;
      BitTableLookup(x, y);
      var entry := BitTable(x % 12, y % 2);
      if entry.None? {
        assert false;
      }
      var (byte, bitmask) := entry.value;
      assert bitmask == Mask(x, y) && byte == ByteOfCell(x);
      var i := (row * geometry.cols + col) * 3 + byte;
      assert i == Offset(geometry, x, y);
      MaskNonZero(x, y);
      framebuffer[i] := SetBit(framebuffer[i], bitmask, black);
    }

    /** `flush`: the full window, RAMWR, then every byte of the buffer in row, column, byte order. */
    method Flush()
      requires Valid()
      modifies this
      ensures trace == old(trace) + Commands.FlushEvents(framebuffer[..])
      ensures dx == old(dx) && dy == old(dy)
    {
      var caset: (bv8, bv8) := (18, 42);
      var raset: (bv8, bv8) := (0, 199);
      WriteCommand(CASET, [caset.0, caset.1]);
      WriteCommand(RASET, [raset.0, raset.1]);
      WriteCommand(RAMWR, []);
      Commands.TraceThree(old(trace), Commands.Send(CASET, [18, 42]), Commands.Send(RASET, [0, 199]),
        Commands.Send(RAMWR, []));
      StartData();
      WriteFramebuffer();
      Commands.Assoc(old(trace), Commands.Play(Commands.FlushSteps()), StartDataEvents());
      Commands.Assoc(old(trace), Commands.Play(Commands.FlushSteps()) + StartDataEvents(), DataEvents(framebuffer[..]));
    }

    /** The pixel loop of `flush`: for each row, for each column, the cell's three bytes. */
    method WriteFramebuffer()
      requires Valid()
      modifies this
      ensures trace == old(trace) + DataEvents(framebuffer[..])
      ensures dx == old(dx) && dy == old(dy)
    {
      ghost var fb := framebuffer[..];
      var row := 0;
      CellStartLimits(geometry, 0, 0);
      while row < geometry.rows
        invariant 0 <= row <= geometry.rows
        invariant CellStart(geometry, row, 0) <= |fb|
        invariant framebuffer[..] == fb
        invariant trace == old(trace) + DataEvents(fb[..CellStart(geometry, row, 0)])
        invariant dx == old(dx) && dy == old(dy)
      {
        var col := 0;
        while col < geometry.cols
          invariant 0 <= col <= geometry.cols
          invariant CellStart(geometry, row, col) <= |fb|
          invariant framebuffer[..] == fb
          invariant trace == old(trace) + DataEvents(fb[..CellStart(geometry, row, col)])
          invariant dx == old(dx) && dy == old(dy)
        {
          var i := CellStart(geometry, row, col);
          CellBounds(geometry, row, col, 2);
          WriteByte(framebuffer[i]);
          WriteByte(framebuffer[i + 1]);
          WriteByte(framebuffer[i + 2]);
          DataEventsCell(old(trace), fb, i);
          col := col + 1;
          assert CellStart(geometry, row, col) == i + 3;
        }
        CellStartLimits(geometry, row, col);
        row := row + 1;
        CellStartLimits(geometry, row, 0);
      }
      CellStartLimits(geometry, row, 0);
      assert fb[..CellStart(geometry, row, 0)] == fb;
    }

    /** `draw_pixels`: set every pixel that passes the clip test, in order, then flush if asked to. */
    method DrawPixels(pixels: seq<Pixel>, flush: bool)
      requires Valid() && AllFit(geometry, pixels, width, height)
      modifies this, framebuffer
      ensures framebuffer[..] == DrawAll(old(framebuffer[..]), geometry, pixels, width, height)
      ensures trace == old(trace) + (if flush then Commands.FlushEvents(framebuffer[..]) else [])
      ensures dx == old(dx) && dy == old(dy)
    {
      var i := 0;
      while i < |pixels|
        invariant 0 <= i <= |pixels|
        invariant AllFit(geometry, pixels[..i], width, height)
        invariant framebuffer[..] == DrawAll(old(framebuffer[..]), geometry, pixels[..i], width, height)
        invariant trace == old(trace) && dx == old(dx) && dy == old(dy)
      {
        var p := pixels[i];
        assert pixels[..i + 1][..i] == pixels[..i];
        assert p in pixels;
        assert AllFit(geometry, pixels[..i + 1], width, height) by {
          forall q | q in pixels[..i + 1] ensures q in pixels {
          }
        }
        if p.x >= 0 && p.y >= 0 && p.x < AsI32(width) && p.y < AsI32(height) {
          SetPixel((p.x % 0x1_0000) as u16, (p.y % 0x1_0000) as u16, ColorByte(p.color));
        }
        i := i + 1;
      }
      assert pixels[..i] == pixels;
      if flush {
        Flush();
      }
    }

    /** `draw_iter`: `draw_pixels` with a flush. */
    method DrawIter(pixels: seq<Pixel>)
      requires Valid() && AllFit(geometry, pixels, width, height)
      modifies this, framebuffer
      ensures framebuffer[..] == DrawAll(old(framebuffer[..]), geometry, pixels, width, height)
      ensures trace == old(trace) + Commands.FlushEvents(framebuffer[..])
      ensures dx == old(dx) && dy == old(dy)
    {
      DrawPixels(pixels, true);
    }

    /** `clear`: fill every byte of every cell, column by column, then flush. */
    method Clear(color: Rgb565)
      requires Valid()
      modifies this, framebuffer
      ensures framebuffer[..] == Filled(geometry.Size(), ClearFill(color))
      ensures trace == old(trace) + Commands.FlushEvents(framebuffer[..])
      ensures dx == old(dx) && dy == old(dy)
    {
      var brightness := (color.r + color.g + color.b / 3) % 256;
      var black: bv8 := if brightness < 128 then 0xFF else 0x00;
      assert black == ClearFill(color);
      var col := 0;
      while col < geometry.cols
        invariant 0 <= col <= geometry.cols
        invariant forall r, c, b :: 0 <= r < geometry.rows && 0 <= c < col && 0 <= b < 3
                    ==> framebuffer[CellByte(geometry, r, c, b)] == black
        invariant trace == old(trace) && dx == old(dx) && dy == old(dy)
      {
        var row := 0;
        while row < geometry.rows
          invariant 0 <= row <= geometry.rows
          invariant forall r, c, b :: 0 <= r < geometry.rows && 0 <= c < geometry.cols && 0 <= b < 3
                      && (c < col || (c == col && r < row))
                      ==> framebuffer[CellByte(geometry, r, c, b)] == black
          invariant trace == old(trace) && dx == old(dx) && dy == old(dy)
        {
          var i := CellStart(geometry, row, col);
          CellBounds(geometry, row, col, 2);
          ghost var pre := framebuffer[..];
          framebuffer[i] := black;
          framebuffer[i + 1] := black;
          framebuffer[i + 2] := black;
          assert framebuffer[..] == pre[i := black][i + 1 := black][i + 2 := black];
          forall r, c, b | 0 <= r < geometry.rows && 0 <= c < geometry.cols && 0 <= b < 3
              && (c < col || (c == col && r < row + 1))
            ensures framebuffer[CellByte(geometry, r, c, b)] == black
          {
            var k := CellByte(geometry, r, c, b);
            if (r, c) != (row, col) {
              CellDistinct(geometry, r, c, b, row, col, 0);
              CellDistinct(geometry, r, c, b, row, col, 1);
              CellDistinct(geometry, r, c, b, row, col, 2);
              assert framebuffer[k] == pre[k];
            } else {
              assert k == i + b;
            }
          }
          row := row + 1;
        }
        col := col + 1;
      }
      forall j | 0 <= j < framebuffer.Length
        ensures framebuffer[j] == black
      {
        CellOfIndex(geometry, j);
        assert j == CellByte(geometry, j / 3 / geometry.cols, (j / 3) % geometry.cols, j % 3);
      }
      assert framebuffer[..] == Filled(geometry.Size(), ClearFill(color));
      Flush();
    }

    /** `write_pixels`: RAMWR, then the colour bytes as data into the current window. */
    method WritePixels(colors: seq<bv8>)
      modifies this
      ensures trace == old(trace) + Commands.WritePixelsEvents(colors)
      ensures dx == old(dx) && dy == old(dy)
    {
      WriteCommand(RAMWR, []);
      Commands.PlayOne(Commands.Send(RAMWR, []));
      StartData();
      ghost var h := trace;
      var i := 0;
      while i < |colors|
        invariant 0 <= i <= |colors|
        invariant trace == h + DataEvents(colors[..i])
        invariant dx == old(dx) && dy == old(dy)
      {
        WriteByte(colors[i]);
        DataEventsAppend(colors[..i], colors[i]);
        assert colors[..i + 1] == colors[..i] + [colors[i]];
        i := i + 1;
      }
      assert colors[..i] == colors;
      Commands.Assoc(old(trace), Commands.Play([Commands.Send(RAMWR, [])]), StartDataEvents());
      Commands.Assoc(old(trace), Commands.Play([Commands.Send(RAMWR, [])]) + StartDataEvents(), DataEvents(colors));
    }
  }
}
