/**
 * The event sequences the driver's operations put on the hardware, as pure
 * functions of their arguments, and what the controller receives from them.
 */
module Commands {
  import opened Instructions
  import opened Bus

  // ---------------------------------------------------------------- hard reset

  /** `hard_reset`: RST high, 10 ms, RST low, 10 ms, RST high. */
  function HardResetEvents(): seq<Event>
  {
    [RstHigh, Delay(10), RstLow, Delay(10), RstHigh]
  }

  /** A hard reset sends nothing over SPI and leaves the framing lines as they were. */
  lemma HardResetSilent(l: Lines)
    ensures Received(HardResetEvents(), l) == []
    ensures After(HardResetEvents(), l) == l
    ensures BusBytes(HardResetEvents()) == []
  {
    var t := HardResetEvents();
    assert t[1..] == [Delay(10), RstLow, Delay(10), RstHigh];
    assert t[2..] == [RstLow, Delay(10), RstHigh];
    assert t[3..] == [Delay(10), RstHigh];
    assert t[4..] == [RstHigh];
    assert t[5..] == [];
  }

  // ---------------------------------------------------------------- scripts

  /** One step of a fixed command sequence: a framed command, or a delay. */
  datatype Step = Send(op: Instruction, params: seq<bv8>) | Pause(ms: nat)

  function StepEvents(s: Step): seq<Event>
  {
    match s
    case Send(op, params) => CommandEvents(op, params)
    case Pause(ms) => [Delay(ms)]
  }

  /** The events of a script, step after step. */
  function Play(script: seq<Step>): seq<Event>
    decreases |script|
  {
    if script == [] then [] else StepEvents(script[0]) + Play(script[1..])
  }

  /** What the controller should receive from a script: each command's opcode followed by its parameters as data. */
  function Deliveries(script: seq<Step>): seq<Transfer>
    decreases |script|
  {
    if script == [] then []
    else
      (match script[0]
       case Send(op, params) => [Command(Opcode(op))] + AsData(params)
       case Pause(_) => [])
      + Deliveries(script[1..])
  }

  /** Whatever the lines were, a delay delivers nothing and changes nothing. */
  lemma DelaySilent(ms: nat, l: Lines)
    ensures Received([Delay(ms)], l) == [] && After([Delay(ms)], l) == l
  {
    assert [Delay(ms)][1..] == [];
  }

  /** The controller receives from a script exactly its commands and their parameters, whatever the lines were at the start. */
  lemma {:induction false} PlayReceived(script: seq<Step>, l: Lines)
    ensures Received(Play(script), l) == Deliveries(script)
    decreases |script|
  {
    if script != [] {
      var s := script[0];
      ReceivedAppend(StepEvents(s), Play(script[1..]), l);
      PlayReceived(script[1..], After(StepEvents(s), l));
      match s
      case Send(op, params) =>
        CommandReceived(op, params, l);
      case Pause(ms) =>
        DelaySilent(ms, l);
    }
  }

  /** A script whose last step is a command leaves the chip deselected. */
  lemma {:induction false} PlayDeselects(script: seq<Step>, l: Lines)
    requires script != [] && script[|script| - 1].Send?
    ensures !After(Play(script), l).selected
    decreases |script|
  {
    var s := script[0];
    ReceivedAppend(StepEvents(s), Play(script[1..]), l);
    if |script| == 1 {
      assert script[1..] == [];
      CommandReceived(s.op, s.params, l);
    } else {
      PlayDeselects(script[1..], After(StepEvents(s), l));
    }
  }

  lemma {:induction false} DeliveriesAppend(a: seq<Step>, b: seq<Step>)
    ensures Deliveries(a + b) == Deliveries(a) + Deliveries(b)
    decreases |a|
  {
    if a == [] {
      assert a + b == b;
    } else {
      assert (a + b)[0] == a[0];
      assert (a + b)[1..] == a[1..] + b;
      DeliveriesAppend(a[1..], b);
    }
  }

  /** The bytes a script puts on the bus: each command's opcode followed by its parameters. */
  function SentBytes(script: seq<Step>): seq<bv8>
    decreases |script|
  {
    if script == [] then []
    else
      (match script[0]
       case Send(op, params) => [Opcode(op)] + params
       case Pause(_) => [])
      + SentBytes(script[1..])
  }

  /** Whatever the pins do, the bus carries exactly the script's opcodes and parameters, in order. */
  lemma {:induction false} PlayBusBytes(script: seq<Step>)
    ensures BusBytes(Play(script)) == SentBytes(script)
    decreases |script|
  {
    if script != [] {
      var s := script[0];
      BusBytesAppend(StepEvents(s), Play(script[1..]));
      PlayBusBytes(script[1..]);
      match s
      case Send(op, params) =>
        CommandBusBytes(op, params);
      case Pause(ms) =>
        assert [Delay(ms)][1..] == [];
    }
  }

  /**
   * A command byte reaches the controller from a script exactly when the
   * script sends a command with that opcode; parameters never look like commands.
   */
  lemma {:induction false} DeliveredCommand(script: seq<Step>, c: bv8)
    ensures Command(c) in Deliveries(script) <==> exists op, p :: Send(op, p) in script && Opcode(op) == c
    decreases |script|
  {
    if script != [] {
      var s, rest := script[0], script[1..];
      DeliveredCommand(rest, c);
      assert script == [s] + rest;
      match s
      case Send(op, params) =>
        AsDataCommandFree(params, c);
        if Opcode(op) == c {
          assert Send(op, params) in script;
        }
      case Pause(_) =>
    }
  }

  lemma {:induction false} AsDataCommandFree(d: seq<bv8>, c: bv8)
    ensures Command(c) !in AsData(d)
    decreases |d|
  {
    if d != [] {
      AsDataCommandFree(d[1..], c);
    }
  }

  lemma Assoc(a: seq<Event>, b: seq<Event>, c: seq<Event>)
    ensures a + b + c == a + (b + c)
  {
  }

  /** Short scripts played step by step, in the order the driver's straight-line code emits them. */
  lemma PlayOne(a: Step)
    ensures Play([a]) == StepEvents(a)
  {
    assert [a][1..] == [];
  }

  lemma PlayTwo(a: Step, b: Step)
    ensures Play([a, b]) == StepEvents(a) + StepEvents(b)
  {
    assert [a, b][1..] == [b];
    PlayOne(b);
  }

  lemma PlayThree(a: Step, b: Step, c: Step)
    ensures Play([a, b, c]) == StepEvents(a) + (StepEvents(b) + StepEvents(c))
  {
    assert [a, b, c][1..] == [b, c];
    PlayTwo(b, c);
  }

  lemma TraceTwo(t: seq<Event>, a: Step, b: Step)
    ensures t + StepEvents(a) + StepEvents(b) == t + Play([a, b])
  {
    PlayTwo(a, b);
    Assoc(t, StepEvents(a), StepEvents(b));
  }

  lemma TraceThree(t: seq<Event>, a: Step, b: Step, c: Step)
    ensures t + StepEvents(a) + StepEvents(b) + StepEvents(c) == t + Play([a, b, c])
  {
    var ea, eb, ec := StepEvents(a), StepEvents(b), StepEvents(c);
    PlayThree(a, b, c);
    Assoc(t + ea, eb, ec);
    Assoc(t, ea, eb + ec);
  }

  /**
   * The trace `t` extended by the events of a script, step after step: Play
   * with an accumulator, nested the way the driver's straight-line code
   * builds its trace.
   */
  function Run(t: seq<Event>, script: seq<Step>): seq<Event>
    decreases |script|
  {
    if script == [] then t else Run(t + StepEvents(script[0]), script[1..])
  }

  /** Running a script extends the trace by exactly the script's events. */
  lemma {:induction false} RunIsPlay(t: seq<Event>, script: seq<Step>)
    ensures Run(t, script) == t + Play(script)
    decreases |script|
  {
    if script != [] {
      RunIsPlay(t + StepEvents(script[0]), script[1..]);
      Assoc(t, StepEvents(script[0]), Play(script[1..]));
    }
  }

  /** Running two scripts in turn is running their concatenation. */
  lemma {:induction false} RunAppend(t: seq<Event>, a: seq<Step>, b: seq<Step>)
    ensures Run(t, a + b) == Run(Run(t, a), b)
    decreases |a|
  {
    if a == [] {
      assert a + b == b;
    } else {
      assert (a + b)[0] == a[0];
      assert (a + b)[1..] == a[1..] + b;
      RunAppend(t + StepEvents(a[0]), a[1..], b);
    }
  }

  lemma RunOne(t: seq<Event>, a: Step)
    ensures Run(t, [a]) == t + StepEvents(a)
  {
    assert [a][1..] == [];
  }

  lemma RunTwo(t: seq<Event>, a: Step, b: Step)
    ensures Run(t, [a, b]) == t + StepEvents(a) + StepEvents(b)
  {
    assert [a, b][1..] == [b];
    RunOne(t + StepEvents(a), b);
  }

  lemma RunThree(t: seq<Event>, a: Step, b: Step, c: Step)
    ensures Run(t, [a, b, c]) == t + StepEvents(a) + StepEvents(b) + StepEvents(c)
  {
    assert [a, b, c][1..] == [b, c];
    RunTwo(t + StepEvents(a), b, c);
  }

  lemma RunFour(t: seq<Event>, a: Step, b: Step, c: Step, d: Step)
    ensures Run(t, [a, b, c, d]) == t + StepEvents(a) + StepEvents(b) + StepEvents(c) + StepEvents(d)
  {
    assert [a, b, c, d][1..] == [b, c, d];
    RunThree(t + StepEvents(a), b, c, d);
  }

  lemma RunFive(t: seq<Event>, a: Step, b: Step, c: Step, d: Step, e: Step)
    ensures Run(t, [a, b, c, d, e]) == t + StepEvents(a) + StepEvents(b) + StepEvents(c) + StepEvents(d) + StepEvents(e)
  {
    assert [a, b, c, d, e][1..] == [b, c, d, e];
    RunFour(t + StepEvents(a), b, c, d, e);
  }

  lemma RunSix(t: seq<Event>, a: Step, b: Step, c: Step, d: Step, e: Step, f: Step)
    ensures Run(t, [a, b, c, d, e, f])
         == t + StepEvents(a) + StepEvents(b) + StepEvents(c) + StepEvents(d) + StepEvents(e) + StepEvents(f)
  {
    assert [a, b, c, d, e, f][1..] == [b, c, d, e, f];
    RunFive(t + StepEvents(a), b, c, d, e, f);
  }

  // ---------------------------------------------------------------- init

  /** Software reset, then loading the NVM and enabling the booster. */
  function Boot(): seq<Step>
  {
    [Send(SWRESET, []), Pause(200), Send(NVMLOADCTRL, [0x17, 0x02]), Send(BSTEN, [0x01])]
  }

  /** Gate and source voltages. */
  function Voltages(): seq<Step>
  {
    [ Send(GCTRL, [0x08, 0x02]),
      Send(VSHPCTRL, [0x0B, 0x0B, 0x0B, 0x0B]),
      Send(VSLPCTRL, [0x23, 0x23, 0x23, 0x23]),
      Send(VSHNCTRL, [0x27, 0x27, 0x27, 0x27]),
      Send(VSLNCTRL, [0x35, 0x35, 0x35, 0x35]) ]
  }

  /** Oscillator, frame rate, equalisation and gate lines. */
  function Timing(): seq<Step>
  {
    [ Send(OSCSET, [0xA6, 0xE9]),
      Send(FRCTRL, [0x12]),
      Send(GTUPEQH, [0xE5, 0xF6, 0x05, 0x46, 0x77, 0x77, 0x77, 0x77, 0x76, 0x45]),
      Send(GTUPEQL, [0x05, 0x46, 0x77, 0x77, 0x77, 0x77, 0x76, 0x45]),
      Send(SOUEQ, [0x13]),
      Send(GATESET, [0x64]) ]
  }

  /** Leaving sleep, then the low-power code and the source voltage selection. */
  function Wake(): seq<Step>
  {
    [Send(SLPOUT, []), Pause(255), Send(LOWPOWER, [0xC1, 0x4A, 0x26]), Send(VSHLSEL, [0x00])]
  }

  /** Memory access order, data format, gamma, panel setting and the full address window. */
  function Layout(): seq<Step>
  {
    [ Send(MADCTL, [0x48]),
      Send(DTFORM, [0x11]),
      Send(GAMAMS, [0x20]),
      Send(PNLSET, [0x29]),
      Send(CASET, [0x12, 0x2A]),
      Send(RASET, [0x00, 0xC7]) ]
  }

  /** INVON when the panel is configured inverted, INVOFF otherwise. */
  function Inversion(inverted: bool): Instruction
  {
    if inverted then INVON else INVOFF
  }

  /** Auto power-down, tearing effect, low-power mode, the inversion command and display on. */
  function Finish(inverted: bool): seq<Step>
  {
    [Send(AUTOPWRCTRL, [0xFF]), Send(TEON, []), Send(LPM, []), Send(Inversion(inverted), []), Send(DISPON, [])]
  }

  /** The steps of `init` before the final five. */
  function Setup(): seq<Step>
  {
    Boot() + Voltages() + Timing() + Wake() + Layout()
  }

  /** The steps of `init` after the hard reset. */
  function InitScript(inverted: bool): seq<Step>
  {
    Setup() + Finish(inverted)
  }

  /** `init`: a hard reset, then the initialisation script. */
  function InitEvents(inverted: bool): seq<Event>
  {
    HardResetEvents() + Play(InitScript(inverted))
  }

  /** A trace extended by the hard reset and then by running each phase in turn is the trace extended by `init`'s events. */
  lemma InitPhasesTrace(t: seq<Event>, inverted: bool)
    ensures Run(Run(Run(Run(Run(Run(t + HardResetEvents(), Boot()), Voltages()), Timing()), Wake()), Layout()),
                Finish(inverted))
         == t + InitEvents(inverted)
  {
    var h := t + HardResetEvents();
    var b, v, m, w, y := Boot(), Voltages(), Timing(), Wake(), Layout();
    RunAppend(h, b + v + m + w + y, Finish(inverted));
    RunAppend(h, b + v + m + w, y);
    RunAppend(h, b + v + m, w);
    RunAppend(h, b + v, m);
    RunAppend(h, b, v);
    RunIsPlay(h, InitScript(inverted));
    Assoc(t, HardResetEvents(), Play(InitScript(inverted)));
  }

  /** A step that sends INVON or INVOFF, with any parameters. */
  predicate SendsInversion(s: Step)
  {
    s.Send? && (s.op == INVON || s.op == INVOFF)
  }

  /** Only the inversion step of `init` sends INVON or INVOFF, and it sends the one the flag selects. */
  lemma InitSends(inverted: bool)
    ensures forall p :: Send(INVON, p) !in Setup() && Send(INVOFF, p) !in Setup()
    ensures forall p :: Send(INVON, p) in InitScript(inverted) ==> inverted
    ensures forall p :: Send(INVOFF, p) in InitScript(inverted) ==> !inverted
    ensures forall i :: 0 <= i < |InitScript(inverted)| && SendsInversion(InitScript(inverted)[i]) ==> i == |Setup()| + 3
    ensures InitScript(inverted)[|Setup()| + 3] == Send(Inversion(inverted), [])
  {
    forall p
      ensures Send(INVON, p) !in Setup() && Send(INVOFF, p) !in Setup()
    {
      SetupQuiet(INVON, p);
      SetupQuiet(INVOFF, p);
    }
    forall i | 0 <= i < |InitScript(inverted)| && SendsInversion(InitScript(inverted)[i])
      ensures i == |Setup()| + 3
    {
      InversionStepUnique(inverted, i);
    }
  }

  /** A step of `init` that sends INVON or INVOFF is the fourth of the last five. */
  lemma InversionStepUnique(inverted: bool, i: int)
    requires 0 <= i < |InitScript(inverted)| && SendsInversion(InitScript(inverted)[i])
    ensures i == |Setup()| + 3
  {
    var setup, finish := Setup(), Finish(inverted);
    if i < |setup| {
      assert InitScript(inverted)[i] == setup[i];
      SetupQuiet(setup[i].op, setup[i].params);
      assert false;
    } else {
      assert InitScript(inverted)[i] == finish[i - |setup|];
    }
  }

  /** None of the setup phases sends INVON or INVOFF. */
  lemma SetupQuiet(op: Instruction, p: seq<bv8>)
    requires op == INVON || op == INVOFF
    ensures Send(op, p) !in Setup()
  {
    assert Send(op, p) !in Boot();
    assert Send(op, p) !in Voltages();
    assert Send(op, p) !in Timing();
    assert Send(op, p) !in Wake();
    assert Send(op, p) !in Layout();
  }

  /** Everything the controller receives during `init` is what the script delivers. */
  lemma InitReceived(inverted: bool, l: Lines)
    ensures Received(InitEvents(inverted), l) == Deliveries(InitScript(inverted))
  {
    HardResetSilent(l);
    ReceivedAppend(HardResetEvents(), Play(InitScript(inverted)), l);
    PlayReceived(InitScript(inverted), l);
  }

  /** The last five steps deliver their five opcodes, and AUTOPWRCTRL's one parameter, in order. */
  lemma FinishDeliveries(inverted: bool)
    ensures Deliveries(Finish(inverted))
         == [ Command(Opcode(AUTOPWRCTRL)), Data(0xFF), Command(Opcode(TEON)), Command(Opcode(LPM)),
              Command(Opcode(Inversion(inverted))), Command(Opcode(DISPON)) ]
  {
    var bare := [Send(TEON, []), Send(LPM, []), Send(Inversion(inverted), []), Send(DISPON, [])];
    DeliveriesCons(Send(AUTOPWRCTRL, [0xFF]), bare);
    BareDeliveries(TEON, LPM, Inversion(inverted), DISPON);
    assert AsData([0xFF]) == [Data(0xFF)];
  }

  /** Four commands without parameters deliver their four opcodes. */
  lemma BareDeliveries(b: Instruction, c: Instruction, d: Instruction, e: Instruction)
    ensures Deliveries([Send(b, []), Send(c, []), Send(d, []), Send(e, [])])
         == [Command(Opcode(b)), Command(Opcode(c)), Command(Opcode(d)), Command(Opcode(e))]
  {
    DeliveriesCons(Send(e, []), []);
    DeliveriesCons(Send(d, []), [Send(e, [])]);
    DeliveriesCons(Send(c, []), [Send(d, []), Send(e, [])]);
    DeliveriesCons(Send(b, []), [Send(c, []), Send(d, []), Send(e, [])]);
  }

  /** Deliveries unfolded by one step. */
  lemma DeliveriesCons(s: Step, rest: seq<Step>)
    ensures Deliveries([s] + rest)
         == (if s.Send? then [Command(Opcode(s.op))] + AsData(s.params) else []) + Deliveries(rest)
  {
    assert ([s] + rest)[1..] == rest;
  }

  /** The controller receives, last of all, LPM, then the inversion command, then DISPON, none with parameters. */
  lemma InitEnding(inverted: bool, l: Lines)
    ensures exists prefix ::
      Received(InitEvents(inverted), l)
      == prefix + [Command(Opcode(LPM)), Command(Opcode(Inversion(inverted))), Command(Opcode(DISPON))]
  {
    InitReceived(inverted, l);
    EndingOf(Setup(), inverted);
  }

  /** Whatever precedes the final five steps, the script's deliveries end with LPM, the inversion command and DISPON. */
  lemma EndingOf(s: seq<Step>, inverted: bool)
    ensures exists prefix ::
      Deliveries(s + Finish(inverted))
      == prefix + [Command(Opcode(LPM)), Command(Opcode(Inversion(inverted))), Command(Opcode(DISPON))]
  {
    DeliveriesAppend(s, Finish(inverted));
    FinishDeliveries(inverted);
    var prefix := Deliveries(s) + [Command(Opcode(AUTOPWRCTRL)), Data(0xFF), Command(Opcode(TEON))];
    assert Deliveries(s + Finish(inverted))
        == prefix + [Command(Opcode(LPM)), Command(Opcode(Inversion(inverted))), Command(Opcode(DISPON))];
  }

  /** `init` sends INVON exactly when the panel is inverted, and INVOFF exactly when it is not. */
  lemma InitInversion(inverted: bool, l: Lines)
    ensures Command(Opcode(INVON)) in Received(InitEvents(inverted), l) <==> inverted
    ensures Command(Opcode(INVOFF)) in Received(InitEvents(inverted), l) <==> !inverted
  {
    var s := InitScript(inverted);
    var r := Received(InitEvents(inverted), l);
    InitReceived(inverted, l);
    DeliveriesAppend(Setup(), Finish(inverted));
    InitSends(inverted);
    DeliveredCommand(s, Opcode(INVON));
    DeliveredCommand(s, Opcode(INVOFF));
    forall op, p | Send(op, p) in s && Opcode(op) == Opcode(INVON)
      ensures inverted
    {
      OpcodeInjective(op, INVON);
    }
    forall op, p | Send(op, p) in s && Opcode(op) == Opcode(INVOFF)
      ensures !inverted
    {
      OpcodeInjective(op, INVOFF);
    }
    FinishDeliveries(inverted);
    assert Command(Opcode(Inversion(inverted))) in Deliveries(Finish(inverted));
    assert Command(Opcode(Inversion(inverted))) in r;
  }

  // ---------------------------------------------------------------- flush and write_pixels

  /** The commands of `flush`: the full column and row window, then RAMWR. */
  function FlushSteps(): seq<Step>
  {
    [Send(CASET, [18, 42]), Send(RASET, [0, 199]), Send(RAMWR, [])]
  }

  /** `flush` of a buffer holding `fb`: the commands, CS low and DC high, then the bytes in row, column, byte order. */
  function FlushEvents(fb: seq<bv8>): seq<Event>
  {
    Play(FlushSteps()) + StartDataEvents() + DataEvents(fb)
  }

  lemma FlushStepsDeliveries()
    ensures Deliveries(FlushSteps())
         == [Command(0x2A), Data(18), Data(42), Command(0x2B), Data(0), Data(199), Command(0x2C)]
  {
    var f := FlushSteps();
    assert f[1..] == [Send(RASET, [0, 199]), Send(RAMWR, [])];
    assert f[1..][1..] == [Send(RAMWR, [])];
    assert f[1..][1..][1..] == [];
    assert AsData([0, 199]) == [Data(0), Data(199)];
    assert AsData([18, 42]) == [Data(18), Data(42)];
    AddressingOpcodes();
    assert Deliveries([Send(RAMWR, [])]) == [Command(0x2C)];
    assert Deliveries(f[1..]) == [Command(0x2B), Data(0), Data(199), Command(0x2C)];
  }

  /**
   * `flush` delivers CASET 18..42, RASET 0..199, RAMWR and then the whole
   * buffer as data in order; CS is still asserted (and DC high) afterwards.
   */
  lemma FlushReceived(fb: seq<bv8>, l: Lines)
    ensures Received(FlushEvents(fb), l)
         == [Command(0x2A), Data(18), Data(42), Command(0x2B), Data(0), Data(199), Command(0x2C)] + AsData(fb)
    ensures After(FlushEvents(fb), l) == Lines(true, true)
  {
    var h := Play(FlushSteps());
    PlayReceived(FlushSteps(), l);
    FlushStepsDeliveries();
    ReceivedAppend(h, StartDataEvents(), l);
    StartDataFraming(After(h, l));
    ReceivedAppend(h + StartDataEvents(), DataEvents(fb), l);
    DataEventsReceived(fb, Lines(true, true));
  }

  /**
   * The bytes `flush` puts on the bus: the three commands with their
   * parameters, then the buffer, one byte per write, 3 * ROWS * COLS in all.
   */
  lemma FlushBusBytes(fb: seq<bv8>)
    ensures BusBytes(FlushEvents(fb)) == [0x2A, 18, 42, 0x2B, 0, 199, 0x2C] + fb
  {
    HeaderBusBytes(FlushSteps(), fb);
    FlushStepsSent();
  }

  lemma FlushStepsSent()
    ensures SentBytes(FlushSteps()) == [0x2A, 18, 42, 0x2B, 0, 199, 0x2C]
  {
    var f := FlushSteps();
    assert f[1..] == [Send(RASET, [0, 199]), Send(RAMWR, [])];
    assert f[1..][1..] == [Send(RAMWR, [])];
    assert f[1..][1..][1..] == [];
    AddressingOpcodes();
  }

  /** A script, then CS low and DC high, then a data run: the script's bytes and then the payload. */
  lemma HeaderBusBytes(f: seq<Step>, d: seq<bv8>)
    ensures BusBytes(Play(f) + StartDataEvents() + DataEvents(d)) == SentBytes(f) + d
  {
    PlayBusBytes(f);
    StartDataBusBytes();
    DataEventsBusBytes(d);
    BusBytesQuietMiddle(Play(f), StartDataEvents(), DataEvents(d), SentBytes(f), d);
  }

  /** A run of events, a silent run and another run: the bus carries the first run's bytes, then the last's. */
  lemma BusBytesQuietMiddle(a: seq<Event>, b: seq<Event>, c: seq<Event>, x: seq<bv8>, z: seq<bv8>)
    requires BusBytes(a) == x && BusBytes(b) == [] && BusBytes(c) == z
    ensures BusBytes(a + b + c) == x + z
  {
    BusBytesThree(a, b, c, x, [], z);
    assert x + [] + z == x + z;
  }

  /** `write_pixels`: RAMWR, CS low and DC high, then one write per colour byte. */
  function WritePixelsEvents(colors: seq<bv8>): seq<Event>
  {
    Play([Send(RAMWR, [])]) + StartDataEvents() + DataEvents(colors)
  }

  /** The controller receives RAMWR followed by the colour bytes as data, and stays selected. */
  lemma WritePixelsReceived(colors: seq<bv8>, l: Lines)
    ensures Received(WritePixelsEvents(colors), l) == [Command(0x2C)] + AsData(colors)
    ensures After(WritePixelsEvents(colors), l) == Lines(true, true)
  {
    var h := Play([Send(RAMWR, [])]);
    PlayReceived([Send(RAMWR, [])], l);
    assert [Send(RAMWR, [])][1..] == [];
    AddressingOpcodes();
    assert Deliveries([Send(RAMWR, [])]) == [Command(0x2C)];
    ReceivedAppend(h, StartDataEvents(), l);
    StartDataFraming(After(h, l));
    ReceivedAppend(h + StartDataEvents(), DataEvents(colors), l);
    DataEventsReceived(colors, Lines(true, true));
  }

  // ---------------------------------------------------------------- address window

  /** The panel's column address range (in 12-pixel cells) and row address range (in 2-pixel rows). */
  const ADDR_WINDOW: ((u16, u16), (u16, u16)) := ((0x12, 0x2A), (0x00, 0xC7))

  /** A column and a row address range, as the bytes CASET and RASET carry. */
  datatype Window = Window(caset: (u8, u8), raset: (u8, u8))

  /**
   * `set_address_window` as written: the start of each range is the base
   * start plus the start coordinate's cell, the end is the base END plus
   * the end coordinate's cell, each cast to a byte. The u16 sums of
   * coordinate and offset must not overflow. Against the evident window
   * (AddressWindow), it starts at the same place but ends 24 cells and 199
   * rows further on, modulo 256.
   */
  function AddressWindowAsWritten(sx: u16, sy: u16, ex: u16, ey: u16, dx: u16, dy: u16): (w: Window)
    requires sx + dx < 0x1_0000 && ex + dx < 0x1_0000 && sy + dy < 0x1_0000 && ey + dy < 0x1_0000
    ensures var v := AddressWindow(sx, sy, ex, ey, dx, dy);
      && w.caset.0 == v.caset.0 && w.raset.0 == v.raset.0
      && w.caset.1 == (v.caset.1 + 24) % 256
      && w.raset.1 == (v.raset.1 + 199) % 256
  {
    var ((xl, xu), (yl, yu)) := ADDR_WINDOW;
    ModShift(xl + (ex + dx) / 12, 24);
    ModShift(yl + (ey + dy) / 2, 199);
    Window(((xl + (sx + dx) / 12) % 256, (xu + (ex + dx) / 12) % 256),
           ((yl + (sy + dy) / 2) % 256, (yu + (ey + dy) / 2) % 256))
  }

  /** Adding k before or after reducing modulo 256 gives the same byte. */
  lemma ModShift(a: int, k: int)
    ensures (a + k) % 256 == (a % 256 + k) % 256
  {
  }

  /** The full 300 x 400 frame as written asks for columns 18..66 and rows 0..142, past the panel's 18..42 and 0..199. */
  lemma AddressWindowFullFrame()
    ensures AddressWindowAsWritten(0, 0, 299, 399, 0, 0) == Window((18, 66), (0, 142))
    ensures AddressWindowAsWritten(0, 0, 299, 399, 0, 0).caset.1 > ADDR_WINDOW.0.1
  {
  }

  /**
   * The window that `set_address_window` evidently means: both ends offset
   * from the base start, each cast to a byte.
   */
  function AddressWindow(sx: u16, sy: u16, ex: u16, ey: u16, dx: u16, dy: u16): Window
    requires sx + dx < 0x1_0000 && ex + dx < 0x1_0000 && sy + dy < 0x1_0000 && ey + dy < 0x1_0000
  {
    var ((xl, _), (yl, _)) := ADDR_WINDOW;
    Window(((xl + (sx + dx) / 12) % 256, (xl + (ex + dx) / 12) % 256),
           ((yl + (sy + dy) / 2) % 256, (yl + (ey + dy) / 2) % 256))
  }

  /**
   * For a rectangle that, shifted by the offset, lies on the 300 x 400
   * panel, the window stays inside the panel's address ranges, is ordered,
   * and covers exactly the cells and rows the rectangle touches.
   */
  lemma AddressWindowCovers(sx: u16, sy: u16, ex: u16, ey: u16, dx: u16, dy: u16)
    requires sx <= ex && sy <= ey && ex + dx < 300 && ey + dy < 400
    ensures var w := AddressWindow(sx, sy, ex, ey, dx, dy);
      && ADDR_WINDOW.0.0 <= w.caset.0 <= w.caset.1 <= ADDR_WINDOW.0.1
      && ADDR_WINDOW.1.0 <= w.raset.0 <= w.raset.1 <= ADDR_WINDOW.1.1
      && 12 * (w.caset.0 - ADDR_WINDOW.0.0) <= sx + dx < 12 * (w.caset.0 - ADDR_WINDOW.0.0 + 1)
      && 12 * (w.caset.1 - ADDR_WINDOW.0.0) <= ex + dx < 12 * (w.caset.1 - ADDR_WINDOW.0.0 + 1)
      && 2 * (w.raset.0 - ADDR_WINDOW.1.0) <= sy + dy < 2 * (w.raset.0 - ADDR_WINDOW.1.0 + 1)
      && 2 * (w.raset.1 - ADDR_WINDOW.1.0) <= ey + dy < 2 * (w.raset.1 - ADDR_WINDOW.1.0 + 1)
  {
  }

  /** On no input does the window as written agree with the evident one. */
  lemma AddressWindowAsWrittenDiffers(sx: u16, sy: u16, ex: u16, ey: u16, dx: u16, dy: u16)
    requires sx + dx < 0x1_0000 && ex + dx < 0x1_0000 && sy + dy < 0x1_0000 && ey + dy < 0x1_0000
    ensures AddressWindowAsWritten(sx, sy, ex, ey, dx, dy) != AddressWindow(sx, sy, ex, ey, dx, dy)
  {
  }

  /** The same one-cell, one-row rectangle maps to a one-cell, one-row window, where the code as written spans the whole panel. */
  lemma AddressWindowFirstCell()
    ensures AddressWindow(0, 0, 11, 1, 0, 0) == Window((18, 18), (0, 0))
    ensures AddressWindowAsWritten(0, 0, 11, 1, 0, 0) == Window((18, 42), (0, 199))
  {
  }

  /** `set_address_window`: CASET then RASET with the window's bytes. */
  function WindowSteps(w: Window): seq<Step>
  {
    [Send(CASET, CasetBytes(w)), Send(RASET, RasetBytes(w))]
  }

  function CasetBytes(w: Window): seq<bv8>
  {
    [w.caset.0 as bv8, w.caset.1 as bv8]
  }

  function RasetBytes(w: Window): seq<bv8>
  {
    [w.raset.0 as bv8, w.raset.1 as bv8]
  }

  /** The controller receives CASET with the column range, then RASET with the row range, and the chip ends deselected. */
  lemma WindowReceived(w: Window, l: Lines)
    ensures Received(Play(WindowSteps(w)), l)
         == [Command(0x2A)] + AsData(CasetBytes(w)) + [Command(0x2B)] + AsData(RasetBytes(w))
    ensures !After(Play(WindowSteps(w)), l).selected
  {
    var s := WindowSteps(w);
    PlayReceived(s, l);
    PlayDeselects(s, l);
    assert s[1..] == [Send(RASET, RasetBytes(w))];
    assert s[1..][1..] == [];
    AddressingOpcodes();
  }

  // ---------------------------------------------------------------- display, inversion and sleep

  /** `on_off`: DISPON or DISPOFF. */
  function OnOffEvents(on: bool): seq<Event>
  {
    CommandEvents(if on then DISPON else DISPOFF, [])
  }

  /** `invert_screen`: INVON or INVOFF. */
  function InvertEvents(inverted: bool): seq<Event>
  {
    CommandEvents(Inversion(inverted), [])
  }

  /** `sleep_in`: SLPIN, then 100 ms. */
  function SleepInSteps(): seq<Step>
  {
    [Send(SLPIN, []), Pause(100)]
  }

  /** `sleep_out`: SLPOUT, then 100 ms. */
  function SleepOutSteps(): seq<Step>
  {
    [Send(SLPOUT, []), Pause(100)]
  }

  /** `on_off` delivers exactly one command: 0x29 (DISPON) when on, 0x28 (DISPOFF) when off. */
  lemma OnOffReceived(on: bool, l: Lines)
    ensures Received(OnOffEvents(on), l) == [Command(if on then 0x29 else 0x28)]
  {
    CommandReceived(if on then DISPON else DISPOFF, [], l);
    PairedOpcodes();
  }

  /** `invert_screen` delivers exactly one command: 0x21 (INVON) when inverting, 0x20 (INVOFF) otherwise. */
  lemma InvertReceived(inverted: bool, l: Lines)
    ensures Received(InvertEvents(inverted), l) == [Command(if inverted then 0x21 else 0x20)]
  {
    CommandReceived(Inversion(inverted), [], l);
    PairedOpcodes();
  }

  /** A command without parameters and then a delay: the controller receives the opcode alone, and the trace ends with the delay. */
  lemma CommandThenDelay(op: Instruction, ms: nat, l: Lines)
    ensures Received(Play([Send(op, []), Pause(ms)]), l) == [Command(Opcode(op))]
    ensures Play([Send(op, []), Pause(ms)])[|Play([Send(op, []), Pause(ms)])| - 1] == Delay(ms)
  {
    var s := [Send(op, []), Pause(ms)];
    PlayReceived(s, l);
    PlayTwo(s[0], s[1]);
    assert s[1..] == [Pause(ms)];
    assert s[1..][1..] == [];
    assert Deliveries(s[1..]) == [];
    assert AsData([]) == [];
  }

  /** Sleeping in and out each deliver their one opcode, 0x10 and 0x11, and then wait 100 ms. */
  lemma SleepReceived(l: Lines)
    ensures Received(Play(SleepInSteps()), l) == [Command(0x10)]
    ensures Received(Play(SleepOutSteps()), l) == [Command(0x11)]
    ensures Play(SleepInSteps())[|Play(SleepInSteps())| - 1] == Delay(100)
    ensures Play(SleepOutSteps())[|Play(SleepOutSteps())| - 1] == Delay(100)
  {
    CommandThenDelay(SLPIN, 100, l);
    CommandThenDelay(SLPOUT, 100, l);
    PairedOpcodes();
  }

  // ---------------------------------------------------------------- orientation

  /** The MADCTL values of the four orientations. */
  datatype Orientation = Portrait | Landscape | PortraitSwapped | LandscapeSwapped

  function Madctl(o: Orientation): bv8
  {
    match o
    case Portrait => 0x00
    case Landscape => 0x60
    case PortraitSwapped => 0xC0
    case LandscapeSwapped => 0xA0
  }

  /** The four orientations have distinct MADCTL values, none of which is the 0x48 `init` sets. */
  lemma MadctlInjective(o1: Orientation, o2: Orientation)
    ensures Madctl(o1) == Madctl(o2) <==> o1 == o2
    ensures Madctl(o1) != 0x48
  {
  }
}
