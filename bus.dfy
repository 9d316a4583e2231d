/**
 * The hardware the driver talks to, seen as an append-only trace of events:
 * chip-select, data/command and reset pin levels, one-byte SPI writes and
 * delays. The controller's view of a trace is the sequence of bytes it
 * clocks in while selected, each tagged as command or data by the DC line.
 */
module Bus {
  import opened Instructions

  datatype Event =
    | CsLow | CsHigh
    | DcLow | DcHigh
    | RstLow | RstHigh
    | Spi(value: bv8)
    | Delay(ms: nat)

  /** The levels of the two framing lines: CS asserted (low), DC high (data). */
  datatype Lines = Lines(selected: bool, data: bool)

  /** A byte as the controller interprets it. */
  datatype Transfer = Command(code: bv8) | Data(value: bv8)

  /** The effect of one event on the framing lines. */
  function Next(l: Lines, e: Event): Lines
  {
    match e
    case CsLow => l.(selected := true)
    case CsHigh => l.(selected := false)
    case DcLow => l.(data := false)
    case DcHigh => l.(data := true)
    case _ => l
  }

  /** The framing lines after a whole trace. */
  function After(t: seq<Event>, l: Lines): Lines
    decreases |t|
  {
    if t == [] then l else After(t[1..], Next(l, t[0]))
  }

  /** The transfer a byte written with the lines at `l` delivers, if any. */
  function Deliver(l: Lines, e: Event): seq<Transfer>
  {
    if e.Spi? && l.selected then
      [if l.data then Data(e.value) else Command(e.value)]
    else []
  }

  /** What the controller receives from a trace that starts with the lines at `l`. */
  function Received(t: seq<Event>, l: Lines): seq<Transfer>
    decreases |t|
  {
    if t == [] then [] else Deliver(l, t[0]) + Received(t[1..], Next(l, t[0]))
  }

  /** Every byte written to the SPI bus, whatever the pins are doing. */
  function BusBytes(t: seq<Event>): seq<bv8>
    decreases |t|
  {
    if t == [] then []
    else (if t[0].Spi? then [t[0].value] else []) + BusBytes(t[1..])
  }

  /** One single-byte SPI write per data byte, in order (`write_data`). */
  function DataEvents(d: seq<bv8>): (t: seq<Event>)
    ensures |t| == |d|
    decreases |d|
  {
    if d == [] then [] else [Spi(d[0])] + DataEvents(d[1..])
  }

  /** The bytes tagged as data. */
  function AsData(d: seq<bv8>): (r: seq<Transfer>)
    ensures |r| == |d|
    decreases |d|
  {
    if d == [] then [] else [Data(d[0])] + AsData(d[1..])
  }

  /** Asserting CS and raising DC before a data payload (`start_data`). */
  function StartDataEvents(): seq<Event>
  {
    [CsLow, DcHigh]
  }

  /**
   * The framing of one command (`write_command`): CS low, DC low, the
   * opcode; for a non-empty parameter list, CS low, DC high and one write
   * per parameter; finally CS high.
   */
  function CommandEvents(op: Instruction, params: seq<bv8>): seq<Event>
  {
    Framed(Opcode(op), params)
  }

  lemma {:induction false} ReceivedAppend(a: seq<Event>, b: seq<Event>, l: Lines)
    ensures Received(a + b, l) == Received(a, l) + Received(b, After(a, l))
    ensures After(a + b, l) == After(b, After(a, l))
    decreases |a|
  {
    if a == [] {
      assert a + b == b;
    } else {
      assert (a + b)[1..] == a[1..] + b;
      ReceivedAppend(a[1..], b, Next(l, a[0]));
    }
  }

  lemma {:induction false} BusBytesAppend(a: seq<Event>, b: seq<Event>)
    ensures BusBytes(a + b) == BusBytes(a) + BusBytes(b)
    decreases |a|
  {
    if a == [] {
      assert a + b == b;
    } else {
      assert (a + b)[0] == a[0];
      assert (a + b)[1..] == a[1..] + b;
      BusBytesAppend(a[1..], b);
      assert BusBytes(a + b) == (if a[0].Spi? then [a[0].value] else []) + BusBytes(a[1..] + b);
    }
  }

  lemma {:induction false} DataEventsAppend(d: seq<bv8>, b: bv8)
    ensures DataEvents(d + [b]) == DataEvents(d) + [Spi(b)]
    decreases |d|
  {
    if d == [] {
      assert d + [b] == [b];
    } else {
      assert (d + [b])[1..] == d[1..] + [b];
      DataEventsAppend(d[1..], b);
    }
  }

  /** Writing the three bytes of a cell, one by one, extends the data run over that cell. */
  lemma DataEventsCell(h: seq<Event>, d: seq<bv8>, i: nat)
    requires i + 3 <= |d|
    ensures h + DataEvents(d[..i]) + [Spi(d[i])] + [Spi(d[i + 1])] + [Spi(d[i + 2])] == h + DataEvents(d[..i + 3])
  {
    DataEventsAppend(d[..i], d[i]);
    DataEventsAppend(d[..i + 1], d[i + 1]);
    DataEventsAppend(d[..i + 2], d[i + 2]);
    assert d[..i + 1] == d[..i] + [d[i]];
    assert d[..i + 2] == d[..i + 1] + [d[i + 1]];
    assert d[..i + 3] == d[..i + 2] + [d[i + 2]];
  }

  /** A data payload sent while selected with DC high reaches the controller as data, byte for byte. */
  lemma {:induction false} DataEventsReceived(d: seq<bv8>, l: Lines)
    requires l.selected && l.data
    ensures Received(DataEvents(d), l) == AsData(d)
    ensures After(DataEvents(d), l) == l
    decreases |d|
  {
    if d != [] {
      DataEventsReceived(d[1..], l);
    }
  }

  /** The bus carries exactly the payload bytes of a data run. */
  lemma {:induction false} DataEventsBusBytes(d: seq<bv8>)
    ensures BusBytes(DataEvents(d)) == d
    decreases |d|
  {
    if d != [] {
      DataEventsBusBytes(d[1..]);
    }
  }

  /** Selecting the chip, lowering DC and writing a byte delivers that byte as a command. */
  lemma OpcodeFraming(code: bv8, l: Lines)
    ensures Received([CsLow, DcLow, Spi(code)], l) == [Command(code)]
    ensures After([CsLow, DcLow, Spi(code)], l) == Lines(true, false)
  {
    var l1 := Next(l, CsLow);
    var l2 := Next(l1, DcLow);
    assert [Spi(code)][1..] == [];
    assert Received([Spi(code)], l2) == [Command(code)];
    assert After([Spi(code)], l2) == Lines(true, false);
    assert [DcLow, Spi(code)][1..] == [Spi(code)];
    assert [CsLow, DcLow, Spi(code)][1..] == [DcLow, Spi(code)];
  }

  /** Selecting the chip and raising DC delivers nothing and leaves the lines selected for data. */
  lemma StartDataFraming(l: Lines)
    ensures Received(StartDataEvents(), l) == []
    ensures After(StartDataEvents(), l) == Lines(true, true)
  {
    assert [CsLow, DcHigh][1..] == [DcHigh];
    assert [DcHigh][1..] == [];
  }

  lemma HeadBusBytes(code: bv8)
    ensures BusBytes([CsLow, DcLow, Spi(code)]) == [code]
  {
    assert [Spi(code)][1..] == [];
    assert BusBytes([Spi(code)]) == [code];
    assert [DcLow, Spi(code)][1..] == [Spi(code)];
    assert BusBytes([DcLow, Spi(code)]) == [code];
    assert [CsLow, DcLow, Spi(code)][1..] == [DcLow, Spi(code)];
  }

  lemma StartDataBusBytes()
    ensures BusBytes(StartDataEvents()) == []
  {
    assert [CsLow, DcHigh][1..] == [DcHigh];
    assert [DcHigh][1..] == [];
  }

  /**
   * The framing of one command with opcode byte `code`; CommandEvents is
   * this for the opcode of an instruction.
   */
  function Framed(code: bv8, params: seq<bv8>): seq<Event>
  {
    [CsLow, DcLow, Spi(code)]
    + (if params == [] then [] else StartDataEvents() + DataEvents(params))
    + [CsHigh]
  }

  lemma FramedReceived(code: bv8, params: seq<bv8>, l: Lines)
    ensures Received(Framed(code, params), l) == [Command(code)] + AsData(params)
    ensures After(Framed(code, params), l) == Lines(false, params != [])
  {
    var head := [CsLow, DcLow, Spi(code)];
    var l1 := After(head, l);
    OpcodeFraming(code, l);
    assert Received([CsHigh], l1) == [] && After([CsHigh], l1) == Lines(false, false) by {
      assert [CsHigh][1..] == [];
    }
    if params == [] {
      assert Framed(code, params) == head + [CsHigh];
      ReceivedAppend(head, [CsHigh], l);
    } else {
      var body := StartDataEvents() + DataEvents(params);
      assert Framed(code, params) == head + body + [CsHigh];
      StartDataFraming(l1);
      DataEventsReceived(params, Lines(true, true));
      ReceivedAppend(StartDataEvents(), DataEvents(params), l1);
      assert Received([CsHigh], Lines(true, true)) == [] && After([CsHigh], Lines(true, true)) == Lines(false, true) by {
        assert [CsHigh][1..] == [];
      }
      ReceivedThree(head, body, [CsHigh], l, l1, Lines(true, true), Lines(false, true),
                    [Command(code)], AsData(params), []);
    }
  }

  /** Received and After across three pieces, from what each piece does on its own. */
  lemma ReceivedThree(a: seq<Event>, b: seq<Event>, c: seq<Event>, l: Lines, la: Lines, lb: Lines, lc: Lines,
                      x: seq<Transfer>, y: seq<Transfer>, z: seq<Transfer>)
    requires Received(a, l) == x && After(a, l) == la
    requires Received(b, la) == y && After(b, la) == lb
    requires Received(c, lb) == z && After(c, lb) == lc
    ensures Received(a + b + c, l) == x + y + z && After(a + b + c, l) == lc
  {
    ReceivedAppend(a, b, l);
    ReceivedAppend(a + b, c, l);
  }

  lemma FramedBusBytes(code: bv8, params: seq<bv8>)
    ensures BusBytes(Framed(code, params)) == [code] + params
  {
    var head := [CsLow, DcLow, Spi(code)];
    HeadBusBytes(code);
    assert BusBytes([CsHigh]) == [] by {
      assert [CsHigh][1..] == [];
    }
    if params == [] {
      assert Framed(code, params) == head + [CsHigh];
      BusBytesAppend(head, [CsHigh]);
    } else {
      var body := StartDataEvents() + DataEvents(params);
      assert Framed(code, params) == head + body + [CsHigh];
      StartDataBusBytes();
      DataEventsBusBytes(params);
      BusBytesAppend(StartDataEvents(), DataEvents(params));
      BusBytesThree(head, body, [CsHigh], [code], params, []);
      assert [code] + params + [] == [code] + params;
    }
  }

  /** The bytes on the bus across three pieces, from the bytes of each piece. */
  lemma BusBytesThree(a: seq<Event>, b: seq<Event>, c: seq<Event>, x: seq<bv8>, y: seq<bv8>, z: seq<bv8>)
    requires BusBytes(a) == x && BusBytes(b) == y && BusBytes(c) == z
    ensures BusBytes(a + b + c) == x + y + z
  {
    BusBytesAppend(a, b);
    BusBytesAppend(a + b, c);
  }

  /**
   * Whatever the lines were, a framed command reaches the controller as its
   * opcode with DC low followed by its parameters with DC high, and leaves
   * the chip deselected, DC high exactly when there were parameters.
   */
  lemma CommandReceived(op: Instruction, params: seq<bv8>, l: Lines)
    ensures Received(CommandEvents(op, params), l) == [Command(Opcode(op))] + AsData(params)
    ensures After(CommandEvents(op, params), l) == Lines(false, params != [])
  {
    FramedReceived(Opcode(op), params, l);
  }

  /** The bytes on the bus for a command are its opcode followed by its parameters. */
  lemma CommandBusBytes(op: Instruction, params: seq<bv8>)
    ensures BusBytes(CommandEvents(op, params)) == [Opcode(op)] + params
  {
    FramedBusBytes(Opcode(op), params);
  }
}
