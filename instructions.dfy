/**
 * The ST7306 instruction set: the symbolic command names of the controller
 * and the one-byte opcode each one is sent as.
 */
module Instructions {

  datatype Option<T> = None | Some(value: T)

  /** The machine integers of the driver's interface. */
  type u8 = v: int | 0 <= v < 0x100
  type u16 = v: int | 0 <= v < 0x1_0000

  /** The command names, in the order the enumeration declares them. */
  datatype Instruction =
    | NOP | SWRESET | RDDID | RDDST | SLPIN | SLPOUT | PTLON | PTLOFF
    | INVOFF | INVON | DISPOFF | DISPON | CASET | RASET | RAMWR
    | TEOFF | TEON | MADCTL | VSCSAD | HPM | LPM | DTFORM | WRMEMC | TESCAN
    | GTCON | GATESET | FSTCOM | FRCTRL | GTUPEQH | GTUPEQL | SOUEQ | PNLSET
    | GAMAMS | CLRAM | GCTRL | VSHPCTRL | VSLPCTRL | VSHNCTRL | VSLNCTRL
    | LOWPOWER | VSIKCTRL | VSHLSEL | ID1SET | ID2SET | ID3SET | AUTOPWRCTRL
    | BSTEN | NVMLOADCTRL | OSCSET | NVMRD | EXTBCTRL | NVMCTRL1 | NVMCTRL2
    | NVMRDEN | NVMPROM | RDID1 | RDID2 | RDID3

  /** The explicit discriminant of each variant, as an unbounded integer; none exceeds NVMPROM's 0xFC. */
  function Discriminant(i: Instruction): (d: int)
    ensures 0 <= d <= 0xFC
  {
    match i
    case NOP => 0x00
    case SWRESET => 0x01
    case RDDID => 0x04
    case RDDST => 0x09
    case SLPIN => 0x10
    case SLPOUT => 0x11
    case PTLON => 0x12
    case PTLOFF => 0x13
    case INVOFF => 0x20
    case INVON => 0x21
    case DISPOFF => 0x28
    case DISPON => 0x29
    case CASET => 0x2A
    case RASET => 0x2B
    case RAMWR => 0x2C
    case TEOFF => 0x34
    case TEON => 0x35
    case MADCTL => 0x36
    case VSCSAD => 0x37
    case HPM => 0x38
    case LPM => 0x39
    case DTFORM => 0x3A
    case WRMEMC => 0x3C
    case TESCAN => 0x44
    case GTCON => 0x62
    case GATESET => 0xB0
    case FSTCOM => 0xB1
    case FRCTRL => 0xB2
    case GTUPEQH => 0xB3
    case GTUPEQL => 0xB4
    case SOUEQ => 0xB7
    case PNLSET => 0xB8
    case GAMAMS => 0xB9
    case CLRAM => 0xBB
    case GCTRL => 0xC0
    case VSHPCTRL => 0xC1
    case VSLPCTRL => 0xC2
    case VSHNCTRL => 0xC4
    case VSLNCTRL => 0xC5
    case LOWPOWER => 0xC7
    case VSIKCTRL => 0xC8
    case VSHLSEL => 0xC9
    case ID1SET => 0xCA
    case ID2SET => 0xCB
    case ID3SET => 0xCC
    case AUTOPWRCTRL => 0xD0
    case BSTEN => 0xD1
    case NVMLOADCTRL => 0xD6
    case OSCSET => 0xD8
    case NVMRD => 0xE9
    case EXTBCTRL => 0xEC
    case NVMCTRL1 => 0xF8
    case NVMCTRL2 => 0xFA
    case NVMRDEN => 0xFB
    case NVMPROM => 0xFC
    case RDID1 => 0xDA
    case RDID2 => 0xDB
    case RDID3 => 0xDC
  }

  /**
   * The byte put on the bus for a command (`command as u8`). The cast
   * truncates modulo 256. The table repeats Discriminant's line for line,
   * as bytes; OpcodeIsDiscriminant ties the two tables together and shows
   * that the truncation never changes a value.
   */
  function Opcode(i: Instruction): bv8
  {
    match i
    case NOP => 0x00
    case SWRESET => 0x01
    case RDDID => 0x04
    case RDDST => 0x09
    case SLPIN => 0x10
    case SLPOUT => 0x11
    case PTLON => 0x12
    case PTLOFF => 0x13
    case INVOFF => 0x20
    case INVON => 0x21
    case DISPOFF => 0x28
    case DISPON => 0x29
    case CASET => 0x2A
    case RASET => 0x2B
    case RAMWR => 0x2C
    case TEOFF => 0x34
    case TEON => 0x35
    case MADCTL => 0x36
    case VSCSAD => 0x37
    case HPM => 0x38
    case LPM => 0x39
    case DTFORM => 0x3A
    case WRMEMC => 0x3C
    case TESCAN => 0x44
    case GTCON => 0x62
    case GATESET => 0xB0
    case FSTCOM => 0xB1
    case FRCTRL => 0xB2
    case GTUPEQH => 0xB3
    case GTUPEQL => 0xB4
    case SOUEQ => 0xB7
    case PNLSET => 0xB8
    case GAMAMS => 0xB9
    case CLRAM => 0xBB
    case GCTRL => 0xC0
    case VSHPCTRL => 0xC1
    case VSLPCTRL => 0xC2
    case VSHNCTRL => 0xC4
    case VSLNCTRL => 0xC5
    case LOWPOWER => 0xC7
    case VSIKCTRL => 0xC8
    case VSHLSEL => 0xC9
    case ID1SET => 0xCA
    case ID2SET => 0xCB
    case ID3SET => 0xCC
    case AUTOPWRCTRL => 0xD0
    case BSTEN => 0xD1
    case NVMLOADCTRL => 0xD6
    case OSCSET => 0xD8
    case NVMRD => 0xE9
    case EXTBCTRL => 0xEC
    case NVMCTRL1 => 0xF8
    case NVMCTRL2 => 0xFA
    case NVMRDEN => 0xFB
    case NVMPROM => 0xFC
    case RDID1 => 0xDA
    case RDID2 => 0xDB
    case RDID3 => 0xDC
  }

  /** The cast to a byte preserves every discriminant: none exceeds NVMPROM's 0xFC. */
  lemma OpcodeIsDiscriminant(i: Instruction)
    ensures Discriminant(i) <= 0xFC
    ensures Opcode(i) as int == Discriminant(i) % 256 == Discriminant(i)
  {
    OpcodeLow(i);
    OpcodeHigh(i);
  }

  /** The standard commands, 0x00 to 0x62. */
  lemma OpcodeLow(i: Instruction)
    ensures Discriminant(i) < 0xB0 ==> Opcode(i) as int == Discriminant(i)
  {
    match i
    case NOP => case SWRESET => case RDDID => case RDDST => case SLPIN => case SLPOUT =>
    case PTLON => case PTLOFF => case INVOFF => case INVON => case DISPOFF => case DISPON =>
    case CASET => case RASET => case RAMWR => case TEOFF => case TEON => case MADCTL =>
    case VSCSAD => case HPM => case LPM => case DTFORM => case WRMEMC => case TESCAN =>
    case GTCON => case _ =>
  }

  /** The panel-specific commands, 0xB0 to 0xFC. */
  lemma OpcodeHigh(i: Instruction)
    ensures Discriminant(i) >= 0xB0 ==> Opcode(i) as int == Discriminant(i)
  {
    match i
    case GATESET => case FSTCOM => case FRCTRL => case GTUPEQH => case GTUPEQL => case SOUEQ =>
    case PNLSET => case GAMAMS => case CLRAM => case GCTRL => case VSHPCTRL => case VSLPCTRL =>
    case VSHNCTRL => case VSLNCTRL => case LOWPOWER => case VSIKCTRL => case VSHLSEL => case ID1SET =>
    case ID2SET => case ID3SET => case AUTOPWRCTRL => case BSTEN => case NVMLOADCTRL => case OSCSET =>
    case NVMRD => case EXTBCTRL => case NVMCTRL1 => case NVMCTRL2 => case NVMRDEN => case NVMPROM =>
    case RDID1 => case RDID2 => case RDID3 => case _ =>
  }

  /**
   * The inverse table, arranged by high and then low nibble: the command a
   * discriminant stands for, if any.
   */
  function Decode(n: int): Option<Instruction>
  {
    if n < 0 || n > 0xFF then None
    else match n / 16
      case 0x0 => (match n % 16
        case 0x0 => Some(NOP)
        case 0x1 => Some(SWRESET)
        case 0x4 => Some(RDDID)
        case 0x9 => Some(RDDST)
        case _ => None)
      case 0x1 => (match n % 16
        case 0x0 => Some(SLPIN)
        case 0x1 => Some(SLPOUT)
        case 0x2 => Some(PTLON)
        case 0x3 => Some(PTLOFF)
        case _ => None)
      case 0x2 => (match n % 16
        case 0x0 => Some(INVOFF)
        case 0x1 => Some(INVON)
        case 0x8 => Some(DISPOFF)
        case 0x9 => Some(DISPON)
        case 0xA => Some(CASET)
        case 0xB => Some(RASET)
        case 0xC => Some(RAMWR)
        case _ => None)
      case 0x3 => (match n % 16
        case 0x4 => Some(TEOFF)
        case 0x5 => Some(TEON)
        case 0x6 => Some(MADCTL)
        case 0x7 => Some(VSCSAD)
        case 0x8 => Some(HPM)
        case 0x9 => Some(LPM)
        case 0xA => Some(DTFORM)
        case 0xC => Some(WRMEMC)
        case _ => None)
      case 0x4 => (match n % 16
        case 0x4 => Some(TESCAN)
        case _ => None)
      case 0x6 => (match n % 16
        case 0x2 => Some(GTCON)
        case _ => None)
      case 0xB => (match n % 16
        case 0x0 => Some(GATESET)
        case 0x1 => Some(FSTCOM)
        case 0x2 => Some(FRCTRL)
        case 0x3 => Some(GTUPEQH)
        case 0x4 => Some(GTUPEQL)
        case 0x7 => Some(SOUEQ)
        case 0x8 => Some(PNLSET)
        case 0x9 => Some(GAMAMS)
        case 0xB => Some(CLRAM)
        case _ => None)
      case 0xC => (match n % 16
        case 0x0 => Some(GCTRL)
        case 0x1 => Some(VSHPCTRL)
        case 0x2 => Some(VSLPCTRL)
        case 0x4 => Some(VSHNCTRL)
        case 0x5 => Some(VSLNCTRL)
        case 0x7 => Some(LOWPOWER)
        case 0x8 => Some(VSIKCTRL)
        case 0x9 => Some(VSHLSEL)
        case 0xA => Some(ID1SET)
        case 0xB => Some(ID2SET)
        case 0xC => Some(ID3SET)
        case _ => None)
      case 0xD => (match n % 16
        case 0x0 => Some(AUTOPWRCTRL)
        case 0x1 => Some(BSTEN)
        case 0x6 => Some(NVMLOADCTRL)
        case 0x8 => Some(OSCSET)
        case 0xA => Some(RDID1)
        case 0xB => Some(RDID2)
        case 0xC => Some(RDID3)
        case _ => None)
      case 0xE => (match n % 16
        case 0x9 => Some(NVMRD)
        case 0xC => Some(EXTBCTRL)
        case _ => None)
      case 0xF => (match n % 16
        case 0x8 => Some(NVMCTRL1)
        case 0xA => Some(NVMCTRL2)
        case 0xB => Some(NVMRDEN)
        case 0xC => Some(NVMPROM)
        case _ => None)
      case _ => None
  }

  /** Decode inverts Discriminant: every command is recovered from its value. */
  lemma DecodeOpcode(i: Instruction)
    ensures Decode(Discriminant(i)) == Some(i)
  {
    if Discriminant(i) < 0xB0 {
      DecodeLow(i);
    } else {
      DecodeHigh(i);
    }
  }

  lemma DecodeLow(i: Instruction)
    requires Discriminant(i) < 0xB0
    ensures Decode(Discriminant(i)) == Some(i)
  {
  }

  lemma DecodeHigh(i: Instruction)
    requires Discriminant(i) >= 0xB0
    ensures Decode(Discriminant(i)) == Some(i)
  {
  }

  /** The name-to-byte table is injective: discriminants are pairwise distinct. */
  lemma OpcodeInjective(i: Instruction, j: Instruction)
    ensures Opcode(i) == Opcode(j) <==> i == j
  {
    if Opcode(i) == Opcode(j) {
      OpcodeIsDiscriminant(i);
      OpcodeIsDiscriminant(j);
      DecodeOpcode(i);
      DecodeOpcode(j);
    }
  }

  /** The addressing commands. */
  lemma AddressingOpcodes()
    ensures [Opcode(CASET), Opcode(RASET), Opcode(RAMWR), Opcode(MADCTL)] == [0x2A, 0x2B, 0x2C, 0x36]
  {
  }

  /** The paired off/on (in/out, high/low) commands differ by one, the second of each pair being the odd one. */
  lemma PairedOpcodes()
    ensures [Opcode(SLPIN), Opcode(INVOFF), Opcode(DISPOFF), Opcode(HPM)] == [0x10, 0x20, 0x28, 0x38]
    ensures [Opcode(SLPOUT), Opcode(INVON), Opcode(DISPON), Opcode(LPM)]
         == [Opcode(SLPIN) + 1, Opcode(INVOFF) + 1, Opcode(DISPOFF) + 1, Opcode(HPM) + 1]
  {
  }

  /** The panel-setup commands `init` sends, with their fixed values. */
  lemma PanelOpcodes()
    ensures [Opcode(GATESET), Opcode(FRCTRL), Opcode(GCTRL), Opcode(AUTOPWRCTRL), Opcode(BSTEN), Opcode(NVMLOADCTRL), Opcode(OSCSET)]
         == [0xB0, 0xB2, 0xC0, 0xD0, 0xD1, 0xD6, 0xD8]
  {
  }
}
