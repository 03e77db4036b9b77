/** The C0VM instruction set: one-byte opcodes, as the `switch (P[pc])` of
    the interpreter sees them. */
module Opcodes {
  import opened Int32Arith

  datatype Opcode =
    // stack
    | Pop | Dup | Swap
    // arithmetic and bitwise
    | IAdd | ISub | IMul | IDiv | IRem | IAnd | IOr | IXor | IShl | IShr
    // constants
    | BiPush | ILdc | ALdc | AConstNull
    // locals
    | VLoad | VStore
    // errors
    | AThrow | Assert
    // control flow
    | Nop | IfCmpEq | IfCmpNe | IfICmpLt | IfICmpGe | IfICmpGt | IfICmpLe | Goto
    // calls
    | InvokeStatic | InvokeNative | Return
    // memory, arrays and tags: named by the interpreter but not implemented
    | New | IMLoad | IMStore | AMLoad | AMStore | CMLoad | CMStore | AAddF
    | NewArray | ArrayLength | AAddS
    | CheckTag | HasTag | AddTag | AddrOfStatic | AddrOfNative | InvokeDynamic
    // any other byte
    | Unknown(b: UByte)

  /** The byte that encodes an opcode. */
  function Encode(op: Opcode): UByte
  {
    match op
    case Pop => 0x57
    case Dup => 0x59
    case Swap => 0x5F
    case IAdd => 0x60
    case ISub => 0x64
    case IMul => 0x68
    case IDiv => 0x6C
    case IRem => 0x70
    case IAnd => 0x7E
    case IOr => 0x80
    case IXor => 0x82
    case IShl => 0x78
    case IShr => 0x7A
    case BiPush => 0x10
    case ILdc => 0x13
    case ALdc => 0x14
    case AConstNull => 0x01
    case VLoad => 0x15
    case VStore => 0x36
    case AThrow => 0xBF
    case Assert => 0xCF
    case Nop => 0x00
    case IfCmpEq => 0x9F
    case IfCmpNe => 0xA0
    case IfICmpLt => 0xA1
    case IfICmpGe => 0xA2
    case IfICmpGt => 0xA3
    case IfICmpLe => 0xA4
    case Goto => 0xA7
    case InvokeStatic => 0xB8
    case InvokeNative => 0xB7
    case Return => 0xB0
    case New => 0xBB
    case IMLoad => 0x2E
    case IMStore => 0x4E
    case AMLoad => 0x2F
    case AMStore => 0x4F
    case CMLoad => 0x34
    case CMStore => 0x55
    case AAddF => 0x62
    case NewArray => 0xBC
    case ArrayLength => 0xBE
    case AAddS => 0x63
    case CheckTag => 0xC0
    case HasTag => 0xC1
    case AddTag => 0xC2
    case AddrOfStatic => 0x16
    case AddrOfNative => 0x17
    case InvokeDynamic => 0xB6
    case Unknown(b) => b
  }

  /** The opcode a byte stands for. */
  function Decode(b: UByte): Opcode
  {
    if b == 0x57 then Pop
    else if b == 0x59 then Dup
    else if b == 0x5F then Swap
    else if b == 0x60 then IAdd
    else if b == 0x64 then ISub
    else if b == 0x68 then IMul
    else if b == 0x6C then IDiv
    else if b == 0x70 then IRem
    else if b == 0x7E then IAnd
    else if b == 0x80 then IOr
    else if b == 0x82 then IXor
    else if b == 0x78 then IShl
    else if b == 0x7A then IShr
    else if b == 0x10 then BiPush
    else if b == 0x13 then ILdc
    else if b == 0x14 then ALdc
    else if b == 0x01 then AConstNull
    else if b == 0x15 then VLoad
    else if b == 0x36 then VStore
    else if b == 0xBF then AThrow
    else if b == 0xCF then Assert
    else if b == 0x00 then Nop
    else if b == 0x9F then IfCmpEq
    else if b == 0xA0 then IfCmpNe
    else if b == 0xA1 then IfICmpLt
    else if b == 0xA2 then IfICmpGe
    else if b == 0xA3 then IfICmpGt
    else if b == 0xA4 then IfICmpLe
    else if b == 0xA7 then Goto
    else if b == 0xB8 then InvokeStatic
    else if b == 0xB7 then InvokeNative
    else if b == 0xB0 then Return
    else if b == 0xBB then New
    else if b == 0x2E then IMLoad
    else if b == 0x4E then IMStore
    else if b == 0x2F then AMLoad
    else if b == 0x4F then AMStore
    else if b == 0x34 then CMLoad
    else if b == 0x55 then CMStore
    else if b == 0x62 then AAddF
    else if b == 0xBC then NewArray
    else if b == 0xBE then ArrayLength
    else if b == 0x63 then AAddS
    else if b == 0xC0 then CheckTag
    else if b == 0xC1 then HasTag
    else if b == 0xC2 then AddTag
    else if b == 0x16 then AddrOfStatic
    else if b == 0x17 then AddrOfNative
    else if b == 0xB6 then InvokeDynamic
    else Unknown(b)
  }

  /** Decoding undoes encoding: no two named opcodes share a byte. */
  lemma DecodeEncode(op: Opcode)
    requires !op.Unknown? || Decode(op.b).Unknown?
    ensures Decode(Encode(op)) == op
  {
    var b := Encode(op);
    if op.Unknown? {
      DecodeUnknown(op.b);
    } else if b < 0x30 {
      DecodeEncodeLow(op);
    } else if b < 0x70 {
      DecodeEncodeLowMid(op);
    } else if b < 0xB0 {
      DecodeEncodeHighMid(op);
    } else {
      DecodeEncodeHigh(op);
    }
  }

  /** A byte that names no opcode is kept as it is. */
  lemma DecodeUnknown(b: UByte)
    requires Decode(b).Unknown?
    ensures Decode(b) == Unknown(b)
  {
  }

  /** Encoding undoes decoding: every byte reads back as itself. */
  lemma EncodeDecode(b: UByte)
    ensures Encode(Decode(b)) == b
  {
    if b < 0x30 {
      EncodeDecodeLow(b);
    } else if b < 0x70 {
      EncodeDecodeLowMid(b);
    } else if b < 0xB0 {
      EncodeDecodeHighMid(b);
    } else {
      EncodeDecodeHigh(b);
    }
  }

  // The two round trips, one range of bytes at a time.

  lemma DecodeEncodeLow(op: Opcode)
    requires !op.Unknown? && Encode(op) < 0x30
    ensures Decode(Encode(op)) == op
  {
  }

  lemma EncodeDecodeLow(b: UByte)
    requires b < 0x30
    ensures Encode(Decode(b)) == b
  {
  }

  lemma DecodeEncodeLowMid(op: Opcode)
    requires !op.Unknown? && 0x30 <= Encode(op) < 0x70
    ensures Decode(Encode(op)) == op
  {
  }

  lemma EncodeDecodeLowMid(b: UByte)
    requires 0x30 <= b < 0x70
    ensures Encode(Decode(b)) == b
  {
  }

  lemma DecodeEncodeHighMid(op: Opcode)
    requires !op.Unknown? && 0x70 <= Encode(op) < 0xB0
    ensures Decode(Encode(op)) == op
  {
  }

  lemma EncodeDecodeHighMid(b: UByte)
    requires 0x70 <= b < 0xB0
    ensures Encode(Decode(b)) == b
  {
  }

  lemma DecodeEncodeHigh(op: Opcode)
    requires !op.Unknown? && Encode(op) >= 0xB0
    ensures Decode(Encode(op)) == op
  {
  }

  lemma EncodeDecodeHigh(b: UByte)
    requires b >= 0xB0
    ensures Encode(Decode(b)) == b
  {
  }

  /** The stack instructions. */
  predicate IsStackOp(op: Opcode)
  {
    op.Pop? || op.Dup? || op.Swap?
  }

  /** The arithmetic and bitwise instructions. */
  predicate IsArithmetic(op: Opcode)
  {
    IsBinary(op) || op.IDiv? || op.IRem?
  }

  /** The instructions that push a constant. */
  predicate IsConstant(op: Opcode)
  {
    op.BiPush? || op.ILdc? || op.ALdc? || op.AConstNull?
  }

  /** NOP, GOTO and the conditional branches. */
  predicate IsControl(op: Opcode)
  {
    op.Nop? || op.IfCmpEq? || op.IfCmpNe? || IsIntCompare(op) || op.Goto?
  }

  /** Opcodes that pop two integers and push one, with no check between
      the two pops. */
  predicate IsBinary(op: Opcode)
  {
    op.IAdd? || op.ISub? || op.IMul? || op.IAnd? || op.IOr? || op.IXor? || op.IShl? || op.IShr?
  }

  /** The four conditional branches on two integers. */
  predicate IsIntCompare(op: Opcode)
  {
    op.IfICmpLt? || op.IfICmpGe? || op.IfICmpGt? || op.IfICmpLe?
  }

  /** The opcodes that the interpreter names but sends to its default case. */
  predicate IsUnimplemented(op: Opcode)
  {
    || op.New? || op.IMLoad? || op.IMStore? || op.AMLoad? || op.AMStore? || op.CMLoad? || op.CMStore?
    || op.AAddF? || op.NewArray? || op.ArrayLength? || op.AAddS?
    || op.CheckTag? || op.HasTag? || op.AddTag? || op.AddrOfStatic? || op.AddrOfNative? || op.InvokeDynamic?
  }
}
