/** The CHIP-8 instruction set and its decoder (src/instruction.rs).

    A 16-bit opcode word is read as four nibbles, most significant first.
    Operands are rebuilt from the nibbles: a 12-bit address from the last
    three, an 8-bit immediate from the last two, register indices from
    single nibbles. Variant names and meanings follow section 3.1 of
    Cowgod's Chip-8 Technical Reference. */
module Instructions {
  import opened Primitive

  /** The 35 instructions. Register operands `x`, `y` and the sprite height
      `n` are single nibbles stored in a byte, `kk` is an immediate byte and
      `addr` a 12-bit address stored in a 16-bit word, as in the source. */
  datatype Instruction =
    | Sys(addr: u16)              // 0nnn
    | Cls                          // 00E0
    | Ret                          // 00EE
    | JpAddr(addr: u16)           // 1nnn
    | Call(addr: u16)             // 2nnn
    | SeVxByte(x: u8, kk: u8)    // 3xkk
    | SneVxByte(x: u8, kk: u8)   // 4xkk
    | SeVxVy(x: u8, y: u8)       // 5xy0
    | LdVxByte(x: u8, kk: u8)    // 6xkk
    | AddVxByte(x: u8, kk: u8)   // 7xkk
    | LdVxVy(x: u8, y: u8)       // 8xy0
    | Or(x: u8, y: u8)           // 8xy1
    | And(x: u8, y: u8)          // 8xy2
    | Xor(x: u8, y: u8)          // 8xy3
    | AddVxVy(x: u8, y: u8)      // 8xy4
    | Sub(x: u8, y: u8)          // 8xy5
    | Shr(x: u8, y: u8)          // 8xy6
    | Subn(x: u8, y: u8)         // 8xy7
    | Shl(x: u8, y: u8)          // 8xyE
    | SneVxVy(x: u8, y: u8)      // 9xy0
    | LdIAddr(addr: u16)          // Annn
    | JpV0Addr(addr: u16)         // Bnnn
    | Rnd(x: u8, kk: u8)         // Cxkk
    | Drw(x: u8, y: u8, n: u8)  // Dxyn
    | Skp(x: u8)                  // Ex9E
    | Sknp(x: u8)                 // ExA1
    | LdVxDt(x: u8)               // Fx07
    | LdVxK(x: u8)                // Fx0A
    | LdDtVx(x: u8)               // Fx15
    | LdStVx(x: u8)               // Fx18
    | AddIVx(x: u8)               // Fx1E
    | LdFVx(x: u8)                // Fx29
    | LdBVx(x: u8)                // Fx33
    | LdIVx(x: u8)                // Fx55
    | LdVxI(x: u8)                // Fx65

  /** Decoding either yields an instruction or fails with the offending word. */
  datatype Result<T> = Ok(value: T) | Err(word: u16)

  /** Every operand fits the field it was decoded from: register indices
      and the sprite height are nibbles, addresses have 12 bits. */
  predicate WellFormed(ins: Instruction) {
    match ins
    case Cls | Ret => true
    case Sys(_) | JpAddr(_) | Call(_) | LdIAddr(_) | JpV0Addr(_) => ins.addr < 0x1000
    case SeVxByte(_, _) | SneVxByte(_, _) | LdVxByte(_, _) | AddVxByte(_, _) | Rnd(_, _) => ins.x < 16
    case SeVxVy(_, _) | LdVxVy(_, _) | Or(_, _) | And(_, _) | Xor(_, _) | AddVxVy(_, _) | Sub(_, _)
      | Shr(_, _) | Subn(_, _) | Shl(_, _) | SneVxVy(_, _) => ins.x < 16 && ins.y < 16
    case Drw(x, y, n) => x < 16 && y < 16 && n < 16
    case _ => ins.x < 16
  }

  /** The four nibbles of an opcode word, most significant first. */
  datatype Nibbles = Nibbles(op: int, x: int, y: int, k: int) {
    predicate Valid() { 0 <= op < 16 && 0 <= x < 16 && 0 <= y < 16 && 0 <= k < 16 }
  }

  /** Splits a word into its nibbles: `(w >> 12) & 0xF`, `(w >> 8) & 0xF`,
      `(w >> 4) & 0xF` and `w & 0xF`. */
  function Split(w: u16): (n: Nibbles)
    ensures n.Valid()
  {
    Nibbles(w / 0x1000, w / 0x100 % 0x10, w / 0x10 % 0x10, w % 0x10)
  }

  /** Joins four nibbles into a word. */
  function Join(n: Nibbles): u16
    requires n.Valid()
  {
    n.op * 0x1000 + n.x * 0x100 + n.y * 0x10 + n.k
  }

  /** Splitting and joining are inverse. */
  lemma JoinSplit(w: u16)
    ensures Join(Split(w)) == w
  {
    var q1 := w / 0x10;
    var q2 := q1 / 0x10;
    assert w / 0x100 == q2;
    assert w / 0x1000 == q2 / 0x10;
  }

  lemma SplitJoin(n: Nibbles)
    requires n.Valid()
    ensures Split(Join(n)) == n
  {
    var w := Join(n);
    var hi := n.op * 0x10 + n.x;
    var mid := hi * 0x10 + n.y;
    assert w == mid * 0x10 + n.k;
    DigitOff(mid, n.k);
    DigitOff(hi, n.y);
    DigitOff(n.op, n.x);
    Shifts(w);
  }

  /** Appending a nibble `d` to `q` and taking it off again. */
  lemma DigitOff(q: nat, d: int)
    requires 0 <= d < 0x10
    ensures (q * 0x10 + d) / 0x10 == q && (q * 0x10 + d) % 0x10 == d
  {
  }

  /** Dividing by 0x100 and 0x1000 is dividing by 0x10 repeatedly. */
  lemma Shifts(w: nat)
    ensures w / 0x100 == w / 0x10 / 0x10
    ensures w / 0x1000 == w / 0x10 / 0x10 / 0x10
  {
  }

  /** The 12-bit address made of three nibbles, `(x << 8) | (y << 4) | k`;
      its nibbles are the three it was made of. */
  function Address(x: int, y: int, k: int): (r: u16)
    requires 0 <= x < 16 && 0 <= y < 16 && 0 <= k < 16
    ensures r < 0x1000
    ensures r / 0x100 == x && r / 0x10 % 0x10 == y && r % 0x10 == k
  {
    var r := x * 0x100 + y * 0x10 + k;
    assert r == (x * 0x10 + y) * 0x10 + k;
    assert r / 0x10 == x * 0x10 + y;
    assert r / 0x100 == (x * 0x10 + y) / 0x10;
    r
  }

  /** An address is rebuilt from its own three nibbles. */
  lemma AddressNibbles(a: u16)
    requires a < 0x1000
    ensures Address(a / 0x100, a / 0x10 % 0x10, a % 0x10) == a
  {
    JoinSplit(a);
  }

  /** The byte made of two nibbles, `(y << 4) | k`; its nibbles are the two
      it was made of. */
  function Byte(y: int, k: int): (r: u8)
    requires 0 <= y < 16 && 0 <= k < 16
    ensures r / 0x10 == y && r % 0x10 == k
  {
    y * 0x10 + k
  }

  /** A nibble used as a register index or sprite height. */
  function Reg(x: int): (r: u8)
    requires 0 <= x < 16
    ensures r < 16
  {
    x
  }

  /** Decodes one opcode word. The cases are tried in the source's order,
      so `00E0` and `00EE` are taken before the catch-all `0nnn`; the `8`,
      `E` and `F` families select on their low nibble or low byte. Decoding
      is total: every word yields an instruction or an error naming it. */
  function Decode(value: u16): Result<Instruction> {
    DecodeNibbles(Split(value), value)
  }

  /** The ordered pattern table over the nibbles `n` of `value`. */
  function DecodeNibbles(n: Nibbles, value: u16): Result<Instruction>
    requires n.Valid()
  {
    var x, y, k := n.x, n.y, n.k;
    match n.op
    case 0x0 => Ok(DecodeSystem(x, y, k))
    case 0x1 => Ok(JpAddr(Address(x, y, k)))
    case 0x2 => Ok(Call(Address(x, y, k)))
    case 0x3 => Ok(SeVxByte(Reg(x), Byte(y, k)))
    case 0x4 => Ok(SneVxByte(Reg(x), Byte(y, k)))
    case 0x5 => if k == 0x0 then Ok(SeVxVy(Reg(x), Reg(y))) else Err(value)
    case 0x6 => Ok(LdVxByte(Reg(x), Byte(y, k)))
    case 0x7 => Ok(AddVxByte(Reg(x), Byte(y, k)))
    case 0x8 => DecodeArithmetic(value, x, y, k)
    case 0x9 => if k == 0x0 then Ok(SneVxVy(Reg(x), Reg(y))) else Err(value)
    case 0xA => Ok(LdIAddr(Address(x, y, k)))
    case 0xB => Ok(JpV0Addr(Address(x, y, k)))
    case 0xC => Ok(Rnd(Reg(x), Byte(y, k)))
    case 0xD => Ok(Drw(Reg(x), Reg(y), Reg(k)))
    case 0xE => DecodeKey(value, x, y, k)
    case _ => DecodeMisc(value, x, y, k)
  }

  /** The `0` family: `00E0` and `00EE` first, then the legacy `0nnn` call. */
  function DecodeSystem(x: int, y: int, k: int): Instruction
    requires 0 <= x < 16 && 0 <= y < 16 && 0 <= k < 16
  {
    if x == 0x0 && y == 0xE && k == 0x0 then Cls
    else if x == 0x0 && y == 0xE && k == 0xE then Ret
    else Sys(Address(x, y, k))
  }

  /** The `8xyk` family, selected by the low nibble `k`. */
  function DecodeArithmetic(value: u16, x: int, y: int, k: int): (r: Result<Instruction>)
    requires 0 <= x < 16 && 0 <= y < 16
    ensures r.Err? ==> r.word == value
  {
    match k
    case 0x0 => Ok(LdVxVy(Reg(x), Reg(y)))
    case 0x1 => Ok(Or(Reg(x), Reg(y)))
    case 0x2 => Ok(And(Reg(x), Reg(y)))
    case 0x3 => Ok(Xor(Reg(x), Reg(y)))
    case 0x4 => Ok(AddVxVy(Reg(x), Reg(y)))
    case 0x5 => Ok(Sub(Reg(x), Reg(y)))
    case 0x6 => Ok(Shr(Reg(x), Reg(y)))
    case 0x7 => Ok(Subn(Reg(x), Reg(y)))
    case 0xE => Ok(Shl(Reg(x), Reg(y)))
    case _ => Err(value)
  }

  /** The `Ex` family, selected by the low byte. */
  function DecodeKey(value: u16, x: int, y: int, k: int): (r: Result<Instruction>)
    requires 0 <= x < 16
    ensures r.Err? ==> r.word == value
  {
    if y == 0x9 && k == 0xE then Ok(Skp(Reg(x)))
    else if y == 0xA && k == 0x1 then Ok(Sknp(Reg(x)))
    else Err(value)
  }

  /** The `Fx` family, selected by the low byte. */
  function DecodeMisc(value: u16, x: int, y: int, k: int): (r: Result<Instruction>)
    requires 0 <= x < 16
    ensures r.Err? ==> r.word == value
  {
    match (y, k)
    case (0x0, 0x7) => Ok(LdVxDt(Reg(x)))
    case (0x0, 0xA) => Ok(LdVxK(Reg(x)))
    case (0x1, 0x5) => Ok(LdDtVx(Reg(x)))
    case (0x1, 0x8) => Ok(LdStVx(Reg(x)))
    case (0x1, 0xE) => Ok(AddIVx(Reg(x)))
    case (0x2, 0x9) => Ok(LdFVx(Reg(x)))
    case (0x3, 0x3) => Ok(LdBVx(Reg(x)))
    case (0x5, 0x5) => Ok(LdIVx(Reg(x)))
    case (0x6, 0x5) => Ok(LdVxI(Reg(x)))
    case _ => Err(value)
  }

  /** The nibbles an address operand occupies. */
  function AddressFields(op: int, a: u16): (n: Nibbles)
    requires 0 <= op < 16 && a < 0x1000
    ensures n.Valid()
  {
    Nibbles(op, a / 0x100, a / 0x10 % 0x10, a % 0x10)
  }

  /** The nibbles a register and an immediate byte occupy. */
  function ByteFields(op: int, x: u8, kk: u8): (n: Nibbles)
    requires 0 <= op < 16 && x < 16
    ensures n.Valid()
  {
    Nibbles(op, x, kk / 0x10, kk % 0x10)
  }

  /** The nibbles of an instruction's opcode word: the family, its operands
      and, for the selector families, the selector. */
  function Fields(ins: Instruction): (n: Nibbles)
    requires WellFormed(ins)
    ensures n.Valid()
  {
    match ins
    case Sys(a) => AddressFields(0x0, a)
    case Cls => Nibbles(0x0, 0x0, 0xE, 0x0)
    case Ret => Nibbles(0x0, 0x0, 0xE, 0xE)
    case JpAddr(a) => AddressFields(0x1, a)
    case Call(a) => AddressFields(0x2, a)
    case SeVxByte(x, kk) => ByteFields(0x3, x, kk)
    case SneVxByte(x, kk) => ByteFields(0x4, x, kk)
    case SeVxVy(x, y) => Nibbles(0x5, x, y, 0x0)
    case LdVxByte(x, kk) => ByteFields(0x6, x, kk)
    case AddVxByte(x, kk) => ByteFields(0x7, x, kk)
    case LdVxVy(x, y) => Nibbles(0x8, x, y, 0x0)
    case Or(x, y) => Nibbles(0x8, x, y, 0x1)
    case And(x, y) => Nibbles(0x8, x, y, 0x2)
    case Xor(x, y) => Nibbles(0x8, x, y, 0x3)
    case AddVxVy(x, y) => Nibbles(0x8, x, y, 0x4)
    case Sub(x, y) => Nibbles(0x8, x, y, 0x5)
    case Shr(x, y) => Nibbles(0x8, x, y, 0x6)
    case Subn(x, y) => Nibbles(0x8, x, y, 0x7)
    case Shl(x, y) => Nibbles(0x8, x, y, 0xE)
    case SneVxVy(x, y) => Nibbles(0x9, x, y, 0x0)
    case LdIAddr(a) => AddressFields(0xA, a)
    case JpV0Addr(a) => AddressFields(0xB, a)
    case Rnd(x, kk) => ByteFields(0xC, x, kk)
    case Drw(x, y, n) => Nibbles(0xD, x, y, n)
    case Skp(x) => Nibbles(0xE, x, 0x9, 0xE)
    case Sknp(x) => Nibbles(0xE, x, 0xA, 0x1)
    case LdVxDt(x) => Nibbles(0xF, x, 0x0, 0x7)
    case LdVxK(x) => Nibbles(0xF, x, 0x0, 0xA)
    case LdDtVx(x) => Nibbles(0xF, x, 0x1, 0x5)
    case LdStVx(x) => Nibbles(0xF, x, 0x1, 0x8)
    case AddIVx(x) => Nibbles(0xF, x, 0x1, 0xE)
    case LdFVx(x) => Nibbles(0xF, x, 0x2, 0x9)
    case LdBVx(x) => Nibbles(0xF, x, 0x3, 0x3)
    case LdIVx(x) => Nibbles(0xF, x, 0x5, 0x5)
    case LdVxI(x) => Nibbles(0xF, x, 0x6, 0x5)
  }

  /** The assembler's view: the opcode word of an instruction. */
  function Encode(ins: Instruction): u16
    requires WellFormed(ins)
  {
    Join(Fields(ins))
  }

  // ---------------------------------------------------------------------
  // Properties of the decoder

  /** Every operand of a decoded instruction fits its field, and the
      instruction's fields are exactly the nibbles of the word. */
  lemma {:induction false} DecodeFields(value: u16)
    ensures Decode(value).Ok? ==> WellFormed(Decode(value).value) && Fields(Decode(value).value) == Split(value)
  {
    NibblesFields(Split(value), value);
  }

  lemma {:induction false} NibblesFields(n: Nibbles, value: u16)
    requires n.Valid()
    ensures DecodeNibbles(n, value).Ok? ==> WellFormed(DecodeNibbles(n, value).value) && Fields(DecodeNibbles(n, value).value) == n
  {
    if n.op < 0x8 {
      LowFamiliesFields(n, value);
    } else {
      HighFamiliesFields(n, value);
    }
  }

  /** `DecodeFields` for the families 0 to 7. */
  lemma LowFamiliesFields(n: Nibbles, value: u16)
    requires n.Valid() && n.op < 0x8
    ensures DecodeNibbles(n, value).Ok? ==> WellFormed(DecodeNibbles(n, value).value) && Fields(DecodeNibbles(n, value).value) == n
  {
    if n.op == 0x0 {} else if n.op == 0x1 {} else if n.op == 0x2 {} else if n.op == 0x3 {}
    else if n.op == 0x4 {} else if n.op == 0x5 {} else if n.op == 0x6 {} else {}
  }

  /** `DecodeFields` for the families 8 to F. */
  lemma HighFamiliesFields(n: Nibbles, value: u16)
    requires n.Valid() && n.op >= 0x8
    ensures DecodeNibbles(n, value).Ok? ==> WellFormed(DecodeNibbles(n, value).value) && Fields(DecodeNibbles(n, value).value) == n
  {
    if n.op == 0xF {
      MiscNibblesFields(n, value);
    } else if n.op == 0x8 {} else if n.op == 0x9 {} else if n.op == 0xA {} else if n.op == 0xB {}
    else if n.op == 0xC {} else if n.op == 0xD {} else {}
  }

  /** `DecodeFields` for the `Fx` family. */
  lemma MiscNibblesFields(n: Nibbles, value: u16)
    requires n.Valid() && n.op == 0xF
    ensures DecodeNibbles(n, value).Ok? ==> WellFormed(DecodeNibbles(n, value).value) && Fields(DecodeNibbles(n, value).value) == n
  {
  }

  /** Re-packing the fields of a decoded instruction gives back the word. */
  lemma EncodeInvertsDecode(value: u16)
    ensures Decode(value).Ok? ==> WellFormed(Decode(value).value) && Encode(Decode(value).value) == value
  {
    DecodeFields(value);
    JoinSplit(value);
  }

  /** Distinct accepted words decode to distinct instructions. */
  lemma DecodeInjective(v1: u16, v2: u16)
    requires Decode(v1).Ok? && Decode(v1) == Decode(v2)
    ensures v1 == v2
  {
    EncodeInvertsDecode(v1);
    EncodeInvertsDecode(v2);
  }

  /** Decoding an encoded instruction gives it back, except for the two
      legacy calls `Sys(0x0E0)` and `Sys(0x0EE)`, whose words the earlier
      patterns take as `Cls` and `Ret`. */
  lemma DecodeEncode(ins: Instruction)
    requires WellFormed(ins)
    ensures Decode(Encode(ins)) == (if ins == Sys(0x0E0) then Ok(Cls) else if ins == Sys(0x0EE) then Ok(Ret) else Ok(ins))
  {
    var value := Encode(ins);
    SplitJoin(Fields(ins));
    assert Decode(value) == DecodeNibbles(Fields(ins), value);
    if ins.Sys? || ins.Cls? || ins.Ret? {
      DecodeSystemFields(ins, value);
    } else if ins.JpAddr? || ins.Call? || ins.LdIAddr? || ins.JpV0Addr? {
      DecodeAddressFields(ins, value);
    } else if ins.SeVxByte? || ins.SneVxByte? || ins.LdVxByte? || ins.AddVxByte? || ins.Rnd? {
      DecodeByteFields(ins, value);
    } else if ins.SeVxVy? || ins.SneVxVy? || ins.Drw? {
      DecodePairFields(ins, value);
    } else if ins.Skp? || ins.Sknp? {
      DecodeKeyFields(ins, value);
    } else if ins.LdVxVy? || ins.Or? || ins.And? || ins.Xor? || ins.AddVxVy? || ins.Sub? || ins.Shr? || ins.Subn? || ins.Shl? {
      DecodeArithmeticFields(ins, value);
    } else {
      DecodeMiscFields(ins, value);
    }
  }

  lemma DecodeSystemFields(ins: Instruction, value: u16)
    requires WellFormed(ins) && (ins.Sys? || ins.Cls? || ins.Ret?)
    ensures DecodeNibbles(Fields(ins), value) == (if ins == Sys(0x0E0) then Ok(Cls) else if ins == Sys(0x0EE) then Ok(Ret) else Ok(ins))
  {
    if ins.Sys? {
      AddressNibbles(ins.addr);
    }
  }

  lemma DecodeAddressFields(ins: Instruction, value: u16)
    requires WellFormed(ins) && (ins.JpAddr? || ins.Call? || ins.LdIAddr? || ins.JpV0Addr?)
    ensures DecodeNibbles(Fields(ins), value) == Ok(ins)
  {
    AddressNibbles(ins.addr);
  }

  lemma DecodeByteFields(ins: Instruction, value: u16)
    requires WellFormed(ins) && (ins.SeVxByte? || ins.SneVxByte? || ins.LdVxByte? || ins.AddVxByte? || ins.Rnd?)
    ensures DecodeNibbles(Fields(ins), value) == Ok(ins)
  {
  }

  lemma DecodePairFields(ins: Instruction, value: u16)
    requires WellFormed(ins) && (ins.SeVxVy? || ins.SneVxVy? || ins.Drw?)
    ensures DecodeNibbles(Fields(ins), value) == Ok(ins)
  {
  }

  lemma DecodeArithmeticFields(ins: Instruction, value: u16)
    requires WellFormed(ins)
    requires ins.LdVxVy? || ins.Or? || ins.And? || ins.Xor? || ins.AddVxVy? || ins.Sub? || ins.Shr? || ins.Subn? || ins.Shl?
    ensures DecodeNibbles(Fields(ins), value) == Ok(ins)
  {
  }

  lemma DecodeKeyFields(ins: Instruction, value: u16)
    requires WellFormed(ins) && (ins.Skp? || ins.Sknp?)
    ensures DecodeNibbles(Fields(ins), value) == Ok(ins)
  {
  }

  lemma DecodeMiscFields(ins: Instruction, value: u16)
    requires WellFormed(ins)
    requires ins.LdVxDt? || ins.LdVxK? || ins.LdDtVx? || ins.LdStVx? || ins.AddIVx? || ins.LdFVx? || ins.LdBVx? || ins.LdIVx? || ins.LdVxI?
    ensures DecodeNibbles(Fields(ins), value) == Ok(ins)
  {
  }

  /** The `0` family in full: the two fixed words, then `Sys` carrying the
      word itself as its address. */
  lemma SystemFamily(value: u16)
    requires value < 0x1000
    ensures Decode(value) == (if value == 0x00E0 then Ok(Cls) else if value == 0x00EE then Ok(Ret) else Ok(Sys(value)))
  {
    JoinSplit(value);
  }

  /** The operands of a decoded instruction are the masked bits of the
      word: `value & 0xFFF`, `value & 0xFF`, `(value >> 8) & 0xF`,
      `(value >> 4) & 0xF` and `value & 0xF`. */
  lemma DecodeOperands(value: u16)
    requires Decode(value).Ok?
    ensures var ins := Decode(value).value;
      && ((ins.Sys? || ins.JpAddr? || ins.Call? || ins.LdIAddr? || ins.JpV0Addr?) ==> ins.addr == value % 0x1000)
      && ((ins.SeVxByte? || ins.SneVxByte? || ins.LdVxByte? || ins.AddVxByte? || ins.Rnd?) ==> ins.kk == value % 0x100)
      && (!(ins.Sys? || ins.Cls? || ins.Ret? || ins.JpAddr? || ins.Call? || ins.LdIAddr? || ins.JpV0Addr?) ==> ins.x == value / 0x100 % 0x10)
      && ((ins.SeVxVy? || ins.SneVxVy? || ins.LdVxVy? || ins.Or? || ins.And? || ins.Xor? || ins.AddVxVy? || ins.Sub?
           || ins.Shr? || ins.Subn? || ins.Shl? || ins.Drw?) ==> ins.y == value / 0x10 % 0x10)
      && (ins.Drw? ==> ins.n == value % 0x10)
  {
    DecodeFields(value);
    LowNibbles(value);
  }

  /** The low twelve and the low eight bits of a word, by nibbles. */
  lemma LowNibbles(value: u16)
    ensures var n := Split(value);
      && value % 0x1000 == n.x * 0x100 + n.y * 0x10 + n.k
      && value % 0x100 == n.y * 0x10 + n.k
  {
    var n := Split(value);
    JoinSplit(value);
    assert value == n.op * 0x1000 + (n.x * 0x100 + n.y * 0x10 + n.k);
    assert value == (n.op * 0x10 + n.x) * 0x100 + (n.y * 0x10 + n.k);
  }

  /** The words no pattern accepts, as the instruction table lays them out:
      `5xyk` and `9xyk` with `k` non-zero, the unused `8xyk` selectors, and
      every `Ex` and `Fx` low byte that names no instruction. */
  predicate Unassigned(value: u16) {
    var op, low := value / 0x1000, value % 0x100;
    || ((op == 0x5 || op == 0x9) && value % 0x10 != 0x0)
    || (op == 0x8 && value % 0x10 in {0x8, 0x9, 0xA, 0xB, 0xC, 0xD, 0xF})
    || (op == 0xE && low !in {0x9E, 0xA1})
    || (op == 0xF && low !in {0x07, 0x0A, 0x15, 0x18, 0x1E, 0x29, 0x33, 0x55, 0x65})
  }

  /** Decoding fails exactly on the unassigned words, and the error carries
      the word. */
  lemma DecodeFailsExactly(value: u16)
    ensures Decode(value).Err? <==> Unassigned(value)
    ensures Decode(value).Err? ==> Decode(value).word == value
  {
    LowNibbles(value);
  }
}
