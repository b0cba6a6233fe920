/** The interpreter's state and the meaning of one instruction and one
    cycle (src/interpreter.rs), as functions on a value of the state. The
    class in the Engine module updates its fields in place and is proved to
    follow these functions.

    Inputs the source obtains from outside the state are parameters: the
    random byte of `Rnd`, the keys held down, the key `LdVxK` waits for, and
    whether a timer period has elapsed at the end of a cycle. Operations
    that panic in the source (slices past the end of memory, stack overflow
    and underflow, 16-bit overflow of PC and I) have their safety as a
    precondition. */
module Machine {
  import opened Primitive
  import opened Instructions
  import opened Memory
  import Window
  import Sprite
  import Bcd

  /** Where programs are loaded and where execution starts. */
  const PROGRAM_START := 0x200

  /** The flag register VF. */
  const VF := 15

  /** Number of general purpose registers and of stack slots. */
  const REGISTER_COUNT := 16
  const STACK_SIZE := 16

  /** The whole machine: memory, PC, V0 to VF, I, the sound and delay
      timers, the stack pointer, the stack and the frame buffer (one 64-bit
      word per row, column 0 in the most significant bit). */
  datatype State = State(
    memory: seq<u8>,
    pc: u16,
    registers: seq<u8>,
    i: u16,
    sound: u8,
    delay: u8,
    sp: u8,
    stack: seq<u16>,
    frame: seq<u64>)
  {
    /** The fixed sizes of the source's arrays and vector. The stack
        pointer stays a valid index because pushing past slot 15 panics. */
    predicate Valid() {
      && |memory| == RAM_SIZE
      && |registers| == REGISTER_COUNT
      && |stack| == STACK_SIZE
      && |frame| == Window.HEIGHT
      && sp < STACK_SIZE
    }
  }

  /** What a cycle receives from outside the state. */
  datatype Input = Input(random: u8, keys: set<u8>, key: u8, tick: bool)

  // ---------------------------------------------------------------------
  // Start-up

  /** Zeroed memory with the first `d` font glyphs written, glyph `g` at
      address `5 * g`. */
  function FontLoaded(d: nat): (m: seq<u8>)
    requires d <= |Window.DIGITS|
    ensures |m| == RAM_SIZE
  {
    Window.GlyphSizes();
    seq(RAM_SIZE, a requires 0 <= a < RAM_SIZE => if a < 5 * d then Window.DIGITS[a / 5][a % 5] else 0)
  }

  /** Writing glyph `d` at `5 * d` loads one more glyph. */
  lemma FontLoadedStep(d: nat)
    requires d < |Window.DIGITS|
    ensures |Window.DIGITS[d]| == 5
    ensures WriteBytes(FontLoaded(d), d * 5, Window.DIGITS[d]) == FontLoaded(d + 1)
  {
    Window.GlyphSizes();
    var lhs := WriteBytes(FontLoaded(d), d * 5, Window.DIGITS[d]);
    forall a | 0 <= a < RAM_SIZE ensures lhs[a] == FontLoaded(d + 1)[a] {
      if d * 5 <= a < d * 5 + 5 {
        assert a / 5 == d && a % 5 == a - d * 5;
      }
    }
  }

  /** `new`: zeroed state, PC at the program start, the font at address 0
      and the ROM at the program start. A ROM longer than the space above
      the program start makes the splice panic. */
  function Boot(rom: seq<u8>): (s: State)
    requires |rom| <= RAM_SIZE - PROGRAM_START
    ensures s.Valid()
  {
    State(
      memory := WriteBytes(FontLoaded(|Window.DIGITS|), PROGRAM_START, rom),
      pc := PROGRAM_START,
      registers := Zeros(REGISTER_COUNT),
      i := 0,
      sound := 0,
      delay := 0,
      sp := 0,
      stack := seq(STACK_SIZE, _ => 0),
      frame := Window.Cleared())
  }

  // ---------------------------------------------------------------------
  // The stack

  /** `push_subroutine`: pre-increment SP, save PC in the new slot, jump. */
  function Push(s: State, address: u16): (t: State)
    requires s.Valid() && s.sp + 1 < STACK_SIZE
    ensures t.Valid()
  {
    s.(sp := s.sp + 1, stack := s.stack[s.sp + 1 := s.pc], pc := address)
  }

  /** `pop_subroutine`: PC from the slot SP points at, then decrement SP. */
  function Pop(s: State): (t: State)
    requires s.Valid() && s.sp > 0
    ensures t.Valid()
  {
    s.(pc := s.stack[s.sp], sp := s.sp - 1)
  }

  // ---------------------------------------------------------------------
  // One instruction

  /** The groups `execute_instruction` is split into here: control flow,
      conditional skips, immediate-byte operations, the `8xyk` register
      operations, drawing, and the `Fx` family. */
  datatype Family = FlowOp | SkipOp | ImmediateOp | ArithmeticOp | DrawOp | MiscOp

  function FamilyOf(ins: Instruction): Family {
    match ins
    case Sys(_) | Cls | Ret | JpAddr(_) | Call(_) | LdIAddr(_) | JpV0Addr(_) => FlowOp
    case SeVxByte(_, _) | SneVxByte(_, _) | SeVxVy(_, _) | SneVxVy(_, _) | Skp(_) | Sknp(_) => SkipOp
    case LdVxByte(_, _) | AddVxByte(_, _) | Rnd(_, _) => ImmediateOp
    case LdVxVy(_, _) | Or(_, _) | And(_, _) | Xor(_, _) | AddVxVy(_, _) | Sub(_, _)
      | Shr(_, _) | Subn(_, _) | Shl(_, _) => ArithmeticOp
    case Drw(_, _, _) => DrawOp
    case LdVxDt(_) | LdVxK(_) | LdDtVx(_) | LdStVx(_) | AddIVx(_) | LdFVx(_) | LdBVx(_) | LdIVx(_) | LdVxI(_) => MiscOp
  }

  /** The condition of a skip instruction. */
  predicate IsSkip(ins: Instruction) {
    FamilyOf(ins) == SkipOp
  }

  predicate SkipTaken(s: State, ins: Instruction, input: Input)
    requires s.Valid() && WellFormed(ins) && IsSkip(ins)
  {
    var V := s.registers;
    match ins
    case SeVxByte(x, kk) => V[x] == kk
    case SneVxByte(x, kk) => V[x] != kk
    case SeVxVy(x, y) => V[x] == V[y]
    case SneVxVy(x, y) => V[x] != V[y]
    case Skp(x) => V[x] in input.keys
    case Sknp(x) => V[x] !in input.keys
  }

  /** The instruction does not panic in `s`: a skip that is taken keeps PC
      16-bit, and the instruction is within bounds. */
  predicate Safe(s: State, ins: Instruction, input: Input)
    requires s.Valid() && WellFormed(ins)
  {
    if IsSkip(ins) then SkipTaken(s, ins, input) ==> s.pc + 2 < 0x1_0000
    else WithinBounds(s, ins)
  }

  /** The stack has room for a call and an entry to return to, `AddIVx`
      keeps I 16-bit, and every byte read or written lies inside memory.
      A `JpV0Addr` target is at most 0xFFF + 0xFF and needs no bound. */
  predicate WithinBounds(s: State, ins: Instruction)
    requires s.Valid() && WellFormed(ins)
  {
    var V := s.registers;
    match ins
    case Sys(_) => s.sp + 1 < STACK_SIZE
    case Call(_) => s.sp + 1 < STACK_SIZE
    case Ret => s.sp > 0
    case AddIVx(x) => s.i + V[x] < 0x1_0000
    case Drw(_, _, n) => s.i + n <= RAM_SIZE
    case LdBVx(x) => s.i + |Bcd.Digits(V[x])| <= RAM_SIZE
    case LdIVx(x) => s.i + x + 1 <= RAM_SIZE
    case LdVxI(x) => s.i + x + 1 <= RAM_SIZE
    case _ => true
  }

  /** The state with register `x` set to `v`. */
  function SetRegister(s: State, x: int, v: u8): (t: State)
    requires s.Valid() && 0 <= x < REGISTER_COUNT
    ensures t.Valid()
  {
    s.(registers := s.registers[x := v])
  }

  /** The state with `Vx` set to `v` and then VF set to `flag`. */
  function SetWithFlag(s: State, x: int, v: u8, flag: u8): (t: State)
    requires s.Valid() && 0 <= x < REGISTER_COUNT
    ensures t.Valid()
  {
    s.(registers := s.registers[x := v][VF := flag])
  }

  /** 1 if `b` holds, else 0: Rust's `b as u8`. */
  function Bit(b: bool): u8 {
    if b then 1 else 0
  }

  /** `execute_instruction`, entered with PC already past the instruction.
      The cases are grouped as the opcode families are. */
  function Exec(s: State, ins: Instruction, input: Input): (t: State)
    requires s.Valid() && WellFormed(ins) && Safe(s, ins, input)
    ensures t.Valid()
  {
    match FamilyOf(ins)
    case FlowOp => ExecFlow(s, ins)
    case SkipOp => if SkipTaken(s, ins, input) then s.(pc := s.pc + 2) else s
    case ImmediateOp => ExecImmediate(s, ins, input.random)
    case ArithmeticOp => ExecArithmetic(s, ins)
    case DrawOp => ExecDraw(s, ins)
    case MiscOp => ExecMisc(s, ins, input.key)
  }

  /** `Drw`: the `n` bytes at I drawn at `(Vx, Vy)`, VF as the last row
      drawn left it. */
  function ExecDraw(s: State, ins: Instruction): (t: State)
    requires s.Valid() && WellFormed(ins) && FamilyOf(ins) == DrawOp && WithinBounds(s, ins)
    ensures t.Valid()
  {
    var V := s.registers;
    var screen := Sprite.Draw(s.frame, V[VF], ReadBytes(s.memory, s.i, ins.n), V[ins.x], V[ins.y]);
    s.(frame := screen.rows, registers := V[VF := screen.vf])
  }

  /** Clearing the screen, calls, returns and jumps. */
  function ExecFlow(s: State, ins: Instruction): (t: State)
    requires s.Valid() && WellFormed(ins) && WithinBounds(s, ins)
    requires FamilyOf(ins) == FlowOp
    ensures t.Valid()
  {
    match ins
    case Sys(a) => Push(s, a)
    case Cls => s.(frame := Window.Cleared())
    case Ret => Pop(s)
    case JpAddr(a) => s.(pc := a)
    case Call(a) => Push(s, a)
    case LdIAddr(a) => s.(i := a)
    case JpV0Addr(a) => s.(pc := a + s.registers[0])
  }

  /** The instructions with an immediate byte operand that set `Vx`. */
  function ExecImmediate(s: State, ins: Instruction, random: u8): (t: State)
    requires s.Valid() && WellFormed(ins)
    requires FamilyOf(ins) == ImmediateOp
    ensures t.Valid()
  {
    var V := s.registers;
    match ins
    case LdVxByte(x, kk) => SetRegister(s, x, kk)
    case AddVxByte(x, kk) => SetRegister(s, x, (V[x] as int + kk as int) % 0x100)
    case Rnd(x, kk) => SetRegister(s, x, BitAnd(random, kk))
  }

  /** The `8xyk` register-to-register operations. */
  function ExecArithmetic(s: State, ins: Instruction): (t: State)
    requires s.Valid() && WellFormed(ins)
    requires FamilyOf(ins) == ArithmeticOp
    ensures t.Valid()
  {
    var V := s.registers;
    match ins
    case LdVxVy(x, y) => SetRegister(s, x, V[y])
    case Or(x, y) => SetRegister(s, x, BitOr(V[x], V[y]))
    case And(x, y) => SetRegister(s, x, BitAnd(V[x], V[y]))
    case Xor(x, y) => SetRegister(s, x, BitXor(V[x], V[y]))
    case AddVxVy(x, y) => SetWithFlag(s, x, (V[x] as int + V[y] as int) % 0x100, Bit(V[x] as int + V[y] as int > 0xFF))
    case Sub(x, y) => SetWithFlag(s, x, (V[x] as int - V[y] as int) % 0x100, Bit(V[x] >= V[y]))
    case Shr(x, y) => SetWithFlag(s, x, V[y] / 2, V[y] % 2)
    case Subn(x, y) => SetWithFlag(s, x, (V[y] as int - V[x] as int) % 0x100, Bit(V[y] >= V[x]))
    case Shl(x, y) => SetWithFlag(s, x, V[y] as int * 2 % 0x100, V[y] / 0x80)
  }

  /** The `Fx` family: timers, I, the waited-for key, and the memory
      transfers. */
  function ExecMisc(s: State, ins: Instruction, key: u8): (t: State)
    requires s.Valid() && WellFormed(ins) && WithinBounds(s, ins)
    requires FamilyOf(ins) == MiscOp
    ensures t.Valid()
  {
    var V := s.registers;
    match ins
    case LdVxDt(x) => SetRegister(s, x, s.delay)
    case LdVxK(x) => SetRegister(s, x, key)
    case LdDtVx(x) => s.(delay := V[x])
    case LdStVx(x) => s.(sound := V[x])
    case AddIVx(x) => s.(i := s.i + V[x])
    case LdFVx(x) => s.(i := V[x] as int * 5 % 0x100)
    case LdBVx(x) => s.(memory := WriteBytes(s.memory, s.i, Bcd.Digits(V[x])))
    case LdIVx(x) => s.(memory := WriteBytes(s.memory, s.i, V[..x + 1]))
    case LdVxI(x) => s.(registers := ReadBytes(s.memory, s.i, x + 1) + V[x + 1..])
  }

  // ---------------------------------------------------------------------
  // One cycle

  /** A 60 Hz timer period: both timers count down, stopping at zero. */
  function Tick(s: State): (t: State) {
    s.(delay := if s.delay == 0 then 0 else s.delay - 1,
       sound := if s.sound == 0 then 0 else s.sound - 1)
  }

  /** How a cycle ends: the fetched word was zero (the program is taken to
      be over), the word is no instruction (execution fails with it), or
      the machine goes on in a new state. */
  datatype Step = Halt | Fault(word: u16) | Next(state: State)

  /** Reading the two bytes at PC does not run past memory. */
  predicate CanFetch(s: State) {
    s.Valid() && s.pc + 1 < RAM_SIZE
  }

  /** The word at PC, most significant byte first. */
  function Fetch(s: State): u16
    requires CanFetch(s)
  {
    ReadU16(s.memory, s.pc)
  }

  /** The cycle does not panic: the fetch stays in memory and the decoded
      instruction is safe once PC has moved past it. */
  predicate CycleSafe(s: State, input: Input) {
    && CanFetch(s)
    && var w := Fetch(s);
       EncodeInvertsDecode(w);
       (w != 0 && Decode(w).Ok? ==> Safe(s.(pc := s.pc + 2), Decode(w).value, input))
  }

  /** One pass of the fetch / decode / PC+2 / execute / timer loop. */
  function Cycle(s: State, input: Input): Step
    requires CycleSafe(s, input)
  {
    var w := Fetch(s);
    if w == 0 then Halt
    else match Decode(w)
      case Err(e) => Fault(e)
      case Ok(ins) =>
        EncodeInvertsDecode(w);
        var t := Exec(s.(pc := s.pc + 2), ins, input);
        Next(if input.tick then Tick(t) else t)
  }

  // ---------------------------------------------------------------------
  // The execution loop

  /** How a run of the loop ends: the zero word stopped it (`Ok(())`), an
      undecodable word failed it (`Err`), or the inputs ran out with the
      machine still running. */
  datatype Status = Stopped | Failed(word: u16) | Paused

  datatype Outcome = Outcome(status: Status, state: State)

  /** Every cycle of the run, up to the one that ends it, is safe. */
  predicate RunSafe(s: State, inputs: seq<Input>)
    decreases |inputs|
  {
    inputs == [] ||
    (CycleSafe(s, inputs[0]) &&
     (Cycle(s, inputs[0]).Next? ==> RunSafe(Cycle(s, inputs[0]).state, inputs[1..])))
  }

  /** `execute`: cycles, one per input, until a cycle halts or fails; the
      state is left as the last completed cycle made it. */
  function Run(s: State, inputs: seq<Input>): Outcome
    requires RunSafe(s, inputs)
    decreases |inputs|
  {
    if inputs == [] then Outcome(Paused, s)
    else match Cycle(s, inputs[0])
      case Halt => Outcome(Stopped, s)
      case Fault(w) => Outcome(Failed(w), s)
      case Next(t) => Run(t, inputs[1..])
  }
}
