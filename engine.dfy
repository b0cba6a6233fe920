/** The `Interpreter` struct (src/interpreter.rs:22-329) as a class whose
    methods update its fields in place. Each method is proved to leave the
    machine in the state the functions of the Machine module prescribe. */
module Engine {
  import opened Primitive
  import opened Instructions
  import Memory
  import Window
  import Sprite
  import Bcd
  import M = Machine

  /** One turn of the `LdBVx` loop moves the lowest remaining digit to
      the written run. */
  lemma DigitsStep(written: seq<u8>, val: u8)
    requires val > 0
    ensures written + Bcd.Digits(val) == (written + [val % 10]) + Bcd.Digits(val / 10)
  {
  }

  /** The result of one pass of the loop body of `execute`. */
  datatype CycleResult = Halted | Faulted(word: u16) | Continue

  class Interpreter {
    var memory: seq<u8>
    var pc: u16
    const registers: array<u8>
    var i: u16
    var sound: u8
    var delay: u8
    var sp: u8
    const stack: array<u16>
    const frameBuffer: array<u64>

    /** The machine state the fields hold. */
    ghost function State(): M.State
      reads this, registers, stack, frameBuffer
    {
      M.State(memory, pc, registers[..], i, sound, delay, sp, stack[..], frameBuffer[..])
    }

    ghost predicate Valid()
      reads this, registers, stack, frameBuffer
    {
      && State().Valid()
      && registers as object != stack as object
      && registers as object != frameBuffer as object
      && stack as object != frameBuffer as object
    }

    /** `new`: zeroed machine, font glyph `d` written at `5 * d`, then the
        ROM written at the program start. */
    constructor (rom: seq<u8>)
      requires |rom| <= Memory.RAM_SIZE - M.PROGRAM_START
      ensures Valid() && State() == M.Boot(rom)
      ensures fresh(registers) && fresh(stack) && fresh(frameBuffer)
    {
      memory := Memory.Zeros(Memory.RAM_SIZE);
      registers := new u8[M.REGISTER_COUNT](_ => 0);
      i := 0;
      sound := 0;
      delay := 0;
      sp := 0;
      pc := M.PROGRAM_START;
      stack := new u16[M.STACK_SIZE](_ => 0);
      frameBuffer := new u64[Window.HEIGHT](_ => 0);
      new;
      assert memory == M.FontLoaded(0);
      assert registers[..] == Memory.Zeros(M.REGISTER_COUNT);
      assert frameBuffer[..] == Window.Cleared();
      Window.GlyphSizes();
      var d := 0;
      while d < |Window.DIGITS|
        modifies this`memory
        invariant 0 <= d <= |Window.DIGITS|
        invariant memory == M.FontLoaded(d)
      {
        M.FontLoadedStep(d);
        WriteBytes(d * 5, Window.DIGITS[d]);
        d := d + 1;
      }
      WriteBytes(M.PROGRAM_START, rom);
    }

    /** `write_bytes`: splices `bytes` into memory at `address`. */
    method WriteBytes(address: int, bytes: seq<u8>)
      requires 0 <= address && address + |bytes| <= |memory|
      modifies this`memory
      ensures memory == Memory.WriteBytes(old(memory), address, bytes)
    {
      memory := memory[..address] + bytes + memory[address + |bytes|..];
    }

    /** `read_u16`: the big-endian word at `address`. */
    method ReadU16(address: int) returns (w: u16)
      requires 0 <= address && address + 1 < |memory|
      ensures w == Memory.ReadU16(memory, address)
    {
      w := memory[address] as int * 0x100 + memory[address + 1] as int;
    }

    /** `read_bytes`: the `len` bytes at `address`. */
    method ReadBytes(address: int, len: int) returns (bytes: seq<u8>)
      requires 0 <= address && 0 <= len && address + len <= |memory|
      ensures bytes == Memory.ReadBytes(memory, address, len)
    {
      bytes := memory[address..address + len];
    }

    /** `push_subroutine`. */
    method PushSubroutine(address: u16)
      requires Valid() && sp + 1 < M.STACK_SIZE
      modifies this`sp, this`pc, stack
      ensures Valid() && State() == M.Push(old(State()), address)
    {
      sp := sp + 1;
      stack[sp] := pc;
      pc := address;
      assert stack[..] == old(stack[..])[sp := old(pc)];
    }

    /** `pop_subroutine`. */
    method PopSubroutine()
      requires Valid() && sp > 0
      modifies this`sp, this`pc
      ensures Valid() && State() == M.Pop(old(State()))
    {
      pc := stack[sp];
      sp := sp - 1;
    }

    /** `Window::clear`: every row of the frame buffer set to zero. */
    method ClearScreen()
      requires Valid()
      modifies frameBuffer
      ensures Valid() && State() == old(State()).(frame := Window.Cleared())
    {
      forall r | 0 <= r < frameBuffer.Length {
        frameBuffer[r] := 0;
      }
      assert frameBuffer[..] == Window.Cleared();
    }

    /** Clearing the screen, calls, returns and jumps. */
    method ExecuteFlow(ins: Instruction)
      requires Valid() && WellFormed(ins) && M.WithinBounds(State(), ins)
      requires M.FamilyOf(ins) == M.FlowOp
      modifies this, stack, frameBuffer
      ensures Valid() && State() == M.ExecFlow(old(State()), ins)
    {
      match ins
      case Sys(a) => PushSubroutine(a);
      case Cls => ClearScreen();
      case Ret => PopSubroutine();
      case JpAddr(a) => pc := a;
      case Call(a) => PushSubroutine(a);
      case LdIAddr(a) => i := a;
      case JpV0Addr(a) => pc := a + registers[0];
    }

    /** The instructions with an immediate byte operand that set `Vx`. */
    method ExecuteImmediate(ins: Instruction, random: u8)
      requires Valid() && WellFormed(ins)
      requires M.FamilyOf(ins) == M.ImmediateOp
      modifies registers
      ensures Valid() && State() == M.ExecImmediate(old(State()), ins, random)
    {
      match ins
      case LdVxByte(x, kk) => registers[x] := kk;
      case AddVxByte(x, kk) => registers[x] := (registers[x] as int + kk as int) % 0x100;
      case Rnd(x, kk) => registers[x] := BitAnd(random, kk);
    }

    /** The `8xyk` register-to-register operations. */
    method ExecuteArithmetic(ins: Instruction)
      requires Valid() && WellFormed(ins)
      requires M.FamilyOf(ins) == M.ArithmeticOp
      modifies registers
      ensures Valid() && State() == M.ExecArithmetic(old(State()), ins)
    {
      if ins.LdVxVy? || ins.Or? || ins.And? || ins.Xor? {
        ExecuteBitwise(ins);
      } else {
        ExecuteFlagged(ins);
      }
    }

    /** The `8xyk` operations that set only Vx: copy, OR, AND and XOR. */
    method ExecuteBitwise(ins: Instruction)
      requires Valid() && WellFormed(ins)
      requires ins.LdVxVy? || ins.Or? || ins.And? || ins.Xor?
      modifies registers
      ensures Valid() && State() == M.ExecArithmetic(old(State()), ins)
    {
      match ins {
        case LdVxVy(x, y) => registers[x] := registers[y];
        case Or(x, y) => registers[x] := BitOr(registers[x], registers[y]);
        case And(x, y) => registers[x] := BitAnd(registers[x], registers[y]);
        case Xor(x, y) => registers[x] := BitXor(registers[x], registers[y]);
      }
    }

    /** The `8xyk` operations that also set VF, which is written last. */
    method ExecuteFlagged(ins: Instruction)
      requires Valid() && WellFormed(ins)
      requires ins.AddVxVy? || ins.Sub? || ins.Shr? || ins.Subn? || ins.Shl?
      modifies registers
      ensures Valid() && State() == M.ExecArithmetic(old(State()), ins)
    {
      var vx, vy := registers[ins.x], registers[ins.y];
      match ins {
        case AddVxVy(x, y) => WriteWithFlag(x, (vx as int + vy as int) % 0x100, M.Bit(vx as int + vy as int > 0xFF));
        case Sub(x, y) => WriteWithFlag(x, (vx as int - vy as int) % 0x100, M.Bit(vx >= vy));
        case Shr(x, y) => WriteWithFlag(x, vy / 2, vy % 2);
        case Subn(x, y) => WriteWithFlag(x, (vy as int - vx as int) % 0x100, M.Bit(vy >= vx));
        case Shl(x, y) => WriteWithFlag(x, vy as int * 2 % 0x100, vy / 0x80);
      }
    }

    /** Vx set to `v`, then VF set to `flag`. */
    method WriteWithFlag(x: u8, v: u8, flag: u8)
      requires Valid() && x < M.REGISTER_COUNT
      modifies registers
      ensures Valid() && State() == M.SetWithFlag(old(State()), x, v, flag)
    {
      registers[x] := v;
      registers[M.VF] := flag;
    }

    /** `LdBVx`: divide by ten until nothing is left, writing each
        remainder at the next address from I. */
    method StoreDigits(x: u8)
      requires x < registers.Length
      requires i + |Bcd.Digits(registers[x])| <= |memory|
      modifies this`memory
      ensures memory == Memory.WriteBytes(old(memory), i, Bcd.Digits(registers[x]))
    {
      var val: u8 := registers[x];
      ghost var written: seq<u8> := [];
      var k := 0;
      while val > 0
        invariant k == |written|
        invariant Bcd.Digits(registers[x]) == written + Bcd.Digits(val)
        invariant memory == Memory.WriteBytes(old(memory), i, written)
        decreases val
      {
        var n := val % 10;
        DigitsStep(written, val);
        val := val / 10;
        Memory.WriteExtend(old(memory), i, written, n);
        WriteBytes(i + k, [n]);
        written := written + [n];
        k := k + 1;
      }
    }

    /** `LdIVx`: V0 to Vx written one by one from address I on. */
    method StoreRegisters(x: u8)
      requires Valid() && x < M.REGISTER_COUNT && i + x + 1 <= |memory|
      modifies this`memory
      ensures memory == Memory.WriteBytes(old(memory), i, registers[..x + 1])
    {
      var k := 0;
      while k <= x
        invariant 0 <= k <= x + 1
        invariant memory == Memory.WriteBytes(old(memory), i, registers[..k])
      {
        Memory.WriteExtend(old(memory), i, registers[..k], registers[k]);
        assert registers[..k] + [registers[k]] == registers[..k + 1];
        WriteBytes(i + k, [registers[k]]);
        k := k + 1;
      }
    }

    /** `LdVxI`: V0 to Vx read one by one from address I on. */
    method LoadRegisters(x: u8)
      requires Valid() && x < M.REGISTER_COUNT && i + x + 1 <= |memory|
      modifies registers
      ensures Valid()
      ensures registers[..] == Memory.ReadBytes(memory, i, x + 1) + old(registers[..])[x + 1..]
    {
      var k := 0;
      while k <= x
        invariant 0 <= k <= x + 1
        invariant registers[..k] == memory[i..i + k]
        invariant registers[k..] == old(registers[..])[k..]
      {
        registers[k] := memory[i + k];
        k := k + 1;
      }
    }

    /** `draw_sprite`: the `n` bytes at I, row by row, XORed into the
        frame buffer at `(x, y)`, each row setting VF to whether it erased
        a pixel. */
    method DrawSprite(x: u8, y: u8, n: u8)
      requires registers.Length == M.REGISTER_COUNT && frameBuffer.Length == Window.HEIGHT
      requires registers as object != frameBuffer as object
      requires i + n <= |memory|
      modifies registers, frameBuffer
      ensures var screen := Sprite.Draw(old(frameBuffer[..]), old(registers[M.VF]), Memory.ReadBytes(memory, i, n), x, y);
        frameBuffer[..] == screen.rows && registers[..] == old(registers[..])[M.VF := screen.vf]
    {
      var drawBytes := ReadBytes(i, n);
      ghost var words := Sprite.Placed(drawBytes, x);
      ghost var screen := Sprite.Screen(frameBuffer[..], registers[M.VF]);
      var k := 0;
      while k < |drawBytes|
        invariant 0 <= k <= |drawBytes|
        invariant screen == Sprite.DrawWords(old(frameBuffer[..]), old(registers[M.VF]), words[..k], y)
        invariant frameBuffer[..] == screen.rows
        invariant registers[..] == old(registers[..])[M.VF := screen.vf]
      {
        var coord := (y + k) % Window.HEIGHT;
        var original := frameBuffer[coord];
        var word := Sprite.Place(drawBytes[k], x);
        var res := Sprite.Toggle(original, word);
        registers[M.VF] := Sprite.Erased(original, res);
        frameBuffer[coord] := res;
        assert words[..k + 1] == words[..k] + [word];
        Sprite.DrawWordsSnoc(old(frameBuffer[..]), old(registers[M.VF]), words[..k], word, y);
        screen := Sprite.Screen(screen.rows[coord := res], Sprite.Erased(original, res));
        k := k + 1;
      }
      assert words[..k] == words;
    }

    /** The `Fx` family: timers, I, the waited-for key and the memory
        transfers. */
    method ExecuteMisc(ins: Instruction, key: u8)
      requires Valid() && WellFormed(ins) && M.WithinBounds(State(), ins)
      requires M.FamilyOf(ins) == M.MiscOp
      modifies this, registers
      ensures Valid() && State() == M.ExecMisc(old(State()), ins, key)
    {
      match ins
      case LdVxDt(x) => registers[x] := delay;
      case LdVxK(x) => registers[x] := key;
      case LdDtVx(x) => delay := registers[x];
      case LdStVx(x) => sound := registers[x];
      case AddIVx(x) => i := i + registers[x];
      case LdFVx(x) => i := registers[x] as int * 5 % 0x100;
      case LdBVx(x) => StoreDigits(x);
      case LdIVx(x) => StoreRegisters(x);
      case LdVxI(x) => LoadRegisters(x);
    }

    /** `execute_instruction`, entered with PC already past the
        instruction. */
    method ExecuteInstruction(ins: Instruction, input: M.Input)
      requires Valid() && WellFormed(ins) && M.Safe(State(), ins, input)
      modifies this, registers, stack, frameBuffer
      ensures Valid() && State() == M.Exec(old(State()), ins, input)
    {
      match M.FamilyOf(ins)
      case FlowOp => ExecuteFlow(ins);
      case SkipOp => ExecuteSkip(ins, input);
      case ImmediateOp => ExecuteImmediate(ins, input.random);
      case ArithmeticOp => ExecuteArithmetic(ins);
      case DrawOp => ExecuteDraw(ins);
      case MiscOp => ExecuteMisc(ins, input.key);
    }

    /** The conditional skips: PC moves past the next instruction when the
        condition holds. */
    method ExecuteSkip(ins: Instruction, input: M.Input)
      requires Valid() && WellFormed(ins) && M.IsSkip(ins) && M.Safe(State(), ins, input)
      modifies this`pc
      ensures Valid()
      ensures State() == if M.SkipTaken(old(State()), ins, input) then old(State()).(pc := old(pc) + 2) else old(State())
    {
      var taken;
      match ins {
        case SeVxByte(x, kk) => taken := registers[x] == kk;
        case SneVxByte(x, kk) => taken := registers[x] != kk;
        case SeVxVy(x, y) => taken := registers[x] == registers[y];
        case SneVxVy(x, y) => taken := registers[x] != registers[y];
        case Skp(x) => taken := registers[x] in input.keys;
        case Sknp(x) => taken := registers[x] !in input.keys;
      }
      if taken {
        pc := pc + 2;
      }
    }

    /** `Drw`: `draw_sprite` with the coordinates read from Vx and Vy. */
    method ExecuteDraw(ins: Instruction)
      requires Valid() && WellFormed(ins) && M.FamilyOf(ins) == M.DrawOp && M.WithinBounds(State(), ins)
      modifies registers, frameBuffer
      ensures Valid() && State() == M.ExecDraw(old(State()), ins)
    {
      DrawSprite(registers[ins.x], registers[ins.y], ins.n);
    }

    /** The timer decrement at the end of a cycle in which a 60 Hz period
        has elapsed: `saturating_sub(1)` on both timers. */
    method Tick()
      requires Valid()
      modifies this`delay, this`sound
      ensures Valid() && State() == M.Tick(old(State()))
    {
      delay := if delay == 0 then 0 else delay - 1;
      sound := if sound == 0 then 0 else sound - 1;
    }

    /** One pass of the body of `execute`: fetch the word at PC, stop on
        zero, fail on an undecodable word, otherwise advance PC by two,
        execute, and count the timers down if a period has elapsed. */
    method Step(input: M.Input) returns (result: CycleResult)
      requires Valid() && M.CycleSafe(State(), input)
      modifies this, registers, stack, frameBuffer
      ensures Valid()
      ensures match M.Cycle(old(State()), input)
        case Halt => result == Halted && State() == old(State())
        case Fault(w) => result == Faulted(w) && State() == old(State())
        case Next(t) => result == Continue && State() == t
    {
      ghost var s := State();
      var word := ReadU16(pc);
      assert word == M.Fetch(s);
      if word == 0 {
        return Halted;
      }
      var decoded := Decode(word);
      if decoded.Err? {
        return Faulted(decoded.word);
      }
      EncodeInvertsDecode(word);
      pc := pc + 2;
      assert State() == s.(pc := s.pc + 2);
      ExecuteInstruction(decoded.value, input);
      ghost var t := State();
      assert t == M.Exec(s.(pc := s.pc + 2), decoded.value, input);
      if input.tick {
        Tick();
      }
      assert State() == if input.tick then M.Tick(t) else t;
      return Continue;
    }

    /** `execute`: the fetch loop, one input per cycle, until the zero word
        stops it, a word fails to decode, or the inputs run out. */
    method Execute(inputs: seq<M.Input>) returns (status: M.Status)
      requires Valid() && M.RunSafe(State(), inputs)
      modifies this, registers, stack, frameBuffer
      ensures Valid() && M.Run(old(State()), inputs) == M.Outcome(status, State())
    {
      var k := 0;
      while k < |inputs|
        invariant 0 <= k <= |inputs| && Valid()
        invariant M.RunSafe(State(), inputs[k..])
        invariant M.Run(old(State()), inputs) == M.Run(State(), inputs[k..])
      {
        var result := Step(inputs[k]);
        if result.Halted? {
          return M.Stopped;
        }
        if result.Faulted? {
          return M.Failed(result.word);
        }
        assert inputs[k..][1..] == inputs[k + 1..];
        k := k + 1;
      }
      return M.Paused;
    }
  }
}
