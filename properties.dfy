/** What the interpreter promises, stated over the Machine functions:
    the state `new` builds, the stack discipline of calls and returns, what
    each instruction may change, the PC after a cycle, the flags of the
    arithmetic instructions, the memory transfers and the timers. */
module Properties {
  import opened Primitive
  import opened Instructions
  import opened Memory
  import Window
  import Sprite
  import Bcd
  import opened Machine

  // ---------------------------------------------------------------------
  // Start-up

  /** After `new`: PC at 0x200, registers, I, timers and SP zero, the
      screen dark, glyph `d` at `5 * d`, the ROM at 0x200 and zeros
      everywhere else. */
  lemma BootState(rom: seq<u8>)
    requires |rom| <= RAM_SIZE - PROGRAM_START
    ensures var s := Boot(rom);
      && |s.memory| == RAM_SIZE
      && s.pc == PROGRAM_START && s.i == 0 && s.sp == 0
      && s.sound == 0 && s.delay == 0
      && (forall r :: 0 <= r < REGISTER_COUNT ==> s.registers[r] == 0)
      && (forall r :: 0 <= r < Window.HEIGHT ==> s.frame[r] == 0)
      && (forall d, j :: 0 <= d < 16 && 0 <= j < 5 ==> s.memory[5 * d + j] == Window.DIGITS[d][j])
      && (forall k :: 0 <= k < |rom| ==> s.memory[PROGRAM_START + k] == rom[k])
      && (forall a :: 5 * 16 <= a < PROGRAM_START || PROGRAM_START + |rom| <= a < RAM_SIZE ==> s.memory[a] == 0)
  {
    var s := Boot(rom);
    var font := FontLoaded(|Window.DIGITS|);
    Window.GlyphSizes();
    forall d, j | 0 <= d < 16 && 0 <= j < 5 ensures s.memory[5 * d + j] == Window.DIGITS[d][j] {
      var a := 5 * d + j;
      assert a / 5 == d && a % 5 == j;
      assert s.memory[a] == font[a];
    }
  }

  // ---------------------------------------------------------------------
  // The stack

  /** A call followed by a return restores PC and SP. The only trace left
      is the return address in the slot above the caller's SP. */
  lemma CallReturn(s: State, a: u16, input: Input)
    requires s.Valid() && a < 0x1000 && s.sp + 1 < STACK_SIZE
    ensures var t := Exec(s, Call(a), input);
      && t.pc == a && t.sp == s.sp + 1
      && Exec(t, Ret, input) == s.(stack := s.stack[s.sp + 1 := s.pc])
  {
  }

  /** The pre-increment of SP means slot 0 is never written: no instruction
      changes it. */
  lemma SlotZeroUnused(s: State, ins: Instruction, input: Input)
    requires s.Valid() && WellFormed(ins) && Safe(s, ins, input)
    ensures Exec(s, ins, input).stack[0] == s.stack[0]
  {
    ExecFrame(s, ins, input);
  }

  // ---------------------------------------------------------------------
  // What an instruction changes

  /** The parts of the state an instruction leaves alone: memory is written
      only by `LdBVx` and `LdIVx`, the stack only by a call (and never in
      slot 0), SP only by calls and returns, the screen only by `Cls` and
      `Drw`, I only by its three loads, the timers only by their loads, and
      registers only by the instructions with a destination register. */
  lemma ExecFrame(s: State, ins: Instruction, input: Input)
    requires s.Valid() && WellFormed(ins) && Safe(s, ins, input)
    ensures var t := Exec(s, ins, input);
      && (!(ins.LdBVx? || ins.LdIVx?) ==> t.memory == s.memory)
      && (!(ins.Sys? || ins.Call?) ==> t.stack == s.stack)
      && t.stack[0] == s.stack[0]
      && (!(ins.Sys? || ins.Call? || ins.Ret?) ==> t.sp == s.sp)
      && (!(ins.Cls? || ins.Drw?) ==> t.frame == s.frame)
      && (!(ins.LdIAddr? || ins.AddIVx? || ins.LdFVx?) ==> t.i == s.i)
      && (!ins.LdDtVx? ==> t.delay == s.delay)
      && (!ins.LdStVx? ==> t.sound == s.sound)
      && ((FamilyOf(ins) in {FlowOp, SkipOp} || ins.LdDtVx? || ins.LdStVx? || ins.AddIVx?
           || ins.LdFVx? || ins.LdBVx? || ins.LdIVx?) ==> t.registers == s.registers)
  {
    var t := Exec(s, ins, input);
    match FamilyOf(ins)
    case FlowOp => assert t == ExecFlow(s, ins);
    case SkipOp => assert t.pc in {s.pc, s.pc + 2} && t == s.(pc := t.pc);
    case ImmediateOp => assert t == ExecImmediate(s, ins, input.random);
    case ArithmeticOp => assert t == ExecArithmetic(s, ins);
    case DrawOp => assert t == ExecDraw(s, ins);
    case MiscOp => assert t == ExecMisc(s, ins, input.key);
  }

  /** Jumps, calls and returns: the instructions that set PC themselves. */
  predicate Jumps(ins: Instruction) {
    ins.Sys? || ins.JpAddr? || ins.Call? || ins.Ret? || ins.JpV0Addr?
  }

  /** PC after an instruction (entered with PC already past it): a jump
      goes to its target, a return to the saved address, a skip moves two
      further when its condition holds, anything else leaves PC alone. */
  lemma ExecPc(s: State, ins: Instruction, input: Input)
    requires s.Valid() && WellFormed(ins) && Safe(s, ins, input)
    ensures var t := Exec(s, ins, input);
      && ((ins.Sys? || ins.JpAddr? || ins.Call?) ==> t.pc == ins.addr)
      && (ins.JpV0Addr? ==> t.pc == ins.addr + s.registers[0])
      && (ins.Ret? ==> t.pc == s.stack[s.sp])
      && (IsSkip(ins) ==> t.pc == if SkipTaken(s, ins, input) then s.pc + 2 else s.pc)
      && (!Jumps(ins) && !IsSkip(ins) ==> t.pc == s.pc)
  {
    var t := Exec(s, ins, input);
    match FamilyOf(ins)
    case FlowOp => assert t == ExecFlow(s, ins);
    case SkipOp => assert t.pc in {s.pc, s.pc + 2} && t == s.(pc := t.pc);
    case ImmediateOp => assert t == ExecImmediate(s, ins, input.random);
    case ArithmeticOp => assert t == ExecArithmetic(s, ins);
    case DrawOp => assert t == ExecDraw(s, ins);
    case MiscOp => assert t == ExecMisc(s, ins, input.key);
  }

  // ---------------------------------------------------------------------
  // One cycle

  /** A cycle halts exactly on the zero word and faults exactly on an
      unassigned word, carrying that word; in both cases no state is
      produced, so the caller keeps the state it had. */
  lemma CycleOutcome(s: State, input: Input)
    requires CycleSafe(s, input)
    ensures Cycle(s, input).Halt? <==> Fetch(s) == 0
    ensures Cycle(s, input).Fault? <==> Unassigned(Fetch(s))
    ensures Cycle(s, input).Fault? ==> Cycle(s, input).word == Fetch(s)
  {
    DecodeFailsExactly(Fetch(s));
  }

  /** PC at the end of a cycle that goes on: two past the fetched word for
      everything but jumps and skips; a skip ends four past it exactly when
      its condition holds, otherwise two past it. */
  lemma CyclePc(s: State, input: Input)
    requires CycleSafe(s, input) && Cycle(s, input).Next?
    ensures var ins := Decode(Fetch(s)).value;
      var t := Cycle(s, input).state;
      && (!Jumps(ins) && !IsSkip(ins) ==> t.pc == s.pc + 2)
      && (IsSkip(ins) ==> (t.pc == s.pc + 4 <==> SkipTaken(s, ins, input)))
      && (IsSkip(ins) ==> (t.pc == s.pc + 2 <==> !SkipTaken(s, ins, input)))
  {
    var w := Fetch(s);
    EncodeInvertsDecode(w);
    var ins := Decode(w).value;
    var u := s.(pc := s.pc + 2);
    ExecPc(u, ins, input);
    if IsSkip(ins) {
      SkipIgnoresPc(s, u, ins, input);
    }
  }

  /** Whether a skip is taken does not depend on PC. */
  lemma SkipIgnoresPc(s: State, u: State, ins: Instruction, input: Input)
    requires s.Valid() && u.Valid() && WellFormed(ins) && IsSkip(ins) && u.registers == s.registers
    ensures SkipTaken(u, ins, input) == SkipTaken(s, ins, input)
  {
  }

  // ---------------------------------------------------------------------
  // Arithmetic and flags

  /** `AddVxVy`: Vx and VF together hold the 9-bit sum, VF being the
      carry. VF is written last, so when x is VF it holds the carry. No
      other register changes. */
  lemma AddFlag(s: State, x: u8, y: u8, input: Input)
    requires s.Valid() && x < 16 && y < 16
    ensures var W: seq<int>, V: seq<int> := Exec(s, AddVxVy(x, y), input).registers, s.registers;
      && W[VF] <= 1
      && (x != VF ==> W[x] + 0x100 * W[VF] == V[x] + V[y])
      && (x == VF ==> (W[VF] == 1 <==> V[x] + V[y] > 0xFF))
      && (forall r :: 0 <= r < REGISTER_COUNT && r != x && r != VF ==> W[r] == V[r])
  {
  }

  /** `Sub`: Vx is Vx - Vy in 8 bits and VF is 1 exactly when there is no
      borrow (Vx >= Vy), so `Vx - 256 * (1 - VF)` is the exact difference.
      VF wins when x is VF. No other register changes. */
  lemma SubFlag(s: State, x: u8, y: u8, input: Input)
    requires s.Valid() && x < 16 && y < 16
    ensures var W: seq<int>, V: seq<int> := Exec(s, Sub(x, y), input).registers, s.registers;
      && W[VF] <= 1
      && (x != VF ==> W[x] - 0x100 * (1 - W[VF]) == V[x] - V[y])
      && (x == VF ==> (W[VF] == 1 <==> V[x] >= V[y]))
      && (forall r :: 0 <= r < REGISTER_COUNT && r != x && r != VF ==> W[r] == V[r])
  {
  }

  /** `Subn`: Vx is Vy - Vx in 8 bits, VF is 1 exactly when Vy >= Vx. */
  lemma SubnFlag(s: State, x: u8, y: u8, input: Input)
    requires s.Valid() && x < 16 && y < 16
    ensures var W: seq<int>, V: seq<int> := Exec(s, Subn(x, y), input).registers, s.registers;
      && W[VF] <= 1
      && (x != VF ==> W[x] - 0x100 * (1 - W[VF]) == V[y] - V[x])
      && (x == VF ==> (W[VF] == 1 <==> V[y] >= V[x]))
      && (forall r :: 0 <= r < REGISTER_COUNT && r != x && r != VF ==> W[r] == V[r])
  {
  }

  /** `Shr` reads Vy: Vx is Vy shifted right and VF the bit shifted out. */
  lemma ShrFlag(s: State, x: u8, y: u8, input: Input)
    requires s.Valid() && x < 16 && y < 16
    ensures var W: seq<int>, V: seq<int> := Exec(s, Shr(x, y), input).registers, s.registers;
      && W[VF] <= 1
      && (x != VF ==> 2 * W[x] + W[VF] == V[y])
      && (x == VF ==> W[VF] == V[y] % 2)
      && (forall r :: 0 <= r < REGISTER_COUNT && r != x && r != VF ==> W[r] == V[r])
  {
  }

  /** `Shl` reads Vy: Vx is Vy shifted left in 8 bits and VF the bit
      shifted out of the top. */
  lemma ShlFlag(s: State, x: u8, y: u8, input: Input)
    requires s.Valid() && x < 16 && y < 16
    ensures var W: seq<int>, V: seq<int> := Exec(s, Shl(x, y), input).registers, s.registers;
      && W[VF] <= 1
      && (x != VF ==> W[x] + 0x100 * W[VF] == 2 * V[y])
      && (x == VF ==> (W[VF] == 1 <==> V[y] >= 0x80))
      && (forall r :: 0 <= r < REGISTER_COUNT && r != x && r != VF ==> W[r] == V[r])
  {
  }

  /** The flag-free `8xyk` operations and the immediate ones set only Vx:
      a copy, the bitwise operators, and the 8-bit wrapping add of `7xkk`,
      which leaves VF alone. */
  lemma RegisterOnly(s: State, ins: Instruction, input: Input)
    requires s.Valid() && WellFormed(ins)
    requires ins.LdVxVy? || ins.Or? || ins.And? || ins.Xor? || FamilyOf(ins) == ImmediateOp
    ensures var t := Exec(s, ins, input);
      && (forall r :: 0 <= r < REGISTER_COUNT && r != ins.x ==> t.registers[r] == s.registers[r])
      && (ins.LdVxVy? ==> t.registers[ins.x] == s.registers[ins.y])
      && (ins.LdVxByte? ==> t.registers[ins.x] == ins.kk)
      && (ins.AddVxByte? ==> t.registers[ins.x] == (s.registers[ins.x] + ins.kk) % 0x100)
      && (ins.Rnd? ==> t.registers[ins.x] <= ins.kk)
  {
    if ins.Rnd? {
      AndBelow(input.random, ins.kk);
    }
  }

  /** `Xor` with the same source twice restores Vx (x and y distinct). */
  lemma XorRegisterTwice(s: State, x: u8, y: u8, input: Input)
    requires s.Valid() && x < 16 && y < 16 && x != y
    ensures Exec(Exec(s, Xor(x, y), input), Xor(x, y), input) == s
  {
    var t := Exec(s, Xor(x, y), input);
    XorTwice(s.registers[x], s.registers[y]);
    assert Exec(t, Xor(x, y), input).registers == s.registers;
  }

  // ---------------------------------------------------------------------
  // Memory transfers

  /** `LdBVx`: the decimal digits of Vx are written at I, I+1, ...,
      least significant first, one byte per digit; the run has no leading
      zero, stands for Vx, and is empty for 0. Nothing else is written. */
  lemma StoreDigitsEffect(s: State, x: u8, input: Input)
    requires s.Valid() && x < 16 && WithinBounds(s, LdBVx(x))
    ensures var t := Exec(s, LdBVx(x), input);
      var v := s.registers[x];
      var n := if v == 0 then 0 else if v < 10 then 1 else if v < 100 then 2 else 3;
      && s.i + n <= RAM_SIZE
      && (forall a :: 0 <= a < RAM_SIZE && !(s.i <= a < s.i + n) ==> t.memory[a] == s.memory[a])
      && var run := t.memory[s.i..s.i + n];
      && (forall j :: 0 <= j < |run| ==> run[j] < 10)
      && Bcd.Value(run) == v
      && (v > 0 ==> run[0] == v % 10 && run[n - 1] != 0)
      && (v == 0 ==> t == s)
  {
    var v := s.registers[x];
    var digits := Bcd.Digits(v);
    Bcd.DigitsValue(v);
    Bcd.DigitsLength(v);
    var t := Exec(s, LdBVx(x), input);
    assert t.memory[s.i..s.i + |digits|] == digits;
    if v == 0 {
      assert t.memory == s.memory;
    }
  }

  /** `LdIVx`: V0 to Vx are written at I to I+x, nothing else. */
  lemma StoreRegistersEffect(s: State, x: u8, input: Input)
    requires s.Valid() && x < 16 && WithinBounds(s, LdIVx(x))
    ensures var t := Exec(s, LdIVx(x), input);
      && (forall r :: 0 <= r <= x ==> t.memory[s.i + r] == s.registers[r])
      && (forall a :: 0 <= a < RAM_SIZE && !(s.i <= a <= s.i + x) ==> t.memory[a] == s.memory[a])
  {
  }

  /** `LdVxI`: V0 to Vx are read from I to I+x, the other registers kept. */
  lemma LoadRegistersEffect(s: State, x: u8, input: Input)
    requires s.Valid() && x < 16 && WithinBounds(s, LdVxI(x))
    ensures var t := Exec(s, LdVxI(x), input);
      && (forall r :: 0 <= r <= x ==> t.registers[r] == s.memory[s.i + r])
      && (forall r :: x < r < REGISTER_COUNT ==> t.registers[r] == s.registers[r])
  {
  }

  /** Storing V0..Vx and loading them back from the same I changes nothing
      further: the load finds what the store wrote. */
  lemma StoreLoad(s: State, x: u8, input: Input)
    requires s.Valid() && x < 16 && WithinBounds(s, LdIVx(x))
    ensures var t := Exec(s, LdIVx(x), input);
      WithinBounds(t, LdVxI(x)) && Exec(t, LdVxI(x), input) == t
  {
    var t := Exec(s, LdIVx(x), input);
    var u := Exec(t, LdVxI(x), input);
    assert u.registers == t.registers;
  }

  /** `LdFVx`: I is 5 * Vx modulo 256. For a digit (Vx below 16) that is
      the address of its glyph (see `GlyphAt`); from Vx = 52 on the
      product wraps below 5 * Vx. */
  lemma FontAddress(s: State, x: u8, input: Input)
    requires s.Valid() && x < 16
    ensures var t := Exec(s, LdFVx(x), input);
      && t.i == 5 * (s.registers[x] as int) % 0x100
      && t.i < 0x100
      && (s.registers[x] < 16 ==> t.i == 5 * s.registers[x])
      && (s.registers[x] >= 52 ==> t.i < 5 * (s.registers[x] as int))
      && t.registers == s.registers && t.memory == s.memory
  {
  }

  /** After `new`, the five bytes at `5 * d` are the glyph of digit `d`. */
  lemma GlyphAt(rom: seq<u8>, d: int)
    requires |rom| <= RAM_SIZE - PROGRAM_START && 0 <= d < 16
    ensures Boot(rom).memory[5 * d..5 * d + 5] == Window.DIGITS[d]
  {
    BootState(rom);
    Window.GlyphSizes();
    var m := Boot(rom).memory;
    forall j | 0 <= j < 5 ensures m[5 * d..5 * d + 5][j] == Window.DIGITS[d][j] {
      assert m[5 * d..5 * d + 5][j] == m[5 * d + j];
    }
  }

  // ---------------------------------------------------------------------
  // Drawing

  /** `Drw` twice with the same operands restores the screen, provided
      neither coordinate register is VF (which the first draw may change). */
  lemma DrawRestores(s: State, x: u8, y: u8, n: u8, input: Input)
    requires s.Valid() && x < 16 && y < 16 && n < 16 && x != VF && y != VF
    requires WithinBounds(s, Drw(x, y, n))
    ensures var t := Exec(s, Drw(x, y, n), input);
      WithinBounds(t, Drw(x, y, n)) && Exec(t, Drw(x, y, n), input).frame == s.frame
  {
    var t := Exec(s, Drw(x, y, n), input);
    var sprite := ReadBytes(s.memory, s.i, n);
    Sprite.DrawTwice(s.frame, s.registers[VF], t.registers[VF], sprite, s.registers[x], s.registers[y]);
  }

  /** `Drw` row by row: rows `(Vy + j) % 32` for `j < n` are XORed with
      sprite byte `j` placed at column Vx, the other rows are kept. */
  lemma DrawEffect(s: State, x: u8, y: u8, n: u8, input: Input)
    requires s.Valid() && x < 16 && y < 16 && n < 16 && WithinBounds(s, Drw(x, y, n))
    ensures var t := Exec(s, Drw(x, y, n), input);
      var V := s.registers;
      forall r :: 0 <= r < Window.HEIGHT ==>
        t.frame[r] == if Sprite.RowIndex(V[y], r) < n
          then Sprite.Toggle(s.frame[r], Sprite.Place(s.memory[s.i + Sprite.RowIndex(V[y], r)], V[x]))
          else s.frame[r]
  {
    var V := s.registers;
    var sprite := ReadBytes(s.memory, s.i, n);
    assert Exec(s, Drw(x, y, n), input).frame == Sprite.Draw(s.frame, V[VF], sprite, V[x], V[y]).rows;
    Sprite.DrawRows(s.frame, V[VF], sprite, V[x], V[y]);
  }

  /** `Drw` and VF: the collision flag of the last row drawn alone, and
      unchanged when `n` is 0; V0 to VE are kept. */
  lemma DrawCollision(s: State, x: u8, y: u8, n: u8, input: Input)
    requires s.Valid() && x < 16 && y < 16 && n < 16 && WithinBounds(s, Drw(x, y, n))
    ensures var t := Exec(s, Drw(x, y, n), input);
      var V := s.registers;
      && t.registers[VF] == (if n == 0 then V[VF]
            else if Sprite.Hits(s.frame[(V[y] + n - 1) % Window.HEIGHT], Sprite.Place(s.memory[s.i + n - 1], V[x])) then 1 else 0)
      && (forall r :: 0 <= r < VF ==> t.registers[r] == V[r])
  {
    var V := s.registers;
    var sprite := ReadBytes(s.memory, s.i, n);
    var screen := Sprite.Draw(s.frame, V[VF], sprite, V[x], V[y]);
    var t := Exec(s, Drw(x, y, n), input);
    assert t == ExecDraw(s, Drw(x, y, n));
    assert t.registers == V[VF := screen.vf];
    Sprite.DrawFlag(s.frame, V[VF], sprite, V[x], V[y]);
    if n > 0 {
      assert sprite[n - 1] == s.memory[s.i + n - 1];
    }
  }

  // ---------------------------------------------------------------------
  // Timers

  /** `n` timer periods in a row. */
  function Ticks(s: State, n: nat): State
    decreases n
  {
    if n == 0 then s else Tick(Ticks(s, n - 1))
  }

  /** The timers count down by one per period and stop at zero; nothing
      else changes. */
  lemma {:induction false} TicksSaturate(s: State, n: nat)
    ensures var t := Ticks(s, n);
      && t.delay == (if s.delay >= n then s.delay - n else 0)
      && t.sound == (if s.sound >= n then s.sound - n else 0)
      && t == s.(delay := t.delay, sound := t.sound)
  {
    if n > 0 {
      TicksSaturate(s, n - 1);
    }
  }

  /** `LdDtVx` then `LdVxDt` copies Vx to Vy through the delay timer. */
  lemma TimerCopy(s: State, x: u8, y: u8, input: Input)
    requires s.Valid() && x < 16 && y < 16
    ensures var t := Exec(Exec(s, LdDtVx(x), input), LdVxDt(y), input);
      t == s.(delay := s.registers[x], registers := s.registers[y := s.registers[x]])
  {
    var u := Exec(s, LdDtVx(x), input);
    assert u == s.(delay := s.registers[x]);
  }

  /** `LdStVx` loads Vx into the sound timer and changes nothing else; the
      sound timer cannot be read back into a register. */
  lemma SoundLoad(s: State, x: u8, input: Input)
    requires s.Valid() && x < 16
    ensures Exec(s, LdStVx(x), input) == s.(sound := s.registers[x])
  { }

  // ---------------------------------------------------------------------
  // The execution loop

  /** Running the inputs `a` and then `b` is running `a + b`: when the
      machine is still going after `a`, the rest of the run starts from
      the state it reached; when it stopped or failed, `b` is not used. */
  lemma {:induction false} RunAppend(s: State, a: seq<Input>, b: seq<Input>)
    requires RunSafe(s, a + b)
    ensures RunSafe(s, a)
    ensures var o := Run(s, a);
      && (o.status.Paused? ==> RunSafe(o.state, b) && Run(s, a + b) == Run(o.state, b))
      && (!o.status.Paused? ==> Run(s, a + b) == o)
    decreases |a|
  {
    if a != [] {
      assert (a + b)[0] == a[0];
      assert (a + b)[1..] == a[1..] + b;
      if Cycle(s, a[0]).Next? {
        RunAppend(Cycle(s, a[0]).state, a[1..], b);
      }
    } else {
      assert a + b == b;
    }
  }
}
