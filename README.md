# CHIP-8 interpreter core in Dafny

This project models the execution engine of a CHIP-8 emulator written in Rust.
CHIP-8 is a virtual machine with:

- 35 two-byte opcodes;
- 4 KiB of byte memory;
- sixteen 8-bit registers V0 to VF, with VF doubling as the flag register;
- a 16-bit address register I;
- two 8-bit timers counting down at 60 Hz;
- a sixteen-slot return stack;
- a 64 x 32 monochrome screen, stored as thirty-two 64-bit rows.

The model covers two source files:

- The opcode decoder (`src/instruction.rs`) is a pure function from a 16-bit word to an instruction or an error.
- The interpreter (`src/interpreter.rs`) is a struct whose methods update its fields in place. It is modelled twice:
  - as functions over a value `Machine.State`, which say what each instruction and each cycle does;
  - as the class `Engine.Interpreter`, with arrays for registers, stack and frame buffer. Its methods and loops are proved to do exactly what those functions say.

The lemmas in `Properties`, `Sprite`, `Instructions` and `Bcd` then state what the interpreter promises, over those functions. Topics:

- the decoder's round trip;
- the call/return discipline;
- the carry, borrow and shift flags;
- the BCD digits;
- register store and load;
- XOR drawing with wrap-around and collision detection;
- timer saturation;
- how the fetch loop composes.

Modules:

- `Primitive`: Rust's unsigned integers as bounded integers, with the bitwise operators defined bit by bit and `u64::rotate_right`.
- `Instructions`: the instruction set, the decoder `Decode`, and an encoder used to state its round trip.
- `Window`: the font glyphs and the cleared frame buffer.
- `Memory`: `write_bytes`, `read_u16` and `read_bytes` on a byte sequence.
- `Bcd`: the decimal digits `LdBVx` writes.
- `Sprite`: `draw_sprite` on the frame buffer.
- `Machine`: the state, start-up, one instruction (`Exec`), one cycle (`Cycle`) and the execution loop (`Run`).
- `Engine`: the `Interpreter` class.
- `Properties`: lemmas over `Machine`.

Where the code and its own doc comments in `src/instruction.rs` differ, the model follows the code:

- `LdBVx`: the comment (src/instruction.rs:131-133) puts the hundreds digit at I, the tens at I+1 and the ones at I+2. The loop (src/interpreter.rs:283-292) writes the digits least significant first, and writes nothing when Vx is 0.
- `Drw`: the comment (src/instruction.rs:95-97) sets VF to 1 if any pixel is erased. The code (src/interpreter.rs:319-327) overwrites VF on every row, so VF keeps the collision flag of the last row drawn only.
- `Shr` and `Shl`: the comments (src/instruction.rs:66-68 and 75-77) shift Vx. The code (src/interpreter.rs:229-244) shifts Vy and stores the result in Vx.
- `Sub` and `Subn`: the comments (src/instruction.rs:61-63 and 70-72) set VF on a strict `>`. The code (src/interpreter.rs:227 and 238) uses `>=`.
- `Sys`: the comment (src/instruction.rs:3-5) says modern interpreters ignore it. The code (src/interpreter.rs:180) treats it as a call.
- `LdFVx`: the comment (src/instruction.rs:127-129) points I at the glyph of Vx. The code (src/interpreter.rs:281) computes `5 * Vx` modulo 256, which is a glyph address only for Vx below 16.
- `Call` increments SP before storing (src/interpreter.rs:164-170), as its comment (src/instruction.rs:17-19) says. As a result stack slot 0 is never written.

## Model

| member | source | states |
|---|---|---|
| Primitive.Bounded | src/interpreter.rs:207-215 | bitwise OR, AND and XOR of two n-bit values are n-bit values, so `Or`, `And` and `Xor` on registers stay bytes |
| Primitive.XorTwice | src/interpreter.rs:323 | XOR with the same operand twice gives back the original value |
| Primitive.AndNotXor | src/interpreter.rs:323-325 | the bits cleared by XOR with `p` (`a & !(a ^ p)`) are exactly the bits `a` shares with `p` |
| Primitive.RotateBit | src/interpreter.rs:323 | bit k of `v.rotate_right(r)` is bit `(k + r) % 64` of v |
| Primitive.AndBelow | src/interpreter.rs:252-255 | `a & b` never exceeds `b`, so a masked random byte is at most the mask |
| Instructions.Split | src/instruction.rs:151-156 | every one of the four extracted fields is a nibble below 16 |
| Instructions.JoinSplit | src/instruction.rs:151-156 | the four nibbles of a word reassemble into that word |
| Instructions.SplitJoin | src/instruction.rs:151-156 | four nibbles packed into a word are recovered by splitting it |
| Instructions.Address | src/instruction.rs:158 | the packed address is below 0x1000 and its three nibbles are x, y, k in order |
| Instructions.AddressNibbles | src/instruction.rs:158 | every 12-bit address is the packing of its own three nibbles |
| Instructions.Byte | src/instruction.rs:159 | the packed byte's high nibble is y and its low nibble k |
| Instructions.Reg | src/instruction.rs:166 | a nibble cast to a register index is below 16 |
| Instructions.DecodeArithmetic | src/instruction.rs:171-196 | a failed `8xyk` decode reports the word it was given |
| Instructions.DecodeKey | src/instruction.rs:185-196 | a failed `Ex` decode reports the word it was given |
| Instructions.DecodeMisc | src/instruction.rs:187-196 | a failed `Fx` decode reports the word it was given |
| Instructions.Fields | src/instruction.rs:160-195 | the opcode layout of every well-formed instruction is four valid nibbles |
| Instructions.DecodeFields | src/instruction.rs:147-198 | a decoded instruction has in-range operands, and its opcode layout is exactly the word's nibbles |
| Instructions.NibblesFields | src/instruction.rs:160-196 | the pattern table, applied to valid nibbles, yields only instructions whose layout is those nibbles |
| Instructions.LowFamiliesFields | src/instruction.rs:161-178 | the same for the families 0 to 7 |
| Instructions.HighFamiliesFields | src/instruction.rs:171-196 | the same for the families 8 to F |
| Instructions.MiscNibblesFields | src/instruction.rs:187-196 | the same for the `Fx` family |
| Instructions.EncodeInvertsDecode | src/instruction.rs:147-198 | encoding a decoded instruction gives back the original word |
| Instructions.DecodeInjective | src/instruction.rs:147-198 | two distinct accepted words never decode to the same instruction |
| Instructions.DecodeEncode | src/instruction.rs:147-198 | decoding the encoding of any well-formed instruction gives it back; the only exceptions are `Sys(0x0E0)` and `Sys(0x0EE)`, which the earlier patterns read as `Cls` and `Ret` |
| Instructions.DecodeSystemFields | src/instruction.rs:161-163 | the round trip for the `0` family, including the two shadowed `Sys` words |
| Instructions.DecodeAddressFields | src/instruction.rs:164-182 | the round trip for `JpAddr`, `Call`, `LdIAddr` and `JpV0Addr` |
| Instructions.DecodeByteFields | src/instruction.rs:166-183 | the round trip for the register-and-byte instructions |
| Instructions.DecodePairFields | src/instruction.rs:168-184 | the round trip for `SeVxVy`, `SneVxVy` and `Drw` |
| Instructions.DecodeArithmeticFields | src/instruction.rs:171-179 | the round trip for the nine `8xyk` instructions |
| Instructions.DecodeKeyFields | src/instruction.rs:185-186 | the round trip for `Skp` and `Sknp` |
| Instructions.DecodeMiscFields | src/instruction.rs:187-195 | the round trip for the nine `Fx` instructions |
| Instructions.SystemFamily | src/instruction.rs:161-163 | below 0x1000, `00E0` is `Cls`, `00EE` is `Ret` and every other word is `Sys` of that word |
| Instructions.DecodeOperands | src/instruction.rs:151-184 | decoded addresses are the low 12 bits of the word and immediate bytes the low 8 bits; the x register of every instruction that has one is the second nibble, the y register of every two-register instruction and `Drw` the third, and the sprite height of `Drw` the last |
| Instructions.LowNibbles | src/instruction.rs:151-159 | the low 12 and the low 8 bits of a word are its last three and last two nibbles |
| Instructions.DecodeFailsExactly | src/instruction.rs:160-196 | decoding fails if and only if the word is one of the unassigned patterns, and the error carries the word |
| Window.Cleared | src/window.rs:119-127 | the cleared frame buffer has 32 rows, all zero |
| Window.GlyphSizes | src/window.rs:88-105 | there are sixteen font glyphs of five bytes each |
| Memory.Zeros | src/interpreter.rs:69 | fresh memory has the requested length and only zero bytes |
| Memory.WriteBytes | src/interpreter.rs:146-149 | a splice keeps the memory length, puts `bytes` at `address` onwards, and leaves every other byte unchanged |
| Memory.ReadU16 | src/interpreter.rs:155-158 | the fetched word's high byte is `memory[address]` and its low byte `memory[address + 1]` |
| Memory.ReadBytes | src/interpreter.rs:160-162 | the read slice has `len` bytes, the j-th being `memory[address + j]` |
| Memory.WriteExtend | src/interpreter.rs:146-149 | writing a run and then one byte after it equals one write of the longer run |
| Bcd.DigitsValue | src/interpreter.rs:283-292 | the digits the BCD loop writes are all below 10 and, read least significant first, stand for the value; there are none exactly when the value is 0, and the last one is never 0 |
| Bcd.DigitsLength | src/interpreter.rs:283-292 | a byte yields no digits for 0, one below 10, two below 100, otherwise three |
| Sprite.Placed | src/interpreter.rs:319-323 | every sprite byte is positioned in its own row word, in order |
| Sprite.ToggleTwice | src/interpreter.rs:323 | XORing the same positioned word into a row twice restores the row |
| Sprite.DrawWords | src/interpreter.rs:319-327 | drawing keeps the frame buffer at 32 rows |
| Sprite.DrawWordsSnoc | src/interpreter.rs:319-327 | one more loop turn toggles row `(y + i) % 32` and sets VF to that row's erase flag |
| Sprite.Draw | src/interpreter.rs:314-328 | a draw keeps the frame buffer at 32 rows |
| Sprite.RowIndexOf | src/interpreter.rs:320 | sprite row i lands on screen row `(y + i) % 32` and on no other |
| Sprite.DrawWordsRows | src/interpreter.rs:319-326 | each screen row hit by one of at most 32 words is that row XOR the word; every other row is unchanged |
| Sprite.DrawRows | src/interpreter.rs:314-328 | after a draw, row `(y + i) % 32` is the old row XOR sprite byte i placed at x; the other rows are untouched |
| Sprite.FlagOfRow | src/interpreter.rs:323-325 | the per-row erase test is 1 exactly when the sprite word overlaps a lit pixel of the old row |
| Sprite.DrawWordsFlag | src/interpreter.rs:319-327 | VF after drawing is unchanged for no words, and otherwise is whether the last word overlapped its row |
| Sprite.DrawFlag | src/interpreter.rs:314-328 | VF after a draw is unchanged for an empty sprite; otherwise it is 1 exactly when the last sprite row collides |
| Sprite.DrawTwice | src/interpreter.rs:314-328 | drawing the same sprite twice at the same place restores the screen |
| Sprite.PlaceColumns | src/interpreter.rs:323 | for every c below 64, screen column `(x + c) % 64` (bit `63 - (x + c) % 64` of the placed word) holds pixel c of the sprite byte (bit `7 - c`) when c < 8 and is blank otherwise |
| Sprite.PlaceWraps | src/interpreter.rs:323 | at x = 60 the sprite's left half lands in columns 60-63 and its right half wraps to columns 0-3; at x = 0 the byte fills columns 0-7 |
| Machine.FontLoaded | src/interpreter.rs:81-84 | memory with the first d glyphs written is 4 KiB long |
| Machine.FontLoadedStep | src/interpreter.rs:82-84 | writing glyph d at `5 * d` adds one glyph to the loaded font |
| Machine.Boot | src/interpreter.rs:64-88 | the start state is well-formed: 4 KiB memory, 16 registers, 16 stack slots, 32 rows |
| Machine.Push | src/interpreter.rs:164-170 | a push with a free slot keeps the state well-formed |
| Machine.Pop | src/interpreter.rs:172-176 | a pop from a non-empty stack keeps the state well-formed |
| Machine.Exec | src/interpreter.rs:178-310 | every instruction that does not panic keeps the state well-formed |
| Machine.ExecDraw | src/interpreter.rs:256-260 | `Drw` keeps the state well-formed |
| Machine.ExecFlow | src/interpreter.rs:180-251 | clear, calls, returns, jumps and `LdIAddr` keep the state well-formed |
| Machine.ExecImmediate | src/interpreter.rs:200-255 | `LdVxByte`, `AddVxByte` and `Rnd` keep the state well-formed |
| Machine.ExecArithmetic | src/interpreter.rs:204-244 | the `8xyk` operations keep the state well-formed |
| Machine.ExecMisc | src/interpreter.rs:271-307 | the `Fx` operations keep the state well-formed |
| Engine.DigitsStep | src/interpreter.rs:286-291 | one BCD loop turn moves the lowest remaining digit to the end of the written run |
| Engine.Interpreter.constructor | src/interpreter.rs:64-88 | `new` builds exactly the start state `Machine.Boot(rom)`, with fresh arrays |
| Engine.Interpreter.WriteBytes | src/interpreter.rs:146-149 | memory becomes the splice `Memory.WriteBytes`, and nothing else changes |
| Engine.Interpreter.ReadU16 | src/interpreter.rs:155-158 | returns the big-endian word at the address |
| Engine.Interpreter.ReadBytes | src/interpreter.rs:160-162 | returns the `len` bytes at the address |
| Engine.Interpreter.PushSubroutine | src/interpreter.rs:164-170 | the new state is `Machine.Push` of the old state |
| Engine.Interpreter.PopSubroutine | src/interpreter.rs:172-176 | the new state is `Machine.Pop` of the old state |
| Engine.Interpreter.ClearScreen | src/window.rs:119-127 | all 32 rows become zero and the rest of the state is unchanged |
| Engine.Interpreter.ExecuteFlow | src/interpreter.rs:180-251 | the state becomes `Machine.ExecFlow` of the old state |
| Engine.Interpreter.ExecuteImmediate | src/interpreter.rs:200-255 | the state becomes `Machine.ExecImmediate` of the old state |
| Engine.Interpreter.ExecuteArithmetic | src/interpreter.rs:204-244 | the state becomes `Machine.ExecArithmetic` of the old state |
| Engine.Interpreter.ExecuteBitwise | src/interpreter.rs:204-215 | copy, OR, AND and XOR leave the state that `Machine.ExecArithmetic` prescribes |
| Engine.Interpreter.ExecuteFlagged | src/interpreter.rs:216-244 | add, the two subtractions and the two shifts leave the state that `Machine.ExecArithmetic` prescribes |
| Engine.Interpreter.WriteWithFlag | src/interpreter.rs:220-221 | Vx is written first and VF second, so VF wins when x is 15; nothing else changes |
| Engine.Interpreter.StoreDigits | src/interpreter.rs:283-292 | the divide-by-ten loop writes exactly the digit run `Bcd.Digits(Vx)` at I |
| Engine.Interpreter.StoreRegisters | src/interpreter.rs:293-301 | the loop writes V0..Vx at I..I+x |
| Engine.Interpreter.LoadRegisters | src/interpreter.rs:302-307 | the loop loads V0..Vx from I..I+x and keeps the registers above x |
| Engine.Interpreter.DrawSprite | src/interpreter.rs:314-328 | the row loop leaves the frame buffer and VF exactly as `Sprite.Draw` of the old frame buffer and the n bytes at I, and leaves the other registers unchanged |
| Engine.Interpreter.ExecuteMisc | src/interpreter.rs:271-307 | the state becomes `Machine.ExecMisc` of the old state |
| Engine.Interpreter.ExecuteInstruction | src/interpreter.rs:178-310 | the state becomes `Machine.Exec` of the old state for every instruction |
| Engine.Interpreter.ExecuteSkip | src/interpreter.rs:185-199 | PC moves on by 2 exactly when the skip condition holds; nothing else changes |
| Engine.Interpreter.ExecuteDraw | src/interpreter.rs:256-260 | the state becomes `Machine.ExecDraw` of the old state |
| Engine.Interpreter.Tick | src/interpreter.rs:116-121 | both timers drop by one, saturating at zero |
| Engine.Interpreter.Step | src/interpreter.rs:98-125 | one loop pass halts on the zero word with the state unchanged, and fails on an unassigned word with the state unchanged; otherwise it ends in the state `Machine.Cycle` prescribes |
| Engine.Interpreter.Execute | src/interpreter.rs:91-127 | the loop ends with the status and state that `Machine.Run` prescribes for the inputs |
| Properties.BootState | src/interpreter.rs:64-88 | after `new`: PC = 0x200; registers, I, SP and the timers are zero; the screen is blank; the glyphs are at `5 * d`; the ROM is at 0x200; every other byte is zero |
| Properties.CallReturn | src/interpreter.rs:164-176 | a call jumps to its target and raises SP by one; a return after it restores PC and SP, leaving only the saved address in the stack |
| Properties.SlotZeroUnused | src/interpreter.rs:164-170 | no instruction ever writes stack slot 0 |
| Properties.ExecFrame | src/interpreter.rs:178-310 | for each part of the state, the only instructions that may change it |
| Properties.ExecPc | src/interpreter.rs:178-310 | jumps go to their target, `JpV0Addr` to target + V0, `Ret` to the saved address, a skip adds 2 exactly when its condition holds, and any other instruction leaves PC alone |
| Properties.CycleOutcome | src/interpreter.rs:99-108 | a cycle halts if and only if the fetched word is 0, and fails if and only if that word is unassigned; the error carries the word |
| Properties.CyclePc | src/interpreter.rs:98-114 | for every instruction but a jump, call or return, PC after a cycle is 2 past the fetched word, or 4 past it exactly when a skip is taken |
| Properties.SkipIgnoresPc | src/interpreter.rs:185-199 | whether a skip is taken depends on the registers and keys, not on PC |
| Properties.AddFlag | src/interpreter.rs:216-222 | Vx + 256 * VF is the full sum of Vx and Vy; VF is 1 exactly on carry; the other registers are unchanged |
| Properties.SubFlag | src/interpreter.rs:223-228 | Vx is Vx - Vy modulo 256 and VF is 1 exactly when there is no borrow; the other registers are unchanged |
| Properties.SubnFlag | src/interpreter.rs:234-239 | Vx is Vy - Vx modulo 256 and VF is 1 exactly when Vy >= Vx; the other registers are unchanged |
| Properties.ShrFlag | src/interpreter.rs:229-233 | 2 * Vx + VF equals the old Vy, so VF is the bit shifted out; the other registers are unchanged |
| Properties.ShlFlag | src/interpreter.rs:240-244 | Vx + 256 * VF equals twice the old Vy, so VF is the top bit shifted out; the other registers are unchanged |
| Properties.RegisterOnly | src/interpreter.rs:200-215 | loads, `AddVxByte` (mod 256), `Or`/`And`/`Xor` and `Rnd` change only Vx; `Rnd` gives at most its mask |
| Properties.XorRegisterTwice | src/interpreter.rs:213-215 | for x ≠ y, `Xor Vx, Vy` applied twice restores the whole state |
| Properties.StoreDigitsEffect | src/interpreter.rs:283-292 | `LdBVx` writes 0 to 3 decimal digits of Vx at I, least significant first, and they stand for Vx; the last one is nonzero, nothing else in memory changes, and Vx = 0 changes nothing at all |
| Properties.StoreRegistersEffect | src/interpreter.rs:293-301 | `LdIVx` writes V0..Vx at I..I+x and leaves every other byte alone |
| Properties.LoadRegistersEffect | src/interpreter.rs:302-307 | `LdVxI` loads V0..Vx from I..I+x and keeps the higher registers |
| Properties.StoreLoad | src/interpreter.rs:293-307 | loading back what was just stored from the same I changes nothing |
| Properties.FontAddress | src/interpreter.rs:280-282 | `LdFVx` sets I to `5 * Vx` modulo 256: the glyph address `5 * Vx` for a hex digit, and a wrapped value below `5 * Vx` from Vx = 52 on; registers and memory are unchanged |
| Properties.GlyphAt | src/interpreter.rs:81-84 | after `new`, the five bytes at `5 * d` are the glyph of digit d |
| Properties.DrawRestores | src/interpreter.rs:256-260 | `Drw` twice with the same operands (coordinates not in VF) restores the screen |
| Properties.DrawEffect | src/interpreter.rs:256-260 | `Drw` XORs the byte at `I + j` into row `(Vy + j) % 32`, placed at column Vx, and leaves the other rows alone |
| Properties.DrawCollision | src/interpreter.rs:314-328 | after `Drw`, VF is the collision of the last row drawn (unchanged when n = 0), and V0..VE are unchanged |
| Properties.TicksSaturate | src/interpreter.rs:116-121 | after n timer periods each timer is `max(t - n, 0)` and nothing else changes |
| Properties.SoundLoad | src/interpreter.rs:276 | `LdStVx` sets the sound timer to Vx and changes nothing else |
| Properties.TimerCopy | src/interpreter.rs:271-275 | `LdDtVx x` then `LdVxDt y` copies Vx into Vy and the delay timer, changing nothing else |
| Properties.RunAppend | src/interpreter.rs:98-126 | running inputs `a + b` is running `a` and then, if the loop is still going, running `b` from there |

## Left out

- `src/main.rs` is not part of this model: argument parsing and reading the ROM file.
- `src/window.rs` is modelled only for the font glyphs and `clear`. Left out: creating the window, rendering, sound, the key map and the command channel.
- `dump_memory` is left out: it only formats text for stderr.
- The shared frame buffer behind `Arc<RwLock<..>>` is an array owned by the interpreter. The window thread only reads it, and concurrency is not modelled.
- Clock time and the 60 Hz throttling in `queue_draw` are left out. Whether a timer period has elapsed in a cycle is the `tick` field of `Machine.Input`.
- The random byte of `Rnd` is a parameter: the `random` field of `Machine.Input`.
- The keyboard is also a parameter: `is_key_pressed` becomes membership in `keys`, and the key `wait_for_key_press` blocks for is `key`.
- Machine.Input: `keys` may hold values above 15. In the source the window thread maps a key through `map_key`, which reaches `unreachable!` for such a value (src/window.rs:348-367). So `Skp` on a Vx of 16 or more is never taken there, while the model takes it when the caller lists that key.
- Window.Cleared: `clear` returns early when the window has not been spawned. `execute` always spawns it first, so the model always clears.
- Operations that would panic in the source are excluded by preconditions (`Machine.Safe`, `Machine.WithinBounds`, `Machine.CanFetch`, `Machine.RunSafe`):
  - a stack push beyond slot 15, whose `stack[16]` panics in every build;
  - a pop at SP 0. Its `u8` decrement (src/interpreter.rs:175) panics in debug builds. In release builds SP wraps to 255: a later `Ret` then panics on `stack[255]`, and a later call wraps SP back to 0. The model does not capture that release path;
  - a memory slice or `unwrap` outside the 4 KiB;
  - `AddIVx` carrying I past 0xFFFF, and a taken skip with PC at 0xFFFE or above. These two are `u16` overflows, which panic in debug builds and wrap in release builds; the model does not capture the release wrap-around.
  Within a cycle, `Machine.CanFetch` keeps PC at most 0xFFE, so neither the `+= 2` of the fetch nor a skip can overflow. A `JpV0Addr` target is at most 0xFFF + 0xFF.
- Engine.Interpreter.Execute: the source loops until the program halts or fails. The model is bounded by the length of the input sequence, and reports that it paused if the inputs run out first.
- `Engine.Interpreter.StoreDigits` and `Engine.Interpreter.DrawSprite` require only the array facts they use, not the whole class invariant. Their callers hold the invariant.
- There are no findings.
