/** Sprite drawing (src/interpreter.rs:314-328). A row of the screen is a
    64-bit word with column 0 in the most significant bit; a sprite row is a
    byte with its leftmost pixel in the most significant bit. */
module Sprite {
  import opened Primitive
  import Window

  /** The sprite byte moved to columns `x` to `x + 7` of a row: widened to
      64 bits and rotated right by `x + 8`, so pixels past column 63 wrap to
      column 0. `rotate_right` rotates by its argument modulo 64. */
  function Place(byte: u8, x: u8): u64 {
    RotateRight(byte, (x + 8) % 64)
  }

  /** Every row of a sprite moved to column `x`. */
  function Placed(sprite: seq<u8>, x: u8): (words: seq<u64>)
    ensures |words| == |sprite|
    ensures forall i :: 0 <= i < |sprite| ==> words[i] == Place(sprite[i], x)
  {
    seq(|sprite|, i requires 0 <= i < |sprite| => Place(sprite[i], x))
  }

  /** A row with the pixels of `word` flipped: drawing is XOR. */
  function Toggle(row: u64, word: u64): u64 {
    Xor64(row, word)
  }

  /** Toggling the same word twice restores the row. */
  lemma ToggleTwice(row: u64, word: u64)
    ensures Toggle(Toggle(row, word), word) == row
  {
    XorTwice(row, word);
  }

  /** The flag value of one drawn row: 1 when some pixel that was on went
      off. */
  function Erased(before: u64, after: u64): u8 {
    if AndNotNat(before, after) != 0 then 1 else 0
  }

  /** The frame buffer and VF. */
  datatype Screen = Screen(rows: seq<u64>, vf: u8)

  /** The screen after XORing the placed sprite rows `words` into it one by
      one, starting at screen row `y`: word `i` goes to row `(y + i) % 32`,
      and each row drawn sets VF to its own `Erased` flag. */
  function DrawWords(rows: seq<u64>, vf: u8, words: seq<u64>, y: u8): (r: Screen)
    requires |rows| == Window.HEIGHT
    ensures |r.rows| == Window.HEIGHT
    decreases |words|
  {
    if words == [] then Screen(rows, vf)
    else
      var last := |words| - 1;
      var s := DrawWords(rows, vf, words[..last], y);
      var row := (y + last) % Window.HEIGHT;
      var res := Toggle(s.rows[row], words[last]);
      Screen(s.rows[row := res], Erased(s.rows[row], res))
  }

  /** Drawing one more word extends the drawing of the words before it
      by that word's row. */
  lemma DrawWordsSnoc(rows: seq<u64>, vf: u8, words: seq<u64>, w: u64, y: u8)
    requires |rows| == Window.HEIGHT
    ensures var s := DrawWords(rows, vf, words, y);
      var row := (y + |words|) % Window.HEIGHT;
      var res := Toggle(s.rows[row], w);
      DrawWords(rows, vf, words + [w], y) == Screen(s.rows[row := res], Erased(s.rows[row], res))
  {
    assert (words + [w])[..|words|] == words;
  }

  /** `draw_sprite` at `(x, y)` with the given sprite bytes, VF starting at
      `vf`. */
  function Draw(rows: seq<u64>, vf: u8, sprite: seq<u8>, x: u8, y: u8): (r: Screen)
    requires |rows| == Window.HEIGHT
    ensures |r.rows| == Window.HEIGHT
  {
    DrawWords(rows, vf, Placed(sprite, x), y)
  }

  /** The sprite row that lands on screen row `r` when drawing at `y`. */
  function RowIndex(y: u8, r: int): int {
    (r - y) % Window.HEIGHT
  }

  /** Sprite row `i` lands on screen row `(y + i) % 32` and on no other. */
  lemma RowIndexOf(y: u8, i: int, r: int)
    requires 0 <= i < Window.HEIGHT && 0 <= r < Window.HEIGHT
    ensures RowIndex(y, r) == i <==> r == (y + i) % Window.HEIGHT
  {
    var yi := y;
    var row := (yi + i) % 32;
    assert yi + i == 32 * ((yi + i) / 32) + row;
    if r == row {
      assert r - yi == i - 32 * ((yi + i) / 32);
    }
  }

  /** Row by row: a screen row that one of the (at most 32) words lands on
      is XORed with that word; every other row is unchanged. */
  lemma {:induction false} DrawWordsRows(rows: seq<u64>, vf: u8, words: seq<u64>, y: u8)
    requires |rows| == Window.HEIGHT && |words| <= Window.HEIGHT
    ensures forall r :: 0 <= r < Window.HEIGHT ==>
      DrawWords(rows, vf, words, y).rows[r] ==
        if RowIndex(y, r) < |words| then Toggle(rows[r], words[RowIndex(y, r)]) else rows[r]
  {
    if words != [] {
      var last := |words| - 1;
      var prefix := words[..last];
      DrawWordsRows(rows, vf, prefix, y);
      var before := DrawWords(rows, vf, prefix, y).rows;
      var after := DrawWords(rows, vf, words, y).rows;
      var row := (y + last) % Window.HEIGHT;
      forall r | 0 <= r < Window.HEIGHT
        ensures after[r] == if RowIndex(y, r) < |words| then Toggle(rows[r], words[RowIndex(y, r)]) else rows[r]
      {
        RowIndexOf(y, last, r);
        var k := RowIndex(y, r);
        if k < last {
          assert prefix[k] == words[k];
        }
      }
    }
  }

  /** Row by row for a sprite: the rows `(y + i) % 32` for `i < n` become
      `Toggle(old, Place(sprite[i], x))`, all other rows are unchanged. */
  lemma DrawRows(rows: seq<u64>, vf: u8, sprite: seq<u8>, x: u8, y: u8)
    requires |rows| == Window.HEIGHT && |sprite| <= Window.HEIGHT
    ensures forall r :: 0 <= r < Window.HEIGHT ==>
      Draw(rows, vf, sprite, x, y).rows[r] ==
        if RowIndex(y, r) < |sprite| then Toggle(rows[r], Place(sprite[RowIndex(y, r)], x)) else rows[r]
  {
    DrawWordsRows(rows, vf, Placed(sprite, x), y);
  }

  /** Whether `word` covers a pixel that is on in `row`. */
  function Hits(row: u64, word: u64): bool {
    AndNat(row, word) != 0
  }

  /** A pixel goes off under XOR exactly where the word hits a lit one. */
  lemma FlagOfRow(before: u64, p: u64)
    ensures Erased(before, Toggle(before, p)) == if Hits(before, p) then 1 else 0
  {
    AndNotXor(before, p);
  }

  /** VF after drawing words: unchanged when there is none, otherwise the
      flag of the last word against the row it lands on. */
  lemma DrawWordsFlag(rows: seq<u64>, vf: u8, words: seq<u64>, y: u8)
    requires |rows| == Window.HEIGHT && |words| <= Window.HEIGHT
    ensures var last := |words| - 1;
      DrawWords(rows, vf, words, y).vf ==
        if words == [] then vf
        else if Hits(rows[(y + last) % Window.HEIGHT], words[last]) then 1 else 0
  {
    if words != [] {
      var last := |words| - 1;
      var row := (y + last) % Window.HEIGHT;
      DrawWordsRows(rows, vf, words[..last], y);
      RowIndexOf(y, last, row);
      var before := DrawWords(rows, vf, words[..last], y).rows[row];
      assert before == rows[row];
      FlagOfRow(before, words[last]);
    }
  }

  /** VF after a draw: unchanged for an empty sprite, otherwise 1 exactly
      when the last sprite row hits a pixel that was already on. Earlier
      rows do not matter. */
  lemma DrawFlag(rows: seq<u64>, vf: u8, sprite: seq<u8>, x: u8, y: u8)
    requires |rows| == Window.HEIGHT && |sprite| <= Window.HEIGHT
    ensures var last := |sprite| - 1;
      Draw(rows, vf, sprite, x, y).vf ==
        if sprite == [] then vf
        else if Hits(rows[(y + last) % Window.HEIGHT], Place(sprite[last], x)) then 1 else 0
  {
    DrawWordsFlag(rows, vf, Placed(sprite, x), y);
  }

  /** Drawing the same sprite twice at the same place restores the screen. */
  lemma DrawTwice(rows: seq<u64>, vf: u8, vf2: u8, sprite: seq<u8>, x: u8, y: u8)
    requires |rows| == Window.HEIGHT && |sprite| <= Window.HEIGHT
    ensures Draw(Draw(rows, vf, sprite, x, y).rows, vf2, sprite, x, y).rows == rows
  {
    var words := Placed(sprite, x);
    var once := DrawWords(rows, vf, words, y).rows;
    DrawWordsRows(rows, vf, words, y);
    DrawWordsRows(once, vf2, words, y);
    var twice := DrawWords(once, vf2, words, y).rows;
    forall r | 0 <= r < Window.HEIGHT ensures twice[r] == rows[r] {
      if RowIndex(y, r) < |words| {
        var p := words[RowIndex(y, r)];
        ToggleTwice(rows[r], p);
      }
    }
  }

  /** Horizontal wrap: at column 60 the left half of the sprite row lands in
      columns 60 to 63 and the right half in columns 0 to 3. */
  lemma PlaceWraps()
    ensures Place(0xF0, 60) == 0x0000_0000_0000_000F
    ensures Place(0x0F, 60) == 0xF000_0000_0000_0000
    ensures Place(0xFF, 0) == 0xFF00_0000_0000_0000
  {
    Pow2Widths();
    Pow2Add(4, 60);
    Pow2Add(8, 56);
    assert Pow2(2) == 4;
    assert Pow2(4) == 16;
    assert Pow2(60) == 0x1000_0000_0000_0000;
    assert Pow2(56) == 0x100_0000_0000_0000;
    assert RotateRight(0x0F, 4) == 0 + 0xF * 0x1000_0000_0000_0000;
    assert RotateRight(0xFF, 8) == 0 + 0xFF * 0x100_0000_0000_0000;
  }

  /** Where each pixel lands: screen column `(x + c) % 64`, which is bit
      `63 - (x + c) % 64` of the row, holds pixel `c` of the sprite row
      (bit `7 - c` of the byte) for `c` below 8, and nothing for the other
      56 columns. */
  lemma PlaceColumns(byte: u8, x: u8, c: nat)
    requires c < 64
    ensures BitAt(Place(byte, x), 63 - (x + c) % 64) == if c < 8 then BitAt(byte, 7 - c) else 0
  {
    var r, k := (x + 8) % 64, 63 - (x + c) % 64;
    RotateBit(byte, r, k);
    ColumnIndex(x, c);
    if c >= 8 {
      HighBits(byte, 71 - c);
    }
  }

  /** The byte bit that `Place` rotates into bit `63 - (x + c) % 64`. */
  lemma ColumnIndex(x: nat, c: nat)
    requires c < 64
    ensures (63 - (x + c) % 64 + (x + 8) % 64) % 64 == if c < 8 then 7 - c else 71 - c
  {
    var p1, p2 := (x + c) / 64, (x + 8) / 64;
    var t := if c < 8 then 7 - c else 71 - c;
    var n := p1 - p2 + if c < 8 then 1 else 0;
    assert 63 - (x + c) % 64 + (x + 8) % 64 == t + 64 * n;
  }
}
