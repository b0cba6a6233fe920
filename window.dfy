/** The parts of the display (src/window.rs) the interpreter depends on:
    the screen height (a row is one 64-bit word), the built-in hexadecimal
    font and clearing the screen.
    Everything else in the window is rendering, audio and key polling. */
module Window {
  import opened Primitive

  /** Height of the screen in pixels: the number of rows. */
  const HEIGHT := 32

  /** The sprites of the hexadecimal digits 0 to F, five rows of one byte
      each, lit pixels in the high nibble. */
  const DIGITS: seq<seq<u8>> := [
    [0xF0, 0x90, 0x90, 0x90, 0xF0],
    [0x20, 0x60, 0x20, 0x20, 0x70],
    [0xF0, 0x10, 0xF0, 0x80, 0xF0],
    [0xF0, 0x10, 0xF0, 0x10, 0xF0],
    [0x90, 0x90, 0xF0, 0x10, 0x10],
    [0xF0, 0x80, 0xF0, 0x10, 0xF0],
    [0xF0, 0x80, 0xF0, 0x90, 0xF0],
    [0xF0, 0x10, 0x20, 0x40, 0x40],
    [0xF0, 0x90, 0xF0, 0x90, 0xF0],
    [0xF0, 0x90, 0xF0, 0x10, 0xF0],
    [0xF0, 0x90, 0xF0, 0x90, 0x90],
    [0xE0, 0x90, 0xE0, 0x90, 0xE0],
    [0xF0, 0x80, 0x80, 0x80, 0xF0],
    [0xE0, 0x90, 0x90, 0x90, 0xE0],
    [0xF0, 0x80, 0xF0, 0x80, 0xF0],
    [0xF0, 0x80, 0xF0, 0x80, 0x80]
  ]

  /** The frame buffer after `clear`: every pixel off. */
  function Cleared(): (rows: seq<u64>)
    ensures |rows| == HEIGHT
    ensures forall r :: 0 <= r < HEIGHT ==> rows[r] == 0
  {
    seq(HEIGHT, _ => 0)
  }

  /** Sixteen glyphs of five rows each. */
  lemma GlyphSizes()
    ensures |DIGITS| == 16
    ensures forall d :: 0 <= d < |DIGITS| ==> |DIGITS[d]| == 5
  {
  }
}
