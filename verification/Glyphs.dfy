// src/tui/prompt_editor.h, prompt_editor_detail: glyphs as the terminal code sees them.
module Glyphs {
  import opened Bytes

  // Byte length of the glyph a byte leads; 1 for a byte that leads nothing.
  function GlyphLen(c: byte): (n: nat)
    ensures 1 <= n <= 4
  {
    if c < 0x80 then 1
    else if 0xC0 <= c <= 0xDF then 2
    else if 0xE0 <= c <= 0xEF then 3
    else if 0xF0 <= c <= 0xF7 then 4
    else 1
  }

  // Approximate display width, in columns.
  function GlyphWidth(c: byte): (n: nat)
    ensures 1 <= n <= 2
  {
    if c < 0x80 then 1 else 2
  }

  // What substr returns for the glyph at the head of `s`: it stops at the end of the string.
  function HeadGlyph(s: Bytes): (n: nat)
    requires s != []
    ensures 1 <= n <= |s|
  {
    if GlyphLen(s[0]) <= |s| then GlyphLen(s[0]) else |s|
  }
}
