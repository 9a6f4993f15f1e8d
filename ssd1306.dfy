/**
 * The frame-buffer half of the SSD1306 driver: the static 8 x 128 byte
 * buffer `gram` (one byte per 8-pixel column of a page), zeroed by
 * ssd1306_init, filled by ssd1306_clear_screen and written one page row at
 * a time by ssd1306_display_text. Bus traffic is reduced to the status
 * code each I2C transaction returns.
 */
module Ssd1306 {
  import opened Esp

  const SSD1306_I2C_ADDRESS: bv8 := 0x3C
  const SSD1306_WIDTH: nat := 128
  const SSD1306_PAGES: nat := 8
  const I2C_NUM_0: int := 0
  /** The longest text one call may draw: 16 blocks of 8 columns fill a row. */
  const MAX_TEXT_LEN: int := 16
  const BLOCK: nat := 8

  /** The 25 command bytes ssd1306_init sends, in order. */
  const INIT_COMMANDS: seq<bv8> :=
    [0xAE, 0xD5, 0x80, 0xA8, 0x3F, 0xD3, 0x00, 0x40, 0x8D, 0x14, 0x20, 0x00, 0xA1,
     0xC8, 0xDA, 0x12, 0x81, 0xCF, 0xD9, 0xF1, 0xDB, 0x40, 0xA4, 0xA6, 0xAF]

  /** ssd1306_t: where the panel sits on the bus and its size. */
  class Device {
    var i2cPort: int
    var address: bv8
    var width: bv8
    var height: bv8

    constructor ()
    {
    }
  }

  /** A character the renderer draws as a filled block. */
  predicate Printable(ch: char)
  {
    32 <= ch as int < 127
  }

  /** The byte a drawn block's columns get. */
  function Ink(invert: bool): bv8
  {
    if invert then 0xFF else 0x01
  }

  /** `row` with the 8 columns from x on set to v. */
  function Block(row: seq<bv8>, x: int, v: bv8): (r: seq<bv8>)
    ensures |r| == |row|
  {
    seq(|row|, c requires 0 <= c < |row| => if x <= c < x + BLOCK then v else row[c])
  }

  /** The row after characters i .. textLen-1 are drawn, block i starting at
      column 8i: a printable character fills its block, any other character
      skips it. */
  function Draw(row: seq<bv8>, text: seq<char>, textLen: int, invert: bool, i: nat): (r: seq<bv8>)
    requires textLen <= |text|
    ensures |r| == |row|
    decreases textLen - i
  {
    if i >= textLen then row
    else
      var next := if Printable(text[i]) then Block(row, BLOCK * i, Ink(invert)) else row;
      Draw(next, text, textLen, invert, i + 1)
  }

  /** Column c of a drawn row, stated directly: the ink when c is in the
      block of a printable character from i on, the old byte otherwise. */
  function DrawnColumn(row: seq<bv8>, text: seq<char>, textLen: int, invert: bool, i: nat, c: nat): bv8
    requires textLen <= |text| && c < |row|
  {
    if BLOCK * i <= c < BLOCK * textLen && Printable(text[c / BLOCK]) then Ink(invert) else row[c]
  }

  lemma BlockOf(i: nat, c: nat)
    requires BLOCK * i <= c < BLOCK * i + BLOCK
    ensures c / BLOCK == i
  {
  }

  lemma {:induction false} DrawColumns(row: seq<bv8>, text: seq<char>, textLen: int, invert: bool, i: nat, c: nat)
    requires textLen <= |text| && c < |row|
    ensures Draw(row, text, textLen, invert, i)[c] == DrawnColumn(row, text, textLen, invert, i, c)
    decreases textLen - i
  {
    if i < textLen {
      var next := if Printable(text[i]) then Block(row, BLOCK * i, Ink(invert)) else row;
      DrawColumns(next, text, textLen, invert, i + 1, c);
      if BLOCK * i <= c < BLOCK * i + BLOCK {
        BlockOf(i, c);
      }
    }
  }

  /** Columns at or past 8 * textLen keep their byte. */
  lemma DrawLeavesTail(row: seq<bv8>, text: seq<char>, textLen: int, invert: bool, c: nat)
    requires textLen <= |text| && c < |row| && c >= BLOCK * textLen
    ensures Draw(row, text, textLen, invert, 0)[c] == row[c]
  {
    DrawColumns(row, text, textLen, invert, 0, c);
  }

  /** The 8 columns of a printable character i get the ink, those of any
      other character keep their bytes. */
  lemma DrawCharacter(row: seq<bv8>, text: seq<char>, textLen: int, invert: bool, i: nat, k: nat)
    requires textLen <= |text| && i < textLen && k < BLOCK && BLOCK * i + k < |row|
    ensures Printable(text[i]) ==> Draw(row, text, textLen, invert, 0)[BLOCK * i + k] == Ink(invert)
    ensures !Printable(text[i]) ==> Draw(row, text, textLen, invert, 0)[BLOCK * i + k] == row[BLOCK * i + k]
  {
    DrawColumns(row, text, textLen, invert, 0, BLOCK * i + k);
    BlockOf(i, BLOCK * i + k);
  }

  /** The first index from i on at which the bus rejects an init command,
      or |INIT_COMMANDS| if it accepts all the rest. */
  function FirstFailure(bus: nat -> EspErr, i: nat): (n: nat)
    requires i <= |INIT_COMMANDS|
    ensures i <= n <= |INIT_COMMANDS|
    decreases |INIT_COMMANDS| - i
  {
    if i == |INIT_COMMANDS| || bus(i) != Ok then i else FirstFailure(bus, i + 1)
  }

  lemma {:induction false} FirstFailureMeaning(bus: nat -> EspErr, i: nat)
    requires i <= |INIT_COMMANDS|
    ensures var n := FirstFailure(bus, i);
            && (n < |INIT_COMMANDS| ==> bus(n) != Ok)
            && forall k :: i <= k < n ==> bus(k) == Ok
    decreases |INIT_COMMANDS| - i
  {
    if i < |INIT_COMMANDS| && bus(i) == Ok {
      FirstFailureMeaning(bus, i + 1);
    }
  }

  /** The status ssd1306_init returns: that of the first command the bus
      rejects, ESP_OK when it accepts all of them. */
  function InitStatus(bus: nat -> EspErr): EspErr
  {
    var n := FirstFailure(bus, 0);
    if n < |INIT_COMMANDS| then bus(n) else Ok
  }

  /** `bus(i)` is what i2c_master_cmd_begin returns for the i-th command:
      init succeeds iff the bus accepts every command, and otherwise fails
      with the status of the first one it rejects. */
  lemma InitStatusMeaning(bus: nat -> EspErr)
    ensures InitStatus(bus) == Ok <==> forall k :: 0 <= k < |INIT_COMMANDS| ==> bus(k) == Ok
    ensures InitStatus(bus) != Ok ==> exists k :: && 0 <= k < |INIT_COMMANDS| && bus(k) == InitStatus(bus)
                                                 && forall m :: 0 <= m < k ==> bus(m) == Ok
  {
    FirstFailureMeaning(bus, 0);
    var n := FirstFailure(bus, 0);
    if n < |INIT_COMMANDS| {
      assert bus(n) == InitStatus(bus);
    }
  }

  /** Sends the init commands one at a time, stopping at the first the bus
      rejects. */
  method SendInitCommands(bus: nat -> EspErr) returns (err: EspErr)
    ensures err == InitStatus(bus)
  {
    var i := 0;
    while i < |INIT_COMMANDS|
      invariant i <= |INIT_COMMANDS|
      invariant FirstFailure(bus, i) == FirstFailure(bus, 0)
    {
      var ret := bus(i);
      if ret != Ok {
        return ret;
      }
      i := i + 1;
    }
    err := Ok;
  }

  /** The static buffer `gram[SSD1306_PAGES][SSD1306_WIDTH]`. */
  class Gram {
    const cells: array2<bv8>

    predicate Valid()
    {
      cells.Length0 == SSD1306_PAGES && cells.Length1 == SSD1306_WIDTH
    }

    /** Static storage starts out zeroed. */
    constructor ()
      ensures Valid() && fresh(cells) && Filled(0)
    {
      cells := new bv8[SSD1306_PAGES, SSD1306_WIDTH]((_, _) => 0);
    }

    /** Every byte of the buffer is v. */
    predicate Filled(v: bv8)
      requires Valid()
      reads cells
    {
      forall p, c :: 0 <= p < SSD1306_PAGES && 0 <= c < SSD1306_WIDTH ==> cells[p, c] == v
    }

    /** Page row p, `gram[p]`. */
    function Row(p: nat): (r: seq<bv8>)
      requires Valid() && p < SSD1306_PAGES
      reads cells
      ensures |r| == SSD1306_WIDTH
      ensures forall c :: 0 <= c < SSD1306_WIDTH ==> r[c] == cells[p, c]
    {
      seq(SSD1306_WIDTH, c requires 0 <= c < SSD1306_WIDTH reads cells => cells[p, c])
    }

    /** `memset(gram, v, sizeof(gram))`. */
    method Fill(v: bv8)
      requires Valid()
      modifies cells
      ensures Filled(v)
    {
      forall p, c | 0 <= p < SSD1306_PAGES && 0 <= c < SSD1306_WIDTH {
        cells[p, c] := v;
      }
    }

    /** ssd1306_init: records the bus address, the port and the panel size,
        zeroes the buffer, then sends the init commands; the buffer is
        zeroed whatever the bus answers. */
    method Init(dev: Device, width: bv8, height: bv8, bus: nat -> EspErr) returns (err: EspErr)
      requires Valid()
      modifies dev, cells
      ensures dev.i2cPort == I2C_NUM_0 && dev.address == SSD1306_I2C_ADDRESS
      ensures dev.width == width && dev.height == height
      ensures Filled(0)
      ensures err == InitStatus(bus)
    {
      dev.i2cPort := I2C_NUM_0;
      dev.address := SSD1306_I2C_ADDRESS;
      dev.width := width;
      dev.height := height;
      Fill(0);
      err := SendInitCommands(bus);
    }

    /** ssd1306_clear_screen: every byte 0xFF when inverted, 0x00 otherwise. */
    method ClearScreen(invert: bool) returns (err: EspErr)
      requires Valid()
      modifies cells
      ensures Filled(if invert then 0xFF else 0x00)
      ensures err == Ok
    {
      Fill(if invert then 0xFF else 0x00);
      err := Ok;
    }

    /** The inner column loop: writes v into the 8 columns from x on, as
        long as they are inside the row. */
    method PaintBlock(page: nat, x: nat, v: bv8)
      requires Valid() && page < SSD1306_PAGES && x + BLOCK <= SSD1306_WIDTH
      modifies cells
      ensures Row(page) == Block(old(Row(page)), x, v)
      ensures forall p, c :: 0 <= p < SSD1306_PAGES && p != page && 0 <= c < SSD1306_WIDTH ==>
                cells[p, c] == old(cells[p, c])
    {
      ghost var before := Row(page);
      var col, column := 0, x;
      while col < BLOCK && column < SSD1306_WIDTH
        invariant col <= BLOCK && column == x + col
        invariant forall c :: 0 <= c < SSD1306_WIDTH ==>
                    cells[page, c] == if x <= c < column then v else before[c]
        invariant forall p, c :: 0 <= p < SSD1306_PAGES && p != page && 0 <= c < SSD1306_WIDTH ==>
                    cells[p, c] == old(cells[p, c])
      {
        cells[page, column] := v;
        column := column + 1;
        col := col + 1;
      }
      assert Row(page) == Block(before, x, v);
    }

    /** ssd1306_display_text: rejects a page past the last or a text longer
        than 16, otherwise draws the text into page row `page` only. Each
        element of `text` stands for one byte of the C string; an element
        above 255 has no C counterpart and, like every byte outside 32 .. 126,
        is not printable. */
    method DisplayText(page: int, text: seq<char>, textLen: int, invert: bool) returns (err: EspErr)
      requires Valid() && 0 <= page
      requires page >= SSD1306_PAGES as int || textLen > MAX_TEXT_LEN || textLen <= |text|
      modifies cells
      ensures err == ErrInvalidArg <==> page >= SSD1306_PAGES as int || textLen > MAX_TEXT_LEN
      ensures err != ErrInvalidArg ==> err == Ok
      ensures err == ErrInvalidArg ==> unchanged(cells)
      ensures err == Ok ==> Row(page) == Draw(old(Row(page)), text, textLen, invert, 0)
      ensures forall p, c :: 0 <= p < SSD1306_PAGES && p != page && 0 <= c < SSD1306_WIDTH ==>
                cells[p, c] == old(cells[p, c])
    {
      if page >= SSD1306_PAGES as int || textLen > MAX_TEXT_LEN {
        return ErrInvalidArg;
      }
      ghost var before := Row(page);
      var x, i := 0, 0;
      while i < textLen && x < SSD1306_WIDTH
        invariant 0 <= i && x == BLOCK * i && x <= SSD1306_WIDTH
        invariant i <= textLen || i == 0
        invariant Draw(Row(page), text, textLen, invert, i) == Draw(before, text, textLen, invert, 0)
        invariant forall p, c :: 0 <= p < SSD1306_PAGES && p != page && 0 <= c < SSD1306_WIDTH ==>
                    cells[p, c] == old(cells[p, c])
      {
        var ch := text[i];
        if Printable(ch) {
          PaintBlock(page, x, Ink(invert));
        }
        x := x + BLOCK;
        i := i + 1;
      }
      err := Ok;
    }
  }

  /** A page row of a fresh buffer: every column blank. */
  const BLANK_ROW: seq<bv8> := seq(SSD1306_WIDTH, _ => 0)

  /** A fresh row draws "Hi": columns 0 .. 15 get the ink and column 16
      stays blank. A newline draws nothing: its block, columns 8 .. 15,
      stays blank even when inverted. */
  lemma DrawExample()
    ensures forall c :: 0 <= c < 16 ==> Draw(BLANK_ROW, "Hi", 2, false, 0)[c] == 0x01
    ensures Draw(BLANK_ROW, "Hi", 2, false, 0)[16] == 0x00
    ensures forall c :: 8 <= c < 16 ==> Draw(BLANK_ROW, "H\ni", 3, true, 0)[c] == 0x00
  {
    forall c | 0 <= c < 16
      ensures Draw(BLANK_ROW, "Hi", 2, false, 0)[c] == 0x01
    {
      DrawCharacter(BLANK_ROW, "Hi", 2, false, c / 8, c % 8);
    }
    DrawLeavesTail(BLANK_ROW, "Hi", 2, false, 16);
    forall c | 8 <= c < 16
      ensures Draw(BLANK_ROW, "H\ni", 3, true, 0)[c] == 0x00
    {
      DrawCharacter(BLANK_ROW, "H\ni", 3, true, 1, c - 8);
    }
  }
}
