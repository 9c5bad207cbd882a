/** The display controller on the other end of the bus: an HD44780-style
    controller receiving whole bytes (commands with RS low, characters with
    RS high).  This is what gives the bytes the driver sends a meaning: the
    characters each row of a 16x2 display shows. */
module Hd44780 {
  import opened Protocol

  /** The controller's state: the display data RAM (DDRAM, 128 addressable
      cells, of which 0x00-0x27 hold line 1 and 0x40-0x67 line 2), the
      address counter, whether characters go to the character generator RAM
      (CGRAM) instead, and the mode flags the commands set. */
  datatype State = State(
    ddram: seq<bv8>,
    address: nat,
    cgram: bool,
    increment: bool,
    shift: bool,
    on: bool,
    cursor: bool,
    blink: bool,
    twoLines: bool,
    tallFont: bool)

  predicate Valid(s: State)
  {
    |s.ddram| == 128 && s.address < 128
  }

  /** The byte that shows as a blank. */
  const Space: bv8 := 0x20

  function Blanks(n: nat): (r: seq<bv8>)
    ensures |r| == n && forall i | 0 <= i < n :: r[i] == Space
  {
    seq(n, _ => Space)
  }

  /** The address counter after a character or a cursor move, in the
      direction the entry mode selects.  With two lines the end of line 1
      (0x27) continues at the start of line 2 (0x40) and the end of line 2
      (0x67) at the start of line 1; with one line the 80 cells 0x00-0x4F form
      one ring. */
  function Advance(a: nat, twoLines: bool, increment: bool): (r: nat)
    requires a < 128
    ensures r < 128
  {
    if increment then
      if twoLines then (if a == 0x27 then 0x40 else if a == 0x67 then 0 else (a + 1) % 128)
      else (if a == 0x4F then 0 else (a + 1) % 128)
    else
      if twoLines then (if a == 0x40 then 0x27 else if a == 0 then 0x67 else a - 1)
      else (if a == 0 then 0x4F else a - 1)
  }

  /** A command byte, decoded by its highest set bit. */
  function Execute(s: State, c: bv8): (r: State)
    requires Valid(s)
    ensures Valid(r)
  {
    if c & 0x80 != 0 then
      // Set DDRAM address.
      s.(address := (c & 0x7F) as int, cgram := false)
    else if c & 0x40 != 0 then
      // Set CGRAM address: later characters define glyphs.
      s.(cgram := true)
    else if c & 0x20 != 0 then
      // Function set: number of lines and font.
      s.(twoLines := c & 0x08 != 0, tallFont := c & 0x04 != 0)
    else if c & 0x10 != 0 then
      // Cursor or display shift: only the cursor move is modelled.
      if c & 0x08 == 0 then s.(address := Advance(s.address, s.twoLines, c & 0x04 != 0)) else s
    else if c & 0x08 != 0 then
      // Display on/off control.
      s.(on := c & 0x04 != 0, cursor := c & 0x02 != 0, blink := c & 0x01 != 0)
    else if c & 0x04 != 0 then
      // Entry mode set.
      s.(increment := c & 0x02 != 0, shift := c & 0x01 != 0)
    else if c & 0x02 != 0 then
      // Return home.
      s.(address := 0, cgram := false)
    else if c & 0x01 != 0 then
      // Clear display: every cell blank, home, increment.
      s.(ddram := Blanks(128), address := 0, cgram := false, increment := true)
    else
      s
  }

  /** A character byte: stored at the address counter, which then moves on.
      Glyph definitions in CGRAM are not modelled. */
  function WriteData(s: State, b: bv8): (r: State)
    requires Valid(s)
    ensures Valid(r)
  {
    if s.cgram then s
    else s.(ddram := s.ddram[s.address := b], address := Advance(s.address, s.twoLines, s.increment))
  }

  /** One byte as the controller receives it. */
  function Apply(s: State, f: Frame): (r: State)
    requires Valid(s)
    ensures Valid(r)
  {
    if f.rs == DataMode then WriteData(s, f.value) else Execute(s, f.value)
  }

  /** A sequence of bytes, in order. */
  function Run(s: State, fs: seq<Frame>): (r: State)
    requires Valid(s)
    ensures Valid(r)
    decreases |fs|
  {
    if fs == [] then s else Run(Apply(s, fs[0]), fs[1..])
  }

  /** The sixteen characters row 1 or row 2 shows, the display not being
      shifted. */
  function Row(s: State, row: nat): (r: seq<bv8>)
    requires Valid(s) && (row == 1 || row == 2)
    ensures |r| == 16
  {
    if row == 1 then s.ddram[0x00..0x10] else s.ddram[0x40..0x50]
  }

  /** The state LCD_Init leaves: all blank, cursor home, two lines with the
      small font, display on, cursor and blink off, increment without shift. */
  const Initialised: State :=
    State(Blanks(128), 0, false, true, false, true, false, false, true, false)

  /** The controller writes characters to consecutive cells of DDRAM. */
  predicate Writing(s: State)
  {
    Valid(s) && !s.cgram && s.increment && s.twoLines
  }

  lemma {:induction false} RunAppend(s: State, a: seq<Frame>, b: seq<Frame>)
    requires Valid(s)
    ensures Run(s, a + b) == Run(Run(s, a), b)
    decreases |a|
  {
    if a == [] {
      assert a + b == b;
    } else {
      assert (a + b)[1..] == a[1..] + b;
      RunAppend(Apply(s, a[0]), a[1..], b);
    }
  }

  /** Whatever state the controller was in, the five commands of LCD_Init
      leave it in the same state. */
  lemma InitFromAnyState(s: State)
    requires Valid(s)
    ensures Run(s, Frames(CommandMode, InitCommands)) == Initialised
  {
    var fs := Frames(CommandMode, InitCommands);
    assert fs == [Frame(CommandMode, 0x02), Frame(CommandMode, 0x28), Frame(CommandMode, 0x0C),
                  Frame(CommandMode, 0x06), Frame(CommandMode, 0x01)];
    var s1 := Execute(s, 0x02);
    var s2 := Execute(s1, 0x28);
    var s3 := Execute(s2, 0x0C);
    var s4 := Execute(s3, 0x06);
    var s5 := Execute(s4, 0x01);
    assert Run(s5, fs[5..]) == s5;
    assert Run(s4, fs[4..]) == Run(s5, fs[5..]);
    assert Run(s3, fs[3..]) == Run(s4, fs[4..]);
    assert Run(s2, fs[2..]) == Run(s3, fs[3..]);
    assert Run(s1, fs[1..]) == Run(s2, fs[2..]);
    assert s5.ddram == Blanks(128);
  }

  /** The set DDRAM address command moves the cursor to the address it
      carries and leaves everything else alone. */
  lemma SetAddress(s: State, c: bv8)
    requires Valid(s) && c & 0x80 != 0
    ensures Run(s, [Frame(CommandMode, c)]) == s.(address := (c & 0x7F) as int, cgram := false)
  {
    assert [Frame(CommandMode, c)][1..] == [];
  }

  /** Characters written from an address with room for them before the end
      of its line land in consecutive cells from that address; no other
      cell and no mode changes. */
  lemma WriteChars(s: State, p: seq<bv8>)
    requires Writing(s)
    requires s.address + |p| < (if s.address < 0x40 then 0x28 else 0x68)
    ensures Run(s, Frames(DataMode, p))
      == s.(ddram := s.ddram[..s.address] + p + s.ddram[s.address + |p|..], address := s.address + |p|)
  {
    WriteCharsInOrder(s, p);
    OverwriteSplice(s.ddram, s.address, p);
  }

  /** The cells from a on, overwritten by p one byte at a time. */
  function Overwrite(d: seq<bv8>, a: nat, p: seq<bv8>): (r: seq<bv8>)
    requires a + |p| <= |d|
    ensures |r| == |d|
    decreases |p|
  {
    if p == [] then d else Overwrite(d[a := p[0]], a + 1, p[1..])
  }

  lemma {:induction false} OverwriteSplice(d: seq<bv8>, a: nat, p: seq<bv8>)
    requires a + |p| <= |d|
    ensures Overwrite(d, a, p) == d[..a] + p + d[a + |p|..]
    decreases |p|
  {
    if p == [] {
      assert d[..a] + p + d[a..] == d;
    } else {
      OverwriteSplice(d[a := p[0]], a + 1, p[1..]);
      Splice(d, a, p);
    }
  }

  /** The characters go one by one into consecutive cells. */
  lemma {:induction false} WriteCharsInOrder(s: State, p: seq<bv8>)
    requires Writing(s)
    requires s.address + |p| < (if s.address < 0x40 then 0x28 else 0x68)
    ensures Run(s, Frames(DataMode, p))
      == s.(ddram := Overwrite(s.ddram, s.address, p), address := s.address + |p|)
    decreases |p|
  {
    if p != [] {
      RunFramesCons(s, DataMode, p);
      WriteOne(s, p[0]);
      WriteCharsInOrder(s.(ddram := s.ddram[s.address := p[0]], address := s.address + 1), p[1..]);
    }
  }

  /** Running the bytes of a nonempty sequence is applying the first, then
      running the rest. */
  lemma RunFramesCons(s: State, rs: bv1, p: seq<bv8>)
    requires Valid(s) && p != []
    ensures Run(s, Frames(rs, p)) == Run(Apply(s, Frame(rs, p[0])), Frames(rs, p[1..]))
  {
    assert Frames(rs, p)[1..] == Frames(rs, p[1..]);
  }

  /** A character written before the end of its line lands at the address
      counter, which moves to the next cell. */
  lemma WriteOne(s: State, b: bv8)
    requires Writing(s) && s.address + 1 < (if s.address < 0x40 then 0x28 else 0x68)
    ensures Apply(s, Frame(DataMode, b)) == s.(ddram := s.ddram[s.address := b], address := s.address + 1)
  {
  }

  /** Storing the first of some bytes at index a and the rest after it is
      storing them all from a. */
  lemma Splice<T>(d: seq<T>, a: nat, p: seq<T>)
    requires p != [] && a + |p| <= |d|
    ensures d[a := p[0]][..a + 1] + p[1..] + d[a := p[0]][a + 1 + |p[1..]|..] == d[..a] + p + d[a + |p|..]
  {
    assert d[a := p[0]][..a + 1] == d[..a] + [p[0]];
    assert d[a := p[0]][a + 1 + |p[1..]|..] == d[a + |p|..];
    assert [p[0]] + p[1..] == p;
  }
}
