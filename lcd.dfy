/** The output pins of the board and the display driver that drives them
    (main.c:16-22 and main.c:85-136).  The pins are fields; `trace` is what an
    observer of the pins records: a latch on every falling edge of EN and
    every write of the buzzer line. */
module Lcd {
  import opened Protocol

  class Board {
    var RS: bv1
    var EN: bv1
    var D4: bv1
    var D5: bv1
    var D6: bv1
    var D7: bv1
    var RC0: bv1
    ghost var trace: seq<Event>

    /** All lines low and nothing observed yet; no method relies on the
        initial levels. */
    constructor ()
      ensures RS == 0 && EN == 0 && DataLines() == 0 && RC0 == 0
      ensures trace == []
    {
      RS, EN, D4, D5, D6, D7, RC0 := 0, 0, 0, 0, 0, 0, 0;
      trace := [];
    }

    /** D7..D4 read as a nibble. */
    function DataLines(): bv4
      reads this
    {
      Lines(D4, D5, D6, D7)
    }

    /** The bus rests after byte `f`: RS still selects its register, EN is
        low and the data lines still carry its low nibble. */
    predicate Rests(f: Frame)
      reads this
    {
      RS == f.rs && EN == 0 && DataLines() == Low(f.value)
    }

    /** Drives EN.  The display latches RS and D7..D4 when EN falls. */
    method WriteEnable(level: bv1)
      modifies this
      ensures EN == level
      ensures old(EN) == 1 && level == 0 ==> trace == old(trace) + [Latch(RS, DataLines())]
      ensures !(old(EN) == 1 && level == 0) ==> trace == old(trace)
      ensures RS == old(RS) && D4 == old(D4) && D5 == old(D5) && D6 == old(D6) && D7 == old(D7)
      ensures RC0 == old(RC0)
    {
      var falling := EN == 1 && level == 0;
      EN := level;
      if falling {
        trace := trace + [Latch(RS, DataLines())];
      }
    }

    /** Drives the buzzer line RC0. */
    method WriteBuzzer(level: bv1)
      modifies this
      ensures RC0 == level
      ensures trace == old(trace) + [Buzzer(level)]
      ensures RS == old(RS) && EN == old(EN) && DataLines() == old(DataLines())
    {
      RC0 := level;
      trace := trace + [Buzzer(level)];
    }

    /** LCD_Command: RS low, then the high and the low nibble, each latched
        by an EN pulse. */
    method Command(cmd: bv8)
      modifies this
      ensures trace == old(trace) + Transmit(Frame(CommandMode, cmd))
      ensures Rests(Frame(CommandMode, cmd)) && RC0 == old(RC0)
    {
      ghost var t0 := trace;
      LinesOfBits(cmd);
      RS := 0;
      D4, D5, D6, D7 := Bit(cmd, 4), Bit(cmd, 5), Bit(cmd, 6), Bit(cmd, 7);
      assert DataLines() == High(cmd);
      WriteEnable(1);
      WriteEnable(0);
      ghost var t1 := trace;

      D4, D5, D6, D7 := Bit(cmd, 0), Bit(cmd, 1), Bit(cmd, 2), Bit(cmd, 3);
      assert DataLines() == Low(cmd);
      WriteEnable(1);
      WriteEnable(0);
      TransmitParts(Frame(CommandMode, cmd), t0, t1, trace);
    }

    /** LCD_Char: as `Command`, with RS high. */
    method Char(data: bv8)
      modifies this
      ensures trace == old(trace) + Transmit(Frame(DataMode, data))
      ensures Rests(Frame(DataMode, data)) && RC0 == old(RC0)
    {
      ghost var t0 := trace;
      LinesOfBits(data);
      RS := 1;
      D4, D5, D6, D7 := Bit(data, 4), Bit(data, 5), Bit(data, 6), Bit(data, 7);
      assert DataLines() == High(data);
      WriteEnable(1);
      WriteEnable(0);
      ghost var t1 := trace;

      D4, D5, D6, D7 := Bit(data, 0), Bit(data, 1), Bit(data, 2), Bit(data, 3);
      assert DataLines() == Low(data);
      WriteEnable(1);
      WriteEnable(0);
      TransmitParts(Frame(DataMode, data), t0, t1, trace);
    }

    /** LCD_String: every character before the terminating NUL, in order,
        through the data path; an empty string leaves the pins as they are. */
    method String(s: seq<bv8>)
      modifies this
      ensures trace == old(trace) + Encode(Frames(DataMode, UntilNul(s)))
      ensures UntilNul(s) == [] ==> RS == old(RS) && EN == old(EN) && DataLines() == old(DataLines())
      ensures UntilNul(s) != [] ==> Rests(Frame(DataMode, UntilNul(s)[|UntilNul(s)| - 1]))
      ensures RC0 == old(RC0)
    {
      var i := 0;
      while i < |s| && s[i] != 0
        invariant 0 <= i <= |s|
        invariant forall j | 0 <= j < i :: s[j] != 0
        invariant trace == old(trace) + Encode(Frames(DataMode, s[..i]))
        invariant i == 0 ==> RS == old(RS) && EN == old(EN) && DataLines() == old(DataLines())
        invariant i > 0 ==> Rests(Frame(DataMode, s[i - 1]))
        invariant RC0 == old(RC0)
      {
        ghost var before := trace;
        Char(s[i]);
        EncodePrefixStep(DataMode, s, i, old(trace), before, trace);
        i := i + 1;
      }
      UntilNulAt(s, i);
    }

    /** LCD_Set_Cursor: one command carrying the cursor address. */
    method SetCursor(row: bv8, column: bv8)
      modifies this
      ensures trace == old(trace) + Transmit(Frame(CommandMode, CursorAddress(row, column)))
      ensures Rests(Frame(CommandMode, CursorAddress(row, column))) && RC0 == old(RC0)
    {
      Command(CursorAddress(row, column));
    }

    /** LCD_Init: the five initialisation commands in order, and no data. */
    method Init()
      modifies this
      ensures trace == old(trace) + Encode(Frames(CommandMode, InitCommands))
      ensures Rests(Frame(CommandMode, 0x01)) && RC0 == old(RC0)
    {
      Command(0x02);
      Command(0x28);
      Command(0x0C);
      Command(0x06);
      Command(0x01);
      InitEncoding();
    }
  }

  /** The latches that carry the initialisation commands, command by
      command. */
  lemma InitEncoding()
    ensures Encode(Frames(CommandMode, InitCommands))
      == Transmit(Frame(CommandMode, 0x02)) + Transmit(Frame(CommandMode, 0x28))
       + Transmit(Frame(CommandMode, 0x0C)) + Transmit(Frame(CommandMode, 0x06))
       + Transmit(Frame(CommandMode, 0x01))
  {
    var fs := Frames(CommandMode, InitCommands);
    assert fs == [Frame(CommandMode, 0x02), Frame(CommandMode, 0x28), Frame(CommandMode, 0x0C),
                  Frame(CommandMode, 0x06), Frame(CommandMode, 0x01)];
    assert Encode(fs[4..]) == Transmit(fs[4]) by { EncodeOne(fs[4]); assert fs[4..] == [fs[4]]; }
    assert Encode(fs[3..]) == Transmit(fs[3]) + Encode(fs[4..]) by { assert fs[3..][1..] == fs[4..]; }
    assert Encode(fs[2..]) == Transmit(fs[2]) + Encode(fs[3..]) by { assert fs[2..][1..] == fs[3..]; }
    assert Encode(fs[1..]) == Transmit(fs[1]) + Encode(fs[2..]) by { assert fs[1..][1..] == fs[2..]; }
  }

  /** What LCD_Init sends reads back as exactly its five commands, all on
      the command register: no data byte is written. */
  lemma InitSendsOnlyCommands()
    ensures Decode(Encode(Frames(CommandMode, InitCommands)))
      == Some([Frame(CommandMode, 0x02), Frame(CommandMode, 0x28), Frame(CommandMode, 0x0C),
               Frame(CommandMode, 0x06), Frame(CommandMode, 0x01)])
  {
    DecodeEncode(Frames(CommandMode, InitCommands));
    assert Frames(CommandMode, InitCommands)
      == [Frame(CommandMode, 0x02), Frame(CommandMode, 0x28), Frame(CommandMode, 0x0C),
          Frame(CommandMode, 0x06), Frame(CommandMode, 0x01)];
  }
}
