/** What the display shows: the bytes the monitoring loop sends (Monitor)
    run through the display controller (Hd44780).  Each iteration rewrites
    both rows whole, so after any number of iterations the display shows the
    last reading and nothing left over from earlier ones. */
module Screen {
  import opened Protocol
  import opened Lcd
  import opened Monitor
  import Hd44780

  /** A formatted reading that fits the second row.  The format of main.c:51
      yields at most 14 characters for any value the conversion of main.c:49
      can produce; the formatting itself is not modelled. */
  predicate Fits(text: seq<bv8>)
  {
    |UntilNul(text)| <= 16
  }

  /** The second row for a reading: its characters, then blanks to the end
      of the row. */
  function ReadingRow(text: seq<bv8>): (r: seq<bv8>)
    requires Fits(text)
    ensures |r| == 16 && r[..|UntilNul(text)|] == UntilNul(text)
    ensures forall i | |UntilNul(text)| <= i < 16 :: r[i] == Hd44780.Space
  {
    UntilNul(text) + Hd44780.Blanks(16 - |UntilNul(text)|)
  }

  /** The start of the row a set DDRAM address command for row 1 or row 2,
      column 1, selects. */
  function RowStart(c: bv8): nat
  {
    if c == 0x80 then 0x00 else 0x40
  }

  /** A cursor command to the start of a row, then characters: the first
      |p| cells of that row become p. */
  lemma WriteRow(s: Hd44780.State, c: bv8, p: seq<bv8>)
    requires Hd44780.Writing(s) && (c == 0x80 || c == 0xC0) && |p| <= 16
    ensures Hd44780.Run(s, [Frame(CommandMode, c)] + Frames(DataMode, p))
      == s.(ddram := s.ddram[..RowStart(c)] + p + s.ddram[RowStart(c) + |p|..],
            address := RowStart(c) + |p|, cgram := false)
  {
    var a := RowStart(c);
    assert (c & 0x7F) as int == a;
    Hd44780.RunAppend(s, [Frame(CommandMode, c)], Frames(DataMode, p));
    Hd44780.SetAddress(s, c);
    var s1 := s.(address := a, cgram := false);
    Hd44780.WriteChars(s1, p);
  }

  /** The status half of an iteration writes the status text over the
      first row. */
  lemma StatusRow(s: Hd44780.State, tx: Texts, hot: bool)
    requires Hd44780.Writing(s) && RowTexts(tx)
    ensures var r := Hd44780.Run(s, StatusFrames(tx, hot));
      Hd44780.Writing(r) && r == s.(ddram := r.ddram, address := r.address, cgram := false)
      && r.ddram[0x00..0x10] == tx.Status(hot) && r.ddram[0x40..0x50] == s.ddram[0x40..0x50]
  {
    var status := UntilNul(tx.Status(hot));
    assert CursorAddress(1, 1) == 0x80;
    assert status == tx.Status(hot);
    WriteRow(s, 0x80, status);
  }

  /** Clearing the second row: blanks over it, the first row untouched. */
  lemma ClearSecondRow(s: Hd44780.State, blank: seq<bv8>)
    requires Hd44780.Writing(s) && |blank| == 16
    ensures var r := Hd44780.Run(s, [Frame(CommandMode, 0xC0)] + Frames(DataMode, blank));
      Hd44780.Writing(r) && r == s.(ddram := r.ddram, address := r.address, cgram := false)
      && r.ddram[0x00..0x10] == s.ddram[0x00..0x10] && r.ddram[0x40..0x50] == blank
  {
    WriteRow(s, 0xC0, blank);
  }

  /** Writing the reading from the start of the second row: the reading,
      then what the row held after it, the first row untouched. */
  lemma WriteSecondRow(s: Hd44780.State, p: seq<bv8>)
    requires Hd44780.Writing(s) && |p| <= 16
    ensures var r := Hd44780.Run(s, [Frame(CommandMode, 0xC0)] + Frames(DataMode, p));
      Hd44780.Writing(r) && r == s.(ddram := r.ddram, address := r.address, cgram := false)
      && r.ddram[0x00..0x10] == s.ddram[0x00..0x10]
      && r.ddram[0x40..0x50] == p + s.ddram[0x40 + |p|..0x50]
  {
    WriteRow(s, 0xC0, p);
  }

  /** The reading half of an iteration: the second row shows the reading
      padded with blanks, the first row untouched. */
  lemma ReadingRows(s: Hd44780.State, tx: Texts, text: seq<bv8>)
    requires Hd44780.Writing(s) && RowTexts(tx) && Fits(text)
    ensures var r := Hd44780.Run(s, ReadingFrames(tx, text));
      Hd44780.Writing(r) && r == s.(ddram := r.ddram, address := r.address, cgram := false)
      && r.ddram[0x00..0x10] == s.ddram[0x00..0x10] && r.ddram[0x40..0x50] == ReadingRow(text)
  {
    var row2 := [Frame(CommandMode, 0xC0)];
    var blank := UntilNul(tx.blank);
    var p := UntilNul(text);
    assert CursorAddress(2, 1) == 0xC0;
    assert blank == tx.blank;
    assert ReadingFrames(tx, text) == (row2 + Frames(DataMode, blank)) + (row2 + Frames(DataMode, p));
    Hd44780.RunAppend(s, row2 + Frames(DataMode, blank), row2 + Frames(DataMode, p));
    var s1 := Hd44780.Run(s, row2 + Frames(DataMode, blank));
    ClearSecondRow(s, blank);
    WriteSecondRow(s1, p);
    PaddedReading(s1.ddram, blank, text);
  }

  /** Writing a reading over a row of blanks leaves the reading padded with
      blanks. */
  lemma PaddedReading(d: seq<bv8>, blank: seq<bv8>, text: seq<bv8>)
    requires |d| == 128 && d[0x40..0x50] == blank && Fits(text)
    requires forall i | 0 <= i < |blank| :: blank[i] == 0x20
    ensures UntilNul(text) + d[0x40 + |UntilNul(text)|..0x50] == ReadingRow(text)
  {
    var p := UntilNul(text);
    assert d[0x40 + |p|..0x50] == blank[|p|..];
  }

  /** One iteration leaves the first row showing the status text and the
      second the reading padded with blanks, and changes no mode. */
  lemma StepRows(s: Hd44780.State, tx: Texts, hot: bool, text: seq<bv8>)
    requires Hd44780.Writing(s) && RowTexts(tx) && Fits(text)
    ensures var r := Hd44780.Run(s, StepFrames(tx, hot, text));
      Hd44780.Writing(r) && r == s.(ddram := r.ddram, address := r.address, cgram := false)
      && Hd44780.Row(r, 1) == tx.Status(hot) && Hd44780.Row(r, 2) == ReadingRow(text)
  {
    Hd44780.RunAppend(s, StatusFrames(tx, hot), ReadingFrames(tx, text));
    StatusRow(s, tx, hot);
    ReadingRows(Hd44780.Run(s, StatusFrames(tx, hot)), tx, text);
  }

  /** The bytes the first |readings| iterations send to the display. */
  function LoopFrames(tx: Texts, readings: seq<Reading>): seq<Frame>
    decreases |readings|
  {
    if readings == [] then []
    else StepFrames(tx, readings[0].hot, readings[0].text) + LoopFrames(tx, readings[1..])
  }

  /** After one or more iterations from a state that writes characters in
      order, the display shows the last reading: its status on the first row
      and its value on the second. */
  lemma LoopRows(s: Hd44780.State, tx: Texts, readings: seq<Reading>)
    requires Hd44780.Writing(s) && RowTexts(tx) && readings != []
    requires forall i | 0 <= i < |readings| :: Fits(readings[i].text)
    ensures var r := Hd44780.Run(s, LoopFrames(tx, readings));
      var last := readings[|readings| - 1];
      Hd44780.Writing(r)
      && Hd44780.Row(r, 1) == tx.Status(last.hot) && Hd44780.Row(r, 2) == ReadingRow(last.text)
  {
    var prefix := readings[..|readings| - 1];
    var last := readings[|readings| - 1];
    assert readings == prefix + [last];
    LoopFramesSnoc(tx, prefix, last);
    LoopKeepsWriting(s, tx, prefix);
    Hd44780.RunAppend(s, LoopFrames(tx, prefix), StepFrames(tx, last.hot, last.text));
    StepRows(Hd44780.Run(s, LoopFrames(tx, prefix)), tx, last.hot, last.text);
  }

  /** The bytes of one more iteration follow those of the ones before. */
  lemma {:induction false} LoopFramesSnoc(tx: Texts, readings: seq<Reading>, r: Reading)
    ensures LoopFrames(tx, readings + [r]) == LoopFrames(tx, readings) + StepFrames(tx, r.hot, r.text)
    decreases |readings|
  {
    if readings == [] {
      assert [r][1..] == [];
      assert LoopFrames(tx, [r]) == StepFrames(tx, r.hot, r.text) + [];
    } else {
      SnocTail(readings, r);
      LoopFramesSnoc(tx, readings[1..], r);
      Regroup(StepFrames(tx, readings[0].hot, readings[0].text), LoopFrames(tx, readings[1..]),
              StepFrames(tx, r.hot, r.text));
    }
  }

  /** Iterations keep the controller writing characters in order. */
  lemma {:induction false} LoopKeepsWriting(s: Hd44780.State, tx: Texts, readings: seq<Reading>)
    requires Hd44780.Writing(s) && RowTexts(tx)
    requires forall i | 0 <= i < |readings| :: Fits(readings[i].text)
    ensures Hd44780.Writing(Hd44780.Run(s, LoopFrames(tx, readings)))
    decreases |readings|
  {
    if readings != [] {
      StepRows(s, tx, readings[0].hot, readings[0].text);
      LoopRunCons(s, tx, readings);
      LoopKeepsWriting(Hd44780.Run(s, StepFrames(tx, readings[0].hot, readings[0].text)), tx, readings[1..]);
    }
  }

  /** Running the bytes of a nonempty sequence of iterations is running
      those of the first, then those of the rest. */
  lemma LoopRunCons(s: Hd44780.State, tx: Texts, readings: seq<Reading>)
    requires Hd44780.Valid(s) && readings != []
    ensures Hd44780.Run(s, LoopFrames(tx, readings))
      == Hd44780.Run(Hd44780.Run(s, StepFrames(tx, readings[0].hot, readings[0].text)), LoopFrames(tx, readings[1..]))
  {
    Hd44780.RunAppend(s, StepFrames(tx, readings[0].hot, readings[0].text), LoopFrames(tx, readings[1..]));
  }

  /** The latches of a trace, the buzzer writes left out. */
  function DisplayTraffic(t: seq<Event>): seq<Event>
  {
    if t == [] then []
    else (if t[0].Latch? then [t[0]] else []) + DisplayTraffic(t[1..])
  }

  lemma {:induction false} DisplayTrafficAppend(a: seq<Event>, b: seq<Event>)
    ensures DisplayTraffic(a + b) == DisplayTraffic(a) + DisplayTraffic(b)
  {
    if a == [] {
      assert a + b == b;
    } else {
      var head := if a[0].Latch? then [a[0]] else [];
      assert (a + b)[0] == a[0];
      assert (a + b)[1..] == a[1..] + b;
      DisplayTrafficAppend(a[1..], b);
      calc {
        DisplayTraffic(a + b);
        head + DisplayTraffic(a[1..] + b);
        head + (DisplayTraffic(a[1..]) + DisplayTraffic(b));
        (head + DisplayTraffic(a[1..])) + DisplayTraffic(b);
      }
    }
  }

  /** The two latches of a byte are display traffic. */
  lemma DisplayTrafficOfTransmit(f: Frame)
    ensures DisplayTraffic(Transmit(f)) == Transmit(f)
  {
    var t := Transmit(f);
    assert t[1..][1..] == [];
    assert DisplayTraffic(t[1..]) == [t[1]] + DisplayTraffic(t[1..][1..]);
    assert DisplayTraffic(t) == [t[0]] + DisplayTraffic(t[1..]);
  }

  /** Display traffic is all latches. */
  lemma {:induction false} DisplayTrafficOfEncode(fs: seq<Frame>)
    ensures DisplayTraffic(Encode(fs)) == Encode(fs)
  {
    if fs != [] {
      DisplayTrafficOfEncode(fs[1..]);
      DisplayTrafficAppend(Transmit(fs[0]), Encode(fs[1..]));
      DisplayTrafficOfTransmit(fs[0]);
    }
  }

  /** The latches of one iteration are the encoding of its display bytes:
      the buzzer pulse adds none. */
  lemma StepDisplayTraffic(tx: Texts, triggered: bool, hot: bool, text: seq<bv8>)
    ensures DisplayTraffic(StepTrace(tx, triggered, hot, text)) == Encode(StepFrames(tx, hot, text))
  {
    var fs := StepFrames(tx, hot, text);
    var pulse := PulseEvents(triggered, hot);
    DisplayTrafficAppend(Encode(fs), pulse);
    DisplayTrafficOfEncode(fs);
    if pulse != [] {
      assert pulse[1..][1..] == [];
      assert DisplayTraffic(pulse[1..]) == DisplayTraffic(pulse[1..][1..]);
      assert DisplayTraffic(pulse) == DisplayTraffic(pulse[1..]);
    }
  }

  /** The latches of a run of the loop: those of its first iteration, then
      those of the rest. */
  lemma DisplayTrafficCons(tx: Texts, triggered: bool, readings: seq<Reading>)
    requires readings != []
    ensures DisplayTraffic(LoopTrace(tx, triggered, readings))
      == DisplayTraffic(StepTrace(tx, triggered, readings[0].hot, readings[0].text))
       + DisplayTraffic(LoopTrace(tx, NextLatch(triggered, readings[0].hot), readings[1..]))
  {
    DisplayTrafficAppend(StepTrace(tx, triggered, readings[0].hot, readings[0].text),
                         LoopTrace(tx, NextLatch(triggered, readings[0].hot), readings[1..]));
  }

  /** The latches of the first |readings| iterations are the encoding of
      the bytes they send to the display, whatever the buzzer does. */
  lemma {:induction false} LoopDisplayTraffic(tx: Texts, triggered: bool, readings: seq<Reading>)
    ensures DisplayTraffic(LoopTrace(tx, triggered, readings)) == Encode(LoopFrames(tx, readings))
    decreases |readings|
  {
    if readings != [] {
      var r := readings[0];
      DisplayTrafficCons(tx, triggered, readings);
      StepDisplayTraffic(tx, triggered, r.hot, r.text);
      LoopDisplayTraffic(tx, NextLatch(triggered, r.hot), readings[1..]);
      EncodeAppend(StepFrames(tx, r.hot, r.text), LoopFrames(tx, readings[1..]));
    }
  }

  /** The pins from power-on through |readings| iterations: the buzzer
      switched off, LCD_Init, then the loop. */
  function ProgramTrace(tx: Texts, readings: seq<Reading>): seq<Event>
  {
    [Buzzer(0)] + Encode(Frames(CommandMode, InitCommands)) + LoopTrace(tx, false, readings)
  }

  /** The display receives exactly LCD_Init's commands followed by the
      bytes of the iterations, whatever the buzzer does in between. */
  lemma ProgramDisplayTraffic(tx: Texts, readings: seq<Reading>)
    ensures Decode(DisplayTraffic(ProgramTrace(tx, readings)))
      == Some(Frames(CommandMode, InitCommands) + LoopFrames(tx, readings))
  {
    AfterSetupTraffic(Frames(CommandMode, InitCommands), tx, readings);
  }

  lemma AfterSetupTraffic(setup: seq<Frame>, tx: Texts, readings: seq<Reading>)
    ensures Decode(DisplayTraffic([Buzzer(0)] + Encode(setup) + LoopTrace(tx, false, readings)))
      == Some(setup + LoopFrames(tx, readings))
  {
    var init := Encode(setup);
    var loop := LoopTrace(tx, false, readings);
    DisplayTrafficAppend([Buzzer(0)] + init, loop);
    DisplayTrafficAppend([Buzzer(0)], init);
    assert DisplayTraffic([Buzzer(0)]) == [] by {
      assert [Buzzer(0)][1..] == [];
    }
    DisplayTrafficOfEncode(setup);
    LoopDisplayTraffic(tx, false, readings);
    assert DisplayTraffic([Buzzer(0)] + init) == init;
    assert DisplayTraffic([Buzzer(0)] + init + loop) == init + Encode(LoopFrames(tx, readings));
    EncodeAppend(setup, LoopFrames(tx, readings));
    DecodeEncode(setup + LoopFrames(tx, readings));
  }

  /** The buzzer line is switched off once at power-on and then pulses once
      per maximal run of hot readings. */
  lemma ProgramBuzzer(tx: Texts, readings: seq<Reading>)
    ensures BuzzerWrites(ProgramTrace(tx, readings)) == [0] + PulseTrain(Runs(Hots(readings)))
  {
    AfterSetupBuzzer(Frames(CommandMode, InitCommands), tx, readings);
  }

  lemma AfterSetupBuzzer(setup: seq<Frame>, tx: Texts, readings: seq<Reading>)
    ensures BuzzerWrites([Buzzer(0)] + Encode(setup) + LoopTrace(tx, false, readings))
      == [0] + PulseTrain(Runs(Hots(readings)))
  {
    var init := Encode(setup);
    var loop := LoopTrace(tx, false, readings);
    BuzzerWritesAppend([Buzzer(0)] + init, loop);
    BuzzerWritesAppend([Buzzer(0)], init);
    assert BuzzerWrites([Buzzer(0)]) == [0] by {
      assert [Buzzer(0)][1..] == [];
    }
    NoBuzzerInDisplayTraffic(setup);
    PulsesPerHotRun(tx, readings);
  }

  lemma ProgramTraceSplit(start: seq<Event>, t: seq<Event>, tx: Texts, readings: seq<Reading>)
    requires start == [] + [Buzzer(0)] + Encode(Frames(CommandMode, InitCommands))
    requires t == start + LoopTrace(tx, false, readings)
    ensures t == ProgramTrace(tx, readings)
  {
  }

  /** main.c:33-80 for a finite sequence of readings: the pins are set up,
      the display initialised and the loop run once per reading. */
  method PowerOn(readings: seq<Reading>) returns (c: Controller)
    ensures fresh(c) && fresh(c.board) && c.texts == Fixed
    ensures c.buzzerTriggered == (readings != [] && readings[|readings| - 1].hot)
    ensures c.board.trace == ProgramTrace(c.texts, readings)
  {
    var b := new Board();
    c := new Controller(b);
    ghost var start := b.trace;
    c.Run(readings);
    ProgramTraceSplit(start, b.trace, c.texts, readings);
  }

  /** Whatever the display held at power-on, once the program has run for
      one or more readings it shows the last one: "WARNING: HOT!" or
      "Temperature:" on the first row, the formatted value on the second. */
  lemma ShowsLastReading(s: Hd44780.State, readings: seq<Reading>)
    requires Hd44780.Valid(s) && readings != []
    requires forall i | 0 <= i < |readings| :: Fits(readings[i].text)
    ensures var r := Hd44780.Run(s, Frames(CommandMode, InitCommands) + LoopFrames(Fixed, readings));
      var last := readings[|readings| - 1];
      Hd44780.Row(r, 1) == Fixed.Status(last.hot) && Hd44780.Row(r, 2) == ReadingRow(last.text)
  {
    Hd44780.InitFromAnyState(s);
    Hd44780.RunAppend(s, Frames(CommandMode, InitCommands), LoopFrames(Fixed, readings));
    FixedTexts();
    LoopRows(Hd44780.Initialised, Fixed, readings);
  }
}
