/** The monitoring loop of main (main.c:33-81): per iteration, the status
    row, the reading row and the buzzer latch.  The reading itself (ADC
    sample, conversion to degrees, comparison with 80.0 and formatting) is
    abstracted: an iteration receives `hot`, the outcome of the comparison,
    and `text`, the formatted reading as the bytes of a C string. */
module Monitor {
  import opened Protocol
  import opened Lcd

  /** The three string literals of the loop body: the status for a hot
      reading, the status otherwise, and the row of blanks that clears the
      second row. */
  datatype Texts = Texts(warning: seq<bv8>, normal: seq<bv8>, blank: seq<bv8>)
  {
    /** The first row's text for a reading. */
    function Status(hot: bool): seq<bv8>
    {
      if hot then warning else normal
    }
  }

  /** "WARNING: HOT!   " (main.c:56). */
  const WarningText: seq<bv8> :=
    [0x57, 0x41, 0x52, 0x4E, 0x49, 0x4E, 0x47, 0x3A, 0x20, 0x48, 0x4F, 0x54, 0x21, 0x20, 0x20, 0x20]

  /** "Temperature:    " (main.c:58). */
  const NormalText: seq<bv8> :=
    [0x54, 0x65, 0x6D, 0x70, 0x65, 0x72, 0x61, 0x74, 0x75, 0x72, 0x65, 0x3A, 0x20, 0x20, 0x20, 0x20]

  /** Sixteen spaces (main.c:63). */
  const BlankRow: seq<bv8> :=
    [0x20, 0x20, 0x20, 0x20, 0x20, 0x20, 0x20, 0x20, 0x20, 0x20, 0x20, 0x20, 0x20, 0x20, 0x20, 0x20]

  const Fixed: Texts := Texts(WarningText, NormalText, BlankRow)

  /** A text LCD_String sends whole and that fills one 16-column row. */
  predicate FillsRow(s: seq<bv8>)
  {
    |s| == 16 && UntilNul(s) == s
  }

  /** The loop's texts each fill a row, and the blank row is all spaces. */
  predicate RowTexts(tx: Texts)
  {
    FillsRow(tx.warning) && FillsRow(tx.normal) && FillsRow(tx.blank)
    && forall i | 0 <= i < |tx.blank| :: tx.blank[i] == 0x20
  }

  lemma WarningTextFillsRow()
    ensures FillsRow(WarningText)
  {
    UntilNulAt(WarningText, 16);
  }

  lemma NormalTextFillsRow()
    ensures FillsRow(NormalText)
  {
    UntilNulAt(NormalText, 16);
  }

  lemma BlankRowFillsRow()
    ensures FillsRow(BlankRow)
  {
    UntilNulAt(BlankRow, 16);
  }

  /** The clearing text of main.c:63 is all spaces. */
  lemma BlankRowSpaces()
    ensures forall i | 0 <= i < |BlankRow| :: BlankRow[i] == 0x20
  {
  }

  /** The literals of main.c:56, 58 and 63 each fill the 16-column rows
      without a NUL, so every one of their characters is sent, and the
      clearing text is all spaces. */
  lemma FixedTexts()
    ensures RowTexts(Fixed)
  {
    WarningTextFillsRow();
    NormalTextFillsRow();
    BlankRowFillsRow();
    BlankRowSpaces();
  }

  /** The buzzer pulses in an iteration exactly when the reading is hot and
      the latch is clear (main.c:68). */
  predicate Pulses(triggered: bool, hot: bool)
  {
    hot && !triggered
  }

  /** buzzer_triggered after one iteration (main.c:68-77): set by the pulse,
      cleared by a reading that is not hot.  Whatever it was before, it then
      tells whether this reading was hot. */
  function NextLatch(triggered: bool, hot: bool): (t: bool)
    ensures t == hot
  {
    var afterPulse := if Pulses(triggered, hot) then true else triggered;
    if !hot then false else afterPulse
  }

  /** The bytes that render the first row (main.c:53-59): the cursor to
      row 1, column 1, then the status text. */
  function StatusFrames(tx: Texts, hot: bool): seq<Frame>
  {
    [Frame(CommandMode, CursorAddress(1, 1))] + Frames(DataMode, UntilNul(tx.Status(hot)))
  }

  /** The bytes that render the second row (main.c:61-65): the cursor to
      row 2, a row of blanks, the cursor to row 2 again, then the reading. */
  function ReadingFrames(tx: Texts, text: seq<bv8>): seq<Frame>
  {
    [Frame(CommandMode, CursorAddress(2, 1))] + Frames(DataMode, UntilNul(tx.blank))
    + [Frame(CommandMode, CursorAddress(2, 1))] + Frames(DataMode, UntilNul(text))
  }

  /** The bytes one iteration sends to the display. */
  function StepFrames(tx: Texts, hot: bool, text: seq<bv8>): seq<Frame>
  {
    StatusFrames(tx, hot) + ReadingFrames(tx, text)
  }

  /** The latches of an iteration's display traffic, row by row, and the
      byte it ends with. */
  lemma StepEncoding(tx: Texts, hot: bool, text: seq<bv8>, t0: seq<Event>, t1: seq<Event>, t2: seq<Event>)
    requires t1 == t0 + Encode(StatusFrames(tx, hot))
    requires t2 == t1 + Encode(ReadingFrames(tx, text))
    ensures t2 == t0 + Encode(StepFrames(tx, hot, text))
    ensures Last(StepFrames(tx, hot, text)) == Last(ReadingFrames(tx, text))
  {
    EncodeAppend(StatusFrames(tx, hot), ReadingFrames(tx, text));
  }

  /** The buzzer writes of one iteration (main.c:68-73). */
  function PulseEvents(triggered: bool, hot: bool): seq<Event>
  {
    if Pulses(triggered, hot) then [Buzzer(1), Buzzer(0)] else []
  }

  /** What an observer of the pins sees during one iteration: the display
      traffic, then the buzzer switched on and off when it pulses. */
  function StepTrace(tx: Texts, triggered: bool, hot: bool, text: seq<bv8>): seq<Event>
  {
    Encode(StepFrames(tx, hot, text)) + PulseEvents(triggered, hot)
  }

  /** An iteration's trace: its display traffic, then its buzzer writes. */
  lemma StepTraceParts(tx: Texts, triggered: bool, hot: bool, text: seq<bv8>,
                       t0: seq<Event>, t1: seq<Event>, t2: seq<Event>)
    requires t1 == t0 + Encode(StepFrames(tx, hot, text))
    requires Pulses(triggered, hot) ==> t2 == t1 + [Buzzer(1)] + [Buzzer(0)]
    requires !Pulses(triggered, hot) ==> t2 == t1
    ensures t2 == t0 + StepTrace(tx, triggered, hot, text)
  {
  }

  /** The last byte of a non-empty stream. */
  function Last(fs: seq<Frame>): Frame
    requires fs != []
  {
    fs[|fs| - 1]
  }

  lemma LastAfterString(fs: seq<Frame>, p: seq<bv8>)
    requires fs != []
    ensures Last(fs + Frames(DataMode, p)) == if p == [] then Last(fs) else Frame(DataMode, p[|p| - 1])
  {
    if p == [] {
      assert fs + Frames(DataMode, p) == fs;
    }
  }

  /** The latches of the status row, piece by piece. */
  lemma StatusEncoding(tx: Texts, hot: bool, t0: seq<Event>, t1: seq<Event>, t2: seq<Event>)
    requires t1 == t0 + Transmit(Frame(CommandMode, CursorAddress(1, 1)))
    requires t2 == t1 + Encode(Frames(DataMode, UntilNul(tx.Status(hot))))
    ensures t2 == t0 + Encode(StatusFrames(tx, hot))
  {
    EncodeOne(Frame(CommandMode, CursorAddress(1, 1)));
    EncodeAppend([Frame(CommandMode, CursorAddress(1, 1))], Frames(DataMode, UntilNul(tx.Status(hot))));
  }

  /** The status row ends with the last character of the status text, or
      with the cursor command when the text is empty. */
  lemma StatusLast(tx: Texts, hot: bool)
    ensures Last(StatusFrames(tx, hot))
      == if UntilNul(tx.Status(hot)) == [] then Frame(CommandMode, CursorAddress(1, 1))
         else Frame(DataMode, UntilNul(tx.Status(hot))[|UntilNul(tx.Status(hot))| - 1])
  {
    LastAfterString([Frame(CommandMode, CursorAddress(1, 1))], UntilNul(tx.Status(hot)));
  }

  /** The latches of a cursor command, some bytes, the same cursor
      command and more bytes, piece by piece. */
  lemma EncodeCursorTwice(c: Frame, a: seq<Frame>, b: seq<Frame>)
    ensures Encode([c] + a + [c] + b) == Transmit(c) + Encode(a) + Transmit(c) + Encode(b)
  {
    EncodeOne(c);
    EncodeAppend([c], a);
    EncodeAppend([c] + a, [c]);
    EncodeAppend([c] + a + [c], b);
  }

  /** The latches of the reading row, piece by piece. */
  lemma ReadingEncoding(tx: Texts, text: seq<bv8>, t0: seq<Event>, t1: seq<Event>,
                        t2: seq<Event>, t3: seq<Event>, t4: seq<Event>)
    requires t1 == t0 + Transmit(Frame(CommandMode, CursorAddress(2, 1)))
    requires t2 == t1 + Encode(Frames(DataMode, UntilNul(tx.blank)))
    requires t3 == t2 + Transmit(Frame(CommandMode, CursorAddress(2, 1)))
    requires t4 == t3 + Encode(Frames(DataMode, UntilNul(text)))
    ensures t4 == t0 + Encode(ReadingFrames(tx, text))
  {
    EncodeCursorTwice(Frame(CommandMode, CursorAddress(2, 1)), Frames(DataMode, UntilNul(tx.blank)),
                      Frames(DataMode, UntilNul(text)));
  }

  /** The reading row ends with the last character of the reading, or with
      the cursor command when the reading is empty. */
  lemma ReadingLast(tx: Texts, text: seq<bv8>)
    ensures Last(ReadingFrames(tx, text))
      == if UntilNul(text) == [] then Frame(CommandMode, CursorAddress(2, 1))
         else Frame(DataMode, UntilNul(text)[|UntilNul(text)| - 1])
  {
    var c2 := Frame(CommandMode, CursorAddress(2, 1));
    LastAfterString([c2] + Frames(DataMode, UntilNul(tx.blank)) + [c2], UntilNul(text));
  }

  /** The levels written to the buzzer line, in order. */
  function BuzzerWrites(t: seq<Event>): seq<bv1>
  {
    if t == [] then []
    else (if t[0].Buzzer? then [t[0].level] else []) + BuzzerWrites(t[1..])
  }

  /** n pulses of the buzzer: on, off, n times. */
  function PulseTrain(n: nat): seq<bv1>
  {
    if n == 0 then [] else [1, 0] + PulseTrain(n - 1)
  }

  lemma {:induction false} BuzzerWritesAppend(a: seq<Event>, b: seq<Event>)
    ensures BuzzerWrites(a + b) == BuzzerWrites(a) + BuzzerWrites(b)
  {
    if a == [] {
      assert a + b == b;
    } else {
      var head := if a[0].Buzzer? then [a[0].level] else [];
      assert (a + b)[0] == a[0];
      assert (a + b)[1..] == a[1..] + b;
      BuzzerWritesAppend(a[1..], b);
      calc {
        BuzzerWrites(a + b);
        head + BuzzerWrites(a[1..] + b);
        head + (BuzzerWrites(a[1..]) + BuzzerWrites(b));
        (head + BuzzerWrites(a[1..])) + BuzzerWrites(b);
      }
    }
  }

  /** The display traffic never touches the buzzer line. */
  lemma {:induction false} NoBuzzerInDisplayTraffic(fs: seq<Frame>)
    ensures BuzzerWrites(Encode(fs)) == []
  {
    if fs != [] {
      NoBuzzerInDisplayTraffic(fs[1..]);
      BuzzerWritesAppend(Transmit(fs[0]), Encode(fs[1..]));
      assert Transmit(fs[0])[1..][1..] == [];
    }
  }

  lemma {:induction false} PulseTrainAppend(m: nat, n: nat)
    ensures PulseTrain(m) + PulseTrain(n) == PulseTrain(m + n)
  {
    if m > 0 {
      PulseTrainAppend(m - 1, n);
    }
  }

  /** In one iteration the buzzer line is written only for a pulse: on, then
      off, when the reading is hot and the latch clear; not at all
      otherwise. */
  lemma StepBuzzer(tx: Texts, triggered: bool, hot: bool, text: seq<bv8>)
    ensures BuzzerWrites(StepTrace(tx, triggered, hot, text))
      == if hot && !triggered then [1, 0] else []
  {
    var tail := PulseEvents(triggered, hot);
    NoBuzzerInDisplayTraffic(StepFrames(tx, hot, text));
    BuzzerWritesAppend(Encode(StepFrames(tx, hot, text)), tail);
    if tail != [] {
      assert tail[1..][1..] == [];
      assert BuzzerWrites(tail) == [1] + BuzzerWrites(tail[1..]);
      assert BuzzerWrites(tail[1..]) == [0] + BuzzerWrites(tail[1..][1..]);
    }
  }

  /** The hot flags of a sequence of readings. */
  function Hots(readings: seq<Reading>): (h: seq<bool>)
    ensures |h| == |readings|
    ensures forall i | 0 <= i < |readings| :: h[i] == readings[i].hot
  {
    seq(|readings|, i requires 0 <= i < |readings| => readings[i].hot)
  }

  datatype Reading = Reading(hot: bool, text: seq<bv8>)

  /** buzzer_triggered after a sequence of iterations.  After at least one
      iteration it tells whether the last reading was hot: in particular it
      is clear after every reading that is not hot. */
  function LatchAfter(triggered: bool, hots: seq<bool>): (t: bool)
    ensures hots != [] ==> t == hots[|hots| - 1]
    ensures hots == [] ==> t == triggered
    decreases |hots|
  {
    if hots == [] then triggered else LatchAfter(NextLatch(triggered, hots[0]), hots[1..])
  }

  /** The number of iterations that pulse the buzzer. */
  function PulseCount(triggered: bool, hots: seq<bool>): nat
    decreases |hots|
  {
    if hots == [] then 0
    else (if Pulses(triggered, hots[0]) then 1 else 0) + PulseCount(NextLatch(triggered, hots[0]), hots[1..])
  }

  /** What remains of `s` once its leading run of hot readings is dropped. */
  function DropRun(s: seq<bool>): (r: seq<bool>)
    ensures |r| <= |s|
    ensures r == [] || !r[0]
  {
    if s == [] || !s[0] then s else DropRun(s[1..])
  }

  /** The number of maximal contiguous runs of hot readings in `s`, counted
      by consuming each run whole. */
  function Runs(s: seq<bool>): nat
    decreases |s|
  {
    if s == [] then 0
    else if !s[0] then Runs(s[1..])
    else 1 + Runs(DropRun(s[1..]))
  }

  /** Reading i begins a run of hot readings. */
  predicate RunStart(hots: seq<bool>, i: nat)
    requires i < |hots|
  {
    hots[i] && (i == 0 || !hots[i - 1])
  }

  /** Dropping a leading run removes exactly one run, if there is one. */
  lemma RunsDropRun(s: seq<bool>)
    ensures Runs(DropRun(s)) + (if s != [] && s[0] then 1 else 0) == Runs(s)
  {
  }

  /** The buzzer pulses once per maximal run of hot readings, from a latch
      in any state: a latch already set when the first run begins suppresses
      that run's pulse. */
  lemma {:induction false} PulseCountIsRuns(triggered: bool, hots: seq<bool>)
    ensures PulseCount(triggered, hots) + (if triggered && hots != [] && hots[0] then 1 else 0)
      == Runs(hots)
    decreases |hots|
  {
    if hots != [] {
      PulseCountIsRuns(NextLatch(triggered, hots[0]), hots[1..]);
      RunsDropRun(hots[1..]);
    }
  }

  /** From the initial clear latch (main.c:37), iteration i pulses the
      buzzer if and only if reading i begins a run of hot readings: never
      twice within a run. */
  lemma PulseExactlyAtRunStart(hots: seq<bool>, i: nat)
    requires i < |hots|
    ensures Pulses(LatchAfter(false, hots[..i]), hots[i]) <==> RunStart(hots, i)
  {
    if i > 0 {
      assert hots[..i][i - 1] == hots[i - 1];
    }
  }

  /** The trace of the first |readings| iterations of the loop. */
  function LoopTrace(tx: Texts, triggered: bool, readings: seq<Reading>): seq<Event>
    decreases |readings|
  {
    if readings == [] then []
    else StepTrace(tx, triggered, readings[0].hot, readings[0].text)
         + LoopTrace(tx, NextLatch(triggered, readings[0].hot), readings[1..])
  }

  lemma {:induction false} LoopTraceSnoc(tx: Texts, triggered: bool, readings: seq<Reading>, r: Reading)
    ensures LoopTrace(tx, triggered, readings + [r])
      == LoopTrace(tx, triggered, readings) + StepTrace(tx, LatchAfter(triggered, Hots(readings)), r.hot, r.text)
    decreases |readings|
  {
    if readings == [] {
      assert [r][1..] == [];
    } else {
      var h := readings[0];
      var next := NextLatch(triggered, h.hot);
      var first := StepTrace(tx, triggered, h.hot, h.text);
      var last := StepTrace(tx, LatchAfter(triggered, Hots(readings)), r.hot, r.text);
      SnocTail(readings, r);
      LatchAfterCons(triggered, readings);
      LoopTraceSnoc(tx, next, readings[1..], r);
      calc {
        LoopTrace(tx, triggered, readings + [r]);
        first + LoopTrace(tx, next, readings[1..] + [r]);
        first + (LoopTrace(tx, next, readings[1..]) + last);
        { Regroup(first, LoopTrace(tx, next, readings[1..]), last); }
        (first + LoopTrace(tx, next, readings[1..])) + last;
        LoopTrace(tx, triggered, readings) + last;
      }
    }
  }

  /** The latch after a nonempty sequence of readings is the latch after
      its tail, started from the latch after its first reading. */
  lemma LatchAfterCons(triggered: bool, readings: seq<Reading>)
    requires readings != []
    ensures LatchAfter(NextLatch(triggered, readings[0].hot), Hots(readings[1..]))
      == LatchAfter(triggered, Hots(readings))
  {
    if readings[1..] != [] {
      assert Hots(readings[1..])[|readings| - 2] == readings[|readings| - 1].hot;
    }
  }

  /** The trace of the first i + 1 iterations extends that of the first i
      by one iteration's trace. */
  lemma LoopTracePrefix(tx: Texts, triggered: bool, readings: seq<Reading>, i: nat)
    requires i < |readings|
    ensures LoopTrace(tx, triggered, readings[..i + 1])
      == LoopTrace(tx, triggered, readings[..i])
       + StepTrace(tx, LatchAfter(triggered, Hots(readings[..i])), readings[i].hot, readings[i].text)
  {
    LoopTraceSnoc(tx, triggered, readings[..i], readings[i]);
    TakeOneMore(readings, i);
  }

  /** One more iteration extends the trace of a run of the loop. */
  lemma RunStepTrace(tx: Texts, triggered: bool, readings: seq<Reading>, i: nat,
                     base: seq<Event>, before: seq<Event>, after: seq<Event>)
    requires i < |readings|
    requires before == base + LoopTrace(tx, triggered, readings[..i])
    requires after == before + StepTrace(tx, LatchAfter(triggered, Hots(readings[..i])), readings[i].hot, readings[i].text)
    ensures after == base + LoopTrace(tx, triggered, readings[..i + 1])
  {
    LoopTracePrefix(tx, triggered, readings, i);
  }

  /** One more iteration moves the latch to the hotness of the new
      reading. */
  lemma RunStepLatch(triggered: bool, readings: seq<Reading>, i: nat)
    requires i < |readings|
    ensures NextLatch(LatchAfter(triggered, Hots(readings[..i])), readings[i].hot)
      == LatchAfter(triggered, Hots(readings[..i + 1]))
  {
    assert Hots(readings[..i + 1])[i] == readings[i].hot;
  }

  /** The buzzer writes of a run of the loop: those of its first iteration,
      then those of the rest. */
  lemma LoopBuzzerCons(tx: Texts, triggered: bool, readings: seq<Reading>)
    requires readings != []
    ensures BuzzerWrites(LoopTrace(tx, triggered, readings))
      == BuzzerWrites(StepTrace(tx, triggered, readings[0].hot, readings[0].text))
       + BuzzerWrites(LoopTrace(tx, NextLatch(triggered, readings[0].hot), readings[1..]))
  {
    BuzzerWritesAppend(StepTrace(tx, triggered, readings[0].hot, readings[0].text),
                       LoopTrace(tx, NextLatch(triggered, readings[0].hot), readings[1..]));
  }

  /** The pulse count of a run of the loop: that of its first iteration,
      plus that of the rest. */
  lemma PulseCountCons(triggered: bool, readings: seq<Reading>)
    requires readings != []
    ensures PulseCount(triggered, Hots(readings))
      == (if Pulses(triggered, readings[0].hot) then 1 else 0)
       + PulseCount(NextLatch(triggered, readings[0].hot), Hots(readings[1..]))
  {
    assert Hots(readings)[1..] == Hots(readings[1..]);
  }

  /** Over any sequence of readings the buzzer line carries one on-off pulse
      per iteration that pulses, and nothing else. */
  lemma {:induction false} LoopBuzzer(tx: Texts, triggered: bool, readings: seq<Reading>)
    ensures BuzzerWrites(LoopTrace(tx, triggered, readings)) == PulseTrain(PulseCount(triggered, Hots(readings)))
    decreases |readings|
  {
    if readings != [] {
      var r := readings[0];
      var next := NextLatch(triggered, r.hot);
      LoopBuzzerCons(tx, triggered, readings);
      StepBuzzer(tx, triggered, r.hot, r.text);
      LoopBuzzer(tx, next, readings[1..]);
      PulseCountCons(triggered, readings);
      PulseTrainAppend(if Pulses(triggered, r.hot) then 1 else 0, PulseCount(next, Hots(readings[1..])));
    }
  }

  /** From power-on (latch clear), the buzzer pulses once per maximal
      contiguous run of hot readings. */
  lemma PulsesPerHotRun(tx: Texts, readings: seq<Reading>)
    ensures BuzzerWrites(LoopTrace(tx, false, readings)) == PulseTrain(Runs(Hots(readings)))
  {
    LoopBuzzer(tx, false, readings);
    PulseCountIsRuns(false, Hots(readings));
  }

  /** The program state of main: the board it drives, the string literals
      it shows and buzzer_triggered. */
  class Controller {
    const board: Board
    const texts: Texts
    var buzzerTriggered: bool

    /** main.c:37-45: the latch starts clear, the buzzer off, the display
        initialised. */
    constructor (b: Board)
      modifies b
      ensures board == b && texts == Fixed && !buzzerTriggered
      ensures b.trace == old(b.trace) + [Buzzer(0)] + Encode(Frames(CommandMode, InitCommands))
      ensures b.RC0 == 0 && b.Rests(Frame(CommandMode, 0x01))
    {
      board := b;
      texts := Fixed;
      buzzerTriggered := false;
      new;
      b.WriteBuzzer(0);
      b.Init();
    }

    /** main.c:53-59: the status row. */
    method ShowStatus(hot: bool)
      modifies board
      ensures board.trace == old(board.trace) + Encode(StatusFrames(texts, hot))
      ensures board.Rests(Last(StatusFrames(texts, hot))) && board.RC0 == old(board.RC0)
    {
      ghost var t0 := board.trace;
      board.SetCursor(1, 1);
      ghost var t1 := board.trace;
      if hot {
        board.String(texts.warning);
      } else {
        board.String(texts.normal);
      }
      StatusEncoding(texts, hot, t0, t1, board.trace);
      StatusLast(texts, hot);
    }

    /** main.c:61-65: the reading row, cleared with blanks first. */
    method ShowReading(text: seq<bv8>)
      modifies board
      ensures board.trace == old(board.trace) + Encode(ReadingFrames(texts, text))
      ensures board.Rests(Last(ReadingFrames(texts, text))) && board.RC0 == old(board.RC0)
    {
      ghost var t0 := board.trace;
      board.SetCursor(2, 1);
      ghost var t1 := board.trace;
      board.String(texts.blank);
      ghost var t2 := board.trace;
      board.SetCursor(2, 1);
      ghost var t3 := board.trace;
      board.String(text);
      ReadingEncoding(texts, text, t0, t1, t2, t3, board.trace);
      ReadingLast(texts, text);
    }

    /** One iteration of the loop (main.c:53-77). */
    method Step(hot: bool, text: seq<bv8>)
      modifies this, board
      ensures buzzerTriggered == NextLatch(old(buzzerTriggered), hot)
      ensures board.trace == old(board.trace) + StepTrace(texts, old(buzzerTriggered), hot, text)
      ensures board.RC0 == if Pulses(old(buzzerTriggered), hot) then 0 else old(board.RC0)
      ensures board.Rests(Last(StepFrames(texts, hot, text)))
    {
      ghost var t0 := board.trace;
      ShowStatus(hot);
      ghost var t1 := board.trace;
      ShowReading(text);
      StepEncoding(texts, hot, text, t0, t1, board.trace);
      ghost var t2 := board.trace;
      ghost var triggered := buzzerTriggered;

      if hot && !buzzerTriggered {
        board.WriteBuzzer(1);
        board.WriteBuzzer(0);
        buzzerTriggered := true;
      }
      if !hot {
        buzzerTriggered := false;
      }
      StepTraceParts(texts, triggered, hot, text, t0, t2, board.trace);
    }

    /** The first |readings| iterations of the loop. */
    method Run(readings: seq<Reading>)
      modifies this, board
      ensures buzzerTriggered == LatchAfter(old(buzzerTriggered), Hots(readings))
      ensures board.trace == old(board.trace) + LoopTrace(texts, old(buzzerTriggered), readings)
    {
      var i := 0;
      while i < |readings|
        invariant 0 <= i <= |readings|
        invariant buzzerTriggered == LatchAfter(old(buzzerTriggered), Hots(readings[..i]))
        invariant board.trace == old(board.trace) + LoopTrace(texts, old(buzzerTriggered), readings[..i])
      {
        ghost var before := board.trace;
        Step(readings[i].hot, readings[i].text);
        RunStepTrace(texts, old(buzzerTriggered), readings, i, old(board.trace), before, board.trace);
        RunStepLatch(old(buzzerTriggered), readings, i);
        i := i + 1;
      }
      assert readings[..i] == readings;
    }
  }
}
