/** The HD44780-style 4-bit bus as seen from outside the microcontroller:
    what one latched nibble is, how a byte becomes two of them, how a trace
    of latched nibbles reads back as bytes, and the cursor address command. */
module Protocol {

  datatype Option<T> = None | Some(value: T)

  /** Something an observer of the output pins sees.  `Latch` is the falling
      edge of EN, which latches RS and the data lines D7..D4 into the display;
      `Buzzer` is a write of the buzzer line RC0. */
  datatype Event = Latch(rs: bv1, nibble: bv4) | Buzzer(level: bv1)

  /** One byte as the display receives it, with the level of RS
      (0: command register, 1: data register). */
  datatype Frame = Frame(rs: bv1, value: bv8)

  const CommandMode: bv1 := 0
  const DataMode: bv1 := 1

  /** The commands LCD_Init sends, in order: 4-bit mode, two lines with the
      5x7 font, display on with the cursor off, auto-increment, clear. */
  const InitCommands: seq<bv8> := [0x02, 0x28, 0x0C, 0x06, 0x01]

  /** Bit k of a byte, as main.c:87-96 computes it: (b >> k) & 1. */
  function Bit(b: bv8, k: nat): bv1
    requires k < 8
  {
    ((b >> k) & 1) as bv1
  }

  /** Bit k of a nibble, where bit 0 is the level of D4 and bit 3 that of D7. */
  function NibbleBit(n: bv4, k: nat): bv1
    requires k < 4
  {
    ((n >> k) & 1) as bv1
  }

  /** The four data lines read as a nibble, D4 being the least significant. */
  function Lines(d4: bv1, d5: bv1, d6: bv1, d7: bv1): (n: bv4)
    ensures NibbleBit(n, 0) == d4 && NibbleBit(n, 1) == d5
    ensures NibbleBit(n, 2) == d6 && NibbleBit(n, 3) == d7
  {
    ((d7 as bv4) << 3) | ((d6 as bv4) << 2) | ((d5 as bv4) << 1) | (d4 as bv4)
  }

  function High(b: bv8): bv4 { (b >> 4) as bv4 }

  function Low(b: bv8): bv4 { (b & 0xF) as bv4 }

  /** The byte whose high nibble is `hi` and whose low nibble is `lo`. */
  function Join(hi: bv4, lo: bv4): bv8 { ((hi as bv8) << 4) | (lo as bv8) }

  /** The high nibble carries bits 4-7 of the byte and the low nibble bits
      0-3, each on D4..D7 in bit order. */
  lemma NibbleBits(b: bv8)
    ensures forall k | 0 <= k < 4 :: NibbleBit(High(b), k) == Bit(b, k + 4)
    ensures forall k | 0 <= k < 4 :: NibbleBit(Low(b), k) == Bit(b, k)
  {
  }

  /** Splitting a byte into nibbles and joining them again recovers it, and
      the first nibble times 16 plus the second is its value. */
  lemma SplitJoin(b: bv8)
    ensures Join(High(b), Low(b)) == b
    ensures High(b) as int * 16 + Low(b) as int == b as int
  {
  }

  lemma JoinSplit(hi: bv4, lo: bv4)
    ensures High(Join(hi, lo)) == hi && Low(Join(hi, lo)) == lo
  {
  }

  /** The two latches that carry one byte: the high nibble first. */
  function Transmit(f: Frame): seq<Event>
  {
    [Latch(f.rs, High(f.value)), Latch(f.rs, Low(f.value))]
  }

  /** Sending a byte latches two nibbles with its RS level: first bits 4-7,
      then bits 0-3, each on D4..D7 in bit order; the first nibble times 16
      plus the second is the byte. */
  lemma TransmitNibbles(f: Frame)
    ensures |Transmit(f)| == 2 && Transmit(f)[0].Latch? && Transmit(f)[1].Latch?
    ensures Transmit(f)[0].rs == f.rs && Transmit(f)[1].rs == f.rs
    ensures forall k | 0 <= k < 4 ::
      NibbleBit(Transmit(f)[0].nibble, k) == Bit(f.value, k + 4) && NibbleBit(Transmit(f)[1].nibble, k) == Bit(f.value, k)
    ensures Transmit(f)[0].nibble as int * 16 + Transmit(f)[1].nibble as int == f.value as int
  {
    NibbleBits(f.value);
    SplitJoin(f.value);
  }

  /** Setting D4..D7 to bits 4-7 of a byte puts its high nibble on the
      data lines, and bits 0-3 its low nibble. */
  lemma LinesOfBits(b: bv8)
    ensures Lines(Bit(b, 4), Bit(b, 5), Bit(b, 6), Bit(b, 7)) == High(b)
    ensures Lines(Bit(b, 0), Bit(b, 1), Bit(b, 2), Bit(b, 3)) == Low(b)
  {
  }

  /** A latch of the high nibble followed by one of the low nibble is the
      transmission of the byte. */
  lemma TransmitParts(f: Frame, t0: seq<Event>, t1: seq<Event>, t2: seq<Event>)
    requires t1 == t0 + [Latch(f.rs, High(f.value))]
    requires t2 == t1 + [Latch(f.rs, Low(f.value))]
    ensures t2 == t0 + Transmit(f)
  {
    assert [Latch(f.rs, High(f.value))] + [Latch(f.rs, Low(f.value))] == Transmit(f);
    Regroup(t0, [Latch(f.rs, High(f.value))], [Latch(f.rs, Low(f.value))]);
  }

  /** The latches that carry a sequence of bytes, byte by byte. */
  function Encode(fs: seq<Frame>): seq<Event>
  {
    if fs == [] then [] else Transmit(fs[0]) + Encode(fs[1..])
  }

  /** Every byte of `bs`, sent with RS at `rs`. */
  function Frames(rs: bv1, bs: seq<bv8>): (fs: seq<Frame>)
    ensures |fs| == |bs|
    ensures forall i | 0 <= i < |bs| :: fs[i] == Frame(rs, bs[i])
  {
    seq(|bs|, i requires 0 <= i < |bs| => Frame(rs, bs[i]))
  }

  /** Reads a trace of latches back as bytes: consecutive pairs of latches
      with the same RS level form one byte, high nibble first.  A trace that
      stops half way through a byte, changes RS inside a byte or holds other
      events is not a byte stream. */
  function Decode(t: seq<Event>): Option<seq<Frame>>
    decreases |t|
  {
    if t == [] then Some([])
    else if |t| < 2 || !t[0].Latch? || !t[1].Latch? || t[0].rs != t[1].rs then None
    else
      match Decode(t[2..])
      case None => None
      case Some(rest) => Some([Frame(t[0].rs, Join(t[0].nibble, t[1].nibble))] + rest)
  }

  /** Concatenation regroups freely; stated once over opaque operands so
      that proofs about long traces need not re-derive it element by
      element. */
  lemma Regroup<T>(a: seq<T>, b: seq<T>, c: seq<T>)
    ensures a + (b + c) == (a + b) + c
  {
  }

  /** The head and tail of a sequence with one more element at its end. */
  lemma SnocTail<T>(s: seq<T>, x: T)
    requires s != []
    ensures (s + [x])[0] == s[0] && (s + [x])[1..] == s[1..] + [x]
  {
  }

  /** A prefix one element longer is the prefix with that element added. */
  lemma TakeOneMore<T>(s: seq<T>, i: nat)
    requires i < |s|
    ensures s[..i + 1] == s[..i] + [s[i]]
  {
  }

  lemma {:induction false} EncodeAppend(a: seq<Frame>, b: seq<Frame>)
    ensures Encode(a + b) == Encode(a) + Encode(b)
  {
    if a == [] {
      assert a + b == b;
    } else {
      assert (a + b)[1..] == a[1..] + b;
      EncodeAppend(a[1..], b);
    }
  }

  lemma EncodeOne(f: Frame)
    ensures Encode([f]) == Transmit(f)
  {
    assert Encode([f]) == Transmit(f) + Encode([]);
  }

  /** `Frames` distributes over concatenation. */
  lemma FramesAppend(rs: bv1, a: seq<bv8>, b: seq<bv8>)
    ensures Frames(rs, a + b) == Frames(rs, a) + Frames(rs, b)
  {
  }

  /** A stream of n bytes is 2n latches, every one with the stream's RS
      level, and nothing else. */
  lemma {:induction false} EncodeShape(rs: bv1, bs: seq<bv8>)
    ensures |Encode(Frames(rs, bs))| == 2 * |bs|
    ensures forall i | 0 <= i < 2 * |bs| :: Encode(Frames(rs, bs))[i].Latch?
    ensures forall i | 0 <= i < 2 * |bs| :: Encode(Frames(rs, bs))[i].rs == rs
  {
    if bs != [] {
      assert Frames(rs, bs)[1..] == Frames(rs, bs[1..]);
      EncodeShape(rs, bs[1..]);
    }
  }

  /** Decoding what was encoded gives back the bytes that were sent. */
  lemma {:induction false} DecodeEncode(fs: seq<Frame>)
    ensures Decode(Encode(fs)) == Some(fs)
  {
    if fs != [] {
      var t := Encode(fs);
      assert t[2..] == Encode(fs[1..]);
      DecodeEncode(fs[1..]);
      SplitJoin(fs[0].value);
      assert [fs[0]] + fs[1..] == fs;
    }
  }

  /** Sending one more byte of `bs` after its first i bytes extends the
      traffic of those i bytes to that of the first i + 1. */
  lemma EncodePrefixStep(rs: bv1, bs: seq<bv8>, i: nat, t0: seq<Event>, t1: seq<Event>, t2: seq<Event>)
    requires i < |bs|
    requires t1 == t0 + Encode(Frames(rs, bs[..i]))
    requires t2 == t1 + Transmit(Frame(rs, bs[i]))
    ensures t2 == t0 + Encode(Frames(rs, bs[..i + 1]))
  {
    TakeOneMore(bs, i);
    FramesAppend(rs, bs[..i], [bs[i]]);
    EncodeAppend(Frames(rs, bs[..i]), Frames(rs, [bs[i]]));
    EncodeOne(Frame(rs, bs[i]));
    assert Frames(rs, [bs[i]]) == [Frame(rs, bs[i])];
    Regroup(t0, Encode(Frames(rs, bs[..i])), Transmit(Frame(rs, bs[i])));
  }

  /** A trace that decodes is exactly the encoding of what it decodes to:
      no latch is lost or added by reading a trace as bytes. */
  lemma {:induction false} EncodeDecode(t: seq<Event>, fs: seq<Frame>)
    requires Decode(t) == Some(fs)
    ensures Encode(fs) == t
  {
    if t != [] {
      var rest := Decode(t[2..]).value;
      var f := Frame(t[0].rs, Join(t[0].nibble, t[1].nibble));
      assert fs == [f] + rest;
      assert Transmit(f) == t[..2] by {
        JoinSplit(t[0].nibble, t[1].nibble);
      }
      assert Encode(rest) == t[2..] by {
        EncodeDecode(t[2..], rest);
      }
      calc {
        Encode(fs);
        Transmit(f) + Encode(fs[1..]);
        { assert fs[1..] == rest; }
        t[..2] + t[2..];
        t;
      }
    }
  }

  /** With the same byte, the command path and the data path latch the same
      nibbles in the same order; only RS differs. */
  lemma CommandAndDataDifferInRsOnly(b: bv8)
    ensures |Transmit(Frame(CommandMode, b))| == |Transmit(Frame(DataMode, b))| == 2
    ensures forall i | 0 <= i < 2 ::
      Transmit(Frame(CommandMode, b))[i] == Transmit(Frame(DataMode, b))[i].(rs := CommandMode)
  {
  }

  /** The characters a C string presents: everything before the first NUL,
      or the whole sequence when it holds none. */
  function UntilNul(s: seq<bv8>): (p: seq<bv8>)
    ensures |p| <= |s| && p == s[..|p|]
    ensures forall i | 0 <= i < |p| :: p[i] != 0
    ensures |p| == |s| || s[|p|] == 0
  {
    if s == [] || s[0] == 0 then [] else [s[0]] + UntilNul(s[1..])
  }

  /** The prefix before the first NUL is the only one with the properties
      stated of `UntilNul`. */
  lemma UntilNulAt(s: seq<bv8>, i: nat)
    requires i <= |s|
    requires forall j | 0 <= j < i :: s[j] != 0
    requires i == |s| || s[i] == 0
    ensures UntilNul(s) == s[..i]
  {
  }

  /** The set DDRAM address command that LCD_Set_Cursor sends: base 0x80 for
      row 1 and 0xC0 for any other row, plus the 1-based column minus one,
      computed in unsigned char arithmetic (modulo 256). */
  function CursorAddress(row: bv8, column: bv8): bv8
  {
    (if row == 1 then 0x80 else 0xC0) + column - 1
  }

  /** The cursor address is the integer sum reduced modulo 256, and any row
      value other than 1 addresses the second row. */
  lemma CursorAddressValue(row: bv8, column: bv8)
    ensures CursorAddress(row, column) as int
      == ((if row == 1 then 0x80 else 0xC0) + column as int - 1) % 256
    ensures row != 1 ==> CursorAddress(row, column) == CursorAddress(2, column)
  {
    if row == 1 { FirstRowWraps(column); } else { SecondRowWraps(column); }
  }

  /** The sums of the two rows' base addresses and a column, as integers
      modulo 256. */
  lemma FirstRowWraps(column: bv8)
    ensures (0x80 + column - 1) as int == (0x80 + column as int - 1) % 256
  {
  }

  lemma SecondRowWraps(column: bv8)
    ensures (0xC0 + column - 1) as int == (0xC0 + column as int - 1) % 256
  {
  }

  lemma CursorAddressExamples()
    ensures CursorAddress(1, 1) == 0x80
    ensures CursorAddress(1, 5) == 0x84
    ensures CursorAddress(2, 16) == 0xCF
  {
  }

  /** The row and 1-based column that a set DDRAM address command selects
      on a two-line display. */
  function CursorPosition(cmd: bv8): (bv8, bv8)
  {
    (if cmd & 0x40 == 0 then 1 else 2, (cmd & 0x3F) + 1)
  }

  /** For rows 1 and 2 and columns 1 to 64 the command the driver sends is a
      set DDRAM address command (bit 7 set) that selects that row and
      column; column 0 wraps to a command without bit 7. */
  lemma CursorRoundTrip(row: bv8, column: bv8)
    requires row == 1 || row == 2
    requires 1 <= column <= 64
    ensures CursorAddress(row, column) & 0x80 == 0x80
    ensures CursorPosition(CursorAddress(row, column)) == (row, column)
    ensures column <= 40 ==> LineCell(row, CursorAddress(row, column) & 0x7F)
    ensures column > 40 ==> !LineCell(1, CursorAddress(row, column) & 0x7F) && !LineCell(2, CursorAddress(row, column) & 0x7F)
  {
  }

  /** A display RAM address that is one of the 40 cells of a line of a
      two-line display: 0x00-0x27 for line 1, 0x40-0x67 for line 2. */
  predicate LineCell(row: bv8, address: bv8)
  {
    if row == 1 then address < 0x28 else 0x40 <= address < 0x68
  }

  lemma CursorColumnZero()
    ensures CursorAddress(1, 0) == 0x7F && CursorAddress(1, 0) & 0x80 == 0 && CursorAddress(1, 0) & 0x40 == 0x40
    ensures CursorAddress(2, 0) == 0xBF && CursorAddress(2, 0) & 0x80 == 0x80 && CursorAddress(2, 0) & 0x7F == 0x3F
  {
  }
}
