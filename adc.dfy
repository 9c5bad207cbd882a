/** The analog-to-digital converter as ADC_Init and ADC_Read use it
    (main.c:140-151): the channel select of ADCON0 and the 10-bit result
    read back from ADRESH and ADRESL. */
module Adc {
  import opened Protocol

  /** A conversion result: the converter has a resolution of 10 bits. */
  type Sample = x: bv16 | x < 1024

  /** ADCON0 bit 2: GO/DONE, set to start a conversion and cleared by the
      converter when the result is ready. */
  const GoBit: bv8 := 0x04

  /** ADCON1 bit 7: ADFM, result right-justified when set. */
  const RightJustify: bv8 := 0x80

  /** ADCON0 after `ADCON0 &= 0xC5; ADCON0 |= (channel << 3)` (main.c:146-147).
      The shifted channel is an int in C, truncated to the 8-bit register by
      the assignment; shifting a `bv8` truncates the same way. */
  function SelectChannel(adcon0: bv8, channel: bv8): bv8
  {
    (adcon0 & 0xC5) | (channel << 3)
  }

  /** The channel field, bits 3-5 of ADCON0. */
  function ChannelField(adcon0: bv8): bv8
  {
    (adcon0 >> 3) & 7
  }

  /** For a channel below 8 the channel field then holds the channel, bit 1
      is clear and bits 0, 2, 6 and 7 are as they were. */
  lemma SelectChannelBits(adcon0: bv8, channel: bv8)
    requires channel < 8
    ensures ChannelField(SelectChannel(adcon0, channel)) == channel
    ensures Bit(SelectChannel(adcon0, channel), 1) == 0
    ensures forall k | k in {0, 2, 6, 7} :: Bit(SelectChannel(adcon0, channel), k) == Bit(adcon0, k)
  {
    assert forall k | k in {0, 2, 6, 7} :: Bit(SelectChannel(adcon0, channel), k) == Bit(adcon0, k) by {
      assert Bit(SelectChannel(adcon0, channel), 0) == Bit(adcon0, 0);
      assert Bit(SelectChannel(adcon0, channel), 2) == Bit(adcon0, 2);
      assert Bit(SelectChannel(adcon0, channel), 6) == Bit(adcon0, 6);
      assert Bit(SelectChannel(adcon0, channel), 7) == Bit(adcon0, 7);
    }
  }

  /** Selecting a channel twice is selecting it once, and the last selection
      wins. */
  lemma SelectChannelTwice(adcon0: bv8, first: bv8, second: bv8)
    requires first < 8 && second < 8
    ensures SelectChannel(SelectChannel(adcon0, first), second) == SelectChannel(adcon0, second)
  {
  }

  /** Channel 8 does not fit the field: whatever ADCON0 held, it sets bit 6,
      a bit of the conversion clock select, and leaves the channel field at
      0.  After ADC_Init, whose 0x41 already has bit 6 set, it leaves ADCON0
      as channel 0 does. */
  lemma SelectChannelEight(adcon0: bv8)
    ensures ChannelField(SelectChannel(adcon0, 8)) == 0
    ensures Bit(SelectChannel(adcon0, 8), 6) == 1
    ensures SelectChannel(0x41, 8) == 0x41 == SelectChannel(0x41, 0)
  {
  }

  /** The return value of ADC_Read (main.c:151): ADRESH shifted up by eight
      bits plus ADRESL, in the 16 bits of the compiler's int. */
  function Combine(high: bv8, low: bv8): (r: bv16)
    ensures (r >> 8) as bv8 == high && (r & 0xFF) as bv8 == low
  {
    ((high as bv16) << 8) + (low as bv16)
  }

  /** The value is at most 1023 when ADRESH holds at most two bits, and it
      is non-negative as a 16-bit signed int only when ADRESH is below
      0x80. */
  lemma CombineBounds(high: bv8, low: bv8)
    ensures high <= 3 ==> Combine(high, low) <= 1023
    ensures Combine(high, low) < 0x8000 <==> high < 0x80
  {
  }

  /** The bytes the converter leaves in ADRESH and ADRESL for a result, by
      the justification ADCON1 selects: right-justified, the top two bits
      in ADRESH and the other eight in ADRESL; left-justified, the top eight
      in ADRESH and the last two in the top of ADRESL. */
  function Place(adcon1: bv8, sample: Sample): (bv8, bv8)
  {
    if adcon1 & RightJustify != 0 then ((sample >> 8) as bv8, (sample & 0xFF) as bv8)
    else ((sample >> 2) as bv8, ((sample & 3) << 6) as bv8)
  }

  /** With the right-justified setting ADC_Init chooses, ADC_Read returns the
      conversion result itself; left-justified it would return the result
      times 64. */
  lemma CombinePlace(adcon1: bv8, sample: Sample)
    ensures adcon1 & RightJustify != 0 ==> Combine(Place(adcon1, sample).0, Place(adcon1, sample).1) == sample
    ensures adcon1 & RightJustify == 0 ==> Combine(Place(adcon1, sample).0, Place(adcon1, sample).1) == sample << 6
  {
  }

  /** Setting GO/DONE and the converter clearing it again leaves the other
      bits of ADCON0 as they were. */
  lemma GoCleared(adcon0: bv8)
    ensures (adcon0 | GoBit) & !GoBit == adcon0 & !GoBit
  {
  }

  /** The converter's registers. */
  class Converter {
    var ADCON0: bv8
    var ADCON1: bv8
    var ADRESH: bv8
    var ADRESL: bv8

    /** ADC_Init: converter on, channel 0, clock Fosc/8; result
        right-justified, all pins analog with Vdd and Vss as references. */
    constructor ()
      ensures ADCON0 == 0x41 && ADCON1 == 0x80
      ensures ADRESH == 0 && ADRESL == 0
    {
      ADCON0 := 0x41;
      ADCON1 := 0x80;
      ADRESH, ADRESL := 0, 0;
    }

    /** The converter is on (ADON, bit 0) and no conversion is running
        (GO/DONE, bit 2). */
    predicate Ready()
      reads this
    {
      ADCON0 & GoBit == 0 && Bit(ADCON0, 0) == 1
    }

    /** ADC_Read: select the channel, start a conversion and wait until the
        converter clears GO/DONE, then return the result registers combined.
        `sample` is the result the converter produces; its placement in
        ADRESH and ADRESL follows ADCON1. */
    method Read(channel: bv8, sample: Sample) returns (value: bv16)
      modifies this
      ensures ADCON0 == SelectChannel(old(ADCON0), channel) & !GoBit
      ensures ADCON1 == old(ADCON1)
      ensures (ADRESH, ADRESL) == Place(ADCON1, sample)
      ensures value == Combine(ADRESH, ADRESL)
      ensures ADCON1 & RightJustify != 0 ==> value == sample
    {
      ADCON0 := ADCON0 & 0xC5;
      ADCON0 := ADCON0 | (channel << 3);
      ADCON0 := ADCON0 | GoBit;
      // The conversion: the converter writes the result and clears GO/DONE,
      // which ends the wait of main.c:150.
      var placed := Place(ADCON1, sample);
      ADRESH, ADRESL := placed.0, placed.1;
      ADCON0 := ADCON0 & !GoBit;
      GoCleared(SelectChannel(old(ADCON0), channel));
      value := Combine(ADRESH, ADRESL);
      CombinePlace(ADCON1, sample);
    }
  }

  /** After ADC_Init, reading channel 0 keeps the converter on and on
      channel 0 with no conversion running, and returns the result. */
  method InitThenRead(sample: Sample) returns (value: bv16, c: Converter)
    ensures fresh(c) && c.Ready() && ChannelField(c.ADCON0) == 0
    ensures value == sample
  {
    c := new Converter();
    value := c.Read(0, sample);
    SelectChannelBits(0x41, 0);
  }
}
