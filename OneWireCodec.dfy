/** The byte-level codec of the DS18B20 driver: 1-Wire time slots carried as
    UART bytes (Maxim Application Note 214), the two pre-expanded command
    tables, the decoding of the scratchpad read slots and the presence test.
    Everything here is a value; the driver state lives in module Ds18b20.

    Bytes on the bus are `bv8`, since they are only ever compared. Command
    bytes and the 16-bit reading are numbers in the range of their C types
    (`byte`, `uint16`): on an unsigned value a right shift by one is halving,
    and OR-ing 0x8000 into a value below 0x8000 is adding it, which is how
    the decode loop is stated below. */
module OneWireCodec {

  type byte = x: int | 0 <= x < 0x100
  type uint16 = x: int | 0 <= x < 0x1_0000

  /** One 1-Wire time slot is one UART byte at 115200 baud. Bit0 holds the
      line low for the whole slot and writes a 0; Bit1 never pulls the line,
      so it writes a 1 or opens a read slot in which the sensor may pull. */
  const Bit0: bv8 := 0x00
  const Bit1: bv8 := 0xFF
  /** Sent at 9600 baud: four low bit times form the reset pulse, the four
      high bit times are the window for the sensor's presence pulse. */
  const ResetPulse: bv8 := 0xF0

  /** DS18B20 commands: the ROM command Skip ROM and the function commands
      Convert T and Read Scratchpad. */
  const SkipRom: byte := 0xCC
  const ConvertT: byte := 0x44
  const ReadScratchpad: byte := 0xBE

  predicate IsSlot(b: bv8) {
    b == Bit0 || b == Bit1
  }

  /** The slot that writes `one`. */
  function Slot(one: bool): (b: bv8)
    ensures IsSlot(b) && (b == Bit1 <==> one)
  {
    if one then Bit1 else Bit0
  }

  function Pow2(n: nat): (r: nat)
    ensures r >= 1
  {
    if n == 0 then 1 else 2 * Pow2(n - 1)
  }

  /** Bit i of w, bit 0 being the least significant. */
  predicate Bit(w: nat, i: nat) {
    if i == 0 then w % 2 == 1 else Bit(w / 2, i - 1)
  }

  /** The low n bits of w as n slots, least significant bit first. */
  function ExpandBits(w: nat, n: nat): (r: seq<bv8>)
    ensures |r| == n
    ensures forall i :: 0 <= i < n ==> IsSlot(r[i])
  {
    if n == 0 then [] else [Slot(w % 2 == 1)] + ExpandBits(w / 2, n - 1)
  }

  /** A command or data byte as the 8 slots that carry it on the bus. */
  function Expand(b: byte): (r: seq<bv8>)
    ensures |r| == 8
    ensures forall i :: 0 <= i < 8 ==> IsSlot(r[i]) && (r[i] == Bit1 <==> Bit(b, i))
  {
    ExpandBitsAll(b, 8);
    ExpandBits(b, 8)
  }

  /** Skip ROM then Convert T, as the driver's `temp_convert` table spells
      it out slot by slot. */
  const TempConvert: seq<bv8> := [
    Bit0, Bit0, Bit1, Bit1, Bit0, Bit0, Bit1, Bit1,
    Bit0, Bit0, Bit1, Bit0, Bit0, Bit0, Bit1, Bit0
  ]

  /** Skip ROM then Read Scratchpad, followed by 16 read slots for the
      temperature register, as the driver's `temp_read` table. */
  const TempRead: seq<bv8> := [
    Bit0, Bit0, Bit1, Bit1, Bit0, Bit0, Bit1, Bit1,
    Bit0, Bit1, Bit1, Bit1, Bit1, Bit1, Bit0, Bit1,
    Bit1, Bit1, Bit1, Bit1, Bit1, Bit1, Bit1, Bit1,
    Bit1, Bit1, Bit1, Bit1, Bit1, Bit1, Bit1, Bit1
  ]

  /** The value whose bit i is set exactly when slot i came back as Bit1;
      any other echo (the sensor pulled the line) reads as 0. */
  function SlotsToWord(s: seq<bv8>): (w: nat)
    ensures w < Pow2(|s|)
  {
    if s == [] then 0
    else (if s[0] == Bit1 then 1 else 0) + 2 * SlotsToWord(s[1..])
  }

  /** What an echo says, slot by slot: a 1 exactly where it is Bit1. */
  function Normalize(s: seq<bv8>): (r: seq<bv8>)
    ensures |r| == |s|
    ensures forall i :: 0 <= i < |s| ==> IsSlot(r[i]) && (r[i] == Bit1 <==> s[i] == Bit1)
  {
    if s == [] then [] else [Slot(s[0] == Bit1)] + Normalize(s[1..])
  }

  /** The raw temperature carried by the echo of `temp_read`: its bytes 16
      to 31, the read slots. */
  function ScratchpadTemperature(echo: seq<bv8>): (t: uint16)
    requires |echo| == 32
    ensures forall k :: 0 <= k < 16 ==> (Bit(t, k) <==> echo[16 + k] == Bit1)
  {
    Pow2Sixteen();
    DecodedBits(echo[16..]);
    SlotsToWord(echo[16..])
  }

  /** The reset echo shows a presence pulse unless it is the reset pattern
      unchanged (nobody pulled) or all zero (the line is held low). On the
      open-drain bus a sensor's presence pulse clears some of the four high
      bit times of `0xF0`. */
  predicate Present(echo: bv8) {
    echo != ResetPulse && echo != Bit0
  }

  /** The raw reading in degrees Celsius. The driver keeps it in a
      `uint16_t`, so it is never sign-extended: the result is never
      negative, and below 4096. */
  function Celsius(raw: uint16): (c: real)
    ensures 0.0 <= c < 4096.0
    ensures c * 16.0 == raw as real
  {
    raw as real / 16.0
  }

  // ---------------------------------------------------------------------
  // Lemmas

  lemma Pow2Sixteen()
    ensures Pow2(8) == 0x100 && Pow2(15) == 0x8000 && Pow2(16) == 0x1_0000
  {
    assert Pow2(2) == 4;
    assert Pow2(4) == 16;
    assert Pow2(6) == 64;
    assert Pow2(8) == 0x100;
    assert Pow2(10) == 0x400;
    assert Pow2(12) == 0x1000;
    assert Pow2(14) == 0x4000;
  }

  lemma {:induction false} ExpandBitsAt(w: nat, n: nat, i: nat)
    requires i < n
    ensures ExpandBits(w, n)[i] == Slot(Bit(w, i))
  {
    if i > 0 {
      ExpandBitsAt(w / 2, n - 1, i - 1);
    }
  }

  lemma ExpandBitsAll(w: nat, n: nat)
    ensures forall i :: 0 <= i < n ==> ExpandBits(w, n)[i] == Slot(Bit(w, i))
  {
    forall i | 0 <= i < n
      ensures ExpandBits(w, n)[i] == Slot(Bit(w, i))
    {
      ExpandBitsAt(w, n, i);
    }
  }

  /** Decoding undoes expansion: a value below 2^n comes back from its n
      slots. */
  lemma {:induction false} DecodeExpandBits(w: nat, n: nat)
    requires w < Pow2(n)
    ensures SlotsToWord(ExpandBits(w, n)) == w
  {
    if n > 0 {
      var e := ExpandBits(w, n);
      assert e[1..] == ExpandBits(w / 2, n - 1);
      DecodeExpandBits(w / 2, n - 1);
    }
  }

  /** Expansion undoes decoding, up to what the echo means. */
  lemma {:induction false} ExpandDecode(s: seq<bv8>)
    ensures ExpandBits(SlotsToWord(s), |s|) == Normalize(s)
  {
    if s != [] {
      ExpandDecode(s[1..]);
    }
  }

  /** The n + m low bits of lo + 2^n * hi are the n bits of lo followed by
      the m bits of hi. */
  lemma {:induction false} ExpandBitsSplit(lo: nat, hi: nat, n: nat, m: nat)
    requires lo < Pow2(n)
    ensures ExpandBits(lo + Pow2(n) * hi, n + m) == ExpandBits(lo, n) + ExpandBits(hi, m)
  {
    if n > 0 {
      var x := lo + Pow2(n) * hi;
      HalfOfSplit(lo, hi, n);
      ExpandBitsSplit(lo / 2, hi, n - 1, m);
      assert ExpandBits(x, n + m) == [Slot(x % 2 == 1)] + ExpandBits(x / 2, n - 1 + m);
      assert ExpandBits(lo, n) == [Slot(lo % 2 == 1)] + ExpandBits(lo / 2, n - 1);
    }
  }

  /** The arithmetic of one step of ExpandBitsSplit. */
  lemma HalfOfSplit(lo: nat, hi: nat, n: nat)
    requires n > 0 && lo < Pow2(n)
    ensures (lo + Pow2(n) * hi) % 2 == lo % 2
    ensures (lo + Pow2(n) * hi) / 2 == lo / 2 + Pow2(n - 1) * hi
    ensures lo / 2 < Pow2(n - 1)
  {
    var p := Pow2(n - 1);
    assert Pow2(n) * hi == 2 * (p * hi);
  }

  /** Bit k of the decoded word is set exactly when slot k is Bit1. */
  lemma DecodedBits(s: seq<bv8>)
    ensures forall k :: 0 <= k < |s| ==> (Bit(SlotsToWord(s), k) <==> s[k] == Bit1)
  {
    ExpandDecode(s);
    ExpandBitsAll(SlotsToWord(s), |s|);
  }

  /** Both directions of decoding: the 16 read slots decode to v exactly
      when they say v's bits, least significant first. */
  lemma DecodeIff(s: seq<bv8>, v: uint16)
    requires |s| == 16
    ensures SlotsToWord(s) == v <==> Normalize(s) == ExpandBits(v, 16)
  {
    Pow2Sixteen();
    ExpandDecode(s);
    DecodeExpandBits(v, 16);
    if Normalize(s) == ExpandBits(v, 16) {
      SlotsToWordNormalize(s);
    }
  }

  /** Decoding looks at nothing but which slots are Bit1. */
  lemma {:induction false} SlotsToWordNormalize(s: seq<bv8>)
    ensures SlotsToWord(Normalize(s)) == SlotsToWord(s)
  {
    if s != [] {
      SlotsToWordNormalize(s[1..]);
    }
  }

  lemma ExpandSkipRom()
    ensures Expand(SkipRom) == [Bit0, Bit0, Bit1, Bit1, Bit0, Bit0, Bit1, Bit1]
  {
  }

  lemma ExpandConvertT()
    ensures Expand(ConvertT) == [Bit0, Bit0, Bit1, Bit0, Bit0, Bit0, Bit1, Bit0]
  {
  }

  lemma ExpandReadScratchpad()
    ensures Expand(ReadScratchpad) == [Bit0, Bit1, Bit1, Bit1, Bit1, Bit1, Bit0, Bit1]
  {
  }

  /** The table `temp_convert` is Skip ROM then Convert T, each byte least
      significant bit first. */
  lemma TempConvertIsExpansion()
    ensures TempConvert == Expand(SkipRom) + Expand(ConvertT)
    ensures forall i :: 0 <= i < |TempConvert| ==> IsSlot(TempConvert[i])
  {
    ExpandSkipRom();
    ExpandConvertT();
  }

  /** The table `temp_read` is Skip ROM then Read Scratchpad, then 16 read
      slots. */
  lemma TempReadIsExpansion()
    ensures |TempRead| == 32
    ensures TempRead[..16] == Expand(SkipRom) + Expand(ReadScratchpad)
    ensures forall i :: 16 <= i < 32 ==> TempRead[i] == Bit1
    ensures forall i :: 0 <= i < |TempRead| ==> IsSlot(TempRead[i])
  {
    ExpandSkipRom();
    ExpandReadScratchpad();
  }

  /** Round trip: a sensor answering the read slots with the two bytes of v,
      low byte first as the scratchpad sends them, yields v. */
  lemma RoundTrip(prefix: seq<bv8>, v: uint16)
    requires |prefix| == 16
    ensures ScratchpadTemperature(prefix + Expand(v % 0x100) + Expand(v / 0x100)) == v
  {
    Pow2Sixteen();
    var echo := prefix + Expand(v % 0x100) + Expand(v / 0x100);
    assert echo[16..] == Expand(v % 0x100) + Expand(v / 0x100);
    ExpandBitsSplit(v % 0x100, v / 0x100, 8, 8);
    DecodeExpandBits(v, 16);
  }

  /** 0x0191 sent by the sensor reads as 25.0625 degrees. */
  lemma ExampleReading(prefix: seq<bv8>)
    requires |prefix| == 32 - 16
    ensures Celsius(ScratchpadTemperature(prefix + Expand(0x91) + Expand(0x01))) == 25.0625
  {
    var v: uint16 := 0x0191;
    assert v % 0x100 == 0x91 && v / 0x100 == 0x01;
    RoundTrip(prefix, v);
  }

  /** A negative reading in the sensor's two's complement, -10.125 degrees
      (0xFF5E), is not sign-extended and reads as 4085.875. */
  lemma NegativeReadingNotSignExtended(prefix: seq<bv8>)
    requires |prefix| == 16
    ensures Celsius(ScratchpadTemperature(prefix + Expand(0x5E) + Expand(0xFF))) == 4085.875
  {
    var v: uint16 := 0xFF5E;
    assert v % 0x100 == 0x5E && v / 0x100 == 0xFF;
    RoundTrip(prefix, v);
  }

  /** Appending a slot sets the bit at its position. */
  lemma {:induction false} SlotsToWordSnoc(u: seq<bv8>, b: bv8)
    ensures SlotsToWord(u + [b]) == SlotsToWord(u) + (if b == Bit1 then Pow2(|u|) else 0)
  {
    if u == [] {
      assert u + [b] == [b];
    } else {
      assert (u + [b])[1..] == u[1..] + [b];
      SlotsToWordSnoc(u[1..], b);
    }
  }

  lemma {:induction false} SlotsToWordZeros(n: nat)
    ensures SlotsToWord(seq(n, _ => Bit0)) == 0
  {
    if n > 0 {
      assert seq(n, _ => Bit0)[1..] == seq(n - 1, _ => Bit0);
      SlotsToWordZeros(n - 1);
    }
  }

  /** One iteration of the driver's decode loop: halving the word and
      putting the new slot's bit on top is dropping the leading empty slot
      of a 16-slot window and appending the new one. */
  lemma ShiftIn(s: seq<bv8>, b: bv8)
    requires |s| == 16 && s[0] != Bit1
    ensures SlotsToWord(s[1..] + [b])
         == SlotsToWord(s) / 2 + (if b == Bit1 then 0x8000 else 0)
  {
    Pow2Sixteen();
    assert SlotsToWord(s) == 2 * SlotsToWord(s[1..]);
    SlotsToWordSnoc(s[1..], b);
  }
}
