/**
  * The HD44780 display driven in 4-bit mode (nnn.c:30-74).
  *
  * Every byte goes over the bus as two strobes of the EN line: first bits 4..7 of the
  * byte on D4..D7, then bits 0..3. RS selects between a command (0) and a character (1).
  * Timing (the EN pulse width and the 2 ms delays) is not part of the model: the bus is
  * a sequence of strobes, each one the levels of RS and D4..D7 while EN is high.
  */
module Lcd {
  import opened Types

  /** Levels of D4, D5, D6, D7 during one strobe. */
  datatype Nibble = Nibble(d4: Bit, d5: Bit, d6: Bit, d7: Bit)

  /** One EN pulse: the level of RS and the nibble on the data lines. */
  datatype Strobe = Strobe(rs: Bit, lines: Nibble)

  /** A byte as the controller means it: a command (RS = 0) or a character (RS = 1). */
  datatype Transfer = CommandByte(value: Byte) | DataByte(value: Byte)

  function Pow2(k: nat): (p: nat)
    ensures p >= 1
  {
    if k == 0 then 1 else 2 * Pow2(k - 1)
  }

  /** `(x >> k) & 1` on a byte. */
  function BitOf(x: Byte, k: nat): Bit
  {
    (x / Pow2(k)) % 2
  }

  /** The number a nibble stands for, D4 being the least significant line. */
  function Value(n: Nibble): (v: nat)
    ensures v < 16
  {
    n.d4 + 2 * n.d5 + 4 * n.d6 + 8 * n.d7
  }

  /** The levels of D4..D7 for the first strobe of a byte: bits 4..7. */
  function HighNibble(x: Byte): (n: Nibble)
    ensures Value(n) == x / 16
  {
    HighBits(x);
    NibbleDigits(x / 16);
    Nibble(BitOf(x, 4), BitOf(x, 5), BitOf(x, 6), BitOf(x, 7))
  }

  /** The levels of D4..D7 for the second strobe of a byte: bits 0..3. */
  function LowNibble(x: Byte): (n: Nibble)
    ensures Value(n) == x % 16
  {
    LowBits(x);
    NibbleDigits(x % 16);
    Nibble(BitOf(x, 0), BitOf(x, 1), BitOf(x, 2), BitOf(x, 3))
  }

  /** Bits 4..7 of a byte are bits 0..3 of the byte shifted right by 4. */
  lemma HighBits(x: Byte)
    ensures BitOf(x, 4) == x / 16 % 2 && BitOf(x, 5) == x / 16 / 2 % 2
    ensures BitOf(x, 6) == x / 16 / 4 % 2 && BitOf(x, 7) == x / 16 / 8 % 2
  {
    assert Pow2(4) == 16 && Pow2(5) == 32 && Pow2(6) == 64 && Pow2(7) == 128;
    Shift5(x);
    Shift6(x);
    Shift7(x);
  }

  lemma Shift5(x: Byte)
    ensures x / 32 == x / 16 / 2
  {
  }

  lemma Shift6(x: Byte)
    ensures x / 64 == x / 16 / 4
  {
  }

  lemma Shift7(x: Byte)
    ensures x / 128 == x / 16 / 8
  {
  }

  /** Bits 0..3 of a byte are the bits of the byte modulo 16. */
  lemma LowBits(x: Byte)
    ensures BitOf(x, 0) == x % 16 % 2 && BitOf(x, 1) == x % 16 / 2 % 2
    ensures BitOf(x, 2) == x % 16 / 4 % 2 && BitOf(x, 3) == x % 16 / 8 % 2
  {
    assert Pow2(0) == 1 && Pow2(1) == 2 && Pow2(2) == 4 && Pow2(3) == 8;
    Bit0(x);
    Bit1(x);
    Bit2(x);
    Bit3(x);
  }

  lemma Bit0(x: Byte)
    ensures x % 16 % 2 == x % 2
  {
  }

  lemma Bit1(x: Byte)
    ensures x % 16 / 2 % 2 == x / 2 % 2
  {
  }

  lemma Bit2(x: Byte)
    ensures x % 16 / 4 % 2 == x / 4 % 2
  {
  }

  lemma Bit3(x: Byte)
    ensures x % 16 / 8 % 2 == x / 8 % 2
  {
  }

  lemma NibbleDigits(y: nat)
    requires y < 16
    ensures y % 2 + 2 * (y / 2 % 2) + 4 * (y / 4 % 2) + 8 * (y / 8 % 2) == y
  {
  }

  /** The byte the display latches from a high and a low nibble. */
  function Join(hi: Nibble, lo: Nibble): Byte
  {
    Value(hi) * 16 + Value(lo)
  }

  /** Sending the two nibbles of a byte and joining them gives the byte back. */
  lemma JoinSplit(x: Byte)
    ensures Join(HighNibble(x), LowNibble(x)) == x
  {
  }

  /** Every pair of nibbles is the split of exactly one byte: the one they join to. */
  lemma SplitJoin(hi: Nibble, lo: Nibble)
    ensures HighNibble(Join(hi, lo)) == hi && LowNibble(Join(hi, lo)) == lo
  {
    var x := Join(hi, lo);
    assert x / 16 == Value(hi) && x % 16 == Value(lo);
    ValueInjective(HighNibble(x), hi);
    ValueInjective(LowNibble(x), lo);
  }

  lemma ValueInjective(m: Nibble, n: Nibble)
    requires Value(m) == Value(n)
    ensures m == n
  {
  }

  function RsOf(t: Transfer): Bit
  {
    if t.CommandByte? then 0 else 1
  }

  /** The two strobes that carry one byte, high nibble first. */
  function Send(t: Transfer): (bus: seq<Strobe>)
    ensures |bus| == 2 && bus[0].rs == bus[1].rs == RsOf(t)
    ensures bus[0].lines == HighNibble(t.value) && bus[1].lines == LowNibble(t.value)
  {
    [Strobe(RsOf(t), HighNibble(t.value)), Strobe(RsOf(t), LowNibble(t.value))]
  }

  /** The two strobes of a transfer join to its byte. */
  lemma SendJoins(t: Transfer)
    ensures Join(Send(t)[0].lines, Send(t)[1].lines) == t.value
  {
    JoinSplit(t.value);
  }

  /** The bus traffic of a sequence of transfers, in order. */
  function Encode(ts: seq<Transfer>): (bus: seq<Strobe>)
    ensures |bus| == 2 * |ts|
  {
    if ts == [] then [] else Send(ts[0]) + Encode(ts[1..])
  }

  /**
    * What the display reads from the bus: consecutive pairs of strobes, each pair one
    * byte. None when a strobe is left over or the two halves of a pair disagree on RS.
    */
  function Decode(bus: seq<Strobe>): (r: Option<seq<Transfer>>)
    ensures r.Some? ==> 2 * |r.value| == |bus|
    ensures |bus| % 2 == 1 ==> r == None
    decreases |bus|
  {
    if bus == [] then Some([])
    else if |bus| == 1 || bus[0].rs != bus[1].rs then None
    else
      var x := Join(bus[0].lines, bus[1].lines);
      var t := if bus[0].rs == 0 then CommandByte(x) else DataByte(x);
      match Decode(bus[2..])
      case None => None
      case Some(rest) => Some([t] + rest)
  }

  /** LCD_Command (nnn.c:30-47): RS = 0, then the byte in two strobes. */
  function LcdCommand(cmd: Byte): (bus: seq<Strobe>)
    ensures Decode(bus) == Some([CommandByte(cmd)])
    ensures bus[0].lines == HighNibble(cmd) && bus[1].lines == LowNibble(cmd)
  {
    DecodeEncode([CommandByte(cmd)]);
    Encode([CommandByte(cmd)])
  }

  /** LCD_Char (nnn.c:50-67): RS = 1, then the byte in two strobes. */
  function LcdChar(data: Byte): (bus: seq<Strobe>)
    ensures Decode(bus) == Some([DataByte(data)])
    ensures bus[0].lines == HighNibble(data) && bus[1].lines == LowNibble(data)
  {
    DecodeEncode([DataByte(data)]);
    Encode([DataByte(data)])
  }

  /** Decoding the traffic of any transfers gives those transfers back. */
  lemma {:induction false} DecodeEncode(ts: seq<Transfer>)
    ensures Decode(Encode(ts)) == Some(ts)
  {
    if ts != [] {
      DecodeEncode(ts[1..]);
      JoinSplit(ts[0].value);
      var bus := Encode(ts);
      assert bus[2..] == Encode(ts[1..]);
      assert bus[..2] == Send(ts[0]);
      assert [ts[0]] + ts[1..] == ts;
    }
  }

  /** Traffic the display accepts is exactly the encoding of what it decodes to. */
  lemma {:induction false} EncodeDecode(bus: seq<Strobe>)
    requires Decode(bus).Some?
    ensures Encode(Decode(bus).value) == bus
    decreases |bus|
  {
    if bus != [] {
      var ts := Decode(bus).value;
      var rest := Decode(bus[2..]).value;
      var x := Join(bus[0].lines, bus[1].lines);
      var t := if bus[0].rs == 0 then CommandByte(x) else DataByte(x);
      assert ts == [t] + rest;
      EncodeDecode(bus[2..]);
      SplitJoin(bus[0].lines, bus[1].lines);
      assert Send(t) == [bus[0], bus[1]];
      assert Encode(ts) == Send(t) + Encode(rest) by { assert ts[1..] == rest; }
      assert bus == [bus[0], bus[1]] + bus[2..];
    }
  }

  lemma {:induction false} EncodeAppend(a: seq<Transfer>, b: seq<Transfer>)
    ensures Encode(a + b) == Encode(a) + Encode(b)
  {
    if a != [] {
      EncodeAppend(a[1..], b);
      assert (a + b)[0] == a[0];
      assert (a + b)[1..] == a[1..] + b;
      assert Encode(a + b) == Send(a[0]) + Encode(a[1..] + b);
    } else {
      assert a + b == b;
    }
  }

  /** The characters of a string as the display receives them. */
  function DataBytes(s: seq<Byte>): (ts: seq<Transfer>)
    ensures |ts| == |s| && forall i :: 0 <= i < |s| ==> ts[i] == DataByte(s[i])
  {
    seq(|s|, i requires 0 <= i < |s| => DataByte(s[i]))
  }

  /** The C string held by a buffer: everything before the first NUL. */
  function UntilNul(s: seq<Byte>): (r: seq<Byte>)
    ensures r <= s && 0 !in r
    ensures |r| < |s| ==> s[|r|] == 0
  {
    if s == [] || s[0] == 0 then []
    else
      var rest := UntilNul(s[1..]);
      assert [s[0]] + rest <= s by { assert s == [s[0]] + s[1..]; }
      [s[0]] + rest
  }

  /**
    * LCD_String (nnn.c:70-74): walk the pointer along the buffer and send each character
    * with LCD_Char until the NUL, which is not sent.
    */
  method LcdString(str: seq<Byte>) returns (bus: seq<Strobe>)
    requires 0 in str
    ensures bus == Encode(DataBytes(UntilNul(str)))
    ensures Decode(bus) == Some(DataBytes(UntilNul(str)))
  {
    var i := 0;
    bus := [];
    while str[i] != 0
      invariant 0 <= i < |str| && 0 in str[i..]
      invariant 0 !in str[..i]
      invariant bus == Encode(DataBytes(str[..i]))
      decreases |str| - i
    {
      assert str[i..] == [str[i]] + str[i + 1..];
      EncodeAppend(DataBytes(str[..i]), [DataByte(str[i])]);
      assert DataBytes(str[..i + 1]) == DataBytes(str[..i]) + [DataByte(str[i])];
      bus := bus + LcdChar(str[i]);
      i := i + 1;
    }
    var r := UntilNul(str);
    assert r == str[..i];
    DecodeEncode(DataBytes(r));
  }
}
