/**
  * The control loop of `main` (nnn.c:129-173).
  *
  * Each pass of the `while (1)` loop takes one distance reading. A reading above 25 cm
  * switches the relay off, pulses the buzzer and shows "Water Level Low", leaving the
  * countdown alone. Any other reading shows "Off in: <countdown> sec" and decrements the
  * countdown; when that makes it 0 the relay goes off, "Motor OFF" is shown and the
  * program spins in `while (1);` for good, which the model represents by `halted`.
  *
  * `Step` and `Transfers` specify one pass as functions of the state before it; the class
  * `Controller` is the loop's mutable state and `Tick` one pass, proved against them.
  */
module WaterController {
  import opened Types
  import Lcd
  import Sensor

  /** `int countdown = 90;` (nnn.c:132). */
  const InitialCountdown := 90

  /** `if (distance > 25)` (nnn.c:146). */
  const LowWaterThreshold := 25

  /** The size of `char buffer[16]` that sprintf writes into (nnn.c:131). */
  const BufferSize := 16

  /** LCD command bytes the loop sends: clear display and cursor to the first line. */
  const ClearDisplay := 0x01
  const FirstLine := 0x80

  /** What the first line of the display shows. */
  datatype Message = Blank | WaterLevelLow | OffIn(seconds: int) | MotorOff

  function DigitChar(d: nat): (c: char)
    requires d < 10
    ensures '0' <= c <= '9'
  {
    ('0' as int + d) as char
  }

  /** The number a string of decimal digits denotes. */
  function DecimalValue(t: string): nat
    requires forall i :: 0 <= i < |t| ==> '0' <= t[i] <= '9'
  {
    if t == [] then 0
    else DecimalValue(t[..|t| - 1]) * 10 + (t[|t| - 1] as int - '0' as int)
  }

  /** `%d` of a non-negative number: its decimal digits, without leading zeros. */
  function Digits(n: nat): (t: string)
    ensures 1 <= |t| && forall i :: 0 <= i < |t| ==> '0' <= t[i] <= '9'
    ensures DecimalValue(t) == n
    ensures t[0] == '0' ==> n == 0
    ensures n < 100 ==> |t| <= 2
  {
    if n < 10 then [DigitChar(n)]
    else
      var t := Digits(n / 10) + [DigitChar(n % 10)];
      assert t[..|t| - 1] == Digits(n / 10);
      t
  }

  /**
    * `%d` of any `int`: the decimal digits of the magnitude, without leading zeros,
    * after a minus sign when the number is negative.
    */
  function Decimal(n: int): (t: string)
    ensures forall i :: 0 <= i < |t| ==> t[i] == '-' || '0' <= t[i] <= '9'
    ensures n >= 0 ==>
      1 <= |t| && (forall i :: 0 <= i < |t| ==> '0' <= t[i] <= '9') &&
      DecimalValue(t) == n && (t[0] == '0' ==> n == 0)
    ensures n < 0 ==>
      2 <= |t| && t[0] == '-' && (forall i :: 1 <= i < |t| ==> '0' <= t[i] <= '9') &&
      DecimalValue(t[1..]) == -n && t[1] != '0'
  {
    if n < 0 then "-" + Digits(-n) else Digits(n)
  }

  /** The text each message puts on the display (nnn.c:151, 157, 168). */
  function Text(m: Message): (t: string)
    ensures forall i :: 0 <= i < |t| ==> ' ' <= t[i] <= '~'
  {
    match m
    case Blank => ""
    case WaterLevelLow => "Water Level Low"
    case OffIn(s) => OffInText(Decimal(s))
    case MotorOff => "Motor OFF"
  }

  /** The countdown text shows the number of seconds left, in decimal, between "Off in: " and " sec". */
  lemma OffInShowsSeconds(seconds: nat)
    ensures var t := Text(OffIn(seconds));
      |t| >= 13 && t[..8] == "Off in: " && t[|t| - 4..] == " sec" &&
      (forall i :: 8 <= i < |t| - 4 ==> '0' <= t[i] <= '9') &&
      DecimalValue(t[8..|t| - 4]) == seconds
  {
    var d := Decimal(seconds);
    var t := Text(OffIn(seconds));
    assert t == "Off in: " + d + " sec";
    assert t[8..|t| - 4] == d;
  }

  function OffInText(digits: string): (t: string)
    requires forall i :: 0 <= i < |digits| ==> digits[i] == '-' || '0' <= digits[i] <= '9'
    ensures forall i :: 0 <= i < |t| ==> ' ' <= t[i] <= '~'
    ensures |t| == |digits| + 12
  {
    var t := "Off in: " + digits + " sec";
    assert forall i :: 0 <= i < |t| ==> t[i] == (if i < 8 then "Off in: "[i] else if i < 8 + |digits| then digits[i - 8] else " sec"[i - 8 - |digits|]);
    t
  }

  /** A printable string as the bytes of a C string, without the terminating NUL. */
  function Bytes(t: string): (b: seq<Byte>)
    requires forall i :: 0 <= i < |t| ==> ' ' <= t[i] <= '~'
    ensures |b| == |t| && 0 !in b
  {
    seq(|t|, i requires 0 <= i < |t| => t[i] as int)
  }

  /** The buffer handed to LCD_String: the text followed by its NUL. */
  function CString(m: Message): (b: seq<Byte>)
    ensures 0 in b && Lcd.UntilNul(b) == Bytes(Text(m))
  {
    var t := Bytes(Text(m));
    assert Lcd.UntilNul(t + [0]) == t by {
      var r := Lcd.UntilNul(t + [0]);
      assert (t + [0])[|t|] == 0;
    }
    t + [0]
  }

  /**
    * The loop's state: the countdown, the RELAY and BUZZER pins, whether the program has
    * reached its final `while (1);`, and what the display shows.
    */
  datatype State = State(countdown: int, relay: bool, buzzer: bool, halted: bool, shown: Message)

  /**
    * The state when the loop is entered: countdown 90, relay on (nnn.c:141), buzzer off
    * and the display cleared by LCD_Init.
    */
  function Init(): (s: State)
    ensures Valid(s) && !s.halted && s.relay
  {
    State(InitialCountdown, true, false, false, Blank)
  }

  /**
    * What holds between passes of the loop: the buzzer is off, a running countdown is in
    * 1..90, and a halted controller has countdown 0, the relay off and "Motor OFF" shown.
    */
  predicate Valid(s: State)
  {
    !s.buzzer &&
    if s.halted then s.countdown == 0 && !s.relay && s.shown == MotorOff
    else 1 <= s.countdown <= InitialCountdown
  }

  /** One pass of the loop body (nnn.c:144-171) given the distance it measured. */
  function Step(s: State, distance: nat): (t: State)
    ensures s.halted ==> t == s
    ensures t.relay ==> s.relay
    ensures t.countdown == s.countdown || t.countdown == s.countdown - 1
    ensures Valid(s) ==> Valid(t)
  {
    if s.halted then s
    else if distance > LowWaterThreshold then
      s.(relay := false, buzzer := false, shown := WaterLevelLow)
    else if s.countdown - 1 == 0 then
      s.(countdown := 0, relay := false, halted := true, shown := MotorOff)
    else
      s.(countdown := s.countdown - 1, shown := OffIn(s.countdown))
  }

  /** Clear, cursor to the first line, then the text: the refresh of nnn.c:149-151 and 158-160. */
  function Refresh(m: Message): (ts: seq<Lcd.Transfer>)
    ensures |ts| == 2 + |Text(m)|
    ensures ts[0] == Lcd.CommandByte(ClearDisplay) && ts[1] == Lcd.CommandByte(FirstLine)
  {
    [Lcd.CommandByte(ClearDisplay), Lcd.CommandByte(FirstLine)] + Lcd.DataBytes(Bytes(Text(m)))
  }

  /** The bytes one pass sends to the display, in order. */
  function Transfers(s: State, distance: nat): (ts: seq<Lcd.Transfer>)
    ensures ts == [] <==> s.halted
    ensures !s.halted ==>
      |ts| >= 2 && ts[0] == Lcd.CommandByte(ClearDisplay) && ts[1] == Lcd.CommandByte(FirstLine)
  {
    if s.halted then []
    else if distance > LowWaterThreshold then Refresh(WaterLevelLow)
    else if s.countdown - 1 == 0 then
      Refresh(OffIn(s.countdown)) + [Lcd.CommandByte(ClearDisplay)] + Lcd.DataBytes(Bytes(Text(MotorOff)))
    else Refresh(OffIn(s.countdown))
  }

  /** The state after a pass for each reading, in order. */
  function Run(s: State, readings: seq<nat>): (r: State)
    ensures s.halted ==> r == s
  {
    if readings == [] then s
    else Step(Run(s, readings[..|readings| - 1]), readings[|readings| - 1])
  }

  /** Everything those passes send to the display. */
  function Trace(s: State, readings: seq<nat>): (t: seq<Lcd.Transfer>)
    ensures s.halted ==> t == []
  {
    if readings == [] then []
    else
      var before := readings[..|readings| - 1];
      Trace(s, before) + Transfers(Run(s, before), readings[|readings| - 1])
  }

  /** How many of the readings take the countdown branch. */
  function NormalTicks(readings: seq<nat>): (n: nat)
    ensures n <= |readings|
  {
    if readings == [] then 0
    else
      var last := readings[|readings| - 1];
      NormalTicks(readings[..|readings| - 1]) + if last <= LowWaterThreshold then 1 else 0
  }

  /**
    * The countdown never grows; it stays put exactly on readings above 25 cm (or once
    * halted) and drops by exactly one on every other reading.
    */
  lemma CountdownMoves(s: State, distance: nat)
    requires Valid(s)
    ensures Step(s, distance).countdown <= s.countdown
    ensures Step(s, distance).countdown == s.countdown <==> s.halted || distance > LowWaterThreshold
    ensures Step(s, distance).countdown == s.countdown - 1 <==> !s.halted && distance <= LowWaterThreshold
  {
  }

  /**
    * A reading above 25 cm: relay off, buzzer off again at the end of the pass, the
    * countdown untouched, "Water Level Low" refreshed on the display.
    */
  lemma LowWaterTick(s: State, distance: nat)
    requires !s.halted && distance > LowWaterThreshold
    ensures var t := Step(s, distance);
      !t.relay && !t.buzzer && !t.halted && t.countdown == s.countdown && t.shown == WaterLevelLow
    ensures Transfers(s, distance) == Refresh(WaterLevelLow)
  {
  }

  /** The comparison is strict: 25 cm counts down, 26 cm raises the alarm. */
  lemma ThresholdIsStrict(s: State)
    requires Valid(s) && !s.halted
    ensures Step(s, 25).countdown == s.countdown - 1 && Step(s, 25).shown != WaterLevelLow
    ensures Step(s, 26).countdown == s.countdown && Step(s, 26).shown == WaterLevelLow
  {
  }

  /**
    * A reading of at most 25 cm first shows the countdown as it was before the pass,
    * then decrements it; the relay is only touched if that reaches 0.
    */
  lemma NormalTick(s: State, distance: nat)
    requires Valid(s) && !s.halted && distance <= LowWaterThreshold
    ensures Transfers(s, distance)[..|Refresh(OffIn(s.countdown))|] == Refresh(OffIn(s.countdown))
    ensures Step(s, distance).countdown == s.countdown - 1
    ensures Step(s, distance).relay == (s.relay && s.countdown != 1)
  {
  }

  /**
    * The controller halts on a pass exactly when that pass decrements the countdown from
    * 1 to 0; it then has the relay off and shows "Motor OFF".
    */
  lemma HaltsExactlyAtZero(s: State, distance: nat)
    requires Valid(s) && !s.halted
    ensures Step(s, distance).halted <==> distance <= LowWaterThreshold && s.countdown == 1
    ensures Step(s, distance).halted ==>
      Step(s, distance).countdown == 0 && !Step(s, distance).relay && Step(s, distance).shown == MotorOff
    ensures Step(s, distance).halted ==>
      Transfers(s, distance) ==
        Refresh(OffIn(s.countdown)) + [Lcd.CommandByte(ClearDisplay)] + Lcd.DataBytes(Bytes(Text(MotorOff)))
  {
  }

  /**
    * What `shown` records is what the display holds after a running pass: the pass ends
    * with a command byte followed by exactly the characters of that message.
    */
  lemma ShownIsLastText(s: State, distance: nat)
    requires !s.halted
    ensures var ts := Transfers(s, distance);
      var text := Lcd.DataBytes(Bytes(Text(Step(s, distance).shown)));
      |ts| > |text| && ts[|ts| - |text|..] == text && ts[|ts| - |text| - 1].CommandByte?
  {
  }

  /** Relay on after some passes means it was on before them: nothing switches it back on. */
  lemma {:induction false} RelayNeverReturns(s: State, readings: seq<nat>)
    ensures Run(s, readings).relay ==> s.relay
    decreases |readings|
  {
    if readings != [] {
      RelayNeverReturns(s, readings[..|readings| - 1]);
    }
  }

  /** Any number of passes keep the countdown in 1..90 and the buzzer off. */
  lemma {:induction false} RunKeepsValid(s: State, readings: seq<nat>)
    requires Valid(s)
    ensures Valid(Run(s, readings))
    decreases |readings|
  {
    if readings != [] {
      RunKeepsValid(s, readings[..|readings| - 1]);
    }
  }

  /**
    * Only readings of at most 25 cm count down: a running controller halts exactly when
    * as many of them as its countdown have arrived, whatever readings come in between,
    * and until then its countdown is what is left.
    */
  lemma {:induction false} CountdownCountsNormalTicks(s: State, readings: seq<nat>)
    requires Valid(s) && !s.halted
    ensures Run(s, readings).halted <==> NormalTicks(readings) >= s.countdown
    ensures !Run(s, readings).halted ==> Run(s, readings).countdown == s.countdown - NormalTicks(readings)
    decreases |readings|
  {
    if readings != [] {
      var before := readings[..|readings| - 1];
      CountdownCountsNormalTicks(s, before);
      RunKeepsValid(s, before);
    }
  }

  /** From power-on the relay is switched off for good after exactly 90 in-range readings. */
  lemma HaltsAfterNinetyNormalTicks(readings: seq<nat>)
    ensures Run(Init(), readings).halted <==> NormalTicks(readings) >= 90
    ensures !Run(Init(), readings).halted ==>
      Run(Init(), readings).countdown == 90 - NormalTicks(readings) >= 1
    ensures Run(Init(), readings).halted ==> !Run(Init(), readings).relay
  {
    CountdownCountsNormalTicks(Init(), readings);
    RunKeepsValid(Init(), readings);
  }

  /**
    * The countdown text sprintf writes, with its NUL, fits `char buffer[16]`, and every
    * message the loop shows fits the 16-character line.
    */
  lemma OffInFitsBuffer(s: State)
    requires Valid(s) && !s.halted
    ensures |CString(OffIn(s.countdown))| <= BufferSize
    ensures |Text(WaterLevelLow)| <= BufferSize && |Text(MotorOff)| <= BufferSize
  {
    assert |Digits(s.countdown)| <= 2;
  }

  /**
    * In terms of the Timer1 bytes Measure_Distance reads: a running controller takes the
    * "Water Level Low" branch exactly when the echo lasted 1517 counts or more.
    */
  lemma LowWaterIffLongEcho(s: State, hi: Byte, lo: Byte)
    requires Valid(s) && !s.halted
    ensures Step(s, Sensor.MeasureDistance(hi, lo)).shown == WaterLevelLow <==> Sensor.PulseCount(hi, lo) >= 1517
    ensures Step(s, Sensor.MeasureDistance(hi, lo)).countdown == s.countdown <==> Sensor.PulseCount(hi, lo) >= 1517
  {
    Sensor.FarIffCount(Sensor.PulseCount(hi, lo));
  }

  /** The first in-range reading after power-on shows "Off in: 90 sec" and leaves 89. */
  lemma FirstNormalTick(distance: nat)
    requires distance <= LowWaterThreshold
    ensures Text(Step(Init(), distance).shown) == "Off in: 90 sec"
    ensures Step(Init(), distance).countdown == 89 && Step(Init(), distance).relay
  {
    assert Digits(90) == "90";
  }

  /** The variables of `main` that survive from one pass of the loop to the next. */
  class Controller {
    var countdown: int
    var relay: bool
    var buzzer: bool
    var halted: bool
    var shown: Message

    function Snapshot(): State
      reads this
    {
      State(countdown, relay, buzzer, halted, shown)
    }

    /** Entry to the loop: nnn.c:132 and nnn.c:141, after LCD_Init cleared the display. */
    constructor ()
      ensures Snapshot() == Init()
    {
      countdown := InitialCountdown;
      relay := true;
      buzzer := false;
      halted := false;
      shown := Blank;
    }

    /**
      * One pass of the loop body (nnn.c:144-171) for the distance measured. `pulsed`
      * is the level of the buzzer pin read on the alarm branch after its message, before
      * the pin is switched off again (false on the other branches, which leave the pin
      * alone); `bus` is the display traffic. Once halted the pass is the final `while (1);` and does nothing.
      */
    method Tick(distance: nat) returns (pulsed: bool, bus: seq<Lcd.Strobe>)
      modifies this
      ensures Snapshot() == Step(old(Snapshot()), distance)
      ensures pulsed <==> !old(halted) && distance > LowWaterThreshold
      ensures bus == Lcd.Encode(Transfers(old(Snapshot()), distance))
      ensures Valid(old(Snapshot())) ==> Valid(Snapshot())
    {
      pulsed := false;
      bus := [];
      if halted {
        return;
      }
      if distance > LowWaterThreshold {
        pulsed, bus := LowWaterPass(distance);
      } else {
        bus := CountdownPass(distance);
      }
    }

    /**
      * The alarm branch of a pass (nnn.c:146-154): relay off, buzzer on, message, buzzer
      * off. `sounded` is the level of the buzzer pin read just before it is switched off
      * again, after the message has been sent.
      */
    method LowWaterPass(distance: nat) returns (sounded: bool, bus: seq<Lcd.Strobe>)
      requires !halted && distance > LowWaterThreshold
      modifies this
      ensures sounded
      ensures Snapshot() == Step(old(Snapshot()), distance)
      ensures bus == Lcd.Encode(Transfers(old(Snapshot()), distance))
    {
      ghost var s := Snapshot();
      relay := false;
      buzzer := true;
      bus := ShowMessage(WaterLevelLow);
      shown := WaterLevelLow;
      sounded := buzzer;
      buzzer := false;
      assert bus == Lcd.Encode(Transfers(s, distance));
    }

    /**
      * The countdown branch of a pass (nnn.c:155-170): show the countdown, decrement it,
      * and at 0 switch the relay off, show "Motor OFF" and halt.
      */
    method CountdownPass(distance: nat) returns (bus: seq<Lcd.Strobe>)
      requires !halted && distance <= LowWaterThreshold
      modifies this
      ensures Snapshot() == Step(old(Snapshot()), distance)
      ensures bus == Lcd.Encode(Transfers(old(Snapshot()), distance))
    {
      ghost var s := Snapshot();
      bus := ShowMessage(OffIn(countdown));
      shown := OffIn(countdown);
      countdown := countdown - 1;
      if countdown == 0 {
        var last := SwitchOff();
        FinalBus(s, distance);
        bus := bus + last;
        assert bus == Lcd.Encode(Transfers(s, distance));
        assert Step(s, distance) == s.(countdown := 0, relay := false, halted := true, shown := MotorOff);
      } else {
        assert bus == Lcd.Encode(Transfers(s, distance));
        assert Step(s, distance) == s.(countdown := s.countdown - 1, shown := OffIn(s.countdown));
      }
    }

    /** The end of the countdown (nnn.c:165-169): relay off, "Motor OFF" shown, then halt. */
    method SwitchOff() returns (bus: seq<Lcd.Strobe>)
      modifies this
      ensures Snapshot() == old(Snapshot()).(relay := false, halted := true, shown := MotorOff)
      ensures bus == Lcd.LcdCommand(ClearDisplay) + Lcd.Encode(Lcd.DataBytes(Bytes(Text(MotorOff))))
    {
      relay := false;
      var clear := Lcd.LcdCommand(ClearDisplay);
      var text := WriteText(MotorOff);
      bus := clear + text;
      shown := MotorOff;
      halted := true;
    }

    /**
      * The `while (1)` loop of `main` run for a finite number of passes, one reading
      * each: the state and the display traffic are those the passes specify in order.
      */
    method Operate(readings: seq<nat>) returns (bus: seq<Lcd.Strobe>)
      modifies this
      ensures Snapshot() == Run(old(Snapshot()), readings)
      ensures bus == Lcd.Encode(Trace(old(Snapshot()), readings))
    {
      ghost var s0 := Snapshot();
      bus := [];
      var i := 0;
      while i < |readings|
        invariant 0 <= i <= |readings|
        invariant Snapshot() == Run(s0, readings[..i])
        invariant bus == Lcd.Encode(Trace(s0, readings[..i]))
      {
        ghost var before := Snapshot();
        var _, out := Tick(readings[i]);
        assert readings[..i + 1][..i] == readings[..i];
        assert Run(s0, readings[..i + 1]) == Step(before, readings[i]);
        assert Trace(s0, readings[..i + 1]) == Trace(s0, readings[..i]) + Transfers(before, readings[i]);
        Lcd.EncodeAppend(Trace(s0, readings[..i]), Transfers(before, readings[i]));
        bus := bus + out;
        i := i + 1;
      }
      assert readings[..i] == readings;
    }
  }

  /** LCD_String on the buffer holding the text of `m`: its characters, NUL excluded. */
  method WriteText(m: Message) returns (bus: seq<Lcd.Strobe>)
    ensures bus == Lcd.Encode(Lcd.DataBytes(Bytes(Text(m))))
  {
    bus := Lcd.LcdString(CString(m));
  }

  /** Clear the display, move the cursor to the first line, write the text (nnn.c:149-151 and 158-160). */
  method ShowMessage(m: Message) returns (bus: seq<Lcd.Strobe>)
    ensures bus == Lcd.Encode(Refresh(m))
    ensures Lcd.Decode(bus) == Some(Refresh(m))
  {
    var clear := Lcd.LcdCommand(ClearDisplay);
    var firstLine := Lcd.LcdCommand(FirstLine);
    var text := WriteText(m);
    bus := clear + firstLine + text;
    RefreshBus(m);
    Lcd.DecodeEncode(Refresh(m));
  }

  /**
    * The strobes of the pass that halts (nnn.c:158-168): the refresh showing the last
    * second, then a clear, then the characters of "Motor OFF".
    */
  lemma FinalBus(s: State, distance: nat)
    requires !s.halted && distance <= LowWaterThreshold && s.countdown == 1
    ensures Lcd.Encode(Transfers(s, distance)) ==
      Lcd.Encode(Refresh(OffIn(s.countdown))) +
      (Lcd.LcdCommand(ClearDisplay) + Lcd.Encode(Lcd.DataBytes(Bytes(Text(MotorOff)))))
  {
    ClearBetween(Refresh(OffIn(s.countdown)), Lcd.DataBytes(Bytes(Text(MotorOff))));
  }

  /** A clear command between two runs of transfers is its own two strobes on the bus. */
  lemma ClearBetween(before: seq<Lcd.Transfer>, after: seq<Lcd.Transfer>)
    ensures Lcd.Encode(before + [Lcd.CommandByte(ClearDisplay)] + after) ==
      Lcd.Encode(before) + (Lcd.LcdCommand(ClearDisplay) + Lcd.Encode(after))
  {
    var clear := [Lcd.CommandByte(ClearDisplay)];
    assert Lcd.LcdCommand(ClearDisplay) == Lcd.Encode(clear);
    Lcd.EncodeAppend(before, clear);
    Lcd.EncodeAppend(before + clear, after);
  }

  /** The traffic of a refresh is the two command writes followed by the text. */
  lemma RefreshBus(m: Message)
    ensures Lcd.Encode(Refresh(m)) ==
      Lcd.LcdCommand(ClearDisplay) + Lcd.LcdCommand(FirstLine) + Lcd.Encode(Lcd.DataBytes(Bytes(Text(m))))
  {
    var clear, line := Lcd.CommandByte(ClearDisplay), Lcd.CommandByte(FirstLine);
    var text := Lcd.DataBytes(Bytes(Text(m)));
    assert Refresh(m) == [clear, line] + text;
    Lcd.EncodeAppend([clear, line], text);
    assert [clear, line] == [clear] + [line];
    Lcd.EncodeAppend([clear], [line]);
  }
}
