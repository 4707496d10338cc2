/** The cook controller of main.c: the `status` state machine run once per
    main-loop iteration, fed by the one-slot `command` mailbox that the
    Bluetooth receive interrupt fills, the minute counter advanced by the
    RTC alarm interrupt of alarm.c, the relay and the alarm enable. The
    function `Next` specifies one pass of the `switch`, `Tick` one alarm
    interrupt and `Received` one receive interrupt; the class `Controller`
    holds the same state in fields and its methods are proved against
    those functions. */
module CookController {
  import opened CookCommands

  /** `enum STATES`. */
  datatype Status = Rest | Warming | Cooking | Paused | Finished

  /** The controller state the main loop and the interrupts share. */
  datatype Cook = Cook(
    status: Status,
    command: Command,
    minutes: uint16,
    cookingTime: uint16,
    cookingTemperature: real,
    relayOn: bool,
    alarmEnabled: bool)

  /** The state after start-up: resting, no command, no time or set-point,
      relay off (output register at reset) and alarm A disabled
      (`RTC_Set_Alarm`). */
  const Initial := Cook(Rest, Invalid, 0, 0, 0.0, false, false)

  /** What every reachable state satisfies: the minute alarm runs exactly
      while cooking, and outside cooking the relay is on exactly while
      warming. */
  predicate Consistent(c: Cook) {
    && (c.alarmEnabled <==> c.status == Cooking)
    && (c.status != Cooking ==> (c.relayOn <==> c.status == Warming))
  }

  /** The time-proportioning comparison: `output > currentTime -
      windowStart` on `uint32_t`, where `windowStart` is never assigned
      and so stays 0. */
  const WindowStart: bv32 := 0

  predicate RelayDrive(now: bv32, output: bv32) {
    output > now - WindowStart
  }

  /** With the window never started, the relay is on exactly when the PID
      output exceeds the SysTick value itself. */
  lemma RelayDriveAgainstNow(now: bv32, output: bv32)
    ensures RelayDrive(now, output) <==> output > now
  {
  }

  /** With an output of 2000 the relay is on while the counter is below
      2000, whatever the 5000-tick window size says; an output of 0 never
      turns it on. */
  lemma RelayDriveExamples(now: bv32)
    ensures RelayDrive(now, 2000) <==> now < 2000
    ensures !RelayDrive(now, 0)
  {
    RelayDriveAgainstNow(now, 2000);
    RelayDriveAgainstNow(now, 0);
  }

  /** The commands that make a state change when they are pending in
      `status`. */
  predicate Consumes(s: Status, command: Command) {
    match s
    case Rest => command == Start
    case Warming => command == Pause || command == Stop
    case Cooking => command == Pause || command == Stop
    case Paused => command == Start || command == Stop
    case Finished => command == Start || command == Stop
  }

  /** One pass of the main loop's `switch (status)`, given the temperature
      the sensor reported, the SysTick value and the PID output. */
  function Next(c: Cook, currentTemperature: real, now: bv32, output: bv32): (d: Cook)
    ensures Consistent(c) ==> Consistent(d)
    ensures d.cookingTime == c.cookingTime && d.cookingTemperature == c.cookingTemperature
    // A command is cleared exactly when it is the one that acts, and then
    // the state changes.
    ensures d.command == (if Consumes(c.status, c.command) then Invalid else c.command)
    ensures Consumes(c.status, c.command) ==> d.status != c.status
    // The minute counter is reset only by STOP while cooking or paused.
    ensures d.minutes == (if c.command == Stop && (c.status == Cooking || c.status == Paused)
                          then 0 else c.minutes)
  {
    match c.status
    case Cooking =>
      if c.command == Pause then
        c.(command := Invalid, status := Paused, alarmEnabled := false, relayOn := false)
      else if c.command == Stop then
        c.(command := Invalid, status := Rest, alarmEnabled := false, relayOn := false,
           minutes := 0)
      else if c.minutes < c.cookingTime then
        c.(relayOn := RelayDrive(now, output))
      else
        c.(relayOn := false, alarmEnabled := false, status := Finished)
    case Rest =>
      if c.command == Start then c.(command := Invalid, status := Warming, relayOn := true)
      else c
    case Warming =>
      if c.command == Pause || c.command == Stop then
        c.(command := Invalid, status := Rest, alarmEnabled := false, relayOn := false)
      else if currentTemperature >= c.cookingTemperature then
        c.(status := Cooking, alarmEnabled := true)
      else c
    case Paused =>
      if c.command == Start then c.(command := Invalid, status := Warming, relayOn := true)
      else if c.command == Stop then c.(command := Invalid, status := Rest, minutes := 0)
      else c
    case Finished =>
      if c.command == Start then c.(command := Invalid, status := Warming, relayOn := true)
      else if c.command == Stop then c.(command := Invalid, status := Rest, relayOn := false)
      else c
  }

  /** The RTC alarm interrupt: alarm A fires once a minute while it is
      enabled, and each firing adds one to the 16-bit `minutes`. */
  function Tick(c: Cook): (d: Cook)
    ensures Consistent(c) ==> Consistent(d)
    ensures d.minutes != c.minutes <==> c.alarmEnabled
    ensures d == c.(minutes := d.minutes)
  {
    if c.alarmEnabled then c.(minutes := (c.minutes + 1) % 0x1_0000) else c
  }

  /** The receive interrupt after upper-casing: the line `text` decides the
      command, which replaces whatever was pending, and TEMP or TIME update
      the set-point or the time from the numbers `sscanf` read. */
  function Received(c: Cook, text: seq<char>, scannedTemperature: Option<real>,
                    count: int, hour: int, minute: int): (d: Cook)
    ensures d.command == Prefix(text)
    ensures d.status == c.status && d.minutes == c.minutes
    ensures d.relayOn == c.relayOn && d.alarmEnabled == c.alarmEnabled
    ensures d.cookingTime != c.cookingTime ==> d.command == Time
    ensures d.cookingTemperature != c.cookingTemperature ==> d.command == Temp
    ensures Consistent(c) ==> Consistent(d)
  {
    var command := Prefix(text);
    var d := c.(command := command);
    match command
    case Temp =>
      d.(cookingTemperature := SetCookingTemperature(c.cookingTemperature, scannedTemperature))
    case Time => d.(cookingTime := SetCookingTime(c.cookingTime, count, hour, minute))
    case _ => d
  }

  // ---------------------------------------------------------------------
  // Properties of the state machine

  lemma InitialConsistent()
    ensures Consistent(Initial)
  {
  }

  /** START while resting begins warming with the relay on; reaching the
      set-point then starts cooking with the minute alarm on and the relay
      left as it was. */
  lemma StartWarmCook(c: Cook, cold: real, warm: real, now: bv32, output: bv32)
    requires Consistent(c) && c.status == Rest && c.command == Start
    requires cold < c.cookingTemperature <= warm
    ensures var w := Next(c, cold, now, output);
      && w.status == Warming && w.relayOn && w.command == Invalid
      && Next(w, cold, now, output) == w
      && var k := Next(w, warm, now, output);
         k.status == Cooking && k.alarmEnabled && k.relayOn
  {
  }

  /** While cooking with no command, the state stays COOKING as long as
      fewer than `cookingTime` minutes have passed, and the relay follows
      the time-proportioning comparison. */
  lemma CookingRelay(c: Cook, t: real, now: bv32, output: bv32)
    requires c.status == Cooking && !Consumes(Cooking, c.command)
    ensures c.minutes < c.cookingTime ==>
      Next(c, t, now, output) == c.(relayOn := RelayDrive(now, output))
    ensures c.minutes >= c.cookingTime ==>
      Next(c, t, now, output) == c.(status := Finished, relayOn := false, alarmEnabled := false)
  {
  }

  /** A START received while cooking is not cleared: it waits in the
      mailbox until the cook finishes and then restarts warming at once. */
  lemma PendingStartFiresAfterFinish(c: Cook, t: real, now: bv32, output: bv32)
    requires Consistent(c) && c.status == Cooking && c.command == Start
    requires c.minutes >= c.cookingTime
    ensures var f := Next(c, t, now, output);
      && f.status == Finished && f.command == Start
      && var w := Next(f, t, now, output);
         w.status == Warming && w.command == Invalid && w.relayOn && !w.alarmEnabled
  {
  }

  /** Resuming with START from PAUSED goes back to WARMING; the minute
      alarm stays off until the set-point is reached again, so no minutes
      are counted in between, and the count is not reset. */
  lemma ResumeDoesNotCount(c: Cook, t: real, now: bv32, output: bv32)
    requires Consistent(c) && c.status == Paused && c.command == Start
    ensures var w := Next(c, t, now, output);
      && w.status == Warming && !w.alarmEnabled && w.minutes == c.minutes
      && Tick(w) == w
  {
  }

  /** STOP after FINISHED, or a new START after FINISHED, keeps the minutes
      of the finished cook; STOP while cooking or paused clears them. */
  lemma FinishedKeepsMinutes(c: Cook, command: Command, t: real, now: bv32, output: bv32)
    requires c.status == Finished && (command == Start || command == Stop)
    ensures Next(c.(command := command), t, now, output).minutes == c.minutes
    ensures Next(c.(command := command, status := Paused), t, now, output).minutes
         == if command == Stop then 0 else c.minutes
  {
  }

  /** The mailbox holds one command: the last line received wins, even an
      unrecognised one, and a pending START is lost if any other line
      arrives before the main loop consumes it. */
  lemma LastLineWins(c: Cook, line: seq<char>, t: Option<real>, n: int, h: int, m: int)
    requires c.command == Start && Prefix(line) != Start
    ensures Received(c, line, t, n, h, m).command != Start
    ensures Received(c, "HELLO", t, n, h, m).command == Invalid
  {
    UnknownInitial("HELLO");
  }

  /** A finite run of the firmware: each event is a main-loop pass, a
      minute tick or a received line. */
  datatype Event =
    | Pass(currentTemperature: real, now: bv32, output: bv32)
    | MinuteTick
    | Line(text: seq<char>, scannedTemperature: Option<real>, count: int, hour: int, minute: int)

  function Apply(c: Cook, e: Event): (d: Cook)
    ensures Consistent(c) ==> Consistent(d)
  {
    match e
    case Pass(t, now, output) => Next(c, t, now, output)
    case MinuteTick => Tick(c)
    case Line(text, s, n, h, m) => Received(c, text, s, n, h, m)
  }

  function Run(c: Cook, events: seq<Event>): Cook
    decreases |events|
  {
    if events == [] then c else Run(Apply(c, events[0]), events[1..])
  }

  /** Every state the firmware reaches from start-up is consistent: the
      alarm counts minutes only while cooking, and the relay is never on
      while resting, paused or finished. */
  lemma {:induction false} RunConsistent(c: Cook, events: seq<Event>)
    requires Consistent(c)
    ensures Consistent(Run(c, events))
    decreases |events|
  {
    if events != [] {
      RunConsistent(Apply(c, events[0]), events[1..]);
    }
  }

  /** Minutes advance only while cooking: a run of ticks from any
      consistent state that is not cooking leaves the count as it was. */
  lemma {:induction false} NoCountingOutsideCooking(c: Cook, ticks: nat)
    requires Consistent(c) && c.status != Cooking
    ensures Run(c, seq(ticks, _ => MinuteTick)) == c
    decreases ticks
  {
    if ticks > 0 {
      assert seq(ticks, _ => MinuteTick)[1..] == seq(ticks - 1, _ => MinuteTick);
      NoCountingOutsideCooking(c, ticks - 1);
    }
  }

  /** While the alarm is enabled each tick counts one minute: k ticks add k
      to the 16-bit counter, wrapping at 2^16 as `minutes++` on a
      `uint16_t` does. */
  lemma {:induction false} CountsWhileEnabled(c: Cook, k: nat)
    requires c.alarmEnabled
    ensures Run(c, seq(k, _ => MinuteTick)) == c.(minutes := (c.minutes + k) % 0x1_0000)
    decreases k
  {
    if k > 0 {
      assert seq(k, _ => MinuteTick)[1..] == seq(k - 1, _ => MinuteTick);
      var t := Tick(c);
      assert t == c.(minutes := (c.minutes + 1) % 0x1_0000);
      CountsWhileEnabled(t, k - 1);
      assert (((c.minutes + 1) % 0x1_0000) + (k - 1)) % 0x1_0000 == (c.minutes + k) % 0x1_0000;
    }
  }

  // ---------------------------------------------------------------------
  // The controller as the firmware keeps it: statics updated in place.

  const BufferSize := 1024

  class Controller {
    var status: Status
    var command: Command
    /** `minutes` of alarm.c. */
    var minutes: uint16
    var cookingTime: uint16
    var cookingTemperature: real
    /** Relay output PA13. */
    var relayOn: bool
    /** Alarm A enable (ALRAE). */
    var alarmEnabled: bool
    /** The receive line buffer `buffer[1024]`. */
    const buffer: array<char>

    function Snapshot(): Cook
      reads this
    {
      Cook(status, command, minutes, cookingTime, cookingTemperature, relayOn, alarmEnabled)
    }

    /** The buffer always holds a C string: it starts zeroed and `fgets`
        always terminates what it stores. */
    predicate Valid()
      reads this, buffer
    {
      buffer.Length == BufferSize && Nul in buffer[..] && Consistent(Snapshot())
    }

    constructor ()
      ensures Valid() && Snapshot() == Initial
      ensures fresh(buffer) && buffer[..] == seq(BufferSize, _ => Nul)
    {
      status, command := Rest, Invalid;
      minutes, cookingTime, cookingTemperature := 0, 0, 0.0;
      relayOn, alarmEnabled := false, false;
      buffer := new char[BufferSize](_ => Nul);
      new;
      assert buffer[0] == Nul;
    }

    /** One pass of the main loop's `switch (status)`. */
    method Step(currentTemperature: real, now: bv32, output: bv32)
      requires Valid()
      modifies this
      ensures Valid()
      ensures Snapshot() == Next(old(Snapshot()), currentTemperature, now, output)
    {
      match status
      case Cooking =>
        if command == Pause {
          command := Invalid;
          status := Paused;
          alarmEnabled := false;
          relayOn := false;
        } else if command == Stop {
          command := Invalid;
          status := Rest;
          alarmEnabled := false;
          relayOn := false;
          minutes := 0;
        } else if minutes < cookingTime {
          var currentTime := now;
          if output > currentTime - WindowStart {
            relayOn := true;
          } else {
            relayOn := false;
          }
        } else {
          relayOn := false;
          alarmEnabled := false;
          status := Finished;
        }
      case Rest =>
        if command == Start {
          command := Invalid;
          status := Warming;
          relayOn := true;
        }
      case Warming =>
        if command == Pause || command == Stop {
          command := Invalid;
          status := Rest;
          alarmEnabled := false;
          relayOn := false;
        } else if currentTemperature >= cookingTemperature {
          status := Cooking;
          alarmEnabled := true;
        }
      case Paused =>
        if command == Start {
          command := Invalid;
          status := Warming;
          relayOn := true;
        } else if command == Stop {
          command := Invalid;
          status := Rest;
          minutes := 0;
        }
      case Finished =>
        if command == Start {
          command := Invalid;
          status := Warming;
          relayOn := true;
        } else if command == Stop {
          command := Invalid;
          status := Rest;
          relayOn := false;
        }
    }

    /** `RTC_Alarm_IRQHandler`: the alarm flag is raised only while alarm A
        is enabled, and each interrupt counts one minute. */
    method MinuteTick()
      requires Valid()
      modifies this
      ensures Valid()
      ensures Snapshot() == Tick(old(Snapshot()))
    {
      if alarmEnabled {
        minutes := (minutes + 1) % 0x1_0000;
      }
    }

    /** The upper-casing loop of the receive handler, in place up to the
        terminator. */
    method UpperCase()
      requires Nul in buffer[..]
      modifies buffer
      ensures buffer[..] == UpperAll(old(buffer[..]))
    {
      ghost var text := CString(buffer[..]);
      var i := 0;
      while buffer[i] != Nul
        invariant 0 <= i <= |text|
        invariant forall j :: 0 <= j < i ==> buffer[j] == ToUpper(text[j])
        invariant forall j :: i <= j < buffer.Length ==> buffer[j] == old(buffer[j])
        decreases |text| - i
      {
        buffer[i] := ToUpper(buffer[i]);
        i := i + 1;
      }
      assert i == |text|;
      assert buffer[..] == Upper(text) + old(buffer[..])[|text|..];
    }

    /** `USART1_IRQHandler` for a received line: `fgets` stores `line`
        with a terminator at the start of the buffer, the line is
        upper-cased in place, its prefix becomes the pending command, and
        TEMP or TIME take the numbers `sscanf` read from the rest. */
    method ReceiveLine(line: seq<char>, scannedTemperature: Option<real>,
                       count: int, hour: int, minute: int)
      requires Valid() && |line| < BufferSize
      modifies this, buffer
      ensures Valid()
      ensures buffer[..] == UpperAll(line + [Nul] + old(buffer[..])[|line| + 1..])
      ensures Snapshot() == Received(old(Snapshot()), Upper(CString(line)),
                                     scannedTemperature, count, hour, minute)
    {
      ReadLine(line);
      Classify(CString(buffer[..]), scannedTemperature, count, hour, minute);
    }

    /** The rest of the handler once the buffer holds the upper-cased
        `text`: the prefix becomes the pending command, then the TEMP and
        TIME branches of its `switch`. */
    method Classify(text: seq<char>, scannedTemperature: Option<real>,
                    count: int, hour: int, minute: int)
      modifies this
      ensures Snapshot() == Received(old(Snapshot()), text, scannedTemperature, count, hour, minute)
    {
      command := Prefix(text);
      match command
      case Temp =>
        cookingTemperature := SetCookingTemperature(cookingTemperature, scannedTemperature);
      case Time =>
        cookingTime := SetCookingTime(cookingTime, count, hour, minute);
      case _ =>
    }

    /** `fgets` then the upper-casing loop. */
    method ReadLine(line: seq<char>)
      requires buffer.Length == BufferSize && |line| < BufferSize
      modifies buffer
      ensures buffer[..] == UpperAll(line + [Nul] + old(buffer[..])[|line| + 1..])
      ensures Nul in buffer[..] && CString(buffer[..]) == Upper(CString(line))
    {
      Fill(line);
      UpperCase();
      LineText(line, old(buffer[..]));
    }

    /** What `fgets` leaves in the buffer: the line, then a terminator. */
    method Fill(line: seq<char>)
      requires buffer.Length == BufferSize && |line| < BufferSize
      modifies buffer
      ensures buffer[..] == line + [Nul] + old(buffer[..])[|line| + 1..]
    {
      var i := 0;
      while i < |line|
        invariant 0 <= i <= |line|
        invariant forall j :: 0 <= j < i ==> buffer[j] == line[j]
        invariant forall j :: i <= j < buffer.Length ==> buffer[j] == old(buffer[j])
      {
        buffer[i] := line[i];
        i := i + 1;
      }
      buffer[i] := Nul;
      assert buffer[..] == line + [Nul] + old(buffer[..])[|line| + 1..];
    }
  }

  /** After filling and upper-casing, the buffer holds a terminator and its
      string is the upper-cased string of the line. */
  lemma LineText(line: seq<char>, before: seq<char>)
    requires |line| < |before|
    ensures var b := UpperAll(line + [Nul] + before[|line| + 1..]);
      Nul in b && CString(b) == Upper(CString(line))
  {
    var filled := line + [Nul] + before[|line| + 1..];
    CStringOfFilled(line, before[|line| + 1..]);
    var b := UpperAll(filled);
    assert b[|CString(filled)|] == Nul;
    CStringUpper(filled);
  }

  /** The string of a line followed by a terminator is the line up to its
      own first NUL, if it has one. */
  lemma {:induction false} CStringOfFilled(line: seq<char>, rest: seq<char>)
    ensures CString(line + [Nul] + rest) == CString(line)
    ensures |CString(line)| < |line + [Nul] + rest|
  {
    if line != [] && line[0] != Nul {
      assert (line + [Nul] + rest)[1..] == line[1..] + [Nul] + rest;
      CStringOfFilled(line[1..], rest);
    }
  }

  /** Upper-casing keeps the terminator where it is. */
  lemma CStringUpper(buf: seq<char>)
    requires Nul in buf
    ensures CString(UpperAll(buf)) == Upper(CString(buf))
  {
    var s := CString(buf);
    var u := UpperAll(buf);
    assert u == Upper(s) + buf[|s|..];
    assert |s| < |buf|;
    CStringAt(u, |s|);
  }

  /** A buffer whose first NUL is at k holds the string of its first k
      characters. */
  lemma {:induction false} CStringAt(buf: seq<char>, k: nat)
    requires k < |buf| && buf[k] == Nul && Nul !in buf[..k]
    ensures CString(buf) == buf[..k]
  {
    if k > 0 {
      assert buf[0] in buf[..k];
      assert buf[1..][..k - 1] == buf[1..k];
      CStringAt(buf[1..], k - 1);
    }
  }
}
