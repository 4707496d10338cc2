/** The pure parts of the Bluetooth command handler in main.c: upper-casing
    the received line, classifying it by its prefix (`getPrefix`), and the
    validation of the TIME and TEMP arguments. The numbers `sscanf` reads
    are inputs here. */
module CookCommands {

  type uint16 = x: int | 0 <= x < 0x1_0000

  datatype Option<T> = None | Some(value: T)

  /** The mailbox values of `enum COMMANDS`. */
  datatype Command = Invalid | Report | Start | Pause | Stop | Time | Temp

  const Nul: char := '\0'

  // ---------------------------------------------------------------------
  // Upper-casing

  predicate IsLower(c: char) {
    'a' <= c <= 'z'
  }

  /** `toupper` in the C locale: only the 26 lower-case letters change. */
  function ToUpper(c: char): (u: char)
    ensures !IsLower(u)
    ensures u == c <==> !IsLower(c)
    ensures u == Nul <==> c == Nul
  {
    if IsLower(c) then (c as int - 'a' as int + 'A' as int) as char else c
  }

  /** The string a C buffer holds: everything before its first NUL. */
  function CString(buf: seq<char>): (s: seq<char>)
    ensures |s| <= |buf| && s == buf[..|s|]
    ensures Nul !in s
    ensures |s| < |buf| ==> buf[|s|] == Nul
  {
    if buf == [] || buf[0] == Nul then [] else [buf[0]] + CString(buf[1..])
  }

  /** Every character of s through `toupper`. */
  function Upper(s: seq<char>): (u: seq<char>)
    ensures |u| == |s|
    ensures forall i :: 0 <= i < |s| ==> u[i] == ToUpper(s[i])
  {
    seq(|s|, i requires 0 <= i < |s| => ToUpper(s[i]))
  }

  /** The buffer after the receive handler's upper-casing loop: the string
      before the terminator is upper-cased, the terminator and whatever
      follows it are untouched. */
  function UpperAll(buf: seq<char>): (r: seq<char>)
    ensures |r| == |buf|
    ensures r == Upper(CString(buf)) + buf[|CString(buf)|..]
  {
    if buf == [] || buf[0] == Nul then buf
    else
      var rest := UpperAll(buf[1..]);
      assert buf[1..][|CString(buf[1..])|..] == buf[|CString(buf)|..];
      [ToUpper(buf[0])] + rest
  }

  // ---------------------------------------------------------------------
  // getPrefix

  /** The keyword for each command and how many of its characters
      `getPrefix` compares. */
  function Keyword(c: Command): string {
    match c
    case Invalid => ""
    case Report => "REPORT"
    case Temp => "TEMP"
    case Time => "TIME"
    case Start => "START"
    case Stop => "STOP"
    case Pause => "PAUSE"
  }

  function Compared(c: Command): (n: nat)
    ensures n <= |Keyword(c)|
  {
    match c
    case Invalid => 0
    case Report => 5
    case Temp => 4
    case Time => 4
    case Start => 5
    case Stop => 4
    case Pause => 5
  }

  /** `strncmp(buffer, keyword, n) == 0` for a buffer holding s: the
      keyword has no NUL in its first n characters, so s must reach that
      far and agree with it there. */
  predicate Matches(s: seq<char>, c: Command) {
    Compared(c) <= |s| && s[..Compared(c)] == Keyword(c)[..Compared(c)]
  }

  /** `getPrefix`: the first keyword, in the order REPORT, TEMP, TIME,
      START, STOP, PAUSE, whose compared characters begin s. */
  function Prefix(s: seq<char>): Command {
    if Matches(s, Report) then Report
    else if Matches(s, Temp) then Temp
    else if Matches(s, Time) then Time
    else if Matches(s, Start) then Start
    else if Matches(s, Stop) then Stop
    else if Matches(s, Pause) then Pause
    else Invalid
  }

  /** No line begins with two of the compared prefixes: any two of them
      differ within their first three characters. */
  lemma Exclusive(s: seq<char>, c: Command, d: Command)
    requires c != Invalid && d != Invalid && c != d && Matches(s, c)
    ensures !Matches(s, d)
  {
    assert s[0] == Keyword(c)[0] && s[1] == Keyword(c)[1] && s[2] == Keyword(c)[2];
  }

  /** The compared prefixes exclude each other, so the order of the tests
      never matters: a line is classified as a command exactly when it
      begins with that command's compared prefix, and as INVALID exactly
      when it begins with none of them. */
  lemma PrefixIff(s: seq<char>, c: Command)
    ensures c != Invalid ==> (Prefix(s) == c <==> Matches(s, c))
    ensures Prefix(s) == Invalid <==>
      forall d: Command :: d != Invalid ==> !Matches(s, d)
  {
    if c != Invalid && Matches(s, c) {
      forall d: Command | d != Invalid && d != c
        ensures !Matches(s, d)
      {
        Exclusive(s, c, d);
      }
    }
    if Prefix(s) == Invalid {
      forall d: Command | d != Invalid
        ensures !Matches(s, d)
      {
        assert d.Report? || d.Temp? || d.Time? || d.Start? || d.Stop? || d.Pause?;
      }
    }
  }

  /** Every keyword begins with R, T, S or P, so a line that begins with
      anything else is INVALID. */
  lemma UnknownInitial(s: seq<char>)
    requires s != [] && s[0] != 'R' && s[0] != 'T' && s[0] != 'S' && s[0] != 'P'
    ensures Prefix(s) == Invalid
  {
    forall d: Command | d != Invalid
      ensures !Matches(s, d)
    {
      if Compared(d) <= |s| {
        assert s[..Compared(d)][0] == s[0];
        assert Keyword(d)[..Compared(d)][0] == Keyword(d)[0];
      }
    }
  }

  /** Only five characters of REPORT and PAUSE, and four of STOP, are
      compared. */
  lemma PrefixComparesOnlyPrefix()
    ensures Prefix("REPOR") == Report
    ensures Prefix("STOPPED\n") == Stop
    ensures Prefix("PAUSED") == Pause
  {
    assert "REPOR"[..5] == "REPORT"[..5];
    PrefixIff("REPOR", Report);
    assert "STOPPED\n"[..4] == "STOP"[..4];
    PrefixIff("STOPPED\n", Stop);
    assert "PAUSED"[..5] == "PAUSE"[..5];
    PrefixIff("PAUSED", Pause);
  }

  /** TEMP and TIME lines are told apart; a line shorter than every
      keyword is INVALID. */
  lemma PrefixExamples()
    ensures Prefix("TEMP 140\n") == Temp
    ensures Prefix("TIME 1 30\n") == Time
    ensures Prefix("STAR") == Invalid
    ensures Prefix("") == Invalid
  {
    assert "TEMP 140\n"[..4] == "TEMP"[..4];
    PrefixIff("TEMP 140\n", Temp);
    assert "TIME 1 30\n"[..4] == "TIME"[..4];
    PrefixIff("TIME 1 30\n", Time);
    assert "STAR"[..4][3] != "STOP"[3];
  }

  /** A received line is classified after upper-casing, so the keywords are
      recognised in any case. */
  lemma LowerCaseAccepted()
    ensures Prefix(Upper("start\n")) == Start
    ensures Prefix(Upper("Time 90\n")) == Time
  {
    assert Upper("start\n")[..5] == "START"[..5];
    PrefixIff(Upper("start\n"), Start);
    assert Upper("Time 90\n")[..4] == "TIME"[..4];
    PrefixIff(Upper("Time 90\n"), Time);
  }

  // ---------------------------------------------------------------------
  // TIME

  /** Minutes from the result of `sscanf(buffer + 4, "%u%u", ...)`: hours
      and minutes when both were read, a bare number of minutes when one
      was, and 0 otherwise (nothing read, or end of input). */
  function TimeTotal(count: int, hour: int, minute: int): int {
    if count == 2 then minute + hour * 60
    else if count == 1 then hour
    else 0
  }

  /** A cooking time is accepted when it is positive and under 48 hours. */
  predicate TimeAccepted(total: int) {
    0 < total < 2880
  }

  /** The new `cookingTime` after a TIME command. */
  function SetCookingTime(cookingTime: uint16, count: int, hour: int, minute: int): (t: uint16)
    ensures t == cookingTime || (t == TimeTotal(count, hour, minute) && TimeAccepted(t))
    ensures TimeAccepted(TimeTotal(count, hour, minute)) ==> t == TimeTotal(count, hour, minute)
  {
    var total := TimeTotal(count, hour, minute);
    if TimeAccepted(total) then total else cookingTime
  }

  /** Once a time has been accepted, TIME commands keep it in range. */
  lemma TimeStaysInRange(cookingTime: uint16, count: int, hour: int, minute: int)
    requires TimeAccepted(cookingTime)
    ensures TimeAccepted(SetCookingTime(cookingTime, count, hour, minute))
  {
  }

  lemma TimeExamples(cookingTime: uint16)
    ensures SetCookingTime(cookingTime, 2, 1, 30) == 90
    ensures SetCookingTime(cookingTime, 1, 45, 0) == 45
    ensures SetCookingTime(cookingTime, 1, 2879, 0) == 2879
    ensures SetCookingTime(cookingTime, 1, 0, 0) == cookingTime
    ensures SetCookingTime(cookingTime, 1, 2880, 0) == cookingTime
    ensures SetCookingTime(cookingTime, 2, 48, 0) == cookingTime
    ensures SetCookingTime(cookingTime, 0, 7, 7) == cookingTime
    ensures SetCookingTime(cookingTime, -1, 7, 7) == cookingTime
  {
  }

  // ---------------------------------------------------------------------
  // TEMP

  function FahrenheitToCelsius(f: real): (c: real)
    ensures c * 9.0 == (f - 32.0) * 5.0
  {
    (f - 32.0) * 5.0 / 9.0
  }

  /** A set-point is accepted strictly between 20 and 95 degrees Celsius. */
  predicate TemperatureAccepted(celsius: real) {
    20.0 < celsius < 95.0
  }

  /** The new `cookingTemperature` after a TEMP command whose argument
      `sscanf` read as `scanned` degrees Fahrenheit (None when it read
      nothing): unchanged unless a number was read and is in range. */
  function SetCookingTemperature(cookingTemperature: real, scanned: Option<real>): (t: real)
    ensures scanned.None? ==> t == cookingTemperature
    ensures scanned.Some? && TemperatureAccepted(FahrenheitToCelsius(scanned.value)) ==>
      t == FahrenheitToCelsius(scanned.value)
    ensures scanned.Some? && !TemperatureAccepted(FahrenheitToCelsius(scanned.value)) ==>
      t == cookingTemperature
  {
    match scanned
    case None => cookingTemperature
    case Some(f) =>
      var c := FahrenheitToCelsius(f);
      if TemperatureAccepted(c) then c else cookingTemperature
  }

  /** In Fahrenheit, the accepted range is 68 to 203 degrees, both
      excluded. */
  lemma TemperatureRangeFahrenheit(f: real)
    ensures TemperatureAccepted(FahrenheitToCelsius(f)) <==> 68.0 < f < 203.0
  {
    var c := FahrenheitToCelsius(f);
    assert c * 9.0 == (f - 32.0) * 5.0;
  }

  /** Once a set-point has been accepted, TEMP commands keep it in range. */
  lemma TemperatureStaysInRange(cookingTemperature: real, scanned: Option<real>)
    requires TemperatureAccepted(cookingTemperature)
    ensures TemperatureAccepted(SetCookingTemperature(cookingTemperature, scanned))
  {
  }

  /** The TEMP branch as written: `sscanf` stores into the static
      `tempTemp`, which is then converted in place, so when no number is
      read the previous command's value, already in Celsius, is converted
      again as if it were Fahrenheit. Returns the new set-point and the
      new `tempTemp`. */
  function TempCommandAsWritten(cookingTemperature: real, tempTemp: real, scanned: Option<real>)
    : (real, real)
  {
    var read := if scanned.Some? then scanned.value else tempTemp;
    var converted := FahrenheitToCelsius(read);
    (if TemperatureAccepted(converted) then converted else cookingTemperature, converted)
  }

  /** A bare TEMP after any accepted set-point `t` (which `tempTemp` still
      holds) reconverts `t` as Fahrenheit: above 68 the result is accepted
      and replaces the set-point by a different value, at or below 68 it is
      rejected. The corrected branch leaves the set-point unchanged. */
  lemma BareTempReconverts(cookingTemperature: real, t: real)
    requires TemperatureAccepted(t)
    ensures TempCommandAsWritten(cookingTemperature, t, None).0
         == (if t > 68.0 then FahrenheitToCelsius(t) else cookingTemperature)
    ensures t > 68.0 ==> TempCommandAsWritten(cookingTemperature, t, None).0 != t
    ensures SetCookingTemperature(cookingTemperature, None) == cookingTemperature
  {
    TemperatureRangeFahrenheit(t);
  }

  /** Where a number is read, the handler as written and the corrected one
      agree. */
  lemma TempCommandAgreesWhenScanned(cookingTemperature: real, tempTemp: real, f: real)
    ensures TempCommandAsWritten(cookingTemperature, tempTemp, Some(f)).0
         == SetCookingTemperature(cookingTemperature, Some(f))
  {
  }

  /** "TEMP 194" sets 90 degrees Celsius and leaves 90 in `tempTemp`; a
      following bare "TEMP" then sets 290/9 (about 32.2) degrees instead of
      being rejected. */
  lemma StaleTemperatureReconverted()
    ensures TempCommandAsWritten(0.0, 0.0, Some(194.0)) == (90.0, 90.0)
    ensures TempCommandAsWritten(90.0, 90.0, None).0 == 290.0 / 9.0
    ensures SetCookingTemperature(SetCookingTemperature(0.0, Some(194.0)), None) == 90.0
  {
  }
}
