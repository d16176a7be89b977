/** Instances of the command parsers on the strings the source's own
    tests use, each derived from the general lemmas of `Commands`. */
module CommandExamples {
  import opened Outcomes
  import opened Text
  import opened Numerals
  import opened Floats
  import opened Commands
  import Utf8

  lemma PeriodExampleTen(ft: FloatText)
    ensures Render(Command.DataloggerPeriod(10), ft.fixed2) == "D,10"
    ensures Parse(Kind.DataloggerPeriod, "d,10", ft) == Ok(Command.DataloggerPeriod(10))
  {
    var c := Command.DataloggerPeriod(10);
    DecimalAppend(1, 0);
    assert Render(c, ft.fixed2) == "D,10";
    assert RoundTrips(c, ft);
    RoundTrip(c, ft);
    PeriodUpperTen("d,10", ft);
  }

  lemma PeriodUpperTen(s: string, ft: FloatText)
    requires s == "d,10"
    ensures Parse(Kind.DataloggerPeriod, s, ft) == Parse(Kind.DataloggerPeriod, "D,10", ft)
  {
    ParseAnyCase(Kind.DataloggerPeriod, s, ft);
    assert Upper(s) == "D,10";
  }

  lemma PeriodExampleEmpty(ft: FloatText)
    ensures Parse(Kind.DataloggerPeriod, "d,", ft) == Err(CommandParse)
  {
    ParseRejectsEmpty(U32_MAX);
    ArgumentRejectsField(Kind.DataloggerPeriod, "", ft);
    ParseAnyCase(Kind.DataloggerPeriod, "d,", ft);
    assert Upper("d,") == "D," + "";
  }

  lemma PeriodExampleNonDigit(ft: FloatText)
    ensures Parse(Kind.DataloggerPeriod, "D,2a0", ft) == Err(CommandParse)
  {
    ParseRejectsNonDigit("2A0", U32_MAX, 1);
    ArgumentRejectsField(Kind.DataloggerPeriod, "2A0", ft);
    ParseAnyCase(Kind.DataloggerPeriod, "D,2a0", ft);
    assert Upper("D,2a0") == "D," + "2A0";
  }

  /** The literal "0" is refused (it is the `DataloggerDisable` command). */
  lemma PeriodRejectsZero(ft: FloatText)
    ensures Parse(Kind.DataloggerPeriod, "D,0", ft) == Err(CommandParse)
    ensures Parse(Kind.DataloggerDisable, "D,0", ft) == Ok(Command.DataloggerDisable)
  {
    ArgumentRejectsField(Kind.DataloggerPeriod, "0", ft);
    NullaryRoundTrip(Kind.DataloggerDisable, ft);
  }

  /** Only the literal is refused: "00" and "+0" are the period 0. */
  lemma PeriodAcceptsOtherZeros(s: string, t: string, ft: FloatText)
    requires s == "D,00" && t == "D,+0"
    ensures Parse(Kind.DataloggerPeriod, s, ft) == Ok(Command.DataloggerPeriod(0))
    ensures Parse(Kind.DataloggerPeriod, t, ft) == Ok(Command.DataloggerPeriod(0))
  {
    ParseLeadingZero(0, U32_MAX);
    assert Decimal(0) == "0";
    PeriodQuirk("00", ft);
    PeriodQuirk("+0", ft);
    assert s == "D," + "00" && t == "D," + "+0";
  }

  lemma AddressExampleOne(ft: FloatText)
    ensures Render(Command.DeviceAddress(1), ft.fixed2) == "I2C,1"
    ensures Parse(Kind.DeviceAddress, "i2c,1", ft) == Ok(Command.DeviceAddress(1))
  {
    var c := Command.DeviceAddress(1);
    assert Decimal(1) == "1";
    assert Render(c, ft.fixed2) == "I2C,1";
    assert RoundTrips(c, ft);
    RoundTrip(c, ft);
    AddressUpperOne("i2c,1", ft);
  }

  lemma AddressUpperOne(s: string, ft: FloatText)
    requires s == "i2c,1"
    ensures Parse(Kind.DeviceAddress, s, ft) == Parse(Kind.DeviceAddress, "I2C,1", ft)
  {
    ParseAnyCase(Kind.DeviceAddress, s, ft);
    assert Upper(s) == "I2C,1";
  }

  lemma AddressExamplesRejected(ft: FloatText)
    ensures Parse(Kind.DeviceAddress, "I2C,", ft) == Err(CommandParse)
    ensures Parse(Kind.DeviceAddress, "I2C,a", ft) == Err(CommandParse)
  {
    ParseRejectsEmpty(U16_MAX);
    ArgumentRejectsField(Kind.DeviceAddress, "", ft);
    assert "I2C," + "" == "I2C,";
    ParseRejectsNonDigit("A", U16_MAX, 0);
    ArgumentRejectsField(Kind.DeviceAddress, "A", ft);
    AddressUpperLetter("I2C,a", ft);
  }

  lemma AddressUpperLetter(s: string, ft: FloatText)
    requires s == "I2C,a"
    ensures Parse(Kind.DeviceAddress, s, ft) == Parse(Kind.DeviceAddress, "I2C,A", ft)
  {
    ParseAnyCase(Kind.DeviceAddress, s, ft);
    assert Upper(s) == "I2C,A";
  }

  lemma AddressExampleNonDigit(ft: FloatText)
    ensures Parse(Kind.DeviceAddress, "I2C,2a0", ft) == Err(CommandParse)
  {
    ParseRejectsNonDigit("2A0", U16_MAX, 1);
    ArgumentRejectsField(Kind.DeviceAddress, "2A0", ft);
    ParseAnyCase(Kind.DeviceAddress, "I2C,2a0", ft);
    assert Upper("I2C,2a0") == "I2C," + "2A0";
  }

  /** An ASCII calibration string: upper case, without a comma, one byte
      per character. */
  lemma AsciiCalibration(calibration: string)
    requires forall i :: 0 <= i < |calibration| ==> 'A' <= calibration[i] <= 'Z'
    ensures IsUpper(calibration) && ',' !in calibration
    ensures |Utf8.Encode(calibration)| == |calibration|
  {
    assert Utf8.IsAscii(calibration);
    Utf8.EncodeAscii(calibration);
  }

  /** The example of the source's tests, `"IMPORT,abcdef"`. */
  lemma ImportExample(s: string, calibration: string, ft: FloatText)
    requires s == "IMPORT,abcdef" && calibration == "ABCDEF"
    ensures Parse(Kind.Import, s, ft) == Ok(Command.Import(calibration))
  {
    AsciiCalibration(calibration);
    var lower := "abcdef";
    assert s == "IMPORT," + lower;
    UpperConcat("IMPORT,", lower);
    UpperFixesUpper("IMPORT,");
    assert Upper(lower) == calibration;
    ImportParseIff(s, calibration, ft);
  }

  /** The 15-character example of the source's tests is rendered as it is. */
  lemma ImportExampleTooLongRender(calibration: string, ft: FloatText)
    requires calibration == "ABCDEFGHIJKLMNO"
    ensures Render(Command.Import(calibration), ft.fixed2) == "IMPORT,ABCDEFGHIJKLMNO"
  {
  }

  /** The wire string of the 15-character example does not parse back. */
  lemma ImportExampleTooLong(calibration: string, ft: FloatText)
    requires calibration == "ABCDEFGHIJKLMNO"
    ensures Parse(Kind.Import, Render(Command.Import(calibration), ft.fixed2), ft).Err?
  {
    AsciiCalibration(calibration);
    ImportRenderUnchecked(calibration, ft);
  }

  lemma NullaryExamples(ft: FloatText)
    ensures Parse(Kind.CalibrationClear, "Cal,CLEAR", ft) == Ok(Command.CalibrationClear)
    ensures Parse(Kind.Sleep, "Sleep", ft) == Ok(Command.Sleep)
    ensures Parse(Kind.Sleep, "SLEEP,", ft) == Err(CommandParse)
  {
    assert Upper("Cal,CLEAR") == "CAL,CLEAR";
    assert Upper("Sleep") == "SLEEP";
    assert |Upper("SLEEP,")| == 6;
  }

  /** The wire strings of the calibration and export commands, as the
      `build_command_*` tests expect them. */
  lemma NullaryWireStringsCalibration(fixed2: real -> string)
    ensures Render(Command.CalibrationClear, fixed2) == "CAL,CLEAR"
    ensures Render(Command.CalibrationState, fixed2) == "CAL,?"
    ensures Render(Command.Export, fixed2) == "EXPORT"
    ensures Render(Command.ExportInfo, fixed2) == "EXPORT,?"
  {
  }

  /** The wire strings of the data-logger, factory, find and information commands, as the
      `build_command_*` tests expect them. */
  lemma NullaryWireStringsDevice(fixed2: real -> string)
    ensures Render(Command.DataloggerDisable, fixed2) == "D,0"
    ensures Render(Command.DataloggerInterval, fixed2) == "D,?"
    ensures Render(Command.Factory, fixed2) == "FACTORY"
    ensures Render(Command.Find, fixed2) == "F"
    ensures Render(Command.DeviceInformation, fixed2) == "I"
  {
  }

  /** The wire strings of the LED and memory commands, as the
      `build_command_*` tests expect them. */
  lemma NullaryWireStringsLed(fixed2: real -> string)
    ensures Render(Command.LedOn, fixed2) == "L,1"
    ensures Render(Command.LedOff, fixed2) == "L,0"
    ensures Render(Command.LedState, fixed2) == "L,?"
    ensures Render(Command.MemoryClear, fixed2) == "M,CLEAR"
    ensures Render(Command.MemoryRecall, fixed2) == "M"
  {
  }

  /** The wire strings of the last-memory and protocol-lock commands, as the
      `build_command_*` tests expect them. */
  lemma NullaryWireStringsLock(fixed2: real -> string)
    ensures Render(Command.MemoryRecallLast, fixed2) == "M,?"
    ensures Render(Command.ProtocolLockEnable, fixed2) == "PLOCK,1"
    ensures Render(Command.ProtocolLockDisable, fixed2) == "PLOCK,0"
    ensures Render(Command.ProtocolLockState, fixed2) == "PLOCK,?"
  {
  }

  /** The wire strings of the reading commands and the first two scales, as the
      `build_command_*` tests expect them. */
  lemma NullaryWireStringsReading(fixed2: real -> string)
    ensures Render(Command.Reading, fixed2) == "R"
    ensures Render(Command.ReadingWithScale, fixed2) == "R"
    ensures Render(Command.ScaleCelsius, fixed2) == "S,C"
    ensures Render(Command.ScaleKelvin, fixed2) == "S,K"
  {
  }

  /** The wire strings of the remaining scale, sleep and status commands, as the
      `build_command_*` tests expect them. */
  lemma NullaryWireStringsScale(fixed2: real -> string)
    ensures Render(Command.ScaleFahrenheit, fixed2) == "S,F"
    ensures Render(Command.ScaleState, fixed2) == "S,?"
    ensures Render(Command.Sleep, fixed2) == "SLEEP"
    ensures Render(Command.Status, fixed2) == "STATUS"
  {
  }
}
