/** The command table of the RTD chip: for each command, the ASCII wire
    string, the settle delay before its response may be read, and what kind
    of response (if any) is read; and the case-insensitive parser each
    command has for its own textual form. */
module Commands {
  import opened Outcomes
  import opened Text
  import opened Numerals
  import opened Floats
  import opened EzoCommon
  import Utf8

  /** "Maximum ascii-character response size + 2": the response buffer. */
  const MAX_DATA: nat := 16

  datatype Command =
    | Baud(rate: BpsRate)
    | CalibrationTemperature(temperature: real)
    | CalibrationClear
    | CalibrationState
    | Export
    | ExportInfo
    | Import(calibration: string)
    | DataloggerPeriod(period: u32)
    | DataloggerDisable
    | DataloggerInterval
    | Factory
    | Find
    | DeviceAddress(address: u16)
    | DeviceInformation
    | LedOn
    | LedOff
    | LedState
    | MemoryClear
    | MemoryRecall
    | MemoryRecallLast
    | ProtocolLockEnable
    | ProtocolLockDisable
    | ProtocolLockState
    | Reading
    | ReadingWithScale
    | ScaleCelsius
    | ScaleKelvin
    | ScaleFahrenheit
    | ScaleState
    | Status
    | Sleep

  /** The command types that have a `FromStr` parser: every command except
      the composite `ReadingWithScale`. */
  datatype Kind =
    | Baud | CalibrationTemperature | CalibrationClear | CalibrationState | Export | ExportInfo
    | Import | DataloggerPeriod | DataloggerDisable | DataloggerInterval | Factory | Find
    | DeviceAddress | DeviceInformation | LedOn | LedOff | LedState | MemoryClear | MemoryRecall
    | MemoryRecallLast | ProtocolLockEnable | ProtocolLockDisable | ProtocolLockState | Reading
    | ScaleCelsius | ScaleKelvin | ScaleFahrenheit | ScaleState | Status | Sleep

  /** The names of the typed responses the commands are declared with. */
  datatype ResponseType =
    | CalibrationStatus | Exported | ExportedInfo | DeviceInfo | LedStatus | MemoryReading
    | ProtocolLockStatus | SensorReading | Temperature | TemperatureScale | DeviceStatus
    | DataLoggerStorageIntervalSeconds

  /** Whether a response is read after the delay, and how it is read. */
  datatype Expected = NoResponse | Ack | Typed(response: ResponseType)

  function KindOf(c: Command): Kind
    requires !c.ReadingWithScale?
  {
    match c
    case Baud(_) => Kind.Baud
    case CalibrationTemperature(_) => Kind.CalibrationTemperature
    case CalibrationClear => Kind.CalibrationClear
    case CalibrationState => Kind.CalibrationState
    case Export => Kind.Export
    case ExportInfo => Kind.ExportInfo
    case Import(_) => Kind.Import
    case DataloggerPeriod(_) => Kind.DataloggerPeriod
    case DataloggerDisable => Kind.DataloggerDisable
    case DataloggerInterval => Kind.DataloggerInterval
    case Factory => Kind.Factory
    case Find => Kind.Find
    case DeviceAddress(_) => Kind.DeviceAddress
    case DeviceInformation => Kind.DeviceInformation
    case LedOn => Kind.LedOn
    case LedOff => Kind.LedOff
    case LedState => Kind.LedState
    case MemoryClear => Kind.MemoryClear
    case MemoryRecall => Kind.MemoryRecall
    case MemoryRecallLast => Kind.MemoryRecallLast
    case ProtocolLockEnable => Kind.ProtocolLockEnable
    case ProtocolLockDisable => Kind.ProtocolLockDisable
    case ProtocolLockState => Kind.ProtocolLockState
    case Reading => Kind.Reading
    case ScaleCelsius => Kind.ScaleCelsius
    case ScaleKelvin => Kind.ScaleKelvin
    case ScaleFahrenheit => Kind.ScaleFahrenheit
    case ScaleState => Kind.ScaleState
    case Status => Kind.Status
    case Sleep => Kind.Sleep
  }

  /** The kinds whose command carries no argument. */
  predicate IsNullary(k: Kind) {
    !(k.Baud? || k.CalibrationTemperature? || k.Import? || k.DataloggerPeriod? || k.DeviceAddress?)
  }

  /** The one command of a kind without argument. */
  function NullaryCommand(k: Kind): (c: Command)
    requires IsNullary(k)
    ensures !c.ReadingWithScale? && KindOf(c) == k
  {
    match k
    case CalibrationClear => Command.CalibrationClear
    case CalibrationState => Command.CalibrationState
    case Export => Command.Export
    case ExportInfo => Command.ExportInfo
    case DataloggerDisable => Command.DataloggerDisable
    case DataloggerInterval => Command.DataloggerInterval
    case Factory => Command.Factory
    case Find => Command.Find
    case DeviceInformation => Command.DeviceInformation
    case LedOn => Command.LedOn
    case LedOff => Command.LedOff
    case LedState => Command.LedState
    case MemoryClear => Command.MemoryClear
    case MemoryRecall => Command.MemoryRecall
    case MemoryRecallLast => Command.MemoryRecallLast
    case ProtocolLockEnable => Command.ProtocolLockEnable
    case ProtocolLockDisable => Command.ProtocolLockDisable
    case ProtocolLockState => Command.ProtocolLockState
    case Reading => Command.Reading
    case ScaleCelsius => Command.ScaleCelsius
    case ScaleKelvin => Command.ScaleKelvin
    case ScaleFahrenheit => Command.ScaleFahrenheit
    case ScaleState => Command.ScaleState
    case Status => Command.Status
    case Sleep => Command.Sleep
  }

  // ---------------------------------------------------------------------
  // The table: wire string, delay, response
  // ---------------------------------------------------------------------

  /** `get_command_string`. `fixed2` formats the calibration temperature
      with two decimals. */
  function Render(c: Command, fixed2: real -> string): (r: string)
    ensures |r| >= 1
    decreases if c.ReadingWithScale? then 1 else 0
  {
    match c
    case Baud(rate) => "BAUD," + RateText(rate)
    case CalibrationTemperature(t) => "CAL," + fixed2(t)
    case CalibrationClear => "CAL,CLEAR"
    case CalibrationState => "CAL,?"
    case Export => "EXPORT"
    case ExportInfo => "EXPORT,?"
    case Import(calibration) => "IMPORT," + calibration
    case DataloggerPeriod(n) => "D," + Decimal(n)
    case DataloggerDisable => "D,0"
    case DataloggerInterval => "D,?"
    case Factory => "FACTORY"
    case Find => "F"
    case DeviceAddress(a) => "I2C," + Decimal(a)
    case DeviceInformation => "I"
    case LedOn => "L,1"
    case LedOff => "L,0"
    case LedState => "L,?"
    case MemoryClear => "M,CLEAR"
    case MemoryRecall => "M"
    case MemoryRecallLast => "M,?"
    case ProtocolLockEnable => "PLOCK,1"
    case ProtocolLockDisable => "PLOCK,0"
    case ProtocolLockState => "PLOCK,?"
    case Reading => "R"
    case ReadingWithScale => Render(Command.Reading, fixed2)
    case ScaleCelsius => "S,C"
    case ScaleKelvin => "S,K"
    case ScaleFahrenheit => "S,F"
    case ScaleState => "S,?"
    case Status => "STATUS"
    case Sleep => "SLEEP"
  }

  /** `get_delay`, in milliseconds. */
  function Delay(c: Command): (d: nat)
    ensures d in {0, 300, 600, 900, 1000}
    decreases if c.ReadingWithScale? then 1 else 0
  {
    match c
    case Baud(_) => 0
    case CalibrationTemperature(_) => 1000
    case Factory => 0
    case Reading => 600
    case ReadingWithScale => Delay(Command.ScaleState) + Delay(Command.Reading)
    case Sleep => 0
    case _ => 300
  }

  /** The response argument of each command declaration. An argument
      command is acknowledged unless it changes the bus settings themselves
      (the baud rate or the I2C address). */
  function ExpectedResponse(c: Command): (e: Expected)
    ensures !c.ReadingWithScale? && !IsNullary(KindOf(c)) ==>
      (e.NoResponse? <==> c.Baud? || c.DeviceAddress?) && (e.Ack? <==> !(c.Baud? || c.DeviceAddress?))
  {
    match c
    case Baud(_) => NoResponse
    case CalibrationTemperature(_) => Ack
    case CalibrationClear => Ack
    case CalibrationState => Typed(CalibrationStatus)
    case Export => Typed(Exported)
    case ExportInfo => Typed(ExportedInfo)
    case Import(_) => Ack
    case DataloggerPeriod(_) => Ack
    case DataloggerDisable => Ack
    case DataloggerInterval => Typed(DataLoggerStorageIntervalSeconds)
    case Factory => NoResponse
    case Find => NoResponse
    case DeviceAddress(_) => NoResponse
    case DeviceInformation => Typed(DeviceInfo)
    case LedOn => Ack
    case LedOff => Ack
    case LedState => Typed(LedStatus)
    case MemoryClear => Ack
    case MemoryRecall => Typed(MemoryReading)
    case MemoryRecallLast => Typed(MemoryReading)
    case ProtocolLockEnable => Ack
    case ProtocolLockDisable => Ack
    case ProtocolLockState => Typed(ProtocolLockStatus)
    case Reading => Typed(SensorReading)
    case ReadingWithScale => Typed(Temperature)
    case ScaleCelsius => Ack
    case ScaleKelvin => Ack
    case ScaleFahrenheit => Ack
    case ScaleState => Typed(TemperatureScale)
    case Status => Typed(DeviceStatus)
    case Sleep => NoResponse
  }

  // ---------------------------------------------------------------------
  // Parsing (`FromStr`)
  // ---------------------------------------------------------------------

  /** The rate a `BAUD,` field names: exactly one of the eight literals. */
  function RateOfField(field: string): Option<BpsRate> {
    if field == "300" then Some(Bps300)
    else if field == "1200" then Some(Bps1200)
    else if field == "2400" then Some(Bps2400)
    else if field == "9600" then Some(Bps9600)
    else if field == "19200" then Some(Bps19200)
    else if field == "38400" then Some(Bps38400)
    else if field == "57600" then Some(Bps57600)
    else if field == "115200" then Some(Bps115200)
    else None
  }

  function BaudField(f: string): Option<Command> {
    match RateOfField(f)
    case None => None
    case Some(rate) => Some(Command.Baud(rate))
  }

  function CalibrationField(ft: FloatText): string -> Option<Command> {
    f =>
      match ft.parse(f)
      case None => None
      case Some(t) => Some(Command.CalibrationTemperature(t))
  }

  /** A calibration string of 1 to 12 bytes (`len` counts UTF-8 bytes). */
  function ImportField(f: string): Option<Command> {
    var n := |Utf8.Encode(f)|;
    if 0 < n < 13 then Some(Command.Import(f)) else None
  }

  /** Any `u32` except the literal "0". */
  function PeriodField(f: string): Option<Command> {
    if f == "0" then None
    else match ParseUnsigned(f, U32_MAX)
      case None => None
      case Some(n) => Some(Command.DataloggerPeriod(n))
  }

  function AddressField(f: string): Option<Command> {
    match ParseUnsigned(f, U16_MAX)
    case None => None
    case Some(a) => Some(Command.DeviceAddress(a))
  }

  /** The literal an argument command starts with. */
  function Prefix(k: Kind): string
    requires !IsNullary(k)
  {
    if k.Baud? then "BAUD,"
    else if k.CalibrationTemperature? then "CAL,"
    else if k.Import? then "IMPORT,"
    else if k.DataloggerPeriod? then "D,"
    else "I2C,"
  }

  /** How an argument command reads its one field. */
  function Field(k: Kind, ft: FloatText): (field: string -> Option<Command>)
    requires !IsNullary(k)
    ensures forall f :: field(f).Some? ==> !field(f).value.ReadingWithScale? && KindOf(field(f).value) == k
  {
    if k.Baud? then BaudField
    else if k.CalibrationTemperature? then CalibrationField(ft)
    else if k.Import? then ImportField
    else if k.DataloggerPeriod? then PeriodField
    else AddressField
  }

  /** The upper-cased text must start with `prefix`, and `split(',')` of the
      rest must yield one field that `field` accepts and then nothing more. */
  function ParseArgument(u: string, prefix: string, field: string -> Option<Command>): (r: Result<Command>)
    ensures r.Err? ==> r.error == CommandParse
    ensures r.Ok? ==> StartsWith(u, prefix) && ',' !in u[|prefix|..] && field(u[|prefix|..]) == Some(r.value)
  {
    if StartsWith(u, prefix) then
      var rest := u[|prefix|..];
      var fields := Split(rest, ',');
      match field(fields[0])
      case None => Err(CommandParse)
      case Some(c) =>
        if |fields| == 1 then
          JoinSplit(rest, ',');
          Ok(c)
        else Err(CommandParse)
    else Err(CommandParse)
  }

  /** The one literal the `match` of a command without argument accepts in
      its `from_str`, written independently of its wire string. */
  function FromStrText(k: Kind): string
    requires IsNullary(k)
  {
    match k
    case CalibrationClear => "CAL,CLEAR"
    case CalibrationState => "CAL,?"
    case Export => "EXPORT"
    case ExportInfo => "EXPORT,?"
    case DataloggerDisable => "D,0"
    case DataloggerInterval => "D,?"
    case Factory => "FACTORY"
    case Find => "F"
    case DeviceInformation => "I"
    case LedOn => "L,1"
    case LedOff => "L,0"
    case LedState => "L,?"
    case MemoryClear => "M,CLEAR"
    case MemoryRecall => "M"
    case MemoryRecallLast => "M,?"
    case ProtocolLockEnable => "PLOCK,1"
    case ProtocolLockDisable => "PLOCK,0"
    case ProtocolLockState => "PLOCK,?"
    case Reading => "R"
    case ScaleCelsius => "S,C"
    case ScaleKelvin => "S,K"
    case ScaleFahrenheit => "S,F"
    case ScaleState => "S,?"
    case Status => "STATUS"
    case Sleep => "SLEEP"
  }

  /** `s.parse::<K>()` for the command type `k`: a command without argument
      accepts exactly its `from_str` literal, in any case. */
  function Parse(k: Kind, s: string, ft: FloatText): (r: Result<Command>)
    ensures r.Err? ==> r.error == CommandParse
    ensures r.Ok? ==> !r.value.ReadingWithScale? && KindOf(r.value) == k
  {
    var u := Upper(s);
    if IsNullary(k) then
      if u == FromStrText(k) then Ok(NullaryCommand(k)) else Err(CommandParse)
    else ParseArgument(u, Prefix(k), Field(k, ft))
  }

  // ---------------------------------------------------------------------
  // The table
  // ---------------------------------------------------------------------

  /** The settle delays: none for `Baud`, `Factory` and `Sleep`, a second for
      a calibration, 600 ms for a reading, and 300 ms for everything else. */
  lemma DelayTable(c: Command)
    ensures Delay(c) == 0 <==> c.Baud? || c.Factory? || c.Sleep?
    ensures Delay(c) == 1000 <==> c.CalibrationTemperature?
    ensures Delay(c) == 600 <==> c.Reading?
    ensures Delay(c) == 900 <==> c.ReadingWithScale?
    ensures Delay(c) in {0, 300, 600, 900, 1000}
  {
  }

  /** `ReadingWithScale` sends the reading's string and waits as long as the
      scale query and the reading together. */
  lemma ReadingWithScaleTable(fixed2: real -> string)
    ensures Render(Command.ReadingWithScale, fixed2) == Render(Command.Reading, fixed2) == "R"
    ensures Delay(Command.ReadingWithScale) == Delay(Command.ScaleState) + Delay(Command.Reading) == 900
  {
  }

  /** No response is read after exactly the five commands the device does
      not answer; the thirteen commands that change a setting other than the
      bus settings read an acknowledgement; the thirteen queries read a typed
      response. */
  lemma ExpectedTable(c: Command)
    ensures ExpectedResponse(c).NoResponse? <==>
      c.Baud? || c.Factory? || c.Find? || c.DeviceAddress? || c.Sleep?
    ensures ExpectedResponse(c) == Typed(TemperatureScale) <==> c.ScaleState?
    ensures ExpectedResponse(c) == Typed(DeviceStatus) <==> c.Status?
    ensures ExpectedResponse(c) == Typed(Temperature) <==> c.ReadingWithScale?
    ensures ExpectedResponse(c) == Typed(DataLoggerStorageIntervalSeconds) <==> c.DataloggerInterval?
    ensures ExpectedResponse(c).Ack? <==>
      c.CalibrationTemperature? || c.CalibrationClear? || c.Import? || c.DataloggerPeriod? || c.DataloggerDisable?
      || c.LedOn? || c.LedOff? || c.MemoryClear? || c.ProtocolLockEnable? || c.ProtocolLockDisable?
      || c.ScaleCelsius? || c.ScaleKelvin? || c.ScaleFahrenheit?
    ensures ExpectedResponse(c).Typed? <==>
      c.CalibrationState? || c.Export? || c.ExportInfo? || c.DataloggerInterval? || c.DeviceInformation?
      || c.LedState? || c.MemoryRecall? || c.MemoryRecallLast? || c.ProtocolLockState? || c.Reading?
      || c.ReadingWithScale? || c.ScaleState? || c.Status?
  {
  }

  /** A `BAUD,` field names a rate exactly when it is that rate's text, so
      `Baud::from_str` accepts exactly the eight rates. */
  lemma RateOfFieldIff(field: string, rate: BpsRate)
    ensures RateOfField(field) == Some(rate) <==> field == RateText(rate)
  {
  }

  /** Every rate text is a decimal number. */
  lemma RateTextDigits(rate: BpsRate)
    ensures AllDigits(RateText(rate))
  {
  }

  // ---------------------------------------------------------------------
  // Parsing
  // ---------------------------------------------------------------------

  /** Parsing is case-insensitive: it sees only the upper-cased text. */
  lemma ParseAnyCase(k: Kind, s: string, ft: FloatText)
    ensures Parse(k, s, ft) == Parse(k, Upper(s), ft)
  {
    UpperIdempotent(s);
  }

  /** What a command without argument accepts: exactly its wire string, in
      any case. */
  lemma NullaryParseIff(k: Kind, s: string, ft: FloatText)
    requires IsNullary(k)
    ensures Parse(k, s, ft).Ok? <==> Upper(s) == Render(NullaryCommand(k), ft.fixed2)
    ensures Parse(k, s, ft).Ok? ==> Parse(k, s, ft).value == NullaryCommand(k)
    ensures Parse(k, s, ft).Err? ==> Parse(k, s, ft).error == CommandParse
  {
    FromStrAgrees(k, ft.fixed2);
  }

  /** What an argument command accepts: its prefix, then one field without a
      comma that the field reader accepts; as an if-and-only-if. */
  lemma {:induction false} ArgumentParseIff(k: Kind, s: string, ft: FloatText, c: Command)
    requires !IsNullary(k)
    ensures Parse(k, s, ft) == Ok(c) <==>
      StartsWith(Upper(s), Prefix(k)) &&
      ',' !in Upper(s)[|Prefix(k)|..] &&
      Field(k, ft)(Upper(s)[|Prefix(k)|..]) == Some(c)
  {
    var u := Upper(s);
    if StartsWith(u, Prefix(k)) {
      var rest := u[|Prefix(k)|..];
      var fields := Split(rest, ',');
      if Parse(k, s, ft) == Ok(c) {
        assert |fields| == 1;
        JoinSplit(rest, ',');
      }
      if ',' !in rest {
        SplitNoSep(rest, ',');
      }
    }
  }

  /** The argument grammar refuses a second field, whatever the field
      reader would make of the first. */
  lemma ArgumentExtraField(prefix: string, field: string -> Option<Command>, a: string, b: string)
    requires ',' !in a
    ensures ParseArgument(prefix + a + [','] + b, prefix, field) == Err(CommandParse)
  {
    var rest := a + [','] + b;
    assert prefix + a + [','] + b == prefix + rest;
    StartsWithConcat(prefix, rest);
    SplitCons(a, b, ',');
  }

  /** Upper-casing a prefix, a comma-free field, a comma and a tail keeps the
      prefix and the comma where they are. */
  lemma UpperFields(p: string, a: string, b: string)
    requires IsUpper(p) && ',' !in a
    ensures Upper(p + a + "," + b) == p + Upper(a) + [','] + Upper(b)
    ensures ',' !in Upper(a)
  {
    assert p + a + "," + b == p + (a + [','] + b);
    UpperConcat(p, a + [','] + b);
    UpperConcat(a + [','], b);
    UpperConcat(a, [',']);
    UpperFixesUpper(p);
    assert Upper([',']) == [','];
    var ua := Upper(a);
    forall i | 0 <= i < |ua| ensures ua[i] != ',' {
      assert a[i] != ',';
    }
  }

  /** A second comma field is rejected by every argument command, whatever
      the two fields hold. */
  lemma {:induction false} ArgumentRejectsExtraField(k: Kind, a: string, b: string, ft: FloatText)
    requires !IsNullary(k)
    requires ',' !in a
    ensures Parse(k, Prefix(k) + a + "," + b, ft) == Err(CommandParse)
  {
    var p := Prefix(k);
    UpperFields(p, a, b);
    ArgumentExtraField(p, Field(k, ft), Upper(a), Upper(b));
  }

  /** The commands whose wire string parses back to them: not the composite
      `ReadingWithScale` (it has no parser); a calibration temperature whose
      two-decimal text reads back as the same value; an import string of 1
      to 12 bytes that is already upper case and has no comma (the parser
      upper-cases and splits it); a logger period other than 0. */
  predicate RoundTrips(c: Command, ft: FloatText) {
    match c
    case ReadingWithScale => false
    case CalibrationTemperature(t) =>
      IsUpper(ft.fixed2(t)) && ',' !in ft.fixed2(t) && ft.parse(ft.fixed2(t)) == Some(t)
    case Import(calibration) =>
      0 < |Utf8.Encode(calibration)| < 13 && IsUpper(calibration) && ',' !in calibration
    case DataloggerPeriod(n) => n != 0
    case _ => true
  }

  /** The literal each `from_str` accepts is the wire string its
      `get_command_string` sends. */
  lemma FromStrAgrees(k: Kind, fixed2: real -> string)
    requires IsNullary(k)
    ensures FromStrText(k) == Render(NullaryCommand(k), fixed2)
  {
  }

  /** Every `from_str` literal is upper case, so the upper-cased input can
      match it. */
  lemma FromStrUpper(k: Kind)
    requires IsNullary(k)
    ensures IsUpper(FromStrText(k))
  {
  }

  /** Every command without argument reads back from its wire string. */
  lemma NullaryRoundTrip(k: Kind, ft: FloatText)
    requires IsNullary(k)
    ensures Parse(k, Render(NullaryCommand(k), ft.fixed2), ft) == Ok(NullaryCommand(k))
  {
    FromStrAgrees(k, ft.fixed2);
    FromStrUpper(k);
    UpperFixesUpper(FromStrText(k));
  }

  /** Digits are upper case and contain no comma. */
  lemma DigitsArgument(s: string)
    requires AllDigits(s)
    ensures IsUpper(s) && ',' !in s
  {
    assert forall i :: 0 <= i < |s| ==> s[i] != ',';
  }

  /** The prefix and an upper-case argument make an upper-case wire string
      from which the argument is recovered by dropping the prefix. */
  lemma PrefixArgument(k: Kind, arg: string)
    requires !IsNullary(k) && IsUpper(arg)
    ensures IsUpper(Prefix(k) + arg)
    ensures (Prefix(k) + arg)[|Prefix(k)|..] == arg
  {
    StartsWithConcat(Prefix(k), arg);
  }

  /** The argument of an argument command is field-read back from the text
      that follows its prefix. */
  lemma ArgumentRoundTrip(c: Command, ft: FloatText)
    requires RoundTrips(c, ft)
    requires !IsNullary(KindOf(c))
    ensures IsUpper(Render(c, ft.fixed2))
    ensures StartsWith(Render(c, ft.fixed2), Prefix(KindOf(c)))
    ensures ',' !in Render(c, ft.fixed2)[|Prefix(KindOf(c))|..]
    ensures Field(KindOf(c), ft)(Render(c, ft.fixed2)[|Prefix(KindOf(c))|..]) == Some(c)
  {
    var k := KindOf(c);
    match c {
      case Baud(rate) =>
        var arg := RateText(rate);
        RateOfFieldIff(arg, rate);
        RateTextDigits(rate);
        DigitsArgument(arg);
        PrefixArgument(k, arg);
      case CalibrationTemperature(t) =>
        var arg := ft.fixed2(t);
        assert Field(k, ft)(arg) == CalibrationField(ft)(arg);
        PrefixArgument(k, arg);
      case Import(calibration) =>
        PrefixArgument(k, calibration);
      case DataloggerPeriod(n) =>
        var arg := Decimal(n);
        ParseDecimal(n, U32_MAX);
        if arg == "0" { DecimalValue(n); }
        DigitsArgument(arg);
        PrefixArgument(k, arg);
      case DeviceAddress(a) =>
        var arg := Decimal(a);
        ParseDecimal(a, U16_MAX);
        DigitsArgument(arg);
        PrefixArgument(k, arg);
    }
  }

  /** A command without argument is the one command of its kind. */
  lemma NullaryOfKind(c: Command)
    requires !c.ReadingWithScale? && IsNullary(KindOf(c))
    ensures NullaryCommand(KindOf(c)) == c
  {
  }

  /** Parsing the wire string of a command gives the command back. With
      `ParseAnyCase` this holds for the wire string in any case. */
  lemma RoundTrip(c: Command, ft: FloatText)
    requires RoundTrips(c, ft)
    ensures Parse(KindOf(c), Render(c, ft.fixed2), ft) == Ok(c)
  {
    var k := KindOf(c);
    if IsNullary(k) {
      NullaryOfKind(c);
      NullaryRoundTrip(k, ft);
    } else {
      ArgumentRoundTrip(c, ft);
      var r := Render(c, ft.fixed2);
      UpperFixesUpper(r);
      ArgumentParseIff(k, r, ft, c);
    }
  }

  /** An argument field the field reader refuses makes the whole command
      fail. */
  lemma ArgumentRejectsField(k: Kind, f: string, ft: FloatText)
    requires !IsNullary(k)
    requires IsUpper(f) && ',' !in f && Field(k, ft)(f) == None
    ensures Parse(k, Prefix(k) + f, ft) == Err(CommandParse)
  {
    PrefixArgument(k, f);
    UpperFixesUpper(Prefix(k) + f);
    ArgumentParseIff(k, Prefix(k) + f, ft, Command.Find);
    SplitNoSep(f, ',');
  }

  // ---------------------------------------------------------------------
  // Baud
  // ---------------------------------------------------------------------

  /** `Baud::from_str` accepts a rate exactly when the upper-cased text is
      `BAUD,` and that rate's decimal text, so exactly the eight wire strings
      in any case; any other success is impossible. */
  lemma BaudParseIff(s: string, rate: BpsRate, ft: FloatText)
    ensures Parse(Kind.Baud, s, ft) == Ok(Command.Baud(rate)) <==>
      Upper(s) == Render(Command.Baud(rate), ft.fixed2)
    ensures Parse(Kind.Baud, s, ft).Ok? ==> Parse(Kind.Baud, s, ft).value.Baud?
  {
    var u := Upper(s);
    var arg := RateText(rate);
    RateTextDigits(rate);
    ArgumentParseIff(Kind.Baud, s, ft, Command.Baud(rate));
    if u == "BAUD," + arg {
      StartsWithConcat("BAUD,", arg);
      DigitsArgument(arg);
    }
    if StartsWith(u, "BAUD,") {
      RateOfFieldIff(u[5..], rate);
      assert u == "BAUD," + u[5..];
    }
  }

  /** `DataloggerPeriod::from_str` refuses the field "0" only by its
      spelling: any other spelling of zero is accepted as the period 0. */
  lemma PeriodQuirk(f: string, ft: FloatText)
    requires f != "0" && ParseUnsigned(f, U32_MAX) == Some(0)
    ensures Parse(Kind.DataloggerPeriod, "D," + f, ft) == Ok(Command.DataloggerPeriod(0))
  {
    ParseAcceptsOnlyDigits(f, U32_MAX);
    assert IsUpper(f) && ',' !in f;
    PrefixArgument(Kind.DataloggerPeriod, f);
    UpperFixesUpper("D," + f);
    ArgumentParseIff(Kind.DataloggerPeriod, "D," + f, ft, Command.DataloggerPeriod(0));
  }

  // ---------------------------------------------------------------------
  // DeviceAddress
  // ---------------------------------------------------------------------

  /** An address above `u16::MAX` is an error, not a truncation. */
  lemma AddressRejectsOverflow(n: nat, ft: FloatText)
    requires n > U16_MAX
    ensures Parse(Kind.DeviceAddress, "I2C," + Decimal(n), ft) == Err(CommandParse)
  {
    ParseRejectsOverflow(n, U16_MAX);
    DigitsArgument(Decimal(n));
    ArgumentRejectsField(Kind.DeviceAddress, Decimal(n), ft);
  }

  // ---------------------------------------------------------------------
  // Import: the length is checked when parsing, never when rendering
  // ---------------------------------------------------------------------

  /** `Import::from_str` accepts exactly `IMPORT,` and one field of 1 to 12
      bytes, and stores the field upper-cased. */
  lemma ImportParseIff(s: string, calibration: string, ft: FloatText)
    ensures Parse(Kind.Import, s, ft) == Ok(Command.Import(calibration)) <==>
      Upper(s) == "IMPORT," + calibration && ',' !in calibration &&
      0 < |Utf8.Encode(calibration)| < 13
    ensures Parse(Kind.Import, s, ft) == Ok(Command.Import(calibration)) ==> IsUpper(calibration)
  {
    var u := Upper(s);
    ArgumentParseIff(Kind.Import, s, ft, Command.Import(calibration));
    UpperIsUpper(s);
    if u == "IMPORT," + calibration {
      StartsWithConcat("IMPORT,", calibration);
    }
    if StartsWith(u, "IMPORT,") {
      assert u == "IMPORT," + u[7..];
      assert IsUpper(u[7..]) by {
        forall i | 0 <= i < |u[7..]| ensures !('a' <= u[7..][i] <= 'z') {
          assert u[7..][i] == u[i + 7];
        }
      }
    }
  }

  /** Rendering does not check the length: a calibration string too long
      for the parser is sent as it is, and its wire string does not parse. */
  lemma ImportRenderUnchecked(calibration: string, ft: FloatText)
    requires IsUpper(calibration) && ',' !in calibration
    requires |Utf8.Encode(calibration)| >= 13
    ensures Render(Command.Import(calibration), ft.fixed2) == "IMPORT," + calibration
    ensures Parse(Kind.Import, Render(Command.Import(calibration), ft.fixed2), ft).Err?
  {
    assert Field(Kind.Import, ft)(calibration) == None;
    assert Render(Command.Import(calibration), ft.fixed2) == Prefix(Kind.Import) + calibration;
    ArgumentRejectsField(Kind.Import, calibration, ft);
  }
}
