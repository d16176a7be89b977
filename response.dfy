/** The response parsers of the RTD chip. Each takes the device's response
    without its status byte, as bytes ending in a nul terminator, checks
    the terminator and the text encoding, and matches the text against the
    grammar of one query's answer. */
module Response {
  import opened Outcomes
  import opened Text
  import opened Numerals
  import opened Floats
  import Utf8

  // ---------------------------------------------------------------------
  // Nul-terminated text
  // ---------------------------------------------------------------------

  /** The bytes end in the only nul byte they contain. */
  predicate NulTerminated(response: seq<byte>) {
    |response| >= 1 && response[|response| - 1] == 0 && 0 !in response[..|response| - 1]
  }

  /** `CStr::from_bytes_with_nul` then `to_str`: the text before the
      terminator, when the terminator is the only nul and the text before it
      is valid UTF-8. Any other input is a `MalformedResponse`. */
  function StrFromResponse(response: seq<byte>): (r: Result<string>)
    ensures r.Err? ==> r.error == MalformedResponse
    ensures !NulTerminated(response) ==> r.Err?
  {
    if !NulTerminated(response) then Err(MalformedResponse)
    else match Utf8.Decode(response[..|response| - 1])
      case None => Err(MalformedResponse)
      case Some(s) => Ok(s)
  }

  /** The accepted inputs are exactly the encodings of nul-free strings
      followed by one nul, and the result is that string. */
  lemma StrFromResponseIff(response: seq<byte>, s: string)
    ensures StrFromResponse(response) == Ok(s) <==> response == Utf8.Encode(s) + [0] && '\0' !in s
  {
    if StrFromResponse(response) == Ok(s) {
      var body := response[..|response| - 1];
      Utf8.DecodeIff(body, s);
      Utf8.EncodeNul(s);
      assert response == body + [0];
    }
    if response == Utf8.Encode(s) + [0] && '\0' !in s {
      var e := Utf8.Encode(s);
      assert response[..|response| - 1] == e;
      Utf8.EncodeNul(s);
      Utf8.DecodeEncode(s);
    }
  }

  /** A reply text, as the device sends it: its UTF-8 bytes and a nul. */
  function Reply(text: string): seq<byte> {
    Utf8.Encode(text) + [0]
  }

  lemma ReplyParses(text: string)
    requires '\0' !in text
    ensures StrFromResponse(Reply(text)) == Ok(text)
  {
    StrFromResponseIff(Reply(text), text);
  }

  // ---------------------------------------------------------------------
  // Temperature scale ("S,?")
  // ---------------------------------------------------------------------

  datatype TemperatureScale = Celsius | Kelvin | Fahrenheit

  datatype TemperatureScaleResponse = TemperatureScaleResponse(scale: TemperatureScale)

  /** The device's answer to "S,?" for each scale. */
  function ScaleReply(scale: TemperatureScale): string {
    match scale
    case Celsius => "?S,c"
    case Kelvin => "?S,k"
    case Fahrenheit => "?S,f"
  }

  function ParseTemperatureScaleResponse(response: seq<byte>): (r: Result<TemperatureScaleResponse>)
    ensures !NulTerminated(response) ==> r == Err(MalformedResponse)
  {
    match StrFromResponse(response)
    case Err(e) => Err(e)
    case Ok(text) =>
      if text == "?S,c" then Ok(TemperatureScaleResponse(TemperatureScale.Celsius))
      else if text == "?S,k" then Ok(TemperatureScaleResponse(TemperatureScale.Kelvin))
      else if text == "?S,f" then Ok(TemperatureScaleResponse(TemperatureScale.Fahrenheit))
      else Err(ResponseParse)
  }

  /** Exactly the three replies "?S,c", "?S,k", "?S,f" (lower-case letters,
      with their terminator) parse, each to its own scale. */
  lemma TemperatureScaleParseIff(response: seq<byte>, scale: TemperatureScale)
    ensures ParseTemperatureScaleResponse(response) == Ok(TemperatureScaleResponse(scale))
        <==> response == Reply(ScaleReply(scale))
  {
    var text := ScaleReply(scale);
    StrFromResponseIff(response, text);
    if ParseTemperatureScaleResponse(response) == Ok(TemperatureScaleResponse(scale)) {
      StrFromResponseIff(response, StrFromResponse(response).value);
    }
  }

  /** Everything else is rejected, with a parse error when it is text. */
  lemma TemperatureScaleParseRejects(response: seq<byte>)
    requires forall scale :: response != Reply(ScaleReply(scale))
    ensures ParseTemperatureScaleResponse(response).Err?
  {
    var r := ParseTemperatureScaleResponse(response);
    if r.Ok? {
      TemperatureScaleParseIff(response, r.value.scale);
    }
  }

  lemma TemperatureScaleExamples()
    ensures ParseTemperatureScaleResponse([]).Err?
    ensures ParseTemperatureScaleResponse([0]).Err?
    ensures ParseTemperatureScaleResponse([1]).Err?
    ensures ParseTemperatureScaleResponse(Reply("?S,")) == Err(ResponseParse)
    ensures ParseTemperatureScaleResponse(Reply("?S,C")) == Err(ResponseParse)
  {
    ReplyParses("?S,");
    ReplyParses("?S,C");
    assert ParseTemperatureScaleResponse([0]) == Err(ResponseParse) by {
      assert [0][..0] == [];
    }
  }

  // ---------------------------------------------------------------------
  // Data-logger storage interval ("D,?")
  // ---------------------------------------------------------------------

  datatype DataLoggerStorageIntervalSeconds = DataLoggerStorageIntervalSeconds(seconds: u32)

  datatype DataLoggerStorageIntervalResponse =
    DataLoggerStorageIntervalResponse(interval: DataLoggerStorageIntervalSeconds)

  /** "?D," and then the whole rest read as a `u32`, with no range check. */
  function ParseDataLoggerStorageIntervalResponse(response: seq<byte>): (r: Result<DataLoggerStorageIntervalResponse>)
    ensures !NulTerminated(response) ==> r == Err(MalformedResponse)
  {
    match StrFromResponse(response)
    case Err(e) => Err(e)
    case Ok(text) =>
      if StartsWith(text, "?D,") then
        match ParseUnsigned(text[3..], U32_MAX)
        case None => Err(ResponseParse)
        case Some(n) => Ok(DataLoggerStorageIntervalResponse(DataLoggerStorageIntervalSeconds(n)))
      else Err(ResponseParse)
  }

  function IntervalReply(seconds: u32): string {
    "?D," + Decimal(seconds)
  }

  /** Every `u32` reply parses back to its number. */
  lemma IntervalRoundTrip(seconds: u32)
    ensures ParseDataLoggerStorageIntervalResponse(Reply(IntervalReply(seconds)))
         == Ok(DataLoggerStorageIntervalResponse(DataLoggerStorageIntervalSeconds(seconds)))
  {
    var text := IntervalReply(seconds);
    assert '\0' !in text by {
      assert forall i :: 3 <= i < |text| ==> text[i] == Decimal(seconds)[i - 3];
    }
    ReplyParses(text);
    StartsWithConcat("?D,", Decimal(seconds));
    ParseDecimal(seconds, U32_MAX);
  }

  /** Text without the prefix is a parse error. */
  lemma IntervalRequiresPrefix(text: string)
    requires '\0' !in text && !StartsWith(text, "?D,")
    ensures ParseDataLoggerStorageIntervalResponse(Reply(text)) == Err(ResponseParse)
  {
    ReplyParses(text);
  }

  /** After the prefix, anything that is not a `u32` is a parse error. */
  lemma IntervalRequiresNumber(rest: string)
    requires '\0' !in rest && ParseUnsigned(rest, U32_MAX).None?
    ensures ParseDataLoggerStorageIntervalResponse(Reply("?D," + rest)) == Err(ResponseParse)
  {
    ReplyParses("?D," + rest);
    StartsWithConcat("?D,", rest);
  }

  lemma IntervalExampleOne()
    ensures ParseDataLoggerStorageIntervalResponse(Reply("?D,1"))
         == Ok(DataLoggerStorageIntervalResponse(DataLoggerStorageIntervalSeconds(1)))
  {
    assert IntervalReply(1) == "?D,1";
    IntervalRoundTrip(1);
  }

  lemma IntervalExampleEmpty()
    ensures ParseDataLoggerStorageIntervalResponse(Reply("?D,")) == Err(ResponseParse)
  {
    IntervalRequiresNumber("");
    assert "?D," + "" == "?D,";
  }

  lemma IntervalExampleNegative()
    ensures ParseDataLoggerStorageIntervalResponse(Reply("?D,-1")) == Err(ResponseParse)
  {
    ParseRejectsNonDigit("-1", U32_MAX, 0);
    IntervalRequiresNumber("-1");
    assert "?D," + "-1" == "?D,-1";
  }

  lemma IntervalExampleWord()
    ensures ParseDataLoggerStorageIntervalResponse(Reply("?D,foo")) == Err(ResponseParse)
  {
    ParseRejectsNonDigit("foo", U32_MAX, 0);
    IntervalRequiresNumber("foo");
    assert "?D," + "foo" == "?D,foo";
  }

  // ---------------------------------------------------------------------
  // Temperature reading ("R")
  // ---------------------------------------------------------------------

  /** A temperature value tagged with its scale. */
  datatype Temperature = Celsius(value: real) | Kelvin(value: real) | Fahrenheit(value: real)

  /** The scale a temperature is tagged with. */
  function ScaleOf(t: Temperature): TemperatureScale {
    match t
    case Celsius(_) => TemperatureScale.Celsius
    case Kelvin(_) => TemperatureScale.Kelvin
    case Fahrenheit(_) => TemperatureScale.Fahrenheit
  }

  /** `Temperature::new`: the variant named like `scale`, carrying `value`. */
  function NewTemperature(scale: TemperatureScale, value: real): (t: Temperature)
    ensures ScaleOf(t) == scale && t.value == value
  {
    match scale
    case Celsius => Temperature.Celsius(value)
    case Kelvin => Temperature.Kelvin(value)
    case Fahrenheit => Temperature.Fahrenheit(value)
  }

  /** Every temperature is built by `NewTemperature` from its own scale and value. */
  lemma NewTemperatureOfParts(t: Temperature)
    ensures NewTemperature(ScaleOf(t), t.value) == t
  {
  }

  datatype TemperatureResponse = TemperatureResponse(temperature: Temperature)

  /** The whole text is read as an `f64`, and tagged with the scale the
      caller supplies. */
  function ParseTemperatureResponse(response: seq<byte>, scale: TemperatureScale, ft: FloatText): (r: Result<TemperatureResponse>)
    ensures !NulTerminated(response) ==> r == Err(MalformedResponse)
    ensures r.Ok? ==> ScaleOf(r.value.temperature) == scale
  {
    match StrFromResponse(response)
    case Err(e) => Err(e)
    case Ok(text) =>
      match ft.parse(text)
      case None => Err(ResponseParse)
      case Some(v) => Ok(TemperatureResponse(NewTemperature(scale, v)))
  }

  /** A reading parses to the number its text denotes, tagged with the
      supplied scale, and text that is not a number is a parse error. */
  lemma TemperatureResponseParse(text: string, scale: TemperatureScale, ft: FloatText)
    requires '\0' !in text
    ensures ft.parse(text).Some? ==>
      ParseTemperatureResponse(Reply(text), scale, ft)
        == Ok(TemperatureResponse(NewTemperature(scale, ft.parse(text).value)))
    ensures ft.parse(text).None? ==> ParseTemperatureResponse(Reply(text), scale, ft) == Err(ResponseParse)
  {
    ReplyParses(text);
  }

  // ---------------------------------------------------------------------
  // Device status ("STATUS")
  // ---------------------------------------------------------------------

  /** Why the device last restarted. */
  datatype RestartReason = PoweredOff | SoftwareReset | BrownOut | Watchdog | Unknown

  datatype DeviceStatusResponse = DeviceStatusResponse(restartReason: RestartReason, vccVoltage: real)

  /** The one-letter code of each restart reason. */
  function ReasonCode(reason: RestartReason): string {
    match reason
    case PoweredOff => "P"
    case SoftwareReset => "S"
    case BrownOut => "B"
    case Watchdog => "W"
    case Unknown => "U"
  }

  /** The restart field: exactly one of the five codes, with no default. */
  function ReasonOfCode(field: string): (r: Option<RestartReason>)
    ensures r.Some? ==> ReasonCode(r.value) == field
  {
    if field == "P" then Some(PoweredOff)
    else if field == "S" then Some(SoftwareReset)
    else if field == "B" then Some(BrownOut)
    else if field == "W" then Some(Watchdog)
    else if field == "U" then Some(Unknown)
    else None
  }

  lemma ReasonCodeRoundTrip(reason: RestartReason)
    ensures ReasonOfCode(ReasonCode(reason)) == Some(reason)
  {
  }

  /** "?Status," then the fields of `split(',')`: a restart code, a voltage,
      and nothing more. */
  function ParseDeviceStatusResponse(response: seq<byte>, ft: FloatText): (r: Result<DeviceStatusResponse>)
    ensures !NulTerminated(response) ==> r == Err(MalformedResponse)
  {
    match StrFromResponse(response)
    case Err(e) => Err(e)
    case Ok(text) =>
      if StartsWith(text, "?Status,") then
        var fields := Split(text[8..], ',');
        match ReasonOfCode(fields[0])
        case None => Err(ResponseParse)
        case Some(reason) =>
          if |fields| < 2 then Err(ResponseParse)
          else match ft.parse(fields[1])
            case None => Err(ResponseParse)
            case Some(voltage) =>
              if |fields| > 2 then Err(ResponseParse)
              else Ok(DeviceStatusResponse(reason, voltage))
      else Err(ResponseParse)
  }

  /** The device's status reply for a reason code and a voltage text. */
  function StatusReply(reason: RestartReason, voltage: string): string {
    "?Status," + ReasonCode(reason) + "," + voltage
  }

  lemma StatusReplyFields(reason: RestartReason, voltage: string)
    requires ',' !in voltage
    ensures var text := StatusReply(reason, voltage);
      StartsWith(text, "?Status,") && Split(text[8..], ',') == [ReasonCode(reason), voltage]
  {
    var text := StatusReply(reason, voltage);
    StartsWithConcat("?Status,", ReasonCode(reason) + "," + voltage);
    assert text[8..] == ReasonCode(reason) + [','] + voltage;
    SplitCons(ReasonCode(reason), voltage, ',');
    SplitNoSep(voltage, ',');
  }

  /** Every status reply with a readable voltage parses to its reason and
      voltage. */
  lemma DeviceStatusRoundTrip(reason: RestartReason, voltage: string, ft: FloatText)
    requires ',' !in voltage && '\0' !in voltage && ft.parse(voltage).Some?
    ensures ParseDeviceStatusResponse(Reply(StatusReply(reason, voltage)), ft)
         == Ok(DeviceStatusResponse(reason, ft.parse(voltage).value))
  {
    var text := StatusReply(reason, voltage);
    assert '\0' !in text by {
      assert forall i :: 10 <= i < |text| ==> text[i] == voltage[i - 10];
    }
    ReplyParses(text);
    StatusReplyFields(reason, voltage);
  }

  /** Only status replies parse: an accepted response is the reply for the
      parsed reason and some comma-free voltage text that reads as the
      parsed voltage. */
  lemma DeviceStatusParseSound(response: seq<byte>, ft: FloatText)
    requires ParseDeviceStatusResponse(response, ft).Ok?
    ensures var d := ParseDeviceStatusResponse(response, ft).value;
      exists voltage :: ',' !in voltage && ft.parse(voltage) == Some(d.vccVoltage)
        && response == Reply(StatusReply(d.restartReason, voltage))
  {
    var d := ParseDeviceStatusResponse(response, ft).value;
    var text := StrFromResponse(response).value;
    var fields := Split(text[8..], ',');
    var voltage := fields[1];
    assert fields == [fields[0], fields[1]];
    JoinSplit(text[8..], ',');
    assert text[8..] == fields[0] + [','] + voltage;
    assert text == text[..8] + text[8..];
    assert text == StatusReply(d.restartReason, voltage);
    StrFromResponseIff(response, text);
  }

  /** A restart field that is not one of the five codes is rejected. */
  lemma DeviceStatusRejectsReason(code: string, rest: string, ft: FloatText)
    requires ',' !in code && ReasonOfCode(code).None? && '\0' !in code + "," + rest
    ensures ParseDeviceStatusResponse(Reply("?Status," + code + "," + rest), ft) == Err(ResponseParse)
  {
    var text := "?Status," + code + "," + rest;
    ReplyParses(text);
    StartsWithConcat("?Status,", code + "," + rest);
    assert text[8..] == code + [','] + rest;
    SplitCons(code, rest, ',');
  }

  /** A restart code with no voltage field is rejected. */
  lemma DeviceStatusRejectsMissingVoltage(reason: RestartReason, ft: FloatText)
    ensures ParseDeviceStatusResponse(Reply("?Status," + ReasonCode(reason)), ft) == Err(ResponseParse)
  {
    var text := "?Status," + ReasonCode(reason);
    ReplyParses(text);
    StartsWithConcat("?Status,", ReasonCode(reason));
    SplitNoSep(ReasonCode(reason), ',');
  }

  /** Any third field, even an empty one, is rejected. */
  lemma DeviceStatusRejectsThirdField(reason: RestartReason, voltage: string, extra: string, ft: FloatText)
    requires ',' !in voltage && '\0' !in voltage + "," + extra && ft.parse(voltage).Some?
    ensures ParseDeviceStatusResponse(Reply(StatusReply(reason, voltage) + "," + extra), ft) == Err(ResponseParse)
  {
    var text := StatusReply(reason, voltage) + "," + extra;
    assert '\0' !in text by {
      assert forall i :: 10 <= i < |text| ==> text[i] == (voltage + "," + extra)[i - 10];
    }
    ReplyParses(text);
    StartsWithConcat("?Status,", ReasonCode(reason) + "," + voltage + "," + extra);
    assert text[8..] == ReasonCode(reason) + [','] + (voltage + [','] + extra);
    SplitCons(ReasonCode(reason), voltage + [','] + extra, ',');
    SplitCons(voltage, extra, ',');
  }

  lemma DeviceStatusExamplePoweredOff(text: string, ft: FloatText)
    requires text == "?Status,P,1.5" && ft.parse("1.5") == Some(1.5)
    ensures ParseDeviceStatusResponse(Reply(text), ft) == Ok(DeviceStatusResponse(PoweredOff, 1.5))
  {
    DeviceStatusRoundTrip(PoweredOff, "1.5", ft);
    assert StatusReply(PoweredOff, "1.5") == text;
  }

  lemma DeviceStatusExampleUnknownCode(text: string, ft: FloatText)
    requires text == "?Status,X,"
    ensures ParseDeviceStatusResponse(Reply(text), ft) == Err(ResponseParse)
  {
    assert "?Status," + "X" + "," + "" == text;
    DeviceStatusRejectsReason("X", "", ft);
  }

  lemma DeviceStatusExampleThirdField(text: string, ft: FloatText)
    requires text == "?Status,P,1.5," && ft.parse("1.5") == Some(1.5)
    ensures ParseDeviceStatusResponse(Reply(text), ft) == Err(ResponseParse)
  {
    assert StatusReply(PoweredOff, "1.5") + "," + "" == text;
    DeviceStatusRejectsThirdField(PoweredOff, "1.5", "", ft);
  }

  /** The prefix is matched case-sensitively. */
  lemma DeviceStatusExampleUpperPrefix(text: string, ft: FloatText)
    requires text == "?STATUS,P,1.5"
    ensures ParseDeviceStatusResponse(Reply(text), ft) == Err(ResponseParse)
  {
    ReplyParses(text);
    assert !StartsWith(text, "?Status,") by {
      assert text[2] != "?Status,"[2];
    }
  }

  // ---------------------------------------------------------------------
  // No defaults
  // ---------------------------------------------------------------------

  /** No parser substitutes a default value for a response that is not
      properly nul-terminated: each reports a `MalformedResponse`. */
  lemma NoDefaults(response: seq<byte>, scale: TemperatureScale, ft: FloatText)
    requires !NulTerminated(response)
    ensures ParseTemperatureScaleResponse(response) == Err(MalformedResponse)
    ensures ParseDataLoggerStorageIntervalResponse(response) == Err(MalformedResponse)
    ensures ParseTemperatureResponse(response, scale, ft) == Err(MalformedResponse)
    ensures ParseDeviceStatusResponse(response, ft) == Err(MalformedResponse)
  {
  }
}
