/** `ReadingWithScale::run`: query the temperature scale, send the reading
    command, wait for it, read the 16-byte response buffer in place, and
    decode it according to its status byte. The decode is specified by the
    function `Decode`, and the method is proved to follow it. */
module ScaledReading {
  import opened Outcomes
  import opened Text
  import opened Floats
  import opened EzoCommon
  import opened Response
  import opened Commands
  import opened Bus

  /** The index of the first zero byte of `s`, as
      `iter().position(|&c| c == 0)` finds it, or None when there is none. */
  function FirstNul(s: seq<byte>): (r: Option<nat>)
    ensures r.Some? ==> r.value < |s| && s[r.value] == 0
    ensures r.Some? ==> forall j :: 0 <= j < r.value ==> s[j] != 0
    ensures r.None? <==> 0 !in s
  {
    if s == [] then None
    else if s[0] == 0 then Some(0)
    else match FirstNul(s[1..])
      case None => None
      case Some(k) => Some(k + 1)
  }

  /** A zero byte with none before it is the first one. */
  lemma {:induction false} FirstNulAt(s: seq<byte>, i: nat)
    requires i < |s| && s[i] == 0
    requires forall j :: 0 <= j < i ==> s[j] != 0
    ensures FirstNul(s) == Some(i)
  {
    if i > 0 {
      assert forall j :: 0 <= j < i - 1 ==> s[1..][j] != 0 by {
        forall j | 0 <= j < i - 1 ensures s[1..][j] != 0 {
          assert s[1..][j] == s[j + 1];
        }
      }
      FirstNulAt(s[1..], i - 1);
    }
  }

  /** `Temperature::parse(text, scale)`; it is not part of this model and is
      passed in. */
  type TemperatureParser = (string, TemperatureScale) -> Result<Temperature>

  /** What the text extracted from the payload becomes: a failure to extract
      is a `MalformedResponse`, anything else is parsed as a temperature. */
  function DecodeText(text: Result<string>, scale: TemperatureScale, parse: TemperatureParser): (r: Result<Temperature>)
    ensures text.Err? ==> r == Err(MalformedResponse)
    ensures r.Ok? ==> text.Ok? && parse(text.value, scale) == r
  {
    match text
    case Err(_) => Err(MalformedResponse)
    case Ok(s) => parse(s, scale)
  }

  /** The decode of a read buffer: by the category of its status byte, and on
      success the bytes after the status byte up to and including the first
      zero byte of the buffer. */
  function Decode(buf: seq<byte>, scale: TemperatureScale, h: Helpers, parse: TemperatureParser): (r: Result<Temperature>)
    requires |buf| >= 1
    ensures r.Ok? ==> h.responseCode(buf[0]).Success? && FirstNul(buf).Some?
    ensures r.Ok? ==> var text := h.stringFromResponseData(buf[1..FirstNul(buf).value + 1]);
      text.Ok? && r == parse(text.value, scale)
    ensures r.Err? && !h.responseCode(buf[0]).Success? ==>
      r.error in {PendingResponse, DeviceErrorResponse, NoDataExpectedResponse, MalformedResponse}
  {
    match h.responseCode(buf[0])
    case Success =>
      (match FirstNul(buf)
       case None => Err(MalformedResponse)
       case Some(i) => DecodeText(h.stringFromResponseData(buf[1..i + 1]), scale, parse))
    case Pending => Err(PendingResponse)
    case DeviceError => Err(DeviceErrorResponse)
    case NoDataExpected => Err(NoDataExpectedResponse)
    case UnknownError => Err(MalformedResponse)
  }

  /** Every status other than success has its own fixed error, and the
      payload is not looked at: the result does not depend on the bytes
      after the status byte, on the extraction helper or on the parser. */
  lemma DecodeStatusErrors(buf: seq<byte>, buf': seq<byte>, scale: TemperatureScale, scale': TemperatureScale,
                           h: Helpers, h': Helpers, parse: TemperatureParser, parse': TemperatureParser)
    requires |buf| >= 1 && |buf'| >= 1 && buf'[0] == buf[0]
    requires h'.responseCode(buf[0]) == h.responseCode(buf[0]) && !h.responseCode(buf[0]).Success?
    ensures Decode(buf, scale, h, parse) == Decode(buf', scale', h', parse')
    ensures Decode(buf, scale, h, parse) == Err(match h.responseCode(buf[0])
      case Pending => PendingResponse
      case DeviceError => DeviceErrorResponse
      case NoDataExpected => NoDataExpectedResponse
      case _ => MalformedResponse)
  {
  }

  /** A successful status with no zero byte anywhere in the buffer is a
      malformed response, whatever the helpers would do. */
  lemma DecodeNoNul(buf: seq<byte>, scale: TemperatureScale, h: Helpers, parse: TemperatureParser)
    requires |buf| >= 1 && h.responseCode(buf[0]).Success? && 0 !in buf
    ensures Decode(buf, scale, h, parse) == Err(MalformedResponse)
  {
  }

  /** On success, exactly the payload bytes up to the first zero byte and
      that zero byte are handed to the extraction helper, however the rest of
      the buffer is filled. */
  lemma {:induction false} DecodePayload(status: byte, payload: seq<byte>, rest: seq<byte>,
                                         scale: TemperatureScale, h: Helpers, parse: TemperatureParser)
    requires status != 0 && 0 !in payload && h.responseCode(status).Success?
    ensures Decode([status] + payload + [0] + rest, scale, h, parse) ==
      DecodeText(h.stringFromResponseData(payload + [0]), scale, parse)
  {
    var buf := [status] + payload + [0] + rest;
    var i := |payload| + 1;
    assert buf[i] == 0;
    assert forall j :: 0 <= j < i ==> buf[j] != 0 by {
      forall j | 0 <= j < i ensures buf[j] != 0 {
        if j > 0 { assert buf[j] == payload[j - 1]; }
      }
    }
    FirstNulAt(buf, i);
    assert buf[1..i + 1] == payload + [0];
  }

  /** The status byte is searched too: a zero status byte that the classifier
      counts as success hands an empty payload to the helper. */
  lemma DecodeZeroStatus(buf: seq<byte>, scale: TemperatureScale, h: Helpers, parse: TemperatureParser)
    requires |buf| >= 1 && buf[0] == 0 && h.responseCode(0).Success?
    ensures Decode(buf, scale, h, parse) == DecodeText(h.stringFromResponseData([]), scale, parse)
  {
  }

  /** `ReadingWithScale::run(dev)`. `ft` supplies the wire-string formatter
      and `parse` is `Temperature::parse`. */
  method Run(dev: Device, h: Helpers, ft: FloatText, parse: TemperatureParser) returns (r: Result<Temperature>)
    requires |dev.supplied| == MAX_DATA
    modifies dev
    // the scale query fails: its error, and nothing else is sent
    ensures dev.scaleAnswer.Err? ==>
      dev.trace == old(dev.trace) + [ScaleQueried] && r == Err(dev.scaleAnswer.error)
    // the write of "R" fails: no sleep and no read
    ensures dev.scaleAnswer.Ok? && dev.writeFails ==>
      dev.trace == old(dev.trace) + [ScaleQueried, Wrote(Render(Command.Reading, ft.fixed2))] &&
      r == Err(WriteFailed)
    // otherwise: write "R", sleep the reading's delay, read once
    ensures dev.scaleAnswer.Ok? && !dev.writeFails ==>
      dev.trace == old(dev.trace) +
        [ScaleQueried, Wrote(Render(Command.Reading, ft.fixed2)), Slept(Delay(Command.Reading)), ReadBuffer]
    ensures dev.scaleAnswer.Ok? && !dev.writeFails && dev.readFails ==> r == Err(I2CRead)
    ensures dev.scaleAnswer.Ok? && !dev.writeFails && !dev.readFails ==>
      r == Decode(dev.supplied, dev.scaleAnswer.value, h, parse)
  {
    var scale := dev.QueryScale();
    if scale.Err? {
      return Err(scale.error);
    }
    var written := dev.Write(Render(Command.Reading, ft.fixed2));
    if !written {
      return Err(WriteFailed);
    }
    dev.Sleep(Delay(Command.Reading));
    var buffer := new byte[MAX_DATA](_ => 0);
    var read := dev.Read(buffer);
    if !read {
      return Err(I2CRead);
    }
    var code := h.responseCode(buffer[0]);
    if code.Pending? {
      return Err(PendingResponse);
    } else if code.DeviceError? {
      return Err(DeviceErrorResponse);
    } else if code.NoDataExpected? {
      return Err(NoDataExpectedResponse);
    } else if code.UnknownError? {
      return Err(MalformedResponse);
    }
    // the position of the first zero byte
    var len := 0;
    while len < buffer.Length && buffer[len] != 0
      invariant 0 <= len <= buffer.Length
      invariant forall j :: 0 <= j < len ==> buffer[j] != 0
      decreases buffer.Length - len
    {
      len := len + 1;
    }
    if len == buffer.Length {
      assert 0 !in buffer[..];
      return Err(MalformedResponse);
    }
    FirstNulAt(buffer[..], len);
    var text := h.stringFromResponseData(buffer[1..len + 1]);
    if text.Err? {
      return Err(MalformedResponse);
    }
    r := parse(text.value, scale.value);
  }
}
