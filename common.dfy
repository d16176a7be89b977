/** `CommandOptions`: a record of the parameters of one I2C exchange (the
    command string, an optional settle delay, the kind of response expected,
    and the raw data read back), built up field by field through setters and
    then run against a device. */
module Common {
  import opened Outcomes
  import opened Text
  import opened Numerals
  import opened EzoCommon
  import opened Bus
  import Utf8

  /** "Maximum ascii-character response size + 2". */
  const MAX_RESPONSE_LENGTH: nat := 16

  /** The responses an exchange may expect. */
  datatype CommandResponse =
    | Ack | CalibrationState | DataloggerInterval | DeviceInformation | ExportInfo | Export
    | LedState | MemoryRecall | MemoryRecallLastLocation | ProtocolLockState | Reading
    | ScaleState | Status

  /** The events of `delay()`: one sleep when a delay is set. */
  function DelayEvents(delay: Option<u64>): seq<Event> {
    if delay.Some? then [Slept(delay.value)] else []
  }

  /** The events of `read_response()`: one read when a response is expected. */
  function ReadEvents(response: Option<CommandResponse>): seq<Event> {
    if response.Some? then [ReadBuffer] else []
  }

  /** `parse_response` on the stored data: nothing stored, or a status byte
      other than success, is the empty string; on success, the ASCII payload
      after the status byte must be valid UTF-8. */
  function ParseResponseData(data: Option<seq<byte>>, h: Helpers): (r: Result<string>)
    requires data.None? || |data.value| >= 1
    ensures data.None? ==> r == Ok("")
    ensures data.Some? && !h.responseCode(data.value[0]).Success? ==> r == Ok("")
    ensures r.Err? ==> r.error == DataNotParsable
  {
    match data
    case None => Ok("")
    case Some(d) =>
      if h.responseCode(d[0]).Success? then
        match Utf8.Decode(h.parseDataAsciiBytes(d[1..]))
        case None => Err(DataNotParsable)
        case Some(s) => Ok(s)
      else Ok("")
  }

  /** On success the result is the text whose UTF-8 encoding the payload
      bytes are, in both directions. */
  lemma ParseResponseDataIff(d: seq<byte>, h: Helpers, s: string)
    requires |d| >= 1 && h.responseCode(d[0]).Success?
    ensures ParseResponseData(Some(d), h) == Ok(s) <==> h.parseDataAsciiBytes(d[1..]) == Utf8.Encode(s)
  {
    Utf8.DecodeIff(h.parseDataAsciiBytes(d[1..]), s);
  }

  /** On success the result is an error exactly when the payload bytes are
      the UTF-8 encoding of no text at all. */
  lemma ParseResponseDataErrIff(d: seq<byte>, h: Helpers)
    requires |d| >= 1 && h.responseCode(d[0]).Success?
    ensures ParseResponseData(Some(d), h).Err? <==>
      forall s: string :: h.parseDataAsciiBytes(d[1..]) != Utf8.Encode(s)
  {
    var b := h.parseDataAsciiBytes(d[1..]);
    if Utf8.Decode(b).Some? {
      Utf8.EncodeDecode(b);
    } else {
      forall s: string ensures b != Utf8.Encode(s) {
        Utf8.DecodeEncode(s);
      }
    }
  }

  /** A lone byte 0xFF after a success status is not text. */
  lemma ParseResponseDataExample(d: seq<byte>, h: Helpers)
    requires |d| >= 1 && h.responseCode(d[0]).Success? && h.parseDataAsciiBytes(d[1..]) == [0xFF]
    ensures ParseResponseData(Some(d), h) == Err(DataNotParsable)
  {
  }

  class CommandOptions {
    var command: string
    var delay: Option<u64>
    var response: Option<CommandResponse>
    var data: Option<seq<byte>>

    /** `CommandOptions::default()`. */
    constructor ()
      ensures command == "" && delay == None && response == None && data == None
    {
      command := "";
      delay := None;
      response := None;
      data := None;
    }

    method SetCommand(command: string)
      modifies this
      ensures this.command == command
      ensures delay == old(delay) && response == old(response) && data == old(data)
    {
      this.command := command;
    }

    method SetDelay(delay: u64)
      modifies this
      ensures this.delay == Some(delay)
      ensures command == old(command) && response == old(response) && data == old(data)
    {
      this.delay := Some(delay);
    }

    method SetResponse(response: CommandResponse)
      modifies this
      ensures this.response == Some(response)
      ensures command == old(command) && delay == old(delay) && data == old(data)
    {
      this.response := Some(response);
    }

    /** `finish()`: a copy with the same fields; `self` is not modified. */
    method Finish() returns (copy: CommandOptions)
      ensures fresh(copy)
      ensures copy.command == command && copy.delay == delay
      ensures copy.response == response && copy.data == data
    {
      copy := new CommandOptions();
      copy.command := command;
      copy.delay := delay;
      copy.response := response;
      copy.data := data;
    }

    /** `delay()`: sleep only when a delay is set; it always succeeds. */
    method Delay(dev: Device) returns (r: Result<()>)
      modifies dev`trace
      ensures dev.trace == old(dev.trace) + DelayEvents(delay)
      ensures r == Ok(())
    {
      if delay.Some? {
        dev.Sleep(delay.value);
      }
      r := Ok(());
    }

    /** `write()`: send the command string. */
    method Write(dev: Device) returns (r: Result<()>)
      modifies dev`trace
      ensures dev.trace == old(dev.trace) + [Wrote(command)]
      ensures r == if dev.writeFails then Err(WriteFailed) else Ok(())
    {
      var ok := dev.Write(command);
      r := if ok then Ok(()) else Err(WriteFailed);
    }

    /** `read_response()`: read and store a buffer only when a response is
      expected; otherwise no read, and `data` is left as it is. */
    method ReadResponse(dev: Device) returns (r: Result<()>)
      modifies this`data, dev`trace
      ensures dev.trace == old(dev.trace) + ReadEvents(response)
      ensures response.None? ==> r == Ok(()) && data == old(data)
      ensures response.Some? && dev.readFails ==> r == Err(I2CRead) && data == old(data)
      ensures response.Some? && !dev.readFails ==> r == Ok(()) && data == Some(dev.supplied)
    {
      if response.Some? {
        var read := dev.ReadRaw(MAX_RESPONSE_LENGTH);
        if read.Err? {
          return Err(read.error);
        }
        data := Some(read.value);
      }
      r := Ok(());
    }

    /** `parse_response()`, an out-of-bounds index aside (an empty stored
      buffer panics in the source). */
    function ParseResponse(h: Helpers): (r: Result<string>)
      reads this
      requires data.None? || |data.value| >= 1
      ensures data.None? ==> r == Ok("")
      ensures data.Some? && h.responseCode(data.value[0]).Success? ==>
        (r.Ok? <==> Utf8.Decode(h.parseDataAsciiBytes(data.value[1..])).Some?)
    {
      ParseResponseData(data, h)
    }

    /** `run()`: write, then delay, then read the response, stopping at the
      first error: a failed write means no sleep and no read. */
    method Run(dev: Device) returns (r: Result<()>)
      modifies this`data, dev`trace
      ensures dev.writeFails ==>
        r == Err(WriteFailed) && dev.trace == old(dev.trace) + [Wrote(command)] && data == old(data)
      ensures !dev.writeFails ==>
        dev.trace == old(dev.trace) + [Wrote(command)] + DelayEvents(delay) + ReadEvents(response)
      ensures !dev.writeFails && response.Some? && dev.readFails ==> r == Err(I2CRead) && data == old(data)
      ensures !dev.writeFails && response.Some? && !dev.readFails ==> r == Ok(()) && data == Some(dev.supplied)
      ensures !dev.writeFails && response.None? ==> r == Ok(()) && data == old(data)
    {
      r := Write(dev);
      if r.Err? {
        return;
      }
      r := Delay(dev);
      if r.Err? {
        return;
      }
      r := ReadResponse(dev);
    }
  }
}
