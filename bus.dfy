/** The I2C device handle, seen from the driver: it records what the driver
    does to it, in order (writes, reads, and the settle sleeps the calling
    thread takes between them), answers every write and read with the
    outcome it was set up with, and hands out a fixed response buffer. */
module Bus {
  import opened Outcomes
  import opened Text
  import opened Response

  datatype Event =
    | ScaleQueried          // the whole "S,?" exchange of `ScaleState.run`
    | Wrote(command: string)
    | Slept(ms: nat)
    | ReadBuffer

  class Device {
    /** Everything done to the device so far, oldest first. */
    var trace: seq<Event>
    /** Every write fails. */
    const writeFails: bool
    /** Every read fails. */
    const readFails: bool
    /** The bytes a successful read returns. */
    const supplied: seq<byte>
    /** What the scale query returns. */
    const scaleAnswer: Result<TemperatureScale>

    constructor (writeFails: bool, readFails: bool, supplied: seq<byte>, scaleAnswer: Result<TemperatureScale>)
      ensures this.writeFails == writeFails && this.readFails == readFails
      ensures this.supplied == supplied && this.scaleAnswer == scaleAnswer
      ensures trace == []
    {
      this.writeFails := writeFails;
      this.readFails := readFails;
      this.supplied := supplied;
      this.scaleAnswer := scaleAnswer;
      trace := [];
    }

    /** `ScaleState.run(dev)`: one complete "S,?" exchange. */
    method QueryScale() returns (r: Result<TemperatureScale>)
      modifies this`trace
      ensures trace == old(trace) + [ScaleQueried]
      ensures r == scaleAnswer
    {
      trace := trace + [ScaleQueried];
      r := scaleAnswer;
    }

    /** `write_to_ezo(dev, command)`. */
    method Write(command: string) returns (ok: bool)
      modifies this`trace
      ensures trace == old(trace) + [Wrote(command)]
      ensures ok == !writeFails
    {
      trace := trace + [Wrote(command)];
      ok := !writeFails;
    }

    /** `thread::sleep(Duration::from_millis(ms))`. */
    method Sleep(ms: nat)
      modifies this`trace
      ensures trace == old(trace) + [Slept(ms)]
    {
      trace := trace + [Slept(ms)];
    }

    /** `dev.read(&mut buffer)`: fills the buffer in place. */
    method Read(buffer: array<byte>) returns (ok: bool)
      requires buffer.Length == |supplied|
      modifies this`trace, buffer
      ensures trace == old(trace) + [ReadBuffer]
      ensures ok == !readFails
      ensures ok ==> buffer[..] == supplied
      ensures !ok ==> buffer[..] == old(buffer[..])
    {
      trace := trace + [ReadBuffer];
      ok := !readFails;
      if ok {
        var i := 0;
        while i < buffer.Length
          invariant 0 <= i <= buffer.Length
          invariant buffer[..i] == supplied[..i]
          modifies buffer
        {
          buffer[i] := supplied[i];
          i := i + 1;
        }
      }
    }

    /** `read_raw_buffer(dev, length)`: the bytes of one read, as a vector. */
    method ReadRaw(length: nat) returns (r: Result<seq<byte>>)
      modifies this`trace
      ensures trace == old(trace) + [ReadBuffer]
      ensures r == if readFails then Err(I2CRead) else Ok(supplied)
    {
      trace := trace + [ReadBuffer];
      r := if readFails then Err(I2CRead) else Ok(supplied);
    }
  }
}
