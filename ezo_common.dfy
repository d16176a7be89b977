/** What the driver takes from its support crate `ezo_common`, whose source
    is not part of this model: the response-code classifier, the two
    payload-extraction helpers, and the `BpsRate` enumeration. The helpers
    are carried as function values so that every result about the driver
    holds for whatever those helpers compute. */
module EzoCommon {
  import opened Outcomes
  import opened Text

  /** The five categories a response's first (status) byte falls into. */
  datatype ResponseCode = Success | Pending | DeviceError | NoDataExpected | UnknownError

  /** The serial baud rates of the `BAUD,n` command. */
  datatype BpsRate =
    | Bps300 | Bps1200 | Bps2400 | Bps9600 | Bps19200 | Bps38400 | Bps57600 | Bps115200

  /** `BpsRate::parse`: the decimal text of the rate in bits per second,
      as the `BAUD,n` wire strings of the driver's tests show it. */
  function RateText(r: BpsRate): string {
    match r
    case Bps300 => "300"
    case Bps1200 => "1200"
    case Bps2400 => "2400"
    case Bps9600 => "9600"
    case Bps19200 => "19200"
    case Bps38400 => "38400"
    case Bps57600 => "57600"
    case Bps115200 => "115200"
  }

  /** The helpers of `ezo_common` that the modelled code calls:
      `response_code` (status byte to category), `string_from_response_data`
      (payload bytes to text) and `parse_data_ascii_bytes` (the ASCII payload
      bytes of a buffer). */
  datatype Helpers = Helpers(
    responseCode: byte -> ResponseCode,
    stringFromResponseData: seq<byte> -> Result<string>,
    parseDataAsciiBytes: seq<byte> -> seq<byte>)
}
