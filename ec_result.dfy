/**
 * The result types every EC driver returns: the response status codes of
 * the host-command protocol and the error kinds of `EcResult`.
 */
module EcResult {
  import opened Common

  /** Response codes returned by EC commands, in code order 0..16. */
  datatype EcResponseStatus =
    | Success | InvalidCommand | Error | InvalidParameter | AccessDenied
    | InvalidResponse | InvalidVersion | InvalidChecksum | InProgress
    | Unavailable | Timeout | Overflow | InvalidHeader | RequestTruncated
    | ResponseTooBig | BusError | Busy

  datatype EcError =
    | Response(status: EcResponseStatus)
    | UnknownResponseCode(code: nat)
    // Failed to communicate with the EC
    | DeviceError(message: string)

  /** The discriminant of a status. */
  function Code(s: EcResponseStatus): (n: nat)
    ensures n <= 16
    ensures n == 0 <==> s == Success
  {
    match s
    case Success => 0
    case InvalidCommand => 1
    case Error => 2
    case InvalidParameter => 3
    case AccessDenied => 4
    case InvalidResponse => 5
    case InvalidVersion => 6
    case InvalidChecksum => 7
    case InProgress => 8
    case Unavailable => 9
    case Timeout => 10
    case Overflow => 11
    case InvalidHeader => 12
    case RequestTruncated => 13
    case ResponseTooBig => 14
    case BusError => 15
    case Busy => 16
  }

  /** `FromPrimitive::from_u8` / `from_u16`: the status with code `n`, if any. */
  function FromCode(n: nat): (r: Option<EcResponseStatus>)
    ensures r.Some? <==> n <= 16
  {
    if n == 0 then Some(Success)
    else if n == 1 then Some(InvalidCommand)
    else if n == 2 then Some(Error)
    else if n == 3 then Some(InvalidParameter)
    else if n == 4 then Some(AccessDenied)
    else if n == 5 then Some(InvalidResponse)
    else if n == 6 then Some(InvalidVersion)
    else if n == 7 then Some(InvalidChecksum)
    else if n == 8 then Some(InProgress)
    else if n == 9 then Some(Unavailable)
    else if n == 10 then Some(Timeout)
    else if n == 11 then Some(Overflow)
    else if n == 12 then Some(InvalidHeader)
    else if n == 13 then Some(RequestTruncated)
    else if n == 14 then Some(ResponseTooBig)
    else if n == 15 then Some(BusError)
    else if n == 16 then Some(Busy)
    else None
  }

  /** Decoding a code undoes taking it, and every decoded code is the status's own. */
  lemma FromCodeInverse(s: EcResponseStatus, n: nat)
    ensures FromCode(Code(s)) == Some(s)
    ensures FromCode(n).Some? ==> Code(FromCode(n).value) == n
  {
  }
}
