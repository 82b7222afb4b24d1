/** The status codes shared by every layer (src/core/status.h) and the machine integers they travel in. */
module Statuses {

  const TWO_32 := 0x1_0000_0000
  const TWO_64 := 0x1_0000_0000_0000_0000

  type u32 = x: int | 0 <= x < TWO_32
  type u64 = x: int | 0 <= x < TWO_64

  datatype Option<+T> = None | Some(value: T)

  datatype Result<+T> = Success(value: T) | Failure(error: Status)

  datatype Status =
    | Ok
    | InvalidArgument
    | BufferTooSmall
    | MalformedHeaderBlock
    | ParseError
    | PathSyntaxError
    | PathNotFound
    | IndexOutOfRange
    | TypeMismatch
    | NetworkError
    | Timeout
    | TlsError
    | TransportInitFailed
    | InvalidUrl
    | ResponseTooLarge
    | RequestCancelled
    | NoFreeRequestSlot
    | RequestNotComplete
    | UnknownRequestId
    | WaitTimeout
    | AsyncStartFailed
    | NoFreeDocumentSlot
    | UnknownDocumentId
    | DocumentTooLarge
    | NestingTooDeep
    | TooManyEntries
    | KeyTextTooLarge

  /** The shipped number of each status. */
  function Code(s: Status): int {
    match s
    case Ok => 0
    case InvalidArgument => -1
    case BufferTooSmall => -2
    case MalformedHeaderBlock => -4
    case ParseError => -10
    case PathSyntaxError => -11
    case PathNotFound => -12
    case IndexOutOfRange => -13
    case TypeMismatch => -14
    case NetworkError => -18
    case Timeout => -19
    case TlsError => -20
    case TransportInitFailed => -21
    case InvalidUrl => -22
    case ResponseTooLarge => -23
    case RequestCancelled => -24
    case NoFreeRequestSlot => -25
    case RequestNotComplete => -26
    case UnknownRequestId => -27
    case WaitTimeout => -28
    case AsyncStartFailed => -29
    case NoFreeDocumentSlot => -30
    case UnknownDocumentId => -31
    case DocumentTooLarge => -32
    case NestingTooDeep => -33
    case TooManyEntries => -34
    case KeyTextTooLarge => -36
  }

  /** The status that a shipped number stands for. */
  function StatusOf(code: int): Option<Status> {
    if code == 0 then Some(Ok)
    else if -1 >= code >= -4 then
      [Some(InvalidArgument), Some(BufferTooSmall), None, Some(MalformedHeaderBlock)][-1 - code]
    else if -10 >= code >= -14 then
      [Some(ParseError), Some(PathSyntaxError), Some(PathNotFound), Some(IndexOutOfRange), Some(TypeMismatch)][-10 - code]
    else if -18 >= code >= -24 then
      [Some(NetworkError), Some(Timeout), Some(TlsError), Some(TransportInitFailed), Some(InvalidUrl),
       Some(ResponseTooLarge), Some(RequestCancelled)][-18 - code]
    else if -25 >= code >= -29 then
      [Some(NoFreeRequestSlot), Some(RequestNotComplete), Some(UnknownRequestId), Some(WaitTimeout),
       Some(AsyncStartFailed)][-25 - code]
    else if -30 >= code >= -34 then
      [Some(NoFreeDocumentSlot), Some(UnknownDocumentId), Some(DocumentTooLarge), Some(NestingTooDeep),
       Some(TooManyEntries)][-30 - code]
    else if code == -36 then Some(KeyTextTooLarge)
    else None
  }

  /** Each status has its own number, and the number says which status it is. */
  lemma CodeIff(status: Status, code: int)
    ensures Code(status) == code <==> StatusOf(code) == Some(status)
  {
    if StatusOf(code) == Some(status) {
      match status {
        case Ok =>
        case _ => assert code != 0;
      }
    }
  }

  // Unsigned counters wrap.
  function Inc32(x: u32): u32 { if x + 1 == TWO_32 then 0 else x + 1 }

  function Dec32(x: u32): u32 { if x == 0 then TWO_32 - 1 else x - 1 }

  function Inc64(x: u64): u64 { if x + 1 == TWO_64 then 0 else x + 1 }
}
