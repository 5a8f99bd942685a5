/** Types shared by every component: octets, machine words, status codes, options. */
module Common {

  type byte = b: int | 0 <= b < 256

  const UINT64_MAX: nat := 0xffff_ffff_ffff_ffff

  type u64 = t: nat | t <= UINT64_MAX

  datatype Option<+T> = None | Some(value: T)

  /** What opening a path meets. */
  datatype Disk = Missing | Unreadable | Present(bytes: seq<byte>)

  /** The library's status codes that the modelled code can return or pass on. */
  datatype Status =
    | Ok
    | InvalidArgument
    | NoMemory
    | Io
    | Timeout
    | Crypto
    | Protocol
    | NotFound
    | InvalidState
    | Unsupported
    | Overflow
    | Quarantined
}
