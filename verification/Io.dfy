/** What a non-blocking system call may answer, and the decision a handler returns to its event loop. */
module Io {
  import opened Bytes

  /** The answer of one write-like call: some bytes moved (never more than asked for), try again later, or an error. */
  datatype WriteResult = Moved(count: nat) | WouldBlock | Failed

  /** The answer of one read-like call; an empty Data is the end of the stream. */
  datatype ReadResult = Data(bytes: seq<byte>) | Again | Broken

  datatype Action = Read | Write | Close | Wait | Upgrade

  /** Calls that each move something. */
  function Moves(counts: seq<nat>): seq<WriteResult> {
    if counts == [] then [] else [Moved(counts[0])] + Moves(counts[1..])
  }

  function Total(counts: seq<nat>): nat { if counts == [] then 0 else counts[0] + Total(counts[1..]) }
}
