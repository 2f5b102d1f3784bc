/** What one connection's handling produces: the replies the server writes,
    in order, and how the handling ends. */
module Transcripts {
  import opened Bytes

  /** The `unwrap`s and slices of the source that panic the connection's task. */
  datatype Panic =
    | SliceOutOfBounds  // a slice end beyond the 258-byte buffer
    | InvalidUtf8       // `String::from_utf8(..).unwrap()` on invalid bytes
    | ConnectFailed     // `TcpStream::connect(..).await.unwrap()` on failure

  /** An IPv4 address, four octets. */
  type Octets = s: seq<byte> | |s| == 4 witness [0, 0, 0, 0]

  /** The destination that the server dials. */
  datatype Target = Target(octets: Octets, port: Port)

  datatype Ending =
    | Closed               // the handler returned: the socket is dropped
    | Panicked(reason: Panic)
    | Relaying(target: Target)  // connected upstream; the byte relay starts

  datatype Transcript = Transcript(replies: seq<seq<byte>>, ending: Ending)
}
