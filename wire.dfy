/** Values that travel over the WebSocket connection, and the ways a session can abort. */
module Wire {

  /** The 8 native-endian bytes of one 64-bit float (`f64::to_ne_bytes`). */
  type Bytes8 = s: seq<bv8> | |s| == 8 witness [0, 0, 0, 0, 0, 0, 0, 0]

  datatype Option<+T> = None | Some(value: T)

  /** One WebSocket message. `Other` stands for ping, pong, close and raw frames. */
  datatype Frame = Binary(payload: seq<bv8>) | Text(text: string) | Other

  /** What one `socket.read()` returns: a message, a would-block error, or any other error. */
  datatype ReadResult = Received(frame: Frame) | WouldBlock | Failed

  /** The places where the Rust code panics (an `unwrap`, an `expect`, an index, `panic!`). */
  datatype Fault =
    | KeyStreamEmpty   // `i % key_stream.len()` with an empty key stream
    | BadBase64        // `BASE64_STANDARD.decode(..).unwrap()`
    | ReadFailed       // a read error that is not "would block"
    | NotBinary        // a coordinate read that is not `Ok(Message::Binary(..))`
    | FrameTooShort    // `msg[0..8]` on a frame shorter than 8 bytes

  datatype Result<+T> = Ok(value: T) | Panic(fault: Fault)

  /** Control codes, sent as one-byte binary frames. */
  const SYNC_REQUEST: bv8 := 1
  const SYNC_COMPLETE: bv8 := 2
  const ENCRYPTION_COMPLETE: bv8 := 3

  /** The text acknowledgement the server sends for a sync request. */
  const SYNC_ACK: string := "Sync Request approved"

  /** A frame is the control request `id` when it is exactly the one-byte binary frame `[id]`. */
  predicate IsRequest(f: Frame, id: bv8) {
    f.Binary? && f.payload == [id]
  }
}
