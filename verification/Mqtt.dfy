/** Types shared by the broker, the client and the codec. */
module Mqtt {

  datatype Option<+T> = None | Some(value: T)

  datatype QoSLevel = AtMostOnce | AtLeastOnce | ExactlyOnce

  type byte = b: int | 0 <= b < 256

  /** Packet identifiers are two byte integers; zero is representable. */
  type u16 = n: int | 0 <= n < 0x1_0000

  /**
    Error kinds of the codec that its callers tell apart. `Panic` stands for the reads past the end of a buffer
    and the `unwrap`s on which the codec aborts.
   */
  datatype CodecError = InsufficientData | MalformedPacket | UnsupportedProperty | Panic
}
