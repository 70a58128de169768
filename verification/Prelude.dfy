/** Types shared by the whole model. */
module Prelude {

  datatype Option<+T> = None | Some(value: T)

  datatype Result<+T, +E> = Ok(value: T) | Err(error: E)

  /** A libp2p peer identity. Only equality of identities matters here. */
  datatype PeerID = PeerID(raw: string)

  /** An octet; Go strings and buffers of the SOCKS and stream code are sequences of octets. */
  type byte = x: int | 0 <= x < 256

  type Bytes = seq<byte>
}
