/** Values that cross the wire: bytes, 16-bit integers in network byte order,
    stream identities and directions, and the small wrapper types the rest of
    the model shares. */
module Wire {

  /** One octet (`u8`). */
  type byte = b: int | 0 <= b < 256

  /** An unsigned 16-bit integer (`u16`). */
  type u16 = x: int | 0 <= x < 0x1_0000

  /** A transport-assigned stream handle, unique within a connection. */
  type StreamId = nat

  /** Whether a stream is unidirectional or bidirectional. */
  datatype Dir = Uni | Bi

  datatype Option<T> = None | Some(value: T)

  /** The errors a transport call can report and that a pass propagates. */
  datatype TransportError = StreamReadError | StreamWriteError

  datatype Result<T> = Ok(value: T) | Err(error: TransportError)

  /** `u16::to_be_bytes`: the high byte first. */
  function ToBE(x: u16): (bs: seq<byte>)
    ensures |bs| == 2
  {
    [x / 256, x % 256]
  }

  /** `u16::from_be_bytes`. */
  function FromBE(bs: seq<byte>): (x: u16)
    requires |bs| == 2
  {
    (bs[0] as int) * 256 + bs[1] as int
  }

  lemma FromToBE(x: u16)
    ensures FromBE(ToBE(x)) == x
  {
  }

  lemma ToFromBE(bs: seq<byte>)
    requires |bs| == 2
    ensures ToBE(FromBE(bs)) == bs
  {
  }

  /** The big-endian encoding is injective: equal encodings mean equal values. */
  lemma ToBEInjective(x: u16, y: u16)
    requires ToBE(x) == ToBE(y)
    ensures x == y
  {
    FromToBE(x);
    FromToBE(y);
  }

  function Min(a: nat, b: nat): nat
  {
    if a < b then a else b
  }
}
