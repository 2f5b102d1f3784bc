/** Bytes, the fixed-size read buffers of the server, and big-endian ports. */
module Bytes {

  newtype byte = x: int | 0 <= x < 0x100

  /** A TCP port, the range of the source's u16. */
  type Port = p: int | 0 <= p < 0x1_0000

  function Zeros(n: nat): (z: seq<byte>)
    ensures |z| == n
    ensures forall i :: 0 <= i < n ==> z[i] == 0
  {
    seq(n, _ => 0)
  }

  /** The buffer `[0; size]` after one read that delivered `msg`: the
      delivered bytes come first, up to the buffer's size, and every byte the
      read did not reach keeps its initial zero. */
  function ReadInto(size: nat, msg: seq<byte>): (buf: seq<byte>)
    ensures |buf| == size
    ensures forall i :: 0 <= i < size ==> buf[i] == if i < |msg| then msg[i] else 0
  {
    if size <= |msg| then msg[..size] else msg + Zeros(size - |msg|)
  }

  /** A message that fits in the buffer is found intact at its start. */
  lemma ReadIntoPrefix(size: nat, msg: seq<byte>)
    requires |msg| <= size
    ensures ReadInto(size, msg)[..|msg|] == msg
  {
  }

  /** `u16::from_be_bytes([hi, lo])`. */
  function PortFromBeBytes(hi: byte, lo: byte): (p: Port)
    ensures p / 0x100 == hi as int && p % 0x100 == lo as int
  {
    hi as int * 0x100 + lo as int
  }

  /** `u16::to_be_bytes`: the high byte first. */
  function PortToBeBytes(p: Port): (bs: seq<byte>)
    ensures |bs| == 2
    ensures PortFromBeBytes(bs[0], bs[1]) == p
  {
    [(p / 0x100) as byte, (p % 0x100) as byte]
  }

  /** Decoding two bytes and encoding the port gives the bytes back. */
  lemma PortBytesRoundTrip(hi: byte, lo: byte)
    ensures PortToBeBytes(PortFromBeBytes(hi, lo)) == [hi, lo]
  {
  }
}
