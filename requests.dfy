/** The CONNECT request and its reply: `make_proxy` (sections 4 to 6 of
    RFC 1928), up to the point where the byte relay starts. */
module Requests {
  import opened Bytes
  import opened Transcripts
  import Negotiation

  /** The size of the buffer that receives VER, CMD, RSV, ATYP. */
  const RequestBufferSize: nat := 4

  /** The size of the buffer that receives an IPv4 address and its port. */
  const AddressBufferSize: nat := 6

  const Ipv4AddressType: byte := 1

  /** What `make_proxy` does after reading the request header. CMD and RSV
      are never examined, so every command is handled as CONNECT. */
  datatype HeaderCheck = NotSocks5Request | UnhandledAddressType(atyp: byte) | Ipv4Request

  function CheckRequestHeader(request: seq<byte>): (h: HeaderCheck)
    requires |request| == RequestBufferSize
    ensures h == NotSocks5Request <==> request[0] != 5
    ensures h == Ipv4Request <==> request[0] == 5 && request[3] == 1
    ensures h.UnhandledAddressType? ==> h.atyp == request[3] && h.atyp != 1
  {
    if !Negotiation.CheckValidVersion(request[0]) then NotSocks5Request
    else if request[3] == Ipv4AddressType then Ipv4Request
    else UnhandledAddressType(request[3])
  }

  /** The destination in the address buffer: four octets, then the port in
      network byte order. */
  function DecodeIpv4Target(address: seq<byte>): (t: Target)
    requires |address| == AddressBufferSize
    ensures t.octets == address[..4]
    ensures PortToBeBytes(t.port) == address[4..]
  {
    Target(address[..4], PortFromBeBytes(address[4], address[5]))
  }

  /** The success reply: VER 5, REP 0, RSV 0, ATYP 1, then the requested
      address and port echoed back (not the bound address of the new
      upstream connection). */
  function SuccessReply(address: seq<byte>): (reply: seq<byte>)
    requires |address| == AddressBufferSize
    ensures |reply| == 10
    ensures reply[..4] == [5, 0, 0, 1]
    ensures reply[4..] == DecodeIpv4Target(address).octets + PortToBeBytes(DecodeIpv4Target(address).port)
  {
    [5, 0, 0, Ipv4AddressType] + address
  }

  /** `make_proxy` from its two reads to the start of the relay. A wrong
      version or an address type other than IPv4 returns without a reply;
      a failed connect panics in `unwrap` before any reply. */
  function MakeProxy(request: seq<byte>, address: seq<byte>, upstreamConnects: bool): (t: Transcript)
    ensures var header := ReadInto(RequestBufferSize, request);
      t.ending.Relaying? <==> header[0] == 5 && header[3] == 1 && upstreamConnects
    ensures var header := ReadInto(RequestBufferSize, request);
      t.ending == Panicked(ConnectFailed) <==> header[0] == 5 && header[3] == 1 && !upstreamConnects
    ensures var buf := ReadInto(AddressBufferSize, address);
      t.ending.Relaying? ==> t.ending.target == DecodeIpv4Target(buf) && t.replies == [SuccessReply(buf)]
    ensures !t.ending.Relaying? ==> t.replies == []
    ensures var header := ReadInto(RequestBufferSize, request);
      !(header[0] == 5 && header[3] == 1) ==> t == Transcript([], Closed)
  {
    match CheckRequestHeader(ReadInto(RequestBufferSize, request))
    case NotSocks5Request => Transcript([], Closed)
    case UnhandledAddressType(_) => Transcript([], Closed)
    case Ipv4Request =>
      var buf := ReadInto(AddressBufferSize, address);
      if !upstreamConnects then Transcript([], Panicked(ConnectFailed))
      else Transcript([SuccessReply(buf)], Relaying(DecodeIpv4Target(buf)))
  }

  /** A client's request header for command `cmd` to an IPv4 address. */
  function EncodeRequestHeader(cmd: byte): (msg: seq<byte>)
    ensures |msg| == RequestBufferSize && msg[0] == 5 && msg[1] == cmd && msg[3] == Ipv4AddressType
  {
    [5, cmd, 0, Ipv4AddressType]
  }

  /** A client's IPv4 address and port. */
  function EncodeIpv4Target(t: Target): (msg: seq<byte>)
    ensures |msg| == AddressBufferSize
    ensures msg[..4] == t.octets
  {
    t.octets + PortToBeBytes(t.port)
  }

  /** The server decodes the destination the client encoded. */
  lemma Ipv4TargetRoundTrip(t: Target)
    ensures DecodeIpv4Target(ReadInto(AddressBufferSize, EncodeIpv4Target(t))) == t
  {
    var msg := EncodeIpv4Target(t);
    var buf := ReadInto(AddressBufferSize, msg);
    assert buf == msg;
    var d := DecodeIpv4Target(buf);
    assert PortToBeBytes(d.port) == PortToBeBytes(t.port);
    assert d.port == PortFromBeBytes(PortToBeBytes(t.port)[0], PortToBeBytes(t.port)[1]);
  }

  /** The success reply to a client's request echoes its destination. */
  lemma SuccessReplyEchoes(t: Target)
    ensures SuccessReply(ReadInto(AddressBufferSize, EncodeIpv4Target(t))) ==
      [5, 0, 0, 1] + t.octets + PortToBeBytes(t.port)
  {
    Ipv4TargetRoundTrip(t);
    var reply := SuccessReply(ReadInto(AddressBufferSize, EncodeIpv4Target(t)));
    assert reply == reply[..4] + reply[4..];
  }

  /** The outcome of `make_proxy` does not depend on the CMD and RSV bytes. */
  lemma CommandIgnored(request: seq<byte>, other: seq<byte>, address: seq<byte>, upstreamConnects: bool)
    requires |request| == |other| == RequestBufferSize
    requires request[0] == other[0] && request[3] == other[3]
    ensures MakeProxy(request, address, upstreamConnects) == MakeProxy(other, address, upstreamConnects)
  {
    assert ReadInto(RequestBufferSize, request)[0] == other[0];
    assert ReadInto(RequestBufferSize, request)[3] == other[3];
    assert ReadInto(RequestBufferSize, other)[0] == other[0];
    assert ReadInto(RequestBufferSize, other)[3] == other[3];
  }

  /** The example of a request to 93.184.216.34 port 80. */
  lemma ConnectExample()
    ensures MakeProxy([5, 1, 0, 1], [93, 184, 216, 34, 0, 80], true) ==
      Transcript([[5, 0, 0, 1, 93, 184, 216, 34, 0, 80]], Relaying(Target([93, 184, 216, 34], 80)))
  {
    var buf: seq<byte> := [93, 184, 216, 34, 0, 80];
    assert ReadInto(AddressBufferSize, buf) == buf;
    assert ReadInto(RequestBufferSize, [5, 1, 0, 1]) == [5, 1, 0, 1];
    assert DecodeIpv4Target(buf) == Target([93, 184, 216, 34], 80);
    assert SuccessReply(buf) == [5, 0, 0, 1, 93, 184, 216, 34, 0, 80];
  }
}
