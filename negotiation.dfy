/** Method selection: the first message of `handle_connection`
    (section 3 of RFC 1928). */
module Negotiation {
  import opened Bytes
  import opened Wrappers
  import opened AuthMethods
  import opened Proxies

  const SocksVersion: byte := 5

  /** The size of the buffer that receives the greeting. */
  const GreetingBufferSize: nat := 258

  /** `check_valid_version`: only SOCKS version 5 is accepted. */
  function CheckValidVersion(version: byte): (ok: bool)
    ensures ok <==> version == 5
  {
    version == SocksVersion
  }

  /** `buf[2..2 + nmethod]`: the method codes the client offers. The slice
      always fits, since its end is at most 2 + 255 = 257. */
  function OfferedMethods(buf: seq<byte>): (methods: seq<byte>)
    requires |buf| == GreetingBufferSize
    ensures |methods| == buf[1] as int
    ensures 2 + |methods| < GreetingBufferSize
    ensures forall i :: 0 <= i < |methods| ==> methods[i] == buf[2 + i]
  {
    buf[2 .. 2 + buf[1] as int]
  }

  /** The client lists the code of `m` among its methods. */
  predicate Offers(buf: seq<byte>, m: AuthMethod)
    requires |buf| == GreetingBufferSize
  {
    ToByte(m) in OfferedMethods(buf)
  }

  /** The branch `handle_connection` takes after reading the greeting. */
  datatype Selection = NotSocks5 | Selected(choice: AuthMethod)

  /** Username/password wins whenever the client offers it and the server
      enables it, wherever it stands in the client's list; otherwise an
      offered NoAuth is taken (the server's configuration is not consulted
      for it), and otherwise nothing is acceptable. */
  function Negotiate(proxy: Proxy, buf: seq<byte>): (s: Selection)
    requires |buf| == GreetingBufferSize
    ensures s == NotSocks5 <==> buf[0] != SocksVersion
    ensures s == Selected(UsernamePassword) <==>
      buf[0] == SocksVersion && 2 in OfferedMethods(buf) && UsernamePassword in proxy.authMethods
    ensures s == Selected(NoAuth) <==>
      buf[0] == SocksVersion && !(2 in OfferedMethods(buf) && UsernamePassword in proxy.authMethods)
      && 0 in OfferedMethods(buf)
    ensures s.Selected? ==> s.choice in {UsernamePassword, NoAuth, NotAcceptable}
  {
    if !CheckValidVersion(buf[0]) then NotSocks5
    else if Offers(buf, UsernamePassword) && proxy.CheckValidAuthMethod(UsernamePassword) then
      Selected(UsernamePassword)
    else if Offers(buf, NoAuth) then Selected(NoAuth)
    else Selected(NotAcceptable)
  }

  /** The method-selection reply. Only the username/password branch writes
      one; the NoAuth and NotAcceptable branches, like a wrong version,
      return without writing. */
  function SelectionReply(s: Selection): (reply: Option<seq<byte>>)
    ensures reply.Some? <==> s == Selected(UsernamePassword)
    ensures reply.Some? ==> reply.value == [SocksVersion, ToByte(UsernamePassword)]
  {
    if s == Selected(UsernamePassword) then Some([SocksVersion, ToByte(s.choice)]) else None
  }

  /** A client's greeting: version, count, method codes. */
  function EncodeGreeting(methods: seq<byte>): (msg: seq<byte>)
    requires |methods| <= 0xFF
    ensures |msg| == 2 + |methods| && msg[0] == SocksVersion && msg[1] as int == |methods|
    ensures msg[2..] == methods
  {
    [SocksVersion, |methods| as byte] + methods
  }

  /** The server reads back exactly the methods a client's greeting lists. */
  lemma GreetingRoundTrip(methods: seq<byte>)
    requires |methods| <= 0xFF
    ensures OfferedMethods(ReadInto(GreetingBufferSize, EncodeGreeting(methods))) == methods
  {
    var msg := EncodeGreeting(methods);
    var buf := ReadInto(GreetingBufferSize, msg);
    assert buf[1] as int == |methods|;
    forall i | 0 <= i < |methods|
      ensures OfferedMethods(buf)[i] == methods[i]
    {
      assert buf[2 + i] == msg[2 + i] == methods[i];
    }
  }

  /** Selection for a well-formed greeting, in terms of the client's list and
      the server's configuration. */
  lemma NegotiateGreeting(proxy: Proxy, methods: seq<byte>)
    requires |methods| <= 0xFF
    ensures Negotiate(proxy, ReadInto(GreetingBufferSize, EncodeGreeting(methods))) ==
      if 2 in methods && UsernamePassword in proxy.authMethods then Selected(UsernamePassword)
      else if 0 in methods then Selected(NoAuth)
      else Selected(NotAcceptable)
  {
    GreetingRoundTrip(methods);
  }

  /** A greeting that announces more methods than it delivers is read with
      the missing codes as zero bytes, which is the NoAuth code: it never
      fails, and it is taken for a NoAuth offer. */
  lemma TruncatedGreetingOffersNoAuth(msg: seq<byte>)
    requires 2 <= |msg| < 2 + msg[1] as int
    ensures Offers(ReadInto(GreetingBufferSize, msg), NoAuth)
  {
    var buf := ReadInto(GreetingBufferSize, msg);
    var k := |msg| - 2;
    assert OfferedMethods(buf)[k] == buf[2 + k] == 0;
  }
}
