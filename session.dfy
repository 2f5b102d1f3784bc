/** One client connection through `handle_connection` and `make_proxy`:
    negotiation, sub-negotiation, request, up to the start of the relay.
    Each read is one message from the client, delivered whole into the
    stage's zero-initialised buffer. */
module Session {
  import opened Bytes
  import opened Wrappers
  import opened Utf8
  import opened AuthMethods
  import opened Proxies
  import opened Transcripts
  import opened Negotiation
  import opened Authentication
  import opened Requests

  /** The replies written and the way the connection ends, given the four
      messages the client sends and whether dialling the destination
      succeeds. Messages after the point where handling ends are not read. */
  function HandleConnection(proxy: Proxy, greeting: seq<byte>, credentials: seq<byte>,
                            request: seq<byte>, address: seq<byte>, upstreamConnects: bool): (t: Transcript)
    reads proxy
    ensures var s := Negotiate(proxy, ReadInto(GreetingBufferSize, greeting));
      && (t.replies == [] <==> s != Selected(UsernamePassword))
      && (s != Selected(UsernamePassword) ==> t.ending == Closed)
      && (t.replies != [] ==> t.replies[0] == [5, 2])
    ensures t.ending.Relaying? ==>
      && ReadCredentials(credentials).Ok?
      && Verify(proxy, ReadCredentials(credentials).value) == Granted
      && |t.replies| >= 2 && t.replies[1] == [1, 0]
      && t.ending == MakeProxy(request, address, upstreamConnects).ending
    ensures var s := Negotiate(proxy, ReadInto(GreetingBufferSize, greeting));
      var r := ReadCredentials(credentials);
      s == Selected(UsernamePassword) ==>
        && (r.Err? ==> t == Transcript([[5, 2]], Panicked(r.error)))
        && (r.Ok? ==>
              |t.replies| >= 2 && t.replies[..2] == [[5, 2], VerdictReply(Verify(proxy, r.value))])
        && (r.Ok? && Verify(proxy, r.value) == Denied ==> t == Transcript([[5, 2], [1, 1]], Closed))
        && (r.Ok? && Verify(proxy, r.value) == Granted ==>
              && t.replies[2..] == MakeProxy(request, address, upstreamConnects).replies
              && t.ending == MakeProxy(request, address, upstreamConnects).ending)
  {
    match Negotiate(proxy, ReadInto(GreetingBufferSize, greeting))
    case NotSocks5 => Transcript([], Closed)
    case Selected(m) =>
      if m != UsernamePassword then Transcript([], Closed)
      else
        var selected := [SelectionReply(Selected(m)).value];
        match ReadCredentials(credentials)
        case Err(reason) => Transcript(selected, Panicked(reason))
        case Ok(c) =>
          var verdict := Verify(proxy, c);
          var replies := selected + [VerdictReply(verdict)];
          if verdict == Denied then Transcript(replies, Closed)
          else
            var rest := MakeProxy(request, address, upstreamConnects);
            Transcript(replies + rest.replies, rest.ending)
  }

  /** The connection reaches the relay exactly when username/password is
      selected, the credentials parse and match a stored user, the request
      is a SOCKS5 request for an IPv4 address, and the connect succeeds. */
  lemma RelayIff(proxy: Proxy, greeting: seq<byte>, credentials: seq<byte>,
                 request: seq<byte>, address: seq<byte>, upstreamConnects: bool)
    ensures var header := ReadInto(RequestBufferSize, request);
      HandleConnection(proxy, greeting, credentials, request, address, upstreamConnects).ending.Relaying? <==>
        && Negotiate(proxy, ReadInto(GreetingBufferSize, greeting)) == Selected(UsernamePassword)
        && ReadCredentials(credentials).Ok?
        && Verify(proxy, ReadCredentials(credentials).value) == Granted
        && header[0] == 5 && header[3] == 1 && upstreamConnects
  {
  }

  /** A client whose greeting offers username/password to a server that
      enables it, whose credentials are stored, and whose request names an
      IPv4 destination, receives the three replies and is relayed to that
      destination, whatever command byte it sends. */
  lemma AuthenticatedClientIsRelayed(proxy: Proxy, methods: seq<byte>, c: Credentials, cmd: byte, t: Target)
    requires |methods| <= 0xFF && 2 in methods && UsernamePassword in proxy.authMethods
    requires |c.username| <= 0xFF && |c.password| <= 0xFF
    requires 3 + |c.username| + |c.password| <= AuthBufferSize
    requires proxy.GetUser(c.username) == Some(c.password)
    ensures HandleConnection(proxy, EncodeGreeting(methods), EncodeCredentials(c),
                             EncodeRequestHeader(cmd), EncodeIpv4Target(t), true) ==
      Transcript([[5, 2], [1, 0], [5, 0, 0, 1] + t.octets + PortToBeBytes(t.port)], Relaying(t))
  {
    NegotiateGreeting(proxy, methods);
    CredentialsRoundTrip(c, AuthBufferSize);
    Ipv4TargetRoundTrip(t);
    SuccessReplyEchoes(t);
    assert ReadInto(RequestBufferSize, EncodeRequestHeader(cmd)) == EncodeRequestHeader(cmd);
  }

  /** Unknown users and wrong passwords get status 1 and the connection is
      closed without reading the request. */
  lemma RejectedClientIsClosed(proxy: Proxy, methods: seq<byte>, c: Credentials,
                               request: seq<byte>, address: seq<byte>, upstreamConnects: bool)
    requires |methods| <= 0xFF && 2 in methods && UsernamePassword in proxy.authMethods
    requires |c.username| <= 0xFF && |c.password| <= 0xFF
    requires 3 + |c.username| + |c.password| <= AuthBufferSize
    requires proxy.GetUser(c.username) != Some(c.password)
    ensures HandleConnection(proxy, EncodeGreeting(methods), EncodeCredentials(c),
                             request, address, upstreamConnects) == Transcript([[5, 2], [1, 1]], Closed)
  {
    NegotiateGreeting(proxy, methods);
    CredentialsRoundTrip(c, AuthBufferSize);
  }

  /** A well-formed greeting that does not lead to username/password is
      answered with nothing, whether it offers NoAuth or not. */
  lemma UnansweredGreeting(proxy: Proxy, methods: seq<byte>, credentials: seq<byte>,
                           request: seq<byte>, address: seq<byte>, upstreamConnects: bool)
    requires |methods| <= 0xFF
    requires !(2 in methods && UsernamePassword in proxy.authMethods)
    ensures HandleConnection(proxy, EncodeGreeting(methods), credentials,
                             request, address, upstreamConnects) == Transcript([], Closed)
  {
    NegotiateGreeting(proxy, methods);
  }

  /** A greeting whose version is not 5 is dropped without a reply. */
  lemma WrongVersionIsDropped(proxy: Proxy, greeting: seq<byte>, credentials: seq<byte>,
                              request: seq<byte>, address: seq<byte>, upstreamConnects: bool)
    requires ReadInto(GreetingBufferSize, greeting)[0] != 5
    ensures HandleConnection(proxy, greeting, credentials, request, address, upstreamConnects) ==
      Transcript([], Closed)
  {
  }

  /** A client that offers username/password and sends a well-formed frame
      longer than the 258-byte buffer gets `[5, 2]` and then panics the
      connection's task in the password slice. */
  lemma LongFramePanicsConnection(proxy: Proxy, methods: seq<byte>, c: Credentials,
                                  request: seq<byte>, address: seq<byte>, upstreamConnects: bool)
    requires |methods| <= 0xFF && 2 in methods && UsernamePassword in proxy.authMethods
    requires |c.username| <= 0xFF && |c.password| <= 0xFF
    requires AuthBufferSize < 3 + |c.username| + |c.password|
    ensures HandleConnection(proxy, EncodeGreeting(methods), EncodeCredentials(c),
                             request, address, upstreamConnects) == Transcript([[5, 2]], Panicked(SliceOutOfBounds))
  {
    NegotiateGreeting(proxy, methods);
    LongFrameOverruns(c);
  }

  /** One client that offers NoAuth and username/password, sends `c`, and
      asks for `t`: relayed when `c` matches the store, refused otherwise. */
  method Attempt(proxy: Proxy, c: Credentials, t: Target) returns (transcript: Transcript)
    requires UsernamePassword in proxy.authMethods
    requires |c.username| <= 0xFF && |c.password| <= 0xFF
    requires 3 + |c.username| + |c.password| <= AuthBufferSize
    ensures proxy.GetUser(c.username) == Some(c.password) ==>
      transcript == Transcript([[5, 2], [1, 0], [5, 0, 0, 1] + t.octets + PortToBeBytes(t.port)], Relaying(t))
    ensures proxy.GetUser(c.username) != Some(c.password) ==>
      transcript == Transcript([[5, 2], [1, 1]], Closed)
  {
    var methods: seq<byte> := [0, 2];
    var header, address := EncodeRequestHeader(1), EncodeIpv4Target(t);
    if proxy.GetUser(c.username) == Some(c.password) {
      AuthenticatedClientIsRelayed(proxy, methods, c, 1, t);
    } else {
      RejectedClientIsClosed(proxy, methods, c, header, address, true);
    }
    transcript := HandleConnection(proxy, EncodeGreeting(methods), EncodeCredentials(c), header, address, true);
  }

  /** With store {"alice": "secret"}: ("alice", "secret") is relayed,
      ("alice", "wrong") and ("bob", "secret") are refused; after
      `remove_user("alice")` ("alice", "secret") is refused too. */
  method CredentialStoreExample(t: Target) returns (granted: Transcript, wrongPassword: Transcript,
                                                    unknownUser: Transcript, removedUser: Transcript)
    ensures granted == Transcript([[5, 2], [1, 0], [5, 0, 0, 1] + t.octets + PortToBeBytes(t.port)], Relaying(t))
    ensures wrongPassword == unknownUser == removedUser == Transcript([[5, 2], [1, 1]], Closed)
  {
    var alice, bob := AsciiText([0x61, 0x6C, 0x69, 0x63, 0x65]), AsciiText([0x62, 0x6F, 0x62]);
    var secret, wrong := AsciiText([0x73, 0x65, 0x63, 0x72, 0x65, 0x74]), AsciiText([0x77, 0x72, 0x6F, 0x6E, 0x67]);
    assert bob != alice by { assert bob[0] != alice[0]; }
    assert secret != wrong by { assert secret[0] != wrong[0]; }

    var proxy := new Proxy([NoAuth, UsernamePassword]);
    assert proxy.GetUser(bob) == None;
    proxy.AddUser(alice, secret);
    assert proxy.GetUser(alice) == Some(secret) != Some(wrong);
    assert proxy.GetUser(bob) == None;
    granted := Attempt(proxy, Credentials(alice, secret), t);
    wrongPassword := Attempt(proxy, Credentials(alice, wrong), t);
    unknownUser := Attempt(proxy, Credentials(bob, secret), t);
    proxy.RemoveUser(alice);
    assert proxy.GetUser(alice) == None;
    removedUser := Attempt(proxy, Credentials(alice, secret), t);
  }
}
