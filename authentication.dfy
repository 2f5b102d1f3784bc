/** Username/password sub-negotiation: the second message of
    `handle_connection` (section 2 of RFC 1929). */
module Authentication {
  import opened Bytes
  import opened Wrappers
  import opened Utf8
  import opened Transcripts
  import opened Proxies

  /** The size of the buffer that receives the credentials frame. */
  const AuthBufferSize: nat := 258

  /** The largest frame of section 2 of RFC 1929: VER, ULEN, 255 bytes of
      username, PLEN, 255 bytes of password. */
  const MaxFrameSize: nat := 513

  datatype Credentials = Credentials(username: Text, password: Text)

  /** The frame read at fixed offsets: ULEN at 1, the username from 2, PLEN
      at 2 + ULEN, the password from 3 + ULEN. The VER byte is not examined.
      PLEN's index is always inside the buffer; the password's end may not
      be, and then the slice panics. Invalid UTF-8 in either field panics in
      `unwrap`. */
  function ParseCredentials(buf: seq<byte>): (r: Result<Credentials, Panic>)
    requires 2 + 0xFF < |buf|
    ensures var u := buf[1] as int; var p := buf[2 + u] as int;
      && (r == Err(SliceOutOfBounds) <==> |buf| < 3 + u + p)
      && (r == Err(InvalidUtf8) <==>
            3 + u + p <= |buf| && !(IsUtf8(buf[2 .. 2 + u]) && IsUtf8(buf[3 + u .. 3 + u + p])))
      && (r.Ok? ==> r.value.username == buf[2 .. 2 + u] && r.value.password == buf[3 + u .. 3 + u + p])
  {
    var u := buf[1] as int;
    var p := buf[2 + u] as int;
    if |buf| < 3 + u + p then Err(SliceOutOfBounds)
    else
      match (FromUtf8(buf[2 .. 2 + u]), FromUtf8(buf[3 + u .. 3 + u + p]))
      case (Some(username), Some(password)) => Ok(Credentials(username, password))
      case _ => Err(InvalidUtf8)
  }

  /** The credentials read from one message, as `handle_connection` reads
      them: into a 258-byte buffer. A frame longer than that is cut short,
      and its password slice overruns the buffer. */
  function ReadCredentials(msg: seq<byte>): (r: Result<Credentials, Panic>)
    ensures r == Err(SliceOutOfBounds) <==>
      var buf := ReadInto(AuthBufferSize, msg); AuthBufferSize < 3 + buf[1] as int + buf[2 + buf[1] as int] as int
  {
    ParseCredentials(ReadInto(AuthBufferSize, msg))
  }

  /** The same read into a buffer that holds the largest frame: no message
      can make the password slice overrun it. */
  function ReadCredentialsFullFrame(msg: seq<byte>): (r: Result<Credentials, Panic>)
    ensures r != Err(SliceOutOfBounds)
  {
    ParseCredentials(ReadInto(MaxFrameSize, msg))
  }

  /** A client's frame: VER 1, ULEN, username, PLEN, password. */
  function EncodeCredentials(c: Credentials): (msg: seq<byte>)
    requires |c.username| <= 0xFF && |c.password| <= 0xFF
    ensures |msg| == 3 + |c.username| + |c.password|
    ensures msg[0] == 1 && msg[1] as int == |c.username|
  {
    [1, |c.username| as byte] + c.username + [|c.password| as byte] + c.password
  }

  /** A frame that fits in a buffer of `size` bytes is read back as the
      credentials it was made from. */
  lemma CredentialsRoundTrip(c: Credentials, size: nat)
    requires |c.username| <= 0xFF && |c.password| <= 0xFF
    requires 2 + 0xFF < size && 3 + |c.username| + |c.password| <= size
    ensures ParseCredentials(ReadInto(size, EncodeCredentials(c))) == Ok(c)
  {
    var msg := EncodeCredentials(c);
    var buf := ReadInto(size, msg);
    var u, p := |c.username|, |c.password|;
    ReadIntoPrefix(size, msg);
    assert msg[2 .. 2 + u] == c.username;
    assert msg[2 + u] as int == p;
    assert msg[3 + u .. 3 + u + p] == c.password;
    assert buf[2 .. 2 + u] == msg[2 .. 2 + u];
    assert buf[3 + u .. 3 + u + p] == msg[3 + u .. 3 + u + p];
  }

  /** With the full-frame buffer, every frame of section 2 of RFC 1929 is
      read back as the credentials it was made from. */
  lemma FullFrameRoundTrip(c: Credentials)
    requires |c.username| <= 0xFF && |c.password| <= 0xFF
    ensures ReadCredentialsFullFrame(EncodeCredentials(c)) == Ok(c)
  {
    CredentialsRoundTrip(c, MaxFrameSize);
  }

  /** With the 258-byte buffer, every well-formed frame longer than the
      buffer panics, although section 2 of RFC 1929 allows it. */
  lemma LongFrameOverruns(c: Credentials)
    requires |c.username| <= 0xFF && |c.password| <= 0xFF
    requires AuthBufferSize < 3 + |c.username| + |c.password|
    ensures ReadCredentials(EncodeCredentials(c)) == Err(SliceOutOfBounds)
  {
    var msg := EncodeCredentials(c);
    var buf := ReadInto(AuthBufferSize, msg);
    var u := |c.username|;
    assert buf[1] as int == u;
    assert buf[2 + u] == msg[2 + u] == |c.password| as byte;
  }

  /** A 200-byte username with a 100-byte password is such a frame. */
  lemma LongCredentialsOverrun()
    ensures exists c: Credentials ::
              |c.username| <= 0xFF && |c.password| <= 0xFF &&
              ReadCredentials(EncodeCredentials(c)) == Err(SliceOutOfBounds)
  {
    var name: seq<byte> := seq(200, _ => 0x61);
    var pass: seq<byte> := seq(100, _ => 0x62);
    AsciiIsUtf8(name);
    AsciiIsUtf8(pass);
    var c := Credentials(name, pass);
    LongFrameOverruns(c);
  }

  datatype Verdict = Granted | Denied

  /** The user exists and the stored password equals the supplied one. */
  function Verify(proxy: Proxy, c: Credentials): (v: Verdict)
    reads proxy
    ensures v == Granted <==> c.username in proxy.users && proxy.users[c.username] == c.password
  {
    match proxy.GetUser(c.username)
    case Some(stored) => if stored == c.password then Granted else Denied
    case None => Denied
  }

  /** The sub-negotiation reply: version 1, status 0 on success and 1 on
      failure. */
  function VerdictReply(v: Verdict): (reply: seq<byte>)
    ensures |reply| == 2 && reply[0] == 1
    ensures reply[1] == 0 <==> v == Granted
    ensures v == Denied ==> reply[1] == 1
  {
    match v
    case Granted => [1, 0]
    case Denied => [1, 1]
  }
}
