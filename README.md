# SOCKS5 handshake core, modelled in Dafny

This project models the protocol logic of a small SOCKS5 server (RFC 1928)
with username/password sub-negotiation (RFC 1929), all of it in
`src/socks5.rs`. It covers:

- the authentication method codes (`AuthMethods`);
- the version check;
- the `Proxy` object, which holds the enabled methods and the credential store;
- the decisions that `handle_connection` and `make_proxy` take on the bytes
  they read, up to the moment the byte relay starts.

Each socket read is modelled as one client message. The message is copied into
the zero-initialised buffer of that stage: 258 bytes for the greeting and for
the credentials, 4 for the request header, 6 for the IPv4 address and port.
Bytes the message does not supply read as zero, and bytes beyond the buffer
are dropped (`Bytes.ReadInto`).

Modules:

- `Bytes`: the byte type, read buffers and big-endian ports.
- `Utf8`: the UTF-8 validity that `String::from_utf8` checks. A Rust `String`
  is modelled as its valid UTF-8 bytes (`Text`).
- `AuthMethods`: the method codes.
- `Proxies`: class `Proxy`.
- `Transcripts`: the replies written and how a connection ends.
- `Negotiation`, `Authentication`, `Requests`: the three protocol stages.
- `Session`: one connection from greeting to relay.

The code is followed where it differs from a complete SOCKS5 server:

- Only the username/password branch of method selection writes a reply. The
  NoAuth and NotAcceptable branches return silently.
- The NoAuth branch is taken when the client offers code 0, whatever the
  server enables.
- The VER byte of the credentials frame, and the CMD and RSV bytes of the
  request, are never examined.
- Only ATYP 1 (IPv4) is handled. Any other ATYP ends the connection with no reply.
- The success reply echoes the requested address and port.
- The source panics in three places: a credentials slice past the buffer,
  invalid UTF-8 in `unwrap`, and a failed connect in `unwrap`. These become
  `Panicked` endings. Whether the connect succeeds is a parameter.

## Model

| member | source | states |
|---|---|---|
| `Bytes.ReadInto` | src/socks5.rs:154-156 | a read into `[0; size]` leaves the message's bytes first and zeros after them, truncated to the buffer size |
| `Bytes.PortFromBeBytes` | src/socks5.rs:345-347 | the port is `hi * 256 + lo`: its high byte is `hi` and its low byte is `lo` |
| `Bytes.PortBytesRoundTrip` | src/socks5.rs:345-347 | re-encoding the decoded port in network order gives back the two address bytes the reply echoes |
| `Utf8.FromUtf8` | src/socks5.rs:213-218 | conversion succeeds exactly on valid UTF-8 and then keeps the bytes unchanged |
| `Utf8.EncodeIsUtf8` | src/socks5.rs:213-218 | the UTF-8 encoding of every string passes the validity check |
| `Utf8.DecodeChar` | src/socks5.rs:213-218 | the character a well-formed sequence starts with encodes back to exactly the bytes it was read from |
| `Utf8.DecodeThenEncode` | src/socks5.rs:213-218 | encoding the string decoded from valid UTF-8 gives back the same bytes |
| `Utf8.Utf8IsEncoding` | src/socks5.rs:213-218 | every accepted byte sequence is the encoding of some string, so with `EncodeIsUtf8` the accepted sequences are exactly the encodings of strings |
| `Utf8.AsciiIsUtf8` | src/socks5.rs:213-218 | ASCII-only bytes pass the validity check |
| `Utf8.InvalidExamples` | src/socks5.rs:213-218 | an overlong form (`C0 80`), a lone continuation byte (`80`) and an encoded surrogate (`ED A0 80`) are refused |
| `AuthMethods.ToByte` | src/socks5.rs:54-63 | every method has a code in {0..4, 0xFF}, and decoding that code gives the same method back |
| `AuthMethods.FromByte` | src/socks5.rs:29-39 | decoding is defined exactly on the codes 0, 1, 2, 3, 4 and 0xFF; every other byte is the panicking case |
| `AuthMethods.FromByteThenToByte` | src/socks5.rs:29-63 | for every valid code, decoding then encoding gives the code back |
| `AuthMethods.ToByteInjective` | src/socks5.rs:54-63 | two methods have the same code only if they are the same method |
| `AuthMethods.Clone` | src/socks5.rs:41-52 | the clone is the same variant, with the same code |
| `Proxies.Proxy.constructor` | src/socks5.rs:72-77 | a new proxy has the given methods and no users: every lookup finds nothing |
| `Proxies.Proxy.GetUser` | src/socks5.rs:88-90 | the lookup finds a password exactly for stored users, and it is the stored one |
| `Proxies.Proxy.AddUser` | src/socks5.rs:80-82 | afterwards the user's lookup gives the new password and every other user's lookup is unchanged |
| `Proxies.Proxy.RemoveUser` | src/socks5.rs:84-86 | afterwards the user's lookup finds nothing and every other user's lookup is unchanged |
| `Proxies.Proxy.CheckValidAuthMethod` | src/socks5.rs:92-97 | holds exactly when the method occurs in the configured list |
| `Negotiation.CheckValidVersion` | src/socks5.rs:124-127 | holds exactly for version byte 5 |
| `Negotiation.OfferedMethods` | src/socks5.rs:164-166 | the offered codes are the `nmethod` bytes after the count, and the slice ends at most at index 257 of the 258-byte buffer |
| `Negotiation.Negotiate` | src/socks5.rs:158-184 | wrong version is rejected. UsernamePassword is selected iff code 2 is offered and the server enables it. Otherwise an offered code 0 selects NoAuth, and anything else selects NotAcceptable |
| `Negotiation.SelectionReply` | src/socks5.rs:181-186 | a reply is written only when UsernamePassword is selected, and it is `[5, 2]` |
| `Negotiation.GreetingRoundTrip` | src/socks5.rs:164-166 | the server reads back exactly the method list of a well-formed greeting |
| `Negotiation.NegotiateGreeting` | src/socks5.rs:172-184 | for a well-formed greeting, the selection is determined by the client's list and the server's configuration, whatever the order of the list |
| `Negotiation.TruncatedGreetingOffersNoAuth` | src/socks5.rs:154-166 | a greeting that announces more methods than it delivers does not fail, and its missing codes count as a NoAuth offer |
| `Authentication.ParseCredentials` | src/socks5.rs:202-218 | username = `buf[2..2+U]` and password = `buf[3+U..3+U+P]`, with P read at `buf[2+U]`. The slice fails iff `3+U+P` exceeds the buffer, and the conversion fails iff either field is not UTF-8 |
| `Authentication.ReadCredentials` | src/socks5.rs:196-211 | with the 258-byte buffer, the slice fails exactly when `3+U+P > 258` |
| `Authentication.ReadCredentialsFullFrame` | src/socks5.rs:196-211 | with a buffer of 513 bytes, which is the largest RFC 1929 frame, no message makes the slice fail |
| `Authentication.CredentialsRoundTrip` | src/socks5.rs:202-218 | a frame that fits the buffer is parsed back into the username and password it was built from |
| `Authentication.FullFrameRoundTrip` | src/socks5.rs:196-218 | with the 513-byte buffer, every RFC 1929 frame is parsed back into its credentials |
| `Authentication.LongFrameOverruns` | src/socks5.rs:196-211 | every RFC 1929 frame longer than 258 bytes makes the slice fail with the 258-byte buffer |
| `Authentication.LongCredentialsOverrun` | src/socks5.rs:196-211 | some valid frame (200-byte username, 100-byte password) makes the slice fail |
| `Authentication.Verify` | src/socks5.rs:223-227 | access is granted iff the user is stored and the stored password equals the supplied one |
| `Authentication.VerdictReply` | src/socks5.rs:227-253 | the reply is `[1, 0]` when access is granted and `[1, 1]` when it is denied |
| `Requests.CheckRequestHeader` | src/socks5.rs:327-335 | a version other than 5 is rejected, and only ATYP 1 is handled. The command byte is not consulted |
| `Requests.DecodeIpv4Target` | src/socks5.rs:339-362 | the target's octets are `address[0..4]`, and its port's network-order bytes are `address[4..6]` |
| `Requests.SuccessReply` | src/socks5.rs:365-374 | the reply is `[5, 0, 0, 1]` followed by the decoded target's octets and port |
| `Requests.MakeProxy` | src/socks5.rs:319-362 | the relay starts iff the version is 5, ATYP is 1 and the connect succeeds. Then the target is the decoded one and the single reply is the success reply. A failed connect panics with no reply. A wrong version or any ATYP other than 1 closes the connection with no reply |
| `Requests.Ipv4TargetRoundTrip` | src/socks5.rs:339-347 | an IPv4 destination and port sent by a client are decoded unchanged |
| `Requests.SuccessReplyEchoes` | src/socks5.rs:365-374 | the success reply echoes the requested address and port |
| `Requests.CommandIgnored` | src/socks5.rs:332-335 | the outcome does not depend on the CMD or RSV byte |
| `Requests.ConnectExample` | src/socks5.rs:335-374 | a request for 93.184.216.34 port 80 dials that address and gets `[5, 0, 0, 1, 93, 184, 216, 34, 0, 80]` |
| `Session.HandleConnection` | src/socks5.rs:153-309 | replies are written iff UsernamePassword is selected, and the first is `[5, 2]`. After it, for any credentials message: a frame that fails to parse ends in that panic with no further reply; a parsed frame gets the verdict reply; a denied one ends with `[1, 1]` and `Closed`; a granted one gets `[1, 0]` followed by exactly the replies and ending of `make_proxy`, even when the request then fails |
| `Session.RelayIff` | src/socks5.rs:153-309 | a connection is relayed iff every stage succeeds: selection, parsing, credential match, version and ATYP check, and connect |
| `Session.AuthenticatedClientIsRelayed` | src/socks5.rs:172-246 | a stored user's well-formed handshake receives `[5,2]`, `[1,0]` and the echoing success reply, and is relayed to the requested destination |
| `Session.RejectedClientIsClosed` | src/socks5.rs:223-290 | an unknown user or a wrong password receives `[5,2]` and `[1,1]`, and the connection closes before the request is read |
| `Session.UnansweredGreeting` | src/socks5.rs:297-303 | a greeting that does not select UsernamePassword gets no reply and the connection closes |
| `Session.WrongVersionIsDropped` | src/socks5.rs:156-161 | a greeting whose first buffer byte is not 5 gets no reply and the connection closes. This includes an empty read, which leaves the byte 0 |
| `Session.LongFramePanicsConnection` | src/socks5.rs:196-211 | a client that offers username/password and sends a valid frame longer than 258 bytes gets `[5, 2]`, and then its connection ends in the slice panic |
| `Session.Attempt` | src/socks5.rs:223-290 | a client offering NoAuth and username/password is relayed when its credentials match the store, and otherwise gets `[5,2]`, `[1,1]` and is closed |
| `Session.CredentialStoreExample` | src/socks5.rs:223-290 | with store {alice: secret}, alice/secret is relayed, while alice/wrong and bob/secret are refused. After alice is removed, alice/secret is refused too |

## Findings

| source | as written | input that shows it | evidently intended | confidence | as-written member | corrected member |
|---|---|---|---|---|---|---|
| src/socks5.rs:196-211 | The credentials frame is read into a 258-byte buffer. The password slice ends at `3+ULEN+PLEN`, which can reach 513, so the slice panics | VER 1, ULEN 200, 200 bytes `a`, PLEN 100, 100 bytes `b`: a valid frame of 303 bytes | The buffer holds the largest frame of section 2 of RFC 1929 (513 bytes), so every well-formed frame is parsed | high; not executed | `Authentication.LongCredentialsOverrun` | `Authentication.ReadCredentialsFullFrame` |

The parser `Authentication.ParseCredentials` is the same in both halves. Only
the buffer size differs: 258 bytes as written, 513 bytes corrected.
`Session.HandleConnection` reads with the 258-byte buffer as the source does.
With it, the finding shows up as a `Panicked(SliceOutOfBounds)` ending
(`Session.LongFramePanicsConnection`).

## Left out

- `start_proxy`: binding the listener, the accept loop, spawning a task per connection, and formatting the bind address. These are I/O and task plumbing.
- `bidirectional_streaming` and the two relay tasks joined by `try_join!`: concurrent socket copying. The model ends at the `Relaying(target)` ending.
- `TcpStream::connect`: an outbound network call. The model produces the target it dials and takes the connect's success as a parameter.
- Socket reads and writes: read errors, partial reads, and bytes left in the socket for the next read. A read error ends `handle_connection` with no reply. A failed write of the selection reply ends it too. A failed write of the other replies is ignored by the source. Every reply is sent with `write`, not `write_all`, and the byte count is ignored, so a reply may be only partly written. The model assumes each write delivers the whole reply.
- The `Mutex` around the user map: a concurrency concern. The map is a plain field.
- `println!` logging.
- `read_address`, a stub that returns an empty string, and the unused `AddressType` enum: they carry no behaviour.
- Domain-name and IPv6 destinations, REP error codes, and a continuation after NoAuth: none of these exist in the source.
- AuthMethods.FromByte: the source panics on an unknown byte. The model returns `None` instead.
