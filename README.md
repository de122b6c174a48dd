# A verified model of a SOCKS5 server

This project models the protocol core of a small SOCKS5 proxy server and
proves properties of the model in Dafny. The core covers:

- the method negotiation of RFC 1928 (section 3);
- the username/password sub-negotiation of RFC 1929 (section 2);
- the CONNECT request of RFC 1928 (sections 4 and 5);
- the translation of connect failures into the reply codes of RFC 1928 section 6;
- the reply frames;
- the per-connection state machine CONNECTED → NEED_AUTH → AUTHED;
- the byte relay with its partial-write loop.

The repository contains the server twice. `sockssrv.cpp` is the reference
server. `socks5.cpp` with `include/socks5.h` is an unfinished class-based
rewrite of it. Both are modelled, and the rewrite is proved to agree with
the reference wherever the two are meant to agree.

Modules, one per file:

- `Bytes` (bytes.dfy): octets, C strings as `strcmp` sees them, conversion
  to `unsigned char`, 16-bit big-endian fields.
- `Codes` (codes.dfy): authentication methods and reply codes with their
  wire values, connection states, errno numbers.
- `Addresses` (addresses.dfy): the `sockAddress` union of
  `include/server.h` as a tagged variant, with the accessors
  `family`, `length`, `address` and `port`.
- `Relay` (relay.dfy): `copyloop` / `copy`. Each turn of the outer loop is
  one *event*: an idle timeout, an interrupted or failed `select`, or a
  read together with the results of the `send` calls that follow it.
- `MicroSocks` (microsocks.dfy): the reference server. The registry of
  authenticated addresses is a class holding a sequence. Method
  selection and the registry lookup are methods with loops, each proved
  against a specification function. Credential checking and the CONNECT
  parse have no loop in the source. They are functions, characterised by
  lemmas: `CheckCredentialsMeaning` and `CredentialsRoundTrip` for the
  credential check, `ConnectRoundTrip` and `ConnectTruncated` for the parse.
  `clientthread` is a method proved equal to the function `Run` over the
  successive results of `recv`.
- `Socks5` (socks5.dfy): the rewrite. `Socks5Server` is a class with the
  header's fields. `proxyRequest` is a method proved equal to the function
  `Proxy`. The lemmas `ProxyStepAgrees` and `ProxyAgrees` relate it turn
  by turn, and then over a whole connection, to the reference server.

Calls into the system are inputs of the model:

- `MicroSocks.Dial` holds the outcome of `inet_ntop`, `resolve`, `socket`,
  the bind and `connect`;
- `Relay.Event` holds the outcome of `select`, `recv` and `send`;
- a connection is the sequence of messages its `recv` calls returned, with
  an empty message standing for a `recv` that returned 0 or less.

On the read length of the relay, the model follows the code. Both relay
loops pass `sizeof(sizeof buf)` to `recv`, so a read returns at most
`sizeof(size_t)` octets. That is 8 on a 64-bit target (`Relay.RECV_LENGTH`),
not the 1024 a description of the relay would suggest
(sockssrv.cpp:221, socks5.cpp:288).

Other behaviours of the rewrite that the model keeps as written:

- **Negative reply codes.** `ErrorCode` values are the negated reply codes
  (include/socks5.h:16-26). Stored into a `char`, a failure goes on the wire
  as 256 minus the reply code: 251 for a refused connection, 250 for the
  relay timeout. `Socks5.SendErrorWire` and `Socks5.RefusedConnectOnTheWire`
  state this.
- **Setters that do nothing.** `setAuthentication` and `setVerbose` assign
  each parameter to itself (include/socks5.h:58-62, 68-70). The setters change
  no field, and a new server keeps no user.
- **A bind check on a pointer.** `connectClient` compares the *pointer*
  returned by `family()` with AF_UNSPEC (socks5.cpp:160). The test always
  holds, so `bindToSockAddress` is called on every connection, and it skips
  the bind for an address of length 0 (server.cpp:9-12). The reference binds
  when the family is not AF_UNSPEC. The two decide alike exactly when a
  family other than AF_UNSPEC goes with a nonzero length (`Socks5.BindOk`).
  Every address `setBindAddress` can store has this property: the resolved
  IPv4 or IPv6 address, or the AF_UNSPEC marker left when resolution fails.
- **Code that does not compile.** The rewrite does not compile as it stands.
  `addAuthAddress` is called with two arguments but declared with one
  (socks5.cpp:213, include/socks5.h:83-86). The model reads the call as the
  declared one-argument append. It takes `client.socketInfo.address` to be
  the accepted peer's address (include/server.h:45-49).

## Model

| member | source | states |
|---|---|---|
| Bytes.CString | sockssrv.cpp:239-245 | The C string seen by `strcmp` is a prefix of the buffer, holds no NUL, and is followed by a NUL when shorter than the buffer |
| Bytes.CStringOfNulFree | sockssrv.cpp:239-245 | A field without NUL octets is compared in full |
| Bytes.ToByte | socks5.cpp:246-258 | Storing an int into an octet keeps 0..255 unchanged and maps -256..-1 to x + 256 |
| Bytes.BigEndian16 | sockssrv.cpp:91-92 | `(hi << 8) \| lo` is a 16-bit value |
| Bytes.PortOctets | sockssrv.cpp:91-92 | A port is two octets in network order |
| Bytes.PortOctetsInverse | sockssrv.cpp:91-92 | Splitting a port into octets and reassembling them are inverse both ways |
| Codes.MethodOctetInverse | include/socks5.h:9-14 | The method octets NO_AUTH=0, GSSAPI=1, USERNAME=2, INVALID=0xFF decode back to their methods, and no other octet names a method |
| Codes.ReplyCode | sockssrv.cpp:43-53 | Reply codes are 0..8, and 0 is exactly SUCCESS |
| Codes.ReplyCodeInverse | sockssrv.cpp:43-53 | The reply codes are exactly 0..8, one per ErrorCode, and decode back to it |
| Codes.Ordinal | include/socks5.h:45-49 | The states are ordered CONNECTED < NEED_AUTH < AUTHED |
| Addresses.Family | include/server.h:17-19 | The family read from either variant is AF_INET exactly for IPv4 and AF_INET6 exactly for IPv6; any other value reads back its own stored family |
| Addresses.Length | include/server.h:21-25 | `sizeof(sockaddr_in)` for AF_INET, `sizeof(sockaddr_in6)` for AF_INET6, 0 for any other family |
| Addresses.Address | include/server.h:27-31 | Address octets exist exactly when the length is nonzero. They are the stored `sin_addr` / `sin6_addr` octets: 4 for AF_INET, 16 for AF_INET6 |
| Addresses.Port | include/server.h:33-37 | The stored port of either variant, 0 for any other family |
| Relay.PartialWrite | sockssrv.cpp:223-227 | The loop writes at most the chunk and, unless a send failed, all of it |
| Relay.PartialWriteMeaning | sockssrv.cpp:223-227 | Without failure the send results are non-negative and sum to the chunk length; on failure the last send is the first negative one, and the earlier ones sum to what was sent, which is less than the chunk |
| Relay.SendAll | socks5.cpp:290-294 | The loop over the send results delivers a prefix of the chunk and agrees with PartialWrite on failure, octets sent and calls made |
| Relay.RelayRun | sockssrv.cpp:193-229 | A running relay has consumed every event; a stopped one has consumed at least one and no more than were given |
| Relay.FrameIndependent | sockssrv.cpp:209-212 | The timeout frame affects neither why the relay stops, nor what it sends upstream, nor how many events it consumes |
| Relay.RelayStopsAtFirstFinal | sockssrv.cpp:205-222 | The relay stops at the first event that ends it: idle timeout, failed `select`, `recv` ≤ 0, or failed write. `EINTR` is retried. It times out exactly when the final event is the idle one |
| Relay.RelayForwards | sockssrv.cpp:218-227 | Unless a write failed, each side receives exactly what the other side offered before the final event, and the client also gets the timeout frame on idle; after a failed write it receives between the earlier offers and those including the final chunk |
| Relay.StepForwards | sockssrv.cpp:218-227 | The forwarding property survives a turn that forwards one chunk completely or retries an interrupted `select` |
| Relay.CopyLoop | socks5.cpp:260-296 | The loop of `copy` produces exactly RelayRun's trace |
| MicroSocks.IsAuthed | sockssrv.cpp:135-144 | Two addresses match exactly when their families and address octets are equal |
| MicroSocks.IsAuthedEquivalence | sockssrv.cpp:135-144 | Matching is reflexive, symmetric and transitive, and ignores the port |
| MicroSocks.AuthRegistry.constructor | sockssrv.cpp:351-352 | A new registry is empty |
| MicroSocks.AuthRegistry.Add | sockssrv.cpp:174-177 | A registration appends exactly the client's address |
| MicroSocks.AuthRegistry.Contains | sockssrv.cpp:155-163 | The scan finds a match exactly when some registered address matches the client's |
| MicroSocks.Choice | sockssrv.cpp:153-168 | A usable offered octet selects the method it names |
| MicroSocks.ScanEnd | sockssrv.cpp:150-152 | The scan ends after NMETHODS octets or at the end of the message, whichever is first |
| MicroSocks.OfferedMethods | sockssrv.cpp:150-152 | At most min(NMETHODS, n - 2) method octets are inspected |
| MicroSocks.Scan | sockssrv.cpp:152-171 | The scan never yields GSSAPI; it yields NO_AUTH only without a user or for a registered client with auth-once on, and USERNAME only with a user |
| MicroSocks.SelectMethod | sockssrv.cpp:146-172 | The same guarantees for the whole greeting |
| MicroSocks.ScanIsFirstMatch | sockssrv.cpp:152-171 | The scan yields INVALID exactly when no inspected octet is usable, and otherwise the method of the first usable octet |
| MicroSocks.SelectMethodMeaning | sockssrv.cpp:146-172 | A selected method was offered and is allowed by the configuration. INVALID is the answer exactly when the version is not 5, the greeting is one octet long, or nothing offered is usable |
| MicroSocks.CheckAuthMethod | sockssrv.cpp:146-172 | The loop, with its registry lookup, returns exactly SelectMethod over the registry's contents |
| MicroSocks.CheckCredentials | sockssrv.cpp:231-246 | The result is SUCCESS, GENERAL_FAILURE or NOT_ALLOWED, and it is GENERAL_FAILURE exactly when the length and version guards fail |
| MicroSocks.CheckCredentialsMeaning | sockssrv.cpp:231-246 | The result is SUCCESS exactly when the message passes the guards and both fields have the configured C strings. A message that passes starts with the encoding of its fields |
| MicroSocks.CredentialsRoundTrip | sockssrv.cpp:231-246 | An encoded request with fields of 1..255 NUL-free octets is accepted exactly when both fields equal the configured ones, and is refused with NOT_ALLOWED otherwise |
| MicroSocks.EmptyPasswordRejected | sockssrv.cpp:236 | An empty password with no octet after PLEN fails the ULEN+4 guard |
| MicroSocks.ParseConnect | sockssrv.cpp:61-92 | A parsed target is well formed; the parse fails only with GENERAL_FAILURE, COMMAND_NOT_SUPPORTED or ADDRESSTYPE_NOT_SUPPORTED |
| MicroSocks.ParseConnectSound | sockssrv.cpp:61-92 | A request that parses starts with the encoding of its target |
| MicroSocks.ConnectRoundTrip | sockssrv.cpp:61-92 | Encoding a target and parsing it, trailing octets and all, gives the target back: atyp, address or name, and big-endian port |
| MicroSocks.ConnectTruncated | sockssrv.cpp:61-92 | Any strict prefix of an encoded request fails with GENERAL_FAILURE |
| MicroSocks.ConnectErrorOrder | sockssrv.cpp:61-92 | COMMAND_NOT_SUPPORTED exactly for a long-enough version-5 request whose command is not 1; ADDRESSTYPE_NOT_SUPPORTED exactly when the header is valid and the atyp is not 1, 3 or 4 |
| MicroSocks.ErrnoToCode | sockssrv.cpp:100-118 | ETIMEDOUT → TTL_EXPIRED; EPROTOTYPE/EPROTONOSUPPORT/EAFNOSUPPORT → ADDRESSTYPE_NOT_SUPPORTED; ECONNREFUSED → CONN_REFUSED; ENETDOWN/ENETUNREACH → NET_UNREACHABLE; EHOSTUNREACH → HOST_UNREACHABLE; every other errno → GENERAL_FAILURE (each in both directions) |
| MicroSocks.Upstream | sockssrv.cpp:94-123 | The dial succeeds exactly when resolve, socket, the attempted bind and connect all succeed, and then yields the new socket. A failed resolve gives GENERAL_FAILURE. Otherwise the first failing call among socket, bind (when attempted) and connect gives ErrnoToCode of its errno |
| MicroSocks.ConnectSocksTarget | sockssrv.cpp:60-133 | A parse error is returned unchanged. After a successful parse the result is the dial, with the bind attempted exactly when the bind family is not AF_UNSPEC. Success yields the opened descriptor; no failure is SUCCESS or NOT_ALLOWED |
| MicroSocks.AuthResponse | sockssrv.cpp:179-184 | Two octets: the version, then the method or status |
| MicroSocks.SendError | sockssrv.cpp:186-191 | Ten octets: 5, the reply code (which decodes to the ErrorCode), 0, ATYP IPv4, then six zeros |
| MicroSocks.Step | sockssrv.cpp:256-285 | The state never regresses, and progresses unless the loop ends. AUTHED always ends the loop. Only NEED_AUTH with auth-once on registers, and only the client. AUTHED stays AUTHED. An upstream is handed over exactly from AUTHED after a successful CONNECT, always with the loop ending, and it is the dialled socket. From AUTHED the dialled socket is exactly the one the connect path opened (the request parsed, the name resolved and `socket` succeeded), and none is dialled in any other state. A failed connect has closed the socket it opened |
| MicroSocks.StepReplies | sockssrv.cpp:256-285 | A greeting is answered `[5, method]` and moves to AUTHED on NO_AUTH and NEED_AUTH on USERNAME, ending on INVALID. Credentials are answered `[1, status]` and end the loop unless accepted, registering exactly on success with auth-once. A request is answered with `send_error` of its outcome: SUCCESS when the upstream is connected, otherwise the error code |
| MicroSocks.Conclusion | sockssrv.cpp:286-291 | Without an upstream, the reply is sent and the client socket is closed after what the connect path closed. After a relay that stopped, the upstream socket and then the client socket are closed |
| MicroSocks.Conclude | sockssrv.cpp:280-291 | The relay and the closes produce exactly Conclusion |
| MicroSocks.RunNeverRegresses | sockssrv.cpp:256-285 | Over a whole connection the state never regresses |
| MicroSocks.RunRegisters | sockssrv.cpp:256-285 | Over a whole connection the registry gains at most the client's address, only with auth-once on and only when starting before AUTHED |
| MicroSocks.RunCloses | sockssrv.cpp:286-291 | A finished connection has closed the upstream it opened, if any, and then the client socket, each once; an unfinished one has closed nothing. A dialled upstream is the descriptor `socket` returned |
| MicroSocks.ClientStep | sockssrv.cpp:257-283 | One pass of the switch, with the registry updated in place, is exactly Step |
| MicroSocks.Turn | sockssrv.cpp:256-285 | One iteration of the loop continues with Step's new state, or ends with the rest of the connection equal to Run |
| MicroSocks.ClientThread | sockssrv.cpp:248-294 | The thread produces exactly Run from CONNECTED and leaves the registry as Run says |
| MicroSocks.LoopbackRequestParses | sockssrv.cpp:61-92 | `[5,1,0,1,127,0,0,1,0x1F,0x90]` parses to 127.0.0.1:8080 |
| MicroSocks.GreetingNoAuth | sockssrv.cpp:258-264 | `[5,1,0]` from a client that may skip authentication is answered `[5,0]` and moves to AUTHED |
| MicroSocks.GreetingUsername | sockssrv.cpp:258-264 | `[5,1,2]` with a user configured is answered `[5,2]` and moves to NEED_AUTH |
| MicroSocks.LoopbackStep | sockssrv.cpp:273-282 | A CONNECT to 127.0.0.1:8080 is answered with the dial's outcome, and the upstream is handed over exactly on success |
| MicroSocks.SampleRelayRun | sockssrv.cpp:193-229 | A relay of three client octets, two upstream octets and a timeout forwards both and ends with the TTL_EXPIRED frame |
| MicroSocks.NoAuthConnectThenRelay | sockssrv.cpp:248-294 | Without authentication, greeting then CONNECT then relay gives the client `[5,0]`, the SUCCESS reply, the upstream octets and the TTL_EXPIRED frame. The upstream gets the client octets, and both sockets are closed |
| MicroSocks.AuthOnceRegisters | sockssrv.cpp:265-272 | With auth-once on, a successful username/password exchange is answered `[5,2]` then `[1,0]` and registers the client's address |
| MicroSocks.AuthOnceAdmitsSameAddress | sockssrv.cpp:152-163 | A registered address, on any port, is admitted with NO_AUTH; an unregistered one offering only NO_AUTH gets `[5,0xFF]` |
| MicroSocks.WrongPasswordRefused | sockssrv.cpp:265-272 | Wrong credentials are answered `[1,2]`; the connection closes and nothing is registered |
| MicroSocks.RefusedConnectReported | sockssrv.cpp:273-282 | A refused connect is answered with reply code 5, and the upstream and client sockets are closed |
| Socks5.EnumValue | include/socks5.h:16-26 | The rewrite's error values lie in -8..0, and 0 is exactly SUCCESS |
| Socks5.EnumValueWire | include/socks5.h:16-26 | Each value is the negated reply code, distinct codes have distinct values, and a failure stored into an octet is 256 minus its reply code, which is no valid reply code |
| Socks5.Received | include/socks5.h:28-40 | The octets the last `recv` delivered: `recieved` of them, none when it returned 0 or less |
| Socks5.EmptyBuffer | include/socks5.h:28-40 | A new buffer has received nothing |
| Socks5.Receive | socks5.cpp:26-29 | A receive makes the buffer deliver exactly the new message and leaves the octets after it as they were |
| Socks5.IsAuthenticatedAsWritten | socks5.cpp:235-244 | As written, `isAuthenticated` matches only when both arguments are the same object |
| Socks5.AsWrittenRejectsCopies | socks5.cpp:235-244 | A registered copy of the client's own address is not matched, although the reference matches it |
| Socks5.IsAuthenticated | socks5.cpp:235-244 | Corrected, `isAuthenticated` is exactly the reference's `is_authed`: same family and address octets, port ignored |
| Socks5.Addrs | include/socks5.h:75-81 | The registered clients' addresses, in order |
| Socks5.RegisteredAgrees | socks5.cpp:79-85 | The lookup over registered clients agrees with the reference's lookup over their addresses |
| Socks5.CheckCredentials | socks5.cpp:175-190 | `checkCredentials` over the buffer's received octets is exactly the reference's check |
| Socks5.ParseRequest | socks5.cpp:100-131 | The parse part of `connectClient` is exactly the reference's parse of the received octets |
| Socks5.ConnectClient | socks5.cpp:99-173 | The result is the new socket when non-negative, and otherwise an error value of -8..-1 |
| Socks5.ConnectClientAgrees | socks5.cpp:99-173 | `connectClient` fails exactly when the reference's parse or dial fails. With a bind decision the two share, it returns the reference's result: the socket, or the negated code |
| Socks5.SendResponseCode | socks5.cpp:246-251 | Two octets: the version and the code each modulo 256. This is the reference frame for codes in 0..255, and the status octet is 0 exactly when the code is a multiple of 256 |
| Socks5.SendError | socks5.cpp:253-258 | Ten octets: the code modulo 256 at index 1, and elsewhere the reference's reply frame |
| Socks5.SendErrorWire | socks5.cpp:253-258 | Through the enum values, only the SUCCESS reply equals the reference's frame; a failure sends 256 minus its reply code |
| Socks5.RefConfig | include/socks5.h:75-81 | The rewrite's configuration read as the reference's: user set, auth-once and bind address carry over |
| Socks5.ProxyStep | socks5.cpp:197-227 | The state never regresses, and progresses unless the loop ends. AUTHED always ends the loop. Only NEED_AUTH with maintained authentication registers, and only the client, in state AUTHED. AUTHED stays AUTHED, and an upstream is handed over exactly from AUTHED when `connectClient` returns a socket. From AUTHED the dialled socket is the one the connect path opened, and a failed connect closes it |
| Socks5.ProxyStepAgrees | socks5.cpp:197-227 | A turn of the rewrite is a turn of the reference: same state, loop exit, registry addresses, upstream and closes. The greeting reply is identical; other replies have the same length, version and tail, with the status octet negated modulo 256 |
| Socks5.GreetingAgrees | socks5.cpp:198-205 | The CONNECTED case agrees with the reference, reply included |
| Socks5.CredentialsAgree | socks5.cpp:206-215 | The NEED_AUTH case agrees with the reference; the status octet is negated |
| Socks5.RequestAgrees | socks5.cpp:216-226 | The AUTHED case agrees with the reference |
| Socks5.RequestOutcomeAgrees | socks5.cpp:216-226 | The AUTHED case hands over, dials and closes as the reference does |
| Socks5.RequestReplyAgrees | socks5.cpp:216-226 | The AUTHED reply is the reference's with the status octet negated |
| Socks5.FrameAgrees | socks5.cpp:253-258 | For each reply code, the two CONNECT replies agree except for the status octet, which is negated modulo 256 |
| Socks5.TimeoutFrame | socks5.cpp:276-278 | The relay's timeout reply is ten octets with status 250 |
| Socks5.Finish | socks5.cpp:224-230 | Without an upstream, the reply is sent and the client socket is closed after what the connect path closed. After `copy` stops, the upstream socket and then the client socket are closed |
| Socks5.FinishAgrees | socks5.cpp:224-230 | The end of a connection agrees with the reference's once the last turn does, whatever timeout frame each server sends |
| Socks5.ProxyAgrees | socks5.cpp:192-232 | Over a whole connection the rewrite agrees with the reference on state, registry addresses, upstream octets, dialled socket, closes and termination |
| Socks5.ProxyNeverRegresses | socks5.cpp:196-228 | Over a whole connection the state never regresses |
| Socks5.ProxyCloses | socks5.cpp:224-230 | A finished connection has closed the upstream it opened and then the client socket, each once; an unfinished one has closed nothing. A dialled upstream is the descriptor `socket` returned |
| Socks5.ProxyRegisters | socks5.cpp:206-215 | Over a whole connection the registry gains at most one copy of the client, as AUTHED, only with maintained authentication and only when starting before AUTHED |
| Socks5.Conclude | socks5.cpp:223-230 | `copy` and the closes produce exactly Finish |
| Socks5.Socks5Server.constructor | include/socks5.h:54-81 | A new server has no user or password, auth-once off, no registered clients, verbose off, and a bind address of family AF_UNSPEC |
| Socks5.Socks5Server.SetBindAddress | include/socks5.h:64-66 | The bind address becomes the resolved address, or the AF_UNSPEC marker when resolution fails, so both servers take the same bind decision on it; nothing else changes |
| Socks5.Socks5Server.AddAuthAddress | include/socks5.h:83-86 | Exactly one client is appended at the end of the registry; the configuration is unchanged |
| Socks5.Socks5Server.CheckAuthMethod | socks5.cpp:68-95 | The loop over `recieved` octets, with its registry lookups, returns the reference's selection for the buffer and the server's fields. The lookups use the corrected `isAuthenticated` (see Left out) |
| Socks5.Socks5Server.Handle | socks5.cpp:197-227 | One pass of the switch is exactly ProxyStep; the registry becomes the step's and the configuration is unchanged |
| Socks5.Socks5Server.ProxyTurn | socks5.cpp:196-228 | One iteration of the loop continues with ProxyStep's state and a refilled buffer, or ends with the rest of the connection equal to Proxy |
| Socks5.Socks5Server.ProxyRequest | socks5.cpp:192-232 | `proxyRequest` produces exactly Proxy from CONNECTED with a fresh buffer, leaving the registry as Proxy says |
| Socks5.SetAuthenticationIgnored | include/socks5.h:58-62 | After `setAuthentication`, a new server still has no user: `[5,1,2]` gets INVALID and `[5,1,0]` gets NO_AUTH |
| Socks5.GreetingNoUser | socks5.cpp:198-205 | Without a user, `[5,1,0]` is answered `[5,0]` and moves to AUTHED |
| Socks5.RefusedLoopback | socks5.cpp:216-222 | A refused connect to 127.0.0.1:8080 is answered `[5,251,0,1,0,0,0,0,0,0]` and the opened socket is closed |
| Socks5.RefusedConnectOnTheWire | socks5.cpp:192-232 | Without authentication, a refused connect gives the client `[5,0]` then the reply with status 251; the upstream and client sockets are closed |

## Left out

- Socket I/O (`recv`, `send`, `socket`, `bind`, `connect`, `accept`, `closesocket_`) is not modelled as calls. Its results are inputs (`MicroSocks.Dial`, `Relay.Event`, the message sequence); what is sent is accumulated per direction, and what is closed is listed in order.
- `select` is left out. Its results are events: the 15-minute timeout is the `Idle` event, an `EINTR` retry is `Interrupted`, any other failure is `SelectFailed`. The choice of which readable side is read first is part of each event.
- `getaddrinfo`, `resolve`, `resolveSockAddress` and `bindToSockAddress` (server.cpp) and `inet_ntop` are foreign library calls. Their success or failure is a field of `MicroSocks.Dial`, and the resolved address is a parameter of `SetBindAddress`.
- Threads, `detach` and the mutexes around the registries are concurrency, which the model does not cover. The registry is sequential, and each connection is modelled alone.
- `main` (sockssrv.cpp and main.cpp), `usage` and `zero_arg` are command-line parsing and argv scrubbing.
- `Server::start`, `waitForClient(s)` and `Socks5Server::start` are listener and accept plumbing.
- The empty stubs `Socks5IoStream::read`, `waitForData` and `write` are not modelled. `Buffer::recieve` is modelled as the value-level `Socks5.Receive`.
- include/sockets.h (platform macros) and the verbose `fprintf` logging are not part of this model.
- Socks5.ProxyAgrees: covers only bind addresses on which both servers decide alike (`BindOk`). It does not relate the octets sent to the client, which differ in the status octet; `ProxyStepAgrees` relates them turn by turn.
- Socks5.Socks5Server.CheckAuthMethod: its registry lookup uses the corrected `isAuthenticated` (`Socks5.IsAuthenticated`), not the pointer comparison that socks5.cpp:81-83 calls. With a user set and maintained authentication on, a registered client offering only NO_AUTH is answered INVALID by the code as written, but NO_AUTH by the model. The as-written comparison is the finding below.
- Socks5.ProxyStep: models `isAuthenticated` in its corrected form (`Socks5.IsAuthenticated`), not as written; the as-written form is the finding below.
- Socks5.Socks5Server.SetAuthentication and Socks5.Socks5Server.SetVerbose: have no contract beyond changing nothing. Each assigns its parameters to themselves, so `SetAuthenticationIgnored` states their effect.
- Relay.PartialWrite: the results of `send` are a finite list (`SendsFit`), so the model leaves out the endless partial-write loop that a `send` returning 0 forever would cause (sockssrv.cpp:223-227, socks5.cpp:290-294).
- The connection supervisor's guarantee that sockets are closed on every path is stated per connection (`RunCloses`, `ProxyCloses`), not across the accept loop.

## Findings

| source | as written | input that shows it | evidently intended | confidence | as-written member | corrected member |
|---|---|---|---|---|---|---|
| socks5.cpp:235-244 | `af` holds the pointer returned by `family(&authedip)` and is compared with the pointer `family(&client)`. Two distinct `sockAddress` objects never match, however equal their contents. | A client registered with maintained authentication reconnects from the same address. Its address is compared with the registered *copy* (`authenticatedClients.at(i)`), so it is not recognised and is not admitted with NO_AUTH. | Compare the family values `*family(...)`, as the reference `is_authed` does. | not executed | Socks5.AsWrittenRejectsCopies | Socks5.IsAuthenticated |
