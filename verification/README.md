# SOCKS5 handshake codec

A Dafny model of the server side of the SOCKS version 5 handshake in the
`socks5` proxy: the method-selection message (section 3 of RFC 1928), the
CONNECT request (sections 4 and 5) and the success reply (section 6), as
decoded and encoded by `src/server.rs`.

The client's bytes are an immutable `seq<Byte>` read through a cursor.
The reader behaves like a byte-slice reader. One `read` into a zeroed
buffer copies as many bytes as are left, up to the buffer length. Cells it
could not fill stay zero, and the read never fails. Each decoder returns
`Ok(value, next)` or `Err(error)`. Encoders return the bytes written.

- `stream.dfy` (module `Stream`): the byte type and the slice reader.
- `wire.dfy` (module `Wire`): ports, IPv4 and socket addresses, and the
  Rust integer operations the codec uses. `<<`, `>>`, `|`, `as u8` and
  `as u16` are written out over naturals. Bitwise OR is a recursive
  function, with a proved lemma that OR of non-overlapping bits is addition.
- `server.dfy` (module `Server`): `read_byte`, `read_version`,
  `read_methods`, `read_command`, `read_reserved`, `read_address`,
  `write_ack` and `write_reply`.
- `handshake.dfy` (module `Handshake`): the order in which `run` chains
  these steps on an accepted connection. `Greet` covers the greeting,
  `Request` covers the request, connect and reply, and `Negotiate`
  chains them.

`TcpStream::connect` and `local_addr` are a parameter
`dial: SocketAddr -> Connect`. It gives either the local address of the
outbound socket or `Unreachable`.

Behaviour of the code that the model keeps, including where it departs
from RFC 1928:

- On exhausted input, `read_byte` yields 0, not an error.
- A short read of the method list or of the six address bytes leaves the
  missing bytes zero. So a greeting `05 01` with no method byte is
  accepted, and a truncated address decodes with zero octets or port.
- Only the first listed method is looked at. No-auth later in the list is
  refused with `MethodNotSupported`. The `0xFF` "no acceptable methods"
  reply of section 3 of RFC 1928 is never written.
- A method count of 0 makes `methods[0]` index an empty vector. Rust
  panics there. The model reports it as the error `MethodIndexOutOfBounds`.
  RFC 1928 allows 1 to 255 methods, so such a greeting is malformed, but
  the code does not refuse it cleanly. The model follows the code.
- The reserved byte may hold any value.
- Only address type 1 (IPv4) is decoded. Domain names (3) and IPv6 (4)
  fail with `AddressTypeNotSupported`.
- A command other than CONNECT stops the handshake with only the
  method-selection reply written. The "command not supported" reply of
  section 6 of RFC 1928 is not sent.
- Every error in `run` is propagated with `?`, which ends `run` itself,
  not just the one connection. The model records where the handshake stops
  and what was written by then. What happens to the server afterwards
  belongs to the reactor, which is not modelled.

## Model

| member | source | states |
|---|---|---|
| Stream.Read | src/server.rs:126 | One read into an n-byte zeroed buffer: cell i holds input byte pos+i when it exists and 0 otherwise; the cursor moves by min(n, bytes left) |
| Stream.ReadAvailable | src/server.rs:97 | When n bytes are left, the read returns exactly those bytes and consumes exactly n |
| Stream.ReadExhausted | src/server.rs:166-170 | A read past the end consumes nothing and yields only zeros |
| Server.ReadByte | src/server.rs:166-170 | Never fails; gives the next byte and advances by one, or gives 0 without advancing on exhausted input |
| Server.ReadVersion | src/server.rs:85-91 | Succeeds exactly when a next byte exists and equals 5, consuming one byte; otherwise VersionNotSupported |
| Server.ReadMethods | src/server.rs:93-104 | Succeeds exactly when the count is nonzero and the first method is 0 or missing; on success returns method 0 and consumes 1 + min(N, bytes left). A zero or absent count is the index-out-of-bounds failure; a nonzero first method is MethodNotSupported |
| Server.ReadCommand | src/server.rs:106-112 | Succeeds exactly when the next byte exists and is 1 (CONNECT), consuming one byte; otherwise CommandNotSupported |
| Server.ReadReserved | src/server.rs:114-118 | Always succeeds, whatever the byte; consumes one byte when one is left |
| Server.ReadAddress | src/server.rs:120-133 | Succeeds exactly when the address type byte is 1; the address is the four following bytes and the port is byte5 * 256 + byte6, with bytes the read could not supply taken as 0; consumes 1 + min(6, bytes left). Any other type is AddressTypeNotSupported |
| Server.WriteAck | src/server.rs:135-140 | Writes two bytes, which a reader sees as version 5 followed by the selected method |
| Server.EncodeReply | src/server.rs:144-159 | Written exactly for an IPv4 bound address: ten bytes 5, 0, 0, 1, the four octets, then the port high byte and low byte. Any other address type writes nothing and fails with AddressTypeNotSupported |
| Server.WriteReply | src/server.rs:142-162 | A failed connect writes nothing (ConnectFailed); an IPv6 local address writes nothing (AddressTypeNotSupported); otherwise exactly ten bytes are written: 5, 0, 0, 1, the four octets of the local address, then its port high byte and low byte, and read_address on bytes 3 to 9 returns that local address |
| Server.ReplyRoundTrip | src/server.rs:120-159 | Decoding bytes 3 to 9 of an encoded reply with read_address recovers the bound address and port and stops at byte 10 |
| Server.LoopbackExample | src/server.rs:120-133 | The address field 01 7F 00 00 01 1F 90 decodes to 127.0.0.1:8080 |
| Server.BoundAddressExample | src/server.rs:144-159 | The reply for 10.0.0.5:5000 is 05 00 00 01 0A 00 00 05 13 88 and decodes back to 10.0.0.5:5000 |
| Wire.JoinPort | src/server.rs:129 | The port built from two bytes with a 16-bit shift and an OR is high * 256 + low |
| Wire.BitOrDisjoint | src/server.rs:129 | OR of a value whose low k bits are clear with a value below 2^k equals their sum |
| Wire.PortHigh | src/server.rs:155 | (port >> 8) as u8 is the high byte: high * 256 <= port < (high + 1) * 256 |
| Wire.PortLow | src/server.rs:156 | port as u8 is what remains of the port after the high byte |
| Wire.PortRoundTrip | src/server.rs:155-156 | Splitting a port into its two bytes and joining them gives the port back |
| Wire.PortBytesRoundTrip | src/server.rs:129 | Joining two bytes into a port and splitting it gives the two bytes back |
| Handshake.Greet | src/server.rs:53-54 | The method-selection message passes exactly when the version is 5, the count is nonzero and the first method is 0 or missing; it then selects no-auth and stops after min(N, bytes left) method bytes. A first byte other than 5 is VersionNotSupported |
| Handshake.Request | src/server.rs:57-61 | From a cursor, the request reaches a destination exactly when version 5, CONNECT, any reserved byte and address type 1 are present and the connect to the requested address gives an IPv4 local address. The destination is the address after the type byte, the cursor ends min(input length, start + 10), and the reply encodes the local address. Version 5 followed by another command is CommandNotSupported |
| Handshake.Negotiate | src/server.rs:53-61 | Nothing is written exactly when the greeting is refused; a handshake stopped after an accepted greeting has written exactly the ack 05 00 and no reply; a completed handshake writes twelve bytes starting 05 00 and consumes no more than the input |
| Handshake.NegotiateEstablished | src/server.rs:53-61 | The handshake completes exactly when greeting and request are accepted at their offsets (request version at N+2, CONNECT at N+3, type 1 at N+5) and the connect gives an IPv4 local address. It then connects to the address at N+6, consumes min(input length, N + 12) bytes, and writes the ack followed by the reply |
| Handshake.BadVersionWritesNothing | src/server.rs:53-54 | A first byte other than 5 stops the handshake with VersionNotSupported and nothing written |
| Handshake.OnlyConnectIsServed | src/server.rs:55-58 | After an accepted greeting, a command other than CONNECT stops with CommandNotSupported, and only the method-selection reply 05 00 is written |
| Handshake.TruncatedGreetingAccepted | src/server.rs:93-104 | The greeting 05 01 with its method byte missing is accepted and acknowledged; only the missing request then stops the handshake |
| Handshake.HandshakeLayout | src/server.rs:53-61 | In a full greeting followed by a CONNECT request, the request is found at index N + 2 and names the destination it was built from |
| Handshake.WellFormedHandshake | src/server.rs:53-61 | A full greeting listing no-auth first, then a CONNECT request for an IPv4 destination, followed by any bytes, reaches that destination. It consumes exactly 2 + N + 1 + 1 + 1 + 1 + 6 bytes and writes the ack and the reply |

## Left out

- The mio reactor in `run` (src/server.rs:30-51, 62-83) is not modelled. That covers polling, registration, the token table and token allocation. It is I/O multiplexing.
- The relay branch using `read_to_end` and `write_all` (src/server.rs:65-77) is socket plumbing and is not modelled.
- `TcpStream::connect` and `local_addr` are foreign network calls. They are the `dial` parameter of `Server.WriteReply` and `Handshake.Negotiate`.
- `Server::new` (src/server.rs:22-28) and `src/main.rs` are bootstrap code and are not modelled.
- Server.ReadByte: read errors are not modelled. A byte-slice reader never fails. A real non-blocking socket read can fail, for instance with "would block", and `?` would propagate that.
- Server.WriteAck: a `write` that accepts fewer bytes than offered is not modelled. The written bytes are the whole message.
- Server.WriteReply: the same holds for the reply's `write`. The model also gives no outbound socket back, only the bytes written.
- Handshake.Negotiate: the handshake is decoded from bytes already received. The code reads each field once and does not resume parsing when more bytes arrive later, so fragmentation across reads is not modelled.
- Domain-name and IPv6 destinations, non-zero reply codes, and choosing no-auth when it is not listed first are not implemented by the code. They are not modelled.
