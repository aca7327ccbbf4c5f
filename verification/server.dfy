/**
 * The SOCKS5 (RFC 1928) handshake steps of the server: the decoders that
 * read the method-selection message (section 3) and the CONNECT request
 * (sections 4 and 5), and the encoders for the method-selection reply and
 * the success reply (section 6). Every decoder takes the input and a
 * cursor and returns the decoded value with the cursor after it, or the
 * error the server reports.
 */
module Server {
  import opened Stream
  import opened Wire

  /** The failures the handshake steps report. */
  datatype Error =
    | VersionNotSupported
    | MethodNotSupported
      /** `methods[0]` on an empty method list: the server panics. */
    | MethodIndexOutOfBounds
    | CommandNotSupported
    | AddressTypeNotSupported
      /** The outbound connect (or the query of its local address) failed. */
    | ConnectFailed

  /** A decoded value and the cursor after it, or an error. */
  datatype Parsed<+T> = Ok(value: T, next: nat) | Err(error: Error)

  /** An encoded message, or the error that stopped it being written. */
  datatype Encoded = Written(bytes: seq<Byte>) | NotWritten(error: Error)

  /** SOCKS protocol version. */
  const SocksVersion: Byte := 5
  /** Method "no authentication required". */
  const NoAuth: Byte := 0
  /** Command CONNECT. */
  const CmdConnect: Byte := 1
  /** Address type IPv4. */
  const AtypIpv4: Byte := 1
  /** Reply field "succeeded". */
  const RepSucceeded: Byte := 0

  /**
   * `read_byte`: one read into a one-byte buffer. It never fails; on
   * exhausted input it yields 0 and leaves the cursor where it was.
   */
  function ReadByte(s: seq<Byte>, pos: nat): (r: Parsed<Byte>)
    ensures r.Ok?
    ensures pos < |s| ==> r == Ok(s[pos], pos + 1)
    ensures |s| <= pos ==> r == Ok(0, pos)
  {
    var f := Read(s, pos, 1);
    Ok(f.buf[0], f.next)
  }

  /** `read_version`: accepts exactly version 5, consuming its byte. */
  function ReadVersion(s: seq<Byte>, pos: nat): (r: Parsed<()>)
    ensures r.Ok? <==> pos < |s| && s[pos] == 5
    ensures r.Ok? ==> r.next == pos + 1
    ensures r.Err? ==> r.error == VersionNotSupported
  {
    match ReadByte(s, pos)
    case Err(e) => Err(e)
    case Ok(v, next) => if v != SocksVersion then Err(VersionNotSupported) else Ok((), next)
  }

  /**
   * `read_methods`: reads the count N, then one read of N method bytes.
   * Only the first listed method is looked at; a short read leaves the
   * missing methods zero.
   */
  function ReadMethods(s: seq<Byte>, pos: nat): (r: Parsed<Byte>)
    ensures r.Ok? <==> ByteAt(s, pos) > 0 && ByteAt(s, pos + 1) == 0
    ensures r.Ok? ==> r.value == NoAuth
    ensures r.Ok? ==> pos < |s| && r.next == pos + 1 + Min(s[pos], |s| - (pos + 1))
    ensures r == Err(MethodIndexOutOfBounds) <==> ByteAt(s, pos) == 0
    ensures r == Err(MethodNotSupported) <==> ByteAt(s, pos) > 0 && ByteAt(s, pos + 1) != 0
  {
    match ReadByte(s, pos)
    case Err(e) => Err(e)
    case Ok(n, afterCount) =>
      var methods := Read(s, afterCount, n);
      if |methods.buf| == 0 then Err(MethodIndexOutOfBounds)
      else if methods.buf[0] != NoAuth then Err(MethodNotSupported)
      else Ok(NoAuth, methods.next)
  }

  /** `read_command`: accepts exactly CONNECT, consuming its byte. */
  function ReadCommand(s: seq<Byte>, pos: nat): (r: Parsed<()>)
    ensures r.Ok? <==> pos < |s| && s[pos] == 1
    ensures r.Ok? ==> r.next == pos + 1
    ensures r.Err? ==> r.error == CommandNotSupported
  {
    match ReadByte(s, pos)
    case Err(e) => Err(e)
    case Ok(cmd, next) => if cmd != CmdConnect then Err(CommandNotSupported) else Ok((), next)
  }

  /** `read_reserved`: accepts any value, consuming one byte when there is one. */
  function ReadReserved(s: seq<Byte>, pos: nat): (r: Parsed<()>)
    ensures r.Ok?
    ensures r.next == pos + Min(1, Remaining(s, pos))
  {
    match ReadByte(s, pos)
    case Err(e) => Err(e)
    case Ok(_, next) => Ok((), next)
  }

  /**
   * The IPv4 socket address held in six bytes starting at index `i`, read
   * as a zero-initialised buffer: four octets, then the port in network
   * byte order (RFC 1928 section 5).
   */
  function PaddedAddress(s: seq<Byte>, i: nat): (a: SocketAddr)
    ensures a.V4?
  {
    V4(Ipv4(ByteAt(s, i), ByteAt(s, i + 1), ByteAt(s, i + 2), ByteAt(s, i + 3)),
       (ByteAt(s, i + 4) as int) * 256 + ByteAt(s, i + 5))
  }

  /**
   * `read_address`: the address type must be IPv4; then one read of six
   * bytes gives the four octets and the big-endian port, any bytes the read
   * could not supply being zero.
   */
  function ReadAddress(s: seq<Byte>, pos: nat): (r: Parsed<SocketAddr>)
    ensures r.Ok? <==> pos < |s| && s[pos] == 1
    ensures r.Err? ==> r.error == AddressTypeNotSupported
    ensures r.Ok? ==> r.next == pos + 1 + Min(6, |s| - (pos + 1))
    ensures r.Ok? ==> r.value == PaddedAddress(s, pos + 1)
  {
    match ReadByte(s, pos)
    case Err(e) => Err(e)
    case Ok(atyp, afterType) =>
      if atyp != AtypIpv4 then Err(AddressTypeNotSupported)
      else
        var field := Read(s, afterType, 6);
        var b := field.buf;
        Ok(V4(Ipv4(b[0], b[1], b[2], b[3]), JoinPort(b[4], b[5])), field.next)
  }

  /**
   * `write_ack`: the method-selection reply. A client reading it back sees
   * version 5 followed by the selected method, and nothing more.
   */
  function WriteAck(selected: Byte): (w: seq<Byte>)
    ensures |w| == 2
    ensures ReadVersion(w, 0) == Ok((), 1)
    ensures ReadByte(w, 1) == Ok(selected, 2)
  {
    [SocksVersion, selected]
  }

  /**
   * The reply-building half of `write_reply`: VER, REP = succeeded, RSV,
   * then the bound address. Only an IPv4 bound address can be encoded; for
   * any other nothing is written.
   */
  function EncodeReply(bound: SocketAddr): (r: Encoded)
    ensures r.Written? <==> bound.V4?
    ensures r.NotWritten? ==> r.error == AddressTypeNotSupported
    ensures r.Written? ==> |r.bytes| == 10 && r.bytes[..4] == [5, 0, 0, 1]
    ensures r.Written? ==> r.bytes[4..8] == bound.ip.Octets()
    ensures r.Written? ==> (r.bytes[8] as int) * 256 + r.bytes[9] == bound.port
  {
    match bound
    case V4(ip, port) =>
      Written([SocksVersion, RepSucceeded, 0, AtypIpv4] + ip.Octets() + [PortHigh(port), PortLow(port)])
    case V6(_, _) => NotWritten(AddressTypeNotSupported)
  }

  /** The outcome of `TcpStream::connect` followed by `local_addr`. */
  datatype Connect = Connected(local: SocketAddr) | Unreachable

  /**
   * `write_reply`: connect to the requested destination (`dial` stands for
   * the connect and the local-address query), then encode the reply around
   * the address the outbound socket is bound to.
   */
  function WriteReply(dest: SocketAddr, dial: SocketAddr -> Connect): (r: Encoded)
    ensures r.Written? <==> dial(dest).Connected? && dial(dest).local.V4?
    ensures dial(dest).Unreachable? ==> r == NotWritten(ConnectFailed)
    ensures dial(dest).Connected? && dial(dest).local.V6? ==> r == NotWritten(AddressTypeNotSupported)
    ensures r.Written? ==> |r.bytes| == 10 && r.bytes[..4] == [5, 0, 0, 1]
    ensures r.Written? ==> r.bytes[4..8] == dial(dest).local.ip.Octets()
    ensures r.Written? ==> (r.bytes[8] as int) * 256 + r.bytes[9] == dial(dest).local.port
    ensures r.Written? ==> ReadAddress(r.bytes, 3) == Ok(dial(dest).local, 10)
  {
    match dial(dest)
    case Unreachable => NotWritten(ConnectFailed)
    case Connected(local) => ReplyRoundTrip(local); EncodeReply(local)
  }

  /**
   * Bytes 3 to 9 of an encoded reply, read back with `read_address`, give
   * the bound address that was encoded, and consume exactly those bytes.
   */
  lemma ReplyRoundTrip(bound: SocketAddr)
    ensures EncodeReply(bound).Written? ==> ReadAddress(EncodeReply(bound).bytes, 3) == Ok(bound, 10)
  {
    match bound
    case V6(_, _) =>
    case V4(ip, port) =>
      var w := EncodeReply(bound).bytes;
      assert w == [5, 0, 0, 1, ip.a, ip.b, ip.c, ip.d, PortHigh(port), PortLow(port)];
      var r := ReadAddress(w, 3);
      assert r.next == 10;
      assert r.value == PaddedAddress(w, 4);
  }

  /** The address field `01 7F 00 00 01 1F 90` decodes to 127.0.0.1:8080. */
  lemma LoopbackExample()
    ensures ReadAddress([1, 0x7F, 0, 0, 1, 0x1F, 0x90], 0) == Ok(V4(Ipv4(127, 0, 0, 1), 8080), 7)
  {
  }

  /** A reply for a socket bound at 10.0.0.5:5000 decodes back to 10.0.0.5:5000. */
  lemma BoundAddressExample()
    ensures EncodeReply(V4(Ipv4(10, 0, 0, 5), 5000)) == Written([5, 0, 0, 1, 10, 0, 0, 5, 0x13, 0x88])
    ensures ReadAddress(EncodeReply(V4(Ipv4(10, 0, 0, 5), 5000)).bytes, 3) == Ok(V4(Ipv4(10, 0, 0, 5), 5000), 10)
  {
    ReplyRoundTrip(V4(Ipv4(10, 0, 0, 5), 5000));
  }
}
