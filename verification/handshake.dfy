/**
 * The order in which the server runs the handshake steps on a newly
 * accepted connection: version, methods, method-selection reply, version,
 * command, reserved byte, address, connect and success reply. The whole
 * input the client has sent is the byte sequence; decoding always starts at
 * its first byte.
 */
module Handshake {
  import opened Stream
  import opened Wire
  import opened Server

  /**
   * Where the handshake of one connection ends: either a destination
   * reached, with everything written to the client and the number of input
   * bytes consumed, or the error that stopped it, with what had been
   * written to the client before it.
   */
  datatype Session =
    | Established(dest: SocketAddr, written: seq<Byte>, consumed: nat)
    | Aborted(error: Error, written: seq<Byte>)

  /** A destination reached and the success reply written for it. */
  datatype Connection = Connection(dest: SocketAddr, reply: seq<Byte>)

  /** The method count N the client declared. */
  function MethodCount(s: seq<Byte>): Byte {
    ByteAt(s, 1)
  }

  /** The method-selection message passes: version 5, N > 0, first listed method (or the zero a short read leaves) is no-auth. */
  predicate GreetingAccepted(s: seq<Byte>) {
    0 < |s| && s[0] == 5 && MethodCount(s) > 0 && ByteAt(s, 2) == 0
  }

  /**
   * The request starting at `pos` passes decoding: version 5, CONNECT, any
   * reserved byte, IPv4 address type.
   */
  predicate RequestAt(s: seq<Byte>, pos: nat) {
    pos + 4 <= |s| && s[pos] == 5 && s[pos + 1] == 1 && s[pos + 3] == 1
  }

  /** The greeting passes and is followed by an accepted request at index N + 2. */
  predicate RequestAccepted(s: seq<Byte>) {
    GreetingAccepted(s) && RequestAt(s, MethodCount(s) + 2)
  }

  /** The destination the request asks for, read from index N + 6. */
  function RequestedAddress(s: seq<Byte>): SocketAddr {
    PaddedAddress(s, MethodCount(s) + 6)
  }

  /**
   * The greeting steps of `run` (version, then methods). It passes
   * exactly when `GreetingAccepted` holds; it then selects no-auth and stops
   * after the method list, or at the end of a shorter input.
   */
  function Greet(s: seq<Byte>): (r: Parsed<Byte>)
    ensures r.Ok? <==> GreetingAccepted(s)
    ensures r.Ok? ==> r.value == NoAuth && r.next == 2 + Min(MethodCount(s), |s| - 2)
    ensures 0 < |s| && s[0] != 5 ==> r == Err(VersionNotSupported)
  {
    match ReadVersion(s, 0)
    case Err(e) => Err(e)
    case Ok(_, afterVersion) => ReadMethods(s, afterVersion)
  }

  /**
   * The request steps of `run` (version, command, reserved byte, address,
   * then `write_reply`): the request from `pos` on, then the connect
   * and the success reply. It reaches a destination exactly when the
   * request decodes and the connect to the requested address yields an IPv4
   * local address; the reply then carries that local address.
   */
  function Request(s: seq<Byte>, pos: nat, dial: SocketAddr -> Connect): (r: Parsed<Connection>)
    ensures r.Ok? <==> RequestAt(s, pos) && dial(PaddedAddress(s, pos + 4)).Connected?
                                         && dial(PaddedAddress(s, pos + 4)).local.V4?
    ensures r.Ok? ==> r.value.dest == PaddedAddress(s, pos + 4) && r.next == Min(|s|, pos + 10)
    ensures r.Ok? ==> r.value.reply == EncodeReply(dial(r.value.dest).local).bytes
    ensures pos + 1 < |s| && s[pos] == 5 && s[pos + 1] != 1 ==> r == Err(CommandNotSupported)
  {
    match ReadVersion(s, pos)
    case Err(e) => Err(e)
    case Ok(_, afterVersion) =>
      match ReadCommand(s, afterVersion)
      case Err(e) => Err(e)
      case Ok(_, afterCommand) =>
        match ReadReserved(s, afterCommand)
        case Err(e) => Err(e)
        case Ok(_, afterReserved) =>
          match ReadAddress(s, afterReserved)
          case Err(e) => Err(e)
          case Ok(dest, afterAddress) =>
            match WriteReply(dest, dial)
            case NotWritten(e) => Err(e)
            case Written(reply) => Ok(Connection(dest, reply), afterAddress)
  }

  /**
   * The handshake steps of `run` in order, stopping at the first error.
   * Nothing is written before the method list is accepted; after that the
   * two-byte method-selection reply always is, and a handshake stopped
   * later writes nothing more.
   */
  function Negotiate(s: seq<Byte>, dial: SocketAddr -> Connect): (r: Session)
    ensures r.written == [] <==> !GreetingAccepted(s)
    ensures r.written != [] ==> |r.written| >= 2 && r.written[..2] == [5, 0]
    ensures r.Aborted? && GreetingAccepted(s) ==> r.written == WriteAck(NoAuth)
    ensures r.Established? ==> |r.written| == 12 && r.consumed <= |s|
  {
    match Greet(s)
    case Err(e) => Aborted(e, [])
    case Ok(selected, afterMethods) =>
      var ack := WriteAck(selected);
      match Request(s, afterMethods, dial)
      case Err(e) => Aborted(e, ack)
      case Ok(c, afterAddress) => Established(c.dest, ack + c.reply, afterAddress)
  }

  /**
   * The handshake reaches a destination exactly when the greeting and the
   * request are accepted and the connect to the requested address yields
   * an IPv4 local address; it then connects to the requested address,
   * consumes N + 12 bytes (or all input, if that is shorter), and writes the
   * method-selection reply followed by the success reply.
   */
  lemma NegotiateEstablished(s: seq<Byte>, dial: SocketAddr -> Connect)
    ensures Negotiate(s, dial).Established? <==>
              && RequestAccepted(s)
              && dial(RequestedAddress(s)).Connected?
              && dial(RequestedAddress(s)).local.V4?
    ensures Negotiate(s, dial).Established? ==>
              && Negotiate(s, dial).dest == RequestedAddress(s)
              && Negotiate(s, dial).consumed == Min(|s|, MethodCount(s) + 12)
              && Negotiate(s, dial).written == WriteAck(0) + EncodeReply(dial(RequestedAddress(s)).local).bytes
  {
    var n: nat := MethodCount(s);
    if GreetingAccepted(s) {
      var g := Greet(s);
      if g.next < n + 2 {
        assert !RequestAt(s, g.next);
        assert !RequestAt(s, n + 2);
      } else {
        assert g.next == n + 2;
      }
    }
  }

  /** A greeting whose version byte is not 5 closes the handshake with nothing written. */
  lemma BadVersionWritesNothing(s: seq<Byte>, dial: SocketAddr -> Connect)
    requires 0 < |s| && s[0] != 5
    ensures Negotiate(s, dial) == Aborted(VersionNotSupported, [])
  {
  }

  /** A command other than CONNECT after an accepted greeting stops the handshake with only the method-selection reply written. */
  lemma OnlyConnectIsServed(s: seq<Byte>, dial: SocketAddr -> Connect)
    requires GreetingAccepted(s)
    requires MethodCount(s) + 3 < |s| && s[MethodCount(s) + 2] == 5 && s[MethodCount(s) + 3] != 1
    ensures Negotiate(s, dial) == Aborted(CommandNotSupported, [5, 0])
  {
    assert Greet(s) == Ok(0, MethodCount(s) + 2);
  }

  /**
   * A greeting that declares one method but stops before listing it is
   * accepted, because the short read leaves the method byte zero: the
   * method-selection reply is written, and only the missing request
   * version then stops the handshake.
   */
  lemma TruncatedGreetingAccepted(dial: SocketAddr -> Connect)
    ensures Negotiate([5, 1], dial) == Aborted(VersionNotSupported, [5, 0])
  {
    var s: seq<Byte> := [5, 1];
    assert Greet(s) == Ok(0, 2);
    assert ReadVersion(s, 2) == Err(VersionNotSupported);
  }

  /** A method-selection message as a client sends it (RFC 1928 section 3). */
  function Greeting(methods: seq<Byte>): (g: seq<Byte>)
    requires |methods| < 256
    ensures |g| == 2 + |methods|
  {
    [5, |methods|] + methods
  }

  /** A CONNECT request for an IPv4 destination (RFC 1928 sections 4 and 5). */
  function ConnectRequest(reserved: Byte, dest: SocketAddr): (q: seq<Byte>)
    requires dest.V4?
    ensures |q| == 1 + 1 + 1 + 1 + 6
  {
    [5, 1, reserved, 1] + dest.ip.Octets() + [PortHigh(dest.port), PortLow(dest.port)]
  }

  /**
   * In a complete greeting followed by a CONNECT request, the request sits
   * at index N + 2 and names the destination it was built from.
   */
  lemma HandshakeLayout(methods: seq<Byte>, reserved: Byte, dest: SocketAddr, rest: seq<Byte>)
    requires 0 < |methods| < 256 && methods[0] == 0
    requires dest.V4?
    ensures var s := Greeting(methods) + ConnectRequest(reserved, dest) + rest;
            RequestAccepted(s) && RequestedAddress(s) == dest && |methods| + 12 <= |s|
  {
    var n := |methods|;
    var g := Greeting(methods);
    var q := ConnectRequest(reserved, dest);
    var s := g + q + rest;
    assert forall i :: 0 <= i < n + 2 ==> s[i] == g[i];
    assert forall j :: 0 <= j < 10 ==> s[n + 2 + j] == q[j];
    assert MethodCount(s) == n && s[0] == 5 && s[2] == methods[0];
    assert RequestAt(s, n + 2);
    assert RequestedAddress(s) == V4(dest.ip, JoinPort(PortHigh(dest.port), PortLow(dest.port)));
    PortRoundTrip(dest.port);
  }

  /**
   * A complete greeting listing no-auth first, followed by a CONNECT
   * request for an IPv4 destination, is decoded to that destination and
   * consumes exactly 2 + N + 1 + 1 + 1 + 1 + 6 bytes, whatever follows it.
   */
  lemma WellFormedHandshake(methods: seq<Byte>, reserved: Byte, dest: SocketAddr, rest: seq<Byte>,
                            dial: SocketAddr -> Connect)
    requires 0 < |methods| < 256 && methods[0] == 0
    requires dest.V4? && dial(dest).Connected? && dial(dest).local.V4?
    ensures Negotiate(Greeting(methods) + ConnectRequest(reserved, dest) + rest, dial)
              == Established(dest, WriteAck(0) + EncodeReply(dial(dest).local).bytes, 2 + |methods| + 1 + 1 + 1 + 1 + 6)
  {
    var s := Greeting(methods) + ConnectRequest(reserved, dest) + rest;
    HandshakeLayout(methods, reserved, dest, rest);
    NegotiateEstablished(s, dial);
  }
}
