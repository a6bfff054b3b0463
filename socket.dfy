/** The `socket` system call (services/libs/jinux-std/src/syscall/socket.rs):
    the socket type word split into a type and flags, the choice of socket
    by address family, type and protocol, and the new socket's descriptor. */
module Socket {
  import opened Prelude
  import opened Files

  // The values of Linux's socket headers.
  const AF_UNIX: int := 1
  const AF_INET: int := 2
  const AF_INET6: int := 10
  const SOCK_STREAM: int := 1
  const SOCK_DGRAM: int := 2
  const IPPROTO_IP: int := 0
  const IPPROTO_TCP: int := 6
  const IPPROTO_UDP: int := 17

  /** `SOCK_TYPE_MASK` is 0xf: the type is the low four bits of the word,
      the word modulo 16. */
  const SOCK_TYPE_MODULUS: nat := 16
  /** The bit of `SOCK_NONBLOCK` (0x800) and of `SOCK_CLOEXEC` (0x8_0000). */
  const SOCK_NONBLOCK_BIT: nat := 11
  const SOCK_CLOEXEC_BIT: nat := 19

  /** The address families, socket types and protocols `sys_socket` tells
      apart; every other value the kernel knows is one of the `Other`
      cases. */
  datatype SaFamily = Unix | Inet | Inet6 | OtherFamily(rawFamily: int)
  datatype SockType = Stream | Dgram | OtherType(rawType: int)
  datatype Protocol = Ip | Tcp | Udp | OtherProtocol(rawProtocol: int)

  /** `SaFamily::try_new`, `SockType::try_new` and `Protocol::try_new`
      (util/net is not part of this model): each refuses the values its
      enum does not list. */
  datatype Decoders = Decoders(
    family: int -> Result<SaFamily>, sockType: int -> Result<SockType>, protocol: int -> Result<Protocol>)

  /** The decoders read Linux's values, and only those, as the cases the
      call tells apart. */
  ghost predicate Agrees(d: Decoders) {
    && (forall raw :: d.family(raw) == Ok(Unix) <==> raw == AF_UNIX)
    && (forall raw :: d.family(raw) == Ok(Inet) <==> raw == AF_INET)
    && (forall raw :: d.family(raw) == Ok(Inet6) <==> raw == AF_INET6)
    && (forall raw :: d.sockType(raw) == Ok(Stream) <==> raw == SOCK_STREAM)
    && (forall raw :: d.sockType(raw) == Ok(Dgram) <==> raw == SOCK_DGRAM)
    && (forall raw :: d.protocol(raw) == Ok(Ip) <==> raw == IPPROTO_IP)
    && (forall raw :: d.protocol(raw) == Ok(Tcp) <==> raw == IPPROTO_TCP)
    && (forall raw :: d.protocol(raw) == Ok(Udp) <==> raw == IPPROTO_UDP)
  }

  /** `type_ & SOCK_TYPE_MASK` on the two's-complement `i32`. */
  function TypeOf(type_: int): (t: int)
    ensures 0 <= t < SOCK_TYPE_MODULUS
    ensures (type_ - t) % SOCK_TYPE_MODULUS == 0
  {
    type_ % SOCK_TYPE_MODULUS
  }

  /** `SockFlags::from_bits_truncate(type_ & !SOCK_TYPE_MASK)
      .contains(SOCK_NONBLOCK)`: bit 11 of the word, every unknown bit
      dropped. */
  predicate NonBlocking(type_: int) {
    BitSet(type_ % U32_LIMIT, SOCK_NONBLOCK_BIT)
  }

  /** The socket that the family, type and protocol select: a Unix stream
      socket for AF_UNIX streams of any protocol, a TCP stream socket for
      IPv4 or IPv6 streams of protocol IP or TCP, a UDP datagram socket for
      IPv4 or IPv6 datagrams of protocol IP or UDP, EAFNOSUPPORT otherwise. */
  function SocketKindFor(f: SaFamily, t: SockType, p: Protocol): (r: Result<SocketKind>)
    ensures r.Err? ==> r.error == EAFNOSUPPORT
  {
    match (f, t, p)
    case (Unix, Stream, _) => Ok(UnixStream)
    case (Inet, Stream, Ip) => Ok(TcpStream)
    case (Inet, Stream, Tcp) => Ok(TcpStream)
    case (Inet6, Stream, Ip) => Ok(TcpStream)
    case (Inet6, Stream, Tcp) => Ok(TcpStream)
    case (Inet, Dgram, Ip) => Ok(UdpDatagram)
    case (Inet, Dgram, Udp) => Ok(UdpDatagram)
    case (Inet6, Dgram, Ip) => Ok(UdpDatagram)
    case (Inet6, Dgram, Udp) => Ok(UdpDatagram)
    case _ => Err(EAFNOSUPPORT)
  }

  /** The file `sys_socket` creates, or its error: the family, the type and
      the protocol are decoded in that order, and the first refusal is the
      error. */
  function SocketFile(domain: int, type_: int, protocol: int, d: Decoders): (r: Result<File>)
    ensures r.Ok? ==> r.value.Socket?
    ensures d.family(domain).Err? ==> r == Err(d.family(domain).error)
    ensures d.family(domain).Ok? && d.sockType(TypeOf(type_)).Err? ==> r == Err(d.sockType(TypeOf(type_)).error)
  {
    var f :- d.family(domain);
    var t :- d.sockType(TypeOf(type_));
    var p :- d.protocol(protocol);
    var kind :- SocketKindFor(f, t, p);
    Ok(Socket(kind, NonBlocking(type_)))
  }

  /** `sys_socket`: the new socket takes the lowest free descriptor, which
      is returned; on an error the table is untouched. The descriptor is
      never close-on-exec: SOCK_CLOEXEC is dropped with the other flags. */
  method SysSocket(domain: int, type_: int, protocol: int, d: Decoders, table: FileTable)
    returns (r: Result<SyscallReturn>)
    modifies table
    ensures SocketFile(domain, type_, protocol, d).Err? ==>
              r == Err(SocketFile(domain, type_, protocol, d).error) && table.entries == old(table.entries)
    ensures SocketFile(domain, type_, protocol, d).Ok? ==>
              && r.Ok? && r.value.Return? && r.value.code >= 0
              && r.value.code !in old(table.entries)
              && (forall j :: 0 <= j < r.value.code ==> j in old(table.entries))
              && table.entries == old(table.entries)[r.value.code := FileEntry(SocketFile(domain, type_, protocol, d).value, false)]
  {
    var family :- d.family(domain);
    var sockType :- d.sockType(TypeOf(type_));
    var proto :- d.protocol(protocol);
    var nonblocking := NonBlocking(type_);
    var kind :- SocketKindFor(family, sockType, proto);
    var fd := table.Insert(Socket(kind, nonblocking), false);
    r := Ok(Return(fd));
  }

  /** With decoders that read Linux's values, the call succeeds exactly for
      the three supported combinations, and the socket is of the kind the
      combination names. */
  lemma SupportedCombinations(domain: int, type_: int, protocol: int, d: Decoders)
    requires Agrees(d)
    requires d.family(domain).Ok? && d.sockType(TypeOf(type_)).Ok? && d.protocol(protocol).Ok?
    ensures var r := SocketFile(domain, type_, protocol, d);
            var t := TypeOf(type_);
            && (r.Ok? <==>
                  || (domain == AF_UNIX && t == SOCK_STREAM)
                  || ((domain == AF_INET || domain == AF_INET6) && t == SOCK_STREAM
                      && (protocol == IPPROTO_IP || protocol == IPPROTO_TCP))
                  || ((domain == AF_INET || domain == AF_INET6) && t == SOCK_DGRAM
                      && (protocol == IPPROTO_IP || protocol == IPPROTO_UDP)))
            && (r.Ok? ==> r.value.kind == (if domain == AF_UNIX then UnixStream
                                           else if t == SOCK_STREAM then TcpStream else UdpDatagram))
            && (r.Err? ==> r.error == EAFNOSUPPORT)
  {
  }

  /** The socket is non-blocking exactly when the word has SOCK_NONBLOCK;
      the flag bits never change the type, and a word whose type bits and
      SOCK_NONBLOCK bit agree gives the same socket, so SOCK_CLOEXEC and any
      unknown flag bit make no difference. */
  lemma FlagsOnlyNonblock(domain: int, type_: int, other: int, protocol: int, d: Decoders)
    requires TypeOf(other) == TypeOf(type_) && NonBlocking(other) == NonBlocking(type_)
    ensures SocketFile(domain, type_, protocol, d).Ok? ==>
              (SocketFile(domain, type_, protocol, d).value.nonblocking <==> NonBlocking(type_))
    ensures SocketFile(domain, other, protocol, d) == SocketFile(domain, type_, protocol, d)
  {
  }

  /** SOCK_STREAM with SOCK_NONBLOCK and SOCK_CLOEXEC set is still a
      stream, non-blocking; without SOCK_NONBLOCK it blocks. */
  lemma StreamWordExamples()
    ensures TypeOf(SOCK_STREAM + 0x800 + 0x8_0000) == SOCK_STREAM && NonBlocking(SOCK_STREAM + 0x800 + 0x8_0000)
    ensures TypeOf(SOCK_STREAM + 0x8_0000) == SOCK_STREAM && !NonBlocking(SOCK_STREAM + 0x8_0000)
  {
    assert Pow2(11) == 0x800;
  }
}
