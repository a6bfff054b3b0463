/** The TCP-level socket options (kernel/src/util/net/options/tcp.rs): the
    option names of Linux's `tcp.h` that the kernel knows, and the option
    object that `getsockopt`/`setsockopt` at level SOL_TCP works on. */
module TcpOptions {
  import opened Prelude

  /** `CTcpOptionName`, with the values of Linux's `tcp.h`. */
  datatype CTcpOptionName =
    | NODELAY | MAXSEG | CORK | KEEPIDLE | KEEPINTVL | DEFER_ACCEPT | WINDOW_CLAMP | CONGESTION

  /** The `i32` value of each name. */
  function NameValue(n: CTcpOptionName): (v: int)
    ensures 1 <= v <= 13
  {
    match n
    case NODELAY => 1
    case MAXSEG => 2
    case CORK => 3
    case KEEPIDLE => 4
    case KEEPINTVL => 5
    case DEFER_ACCEPT => 9
    case WINDOW_CLAMP => 10
    case CONGESTION => 13
  }

  /** The derived `TryFromInt`: the name with that value, or none. */
  function NameFromInt(v: int): (r: Option<CTcpOptionName>)
    ensures r.Some? ==> NameValue(r.value) == v
  {
    if v == 1 then Some(NODELAY)
    else if v == 2 then Some(MAXSEG)
    else if v == 3 then Some(CORK)
    else if v == 4 then Some(KEEPIDLE)
    else if v == 5 then Some(KEEPINTVL)
    else if v == 9 then Some(DEFER_ACCEPT)
    else if v == 10 then Some(WINDOW_CLAMP)
    else if v == 13 then Some(CONGESTION)
    else None
  }

  /** Every name is read back from its value, so no two names share one. */
  lemma NameValueRoundTrip(n: CTcpOptionName, m: CTcpOptionName)
    ensures NameFromInt(NameValue(n)) == Some(n)
    ensures NameValue(n) == NameValue(m) ==> n == m
  {
  }

  /** The option objects the kernel implements, each freshly created with no
      value yet (net/socket/ip/stream/options is not part of this model). */
  datatype TcpOption = NoDelay | MaxSegment | KeepIdle | DeferAccept | WindowClamp | Congestion

  /** The name an option object answers to. */
  function OptionName(o: TcpOption): (n: CTcpOptionName)
    ensures n != CORK && n != KEEPINTVL
  {
    match o
    case NoDelay => NODELAY
    case MaxSegment => MAXSEG
    case KeepIdle => KEEPIDLE
    case DeferAccept => DEFER_ACCEPT
    case WindowClamp => WINDOW_CLAMP
    case Congestion => CONGESTION
  }

  /** `new_tcp_option`: an unknown value and the known but unsupported CORK
      and KEEPINTVL all give ENOPROTOOPT; every other name its own option. */
  function NewTcpOption(name: int): (r: Result<TcpOption>)
    ensures r.Err? ==> r.error == ENOPROTOOPT
    ensures r.Ok? ==> NameValue(OptionName(r.value)) == name
  {
    var n :- if NameFromInt(name).Some? then Ok(NameFromInt(name).value) else Err(ENOPROTOOPT);
    match n
    case NODELAY => Ok(NoDelay)
    case MAXSEG => Ok(MaxSegment)
    case KEEPIDLE => Ok(KeepIdle)
    case DEFER_ACCEPT => Ok(DeferAccept)
    case WINDOW_CLAMP => Ok(WindowClamp)
    case CONGESTION => Ok(Congestion)
    case _ => Err(ENOPROTOOPT)
  }

  /** Every option object is created from the value of its name, and an
      integer gives an option exactly when it is the value of a supported
      name: 1, 2, 4, 9, 10 or 13. */
  lemma NewTcpOptionRoundTrip(o: TcpOption, name: int)
    ensures NewTcpOption(NameValue(OptionName(o))) == Ok(o)
    ensures NewTcpOption(name).Ok? <==> name in {1, 2, 4, 9, 10, 13}
  {
  }

  /** CORK (3) and KEEPINTVL (5) are names the kernel knows but refuses, as
      it refuses any integer that is not a name at all. */
  lemma UnsupportedNamesRefused(name: int)
    ensures NewTcpOption(NameValue(CORK)) == Err(ENOPROTOOPT)
    ensures NewTcpOption(NameValue(KEEPINTVL)) == Err(ENOPROTOOPT)
    ensures NameFromInt(name).None? ==> NewTcpOption(name) == Err(ENOPROTOOPT)
  {
  }
}
