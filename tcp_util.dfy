/** TCP socket option values (kernel/src/net/socket/ip/stream/util.rs): the
    option set a new TCP socket starts with, the conversion between seconds
    and retransmission counts that TCP_DEFER_ACCEPT uses, and the names of
    the congestion-control algorithms. */
module TcpUtil {
  import opened Prelude

  // ---------------------------------------------------------------------
  // Retransmission counts and seconds
  // ---------------------------------------------------------------------

  const HZ: nat := 100
  /** The initial retransmission timeout, in ticks. */
  const TCP_TIMEOUT_INIT: nat := HZ
  /** The largest retransmission timeout, in ticks. */
  const TCP_RTO_MAX: nat := 120 * HZ
  /** The two timeouts in seconds. */
  const INIT_SECS: nat := 1
  const RTO_MAX_SECS: nat := 120

  lemma TimeoutsInSeconds()
    ensures INIT_SECS == TCP_TIMEOUT_INIT / HZ && RTO_MAX_SECS == TCP_RTO_MAX / HZ
  {
  }

  /** The largest retransmission count a `u8` holds. */
  const MAX_RETRANS: nat := 255

  /** A number of retransmissions, a `u8`. */
  datatype Retrans = Retrans(count: byte)

  /** The timeout, in seconds, before retransmission `k` (from 1): one second
      first, then doubling up to the cap of 120 seconds. */
  function Timeout(k: nat): (t: nat)
    requires k >= 1
    ensures 1 <= t <= RTO_MAX_SECS
  {
    if k == 1 then INIT_SECS
    else if 2 * Timeout(k - 1) > RTO_MAX_SECS then RTO_MAX_SECS
    else 2 * Timeout(k - 1)
  }

  /** The seconds that `r` retransmissions span: the sum of their timeouts. */
  function Period(r: nat): nat {
    if r == 0 then 0 else Period(r - 1) + Timeout(r)
  }

  /** More retransmissions span strictly more seconds. */
  lemma {:induction false} PeriodIncreasing(a: nat, b: nat)
    requires a < b
    ensures Period(a) < Period(b)
    decreases b
  {
    if a < b - 1 {
      PeriodIncreasing(a, b - 1);
    }
  }

  /** What `from_secs` computes, as a property of the count `r` for `s`
      seconds: no retransmission for 0 seconds, otherwise the fewest
      retransmissions (at least one, at most 255) whose period covers the
      seconds, or 255 when no count up to 255 does. */
  ghost predicate RetransFor(s: nat, r: nat) {
    if s == 0 then r == 0
    else
      && 1 <= r <= MAX_RETRANS
      && (r == MAX_RETRANS || s <= Period(r))
      && (r == 1 || Period(r - 1) < s)
  }

  /** Of two counts with the properties of `RetransFor`, neither is below
      the other. */
  lemma {:induction false} CountNotBelow(s: nat, m: nat, k: nat)
    requires 1 <= m <= MAX_RETRANS && 1 <= k <= MAX_RETRANS
    requires m == 1 || Period(m - 1) < s
    requires k == MAX_RETRANS || s <= Period(k)
    ensures m <= k
  {
    if k < m - 1 {
      PeriodIncreasing(k, m - 1);
    }
  }

  /** `RetransFor` names one count for each number of seconds. */
  lemma {:induction false} RetransForUnique(s: nat, m: nat, k: nat)
    requires RetransFor(s, m) && RetransFor(s, k)
    ensures m == k
  {
    if s > 0 {
      CountNotBelow(s, m, k);
      CountNotBelow(s, k, m);
    }
  }

  /** `Retrans::from_secs`. */
  method FromSecs(seconds: u32) returns (r: Retrans)
    ensures RetransFor(seconds, r.count)
  {
    if seconds == 0 {
      return Retrans(0);
    }
    var timeout: nat := INIT_SECS;
    var rtoMax: nat := RTO_MAX_SECS;
    var period: nat := timeout;
    var res: nat := 1;
    while seconds > period && res < MAX_RETRANS
      invariant 1 <= res <= MAX_RETRANS
      invariant timeout == Timeout(res) && period == Period(res)
      invariant res == 1 || Period(res - 1) < seconds
    {
      res := res + 1;
      timeout := timeout * 2;
      if timeout > rtoMax {
        timeout := rtoMax;
      }
      period := period + timeout;
    }
    r := Retrans(res);
  }

  /** `Retrans::to_secs`. */
  method ToSecs(r: Retrans) returns (seconds: nat)
    ensures seconds == Period(r.count)
  {
    var retrans: nat := r.count;
    if retrans == 0 {
      return 0;
    }
    var timeout: nat := INIT_SECS;
    var rtoMax: nat := RTO_MAX_SECS;
    var period: nat := timeout;
    while retrans > 1
      invariant 1 <= retrans <= r.count
      invariant timeout == Timeout(r.count - retrans + 1)
      invariant period == Period(r.count - retrans + 1)
    {
      retrans := retrans - 1;
      timeout := timeout * 2;
      if timeout > rtoMax {
        timeout := rtoMax;
      }
      period := period + timeout;
    }
    seconds := period;
  }

  /** Counts and seconds form a Galois connection below the cap: `s`
      seconds need at most `r` retransmissions exactly when `r`
      retransmissions span at least `s` seconds. */
  lemma {:induction false} RetransGalois(s: nat, m: nat, r: nat)
    requires s > 0 && RetransFor(s, m)
    requires 1 <= r < MAX_RETRANS
    ensures m <= r <==> s <= Period(r)
  {
    if m < r {
      PeriodIncreasing(m, r);
    } else if r < m - 1 {
      PeriodIncreasing(r, m - 1);
    }
  }

  /** Converting a count to seconds and back gives the count, and below the
      cap the count found for `s` seconds spans at least `s` seconds. */
  lemma {:induction false} RetransRoundTrip(r: nat, s: nat, m: nat)
    requires r <= MAX_RETRANS
    requires RetransFor(s, m)
    ensures RetransFor(Period(r), r)
    ensures s <= Period(MAX_RETRANS) ==> s <= Period(m)
  {
    if r > 1 {
      PeriodIncreasing(r - 1, r);
    }
    if 0 < s <= Period(MAX_RETRANS) && m == MAX_RETRANS {
      assert s <= Period(m);
    }
  }

  /** The values that `setsockopt` and `getsockopt` of TCP_DEFER_ACCEPT
      round to: 100 seconds read back as 127, 511 as 607, 16 as 31. */
  lemma DeferAcceptExamples()
    ensures RetransFor(100, 7) && Period(7) == 127
    ensures RetransFor(511, 11) && Period(11) == 607
    ensures RetransFor(16, 5) && Period(5) == 31
  {
    assert Period(4) == 15 && Period(5) == 31 && Timeout(7) == 64;
    assert Period(6) == 63 && Period(7) == 127 && Timeout(8) == 120;
    assert Period(8) == 247 && Period(9) == 367 && Period(10) == 487 && Period(11) == 607;
  }

  // ---------------------------------------------------------------------
  // Congestion control
  // ---------------------------------------------------------------------

  datatype CongestionControl = Reno | Cubic

  /** `CongestionControl::name`. */
  function Name(c: CongestionControl): string {
    match c
    case Reno => "reno"
    case Cubic => "cubic"
  }

  /** `CongestionControl::new`: the algorithm of that name, EINVAL for any
      other name. */
  function NewCongestionControl(name: string): (r: Result<CongestionControl>)
    ensures r.Err? ==> r.error == EINVAL
  {
    if name == "reno" then Ok(Reno)
    else if name == "cubic" then Ok(Cubic)
    else Err(EINVAL)
  }

  /** `new` and `name` are inverse: each algorithm is found by its name, and
      a name is accepted exactly when it is the name of an algorithm. */
  lemma CongestionNameRoundTrip(c: CongestionControl, name: string)
    ensures NewCongestionControl(Name(c)) == Ok(c)
    ensures NewCongestionControl(name).Ok? <==> name == Name(Reno) || name == Name(Cubic)
    ensures NewCongestionControl(name).Ok? ==> Name(NewCongestionControl(name).value) == name
  {
  }

  // ---------------------------------------------------------------------
  // The option set of a TCP socket
  // ---------------------------------------------------------------------

  const DEFAULT_MAXSEG: u32 := 536
  const DEFAULT_KEEP_IDLE: u32 := 7200
  const DEFAULT_WINDOW_CLAMP: u32 := 0x8000_0000

  datatype TcpOptionSet = TcpOptionSet(
    noDelay: bool, maxseg: u32, keepIdle: u32, deferAccept: Retrans, windowClamp: u32,
    congestion: CongestionControl)

  /** `TcpOptionSet::new`. */
  const NEW_OPTION_SET: TcpOptionSet :=
    TcpOptionSet(false, DEFAULT_MAXSEG, DEFAULT_KEEP_IDLE, Retrans(0), DEFAULT_WINDOW_CLAMP, Reno)

  /** A new socket defers accepting by no time at all, the value that
      setting 0 seconds stores, and uses Reno. */
  lemma NewOptionSetDefaults()
    ensures Period(NEW_OPTION_SET.deferAccept.count) == 0
    ensures RetransFor(0, NEW_OPTION_SET.deferAccept.count)
    ensures NEW_OPTION_SET.congestion == NewCongestionControl("reno").value
    ensures !NEW_OPTION_SET.noDelay && NEW_OPTION_SET.maxseg == 536 && NEW_OPTION_SET.keepIdle == 7200
    ensures NEW_OPTION_SET.windowClamp == 0x8000_0000
  {
  }
}
