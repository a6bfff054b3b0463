/** Signal numbers, signal actions and the per-process disposition table, as
    far as `execve`, `rt_sigaction` and `enqueue_signal` consult them. The files
    that define these types (sig_num.rs, sig_action.rs, sig_disposition.rs) are
    not part of this model: their behaviour is stated here as those three
    callers rely on it. */
module Signals {
  import opened Prelude

  /** A valid signal number: 1 to 64 (standard and real-time signals). */
  type SigNum = x: int | 1 <= x <= 64 witness 1

  const SIGKILL: SigNum := 9
  const SIGCHLD: SigNum := 17
  const SIGSTOP: SigNum := 19
  const SIGURG: SigNum := 23
  const SIGWINCH: SigNum := 28

  /** `SigNum::try_from(u8)`: numbers outside 1..=64 are rejected with EINVAL. */
  function SigNumFrom(raw: byte): (r: Result<SigNum>)
    ensures r.Ok? <==> 1 <= raw <= 64
    ensures r.Ok? ==> r.value == raw
    ensures r.Err? ==> r.error == EINVAL
  {
    if 1 <= raw <= 64 then Ok(raw) else Err(EINVAL)
  }

  /** A signal action: the default one, "ignore", or a user handler. */
  datatype SigAction = Dfl | Ign | User(handler: Vaddr, flags: u32, restorer: Vaddr, mask: set<SigNum>)

  /** Signals whose default action is to ignore them. */
  predicate DefaultIgnored(s: SigNum) {
    s == SIGCHLD || s == SIGURG || s == SIGWINCH
  }

  /** `SigAction::will_ignore`: the action is "ignore", or it is the default
      action of a signal that is ignored by default. */
  predicate WillIgnore(a: SigAction, s: SigNum) {
    a.Ign? || (a.Dfl? && DefaultIgnored(s))
  }

  /** The per-process table of signal actions; a signal with no entry has the
      default action. */
  datatype SigDispositions = SigDispositions(actions: map<SigNum, SigAction>) {
    function Get(s: SigNum): SigAction {
      if s in actions then actions[s] else Dfl
    }

    function Set(s: SigNum, a: SigAction): (d: SigDispositions)
      ensures d.Get(s) == a
      ensures forall t :: t != s ==> d.Get(t) == Get(t)
    {
      SigDispositions(actions[s := a])
    }

    /** `SigDispositions::inherit`, applied by `execve`: every user handler
        becomes the default action, and "ignore" and "default" are kept. */
    function Inherit(): (d: SigDispositions)
      ensures forall s :: !d.Get(s).User?
      ensures forall s :: !Get(s).User? ==> d.Get(s) == Get(s)
    {
      SigDispositions(map s | s in actions :: if actions[s].User? then Dfl else actions[s])
    }
  }

  const DefaultDispositions: SigDispositions := SigDispositions(map[])
}
