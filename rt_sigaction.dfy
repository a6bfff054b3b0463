/** The `rt_sigaction` system call (kernel/src/syscall/rt_sigaction.rs):
    query or replace the action of one signal in the process's disposition
    table. Installing an action that ignores the signal discards its pending
    instances in every thread; installing any other action may wake the
    threads that can now take it. */
module RtSigaction {
  import opened Prelude
  import opened Signals
  import opened PosixThreads
  import opened TaskSets
  import opened Execve

  /** The user memory `rt_sigaction` touches: reading a `sigaction_t` (and
      converting it to a `SigAction`) at an address, and writing one back. */
  datatype SigactionSpace = SigactionSpace(
    readAction: Vaddr -> Result<SigAction>,
    writeAction: Vaddr -> Result<Unit>)

  // ---------------------------------------------------------------------
  // Removing every pending instance of one signal
  // ---------------------------------------------------------------------

  /** `q` with every instance of `s` removed and the rest in order. */
  function Without(q: seq<SigNum>, s: SigNum): seq<SigNum> {
    if q == [] then []
    else if q[0] == s then Without(q[1..], s)
    else [q[0]] + Without(q[1..], s)
  }

  /** `Without` removes exactly the instances of `s`: none is left, and every
      other signal keeps its number of instances. */
  lemma {:induction false} WithoutSpec(q: seq<SigNum>, s: SigNum)
    ensures s !in Without(q, s)
    ensures forall x :: x != s ==> multiset(Without(q, s))[x] == multiset(q)[x]
  {
    if q != [] {
      WithoutSpec(q[1..], s);
      assert q == [q[0]] + q[1..];
    }
  }

  lemma {:induction false} WithoutAppend(a: seq<SigNum>, b: seq<SigNum>, s: SigNum)
    ensures Without(a + b, s) == Without(a, s) + Without(b, s)
  {
    if a != [] {
      assert (a + b)[0] == a[0] && (a + b)[1..] == a[1..] + b;
      WithoutAppend(a[1..], b, s);
      if a[0] != s {
        assert Without(a + b, s) == [a[0]] + (Without(a[1..], s) + Without(b, s));
      }
    } else {
      assert a + b == b;
    }
  }

  /** A queue without `s` is its own result. */
  lemma {:induction false} WithoutAbsent(q: seq<SigNum>, s: SigNum)
    requires s !in q
    ensures Without(q, s) == q
  {
    if q != [] {
      assert q[0] != s;
      WithoutAbsent(q[1..], s);
    }
  }

  /** Removing one instance of `s` does not change what `Without` yields. */
  lemma WithoutRemoveOne(q: seq<SigNum>, k: nat, s: SigNum)
    requires k < |q| && q[k] == s
    ensures Without(q[..k] + q[k + 1..], s) == Without(q, s)
  {
    assert q == q[..k] + ([q[k]] + q[k + 1..]);
    WithoutAppend(q[..k], [q[k]] + q[k + 1..], s);
    WithoutAppend(q[..k], q[k + 1..], s);
    assert ([q[k]] + q[k + 1..])[1..] == q[k + 1..];
  }

  /** The signals from `lo` to 64. */
  function SignalsFrom(lo: int): (m: set<SigNum>)
    ensures forall x: SigNum :: x in m <==> lo <= x
    decreases 65 - lo
  {
    if lo > 64 then {} else if lo < 1 then SignalsFrom(1) else {lo} + SignalsFrom(lo + 1)
  }

  /** Every signal but `s` (`SigSet::new_full() - signum`): the mask under
      which only `s` is dequeued. */
  function AllBut(s: SigNum): (m: set<SigNum>)
    ensures forall x: SigNum :: x in m <==> x != s
  {
    SignalsFrom(1) - {s}
  }

  /** The `while dequeue_signal(&mask).is_some() {}` loop on one thread:
      afterwards none of its pending signals is `s`, and every other pending
      signal is still queued, in its order. */
  method DiscardFrom(u: PosixThread, s: SigNum)
    modifies u`sigQueue
    ensures u.sigQueue == Without(old(u.sigQueue), s)
  {
    var mask := AllBut(s);
    while true
      invariant Without(u.sigQueue, s) == Without(old(u.sigQueue), s)
      decreases |u.sigQueue|
    {
      ghost var q := u.sigQueue;
      var d := u.DequeueSignal(mask);
      if d.None? {
        assert s !in q;
        WithoutAbsent(q, s);
        break;
      }
      WithoutRemoveOne(q, FirstOutside(q, mask), s);
    }
  }

  /** `discard_signals_if_ignored`: every pending instance of `s` is removed
      from the queue of every thread of the process, and nothing else. */
  method DiscardSignalsIfIgnored(p: Process, s: SigNum)
    modifies (set u | u in p.tasks.tasks)`sigQueue
    ensures forall u :: u in p.tasks.tasks ==> u.sigQueue == Without(old(u.sigQueue), s)
  {
    var tasks := p.tasks.tasks;
    var i := 0;
    while i < |tasks|
      invariant 0 <= i <= |tasks|
      invariant forall u :: u in tasks[..i] ==> u.sigQueue == Without(old(u.sigQueue), s)
      invariant forall u :: u in tasks && u !in tasks[..i] ==> u.sigQueue == old(u.sigQueue)
    {
      var u := tasks[i];
      ghost var before := u.sigQueue;
      DiscardFrom(u, s);
      if u in tasks[..i] {
        WithoutSpec(old(u.sigQueue), s);
        WithoutAbsent(before, s);
      }
      assert tasks[..i + 1] == tasks[..i] + [u];
      i := i + 1;
    }
  }

  // ---------------------------------------------------------------------
  // Waking the threads that can take the signal
  // ---------------------------------------------------------------------

  /** Whether `wake_up_other_threads` wakes anyone: the current action of
      `s` does not ignore it and the calling thread blocks it. */
  predicate WakesOthers(disp: SigDispositions, callerMask: set<SigNum>, s: SigNum) {
    !WillIgnore(disp.Get(s), s) && s in callerMask
  }

  /** The wake-ups a thread receives: its waker once per slot it holds, when
      anyone is woken and the thread does not block the signal. */
  function WakeUps(wake: bool, u: PosixThread, tasks: seq<PosixThread>, s: SigNum): seq<Waker>
    reads u
  {
    if wake && s !in u.sigMask then Repeat(WakeOf(u.waker), Count(tasks, u)) else []
  }

  /** `wake_up_other_threads`, before the new action is set: when the old
      action does not ignore the signal and the caller blocks it, every
      thread of the process that does not block it has its signalled waker
      woken; otherwise no thread is woken. */
  method WakeUpOtherThreads(p: Process, caller: PosixThread, s: SigNum)
    modifies (set u | u in p.tasks.tasks)`woken
    ensures forall u :: u in p.tasks.tasks ==>
              u.woken == old(u.woken) + WakeUps(WakesOthers(p.dispositions, caller.sigMask, s), u, p.tasks.tasks, s)
  {
    var oldAction := p.dispositions.Get(s);
    if WillIgnore(oldAction, s) {
      return;
    }
    if !caller.HasSignalBlocked(s) {
      return;
    }
    var tasks := p.tasks.tasks;
    var i := 0;
    while i < |tasks|
      invariant 0 <= i <= |tasks|
      invariant forall u :: u in tasks ==> u.woken == old(u.woken) + WakeUps(true, u, tasks[..i], s)
    {
      var u := tasks[i];
      forall v | v in tasks
        ensures Count(tasks[..i + 1], v) == Count(tasks[..i], v) + (if v == u then 1 else 0)
      {
        assert tasks[..i + 1] == tasks[..i] + [u];
        CountAppend(tasks[..i], v, u);
      }
      if !u.HasSignalBlocked(s) {
        u.WakeSignalledWaker();
      }
      i := i + 1;
    }
    assert tasks[..i] == tasks;
  }

  /** In a task list without repeated threads, each thread that does not
      block the signal is woken exactly once. */
  lemma WakeUpsOnce(u: PosixThread, tasks: seq<PosixThread>, s: SigNum)
    requires forall i, j :: 0 <= i < j < |tasks| ==> tasks[i] != tasks[j]
    requires u in tasks
    ensures WakeUps(true, u, tasks, s) == (if s in u.sigMask then [] else WakeOf(u.waker))
  {
    CountDistinct(tasks, u);
    assert Repeat(WakeOf(u.waker), 1) == [] + WakeOf(u.waker);
  }

  // ---------------------------------------------------------------------
  // The system call
  // ---------------------------------------------------------------------

  /** What the checks of `sys_rt_sigaction` decide: the signal, the action to
      install (None for a query), and the action in force before. */
  datatype SigactionPlan = SigactionPlan(sig: SigNum, newAction: Option<SigAction>, oldAction: SigAction)

  /** The checks in order: the signal number, then a sigset size other than
      8 (EINVAL), then, when a new action is given, SIGKILL or SIGSTOP
      (EINVAL) and the read of the new action from user memory. */
  function Plan(rawSig: byte, actAddr: Vaddr, sigsetSize: nat, disp: SigDispositions, mem: SigactionSpace)
    : Result<SigactionPlan>
  {
    var sig :- SigNumFrom(rawSig);
    if sigsetSize != 8 then Err(EINVAL)
    else if actAddr != 0 then
      if sig == SIGKILL || sig == SIGSTOP then Err(EINVAL)
      else
        var act :- mem.readAction(actAddr);
        Ok(SigactionPlan(sig, Some(act), disp.Get(sig)))
    else Ok(SigactionPlan(sig, None, disp.Get(sig)))
  }

  /** The disposition table after a plan: the new action replaces the
      signal's entry; a query keeps the table. */
  function Apply(disp: SigDispositions, plan: SigactionPlan): SigDispositions {
    if plan.newAction.Some? then disp.Set(plan.sig, plan.newAction.value) else disp
  }

  /** SIGKILL and SIGSTOP can be queried but never given a new action, and a
      query reports the action in force. */
  lemma KillAndStopFixed(rawSig: byte, actAddr: Vaddr, disp: SigDispositions, mem: SigactionSpace)
    requires rawSig == SIGKILL || rawSig == SIGSTOP
    ensures actAddr != 0 ==> Plan(rawSig, actAddr, 8, disp, mem) == Err(EINVAL)
    ensures actAddr == 0 ==> Plan(rawSig, actAddr, 8, disp, mem) == Ok(SigactionPlan(rawSig, None, disp.Get(rawSig)))
  {
  }

  /** A sigset size other than 8 is refused with EINVAL whatever else is
      asked. */
  lemma BadSigsetSizeRefused(rawSig: byte, actAddr: Vaddr, sigsetSize: nat, disp: SigDispositions, mem: SigactionSpace)
    requires sigsetSize != 8
    ensures Plan(rawSig, actAddr, sigsetSize, disp, mem) == Err(EINVAL)
  {
  }

  /** No plan changes the action of SIGKILL or SIGSTOP, so a table in which
      SIGKILL is not ignored stays so, and a query changes nothing. */
  lemma ApplyKeepsKillAndStop(rawSig: byte, actAddr: Vaddr, sigsetSize: nat, disp: SigDispositions, mem: SigactionSpace)
    requires Plan(rawSig, actAddr, sigsetSize, disp, mem).Ok?
    ensures var d := Apply(disp, Plan(rawSig, actAddr, sigsetSize, disp, mem).value);
            d.Get(SIGKILL) == disp.Get(SIGKILL) && d.Get(SIGSTOP) == disp.Get(SIGSTOP)
            && (actAddr == 0 ==> d == disp)
  {
  }

  /** `sys_rt_sigaction` for the calling thread `caller` of process `p`.
      `written` is the old action written to `oldAddr`, if any. When the
      checks fail nothing changes. Otherwise, when a new action is given,
      its pending instances are discarded (if it ignores the signal) or the
      threads that can take it are woken (if not), and it replaces the old
      action; then the old action is written out when `oldAddr` is not 0,
      and a failing write is reported after the table has changed. */
  method SysRtSigaction(
    p: Process, caller: PosixThread, rawSig: byte, actAddr: Vaddr, oldAddr: Vaddr, sigsetSize: nat,
    mem: SigactionSpace)
    returns (r: Result<SyscallReturn>, written: Option<SigAction>)
    modifies p`dispositions, (set u | u in p.tasks.tasks)`sigQueue, (set u | u in p.tasks.tasks)`woken
    ensures var plan := old(Plan(rawSig, actAddr, sigsetSize, p.dispositions, mem));
            && (plan.Err? ==>
                  && r == Err(plan.error) && written == None
                  && p.dispositions == old(p.dispositions)
                  && forall u :: u in p.tasks.tasks ==> u.sigQueue == old(u.sigQueue) && u.woken == old(u.woken))
            && (plan.Ok? ==>
                  && p.dispositions == Apply(old(p.dispositions), plan.value)
                  && written == (if oldAddr != 0 then Some(plan.value.oldAction) else None)
                  && r == (if oldAddr != 0 && mem.writeAction(oldAddr).Err?
                           then Err(mem.writeAction(oldAddr).error) else Ok(Return(0))))
    ensures var plan := old(Plan(rawSig, actAddr, sigsetSize, p.dispositions, mem));
            plan.Ok? && plan.value.newAction.Some? ==>
              var s := plan.value.sig;
              if WillIgnore(plan.value.newAction.value, s) then
                forall u :: u in p.tasks.tasks ==>
                  u.sigQueue == Without(old(u.sigQueue), s) && u.woken == old(u.woken)
              else
                forall u :: u in p.tasks.tasks ==>
                  && u.sigQueue == old(u.sigQueue)
                  && u.woken == old(u.woken)
                       + old(WakeUps(WakesOthers(p.dispositions, caller.sigMask, s), u, p.tasks.tasks, s))
    ensures var plan := old(Plan(rawSig, actAddr, sigsetSize, p.dispositions, mem));
            plan.Ok? && plan.value.newAction.None? ==>
              forall u :: u in p.tasks.tasks ==> u.sigQueue == old(u.sigQueue) && u.woken == old(u.woken)
  {
    written := None;
    var sig :- SigNumFrom(rawSig);
    if sigsetSize != 8 {
      return Err(EINVAL), None;
    }
    var oldAction;
    if actAddr != 0 {
      if sig == SIGKILL || sig == SIGSTOP {
        return Err(EINVAL), None;
      }
      var action :- mem.readAction(actAddr);
      if WillIgnore(action, sig) {
        DiscardSignalsIfIgnored(p, sig);
      } else {
        WakeUpOtherThreads(p, caller, sig);
      }
      oldAction := p.dispositions.Get(sig);
      p.dispositions := p.dispositions.Set(sig, action);
    } else {
      oldAction := p.dispositions.Get(sig);
    }
    if oldAddr != 0 {
      written := Some(oldAction);
      var _ :- mem.writeAction(oldAddr);
    }
    r := Ok(Return(0));
  }
}
