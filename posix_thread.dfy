/** The POSIX thread (kernel/src/process/posix_thread/mod.rs): its thread id,
    its blocked-signal mask, its queue of pending thread-directed signals, its
    signalled-waker slot, and the global thread-id allocator.

    A kernel `Task`, its `Thread` and its `PosixThread` are one object here:
    the model identifies a task by the object, as the source compares tasks by
    pointer. */
module PosixThreads {
  import opened Prelude
  import opened Signals
  import opened Files
  import opened Namespaces

  type Tid = u32
  type Pid = u32

  /** `PID_MAX`, the largest allowed process id: `u32::MAX / 2`. */
  const PID_MAX: u32 := 0x7FFF_FFFF

  /** A waker that a signal-aware wait registered; identified by a number. */
  type Waker = nat

  /** The per-thread credentials that `execve` rewrites. */
  datatype Credentials = Credentials(
    ruid: u32, euid: u32, suid: u32,
    rgid: u32, egid: u32, sgid: u32,
    keepCapabilities: bool)

  class PosixThread {
    /** The id of the process the thread belongs to. */
    const pid: Pid
    var tid: Tid
    /** Whether the thread has fully exited (`Thread::is_exited`). */
    var exited: bool
    /** Blocked signals. */
    var sigMask: set<SigNum>
    /** Pending thread-directed signals, oldest first. */
    var sigQueue: seq<SigNum>
    /** The signalled-waker slot. */
    var waker: Option<Waker>
    /** Every wake-up delivered through the slot, oldest first. */
    var woken: seq<Waker>
    var credentials: Credentials
    /** The file table as other threads see it; None once the thread exited. */
    var fileTable: Option<FileTable>
    /** The namespaces as other threads see them; None once the thread exited. */
    var nsContext: Option<NsContext>

    constructor (pid: Pid, tid: Tid, credentials: Credentials, fileTable: FileTable, nsContext: NsContext)
      ensures this.pid == pid && this.tid == tid && this.credentials == credentials
      ensures this.fileTable == Some(fileTable) && this.nsContext == Some(nsContext)
      ensures !exited && sigMask == {} && sigQueue == [] && waker == None && woken == []
    {
      this.pid := pid;
      this.tid := tid;
      this.credentials := credentials;
      this.fileTable := Some(fileTable);
      this.nsContext := Some(nsContext);
      exited := false;
      sigMask := {};
      sigQueue := [];
      waker := None;
      woken := [];
    }

    /** `set_main`: the thread takes over the process id as its thread id. */
    method SetMain(p: Pid)
      requires p == pid && p != tid
      modifies this`tid
      ensures tid == p
    {
      tid := p;
    }

    /** `has_signal_blocked`. */
    predicate HasSignalBlocked(s: SigNum)
      reads this
    {
      s in sigMask
    }

    /** Whether a SIGKILL is pending for the thread. */
    predicate HasPendingSigkill()
      reads this
    {
      SIGKILL in sigQueue
    }

    /** `set_signalled_waker`: panics when a waker is already set. */
    method SetSignalledWaker(w: Waker)
      requires waker.None?
      modifies this`waker
      ensures waker == Some(w)
    {
      waker := Some(w);
    }

    /** `clear_signalled_waker`. */
    method ClearSignalledWaker()
      modifies this`waker
      ensures waker == None
    {
      waker := None;
    }

    /** `wake_signalled_waker`: wakes the waker in the slot, if any. */
    method WakeSignalledWaker()
      modifies this`woken
      ensures woken == old(woken) + WakeOf(waker)
    {
      if waker.Some? {
        woken := woken + [waker.value];
      }
    }

    /** `enqueue_signal`: a signal the disposition ignores and the thread does
        not block is dropped; any other is queued and the waker is woken. */
    method EnqueueSignal(s: SigNum, disp: SigDispositions)
      modifies this`sigQueue, this`woken
      ensures Dropped(s, disp, sigMask) ==> sigQueue == old(sigQueue) && woken == old(woken)
      ensures !Dropped(s, disp, sigMask) ==>
                sigQueue == old(sigQueue) + [s] && woken == old(woken) + WakeOf(waker)
    {
      var willIgnore := WillIgnore(disp.Get(s), s);
      var blocked := HasSignalBlocked(s);
      if willIgnore && !blocked {
        return;
      }
      sigQueue := sigQueue + [s];
      WakeSignalledWaker();
    }

    /** Removes and returns the oldest pending signal that `mask` does not
        hold (sig_queues.rs is not part of this model). */
    method DequeueSignal(mask: set<SigNum>) returns (r: Option<SigNum>)
      modifies this`sigQueue
      ensures var k := FirstOutside(old(sigQueue), mask);
              && (r.None? <==> k == |old(sigQueue)|)
              && (r.None? ==> sigQueue == old(sigQueue))
              && (r.Some? ==> r.value == old(sigQueue)[k] && sigQueue == old(sigQueue)[..k] + old(sigQueue)[k + 1..])
    {
      var i := 0;
      while i < |sigQueue| && sigQueue[i] in mask
        invariant 0 <= i <= |sigQueue|
        invariant forall j :: 0 <= j < i ==> sigQueue[j] in mask
      {
        i := i + 1;
      }
      FirstOutsideUnique(sigQueue, mask, i);
      if i == |sigQueue| {
        return None;
      }
      r := Some(sigQueue[i]);
      sigQueue := sigQueue[..i] + sigQueue[i + 1..];
    }
  }

  /** The index of the oldest signal of `q` outside `mask`, or `|q|` when
      every signal is in `mask`. */
  function FirstOutside(q: seq<SigNum>, mask: set<SigNum>): (k: nat)
    ensures k <= |q|
    ensures forall j :: 0 <= j < k ==> q[j] in mask
    ensures k < |q| ==> q[k] !in mask
  {
    if q == [] || q[0] !in mask then 0 else 1 + FirstOutside(q[1..], mask)
  }

  /** That index is the only one with every earlier signal in `mask` and
      itself outside it (or past the end). */
  lemma FirstOutsideUnique(q: seq<SigNum>, mask: set<SigNum>, i: nat)
    requires i <= |q|
    requires forall j :: 0 <= j < i ==> q[j] in mask
    requires i < |q| ==> q[i] !in mask
    ensures i == FirstOutside(q, mask)
  {
  }

  /** The wake-up that the slot delivers: one when a waker is set, none otherwise. */
  function WakeOf(w: Option<Waker>): seq<Waker> {
    if w.Some? then [w.value] else []
  }

  /** The condition under which `enqueue_signal` drops a signal. */
  predicate Dropped(s: SigNum, disp: SigDispositions, mask: set<SigNum>) {
    WillIgnore(disp.Get(s), s) && s !in mask
  }

  /** A blocked signal is never dropped, and neither is a SIGKILL under a
      disposition table that has no "ignore" entry for it. */
  lemma BlockedOrKillNeverDropped(s: SigNum, disp: SigDispositions, mask: set<SigNum>)
    ensures s in mask ==> !Dropped(s, disp, mask)
    ensures s == SIGKILL && !disp.Get(SIGKILL).Ign? ==> !Dropped(s, disp, mask)
  {
  }

  /** The global tid allocator `POSIX_TID_ALLOCATOR`: a 32-bit counter that
      `fetch_add` advances with wrap-around. */
  class TidAllocator {
    var next: u32

    /** The counter starts at 1. */
    constructor ()
      ensures next == 1
    {
      next := 1;
    }

    /** `allocate_posix_tid`: returns the counter and advances it by one. An id
        at or above PID_MAX is still returned; only a warning (the ghost
        `warned`) is issued. */
    method Allocate() returns (tid: Tid, ghost warned: bool)
      modifies this
      ensures tid == old(next)
      ensures next == Succ(old(next))
      ensures warned <==> tid >= PID_MAX
      ensures LastTid() == tid
    {
      tid := next;
      next := Succ(next);
      warned := tid >= PID_MAX;
      PredSucc(tid);
    }

    /** `n` successive calls of `allocate_posix_tid`: they return the ids
        `Allocations` lists and advance the counter by `n`, wrapping. */
    method AllocateMany(n: nat) returns (tids: seq<Tid>)
      modifies this
      ensures tids == Allocations(old(next), n)
      ensures next == (old(next) + n) % U32_LIMIT
    {
      ghost var c0 := next;
      tids := [];
      var i := 0;
      while i < n
        invariant i <= n
        invariant tids + Allocations(next, n - i) == Allocations(c0, n)
        invariant next == (c0 + i) % U32_LIMIT
      {
        ghost var before := next;
        SuccAfter(c0, i);
        var tid;
        ghost var warned;
        tid, warned := Allocate();
        ghost var rest := Allocations(next, n - i - 1);
        assert Allocations(before, n - i) == [tid] + rest;
        assert tids + ([tid] + rest) == (tids + [tid]) + rest;
        tids := tids + [tid];
        i := i + 1;
      }
    }

    /** `last_tid`: the counter minus one. */
    function LastTid(): Tid
      reads this
    {
      Pred(next)
    }
  }

  /** 32-bit wrapping increment and decrement. */
  function Succ(x: u32): u32 {
    (x + 1) % U32_LIMIT
  }

  /** Advancing a counter that is already `i` steps on wraps as one more step. */
  lemma SuccAfter(c: u32, i: nat)
    ensures Succ((c + i) % U32_LIMIT) == (c + i + 1) % U32_LIMIT
  {
    var q := (c + i) / U32_LIMIT;
    assert c + i == q * U32_LIMIT + (c + i) % U32_LIMIT;
    if (c + i) % U32_LIMIT + 1 == U32_LIMIT {
      assert c + i + 1 == (q + 1) * U32_LIMIT;
    } else {
      assert c + i + 1 == q * U32_LIMIT + ((c + i) % U32_LIMIT + 1);
    }
  }

  function Pred(x: u32): u32 {
    (x + U32_LIMIT - 1) % U32_LIMIT
  }

  lemma PredSucc(x: u32)
    ensures Pred(Succ(x)) == x
  {
  }

  /** The ids that `n` successive allocations return from counter value `c`;
      `TidAllocator.AllocateMany` proves that its calls of `Allocate` return
      exactly these. */
  function Allocations(c: u32, n: nat): seq<Tid>
    decreases n
  {
    if n == 0 then [] else [c] + Allocations(Succ(c), n - 1)
  }

  /** As long as the counter does not wrap, successive allocations return
      consecutive, strictly increasing ids starting at the counter. */
  lemma {:induction false} AllocationsIncrease(c: u32, n: nat)
    requires c + n <= U32_LIMIT
    ensures |Allocations(c, n)| == n
    ensures forall i :: 0 <= i < n ==> Allocations(c, n)[i] == c + i
    ensures forall i, j :: 0 <= i < j < n ==> Allocations(c, n)[i] < Allocations(c, n)[j]
    decreases n
  {
    if n > 0 {
      if n > 1 {
        assert Succ(c) == c + 1;
        AllocationsIncrease(Succ(c), n - 1);
      }
    }
  }

  /** The ids a fresh allocator hands out start at 1. */
  lemma FirstIdsFromOne(n: nat)
    requires n < U32_LIMIT
    ensures |Allocations(1, n)| == n
    ensures forall i :: 0 <= i < n ==> Allocations(1, n)[i] == i + 1
  {
    AllocationsIncrease(1, n);
  }
}
