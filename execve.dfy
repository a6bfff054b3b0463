/** The `execve` protocol of kernel/src/process/execve.rs, run as a sequential
    state machine over a process's task set.

    `do_execve` is modelled in its two halves: `BeginExecve` (reading the
    argument vectors, the EAGAIN exclusivity check, setting `in_execve` and
    sending SIGKILL to the other threads) and `FinishExecve` (the rest of the
    work, the SIGKILL to the caller on failure, and resetting `in_execve`).
    Between the two the other threads run and exit; the loop that waits for
    them is one evaluation of its exit predicate, `WaitStep`, and the model
    requires that evaluation to leave the loop. */
module Execve {
  import opened Prelude
  import opened Signals
  import opened PosixThreads
  import opened TaskSets
  import opened Files
  import opened ThreadLocals

  /** A string read from user space, without its terminating NUL. */
  type CString = seq<byte>

  /** The user-mode CPU context. The TLS, instruction and stack pointers are
      kept apart from the other general-purpose registers. */
  datatype UserContext = UserContext(
    generalRegs: seq<int>, tlsPointer: Vaddr, instructionPointer: Vaddr, stackPointer: Vaddr)

  /** What loading the program into the address space reports. */
  datatype ElfLoadInfo = ElfLoadInfo(entryPoint: Vaddr, userStackTop: Vaddr)

  /** The set-user-id and set-group-id bits of a file mode. */
  datatype SetIdBits = SetIdBits(setUid: bool, setGid: bool)

  /** The executable as `execve` consults it: its absolute path and what
      `mode`, `owner` and `group` report, each of which may fail. */
  datatype ElfFile = ElfFile(absPath: string, mode: Result<SetIdBits>, owner: Result<u32>, group: Result<u32>)

  /** The program prepared by `ProgramToLoad::build_from_file`, with the
      outcome that `load_to_vm` will have. */
  datatype ProgramToLoad = ProgramToLoad(
    file: ElfFile, argv: seq<CString>, envp: seq<CString>, loaded: Result<ElfLoadInfo>)

  /** The user address space as `read_val::<usize>` and `read_cstring` see it. */
  datatype UserSpace = UserSpace(
    readWord: Vaddr -> Result<Vaddr>,
    readCString: (Vaddr, nat) -> Result<CString>)

  class Process {
    const pid: Pid
    const tasks: TaskSet
    var dispositions: SigDispositions
    var exitSignal: Option<SigNum>
    var parentDeathSignal: Option<SigNum>
    var executablePath: string
    var vforkChild: bool

    constructor (pid: Pid, tasks: TaskSet)
      ensures this.pid == pid && this.tasks == tasks
      ensures dispositions == DefaultDispositions && exitSignal == Some(SIGCHLD)
      ensures parentDeathSignal == None && executablePath == [] && !vforkChild
    {
      this.pid := pid;
      this.tasks := tasks;
      dispositions := DefaultDispositions;
      exitSignal := Some(SIGCHLD);
      parentDeathSignal := None;
      executablePath := [];
      vforkChild := false;
    }
  }

  /** The global thread table, from thread ids to threads. */
  class ThreadTable {
    var entries: map<Tid, PosixThread>

    constructor ()
      ensures entries == map[]
    {
      entries := map[];
    }
  }

  /** The caller `t` is a live member of process `p`: the task set is valid,
      slot 0 holds the thread whose tid is the pid, `has_exited_main` tells
      whether that thread has exited, and SIGKILL cannot be ignored. */
  ghost predicate Registered(p: Process, t: PosixThread)
    reads p, p.tasks, t, set u | u in p.tasks.tasks
  {
    && p.tasks.Valid()
    && t in p.tasks.tasks
    && t.pid == p.pid
    && !t.exited
    && p.tasks.tasks[0].tid == p.pid
    && (p.tasks.tasks[0].exited <==> p.tasks.hasExitedMain)
    && !WillIgnore(p.dispositions.Get(SIGKILL), SIGKILL)
  }

  // ---------------------------------------------------------------------
  // The barrier: one iteration of the loop in `wait_other_threads_exit`
  // ---------------------------------------------------------------------

  datatype BarrierStep = Abort(error: Errno) | Proceed | KeepWaiting

  /** What one iteration of the waiting loop decides on the state it sees: a
      pending SIGKILL aborts with EAGAIN; otherwise the loop is left when only
      the expected number of tasks remain (one for the main thread, two for
      another thread, whose main thread must then have exited). */
  function WaitStep(p: Process, t: PosixThread): (step: BarrierStep)
    reads p, p.tasks, t, set u | u in p.tasks.tasks
    ensures step.Abort? <==> t.HasPendingSigkill()
    ensures step.Abort? ==> step.error == EAGAIN
    ensures step == Proceed ==> |p.tasks.tasks| == (if t.tid == p.pid then 1 else 2)
    ensures step == Proceed && t.tid != p.pid ==> p.tasks.tasks[0].exited
  {
    var isMain := t.tid == p.pid;
    var expected := if isMain then 1 else 2;
    if t.HasPendingSigkill() then Abort(EAGAIN)
    else if |p.tasks.tasks| == expected && (isMain || p.tasks.Main().exited) then Proceed
    else KeepWaiting
  }

  /** When the loop is left without an error the caller is the only live
      task: a main thread is alone, and any other thread sits in slot 1 next
      to the exited main thread's placeholder, exactly as `set_main` of the
      task set demands. */
  lemma ProceedLeavesCallerAlone(p: Process, t: PosixThread)
    requires Registered(p, t) && WaitStep(p, t) == Proceed
    ensures !t.HasPendingSigkill()
    ensures t.tid == p.pid ==> p.tasks.tasks == [t]
    ensures t.tid != p.pid ==>
              && |p.tasks.tasks| == 2 && p.tasks.tasks[1] == t
              && p.tasks.tasks[0].exited && p.tasks.hasExitedMain
  {
    if t.tid != p.pid {
      assert p.tasks.tasks[0] != t;
      assert p.tasks.tasks == [p.tasks.tasks[0], p.tasks.tasks[1]];
    }
  }

  /** `wait_other_threads_exit`, at the iteration that leaves the loop. */
  method WaitOtherThreadsExit(p: Process, t: PosixThread) returns (r: Result<Unit>)
    requires Registered(p, t)
    requires WaitStep(p, t) != KeepWaiting
    ensures r.Err? <==> t.HasPendingSigkill()
    ensures r.Err? ==> r.error == EAGAIN
  {
    var isMain := t.tid == p.pid;
    var expectedCount := if isMain then 1 else 2;
    if t.HasPendingSigkill() {
      return Err(EAGAIN);
    }
    if |p.tasks.tasks| == expectedCount {
      if isMain {
        return Ok(Unit);
      }
      if p.tasks.Main().exited {
        return Ok(Unit);
      }
    }
    assert false;
  }

  // ---------------------------------------------------------------------
  // Promotion of the caller to main thread
  // ---------------------------------------------------------------------

  /** `make_current_main_thread`: nothing to do for the main thread; any other
      caller takes over slot 0 and the pid as its tid, and the thread table
      maps the pid to it. The table must already hold the pid (an assert). */
  method MakeCurrentMainThread(p: Process, t: PosixThread, table: ThreadTable)
    requires Registered(p, t) && WaitStep(p, t) == Proceed
    requires t.tid != p.pid ==> p.pid in table.entries
    modifies p.tasks, t`tid, table
    ensures Registered(p, t)
    ensures p.tasks.tasks == [t] && t.tid == p.pid && !p.tasks.hasExitedMain
    ensures p.tasks.hasExitedGroup == old(p.tasks.hasExitedGroup) && p.tasks.inExecve == old(p.tasks.inExecve)
    ensures old(t.tid) == p.pid ==> table.entries == old(table.entries) && p.tasks.tasks == old(p.tasks.tasks)
    ensures old(t.tid) != p.pid ==> table.entries == old(table.entries)[p.pid := t]
  {
    ProceedLeavesCallerAlone(p, t);
    var pid := p.pid;
    if t.tid == pid {
      return;
    }
    p.tasks.SetMain(t);
    t.SetMain(pid);
    table.entries := table.entries - {pid};
    table.entries := table.entries[pid := t];
  }

  // ---------------------------------------------------------------------
  // CPU context, credentials, files
  // ---------------------------------------------------------------------

  /** The user context after `set_cpu_context`: general registers zeroed, TLS
      pointer cleared, execution starting at the entry point on the new stack. */
  function ResetUserContext(uc: UserContext, info: ElfLoadInfo): (r: UserContext)
    ensures |r.generalRegs| == |uc.generalRegs|
    ensures forall i :: 0 <= i < |r.generalRegs| ==> r.generalRegs[i] == 0
    ensures r.tlsPointer == 0
    ensures r.instructionPointer == info.entryPoint && r.stackPointer == info.userStackTop
  {
    UserContext(seq(|uc.generalRegs|, _ => 0), 0, info.entryPoint, info.userStackTop)
  }

  /** `set_cpu_context`: a fresh FPU state and the reset user context. */
  method SetCpuContext(local: ThreadLocal, uc: UserContext, info: ElfLoadInfo) returns (uc': UserContext)
    modifies local`fpu
    ensures local.fpu == FreshFpu
    ensures uc' == ResetUserContext(uc, info)
  {
    local.fpu := FreshFpu;
    uc' := ResetUserContext(uc, info);
  }

  /** Whether `set_uid_from_elf` gets past its reads of the file: the mode,
      and the owner of a set-user-id file. */
  predicate UidReadable(f: ElfFile) {
    f.mode.Ok? && (f.mode.value.setUid ==> f.owner.Ok?)
  }

  /** Whether `set_gid_from_elf` gets past its reads of the file. */
  predicate GidReadable(f: ElfFile) {
    f.mode.Ok? && (f.mode.value.setGid ==> f.group.Ok?)
  }

  /** The credentials after the uid step: the effective uid taken from the
      owner of a set-user-id file, the saved uid reset to the effective one. */
  function WithUidFromElf(c: Credentials, f: ElfFile): Credentials
    requires UidReadable(f)
  {
    var euid := if f.mode.value.setUid then f.owner.value else c.euid;
    c.(euid := euid, suid := euid)
  }

  /** The credentials after the gid step. */
  function WithGidFromElf(c: Credentials, f: ElfFile): Credentials
    requires GidReadable(f)
  {
    var egid := if f.mode.value.setGid then f.group.value else c.egid;
    c.(egid := egid, sgid := egid)
  }

  /** `set_uid_from_elf`. A failing `mode`, or a failing `owner` of a
      set-user-id file, returns the error with nothing changed; a set-user-id
      file also clears the parent-death signal. */
  method SetUidFromElf(p: Process, t: PosixThread, f: ElfFile) returns (r: Result<Unit>)
    modifies t`credentials, p`parentDeathSignal
    ensures r.Ok? <==> UidReadable(f)
    ensures r.Err? ==> r.error == (if f.mode.Err? then f.mode.error else f.owner.error)
    ensures r.Err? ==> t.credentials == old(t.credentials) && p.parentDeathSignal == old(p.parentDeathSignal)
    ensures r.Ok? ==> UidReadable(f) && t.credentials == WithUidFromElf(old(t.credentials), f)
    ensures r.Ok? ==> f.mode.Ok? && p.parentDeathSignal == (if f.mode.value.setUid then None else old(p.parentDeathSignal))
  {
    var mode :- f.mode;
    var euid := t.credentials.euid;
    if mode.setUid {
      var uid :- f.owner;
      euid := uid;
      p.parentDeathSignal := None;
    }
    t.credentials := t.credentials.(euid := euid, suid := euid);
    r := Ok(Unit);
  }

  /** `set_gid_from_elf`, with the set-group-id bit and the file's group. */
  method SetGidFromElf(p: Process, t: PosixThread, f: ElfFile) returns (r: Result<Unit>)
    modifies t`credentials, p`parentDeathSignal
    ensures r.Ok? <==> GidReadable(f)
    ensures r.Err? ==> r.error == (if f.mode.Err? then f.mode.error else f.group.error)
    ensures r.Err? ==> t.credentials == old(t.credentials) && p.parentDeathSignal == old(p.parentDeathSignal)
    ensures r.Ok? ==> GidReadable(f) && t.credentials == WithGidFromElf(old(t.credentials), f)
    ensures r.Ok? ==> f.mode.Ok? && p.parentDeathSignal == (if f.mode.value.setGid then None else old(p.parentDeathSignal))
  {
    var mode :- f.mode;
    var egid := t.credentials.egid;
    if mode.setGid {
      var gid :- f.group;
      egid := gid;
      p.parentDeathSignal := None;
    }
    t.credentials := t.credentials.(egid := egid, sgid := egid);
    r := Ok(Unit);
  }

  /** The outcome of `apply_caps_from_exec` for a file: the first error of
      the uid step, then of the gid step. */
  function CapsResult(f: ElfFile): Result<Unit> {
    if f.mode.Err? then Err(f.mode.error)
    else if f.mode.value.setUid && f.owner.Err? then Err(f.owner.error)
    else if f.mode.value.setGid && f.group.Err? then Err(f.group.error)
    else Ok(Unit)
  }

  /** The credentials after a successful `apply_caps_from_exec`. */
  function ExecCredentials(c: Credentials, f: ElfFile): Credentials
    requires CapsResult(f).Ok?
  {
    WithGidFromElf(WithUidFromElf(c, f), f).(keepCapabilities := false)
  }

  /** What a successful `apply_caps_from_exec` promises: the real ids are
      kept, the effective ids follow the set-id bits, the saved ids equal the
      effective ones, and capabilities are not kept. */
  lemma ExecCredentialsRules(c: Credentials, f: ElfFile)
    requires CapsResult(f).Ok?
    ensures ExecCredentials(c, f).ruid == c.ruid && ExecCredentials(c, f).rgid == c.rgid
    ensures ExecCredentials(c, f).euid == (if f.mode.value.setUid then f.owner.value else c.euid)
    ensures ExecCredentials(c, f).egid == (if f.mode.value.setGid then f.group.value else c.egid)
    ensures ExecCredentials(c, f).suid == ExecCredentials(c, f).euid
    ensures ExecCredentials(c, f).sgid == ExecCredentials(c, f).egid
    ensures !ExecCredentials(c, f).keepCapabilities
  {
  }

  /** `apply_caps_from_exec`: the uid step, the gid step, then capabilities
      are dropped. A failure in the gid step keeps what the uid step did. */
  method ApplyCapsFromExec(p: Process, t: PosixThread, f: ElfFile) returns (r: Result<Unit>)
    modifies t`credentials, p`parentDeathSignal
    ensures r == CapsResult(f)
    ensures r.Ok? ==> CapsResult(f).Ok? && t.credentials == ExecCredentials(old(t.credentials), f)
    ensures r.Ok? ==> f.mode.Ok? && p.parentDeathSignal
                      == (if f.mode.value.setUid || f.mode.value.setGid then None else old(p.parentDeathSignal))
    ensures !UidReadable(f) ==>
              t.credentials == old(t.credentials) && p.parentDeathSignal == old(p.parentDeathSignal)
    ensures UidReadable(f) && !GidReadable(f) ==>
              && t.credentials == WithUidFromElf(old(t.credentials), f)
              && p.parentDeathSignal == (if f.mode.value.setUid then None else old(p.parentDeathSignal))
  {
    var _ :- SetUidFromElf(p, t, f);
    var _ :- SetGidFromElf(p, t, f);
    t.credentials := t.credentials.(keepCapabilities := false);
    r := Ok(Unit);
  }

  /** `reset_vfork_child`: the vfork-child mark is cleared. */
  method ResetVforkChild(p: Process)
    modifies p`vforkChild
    ensures !p.vforkChild
  {
    if p.vforkChild {
      p.vforkChild := false;
    }
  }

  /** `unshare_and_close_files`: the thread gets its own copy of the file
      table, installed as both its posix-thread and its thread-local table,
      without the close-on-exec entries; the table it shared before is left
      as it was. */
  method UnshareAndCloseFiles(t: PosixThread, local: ThreadLocal)
    modifies t`fileTable, local`fileTable
    ensures fresh(local.fileTable) && t.fileTable == Some(local.fileTable)
    ensures local.fileTable.entries == KeptOnExec(old(local.fileTable.entries))
  {
    UnshareFileTable(t, local);
    local.fileTable.CloseFilesOnExec();
  }

  // ---------------------------------------------------------------------
  // Argument vectors
  // ---------------------------------------------------------------------

  /** The address of entry `i` of a pointer array at `base` (8-byte entries,
      wrapping like a 64-bit address). The wrap never matters in practice:
      the top of the address space is not user memory, so reading the entry
      there fails before the next address would wrap. */
  function EntryAddr(base: Vaddr, i: nat): Vaddr {
    (base + 8 * i) % U64_LIMIT
  }

  /** One argument string: `read_cstring`, with ENAMETOOLONG turned into
      E2BIG and every other outcome passed through. */
  function ArgString(us: UserSpace, p: Vaddr, maxLen: nat): (r: Result<CString>)
    ensures r.Ok? <==> us.readCString(p, maxLen).Ok?
    ensures r.Ok? ==> r.value == us.readCString(p, maxLen).value
    ensures r.Err? ==> r.error == if us.readCString(p, maxLen).error == ENAMETOOLONG then E2BIG
                                  else us.readCString(p, maxLen).error
  {
    var s := us.readCString(p, maxLen);
    if s.Err? && s.error == ENAMETOOLONG then Err(E2BIG) else s
  }

  /** The strings of the NUL-terminated pointer array at `addr`, reading at
      most `n` entries; E2BIG when none of them is the terminator. The next
      entry's address wraps as `EntryAddr` does. */
  function ArgVector(us: UserSpace, addr: Vaddr, n: nat, maxLen: nat): (r: Result<seq<CString>>)
    ensures r.Ok? ==> |r.value| < n
    ensures n == 0 ==> r == Err(E2BIG)
    ensures us.readWord(addr).Err? && n > 0 ==> r == Err(us.readWord(addr).error)
    decreases n
  {
    if n == 0 then Err(E2BIG)
    else match us.readWord(addr)
      case Err(e) => Err(e)
      case Ok(p) =>
        if p == 0 then Ok([])
        else match ArgString(us, p, maxLen)
          case Err(e) => Err(e)
          case Ok(s) =>
            match ArgVector(us, (addr + 8) % U64_LIMIT, n - 1, maxLen)
              case Err(e) => Err(e)
              case Ok(rest) => Ok([s] + rest)
  }

  /** What `read_cstring_vec` returns: an empty vector for a null array. */
  function ReadArgs(us: UserSpace, arrayPtr: Vaddr, maxNumber: nat, maxLen: nat): Result<seq<CString>> {
    if arrayPtr == 0 then Ok([]) else ArgVector(us, arrayPtr, maxNumber, maxLen)
  }

  function Prepend(prefix: seq<CString>, r: Result<seq<CString>>): Result<seq<CString>> {
    if r.Ok? then Ok(prefix + r.value) else r
  }

  lemma EntryAddrNext(base: Vaddr, i: nat)
    ensures EntryAddr((base + 8) % U64_LIMIT, i) == EntryAddr(base, i + 1)
  {
  }

  /** A vector that was read successfully holds fewer strings than the entry
      limit; its entries are the strings behind the non-null pointers of the
      array, in order, and the entry after them is the null terminator. */
  lemma {:induction false} ArgVectorShape(us: UserSpace, addr: Vaddr, n: nat, maxLen: nat)
    requires ArgVector(us, addr, n, maxLen).Ok?
    ensures |ArgVector(us, addr, n, maxLen).value| < n
    ensures us.readWord(EntryAddr(addr, |ArgVector(us, addr, n, maxLen).value|)) == Ok(0)
    ensures forall i :: 0 <= i < |ArgVector(us, addr, n, maxLen).value| ==>
              && us.readWord(EntryAddr(addr, i)).Ok?
              && us.readWord(EntryAddr(addr, i)).value != 0
              && ArgString(us, us.readWord(EntryAddr(addr, i)).value, maxLen)
                 == Ok(ArgVector(us, addr, n, maxLen).value[i])
    decreases n
  {
    assert EntryAddr(addr, 0) == addr;
    var p := us.readWord(addr).value;
    if p != 0 {
      var next := (addr + 8) % U64_LIMIT;
      var rest := ArgVector(us, next, n - 1, maxLen).value;
      ArgVectorShape(us, next, n - 1, maxLen);
      EntryAddrNext(addr, |rest|);
      forall i | 1 <= i < 1 + |rest|
        ensures EntryAddr(next, i - 1) == EntryAddr(addr, i)
      {
        EntryAddrNext(addr, i - 1);
      }
    }
  }

  /** Conversely, when the first `n` entries all point to readable strings,
      the limit is hit and the vector is refused with E2BIG. */
  lemma {:induction false} ArgVectorTooMany(us: UserSpace, addr: Vaddr, n: nat, maxLen: nat)
    requires forall i :: 0 <= i < n ==>
               && us.readWord(EntryAddr(addr, i)).Ok?
               && us.readWord(EntryAddr(addr, i)).value != 0
               && ArgString(us, us.readWord(EntryAddr(addr, i)).value, maxLen).Ok?
    ensures ArgVector(us, addr, n, maxLen) == Err(E2BIG)
    decreases n
  {
    if n > 0 {
      assert EntryAddr(addr, 0) == addr;
      var next := (addr + 8) % U64_LIMIT;
      forall i | 0 <= i < n - 1
        ensures EntryAddr(next, i) == EntryAddr(addr, i + 1)
      {
        EntryAddrNext(addr, i);
      }
      ArgVectorTooMany(us, next, n - 1, maxLen);
    }
  }

  /** `read_cstring_vec`: reads 8-byte pointers until a null one, at most
      `maxNumber` of them, and the string behind each. */
  method ReadCStringVec(us: UserSpace, arrayPtr: Vaddr, maxNumber: nat, maxLen: nat)
    returns (r: Result<seq<CString>>)
    ensures r == ReadArgs(us, arrayPtr, maxNumber, maxLen)
  {
    if arrayPtr == 0 {
      return Ok([]);
    }
    var res: seq<CString> := [];
    var readAddr: Vaddr := arrayPtr;
    var i := 0;
    assert Prepend(res, ArgVector(us, readAddr, maxNumber, maxLen)) == ArgVector(us, arrayPtr, maxNumber, maxLen) by {
      if ArgVector(us, arrayPtr, maxNumber, maxLen).Ok? {
        assert [] + ArgVector(us, arrayPtr, maxNumber, maxLen).value == ArgVector(us, arrayPtr, maxNumber, maxLen).value;
      }
    }
    while i < maxNumber
      invariant 0 <= i <= maxNumber
      invariant ArgVector(us, arrayPtr, maxNumber, maxLen)
                == Prepend(res, ArgVector(us, readAddr, maxNumber - i, maxLen))
    {
      var cstringPtr :- us.readWord(readAddr);
      var here := readAddr;
      readAddr := (readAddr + 8) % U64_LIMIT;
      if cstringPtr == 0 {
        assert res + [] == res;
        return Ok(res);
      }
      var cstring :- ArgString(us, cstringPtr, maxLen);
      var tail := ArgVector(us, readAddr, maxNumber - i - 1, maxLen);
      assert ArgVector(us, here, maxNumber - i, maxLen) == Prepend([cstring], tail);
      if tail.Ok? {
        assert res + ([cstring] + tail.value) == (res + [cstring]) + tail.value;
      }
      res := res + [cstring];
      i := i + 1;
    }
    return Err(E2BIG);
  }

  // ---------------------------------------------------------------------
  // do_execve
  // ---------------------------------------------------------------------

  /** The argument vectors read and the program built, or the first error. */
  function Prepared(
    us: UserSpace, argvPtr: Vaddr, envpPtr: Vaddr, maxNumber: nat, maxLen: nat,
    build: (seq<CString>, seq<CString>) -> Result<ProgramToLoad>): Result<ProgramToLoad>
  {
    var argv :- ReadArgs(us, argvPtr, maxNumber, maxLen);
    var envp :- ReadArgs(us, envpPtr, maxNumber, maxLen);
    build(argv, envp)
  }

  /** The SIGKILLs of `sigkill_other_threads` have been sent to the first
      `k` slots of `tasks`: every task other than `t` has, after its queue
      and wake-ups as `q0` and `w0` record them, one SIGKILL and one wake-up
      per slot it holds among those. */
  ghost predicate KilledUpTo(
    tasks: seq<PosixThread>, t: PosixThread, q0: map<PosixThread, seq<SigNum>>, w0: map<PosixThread, seq<Waker>>, k: nat)
    requires k <= |tasks|
    reads set u | u in tasks
  {
    forall u :: u in tasks && u != t ==>
      && u in q0 && u in w0
      && u.sigQueue == q0[u] + Repeat([SIGKILL], Count(tasks[..k], u))
      && u.woken == w0[u] + Repeat(WakeOf(u.waker), Count(tasks[..k], u))
  }

  /** One iteration of `sigkill_other_threads`: slot `i` gets its SIGKILL
      unless it holds the caller. */
  method SigkillSlot(
    tasks: seq<PosixThread>, t: PosixThread, disp: SigDispositions,
    ghost q0: map<PosixThread, seq<SigNum>>, ghost w0: map<PosixThread, seq<Waker>>, i: nat)
    requires i < |tasks| && KilledUpTo(tasks, t, q0, w0, i)
    requires !WillIgnore(disp.Get(SIGKILL), SIGKILL)
    modifies {tasks[i]}`sigQueue, {tasks[i]}`woken
    ensures KilledUpTo(tasks, t, q0, w0, i + 1)
    ensures t.sigQueue == old(t.sigQueue) && t.woken == old(t.woken)
  {
    var u := tasks[i];
    if u != t {
      u.EnqueueSignal(SIGKILL, disp);
    }
    assert tasks[..i + 1] == tasks[..i] + [u];
    forall v | v in tasks && v != t
      ensures v.sigQueue == q0[v] + Repeat([SIGKILL], Count(tasks[..i + 1], v))
      ensures v.woken == w0[v] + Repeat(WakeOf(v.waker), Count(tasks[..i + 1], v))
    {
      CountAppend(tasks[..i], v, u);
      var n := Count(tasks[..i], v);
      assert old(v.sigQueue) == q0[v] + Repeat([SIGKILL], n);
      assert old(v.woken) == w0[v] + Repeat(WakeOf(v.waker), n);
      if v == u {
        RepeatSnoc(q0[v], [SIGKILL], n);
        RepeatSnoc(w0[v], WakeOf(v.waker), n);
      }
    }
  }

  /** One more copy appended to `prefix` followed by `n` copies. */
  lemma RepeatSnoc<T>(prefix: seq<T>, w: seq<T>, n: nat)
    ensures prefix + Repeat(w, n) + w == prefix + Repeat(w, n + 1)
  {
  }

  /** The loop of `sigkill_other_threads` over the task list `tasks`. */
  method SigkillSlots(tasks: seq<PosixThread>, t: PosixThread, disp: SigDispositions)
    requires !WillIgnore(disp.Get(SIGKILL), SIGKILL)
    modifies (set u | u in tasks)`sigQueue, (set u | u in tasks)`woken
    ensures forall u :: u in tasks && u != t ==>
              && u.sigQueue == old(u.sigQueue) + Repeat([SIGKILL], Count(tasks, u))
              && u.woken == old(u.woken) + Repeat(WakeOf(u.waker), Count(tasks, u))
    ensures t.sigQueue == old(t.sigQueue) && t.woken == old(t.woken)
  {
    ghost var q0: map<PosixThread, seq<SigNum>> := map u: PosixThread | u in tasks :: u.sigQueue;
    ghost var w0: map<PosixThread, seq<Waker>> := map u: PosixThread | u in tasks :: u.woken;
    var i := 0;
    assert KilledUpTo(tasks, t, q0, w0, 0);
    while i < |tasks|
      invariant 0 <= i <= |tasks|
      invariant KilledUpTo(tasks, t, q0, w0, i)
      invariant forall u :: u in tasks ==> q0[u] == old(u.sigQueue) && w0[u] == old(u.woken)
      invariant t.sigQueue == old(t.sigQueue) && t.woken == old(t.woken)
    {
      SigkillSlot(tasks, t, disp, q0, w0, i);
      i := i + 1;
    }
    assert tasks[..i] == tasks;
  }

  /** `sigkill_other_threads` (defined outside this model): SIGKILL is
      enqueued to every task of the set other than the caller, once per slot
      it holds, and each such enqueue wakes the task's signalled waker. The
      caller is left alone. */
  method SigkillOtherThreads(p: Process, t: PosixThread)
    requires Registered(p, t)
    modifies (set u | u in p.tasks.tasks)`sigQueue, (set u | u in p.tasks.tasks)`woken
    ensures forall u :: u in p.tasks.tasks && u != t ==>
              && u.sigQueue == old(u.sigQueue) + Repeat([SIGKILL], Count(p.tasks.tasks, u))
              && u.woken == old(u.woken) + Repeat(WakeOf(u.waker), Count(p.tasks.tasks, u))
    ensures t.sigQueue == old(t.sigQueue) && t.woken == old(t.woken)
  {
    SigkillSlots(p.tasks.tasks, t, p.dispositions);
  }

  /** A thread that holds a slot of the task set and is not the caller has
      a pending SIGKILL after `sigkill_other_threads`. */
  lemma KilledHasPendingSigkill(q: seq<SigNum>, n: nat)
    requires n >= 1
    ensures SIGKILL in q + Repeat([SIGKILL], n)
  {
    assert (q + Repeat([SIGKILL], n))[|q| + |Repeat([SIGKILL], n - 1)|] == SIGKILL;
  }

  /** The first half of `do_execve`: the argument vectors are read and the
      program is built; then, unless an `exit_group` or another `execve` has
      begun (EAGAIN, nothing changed), `in_execve` is set and every other
      thread is sent SIGKILL. */
  method BeginExecve(
    p: Process, t: PosixThread, us: UserSpace, argvPtr: Vaddr, envpPtr: Vaddr,
    maxNumber: nat, maxLen: nat, build: (seq<CString>, seq<CString>) -> Result<ProgramToLoad>)
    returns (r: Result<ProgramToLoad>)
    requires Registered(p, t)
    modifies p.tasks, (set u | u in p.tasks.tasks)`sigQueue, (set u | u in p.tasks.tasks)`woken
    ensures Registered(p, t)
    ensures p.tasks.tasks == old(p.tasks.tasks) && p.tasks.hasExitedMain == old(p.tasks.hasExitedMain)
    ensures p.tasks.hasExitedGroup == old(p.tasks.hasExitedGroup)
    ensures t.sigQueue == old(t.sigQueue)
    ensures Prepared(us, argvPtr, envpPtr, maxNumber, maxLen, build).Err? ==>
              r == Prepared(us, argvPtr, envpPtr, maxNumber, maxLen, build)
    ensures Prepared(us, argvPtr, envpPtr, maxNumber, maxLen, build).Ok? ==>
              r == if old(p.tasks.hasExitedGroup || p.tasks.inExecve) then Err(EAGAIN)
                   else Prepared(us, argvPtr, envpPtr, maxNumber, maxLen, build)
    ensures r.Err? ==> p.tasks.inExecve == old(p.tasks.inExecve)
    ensures r.Err? ==> forall u :: u in p.tasks.tasks ==> u.sigQueue == old(u.sigQueue) && u.woken == old(u.woken)
    ensures t.woken == old(t.woken)
    ensures r.Ok? ==> p.tasks.inExecve
    ensures r.Ok? ==> forall u :: u in p.tasks.tasks && u != t ==>
              && u.sigQueue == old(u.sigQueue) + Repeat([SIGKILL], Count(p.tasks.tasks, u))
              && u.woken == old(u.woken) + Repeat(WakeOf(u.waker), Count(p.tasks.tasks, u))
    ensures r.Ok? ==> forall u :: u in p.tasks.tasks && u != t ==> u.HasPendingSigkill()
  {
    var argv :- ReadCStringVec(us, argvPtr, maxNumber, maxLen);
    var envp :- ReadCStringVec(us, envpPtr, maxNumber, maxLen);
    var program :- build(argv, envp);
    if p.tasks.hasExitedGroup || p.tasks.inExecve {
      return Err(EAGAIN);
    }
    p.tasks.SetInExecve();
    SigkillOtherThreads(p, t);
    forall u | u in p.tasks.tasks && u != t
      ensures u.HasPendingSigkill()
    {
      KilledHasPendingSigkill(old(u.sigQueue), Count(p.tasks.tasks, u));
    }
    r := Ok(program);
  }

  /** The error `do_execve_no_return` returns, if any: EAGAIN for a pending
      SIGKILL, then the error of loading the program, then that of the
      credential update. */
  function NoReturnResult(pendingSigkill: bool, prog: ProgramToLoad): (r: Result<Unit>)
    ensures r.Ok? <==> !pendingSigkill && prog.loaded.Ok? && CapsResult(prog.file).Ok?
    ensures pendingSigkill ==> r == Err(EAGAIN)
    ensures !pendingSigkill && prog.loaded.Err? ==> r == Err(prog.loaded.error)
  {
    if pendingSigkill then Err(EAGAIN)
    else if prog.loaded.Err? then Err(prog.loaded.error)
    else CapsResult(prog.file)
  }

  /** The steps of `do_execve_no_return` after the credential update: the
      vfork parent is released, the file table is unshared without its
      close-on-exec entries, the executable path is recorded, user handlers
      fall back to the default action, and the alternate signal stack and the
      exit signal are reset. */
  method ReplaceImage(p: Process, t: PosixThread, local: ThreadLocal, path: string)
    modifies p`vforkChild, p`executablePath, p`dispositions, p`exitSignal
    modifies t`fileTable, local`fileTable, local`sigStack
    ensures !p.vforkChild
    ensures fresh(local.fileTable) && local.fileTable.entries == KeptOnExec(old(local.fileTable.entries))
    ensures t.fileTable == Some(local.fileTable)
    ensures p.executablePath == path
    ensures p.dispositions == old(p.dispositions).Inherit()
    ensures local.sigStack == DefaultSigStack
    ensures p.exitSignal == Some(SIGCHLD)
  {
    ResetVforkChild(p);
    UnshareAndCloseFiles(t, local);
    p.executablePath := path;
    p.dispositions := p.dispositions.Inherit();
    local.sigStack := DefaultSigStack;
    p.exitSignal := Some(SIGCHLD);
  }

  /** Resetting user handlers keeps SIGKILL from being ignored. */
  lemma InheritKeepsSigkill(d: SigDispositions)
    requires !WillIgnore(d.Get(SIGKILL), SIGKILL)
    ensures !WillIgnore(d.Inherit().Get(SIGKILL), SIGKILL)
  {
  }

  /** `do_execve_no_return`, in source order. */
  method DoExecveNoReturn(
    p: Process, t: PosixThread, local: ThreadLocal, table: ThreadTable, uc: UserContext, prog: ProgramToLoad)
    returns (r: Result<Unit>, uc': UserContext)
    requires Registered(p, t)
    requires WaitStep(p, t) != KeepWaiting
    requires t.tid != p.pid ==> p.pid in table.entries
    modifies p, p.tasks, t`tid, t`credentials, t`fileTable, local, table
    ensures r == NoReturnResult(old(t.HasPendingSigkill()), prog)
    ensures Registered(p, t)
    ensures p.tasks.hasExitedGroup == old(p.tasks.hasExitedGroup) && p.tasks.inExecve == old(p.tasks.inExecve)
    // A pending SIGKILL stops everything before any change.
    ensures old(t.HasPendingSigkill()) ==>
              && uc' == uc && p.tasks.tasks == old(p.tasks.tasks) && t.tid == old(t.tid)
              && table.entries == old(table.entries) && unchanged(local, p) && t.credentials == old(t.credentials)
              && t.fileTable == old(t.fileTable)
    // Otherwise the caller is the main thread and the only task, and the
    // robust list and the clear-child-tid address are reset.
    ensures !old(t.HasPendingSigkill()) ==>
              && p.tasks.tasks == [t] && t.tid == p.pid && !p.tasks.hasExitedMain
              && table.entries == (if old(t.tid) == p.pid then old(table.entries) else old(table.entries)[p.pid := t])
              && local.robustList == None && local.clearChildTid == 0
    // A failed load leaves the CPU state and the rest alone.
    ensures !old(t.HasPendingSigkill()) && prog.loaded.Err? ==>
              && uc' == uc && local.fpu == old(local.fpu) && t.credentials == old(t.credentials)
              && p.parentDeathSignal == old(p.parentDeathSignal)
    ensures !old(t.HasPendingSigkill()) && prog.loaded.Ok? ==>
              local.fpu == FreshFpu && uc' == ResetUserContext(uc, prog.loaded.value)
    // A failed credential update keeps what its uid step did.
    ensures !old(t.HasPendingSigkill()) && prog.loaded.Ok? && CapsResult(prog.file).Err? ==>
              && t.credentials == (if UidReadable(prog.file) then WithUidFromElf(old(t.credentials), prog.file)
                                   else old(t.credentials))
              && p.parentDeathSignal == (if UidReadable(prog.file) && prog.file.mode.value.setUid then None
                                         else old(p.parentDeathSignal))
    // The rest happens only on success.
    ensures r.Ok? ==> CapsResult(prog.file).Ok? && t.credentials == ExecCredentials(old(t.credentials), prog.file)
    ensures r.Ok? ==> p.parentDeathSignal == (if prog.file.mode.value.setUid || prog.file.mode.value.setGid then None
                                              else old(p.parentDeathSignal))
    ensures r.Ok? ==>
              && !p.vforkChild
              && fresh(local.fileTable) && local.fileTable.entries == KeptOnExec(old(local.fileTable.entries))
              && t.fileTable == Some(local.fileTable)
              && p.executablePath == prog.file.absPath
              && p.dispositions == old(p.dispositions).Inherit()
              && local.sigStack == DefaultSigStack
              && p.exitSignal == Some(SIGCHLD)
    ensures r.Err? ==> p.dispositions == old(p.dispositions) && local.fileTable == old(local.fileTable)
    ensures r.Err? ==> t.fileTable == old(t.fileTable)
    ensures r.Err? ==>
              && p.executablePath == old(p.executablePath) && p.exitSignal == old(p.exitSignal)
              && p.vforkChild == old(p.vforkChild) && local.sigStack == old(local.sigStack)
  {
    uc' := uc;
    r := WaitOtherThreadsExit(p, t);
    if r.Err? {
      return;
    }
    MakeCurrentMainThread(p, t, table);
    local.robustList := None;
    local.clearChildTid := 0;
    if prog.loaded.Err? {
      return Err(prog.loaded.error), uc;
    }
    uc' := SetCpuContext(local, uc, prog.loaded.value);
    r := ApplyCapsFromExec(p, t, prog.file);
    if r.Err? {
      return;
    }
    InheritKeepsSigkill(p.dispositions);
    ReplaceImage(p, t, local, prog.file.absPath);
  }

  /** The second half of `do_execve`: any error of `do_execve_no_return`
      enqueues SIGKILL to the caller and is returned; `in_execve` is reset on
      every path. */
  method FinishExecve(
    p: Process, t: PosixThread, local: ThreadLocal, table: ThreadTable, uc: UserContext, prog: ProgramToLoad)
    returns (r: Result<Unit>, uc': UserContext)
    requires Registered(p, t) && p.tasks.inExecve
    requires WaitStep(p, t) != KeepWaiting
    requires t.tid != p.pid ==> p.pid in table.entries
    modifies p, p.tasks, t`tid, t`credentials, t`sigQueue, t`woken, t`fileTable, local, table
    ensures r == NoReturnResult(old(t.HasPendingSigkill()), prog)
    ensures Registered(p, t)
    ensures !p.tasks.inExecve && p.tasks.hasExitedGroup == old(p.tasks.hasExitedGroup)
    ensures r.Err? ==> t.sigQueue == old(t.sigQueue) + [SIGKILL]
    ensures r.Ok? ==> t.sigQueue == old(t.sigQueue)
    ensures r.Err? ==> t.woken == old(t.woken) + WakeOf(old(t.waker))
    ensures r.Ok? ==> t.woken == old(t.woken)
    // A pending SIGKILL stops everything before any change but the reset flag.
    ensures old(t.HasPendingSigkill()) ==>
              && uc' == uc && p.tasks.tasks == old(p.tasks.tasks) && t.tid == old(t.tid)
              && table.entries == old(table.entries) && unchanged(local, p) && t.credentials == old(t.credentials)
              && t.fileTable == old(t.fileTable)
    // Otherwise the caller has become the main thread and the only task.
    ensures !old(t.HasPendingSigkill()) ==>
              && p.tasks.tasks == [t] && t.tid == p.pid && !p.tasks.hasExitedMain
              && table.entries == (if old(t.tid) == p.pid then old(table.entries) else old(table.entries)[p.pid := t])
              && local.robustList == None && local.clearChildTid == 0
    ensures !old(t.HasPendingSigkill()) && prog.loaded.Err? ==>
              && uc' == uc && local.fpu == old(local.fpu) && t.credentials == old(t.credentials)
              && p.parentDeathSignal == old(p.parentDeathSignal)
    ensures !old(t.HasPendingSigkill()) && prog.loaded.Ok? && CapsResult(prog.file).Err? ==>
              && local.fpu == FreshFpu && uc' == ResetUserContext(uc, prog.loaded.value)
              && t.credentials == (if UidReadable(prog.file) then WithUidFromElf(old(t.credentials), prog.file)
                                   else old(t.credentials))
              && p.parentDeathSignal == (if UidReadable(prog.file) && prog.file.mode.value.setUid then None
                                         else old(p.parentDeathSignal))
    // On success the image is replaced: new CPU context, credentials, file
    // table, executable path, dispositions, signal stack and exit signal.
    ensures r.Ok? ==>
              && prog.loaded.Ok? && local.fpu == FreshFpu && uc' == ResetUserContext(uc, prog.loaded.value)
              && CapsResult(prog.file).Ok? && t.credentials == ExecCredentials(old(t.credentials), prog.file)
              && !p.vforkChild
              && fresh(local.fileTable) && local.fileTable.entries == KeptOnExec(old(local.fileTable.entries))
              && t.fileTable == Some(local.fileTable)
              && p.executablePath == prog.file.absPath
              && p.dispositions == old(p.dispositions).Inherit()
              && local.sigStack == DefaultSigStack
              && p.exitSignal == Some(SIGCHLD)
              && p.parentDeathSignal == (if prog.file.mode.value.setUid || prog.file.mode.value.setGid then None
                                         else old(p.parentDeathSignal))
    ensures r.Err? ==>
              && p.dispositions == old(p.dispositions) && local.fileTable == old(local.fileTable)
              && t.fileTable == old(t.fileTable)
              && p.executablePath == old(p.executablePath) && p.exitSignal == old(p.exitSignal)
              && p.vforkChild == old(p.vforkChild) && local.sigStack == old(local.sigStack)
  {
    r, uc' := DoExecveNoReturn(p, t, local, table, uc, prog);
    if r.Err? {
      t.EnqueueSignal(SIGKILL, p.dispositions);
    }
    p.tasks.ResetInExecve();
  }
}
