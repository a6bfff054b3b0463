/** The `unshare` system call (kernel/src/syscall/unshare.rs): the flags are
    decoded, completed with the flags they imply and validated; then the file
    table, the file-system information and the namespaces are unshared, in
    that order, as the flags ask. */
module Unshare {
  import opened Prelude
  import opened CloneFlagBits
  import opened PosixThreads
  import opened TaskSets
  import opened UserNamespaces
  import opened Namespaces
  import opened ThreadLocals

  // ---------------------------------------------------------------------
  // Implied flags
  // ---------------------------------------------------------------------

  /** The implications `unshare` honours: a new user namespace needs its own
      thread group and file-system information, unsharing the signal
      handlers needs its own thread group, and a new mount namespace needs
      its own file-system information. */
  predicate ImplicationsHold(f: Flags) {
    && (NEWUSER in f ==> THREAD in f && FS in f)
    && (SIGHAND in f ==> THREAD in f)
    && (NEWNS in f ==> FS in f)
  }

  /** The flags with everything they imply added, in one step. */
  function Implied(f: Flags): Flags {
    f + (if NEWUSER in f || SIGHAND in f then {THREAD} else {})
      + (if NEWUSER in f || NEWNS in f then {FS} else {})
  }

  /** `Implied(f)` is the least set containing `f` in which the implications
      hold: it contains `f`, they hold in it, and every such set contains
      it. */
  lemma ImpliedIsLeastClosure(f: Flags, g: Flags)
    ensures f <= Implied(f) && ImplicationsHold(Implied(f))
    ensures f <= g && ImplicationsHold(g) ==> Implied(f) <= g
  {
  }

  /** Completing a set in which the implications already hold changes
      nothing; so completing twice is completing once. */
  lemma ImpliedIdempotent(f: Flags)
    ensures ImplicationsHold(f) ==> Implied(f) == f
    ensures Implied(Implied(f)) == Implied(f)
  {
  }

  /** `apply_implied_flags`: the three implications applied one after the
      other to the flags. */
  method ApplyImpliedFlags(flags: Flags) returns (r: Flags)
    ensures r == Implied(flags)
  {
    r := flags;
    if NEWUSER in r {
      r := r + {THREAD, FS};
    }
    if SIGHAND in r {
      r := r + {THREAD};
    }
    if NEWNS in r {
      r := r + {FS};
    }
  }

  // ---------------------------------------------------------------------
  // Validation
  // ---------------------------------------------------------------------

  /** The flags `unshare` accepts: the namespace flags, FILES, FS, SYSVSEM,
      THREAD, VM and SIGHAND. */
  const VALID_FLAGS: Flags := CLONE_NS_FLAGS + {FILES, FS, SYSVSEM, THREAD, VM, SIGHAND}

  /** The flags that only a single-threaded process may unshare. */
  const SINGLE_THREAD_FLAGS: Flags := {THREAD, VM, SIGHAND}

  /** `check_flags`, given the number of tasks of the process and the
      reference count of the thread's root VMAR: EINVAL for a flag outside
      `VALID_FLAGS`, for THREAD, VM or SIGHAND in a process with more than
      one task, and for VM when the VMAR is shared (its count is not 2). */
  function CheckFlags(flags: Flags, taskCount: nat, rootVmarRefCount: nat): (r: Result<Unit>)
    ensures r.Ok? <==>
              && flags <= VALID_FLAGS
              && (flags * SINGLE_THREAD_FLAGS != {} ==> taskCount == 1)
              && (VM in flags ==> rootVmarRefCount == 2)
    ensures r.Err? ==> r.error == EINVAL
  {
    if flags - VALID_FLAGS != {} then Err(EINVAL)
    else if flags * SINGLE_THREAD_FLAGS != {} && taskCount != 1 then Err(EINVAL)
    else if VM in flags && rootVmarRefCount != 2 then (assert VM in flags * SINGLE_THREAD_FLAGS; Err(EINVAL))
    else Ok(Unit)
  }

  /** Completing valid flags never adds an invalid one; a flag outside the
      valid set is refused whatever the process looks like. */
  lemma ImpliedStaysValid(flags: Flags, taskCount: nat, rootVmarRefCount: nat)
    ensures flags <= VALID_FLAGS ==> Implied(flags) <= VALID_FLAGS
    ensures !(flags <= VALID_FLAGS) ==> CheckFlags(Implied(flags), taskCount, rootVmarRefCount) == Err(EINVAL)
  {
  }

  // ---------------------------------------------------------------------
  // The unsharing steps
  // ---------------------------------------------------------------------

  /** `unshare_files`: with FILES, one fresh copy of the file table becomes
      both the posix-thread table and the thread-local table; without it
      nothing changes. */
  method UnshareFiles(flags: Flags, t: PosixThread, local: ThreadLocal)
    modifies t`fileTable, local`fileTable
    ensures FILES in flags ==>
              fresh(local.fileTable) && local.fileTable.entries == old(local.fileTable.entries)
              && t.fileTable == Some(local.fileTable)
    ensures FILES !in flags ==>
              t.fileTable == old(t.fileTable) && local.fileTable == old(local.fileTable)
  {
    if FILES !in flags {
      return;
    }
    UnshareFileTable(t, local);
  }

  /** `unshare_fs`: with FS, the thread gets its own copy of its file-system
      information; without it nothing changes. */
  method UnshareFs(flags: Flags, local: ThreadLocal)
    modifies local`fs
    ensures FS in flags ==>
              fresh(local.fs) && local.fs.resolver == old(local.fs.resolver)
              && local.fs.resolverNs == old(local.fs.resolverNs) && local.fs.umask == old(local.fs.umask)
    ensures FS !in flags ==> local.fs == old(local.fs)
  {
    if FS !in flags {
      return;
    }
    local.fs := new ThreadFsInfo.Copy(local.fs);
  }

  /** What `unshare_namespaces` returns: Ok without a namespace flag, EINVAL
      for NEWUSER, and otherwise what `new_child` returns, which is EINVAL for
      an unsupported namespace flag and EPERM without SYS_ADMIN in the
      thread's user namespace. */
  function NamespacesOutcome(flags: Flags, userNs: UserNamespace, sysAdminIn: set<UserNamespace>): Result<Unit> {
    if flags * CLONE_NS_FLAGS == {} then Ok(Unit)
    else if NEWUSER in flags then Err(EINVAL)
    else if CheckUnsupportedNsFlags(flags).Err? then Err(EINVAL)
    else if userNs !in sysAdminIn then Err(EPERM)
    else Ok(Unit)
  }

  /** A namespace flag other than NEWUSER leaves `new_child` something to
      clone. */
  lemma NsFlagLeftToClone(flags: Flags)
    requires flags * CLONE_NS_FLAGS != {} && NEWUSER !in flags
    ensures NsFlagsToClone(flags) != {}
  {
    var f :| f in flags * CLONE_NS_FLAGS;
    assert f in NsFlagsToClone(flags);
  }

  /** `unshare_namespaces`. On success a new context from `new_child` (a new
      UTS namespace for NEWUTS, a new mount namespace for NEWNS, every other
      one shared) becomes both the posix-thread and the thread-local
      context, and for NEWNS the resolver is switched to the new mount
      namespace. On failure nothing changes. */
  method UnshareNamespaces(flags: Flags, t: PosixThread, local: ThreadLocal, sysAdminIn: set<UserNamespace>)
    returns (r: Result<Unit>)
    modifies t`nsContext, local`nsContext, local.fs`resolverNs
    ensures r == NamespacesOutcome(flags, local.userNs, sysAdminIn)
    ensures r.Err? || flags * CLONE_NS_FLAGS == {} ==>
              t.nsContext == old(t.nsContext) && local.nsContext == old(local.nsContext)
              && local.fs.resolverNs == old(local.fs.resolverNs)
    ensures r.Ok? && flags * CLONE_NS_FLAGS != {} ==>
              && fresh(local.nsContext) && t.nsContext == Some(local.nsContext)
              && (NEWUTS in flags ==>
                    fresh(local.nsContext.utsNs) && local.nsContext.utsNs.owner == local.userNs
                    && local.nsContext.utsNs.utsName == old(local.nsContext.utsNs.utsName))
              && (NEWUTS !in flags ==> local.nsContext.utsNs == old(local.nsContext.utsNs))
              && (NEWNS in flags ==>
                    fresh(local.nsContext.mntNs) && local.nsContext.mntNs.owner == local.userNs
                    && local.fs.resolverNs == local.nsContext.mntNs)
              && (NEWNS !in flags ==>
                    local.nsContext.mntNs == old(local.nsContext.mntNs)
                    && local.fs.resolverNs == old(local.fs.resolverNs))
  {
    if flags * CLONE_NS_FLAGS == {} {
      return Ok(Unit);
    }
    if NEWUSER in flags {
      return Err(EINVAL);
    }
    NsFlagLeftToClone(flags);
    var context :- local.nsContext.NewChild(local.userNs, flags, sysAdminIn);
    t.nsContext := Some(context);
    local.nsContext := context;
    if NEWNS in flags {
      local.fs.SwitchToMntNs(context.mntNs);
    }
    r := Ok(Unit);
  }

  // ---------------------------------------------------------------------
  // The system call
  // ---------------------------------------------------------------------

  /** The flags `sys_unshare` goes on to act on: the decoded flags with what
      they imply, once `check_flags` accepts them for a process with
      `taskCount` tasks whose root VMAR has `rootVmarRefCount` references. */
  function Requested(raw: Word, taskCount: nat, rootVmarRefCount: nat): Result<Flags> {
    var flags :- FromBits(raw);
    var all := Implied(flags);
    var _ :- CheckFlags(all, taskCount, rootVmarRefCount);
    Ok(all)
  }

  /** What `sys_unshare` returns, given also the thread's user namespace and
      the user namespaces in which the thread holds SYS_ADMIN. */
  function UnshareOutcome(
    raw: Word, taskCount: nat, rootVmarRefCount: nat, userNs: UserNamespace, sysAdminIn: set<UserNamespace>)
    : Result<SyscallReturn>
  {
    var all :- Requested(raw, taskCount, rootVmarRefCount);
    var _ :- NamespacesOutcome(all, userNs, sysAdminIn);
    Ok(Return(0))
  }

  /** With no flag at all `unshare` does nothing and returns 0. */
  lemma UnshareNothing(taskCount: nat, rootVmarRefCount: nat, userNs: UserNamespace, sysAdminIn: set<UserNamespace>)
    ensures Requested({}, taskCount, rootVmarRefCount) == Ok({})
    ensures UnshareOutcome({}, taskCount, rootVmarRefCount, userNs, sysAdminIn) == Ok(Return(0))
  {
    FromBitsZero();
    assert Implied({}) == {};
  }

  /** A new user namespace is refused with EINVAL, whatever else is asked
      for and whoever asks. */
  lemma UnshareNewUserRefused(
    raw: Word, taskCount: nat, rootVmarRefCount: nat, userNs: UserNamespace, sysAdminIn: set<UserNamespace>)
    requires FromBits(raw).Ok? && NEWUSER in FromBits(raw).value
    ensures UnshareOutcome(raw, taskCount, rootVmarRefCount, userNs, sysAdminIn) == Err(EINVAL)
  {
    var all := Implied(FromBits(raw).value);
    assert NEWUSER in all * CLONE_NS_FLAGS;
  }

  /** Unsharing only the file table and the file-system information always
      succeeds. */
  lemma UnshareFilesAndFsSucceed(
    raw: Word, taskCount: nat, rootVmarRefCount: nat, userNs: UserNamespace, sysAdminIn: set<UserNamespace>)
    requires FromBits(raw).Ok? && FromBits(raw).value <= {FILES, FS}
    ensures UnshareOutcome(raw, taskCount, rootVmarRefCount, userNs, sysAdminIn) == Ok(Return(0))
  {
    var all := Implied(FromBits(raw).value);
    assert all == FromBits(raw).value;
    assert all * SINGLE_THREAD_FLAGS == {};
    assert all * CLONE_NS_FLAGS == {};
  }

  /** `sys_unshare`. Undefined bits, and flags `check_flags` refuses once
      completed, give EINVAL with nothing changed. Otherwise the file table
      and the file-system information are unshared as the completed flags
      ask, and then the namespaces: so a refused namespace request (NEWUSER
      among them) still leaves the file table and file-system information
      unshared. The file-system information the thread held before is never
      switched to another mount namespace. */
  method SysUnshare(
    raw: Word, tasks: TaskSet, t: PosixThread, local: ThreadLocal, sysAdminIn: set<UserNamespace>)
    returns (r: Result<SyscallReturn>)
    modifies t`fileTable, local`fileTable, local`fs, t`nsContext, local`nsContext, local.fs`resolverNs
    ensures r == UnshareOutcome(raw, |tasks.tasks|, local.rootVmarRefCount, local.userNs, sysAdminIn)
    ensures old(local.fs).resolverNs == old(local.fs.resolverNs)
    ensures Requested(raw, |tasks.tasks|, local.rootVmarRefCount).Err? ==>
              && t.fileTable == old(t.fileTable) && local.fileTable == old(local.fileTable)
              && local.fs == old(local.fs)
              && t.nsContext == old(t.nsContext) && local.nsContext == old(local.nsContext)
    ensures Requested(raw, |tasks.tasks|, local.rootVmarRefCount).Ok? ==>
              var all := Requested(raw, |tasks.tasks|, local.rootVmarRefCount).value;
              && (FILES in all <==> local.fileTable != old(local.fileTable))
              && (FILES in all ==>
                    fresh(local.fileTable) && local.fileTable.entries == old(local.fileTable.entries)
                    && t.fileTable == Some(local.fileTable))
              && (FILES !in all ==> t.fileTable == old(t.fileTable))
              && (FS in all <==> local.fs != old(local.fs))
              && (FS in all ==> fresh(local.fs))
              && (r.Err? ==> t.nsContext == old(t.nsContext) && local.nsContext == old(local.nsContext))
              && (r.Ok? && all * CLONE_NS_FLAGS != {} ==>
                    fresh(local.nsContext) && t.nsContext == Some(local.nsContext))
              && (r.Ok? && NEWNS in all ==> local.fs.resolverNs == local.nsContext.mntNs)
  {
    var flags :- FromBits(raw);
    flags := ApplyImpliedFlags(flags);
    var _ :- CheckFlags(flags, |tasks.tasks|, local.rootVmarRefCount);
    UnshareFiles(flags, t, local);
    UnshareFs(flags, local);
    var _ :- UnshareNamespaces(flags, t, local, sysAdminIn);
    r := Ok(Return(0));
  }
}
