/** The `setns` system call (kernel/src/syscall/setns.rs): the calling
    thread joins namespaces of the process behind a pidfd. Only the UTS
    namespace is taken from the target; every other namespace of the new
    context is the caller's own. */
module Setns {
  import opened Prelude
  import opened CloneFlagBits
  import opened Files
  import opened PosixThreads
  import opened UserNamespaces
  import opened Uts
  import opened Namespaces
  import opened ThreadLocals

  /** The flag checks of `build_context_from_pid_file`, in their order, each
      failing with EINVAL: no flag at all, a flag that names no namespace,
      NEWUSER, and a namespace without support. */
  function CheckPidFileFlags(flags: Flags): (r: Result<Unit>)
    ensures r.Err? ==> r.error == EINVAL
  {
    if flags == {} then Err(EINVAL)
    else if flags - CLONE_NS_FLAGS != {} then Err(EINVAL)
    else if NEWUSER in flags then Err(EINVAL)
    else CheckUnsupportedNsFlags(flags)
  }

  /** The flags a pidfd accepts are exactly the non-empty subsets of NEWUTS
      and NEWNS. */
  lemma PidFileFlagsAccepted(flags: Flags)
    ensures CheckPidFileFlags(flags).Ok? <==> flags != {} && flags <= SUPPORTED_NS_FLAGS
  {
    NsFlagsPartition();
    if CheckPidFileFlags(flags).Ok? {
      forall f | f in flags
        ensures f in SUPPORTED_NS_FLAGS
      {
        assert f !in flags * UNSUPPORTED_NS_FLAGS;
      }
    }
  }

  /** What `build_context_from_pid_file` reports, given the target's
      namespace context (None once the target has exited), the caller's user
      namespace and the user namespaces in which the caller holds SYS_ADMIN:
      the flag checks, then ESRCH for an exited target, then for NEWUTS the
      SYS_ADMIN checks of `set_uts_ns`, first in the owner of the target's
      UTS namespace and then in the caller's user namespace. */
  function BuildOutcome(
    flags: Flags, target: Option<NsContext>, userNs: UserNamespace, sysAdminIn: set<UserNamespace>)
    : Result<Unit>
  {
    var _ :- CheckPidFileFlags(flags);
    if target.None? then Err(ESRCH)
    else if NEWUTS in flags then
      var _ :- CheckSysAdmin(target.value.utsNs.owner, sysAdminIn);
      CheckSysAdmin(userNs, sysAdminIn)
    else Ok(Unit)
  }

  /** Joining only a mount namespace needs no capability: the request is
      accepted but changes no namespace. Joining a UTS namespace needs
      SYS_ADMIN both where the target's UTS namespace is owned and in the
      caller's own user namespace. */
  lemma BuildOutcomeCases(target: NsContext, userNs: UserNamespace, sysAdminIn: set<UserNamespace>)
    ensures BuildOutcome({NEWNS}, Some(target), userNs, sysAdminIn) == Ok(Unit)
    ensures (BuildOutcome({NEWUTS}, Some(target), userNs, sysAdminIn).Ok?
             <==> target.utsNs.owner in sysAdminIn && userNs in sysAdminIn)
    ensures BuildOutcome({NEWUTS}, None, userNs, sysAdminIn) == Err(ESRCH)
  {
    PidFileFlagsAccepted({NEWNS});
    PidFileFlagsAccepted({NEWUTS});
  }

  /** `set_uts_ns`: EPERM unless the caller holds SYS_ADMIN in the owner of
      `targetNs` and in its own user namespace; then the builder takes
      `targetNs`. */
  method SetUtsNs(
    builder: NsContextCloneBuilder, targetNs: UtsNamespace, userNs: UserNamespace,
    sysAdminIn: set<UserNamespace>)
    returns (r: Result<Unit>)
    modifies builder
    ensures r.Ok? <==> targetNs.owner in sysAdminIn && userNs in sysAdminIn
    ensures r.Err? ==> r.error == EPERM && builder.newUtsNs == old(builder.newUtsNs)
    ensures r.Ok? ==> builder.newUtsNs == Some(targetNs)
    ensures builder.newMntNs == old(builder.newMntNs)
  {
    var _ :- CheckSysAdmin(targetNs.owner, sysAdminIn);
    var _ :- CheckSysAdmin(userNs, sysAdminIn);
    builder.SetNewUtsNs(targetNs);
    r := Ok(Unit);
  }

  /** `build_context_from_pid_file`, with `target` the main thread of the
      process behind the pidfd. On success the new context shares the
      target's UTS namespace when NEWUTS is asked for, and is otherwise made
      of the caller's current namespaces. */
  method BuildContextFromPidFile(
    flags: Flags, target: PosixThread, local: ThreadLocal, sysAdminIn: set<UserNamespace>)
    returns (r: Result<NsContext>)
    ensures var o := BuildOutcome(flags, target.nsContext, local.userNs, sysAdminIn);
            (r.Ok? <==> o.Ok?) && (r.Err? ==> r.error == o.error)
    ensures r.Ok? ==> fresh(r.value)
    ensures r.Ok? && NEWUTS in flags ==> r.value.utsNs == target.nsContext.value.utsNs
    ensures r.Ok? && NEWUTS !in flags ==> r.value.utsNs == local.nsContext.utsNs
    ensures r.Ok? ==> r.value.mntNs == local.nsContext.mntNs
  {
    var _ :- CheckPidFileFlags(flags);
    if target.nsContext.None? {
      return Err(ESRCH);
    }
    var targetContext := target.nsContext.value;
    var builder := new NsContextCloneBuilder(local.nsContext);
    if NEWUTS in flags {
      var _ :- SetUtsNs(builder, targetContext.utsNs, local.userNs, sysAdminIn);
    }
    var context := builder.Build();
    r := Ok(context);
  }

  /** `sys_setns`, with `mainThreads` giving the main thread of each process
      a pidfd of the caller refers to (a pidfd keeps its process alive).
      Undefined flag bits give EINVAL, an unknown fd EBADF, and an fd that
      is not a pidfd EINVAL; then the context is built as `BuildOutcome` says,
      and only a context built without error is installed: it becomes the posix-thread and the thread-local context,
      and the resolver is switched to its mount namespace. */
  method SysSetns(
    fd: int, raw: Word, t: PosixThread, local: ThreadLocal, mainThreads: map<Pid, PosixThread>,
    sysAdminIn: set<UserNamespace>)
    returns (r: Result<SyscallReturn>)
    requires forall d :: d in local.fileTable.entries && local.fileTable.entries[d].file.PidFile? ==>
               local.fileTable.entries[d].file.pid in mainThreads
    modifies t`nsContext, local`nsContext, local.fs`resolverNs
    ensures FromBits(raw).Err? ==> r == Err(EINVAL)
    ensures FromBits(raw).Ok? && local.fileTable.Get(fd).Err? ==> r == Err(EBADF)
    ensures FromBits(raw).Ok? && local.fileTable.Get(fd).Ok? && !local.fileTable.Get(fd).value.PidFile? ==>
              r == Err(EINVAL)
    ensures FromBits(raw).Ok? && local.fileTable.Get(fd).Ok? && local.fileTable.Get(fd).value.PidFile? ==>
              var target := mainThreads[local.fileTable.Get(fd).value.pid];
              var o := old(BuildOutcome(FromBits(raw).value, target.nsContext, local.userNs, sysAdminIn));
              (r.Ok? <==> o.Ok?) && (r.Err? ==> r.error == o.error)
              && (r.Ok? && NEWUTS in FromBits(raw).value ==>
                    local.nsContext.utsNs == old(target.nsContext.value.utsNs))
    ensures r.Ok? ==> r.value == Return(0)
    ensures r.Err? ==>
              t.nsContext == old(t.nsContext) && local.nsContext == old(local.nsContext)
              && local.fs.resolverNs == old(local.fs.resolverNs)
    ensures r.Ok? ==>
              && fresh(local.nsContext) && t.nsContext == Some(local.nsContext)
              && local.nsContext.mntNs == old(local.nsContext.mntNs)
              && local.fs.resolverNs == local.nsContext.mntNs
  {
    var flags :- FromBits(raw);
    var file :- local.fileTable.Get(fd);
    if !file.PidFile? {
      return Err(EINVAL);
    }
    var context :- BuildContextFromPidFile(flags, mainThreads[file.pid], local, sysAdminIn);
    Install(context, t, local);
    r := Ok(Return(0));
  }
}
