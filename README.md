# A Dafny model of the Asterinas process, namespace and system-call core

Asterinas is a Linux-compatible kernel written in Rust. This project models
the parts of it that replace a process image and that move a thread between
namespaces, with the system calls and helpers around them:

- **Process image replacement** (`execve`, `execveat`): the argument and
  environment vectors read from user memory, the executable looked up by
  path or by descriptor, the barrier that kills and waits for the other
  threads of the process, the caller becoming the main thread, the file
  table unshared and its close-on-exec entries closed, the signal
  dispositions reset, and the set-user-ID and set-group-ID credentials.
- **POSIX threads and the task set**: thread identifiers, the pending
  signal queue and the signalled waker; the process's task list with its
  main-thread placeholder and its "exiting" and "in execve" flags.
- **Namespaces**: the namespace context (`NsContext`) and its clone
  builder, UTS namespaces with the initial `uname` strings, mount
  namespaces and the detaching of their mount trees, `unshare` and
  `setns`, and the CAP_SYS_ADMIN checks they make.
- **Signals**: `rt_sigaction`, including the discarding of pending signals
  that become ignored.
- **Files and sockets**: `open`, `openat` and `creat` (with the
  `/proc/self/fd/N` path), `socket`, and the `/dev/full` device.
- **Networking helpers**: the TCP option names, the TCP retransmission
  and keep-alive timing helpers, and the netlink segment header with its
  attributes.
- **procfs**: the contents of `/proc/[pid]/gid_map`.
- **The flame-graph script** (`generate_flamegraph.py`), which turns
  debugger stack traces into folded stacks.

Each source file is one module. Objects whose fields the kernel updates in
place (threads, the task set, file tables, mount namespaces, the
thread-local state, the netlink writer, `/dev/full`'s writer) are classes
whose methods state their whole new state. Pure computations (flag
decoding, option tables, formats, the script's text processing) are
functions, with lemmas for their round trips and invariants. Results that
the kernel returns as `Result<_, Error>` are a `Result` datatype carrying
the errno, so every error path is part of the model except those listed
under "Left out".

Collaborators whose code is not part of this model (reading user memory,
the ELF loader, path lookup, `check_cap`, the type decoders of the socket
call) are parameters: a function, a set of permitted namespaces, or a
value chosen by the caller.

## Model

| member | source | states |
|---|---|---|
| PosixThreads.PosixThread.constructor | kernel/src/process/posix_thread/mod.rs:41-83 | a new thread has the given pid, tid, credentials, file table and namespaces, no blocked or pending signal, no waker, and has not exited |
| PosixThreads.PosixThread.SetMain | kernel/src/process/posix_thread/mod.rs:100-105 | requires the process id and a tid different from it (the two debug asserts); afterwards the tid is the process id |
| PosixThreads.PosixThread.SetSignalledWaker | kernel/src/process/posix_thread/mod.rs:154-158 | requires an empty slot (the assert) and fills it with the waker |
| PosixThreads.PosixThread.ClearSignalledWaker | kernel/src/process/posix_thread/mod.rs:161-163 | the slot is empty afterwards |
| PosixThreads.PosixThread.WakeSignalledWaker | kernel/src/process/posix_thread/mod.rs:166-170 | exactly one wake-up of the waker in the slot when there is one, none otherwise |
| PosixThreads.PosixThread.EnqueueSignal | kernel/src/process/posix_thread/mod.rs:177-190 | a signal that the disposition ignores and the thread does not block is dropped with nothing changed; any other is appended to the queue and the slot's waker is woken |
| PosixThreads.PosixThread.DequeueSignal | kernel/src/process/posix_thread/mod.rs:135-137 | removes and returns the oldest pending signal outside the mask, keeping the others in order; none when every pending signal is masked |
| PosixThreads.FirstOutsideUnique | kernel/src/process/posix_thread/mod.rs:135-137 | the dequeue position is the unique index whose earlier signals are all masked and which is itself unmasked or past the end |
| PosixThreads.BlockedOrKillNeverDropped | kernel/src/process/posix_thread/mod.rs:182-186 | a blocked signal is never dropped, nor a SIGKILL whose disposition is not "ignore" |
| PosixThreads.TidAllocator.constructor | kernel/src/process/posix_thread/mod.rs:265 | the counter starts at 1 |
| PosixThreads.TidAllocator.Allocate | kernel/src/process/posix_thread/mod.rs:268-281 | returns the counter, advances it by one with 32-bit wrap-around, warns exactly when the id is at least `PID_MAX` and still returns it, after which `last_tid` is that id |
| PosixThreads.PredSucc | kernel/src/process/posix_thread/mod.rs:284-286 | helper for `Allocate`: the wrapping decrement undoes the wrapping increment |
| PosixThreads.TidAllocator.AllocateMany | kernel/src/process/posix_thread/mod.rs:268-281 | `n` successive calls of `allocate_posix_tid` return exactly the ids `Allocations` lists from the counter, and leave the counter advanced by `n` modulo 2^32 |
| PosixThreads.AllocationsIncrease | kernel/src/process/posix_thread/mod.rs:268-269 | while the counter does not wrap, successive allocations return consecutive, strictly increasing ids starting at the counter |
| PosixThreads.FirstIdsFromOne | kernel/src/process/posix_thread/mod.rs:265-269 | a fresh allocator hands out 1, 2, 3, ... |
| PosixThreads.FirstOutside | kernel/src/process/posix_thread/mod.rs:135-137 | the dequeue position: every earlier pending signal is masked and the signal there, if any, is not |
| TaskSets.TaskSet.constructor | kernel/src/process/task_set.rs:19-26 | a new task set has no tasks and none of the three flags set |
| TaskSets.TaskSet.Main | kernel/src/process/task_set.rs:122-124 | `main` is a task of the set, the one in its first slot |
| TaskSets.TaskSet.Insert | kernel/src/process/task_set.rs:32-39 | once a group exit or an exec has begun the task is handed back and the tasks and flags are untouched; otherwise the task is appended at the end and the flags are kept |
| TaskSets.TaskSet.RemoveExited | kernel/src/process/task_set.rs:51-66 | the slot-0 task stays as a placeholder and `has_exited_main` is set (a second exit of slot 0 is excluded, being the assert); any other member is swap-removed; the result holds iff the main thread has exited and only its placeholder is left; a non-member is excluded (the `unwrap` panic) |
| TaskSets.TaskSet.SetMain | kernel/src/process/task_set.rs:77-85 | with exactly two tasks, the main one exited and the caller in slot 1, the task set becomes exactly `[caller]` and `has_exited_main` is cleared |
| TaskSets.TaskSet.SetExitedGroup | kernel/src/process/task_set.rs:88-91 | requires no exec in progress; sets `has_exited_group` only, so the two terminal flags are never both set |
| TaskSets.TaskSet.SetInExecve | kernel/src/process/task_set.rs:99-102 | requires no group exit; sets `in_execve` only, keeping the two flags exclusive |
| TaskSets.TaskSet.ResetInExecve | kernel/src/process/task_set.rs:105-107 | clears `in_execve` and changes nothing else |
| TaskSets.Position | kernel/src/process/task_set.rs:52-56 | the first slot holding the task, and no slot before it holds it |
| TaskSets.SwapRemoveSpec | kernel/src/process/task_set.rs:62 | swap-removing slot `i` removes exactly one copy of the element there, keeps all the others as a multiset, and leaves every slot before `i` (so slot 0 for a non-main task) in place |
| Execve.WaitStep | kernel/src/process/execve.rs:137-156 | one iteration of the waiting loop aborts with EAGAIN exactly when SIGKILL is pending; it leaves the loop only when one task (for the main thread) or two tasks with the main thread exited (for another thread) remain |
| Execve.ProceedLeavesCallerAlone | kernel/src/process/execve.rs:137-156 | when the waiting loop is left without error, the caller has no pending SIGKILL and is the only live task: alone if it is the main thread, otherwise in slot 1 beside the exited main thread |
| Execve.WaitOtherThreadsExit | kernel/src/process/execve.rs:137-161 | at the iteration that leaves the loop, fails exactly when the caller has a pending SIGKILL, and then with EAGAIN |
| Execve.MakeCurrentMainThread | kernel/src/process/execve.rs:163-178 | the caller ends as the only task, with the pid as its tid, and the thread table maps the pid to it; nothing changes for a caller that was already the main thread; requires the pid in the table (the assert) |
| Execve.ResetUserContext | kernel/src/process/execve.rs:188-196 | every general register is zero, the TLS pointer is cleared, and execution resumes at the entry point on the new user stack |
| Execve.SetCpuContext | kernel/src/process/execve.rs:180-198 | the FPU state is fresh and the user context is the reset one |
| Execve.SetUidFromElf | kernel/src/process/execve.rs:272-288 | fails exactly when the mode, or the owner of a set-user-id file, cannot be read, changing nothing; otherwise the effective uid is the owner for a set-user-id file and unchanged otherwise, the saved uid equals it, and a set-user-id file clears the parent-death signal |
| Execve.SetGidFromElf | kernel/src/process/execve.rs:290-306 | the same for the group, the set-group-id bit, the effective and the saved gid |
| Execve.ExecCredentialsRules | kernel/src/process/execve.rs:200-213 | after a successful credential update the real ids are kept, the effective ids follow the set-id bits, the saved ids equal the effective ones, and capabilities are not kept |
| Execve.ApplyCapsFromExec | kernel/src/process/execve.rs:200-213 | returns the first error of the uid step then the gid step; on success the credentials are the exec credentials and the parent-death signal is cleared when either set-id bit is set; an unreadable uid step changes nothing; a failing gid step keeps what the uid step did to the credentials and the parent-death signal |
| Execve.ResetVforkChild | kernel/src/process/execve.rs:215-222 | the process is no longer a vfork child |
| Execve.UnshareAndCloseFiles | kernel/src/process/execve.rs:224-232 | the thread gets a fresh file table, installed in both places, holding exactly the old entries that are not close-on-exec |
| Execve.ArgString | kernel/src/process/execve.rs:257-265 | ENAMETOOLONG from reading a string becomes E2BIG; every other outcome passes through unchanged |
| Execve.EntryAddrNext | kernel/src/process/execve.rs:251 | advancing the read address by 8 and then taking entry i reaches entry i + 1 of the array |
| Execve.ArgVectorShape | kernel/src/process/execve.rs:249-267 | a vector read successfully has fewer entries than the limit, its strings are those behind the non-null pointers in order, and the entry after them is the null terminator |
| Execve.ArgVectorTooMany | kernel/src/process/execve.rs:249-269 | when the first max entries all point to readable strings the vector is refused with E2BIG |
| Execve.ReadCStringVec | kernel/src/process/execve.rs:234-270 | a null array gives the empty vector; otherwise the result is the argument vector of the array, the loop proved against it |
| Execve.ArgVector | kernel/src/process/execve.rs:234-270 | a vector read successfully holds fewer strings than the limit; a limit of zero is E2BIG and a failing read of the first entry is its error |
| Execve.SigkillOtherThreads | kernel/src/process/execve.rs:64-65 | every task other than the caller gets exactly one SIGKILL appended to its queue and one wake-up of its signalled waker per slot of the set it holds; the caller's queue and wake-ups are unchanged |
| Execve.SigkillSlot | kernel/src/process/execve.rs:64-65 | one slot of `sigkill_other_threads`: the SIGKILLs sent so far now cover one more slot, and the caller is untouched |
| Execve.SigkillSlots | kernel/src/process/execve.rs:64-65 | the loop of `sigkill_other_threads` over a task list: each task other than the caller ends with one SIGKILL and one wake-up per slot it holds appended, the caller unchanged |
| Execve.KilledHasPendingSigkill | kernel/src/process/execve.rs:64-65 | a queue with at least one SIGKILL appended has SIGKILL pending |
| Execve.BeginExecve | kernel/src/process/execve.rs:39-66 | the first error reading argv, envp or building the program is returned; then EAGAIN, with nothing changed, when an exit_group or another execve is in progress; otherwise in_execve is set and every other thread gets one SIGKILL and one wake-up of its waker per slot it holds, so has SIGKILL pending; on error no queue or wake-up log changes; the caller's wake-ups never change |
| Execve.ReplaceImage | kernel/src/process/execve.rs:116-132 | the vfork mark is cleared, the file table is unshared without close-on-exec entries, the executable path is recorded, dispositions are reset to their inherited form, the signal stack is the default and the exit signal is SIGCHLD |
| Execve.InheritKeepsSigkill | kernel/src/process/execve.rs:127-128 | resetting the dispositions never makes SIGKILL ignored |
| Execve.DoExecveNoReturn | kernel/src/process/execve.rs:83-135 | the result is EAGAIN for a pending SIGKILL (with nothing changed), else the load error, else the credential error; past the barrier the caller is the only task and the main thread with robust list and clear-child-tid reset; the CPU state is reset only after a successful load; a failing credential update keeps what its uid step did; on success the image is replaced and the parent-death signal is cleared for a set-id file; on error the executable path, exit signal, vfork mark, signal stack, dispositions and file tables are kept |
| Execve.NoReturnResult | kernel/src/process/execve.rs:83-115 | do_execve_no_return succeeds exactly without a pending SIGKILL, with a successful load and credential update; a pending SIGKILL is EAGAIN and a failed load its own error |
| Execve.FinishExecve | kernel/src/process/execve.rs:68-80 | returns what do_execve_no_return returns; an error enqueues SIGKILL to the caller and wakes its signalled waker, success leaves its queue and wake-ups alone; in_execve is reset on every path; a pending SIGKILL changes nothing else; past the barrier the caller is the only task and the main thread; on success the image is replaced: reset CPU context, the exec credentials, a fresh file table without close-on-exec entries, the new executable path, user handlers reset, default signal stack, SIGCHLD as exit signal and the parent-death signal cleared for a set-id file; a failing credential update keeps what its uid step did; on error the executable path, exit signal, vfork mark, signal stack, dispositions and file tables are kept |
| ExecveSyscall.FromBitsTruncate | kernel/src/syscall/execve.rs:42-88 | each flag is set exactly when its bit (0x1000 or 0x100) is set in the word |
| ExecveSyscall.FromBitsTruncateBits | kernel/src/syscall/execve.rs:83-88 | every pair of flags survives the round trip through its word; the zero word holds neither flag |
| ExecveSyscall.UnknownBitsDropped | kernel/src/syscall/execve.rs:42 | example: a word with unknown bits set decodes as if they were clear |
| ExecveSyscall.InodePath | kernel/src/syscall/execve.rs:66 | succeeds exactly for an inode handle, with its path; anything else is EINVAL |
| ExecveSyscall.LookupExecutableFile | kernel/src/syscall/execve.rs:51-81 | a path is returned only when it passes the executable check |
| ExecveSyscall.EmptyFilenameRules | kernel/src/syscall/execve.rs:57-66 | an empty name without AT_EMPTY_PATH is ENOENT; with it, EBADF for a closed fd, EINVAL for a non-inode file, else the inode's path subject to the executable check |
| ExecveSyscall.NamedLookupRules | kernel/src/syscall/execve.rs:67-78 | for a non-empty name: an FsPath::new error is returned; otherwise the name is resolved without following links exactly when AT_SYMLINK_NOFOLLOW is given, and the lookup's error is returned; a path found is the answer when it passes the executable check and that check's error otherwise; AT_EMPTY_PATH plays no part |
| ExecveSyscall.SysExecveat | kernel/src/syscall/execve.rs:32-49 | succeeds with NoReturn exactly when the name is read, the lookup succeeds and do_execve succeeds on the path found; a failure is the error of the first step that failed: the name read, then the lookup, then do_execve |
| ExecveSyscall.SysExecve | kernel/src/syscall/execve.rs:16-30 | is execveat from AT_FDCWD with no flag |
| Namespaces.CheckUnsupportedNsFlags | kernel/src/namespace/mod.rs:165-175 | succeeds exactly when no time, cgroup, IPC, PID or network flag is present; the error is EINVAL |
| Namespaces.NsFlagsToClone | kernel/src/namespace/mod.rs:52 | the flags acted on are namespace flags among those given, never NEWUSER |
| Namespaces.NsFlagsPartition | kernel/src/namespace/mod.rs:166-185 | the namespace flags are exactly the supported ones, the unsupported ones and NEWUSER, with no flag in two groups |
| Namespaces.SupportedFlagsToClone | kernel/src/namespace/mod.rs:52-75 | once the check passes, the flags acted on are among NEWUTS and NEWNS, and there are some exactly when one of the two is given |
| Namespaces.NsContext.constructor | kernel/src/namespace/mod.rs:23-26 | a context holds the UTS and the mount namespace it is given |
| Namespaces.NsContext.NewChild | kernel/src/namespace/mod.rs:46-80 | with no namespace flag besides NEWUSER the same context comes back; otherwise EINVAL for unsupported flags, EPERM exactly when the caller lacks SYS_ADMIN in the user namespace, else a fresh context with a fresh copy of each namespace asked for (owned by the user namespace) that shares every other namespace |
| Namespaces.NewInitContext | kernel/src/namespace/mod.rs:30-35 | a fresh context whose UTS namespace holds the initial name and whose UTS and mount namespaces are owned by the initial user namespace |
| Namespaces.NsContextCloneBuilder.constructor | kernel/src/namespace/mod.rs:124-130 | a builder on the old context with no replacement set |
| Namespaces.NsContextCloneBuilder.SetNewUtsNs | kernel/src/namespace/mod.rs:133-136 | sets the UTS replacement and leaves the mount one alone |
| Namespaces.NsContextCloneBuilder.SetNewMntNs | kernel/src/namespace/mod.rs:139-142 | sets the mount replacement and leaves the UTS one alone |
| Namespaces.NsContextCloneBuilder.Build | kernel/src/namespace/mod.rs:145-159 | a fresh context taking each namespace from the builder when set and from the old context otherwise |
| Uts.EmptyUtsName | kernel/src/namespace/uts.rs:78-87 | all six fields are 65 zero bytes |
| Uts.CopiedInto | kernel/src/namespace/uts.rs:18-21 | the destination keeps its length; its first min(src, dst) bytes come from the source and the rest are untouched |
| Uts.CopySlice | kernel/src/namespace/uts.rs:18-21 | the array ends holding exactly what CopiedInto describes, the loop proved against it |
| Uts.PaddedReadsBack | kernel/src/namespace/uts.rs:26-32 | a literal without NUL bytes followed by NUL padding reads back as itself as a C string |
| Uts.InitUtsNameReadsBack | kernel/src/namespace/uts.rs:23-32 | the initial name is well formed and its fields read back as "Linux", "WHITLEY", "5.13.0", "5.13.0", "x86_64" and "" |
| Uts.UtsNamespace.constructor | kernel/src/namespace/uts.rs:10-13 | a namespace holds the name and owner it is given |
| Uts.UtsNamespace.CloneNew | kernel/src/namespace/uts.rs:41-51 | EPERM exactly when the caller lacks SYS_ADMIN in the new owner; otherwise a fresh namespace with that owner and a copy of the name |
| Uts.InitField | kernel/src/namespace/uts.rs:26-32 | a zeroed 65-byte field after copying a literal holds the literal followed by NUL padding |
| Uts.NewInit | kernel/src/namespace/uts.rs:17-38 | a fresh namespace owned by the given user namespace whose name is the initial name |
| MountNamespaces.Mount.Root | kernel/src/fs/path/mount_namespace.rs:37 | a root mount is detached, has no children and belongs to the given namespace |
| MountNamespaces.MountNamespace.constructor | kernel/src/fs/path/mount_namespace.rs:33-40 | a namespace with the given owner and a fresh, detached, childless root mount that belongs to it |
| MountNamespaces.MountNamespace.CreateFsResolver | kernel/src/fs/path/mount_namespace.rs:51-55 | the resolver's root and working directory are both the root of the namespace's root mount |
| MountNamespaces.MountNamespace.CloneNew | kernel/src/fs/path/mount_namespace.rs:60-79 | EPERM exactly when the caller lacks SYS_ADMIN in the new owner; otherwise a fresh namespace with that owner whose fresh root belongs to it and not to this namespace |
| MountNamespaces.FrontierStart | kernel/src/fs/path/mount_namespace.rs:97-98 | a worklist holding only the root satisfies the teardown's invariant |
| MountNamespaces.FrontierStep | kernel/src/fs/path/mount_namespace.rs:99-105 | taking the first queued mount and queuing its children keeps the invariant, and those children were never queued before, so no mount is queued twice |
| MountNamespaces.TakeNext | kernel/src/fs/path/mount_namespace.rs:99-105 | one turn of the loop takes a mount not taken before and keeps the worklist invariant and the drained-heap invariant |
| MountNamespaces.DrainFrom | kernel/src/fs/path/mount_namespace.rs:97-106 | the loop ends with every discovered mount taken and drained, and every discovered mount but the root detached |
| MountNamespaces.MountNamespace.Drop | kernel/src/fs/path/mount_namespace.rs:95-108 | every mount of the tree below the root is taken exactly once; afterwards each has no children and each but the root is detached from its parent and mountpoint; the root's own link and every other mount are unchanged |
| MountNamespaces.Visit | kernel/src/fs/path/mount_namespace.rs:100-105 | the mount's children are drained, each of them is detached, and they are listed once each |
| MountNamespaces.DetachAll | kernel/src/fs/path/mount_namespace.rs:101-105 | every drained child is detached from its parent and mountpoint and listed exactly once |
| Unshare.ImpliedIsLeastClosure | kernel/src/syscall/unshare.rs:23-35 | the completed flags contain the given ones, satisfy the three implications (NEWUSER gives THREAD and FS, SIGHAND gives THREAD, NEWNS gives FS), and are contained in every set that does |
| Unshare.ImpliedIdempotent | kernel/src/syscall/unshare.rs:23-35 | completing flags that already satisfy the implications changes nothing, so completing twice is completing once |
| Unshare.ApplyImpliedFlags | kernel/src/syscall/unshare.rs:23-35 | the three steps in order give the least completion |
| Unshare.CheckFlags | kernel/src/syscall/unshare.rs:37-70 | succeeds exactly when every flag is valid, THREAD, VM and SIGHAND come only from a single-task process, and VM only with an unshared VMAR (reference count 2); the error is EINVAL |
| Unshare.ImpliedStaysValid | kernel/src/syscall/unshare.rs:12-49 | completing valid flags adds no invalid one, and an invalid flag is refused whatever the process looks like |
| Unshare.UnshareFiles | kernel/src/syscall/unshare.rs:72-86 | with FILES one fresh copy of the table, with the same entries, becomes both the posix-thread and the thread-local table; without it nothing changes |
| Unshare.UnshareFs | kernel/src/syscall/unshare.rs:88-96 | with FS the thread gets a fresh copy of its file-system information; without it nothing changes |
| Unshare.NsFlagLeftToClone | kernel/src/syscall/unshare.rs:107-126 | a namespace flag other than NEWUSER leaves new_child something to clone |
| Unshare.UnshareNamespaces | kernel/src/syscall/unshare.rs:106-141 | returns Ok without a namespace flag, EINVAL for NEWUSER, else what new_child returns; on failure nothing changes; on success the new context is installed in both places, with a new UTS namespace only for NEWUTS, and for NEWNS a new mount namespace to which the resolver is switched |
| Unshare.UnshareNothing | kernel/src/syscall/unshare.rs:7-20 | with no flag nothing is requested and 0 is returned |
| Unshare.UnshareNewUserRefused | kernel/src/syscall/unshare.rs:111-116 | a new user namespace is refused with EINVAL whatever else is asked for and whoever asks |
| Unshare.UnshareFilesAndFsSucceed | kernel/src/syscall/unshare.rs:7-20 | unsharing only the file table and the file-system information always succeeds |
| Unshare.SysUnshare | kernel/src/syscall/unshare.rs:7-21 | returns the outcome of decoding, completing, checking and the namespace step; a refused word changes nothing; otherwise the file table and file-system information are replaced exactly when FILES and FS are among the completed flags, even when the namespace step then fails, and a successful namespace step installs the new context |
| Setns.CheckPidFileFlags | kernel/src/syscall/setns.rs:58-71 | every refusal of the flag checks (no flag, a non-namespace flag, NEWUSER, an unsupported namespace) is EINVAL |
| Setns.PidFileFlagsAccepted | kernel/src/syscall/setns.rs:58-71 | the flags accepted with a pidfd are exactly the non-empty subsets of NEWUTS and NEWNS |
| Setns.BuildOutcomeCases | kernel/src/syscall/setns.rs:53-113 | joining only a mount namespace is accepted without any capability; joining a UTS namespace succeeds exactly when the caller holds SYS_ADMIN in the target namespace's owner and in its own user namespace; an exited target gives ESRCH |
| Setns.SetUtsNs | kernel/src/syscall/setns.rs:94-113 | succeeds exactly with SYS_ADMIN in the target's owner and in the caller's user namespace, then the builder takes the target namespace; EPERM otherwise with the builder unchanged; the mount slot is never touched |
| Setns.BuildContextFromPidFile | kernel/src/syscall/setns.rs:53-92 | fails exactly as the flag checks, ESRCH and the SYS_ADMIN checks say; on success a fresh context with the target's UTS namespace for NEWUTS, the caller's otherwise, and always the caller's mount namespace |
| Setns.SysSetns | kernel/src/syscall/setns.rs:25-51 | EINVAL for undefined bits, EBADF for an unknown fd, EINVAL for a file that is not a pidfd, then the outcome of building the context; a failure changes nothing; success installs a fresh context in both places, keeps the mount namespace and returns 0 |
| RtSigaction.WithoutSpec | kernel/src/syscall/rt_sigaction.rs:87-97 | removing a signal from a queue leaves no instance of it and keeps the count of every other signal |
| RtSigaction.WithoutAppend | kernel/src/syscall/rt_sigaction.rs:95 | removing a signal from two queues joined is removing it from each |
| RtSigaction.WithoutAbsent | kernel/src/syscall/rt_sigaction.rs:95 | a queue without the signal is left as it is |
| RtSigaction.WithoutRemoveOne | kernel/src/syscall/rt_sigaction.rs:95 | dequeuing one instance of the signal does not change what is left once every instance is removed |
| RtSigaction.SignalsFrom | kernel/src/syscall/rt_sigaction.rs:88 | exactly the signal numbers from the bound up |
| RtSigaction.AllBut | kernel/src/syscall/rt_sigaction.rs:88 | the full signal set minus the signal holds every signal but that one |
| RtSigaction.DiscardFrom | kernel/src/syscall/rt_sigaction.rs:95 | the dequeue loop ends with the thread's queue equal to its old queue with every instance of the signal removed and the rest in order |
| RtSigaction.DiscardSignalsIfIgnored | kernel/src/syscall/rt_sigaction.rs:87-97 | every thread of the process loses every pending instance of the signal and nothing else |
| TaskSets.Count | kernel/src/syscall/rt_sigaction.rs:114 | a thread is counted zero times exactly when it is not in the task list |
| TaskSets.CountAppend | kernel/src/syscall/rt_sigaction.rs:114 | appending a task adds one to its own count and nothing to any other |
| TaskSets.CountDistinct | kernel/src/syscall/rt_sigaction.rs:114 | in a list without repeats a member is counted once |
| RtSigaction.WakeUpOtherThreads | kernel/src/syscall/rt_sigaction.rs:99-123 | when the old action does not ignore the signal and the caller blocks it, every thread not blocking it has its signalled waker woken once per slot it holds; otherwise no thread is woken |
| RtSigaction.WakeUpsOnce | kernel/src/syscall/rt_sigaction.rs:114-121 | in a task list without repeats each thread not blocking the signal is woken exactly once and the others not at all |
| RtSigaction.KillAndStopFixed | kernel/src/syscall/rt_sigaction.rs:43-62 | SIGKILL and SIGSTOP can be queried, getting the action in force, but any new action for them is EINVAL |
| RtSigaction.BadSigsetSizeRefused | kernel/src/syscall/rt_sigaction.rs:36-38 | a sigset size other than 8 is EINVAL whatever else is asked |
| RtSigaction.ApplyKeepsKillAndStop | kernel/src/syscall/rt_sigaction.rs:43-63 | no accepted call changes the action of SIGKILL or SIGSTOP, and a query changes no action |
| RtSigaction.SysRtSigaction | kernel/src/syscall/rt_sigaction.rs:20-72 | a refused call changes nothing and returns the error of the first failing check; otherwise the new action replaces the old one after pending instances are discarded (ignoring action) or threads that can take the signal are woken (any other action), the old action is written out when asked, and a failing write is reported after the table has changed |
| Open.CreatFlags | kernel/src/syscall/open.rs:100-103 | the flags of creat open for writing only, create and truncate, and do not ask for close-on-exec |
| Open.MaskedMode | kernel/src/syscall/open.rs:68 | the mode handed to the resolver has no bit of the umask, and with the masked-off bits added back is the requested mode |
| Open.RestartIfInterrupted | kernel/src/syscall/open.rs:73-76 | EINTR never comes out (it becomes ERESTARTSYS) and every other error is kept |
| Open.FdPathOpensDescriptor | kernel/src/syscall/open.rs:47-62 | a path /proc/self/fd/N with N a 32-bit number written canonically names the file at descriptor N, or fails with EBADF when there is none |
| Open.NonCanonicalFdPathPanics | kernel/src/syscall/open.rs:47-50 | every other path under /proc/self/fd/ (a missing, signed, zero-padded or out-of-range number, or trailing text) panics on the unwrap or the assertion |
| Open.InsertFileLike | kernel/src/syscall/open.rs:85-94 | the file goes in at the lowest free descriptor, which was free before, and is close-on-exec exactly when O_CLOEXEC was asked for; nothing else in the table changes |
| Open.SysOpenat | kernel/src/syscall/open.rs:17-83 | a failed path read is returned with nothing changed; then empty paths are ENOENT, /proc/self/exe gives the recorded executable, /proc/self/fd/N duplicates descriptor N or panics on a malformed N, and any other path goes to the resolver with the masked mode; a file obtained is inserted at the lowest free descriptor, which is returned; failures and panics leave the table alone |
| Open.SysOpen | kernel/src/syscall/open.rs:96-98 | behaves as openat from AT_FDCWD |
| Open.SysCreat | kernel/src/syscall/open.rs:100-104 | behaves as openat from AT_FDCWD with write-only, create and truncate, and the new descriptor is never close-on-exec |
| Socket.TypeOf | services/libs/jinux-std/src/syscall/socket.rs:13 | the type is the low four bits of the word, as masking the two's-complement i32 gives |
| Socket.SocketKindFor | services/libs/jinux-std/src/syscall/socket.rs:21-36 | every refused combination is EAFNOSUPPORT |
| Socket.SocketFile | services/libs/jinux-std/src/syscall/socket.rs:11-36 | the file made is a socket; the family's decoding error comes first, then the type's |
| Socket.SysSocket | services/libs/jinux-std/src/syscall/socket.rs:10-46 | a refused call leaves the table alone and returns the error; otherwise the socket goes in at the lowest free descriptor, not close-on-exec, and that descriptor is returned |
| Socket.SupportedCombinations | services/libs/jinux-std/src/syscall/socket.rs:21-36 | with Linux's values, the call succeeds exactly for AF_UNIX streams, IPv4 or IPv6 streams of protocol IP or TCP, and IPv4 or IPv6 datagrams of protocol IP or UDP, giving a Unix, TCP or UDP socket accordingly |
| Socket.FlagsOnlyNonblock | services/libs/jinux-std/src/syscall/socket.rs:13-20 | the socket is non-blocking exactly when SOCK_NONBLOCK is set, and two words with the same type bits and SOCK_NONBLOCK bit give the same socket, so SOCK_CLOEXEC and unknown bits change nothing |
| Socket.StreamWordExamples | services/libs/jinux-std/src/syscall/socket.rs:13-20 | example: SOCK_STREAM with SOCK_NONBLOCK and SOCK_CLOEXEC decodes as a non-blocking stream, and without SOCK_NONBLOCK as a blocking one |
| FullDevice.VmWriter.constructor | kernel/src/device/full.rs:36 | a new writer over a window of user memory starts at its beginning, with the given faulting position |
| FullDevice.VmWriter.Avail | kernel/src/device/full.rs:37 | the room left is what lies between the cursor and the end of the window |
| FullDevice.VmWriter.StopAt | kernel/src/device/full.rs:38 | a write stops early exactly when a faulting position lies among the bytes it would set, and then stops at that position |
| FullDevice.VmWriter.FillZeros | kernel/src/device/full.rs:38 | the length is cut down to the room left; the bytes from the cursor up to that length, or up to the first faulting position before it, become zero, the cursor moves past them and the rest of the buffer is unchanged; a write cut short by a page fault is EFAULT, one that is not returns the number of bytes set |
| FullDevice.Full.Open | kernel/src/device/full.rs:23-25 | always succeeds with a new handle to the device |
| FullDevice.Full.Type | kernel/src/device/full.rs:14-16 | the device is a character device |
| FullDevice.Full.Id | kernel/src/device/full.rs:18-21 | the device number is major 1, minor 7, as in Linux |
| FullDevice.Full.Poll | kernel/src/device/full.rs:28-33 | an event is reported exactly when it is requested and is readable or writable |
| FullDevice.Full.Write | kernel/src/device/full.rs:42-44 | every write fails with ENOSPC |
| FullDevice.Full.Read | kernel/src/device/full.rs:36-40 | the rest of the reader's window is filled with zeros up to the first faulting position, the bytes outside are kept; the result is the room there was exactly when no position of the window faults, and EFAULT otherwise |
| FullDevice.PollReportsReadyOnly | kernel/src/device/full.rs:28-33 | poll reports exactly the requested events among readable and writable, never an error or hang-up |
| FullDevice.FullIdentity | kernel/src/device/full.rs:14-44 | the device is the character device (1, 7) and every write fails with ENOSPC |
| TcpOptions.NameValue | kernel/src/util/net/options/tcp.rs:20-37 | every option name has its value of Linux's tcp.h, between 1 and 13 |
| TcpOptions.NameFromInt | kernel/src/util/net/options/tcp.rs:20-37 | a name found for an integer has that integer as its value |
| TcpOptions.NameValueRoundTrip | kernel/src/util/net/options/tcp.rs:20-37 | every name is read back from its value, so no two names share a value |
| TcpOptions.OptionName | kernel/src/util/net/options/tcp.rs:39-50 | no option object answers to CORK or KEEPINTVL |
| TcpOptions.NewTcpOption | kernel/src/util/net/options/tcp.rs:39-50 | every refusal is ENOPROTOOPT, and an option created answers to the name given |
| TcpOptions.NewTcpOptionRoundTrip | kernel/src/util/net/options/tcp.rs:39-50 | each option is created from the value of its name, and an integer gives an option exactly when it is 1, 2, 4, 9, 10 or 13 |
| TcpOptions.UnsupportedNamesRefused | kernel/src/util/net/options/tcp.rs:39-50 | CORK and KEEPINTVL are refused with ENOPROTOOPT, as is every integer that is no name |
| TcpUtil.TimeoutsInSeconds | kernel/src/net/socket/ip/stream/util.rs:40-57 | example: the initial and the largest timeout are 1 and 120 seconds |
| TcpUtil.Timeout | kernel/src/net/socket/ip/stream/util.rs:56-67 | every timeout lies between 1 second and the 120-second cap |
| TcpUtil.PeriodIncreasing | kernel/src/net/socket/ip/stream/util.rs:61-68 | more retransmissions always span strictly more seconds |
| TcpUtil.CountNotBelow | kernel/src/net/socket/ip/stream/util.rs:61-70 | the least count whose period covers the seconds is not above any count that covers them |
| TcpUtil.RetransForUnique | kernel/src/net/socket/ip/stream/util.rs:51-71 | the characterisation of from_secs names one count for each number of seconds |
| TcpUtil.FromSecs | kernel/src/net/socket/ip/stream/util.rs:51-71 | 0 seconds give 0; otherwise the fewest retransmissions (at least 1) whose period covers the seconds, or 255 when no count up to 255 does |
| TcpUtil.ToSecs | kernel/src/net/socket/ip/stream/util.rs:74-95 | the seconds are the sum of the timeouts of that many retransmissions |
| TcpUtil.RetransGalois | kernel/src/net/socket/ip/stream/util.rs:51-95 | below the cap, s seconds need at most r retransmissions exactly when r retransmissions span at least s seconds |
| TcpUtil.RetransRoundTrip | kernel/src/net/socket/ip/stream/util.rs:51-95 | converting a count to seconds and back gives the count; the count found for s seconds spans at least s seconds whenever 255 retransmissions do |
| TcpUtil.DeferAcceptExamples | kernel/src/net/socket/ip/stream/util.rs:51-95 | 100 seconds are stored as 7 retransmissions and read back as 127, 511 as 11 and 607, 16 as 5 and 31 |
| TcpUtil.NewCongestionControl | kernel/src/net/socket/ip/stream/util.rs:108-116 | any name other than the two is EINVAL |
| TcpUtil.CongestionNameRoundTrip | kernel/src/net/socket/ip/stream/util.rs:104-124 | new and name are inverse: each algorithm is found by its name, and a name is accepted exactly when it is "reno" or "cubic" |
| TcpUtil.NewOptionSetDefaults | kernel/src/net/socket/ip/stream/util.rs:17-31 | a new socket has no delay off, MSS 536, keep-idle 7200, window clamp 0x8000_0000, Reno, and a defer-accept of 0 retransmissions, which is what 0 seconds store and spans 0 seconds |
| NetlinkSegment.FromLeBound | kernel/src/net/socket/netlink/message/segment/common.rs:75 | n little-endian bytes hold a value below 256^n |
| NetlinkSegment.FromLeLe | kernel/src/net/socket/netlink/message/segment/common.rs:75 | a value that fits in n bytes is read back from its little-endian encoding |
| NetlinkSegment.AlignUp | kernel/src/net/socket/netlink/message/segment/common.rs:71 | the least multiple of four (NLMSG_ALIGN) that is at least n |
| NetlinkSegment.HeaderBytes | kernel/src/net/socket/netlink/message/segment/common.rs:20-75 | the header is written as 16 bytes |
| NetlinkSegment.HeaderFields | kernel/src/net/socket/netlink/message/segment/common.rs:75 | length, type, flags, sequence and port id lie at bytes 0-4, 4-6, 6-8, 8-12 and 12-16 |
| NetlinkSegment.HeaderRoundTrip | kernel/src/net/socket/netlink/message/segment/common.rs:52-75 | reading back the bytes written for a header gives the header |
| NetlinkSegment.AttrWritten | kernel/src/net/socket/netlink/message/segment/common.rs:77-93 | an attribute writes as many bytes as its padded length |
| NetlinkSegment.AttrsLenAppend | kernel/src/net/socket/netlink/message/segment/common.rs:89-95 | attrs_len of a concatenation is the sum of the two, and of no attribute is 0 |
| NetlinkSegment.New | kernel/src/net/socket/netlink/message/segment/common.rs:42-86 | body and attributes are kept, and the header is the one given with its length replaced by the total length cut to 32 bits |
| NetlinkSegment.Pieces | kernel/src/net/socket/netlink/message/segment/common.rs:75-79 | the header's bytes, the body, then each attribute's padded bytes, in vector order |
| NetlinkSegment.AttrPieces | kernel/src/net/socket/netlink/message/segment/common.rs:77-79 | one piece per attribute, in order, each its padded bytes |
| NetlinkSegment.AttrPiecesLen | kernel/src/net/socket/netlink/message/segment/common.rs:77-95 | the attributes write exactly attrs_len bytes |
| NetlinkSegment.WriteAll | kernel/src/net/socket/netlink/message/segment/common.rs:75-81 | never more bytes than the room, and when every piece fits, all of them in order |
| NetlinkSegment.WriteAllFits | kernel/src/net/socket/netlink/message/segment/common.rs:75-81 | pieces that fit together are all written |
| NetlinkSegment.NewSegmentWrites | kernel/src/net/socket/netlink/message/segment/common.rs:42-86 | for a segment made by new whose length fits in 32 bits, the header length is the number of bytes written, so a writer that passes the capacity check receives the whole segment |
| NetlinkSegment.Writer.constructor | kernel/src/net/socket/netlink/message/segment/common.rs:67 | a writer with nothing written and the given room |
| NetlinkSegment.Writer.Write | kernel/src/net/socket/netlink/message/segment/common.rs:75-78 | bytes that fit are appended and the room shrinks by their length; otherwise EFAULT with nothing written |
| NetlinkSegment.WriteTo | kernel/src/net/socket/netlink/message/segment/common.rs:67-82 | EFAULT with nothing written when the room is below the header length aligned up to 4; otherwise the header, body and attributes are written in order until the first that does not fit, which ends the call with EFAULT |
| NetlinkSegment.WritePieces | kernel/src/net/socket/netlink/message/segment/common.rs:75-81 | after the capacity check, the writer receives exactly what WriteAll of the pieces describes, and fails exactly when some piece does not fit |
| NetlinkSegment.PieceStep | kernel/src/net/socket/netlink/message/segment/common.rs:75-79 | what has been written plus what the remaining pieces write is the whole write, before and after each piece, and a piece that does not fit ends it |
| NetlinkSegment.WriteAttrs | kernel/src/net/socket/netlink/message/segment/common.rs:77-79 | the attribute loop writes exactly what WriteAll of the attribute pieces describes, failing with EFAULT exactly when one does not fit |
| NetlinkSegment.ReadFrom | kernel/src/net/socket/netlink/message/segment/common.rs:52-65 | panics exactly when the body read fails (the unwrap); otherwise succeeds exactly when the attributes are read from the remaining length, with the header as given |
| NetlinkSegment.ReadKeepsHeader | kernel/src/net/socket/netlink/message/segment/common.rs:52-65 | a segment read back keeps a header length that new would have replaced |
| GidMap.FieldRoundTrip | kernel/src/fs/procfs/pid/gid_map.rs:24 | a number below 10^10 fills its ten right-aligned columns exactly and reads back from them |
| GidMap.DropPadding | kernel/src/fs/procfs/pid/gid_map.rs:24 | dropping the leading spaces of a right-aligned field leaves the number |
| GidMap.MapLineRoundTrip | kernel/src/fs/procfs/pid/gid_map.rs:24 | the line is thirty columns and its three numbers read back from columns 0-10, 10-20 and 20-30 |
| GidMap.ThreeFields | kernel/src/fs/procfs/pid/gid_map.rs:24 | helper: three ten-column fields side by side occupy columns 0-10, 10-20 and 20-30 |
| GidMap.DataAsWritten | kernel/src/fs/procfs/pid/gid_map.rs:23-26 | `data` as written is thirty columns that read back as 0, 0 and 429467295 |
| GidMap.Data | kernel/src/fs/procfs/pid/gid_map.rs:23-26 | `data` with the intended count is thirty columns that read back as 0, 0 and u32::MAX |
| GidMap.CountFieldWidths | kernel/src/fs/procfs/pid/gid_map.rs:24 | the corrected count fills all ten columns of its field, while the count as written is one digit short and starts with a padding space |
| GidMap.CountAsWrittenIsShort | kernel/src/fs/procfs/pid/gid_map.rs:24 | the count as written reads back as 429467295, which is not u32::MAX and is less than a tenth of it |
| GidMap.FieldPaddedIffShort | kernel/src/fs/procfs/pid/gid_map.rs:24 | a field starts with a space exactly when its number has fewer than ten digits |
| Flamegraph.StripLeft | generate_flamegraph.py:17 | a suffix of the line that does not start with whitespace |
| Flamegraph.StripRight | generate_flamegraph.py:17 | a prefix of the line that does not end with whitespace |
| Flamegraph.CutStep | generate_flamegraph.py:21-27 | one character of the bracket loop: kept exactly when the depth after an opening bracket is 0, then the depth drops after a closing one |
| Flamegraph.CutGeneric | generate_flamegraph.py:19-28 | the loop's result is the bracket cut of the whole line from depth 0 |
| Flamegraph.CutDropsOpenings | generate_flamegraph.py:19-28 | when the depth never goes below 0, no '<' survives the cut |
| Flamegraph.StrayClosing | generate_flamegraph.py:19-28 | a stray '>' sends the depth below 0 and keeps the next '<' and what follows it: the cut does not remove every '<' |
| Flamegraph.NoOpeningStaysBelow | generate_flamegraph.py:21-27 | below depth 0 and with no '<' ahead, nothing more is kept |
| Flamegraph.CutKeepsPlain | generate_flamegraph.py:19-28 | a line without brackets is kept whole and ends at depth 0 |
| Flamegraph.CutAppend | generate_flamegraph.py:21-27 | cutting a concatenation is cutting the first part and then the second from the depth the first leaves |
| Flamegraph.CutDropsInside | generate_flamegraph.py:21-27 | text that stays inside brackets is dropped whole |
| Flamegraph.GenericsRemoved | generate_flamegraph.py:18-28 | a balanced generic list between plain text is removed and the text around it kept |
| Flamegraph.GenericLists | generate_flamegraph.py:18-28 | example: "<T>" and the nested "<A<B>>" are balanced generic lists |
| Flamegraph.IndexOf | generate_flamegraph.py:30 | the first position of the character |
| Flamegraph.HexRun | generate_flamegraph.py:36 | the longest run of lower-case hex digits at the start |
| Flamegraph.AddressMatch | generate_flamegraph.py:36 | a match ends with " in" and spans at least "0x", one digit and " in" |
| Flamegraph.UpTo | generate_flamegraph.py:39 | the run before the first separator, which it stops at |
| Flamegraph.UpToPrefix | generate_flamegraph.py:39 | the run before the separator is the text before it |
| Flamegraph.Words | generate_flamegraph.py:39 | the words split on spaces are non-empty and hold no space |
| Flamegraph.TwoWords | generate_flamegraph.py:39 | two words joined by a space split back into those two words |
| Flamegraph.RemoveImplBlocksAbsent | generate_flamegraph.py:30 | a line without '{' is left alone by the impl-block removal |
| Flamegraph.RemoveAddressesAbsent | generate_flamegraph.py:36 | a line without "0x" is left alone by the address removal |
| Flamegraph.CleanKeepsPlain | generate_flamegraph.py:17-36 | a line with nothing to clean (no surrounding whitespace, brackets, '{', "()" or "0x") is left as it is |
| Flamegraph.FrameOfPlainLine | generate_flamegraph.py:39-41 | the frame of a plain line "#N name" is the name |
| Flamegraph.LineFrame | generate_flamegraph.py:17-41 | the cleaning loop gives the frame of the line, None where parts[1] does not exist |
| Flamegraph.EntriesStayNone | generate_flamegraph.py:39-41 | once a line has no second word, no later line can save the run |
| Flamegraph.ConcatSnoc | generate_flamegraph.py:15-44 | appending a capture appends its entries |
| Flamegraph.SplittingPush | generate_flamegraph.py:13-41 | a '#0' line after a non-empty capture closes it and opens a new one; any other line joins the current capture |
| Flamegraph.SplittingDone | generate_flamegraph.py:43-44 | flushing the last non-empty capture gives a cut of all the entries into captures |
| Flamegraph.CollectCaptures | generate_flamegraph.py:10-44 | fails exactly when some '#' line has no frame; otherwise the captures, joined, are the entries in order, each opened by a '#0' line except possibly the first, none empty |
| Flamegraph.CapturesUnique | generate_flamegraph.py:10-44 | there is only one such cut of a run of entries into captures |
| Flamegraph.FirstCaptureLen | generate_flamegraph.py:13-16 | the first capture ends where the next '#0' line starts |
| Flamegraph.NextStartIs | generate_flamegraph.py:13-16 | the next capture starts at the first later '#0' entry |
| Flamegraph.NextStart1Is | generate_flamegraph.py:13-16 | the first '#0' entry of a run is found |
| Flamegraph.TailIsCaptures | generate_flamegraph.py:13-16 | after the first capture, the rest are a cut of the rest of the entries |
| Flamegraph.Frames | generate_flamegraph.py:41 | the frames of a capture, in order |
| Flamegraph.Reverse | generate_flamegraph.py:50 | element i is the element i from the end |
| Flamegraph.ReverseReverse | generate_flamegraph.py:49-51 | reversing twice gives the capture back |
| Flamegraph.FromButt | generate_flamegraph.py:49-51 | the loop builds the capture's frames from the outermost to the innermost |
| Flamegraph.JoinSplitRoundTrip | generate_flamegraph.py:52 | frames without ';' and not empty are split back from their ';'-joined key |
| Flamegraph.KeyDeterminesFrames | generate_flamegraph.py:52-56 | two captures of such frames share a key exactly when their frames agree, so the counts never merge different stacks |
| Flamegraph.Keys | generate_flamegraph.py:48-52 | one key per capture, in order |
| Flamegraph.Tally | generate_flamegraph.py:53-56 | counting one more key keeps the map equal to the multiset of keys counted |
| Flamegraph.Fold | generate_flamegraph.py:46-56 | the map holds exactly the keys of the captures, each with the number of captures that have it |
| Flamegraph.ProcessStackTrace | generate_flamegraph.py:3-56 | fails exactly when some '#' line has no frame (the IndexError); otherwise the folded map counts, for each stack, the captures of the log that have it |
| CloneFlagBits.Position | kernel/src/syscall/unshare.rs:8-9 | every clone flag sits at one bit from 7 to 31 of the flag word |
| CloneFlagBits.FlagAt | kernel/src/syscall/unshare.rs:8-9 | every bit from 7 to 31 names the flag placed at that bit |
| CloneFlagBits.PositionIsBijective | kernel/src/syscall/setns.rs:26-27 | no two flags share a bit, and every bit from 7 to 31 carries exactly one flag |
| CloneFlagBits.ToBits | kernel/src/syscall/setns.rs:26-27 | the word of a flag set has no bit below 7 set |
| CloneFlagBits.FromBits | kernel/src/syscall/unshare.rs:8-9 | `from_bits` accepts a word exactly when it has no bit below 7 set; the decoded set holds exactly the flags whose bits are set; a refused word gives EINVAL |
| CloneFlagBits.FromBitsToBits | kernel/src/syscall/setns.rs:26-27 | decoding and encoding are inverse in both directions: flags to word to flags, and accepted word to flags to word |
| CloneFlagBits.FromBitsZero | kernel/src/syscall/setns.rs:26-27 | the zero word decodes to the empty flag set |
| Signals.SigNumFrom | kernel/src/syscall/rt_sigaction.rs:27 | a raw signal number is accepted exactly when it lies in 1..=64, unchanged; otherwise EINVAL |
| Signals.SigDispositions.Set | kernel/src/syscall/rt_sigaction.rs:60 | after `set`, the signal has the new action and every other signal keeps its action |
| Signals.SigDispositions.Inherit | kernel/src/process/execve.rs:127-128 | after `inherit`, no signal has a user handler, and every signal without one keeps its action |
| Files.FileTable.Empty | services/libs/jinux-std/src/syscall/socket.rs:39-40 | a new table has no entries |
| Files.FileTable.Copy | kernel/src/syscall/unshare.rs:82 | a cloned table has the same entries as the original |
| Files.FileTable.Get | kernel/src/syscall/setns.rs:30-34 | `get_file` succeeds exactly for a non-negative descriptor in the table, with its file, and fails with EBADF otherwise |
| Files.FileTable.Insert | kernel/src/syscall/open.rs:85-93 | a new file takes the lowest free descriptor: it was free, every lower one was in use, and only that entry is added |
| Files.FileTable.CloseFilesOnExec | kernel/src/process/execve.rs:224-231 | the table becomes the entries that survive an exec |
| Files.KeptOnExec | kernel/src/process/execve.rs:224-231 | a descriptor survives an exec exactly when it was open and not close-on-exec, with its entry unchanged |
| Files.DescriptorsBelowBound | kernel/src/syscall/open.rs:93 | a table that uses every descriptor below n holds at least n entries, so the search for a free descriptor ends |
| ThreadLocals.ThreadFsInfo.constructor | kernel/src/syscall/unshare.rs:94-95 | a new file-system information holds the given resolver, mount namespace and umask |
| ThreadLocals.ThreadFsInfo.Copy | kernel/src/syscall/unshare.rs:94-95 | a cloned file-system information equals the original |
| ThreadLocals.ThreadFsInfo.SwitchToMntNs | kernel/src/syscall/unshare.rs:131-137 | after `switch_to_mnt_ns` the resolver is in the given mount namespace |
| ThreadLocals.ThreadLocal.constructor | kernel/src/namespace/mod.rs:93-109 | a new thread-local state holds the given file table, namespace context, file-system information and user namespace, with fresh FPU and signal-stack state |
| ThreadLocals.UnshareFileTable | kernel/src/syscall/unshare.rs:72-85 | a fresh copy of the file table, with the same entries, becomes both the posix-thread and the thread-local table |
| ThreadLocals.Install | kernel/src/namespace/mod.rs:93-109 | `install` makes the context both the posix-thread and the thread-local context and switches the resolver to its mount namespace; the file tables are untouched, so the two views still agree |
| UserNamespaces.CheckSysAdmin | kernel/src/namespace/uts.rs:46 | `check_cap(SYS_ADMIN)` succeeds exactly when the thread holds the capability in that user namespace, and fails with EPERM otherwise |
| Decimal.Digit | kernel/src/syscall/open.rs:50 | a digit value is written as a decimal digit character |
| Decimal.DigitValue | kernel/src/syscall/open.rs:49 | a digit character is read as the value that is written as it |
| Decimal.ShowNat | kernel/src/syscall/open.rs:50 | the decimal text of a number is non-empty, all digits, and has no leading zero unless it is zero |
| Decimal.ShowNatValue | kernel/src/syscall/open.rs:49-50 | reading the decimal text of a number gives the number back |
| Decimal.ShowInt | kernel/src/syscall/open.rs:50 | the text of an integer is non-empty and made of digits and a minus sign |
| Decimal.ParseI32 | kernel/src/syscall/open.rs:49 | a parsed number always fits in an `i32` |
| Decimal.ParseShowI32 | kernel/src/syscall/open.rs:49-50 | parsing the text that `format!` writes for an `i32` gives it back |
| Decimal.Pow10 | kernel/src/fs/procfs/pid/gid_map.rs:24 | a power of ten is at least one |
| Decimal.ShowNatLength | kernel/src/fs/procfs/pid/gid_map.rs:24 | a number below 10^k is written in at most k digits |
| Decimal.ShowNatLengthAtLeast | kernel/src/fs/procfs/pid/gid_map.rs:24 | a number of at least 10^(k-1) is written in at least k digits |
| Decimal.ReplaceAllAbsent | kernel/src/syscall/open.rs:48 | `replace` leaves a text unchanged when the pattern's first character never occurs in it |
| Decimal.PadLeft | kernel/src/fs/procfs/pid/gid_map.rs:24 | `{:>w}` right-aligns: the result is w wide or the text's width, ends with the text, and begins with spaces only |

## Left out

- Concurrency: spin locks, read-write locks, atomics and the interleaving of threads are not modelled; each operation runs as one atomic step.
- Execve.WaitOtherThreadsExit: the barrier's wait loop is modelled as the one iteration that leaves it; the spinning iterations before it are not modelled.
- ELF loading, `renew_vmar_and_map_heap` and the address-space teardown are parameters or left out; the model keeps only their error results and the new entry point and stack.
- The wake-up of a vfork parent and thread names are left out: neither changes state the model keeps.
- process/mod.rs, clone.rs, user.rs, file_table.rs, fs_resolver.rs, thread_local.rs, sig_queues.rs, sig_disposition.rs, file_handle.rs, util/net, attr.rs and net/socket/ip/stream/options are not part of this model; the behaviour the modelled callers rely on is stated in the helper modules (Files, Signals, ThreadLocals, UserNamespaces, CloneFlagBits).
- MountNamespaces.MountNamespace.CloneNew: the deep copy of the mount tree (`clone_mount_tree`) is modelled as a new namespace with a new root; the copied submounts are not modelled.
- ThreadLocals.ThreadFsInfo.SwitchToMntNs: records the mount namespace the resolver is in; the translation of the root and working directory into it is not modelled.
- Unshare.SysUnshare: CLONE_SYSVSEM only logs a warning in the source and changes nothing, and so changes nothing here.
- Setns.SysSetns: CLONE_NEWNS is accepted and changes nothing, as in the source.
- Flag words (`u32`) are modelled as sets of bit positions; the set operations are the bit operations.
- Panics on invalid UTF-8 (`to_str().unwrap()`) are not modelled: paths are strings.
- Signals.SigDispositions.Set: the model lets `set` always succeed; the failure of sig_disposition.rs's `set` is not part of this model.
- setns.rs calls `uts()` and `new_uts(...)` while namespace/mod.rs names them `uts_ns` and `new_uts_ns`: the two files come from different revisions; the model takes them to be the same operations.
- PosixThreads.PosixThread.DequeueSignal: the signal queue is modelled as one first-in first-out queue; sig_queues.rs's split between standard and real-time signals is not part of this model.
- ExecveSyscall.InodePath: the error `as_inode_or_err` returns for a file that is not an inode (file_handle.rs) is modelled as EINVAL.
- Flamegraph.Tally: the output file, its write, and the order of the output lines (the iteration order of a Python dictionary) are not modelled; the result is a map from folded stack to count.
- Flamegraph.StripLeft and Flamegraph.StripRight: Python's `strip` also removes non-ASCII white space; the model removes the ASCII white-space characters only.
- Flamegraph.ProcessStackTrace: the script's single line loop is modelled as a filtering pass followed by a grouping pass; they agree because a failing line aborts the script before any output.
- NetlinkSegment.WriteTo: a failing write is modelled as writing none of the piece that failed.
- FullDevice.Full.Read: the comment in test_full.c says that reads return 0 bytes; the code fills the reader's window with zeros, and the model follows the code. Where user memory faults is a fixed position of the window (`VmWriter.fault`), chosen by the caller.
- Socket.SysSocket: SOCK_CLOEXEC is dropped together with the other flags, so the socket is never close-on-exec; the model follows the code.
- PosixThreads.TidAllocator.Allocate: `last_tid`'s `0 - 1` is modelled as wrapping to `u32::MAX`.

## Findings

| source | as written | input that shows it | evidently intended | confidence | as-written member | corrected member |
|---|---|---|---|---|---|---|
| kernel/src/fs/procfs/pid/gid_map.rs:24 | the count of the identity map is 429467295 | any read of `/proc/[pid]/gid_map` | 4294967295 (`u32::MAX`), the count Linux shows for the full identity map | medium, not executed | GidMap.CountAsWrittenIsShort | GidMap.Data |
