/** The thread-local state of a POSIX thread, as far as `execve`, `unshare`,
    `setns` and `openat` use it: the robust-list head, the clear-child-tid
    address, the FPU and signal-stack state, the thread's own references to
    its file table, its namespaces, its file-system information and its user
    namespace, and the reference count of its root VMAR. thread_local.rs is
    not part of this model.

    The file table and the namespace context are held twice: by the
    `PosixThread` (for other threads) and here (for the thread itself). The
    thread-local copies are None only after the thread exited, which no
    operation of this model runs after, so they are plain references here. */
module ThreadLocals {
  import opened Prelude
  import opened PosixThreads
  import opened Files
  import opened Namespaces
  import opened MountNamespaces
  import opened UserNamespaces

  datatype FpuContext = FreshFpu | SavedFpu(state: seq<byte>)

  /** The alternate signal stack of a thread. */
  datatype SigStack = DefaultSigStack | AltSigStack(base: Vaddr, size: nat)

  type Mode = bv16

  /** `ThreadFsInfo`: the path resolver and the umask. `resolverNs` is the
      mount namespace the resolver was last switched to; how
      `switch_to_mnt_ns` moves the root and working directory into that
      namespace is not part of this model. */
  class ThreadFsInfo {
    var resolver: FsResolver
    var resolverNs: MountNamespace
    var umask: Mode

    constructor (resolver: FsResolver, resolverNs: MountNamespace, umask: Mode)
      ensures this.resolver == resolver && this.resolverNs == resolverNs && this.umask == umask
    {
      this.resolver := resolver;
      this.resolverNs := resolverNs;
      this.umask := umask;
    }

    /** `clone`: an independent copy. */
    constructor Copy(other: ThreadFsInfo)
      ensures resolver == other.resolver && resolverNs == other.resolverNs && umask == other.umask
    {
      resolver := other.resolver;
      resolverNs := other.resolverNs;
      umask := other.umask;
    }

    /** `switch_to_mnt_ns`. */
    method SwitchToMntNs(ns: MountNamespace)
      modifies this`resolverNs
      ensures resolverNs == ns
    {
      resolverNs := ns;
    }
  }

  class ThreadLocal {
    var robustList: Option<Vaddr>
    var clearChildTid: Vaddr
    var fpu: FpuContext
    var sigStack: SigStack
    var fileTable: FileTable
    var nsContext: NsContext
    var fs: ThreadFsInfo
    const userNs: UserNamespace
    /** How many references to the root VMAR exist. */
    var rootVmarRefCount: nat

    constructor (fileTable: FileTable, nsContext: NsContext, fs: ThreadFsInfo, userNs: UserNamespace)
      ensures this.fileTable == fileTable && this.nsContext == nsContext
      ensures this.fs == fs && this.userNs == userNs
      ensures robustList == None && clearChildTid == 0 && fpu == FreshFpu && sigStack == DefaultSigStack
      ensures rootVmarRefCount == 2
    {
      this.fileTable := fileTable;
      this.nsContext := nsContext;
      this.fs := fs;
      this.userNs := userNs;
      robustList := None;
      clearChildTid := 0;
      fpu := FreshFpu;
      sigStack := DefaultSigStack;
      rootVmarRefCount := 2;
    }
  }

  /** The two views of the thread's state agree: the posix thread holds the
      same file table and namespace context as its thread-local state. */
  ghost predicate Agree(t: PosixThread, local: ThreadLocal)
    reads t, local
  {
    t.fileTable == Some(local.fileTable) && t.nsContext == Some(local.nsContext)
  }

  /** `unshare_files` (and `Context::unshare_files`): a new copy of the file
      table becomes both the posix-thread and the thread-local table. */
  method UnshareFileTable(t: PosixThread, local: ThreadLocal)
    modifies t`fileTable, local`fileTable
    ensures fresh(local.fileTable)
    ensures local.fileTable.entries == old(local.fileTable.entries)
    ensures t.fileTable == Some(local.fileTable)
  {
    var table := new FileTable.Copy(local.fileTable);
    t.fileTable := Some(table);
    local.fileTable := table;
  }

  /** `NsContext::install`: the context becomes both the posix-thread and
      the thread-local context, and the resolver is switched to its mount
      namespace. */
  method Install(c: NsContext, t: PosixThread, local: ThreadLocal)
    modifies t`nsContext, local`nsContext, local.fs`resolverNs
    ensures t.nsContext == Some(c) && local.nsContext == c
    ensures local.fs.resolverNs == c.mntNs
    ensures t.fileTable == old(t.fileTable) && local.fileTable == old(local.fileTable)
    ensures t.fileTable == Some(local.fileTable) ==> Agree(t, local)
  {
    t.nsContext := Some(c);
    local.nsContext := c;
    local.fs.SwitchToMntNs(c.mntNs);
  }
}
