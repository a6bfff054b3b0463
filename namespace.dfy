/** The namespace context of a thread (kernel/src/namespace/mod.rs): the UTS
    and mount namespaces a thread belongs to, derived for `clone`/`unshare`
    by `new_child` and assembled by the clone builder. User and PID
    namespaces are kept elsewhere. */
module Namespaces {
  import opened Prelude
  import opened CloneFlagBits
  import opened UserNamespaces
  import opened Uts
  import opened MountNamespaces

  /** `CLONE_NS_FLAGS`: every flag that asks for a new namespace. */
  const CLONE_NS_FLAGS: Flags := {NEWTIME, NEWNS, NEWCGROUP, NEWUTS, NEWIPC, NEWUSER, NEWPID, NEWNET}

  /** The namespace flags that `check_unsupported_ns_flags` lets through
      besides NEWUSER. */
  const SUPPORTED_NS_FLAGS: Flags := {NEWUTS, NEWNS}

  /** The namespace flags no new namespace is built for: time, cgroup, IPC,
      PID and network. */
  const UNSUPPORTED_NS_FLAGS: Flags := {NEWTIME, NEWCGROUP, NEWIPC, NEWPID, NEWNET}

  /** `check_unsupported_ns_flags`: EINVAL when a namespace flag other than
      NEWUTS, NEWNS and NEWUSER is present. */
  function CheckUnsupportedNsFlags(flags: Flags): (r: Result<Unit>)
    ensures r.Ok? <==> flags * UNSUPPORTED_NS_FLAGS == {}
    ensures r.Err? ==> r.error == EINVAL
  {
    var unsupported := flags * CLONE_NS_FLAGS - SUPPORTED_NS_FLAGS - {NEWUSER};
    if unsupported == {} then Ok(Unit)
    else
      var f :| f in unsupported;
      assert f in flags * UNSUPPORTED_NS_FLAGS;
      Err(EINVAL)
  }

  /** The namespace flags `new_child` acts on: those in `CLONE_NS_FLAGS`
      other than NEWUSER. */
  function NsFlagsToClone(flags: Flags): (r: Flags)
    ensures r <= flags && r <= CLONE_NS_FLAGS && NEWUSER !in r
  {
    flags * CLONE_NS_FLAGS - {NEWUSER}
  }

  /** The namespace flags are exactly the supported ones, the unsupported
      ones and NEWUSER, and no flag is in two of these groups. */
  lemma NsFlagsPartition()
    ensures CLONE_NS_FLAGS == SUPPORTED_NS_FLAGS + UNSUPPORTED_NS_FLAGS + {NEWUSER}
    ensures SUPPORTED_NS_FLAGS * UNSUPPORTED_NS_FLAGS == {}
    ensures NEWUSER !in SUPPORTED_NS_FLAGS + UNSUPPORTED_NS_FLAGS
  {
  }

  /** When the check passes, the flags `new_child` acts on are among NEWUTS
      and NEWNS; so there are some exactly when one of the two is set. */
  lemma SupportedFlagsToClone(flags: Flags)
    requires CheckUnsupportedNsFlags(flags).Ok?
    ensures NsFlagsToClone(flags) <= SUPPORTED_NS_FLAGS
    ensures NsFlagsToClone(flags) != {} <==> NEWUTS in flags || NEWNS in flags
  {
    var r := NsFlagsToClone(flags);
    forall f | f in r
      ensures f in SUPPORTED_NS_FLAGS
    {
      assert f !in flags * UNSUPPORTED_NS_FLAGS;
    }
    if NEWUTS in flags {
      assert NEWUTS in r;
    }
    if NEWNS in flags {
      assert NEWNS in r;
    }
  }

  /** A namespace context. It never changes: a new one is built instead. */
  class NsContext {
    const utsNs: UtsNamespace
    const mntNs: MountNamespace

    constructor (utsNs: UtsNamespace, mntNs: MountNamespace)
      ensures this.utsNs == utsNs && this.mntNs == mntNs
    {
      this.utsNs := utsNs;
      this.mntNs := mntNs;
    }

    /** `new_child`. With no namespace flag other than NEWUSER the same
        context is handed back. Otherwise unsupported flags give EINVAL; a
        new UTS namespace (for NEWUTS) and a new mount namespace (for NEWNS)
        are cloned, each refused with EPERM unless the caller holds
        SYS_ADMIN in `userNs`; and a new context shares every namespace not
        asked for with this one. */
    method NewChild(userNs: UserNamespace, flags: Flags, sysAdminIn: set<UserNamespace>)
      returns (r: Result<NsContext>)
      ensures NsFlagsToClone(flags) == {} ==> r == Ok(this)
      ensures NsFlagsToClone(flags) != {} && CheckUnsupportedNsFlags(flags).Err? ==> r == Err(EINVAL)
      ensures NsFlagsToClone(flags) != {} && CheckUnsupportedNsFlags(flags).Ok? ==>
                (r.Err? <==> userNs !in sysAdminIn) && (r.Err? ==> r.error == EPERM)
      ensures r.Ok? && NsFlagsToClone(flags) != {} ==> fresh(r.value)
      ensures r.Ok? && NEWUTS in flags ==>
                fresh(r.value.utsNs) && r.value.utsNs.owner == userNs
                && r.value.utsNs.utsName == utsNs.utsName
      ensures r.Ok? && NEWUTS !in flags ==> r.value.utsNs == utsNs
      ensures r.Ok? && NEWNS in flags ==>
                fresh(r.value.mntNs) && fresh(r.value.mntNs.root) && r.value.mntNs.owner == userNs
                && r.value.mntNs.Owns(r.value.mntNs.root)
      ensures r.Ok? && NEWNS !in flags ==> r.value.mntNs == mntNs
    {
      var nsFlags := NsFlagsToClone(flags);
      if nsFlags == {} {
        assert NEWUTS !in flags && NEWNS !in flags by {
          assert NEWUTS !in nsFlags && NEWNS !in nsFlags;
        }
        return Ok(this);
      }
      assert nsFlags * UNSUPPORTED_NS_FLAGS == flags * UNSUPPORTED_NS_FLAGS;
      var _ :- CheckUnsupportedNsFlags(nsFlags);
      SupportedFlagsToClone(flags);
      var builder := new NsContextCloneBuilder(this);
      if NEWUTS in nsFlags {
        var uts :- utsNs.CloneNew(userNs, sysAdminIn);
        builder.SetNewUtsNs(uts);
      }
      if NEWNS in nsFlags {
        var mnt :- mntNs.CloneNew(userNs, sysAdminIn);
        builder.SetNewMntNs(mnt);
      }
      var context := builder.Build();
      r := Ok(context);
    }
  }

  /** `new_init`: the initial UTS and mount namespaces, both owned by the
      initial user namespace. */
  method NewInitContext(initUserNs: UserNamespace) returns (c: NsContext)
    ensures fresh(c) && fresh(c.utsNs) && fresh(c.mntNs)
    ensures c.utsNs.owner == initUserNs && c.utsNs.utsName == InitUtsName()
    ensures c.mntNs.owner == initUserNs && c.mntNs.Owns(c.mntNs.root)
  {
    var uts := NewInit(initUserNs);
    var mnt := new MountNamespace(initUserNs);
    c := new NsContext(uts, mnt);
  }

  /** `NsContextCloneBuilder`: an old context and the namespaces set so far
      to replace its own. */
  class NsContextCloneBuilder {
    const oldContext: NsContext
    var newUtsNs: Option<UtsNamespace>
    var newMntNs: Option<MountNamespace>

    /** `new`: nothing replaced yet. */
    constructor (oldContext: NsContext)
      ensures this.oldContext == oldContext && newUtsNs == None && newMntNs == None
    {
      this.oldContext := oldContext;
      newUtsNs := None;
      newMntNs := None;
    }

    /** `new_uts_ns` (called `new_uts` by `setns`). */
    method SetNewUtsNs(ns: UtsNamespace)
      modifies this
      ensures newUtsNs == Some(ns) && newMntNs == old(newMntNs)
    {
      newUtsNs := Some(ns);
    }

    /** `new_mnt_ns`. */
    method SetNewMntNs(ns: MountNamespace)
      modifies this
      ensures newMntNs == Some(ns) && newUtsNs == old(newUtsNs)
    {
      newMntNs := Some(ns);
    }

    /** `build`: a new context taking each namespace from the builder when it
        was set and from the old context otherwise. */
    method Build() returns (c: NsContext)
      ensures fresh(c)
      ensures newUtsNs.Some? ==> c.utsNs == newUtsNs.value
      ensures newUtsNs.None? ==> c.utsNs == oldContext.utsNs
      ensures newMntNs.Some? ==> c.mntNs == newMntNs.value
      ensures newMntNs.None? ==> c.mntNs == oldContext.mntNs
    {
      var uts := if newUtsNs.Some? then newUtsNs.value else oldContext.utsNs;
      var mnt := if newMntNs.Some? then newMntNs.value else oldContext.mntNs;
      c := new NsContext(uts, mnt);
    }
  }
}
