/** The `openat`, `open` and `creat` system calls (kernel/src/syscall/open.rs):
    the special paths `/proc/self/exe` and `/proc/self/fd/N`, the ordinary
    path through the calling thread's resolver, and the insertion of the
    opened file into the thread's file table. */
module Open {
  import opened Prelude
  import opened Files
  import opened Decimal
  import opened ThreadLocals

  /** What a system call does to its caller: it returns, or the kernel
      panics on a failed `unwrap` or assertion. */
  datatype Outcome = Returned(result: Result<SyscallReturn>) | Panicked

  /** The open-flags word, a `u32`. */
  type OpenFlags = u32

  const O_WRONLY: OpenFlags := 0x1
  const O_CREAT: OpenFlags := 0x40
  const O_TRUNC: OpenFlags := 0x200
  const O_CLOEXEC: OpenFlags := 0x8_0000

  /** `AT_FDCWD`: relative paths start at the working directory. */
  const AT_FDCWD: int := -100

  /** The flags of `creat`: `O_WRONLY | O_CREAT | O_TRUNC` (three distinct
      bits, so their union is their sum). */
  const CREAT_FLAGS: OpenFlags := O_WRONLY + O_CREAT + O_TRUNC

  /** `CreationFlags::from_bits_truncate(flags).contains(O_CLOEXEC)`: the
      truncation keeps the O_CLOEXEC bit, so this is that bit (19). */
  predicate WantsCloexec(flags: OpenFlags) {
    BitSet(flags, 19)
  }

  /** The flags of `creat` open for writing only (access mode 1), create and
      truncate, and do not ask for close-on-exec. */
  lemma CreatFlags()
    ensures CREAT_FLAGS % 4 == 1
    ensures BitSet(CREAT_FLAGS, 6) && BitSet(CREAT_FLAGS, 9)
    ensures !WantsCloexec(CREAT_FLAGS)
  {
  }

  /** The file mode handed to the resolver: `mode & !umask`, the requested
      mode with the bits of the umask cleared. */
  function MaskedMode(mode: Mode, umask: Mode): (m: Mode)
    ensures m & umask == 0
    ensures m | (mode & umask) == mode
  {
    mode & !umask
  }

  /** An interrupted open is restarted: EINTR becomes ERESTARTSYS, and every
      other error is kept. */
  function RestartIfInterrupted(e: Errno): (r: Errno)
    ensures r != EINTR
    ensures e != EINTR ==> r == e
  {
    if e == EINTR then ERESTARTSYS else e
  }

  const PROC_SELF_EXE: string := "/proc/self/exe"
  const PROC_SELF_FD: string := "/proc/self/fd/"

  /** The path resolver's `open`, given the directory fd, the path, the
      flags and the masked mode (fs_resolver.rs is not part of this model). */
  type Opener = (int, string, OpenFlags, Mode) -> Result<File>

  /** What `openat` decides for a path it has read: fail, panic, or insert a
      file into the table. */
  datatype OpenPlan = Fail(error: Errno) | Panic | InsertFile(file: File)

  /** The decisions of `sys_openat`, in their order: an empty path is ENOENT;
      `/proc/self/exe` is the process's executable when one is recorded; a
      path under `/proc/self/fd/` must end in a number that prints back to
      the same path (or the kernel panics) and names the file at that
      descriptor (EBADF when there is none); any other path is opened by the
      resolver with the masked mode, an interrupted open becoming
      ERESTARTSYS. */
  function OpenatPlan(
    dirfd: int, path: string, flags: OpenFlags, mode: Mode, umask: Mode, executable: Option<File>,
    table: map<FileDesc, FileEntry>, open: Opener)
    : OpenPlan
  {
    if path == [] then Fail(ENOENT)
    else if path == PROC_SELF_EXE && executable.Some? then InsertFile(executable.value)
    else if PROC_SELF_FD <= path then
      var fd := ParseI32(ReplaceAll(path, PROC_SELF_FD));
      if fd.None? || PROC_SELF_FD + ShowInt(fd.value) != path then Panic
      else if fd.value >= 0 && fd.value in table then InsertFile(table[fd.value].file)
      else Fail(EBADF)
    else
      match open(dirfd, path, flags, MaskedMode(mode, umask))
      case Ok(file) => InsertFile(file)
      case Err(e) => Fail(RestartIfInterrupted(e))
  }

  /** A path `/proc/self/fd/N` with N a 32-bit number in its canonical
      decimal form names the file at descriptor N, or fails with EBADF. */
  lemma FdPathOpensDescriptor(
    n: int, dirfd: int, flags: OpenFlags, mode: Mode, umask: Mode, executable: Option<File>,
    table: map<FileDesc, FileEntry>, open: Opener)
    requires IsI32(n)
    ensures var plan := OpenatPlan(dirfd, PROC_SELF_FD + ShowInt(n), flags, mode, umask, executable, table, open);
            plan == if n >= 0 && n in table then InsertFile(table[n].file) else Fail(EBADF)
  {
    var path := PROC_SELF_FD + ShowInt(n);
    assert path[..|PROC_SELF_FD|] == PROC_SELF_FD;
    assert path[|PROC_SELF_FD|..] == ShowInt(n);
    ReplaceAllAbsent(ShowInt(n), PROC_SELF_FD);
    ParseShowI32(n);
    assert path != PROC_SELF_EXE by {
      assert path[11] == PROC_SELF_FD[11] == 'f' && PROC_SELF_EXE[11] == 'e';
    }
  }

  /** Every other path under `/proc/self/fd/` (a missing, signed,
      zero-padded or out-of-range number, or trailing text) panics. */
  lemma NonCanonicalFdPathPanics(
    path: string, dirfd: int, flags: OpenFlags, mode: Mode, umask: Mode, executable: Option<File>,
    table: map<FileDesc, FileEntry>, open: Opener)
    requires PROC_SELF_FD <= path
    requires forall n :: IsI32(n) ==> path != PROC_SELF_FD + ShowInt(n)
    ensures OpenatPlan(dirfd, path, flags, mode, umask, executable, table, open) == Panic
  {
    assert path != PROC_SELF_EXE by {
      assert path[11] == PROC_SELF_FD[11] == 'f' && PROC_SELF_EXE[11] == 'e';
    }
  }

  /** The table after `insert_file_like` put `file` under `fd`: `fd` was the
      lowest free descriptor and it is close-on-exec iff O_CLOEXEC was
      asked for. */
  ghost predicate InsertedAt(
    old_entries: map<FileDesc, FileEntry>, entries: map<FileDesc, FileEntry>, fd: int, file: File,
    flags: OpenFlags)
  {
    && fd >= 0 && fd !in old_entries
    && (forall j :: 0 <= j < fd ==> j in old_entries)
    && entries == old_entries[fd := FileEntry(file, WantsCloexec(flags))]
  }

  /** `insert_file_like`. */
  method InsertFileLike(local: ThreadLocal, file: File, flags: OpenFlags) returns (fd: FileDesc)
    modifies local.fileTable
    ensures InsertedAt(old(local.fileTable.entries), local.fileTable.entries, fd, file, flags)
  {
    var cloexec := WantsCloexec(flags);
    fd := local.fileTable.Insert(file, cloexec);
  }

  /** `sys_openat` for the calling thread, with `pathRead` the outcome of
      reading the path from user memory and `executable` the file recorded
      as the process's executable. A plan that inserts a file returns its
      new descriptor; a failing or panicking plan leaves the table alone. */
  method SysOpenat(
    dirfd: int, pathRead: Result<string>, flags: OpenFlags, mode: Mode, local: ThreadLocal,
    executable: Option<File>, open: Opener)
    returns (r: Outcome)
    modifies local.fileTable
    ensures pathRead.Err? ==> r == Returned(Err(pathRead.error)) && local.fileTable.entries == old(local.fileTable.entries)
    ensures pathRead.Ok? ==>
              match OpenatPlan(dirfd, pathRead.value, flags, mode, old(local.fs.umask), executable, old(local.fileTable.entries), open)
              case Fail(e) => r == Returned(Err(e)) && local.fileTable.entries == old(local.fileTable.entries)
              case Panic => r == Panicked && local.fileTable.entries == old(local.fileTable.entries)
              case InsertFile(file) =>
                r.Returned? && r.result.Ok? && r.result.value.Return?
                && InsertedAt(old(local.fileTable.entries), local.fileTable.entries, r.result.value.code, file, flags)
  {
    if pathRead.Err? {
      return Returned(Err(pathRead.error));
    }
    var path := pathRead.value;
    if path == [] {
      return Returned(Err(ENOENT));
    }
    if path == PROC_SELF_EXE && executable.Some? {
      var fd := InsertFileLike(local, executable.value, flags);
      return Returned(Ok(Return(fd)));
    }
    if PROC_SELF_FD <= path {
      var parsed := ParseI32(ReplaceAll(path, PROC_SELF_FD));
      if parsed.None? || PROC_SELF_FD + ShowInt(parsed.value) != path {
        return Panicked;
      }
      var file := local.fileTable.Get(parsed.value);
      if file.Err? {
        return Returned(Err(file.error));
      }
      var newFd := InsertFileLike(local, file.value, flags);
      return Returned(Ok(Return(newFd)));
    }
    var maskMode := mode & !local.fs.umask;
    var handle := open(dirfd, path, flags, maskMode);
    if handle.Err? {
      return Returned(Err(RestartIfInterrupted(handle.error)));
    }
    var fd := InsertFileLike(local, handle.value, flags);
    r := Returned(Ok(Return(fd)));
  }

  /** `sys_open`: `openat` from the working directory. */
  method SysOpen(pathRead: Result<string>, flags: OpenFlags, mode: Mode, local: ThreadLocal,
                 executable: Option<File>, open: Opener)
    returns (r: Outcome)
    modifies local.fileTable
    ensures pathRead.Err? ==> r == Returned(Err(pathRead.error)) && local.fileTable.entries == old(local.fileTable.entries)
    ensures pathRead.Ok? ==>
              match OpenatPlan(AT_FDCWD, pathRead.value, flags, mode, old(local.fs.umask), executable, old(local.fileTable.entries), open)
              case Fail(e) => r == Returned(Err(e)) && local.fileTable.entries == old(local.fileTable.entries)
              case Panic => r == Panicked && local.fileTable.entries == old(local.fileTable.entries)
              case InsertFile(file) =>
                r.Returned? && r.result.Ok? && r.result.value.Return?
                && InsertedAt(old(local.fileTable.entries), local.fileTable.entries, r.result.value.code, file, flags)
  {
    r := SysOpenat(AT_FDCWD, pathRead, flags, mode, local, executable, open);
  }

  /** `sys_creat`: `openat` from the working directory with the flags of
      `creat`; the new descriptor is never close-on-exec. */
  method SysCreat(pathRead: Result<string>, mode: Mode, local: ThreadLocal, executable: Option<File>, open: Opener)
    returns (r: Outcome)
    modifies local.fileTable
    ensures pathRead.Err? ==> r == Returned(Err(pathRead.error)) && local.fileTable.entries == old(local.fileTable.entries)
    ensures pathRead.Ok? ==>
              match OpenatPlan(AT_FDCWD, pathRead.value, CREAT_FLAGS, mode, old(local.fs.umask), executable, old(local.fileTable.entries), open)
              case Fail(e) => r == Returned(Err(e)) && local.fileTable.entries == old(local.fileTable.entries)
              case Panic => r == Panicked && local.fileTable.entries == old(local.fileTable.entries)
              case InsertFile(file) =>
                r.Returned? && r.result.Ok? && r.result.value.Return?
                && InsertedAt(old(local.fileTable.entries), local.fileTable.entries, r.result.value.code, file, CREAT_FLAGS)
    ensures r.Returned? && r.result.Ok? ==>
              r.result.value.code in local.fileTable.entries && !local.fileTable.entries[r.result.value.code].cloexec
  {
    CreatFlags();
    r := SysOpenat(AT_FDCWD, pathRead, CREAT_FLAGS, mode, local, executable, open);
  }
}
