/** The `execve` and `execveat` system calls (kernel/src/syscall/execve.rs):
    find the executable the caller names, then hand it to `do_execve`. Only
    the lookup rules are modelled here; `do_execve` is the protocol of the
    `Execve` module and appears as a parameter. */
module ExecveSyscall {
  import opened Prelude
  import opened Files

  /** An absolute path of the file system. */
  type Path = string

  /** A path as the resolver takes it: relative to a directory fd. */
  datatype FsPath = FsPath(dirfd: int, path: string)

  /** The file-system services the lookup calls (fs_resolver.rs and the
      executable check are not part of this model): `FsPath::new`, the two
      lookups, and `check_executable_file`. */
  datatype Resolver = Resolver(
    fsPathNew: (int, string) -> Result<FsPath>,
    lookup: FsPath -> Result<Path>,
    lookupNoFollow: FsPath -> Result<Path>,
    checkExecutable: Path -> Result<Unit>)

  const AT_EMPTY_PATH_BIT: nat := 12
  const AT_SYMLINK_NOFOLLOW_BIT: nat := 8

  /** The two flags `execveat` knows: AT_EMPTY_PATH (0x1000) and
      AT_SYMLINK_NOFOLLOW (0x100). */
  datatype AtFlags = AtFlags(emptyPath: bool, symlinkNoFollow: bool)

  /** `OpenFlags::from_bits_truncate`: the two known bits are read, every
      other bit is dropped. */
  function FromBitsTruncate(raw: u32): (f: AtFlags)
    ensures f.emptyPath <==> BitSet(raw, AT_EMPTY_PATH_BIT)
    ensures f.symlinkNoFollow <==> BitSet(raw, AT_SYMLINK_NOFOLLOW_BIT)
  {
    AtFlags(BitSet(raw, AT_EMPTY_PATH_BIT), BitSet(raw, AT_SYMLINK_NOFOLLOW_BIT))
  }

  /** `bits`: the word of the flags. */
  function Bits(f: AtFlags): u32 {
    (if f.emptyPath then 0x1000 else 0) + (if f.symlinkNoFollow then 0x100 else 0)
  }

  /** Every pair of flags survives the round trip through its word, and the
      zero word holds neither flag. */
  lemma FromBitsTruncateBits(f: AtFlags)
    ensures FromBitsTruncate(Bits(f)) == f
    ensures FromBitsTruncate(0) == AtFlags(false, false)
  {
    assert Pow2(8) == 0x100 && Pow2(12) == 0x1000;
  }

  /** Unknown bits are dropped, not refused: a word with every bit set
      reads as both flags, and one with only unknown bits as neither. */
  lemma UnknownBitsDropped()
    ensures FromBitsTruncate(0xFFFF_FFFF) == AtFlags(true, true)
    ensures FromBitsTruncate(0xFFFF_EEFF) == AtFlags(false, false)
  {
    assert Pow2(8) == 0x100 && Pow2(12) == 0x1000;
  }

  /** `as_inode_or_err`: the path of an inode handle; any other file is
      refused with EINVAL (file_handle.rs is not part of this model). */
  function InodePath(file: File): (r: Result<Path>)
    ensures r.Ok? <==> file.InodeHandle?
    ensures r.Ok? ==> r.value == file.path
  {
    if file.InodeHandle? then Ok(file.path) else Err(EINVAL)
  }

  /** `lookup_executable_file`: an empty file name needs AT_EMPTY_PATH
      (ENOENT otherwise) and names the inode open at `dfd`; any other name
      is resolved from `dfd`, without following a final symbolic link when
      AT_SYMLINK_NOFOLLOW is given. The path found must pass the executable
      check. */
  function LookupExecutableFile(dfd: int, filename: string, flags: AtFlags, table: FileTable, fs: Resolver)
    : (r: Result<Path>)
    reads table
    ensures r.Ok? ==> fs.checkExecutable(r.value).Ok?
  {
    var path :-
      if filename == [] then
        if !flags.emptyPath then Err(ENOENT)
        else
          var file :- table.Get(dfd);
          InodePath(file)
      else
        var fsPath :- fs.fsPathNew(dfd, filename);
        if flags.symlinkNoFollow then fs.lookupNoFollow(fsPath) else fs.lookup(fsPath);
    var _ :- fs.checkExecutable(path);
    Ok(path)
  }

  /** An empty file name without AT_EMPTY_PATH is refused with ENOENT, before
      `dfd` is looked at; with AT_EMPTY_PATH it is the path of the inode
      behind `dfd` (EBADF when `dfd` is not open, EINVAL when it is not an
      inode). */
  lemma EmptyFilenameRules(dfd: int, flags: AtFlags, table: FileTable, fs: Resolver)
    ensures !flags.emptyPath ==> LookupExecutableFile(dfd, [], flags, table, fs) == Err(ENOENT)
    ensures flags.emptyPath && table.Get(dfd).Err? ==> LookupExecutableFile(dfd, [], flags, table, fs) == Err(EBADF)
    ensures flags.emptyPath && table.Get(dfd).Ok? && !table.Get(dfd).value.InodeHandle? ==>
              LookupExecutableFile(dfd, [], flags, table, fs) == Err(EINVAL)
    ensures flags.emptyPath && table.Get(dfd).Ok? && table.Get(dfd).value.InodeHandle? ==>
              var path := table.Get(dfd).value.path;
              LookupExecutableFile(dfd, [], flags, table, fs) ==
                (if fs.checkExecutable(path).Ok? then Ok(path) else Err(fs.checkExecutable(path).error))
  {
  }

  /** A non-empty file name is first made an `FsPath` from `dfd` (its
      error returned), then looked up without following links exactly when
      AT_SYMLINK_NOFOLLOW is given (the lookup's error returned), and the
      path found must pass the executable check (its error returned);
      AT_EMPTY_PATH plays no part. */
  lemma NamedLookupRules(dfd: int, filename: string, flags: AtFlags, table: FileTable, fs: Resolver)
    requires filename != []
    ensures fs.fsPathNew(dfd, filename).Err? ==>
              LookupExecutableFile(dfd, filename, flags, table, fs) == Err(fs.fsPathNew(dfd, filename).error)
    ensures fs.fsPathNew(dfd, filename).Ok? ==>
              var fsPath := fs.fsPathNew(dfd, filename).value;
              var found := if flags.symlinkNoFollow then fs.lookupNoFollow(fsPath) else fs.lookup(fsPath);
              && (found.Err? ==> LookupExecutableFile(dfd, filename, flags, table, fs) == Err(found.error))
              && (found.Ok? ==>
                    LookupExecutableFile(dfd, filename, flags, table, fs)
                    == (if fs.checkExecutable(found.value).Ok? then Ok(found.value)
                        else Err(fs.checkExecutable(found.value).error)))
    ensures LookupExecutableFile(dfd, filename, flags, table, fs)
            == LookupExecutableFile(dfd, filename, flags.(emptyPath := !flags.emptyPath), table, fs)
  {
  }

  /** `sys_execveat`: the file name read from user memory, the executable
      looked up with the known flags, then `do_execve`; a successful
      `do_execve` does not return to the old program. */
  function SysExecveat(
    dfd: int, filenameRead: Result<string>, rawFlags: u32, table: FileTable, fs: Resolver,
    doExecve: Path -> Result<Unit>)
    : (r: Result<SyscallReturn>)
    reads table
    ensures r.Ok? ==> r.value == NoReturn
    ensures r.Ok? <==>
              && filenameRead.Ok?
              && LookupExecutableFile(dfd, filenameRead.value, FromBitsTruncate(rawFlags), table, fs).Ok?
              && doExecve(LookupExecutableFile(dfd, filenameRead.value, FromBitsTruncate(rawFlags), table, fs).value).Ok?
    ensures r.Err? ==>
              r.error == if filenameRead.Err? then filenameRead.error
                         else
                           var found := LookupExecutableFile(dfd, filenameRead.value, FromBitsTruncate(rawFlags), table, fs);
                           if found.Err? then found.error else doExecve(found.value).error
  {
    var filename :- filenameRead;
    var path :- LookupExecutableFile(dfd, filename, FromBitsTruncate(rawFlags), table, fs);
    var _ :- doExecve(path);
    Ok(NoReturn)
  }

  /** `AT_FDCWD`: relative names start at the working directory. */
  const AT_FDCWD: int := -100

  /** `sys_execve`: `execveat` from the working directory with no flag. */
  function SysExecve(filenameRead: Result<string>, table: FileTable, fs: Resolver, doExecve: Path -> Result<Unit>)
    : (r: Result<SyscallReturn>)
    reads table
    ensures r == SysExecveat(AT_FDCWD, filenameRead, 0, table, fs, doExecve)
  {
    var filename :- filenameRead;
    var path :- LookupExecutableFile(AT_FDCWD, filename, AtFlags(false, false), table, fs);
    var _ :- doExecve(path);
    Ok(NoReturn)
  }
}
