/** The per-thread file table, as far as `execve`, `unshare`, `setns`,
    `openat` and `socket` use it: a map from file descriptors to open files,
    each with its close-on-exec flag. file_table.rs is not part of this model;
    the behaviour stated here is the one those callers rely on (a new file
    takes the lowest free descriptor, `close_files_on_exec` drops the entries
    marked close-on-exec, a clone is an independent copy). */
module Files {
  import opened Prelude

  type FileDesc = nat

  /** The kinds of socket that `socket` creates. */
  datatype SocketKind = UnixStream | TcpStream | UdpDatagram

  /** An open file: an inode handle opened at a path, a pidfd, a socket, or
      any other file, told apart by an identity number. */
  datatype File =
    | InodeHandle(path: string, id: nat)
    | PidFile(pid: u32)
    | Socket(kind: SocketKind, nonblocking: bool)
    | OtherFile(id: nat)

  /** A table entry: the file and its `FdFlags::CLOEXEC` bit. */
  datatype FileEntry = FileEntry(file: File, cloexec: bool)

  class FileTable {
    var entries: map<FileDesc, FileEntry>

    constructor Empty()
      ensures entries == map[]
    {
      entries := map[];
    }

    /** `clone`: a new table with the same entries; later changes to either
        table do not show in the other. */
    constructor Copy(other: FileTable)
      ensures entries == other.entries
    {
      entries := other.entries;
    }

    /** `get_file`: the file behind `fd`, or EBADF. */
    function Get(fd: int): (r: Result<File>)
      reads this
      ensures r.Ok? <==> fd >= 0 && fd in entries
      ensures r.Ok? ==> r.value == entries[fd].file
      ensures r.Err? ==> r.error == EBADF
    {
      if fd >= 0 && fd in entries then Ok(entries[fd].file) else Err(EBADF)
    }

    /** `insert`: the file takes the lowest descriptor not in use. */
    method Insert(file: File, cloexec: bool) returns (fd: FileDesc)
      modifies this
      ensures fd !in old(entries)
      ensures forall j :: 0 <= j < fd ==> j in old(entries)
      ensures entries == old(entries)[fd := FileEntry(file, cloexec)]
    {
      fd := 0;
      while fd in entries
        invariant entries == old(entries)
        invariant forall j :: 0 <= j < fd ==> j in entries
        invariant fd <= |entries.Keys|
        decreases |entries.Keys| - fd
      {
        DescriptorsBelowBound(fd + 1, entries.Keys);
        fd := fd + 1;
      }
      entries := entries[fd := FileEntry(file, cloexec)];
    }

    /** `close_files_on_exec`: every entry marked close-on-exec is removed and
        every other entry is kept as it was. */
    method CloseFilesOnExec()
      modifies this
      ensures entries == KeptOnExec(old(entries))
    {
      entries := KeptOnExec(entries);
    }
  }

  /** The entries that survive an `execve`. */
  function KeptOnExec(entries: map<FileDesc, FileEntry>): (r: map<FileDesc, FileEntry>)
    ensures forall fd :: fd in r <==> fd in entries && !entries[fd].cloexec
    ensures forall fd :: fd in r ==> r[fd] == entries[fd]
  {
    map fd | fd in entries && !entries[fd].cloexec :: entries[fd]
  }

  /** A table whose descriptors include all of `0..n` holds at least `n`
      entries; hence the search for a free descriptor stops at `|entries|`. */
  lemma {:induction false} DescriptorsBelowBound(n: nat, keys: set<FileDesc>)
    requires forall j :: 0 <= j < n ==> j in keys
    ensures n <= |keys|
    decreases n
  {
    if n > 0 {
      var rest := keys - {n - 1};
      assert forall j :: 0 <= j < n - 1 ==> j in rest;
      DescriptorsBelowBound(n - 1, rest);
    }
  }
}
