/** The `CloneFlags` bit set that `unshare`, `setns` and namespace cloning
    work on. clone.rs, which declares it, is not part of this model; the bit
    positions are those of Linux's `sched.h`, which `CloneFlags` mirrors.

    A set of flags is modelled as a set of named flags, and the raw 32-bit
    word a system call receives as the set of positions of its one bits. */
module CloneFlagBits {
  import opened Prelude

  datatype CloneFlag =
    | NEWTIME | VM | FS | FILES | SIGHAND | PIDFD | PTRACE | VFORK | PARENT | THREAD
    | NEWNS | SYSVSEM | SETTLS | PARENT_SETTID | CHILD_CLEARTID | DETACHED | UNTRACED
    | CHILD_SETTID | NEWCGROUP | NEWUTS | NEWIPC | NEWUSER | NEWPID | NEWNET | IO

  type Flags = set<CloneFlag>

  /** A `u32` given as the positions of its one bits. */
  type Word = s: set<nat> | forall i :: i in s ==> i < 32

  /** The lowest bit position that carries a flag. */
  const FIRST_FLAG_BIT: nat := 7

  /** The bit of each flag: bits 7 (NEWTIME, 0x80) to 31 (IO, 0x8000_0000),
      in declaration order. */
  function Position(f: CloneFlag): (i: nat)
    ensures FIRST_FLAG_BIT <= i < 32
  {
    match f
    case NEWTIME => 7
    case VM => 8
    case FS => 9
    case FILES => 10
    case SIGHAND => 11
    case PIDFD => 12
    case PTRACE => 13
    case VFORK => 14
    case PARENT => 15
    case THREAD => 16
    case NEWNS => 17
    case SYSVSEM => 18
    case SETTLS => 19
    case PARENT_SETTID => 20
    case CHILD_CLEARTID => 21
    case DETACHED => 22
    case UNTRACED => 23
    case CHILD_SETTID => 24
    case NEWCGROUP => 25
    case NEWUTS => 26
    case NEWIPC => 27
    case NEWUSER => 28
    case NEWPID => 29
    case NEWNET => 30
    case IO => 31
  }

  /** The flag at a bit position from 7 to 31. */
  function FlagAt(i: nat): (f: CloneFlag)
    requires FIRST_FLAG_BIT <= i < 32
    ensures Position(f) == i
  {
    if i == 7 then NEWTIME else if i == 8 then VM else if i == 9 then FS
    else if i == 10 then FILES else if i == 11 then SIGHAND else if i == 12 then PIDFD
    else if i == 13 then PTRACE else if i == 14 then VFORK else if i == 15 then PARENT
    else if i == 16 then THREAD else if i == 17 then NEWNS else if i == 18 then SYSVSEM
    else if i == 19 then SETTLS else if i == 20 then PARENT_SETTID
    else if i == 21 then CHILD_CLEARTID else if i == 22 then DETACHED
    else if i == 23 then UNTRACED else if i == 24 then CHILD_SETTID
    else if i == 25 then NEWCGROUP else if i == 26 then NEWUTS else if i == 27 then NEWIPC
    else if i == 28 then NEWUSER else if i == 29 then NEWPID else if i == 30 then NEWNET
    else IO
  }

  /** No two flags share a bit, and every bit from 7 to 31 carries one. */
  lemma PositionIsBijective(f: CloneFlag, i: nat)
    ensures FIRST_FLAG_BIT <= i < 32 ==> (Position(f) == i <==> f == FlagAt(i))
  {
  }

  /** `bits`: the word with exactly the bits of the flags set. */
  function ToBits(flags: Flags): (w: Word)
    ensures forall i :: i in w ==> FIRST_FLAG_BIT <= i
  {
    set f | f in flags :: Position(f)
  }

  /** `CloneFlags::from_bits`: refused with EINVAL when a bit that carries no
      flag is set; otherwise the flags whose bits are set. */
  function FromBits(raw: Word): (r: Result<Flags>)
    ensures r.Ok? <==> forall i :: i in raw ==> FIRST_FLAG_BIT <= i
    ensures r.Ok? ==> forall f :: f in r.value <==> Position(f) in raw
    ensures r.Err? ==> r.error == EINVAL
  {
    if exists i :: i in raw && i < FIRST_FLAG_BIT then Err(EINVAL)
    else Ok(set f: CloneFlag | Position(f) in raw)
  }

  /** Decoding and encoding are inverse: every set of flags survives the
      round trip through its word, and every accepted word is the word of
      the flags it decodes to. */
  lemma FromBitsToBits(flags: Flags, raw: Word)
    ensures FromBits(ToBits(flags)) == Ok(flags)
    ensures FromBits(raw).Ok? ==> ToBits(FromBits(raw).value) == raw
  {
    var w := ToBits(flags);
    assert FromBits(w).Ok?;
    forall f
      ensures f in FromBits(w).value <==> f in flags
    {
      if Position(f) in w {
        var g :| g in flags && Position(g) == Position(f);
        PositionIsBijective(g, Position(f));
        PositionIsBijective(f, Position(f));
      }
    }
    assert FromBits(w).value == flags;
    if FromBits(raw).Ok? {
      forall i | i in raw
        ensures i in ToBits(FromBits(raw).value)
      {
        assert FlagAt(i) in FromBits(raw).value;
      }
    }
  }

  /** The zero word decodes to no flag at all. */
  lemma FromBitsZero()
    ensures FromBits({}) == Ok({})
  {
    assert FromBits({}).value == {};
  }
}
