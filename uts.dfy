/** The UTS namespace (kernel/src/namespace/uts.rs): a `UtsName` of six
    fixed-size, NUL-padded byte fields and the user namespace that owns it. */
module Uts {
  import opened Prelude
  import opened UserNamespaces

  /** `UTS_FIELD_LEN`: every field holds 65 bytes. */
  const UTS_FIELD_LEN: nat := 65

  /** `UtsName`: a plain value, copied whole when a namespace is cloned. */
  datatype UtsName = UtsName(
    sysname: seq<byte>, nodename: seq<byte>, release: seq<byte>,
    version: seq<byte>, machine: seq<byte>, domainname: seq<byte>)
  {
    /** Every field has the fixed length. */
    predicate Valid() {
      && |sysname| == UTS_FIELD_LEN && |nodename| == UTS_FIELD_LEN && |release| == UTS_FIELD_LEN
      && |version| == UTS_FIELD_LEN && |machine| == UTS_FIELD_LEN && |domainname| == UTS_FIELD_LEN
    }
  }

  /** `UtsName::new`: all six fields zero-filled. */
  function EmptyUtsName(): (u: UtsName)
    ensures u.Valid()
    ensures u.sysname == Zeros(UTS_FIELD_LEN) && u.nodename == Zeros(UTS_FIELD_LEN)
    ensures u.release == Zeros(UTS_FIELD_LEN) && u.version == Zeros(UTS_FIELD_LEN)
    ensures u.machine == Zeros(UTS_FIELD_LEN) && u.domainname == Zeros(UTS_FIELD_LEN)
  {
    var z := Zeros(UTS_FIELD_LEN);
    UtsName(z, z, z, z, z, z)
  }

  /** The bytes of an ASCII string literal. */
  function Ascii(s: string): (r: seq<byte>)
    requires forall i :: 0 <= i < |s| ==> s[i] as int < 0x80
    ensures |r| == |s| && forall i :: 0 <= i < |s| ==> r[i] == s[i] as int
  {
    seq(|s|, i requires 0 <= i < |s| => s[i] as int)
  }

  function Min(a: nat, b: nat): nat {
    if a < b then a else b
  }

  /** What `copy_slice(src, dst)` leaves in `dst`: the first
      `min(|src|, |dst|)` bytes come from `src`, the rest are untouched. */
  function CopiedInto(src: seq<byte>, dst: seq<byte>): (r: seq<byte>)
    ensures |r| == |dst|
    ensures forall i :: 0 <= i < |dst| ==> r[i] == if i < |src| then src[i] else dst[i]
  {
    var n := Min(|src|, |dst|);
    src[..n] + dst[n..]
  }

  /** The `copy_slice` closure of `new_init`, writing `dst` in place. */
  method CopySlice(src: seq<byte>, dst: array<byte>)
    modifies dst
    ensures dst[..] == CopiedInto(src, old(dst[..]))
  {
    var len := Min(|src|, dst.Length);
    var i := 0;
    while i < len
      invariant 0 <= i <= len
      invariant forall j :: 0 <= j < i ==> dst[j] == src[j]
      invariant forall j :: i <= j < dst.Length ==> dst[j] == old(dst[j])
    {
      dst[i] := src[i];
      i := i + 1;
    }
  }

  /** A field holding `s` followed by NUL padding. */
  function Padded(s: seq<byte>): (r: seq<byte>)
    requires |s| <= UTS_FIELD_LEN
  {
    s + Zeros(UTS_FIELD_LEN - |s|)
  }

  /** The literals of the initial name. */
  const SYSNAME: seq<byte> := Ascii("Linux")
  const NODENAME: seq<byte> := Ascii("WHITLEY")
  const RELEASE: seq<byte> := Ascii("5.13.0")
  const VERSION: seq<byte> := Ascii("5.13.0")
  const MACHINE: seq<byte> := Ascii("x86_64")
  const DOMAINNAME: seq<byte> := Ascii("")

  /** The name every initial namespace reports: Linux-like values. */
  function InitUtsName(): UtsName {
    UtsName(
      Padded(SYSNAME), Padded(NODENAME), Padded(RELEASE),
      Padded(VERSION), Padded(MACHINE), Padded(DOMAINNAME))
  }

  /** The text of a field as a C string: the bytes before the first NUL. */
  function CStr(field: seq<byte>): seq<byte> {
    if field == [] || field[0] == 0 then [] else [field[0]] + CStr(field[1..])
  }

  /** A literal without NUL bytes, padded with at least one NUL, reads back
      as itself. */
  lemma {:induction false} PaddedReadsBack(s: seq<byte>, pad: nat)
    requires pad > 0
    requires forall i :: 0 <= i < |s| ==> s[i] != 0
    ensures CStr(s + Zeros(pad)) == s
    decreases |s|
  {
    if s == [] {
      assert (s + Zeros(pad))[0] == 0;
    } else {
      assert (s + Zeros(pad))[1..] == s[1..] + Zeros(pad);
      PaddedReadsBack(s[1..], pad);
    }
  }

  /** The initial name is well formed, and each field reads back as its
      literal: sysname "Linux", nodename "WHITLEY", release and version
      "5.13.0", machine "x86_64", and an empty domain name. */
  lemma InitUtsNameReadsBack()
    ensures InitUtsName().Valid()
    ensures CStr(InitUtsName().sysname) == SYSNAME
    ensures CStr(InitUtsName().nodename) == NODENAME
    ensures CStr(InitUtsName().release) == RELEASE
    ensures CStr(InitUtsName().version) == VERSION
    ensures CStr(InitUtsName().machine) == MACHINE
    ensures CStr(InitUtsName().domainname) == []
  {
    PaddedReadsBack(SYSNAME, UTS_FIELD_LEN - 5);
    PaddedReadsBack(NODENAME, UTS_FIELD_LEN - 7);
    PaddedReadsBack(RELEASE, UTS_FIELD_LEN - 6);
    PaddedReadsBack(VERSION, UTS_FIELD_LEN - 6);
    PaddedReadsBack(MACHINE, UTS_FIELD_LEN - 6);
    PaddedReadsBack(DOMAINNAME, UTS_FIELD_LEN);
  }

  class UtsNamespace {
    var utsName: UtsName
    const owner: UserNamespace

    constructor (utsName: UtsName, owner: UserNamespace)
      ensures this.utsName == utsName && this.owner == owner
    {
      this.utsName := utsName;
      this.owner := owner;
    }

    /** `clone_new`: refused with the capability error unless the caller
        holds SYS_ADMIN in the new owner; otherwise a new namespace with its
        own copy of the name. */
    method CloneNew(owner: UserNamespace, sysAdminIn: set<UserNamespace>) returns (r: Result<UtsNamespace>)
      ensures r.Err? <==> owner !in sysAdminIn
      ensures r.Err? ==> r.error == EPERM
      ensures r.Ok? ==> fresh(r.value) && r.value.owner == owner && r.value.utsName == utsName
    {
      var _ :- CheckSysAdmin(owner, sysAdminIn);
      var ns := new UtsNamespace(utsName, owner);
      r := Ok(ns);
    }
  }

  /** One field of `new_init`: a zero-filled buffer that `copy_slice` fills. */
  method InitField(literal: seq<byte>) returns (field: seq<byte>)
    requires |literal| <= UTS_FIELD_LEN
    ensures field == Padded(literal)
  {
    var buf := new byte[UTS_FIELD_LEN](_ => 0);
    assert buf[..] == Zeros(UTS_FIELD_LEN);
    CopySlice(literal, buf);
    field := buf[..];
  }

  /** `new_init`: a namespace owned by `owner` whose name is `InitUtsName`. */
  method NewInit(owner: UserNamespace) returns (ns: UtsNamespace)
    ensures fresh(ns) && ns.owner == owner && ns.utsName == InitUtsName()
  {
    var sysname := InitField(SYSNAME);
    var nodename := InitField(NODENAME);
    var release := InitField(RELEASE);
    var version := InitField(VERSION);
    var machine := InitField(MACHINE);
    var domainname := InitField(DOMAINNAME);
    ns := new UtsNamespace(UtsName(sysname, nodename, release, version, machine, domainname), owner);
  }
}
