/** The part every netlink message segment shares
    (kernel/src/net/socket/netlink/message/segment/common.rs): a header, a
    fixed-size body and a list of attributes, how a new segment computes its
    length, and how a segment is written to and read from user memory. */
module NetlinkSegment {
  import opened Prelude

  // ---------------------------------------------------------------------
  // Little-endian integers
  // ---------------------------------------------------------------------

  function Pow256(n: nat): (p: nat)
    ensures p >= 1
  {
    if n == 0 then 1 else 256 * Pow256(n - 1)
  }

  /** `v` as `n` little-endian bytes (the low `n` bytes of `v`). */
  function Le(v: nat, n: nat): (b: seq<byte>)
    ensures |b| == n
  {
    if n == 0 then [] else [v % 256] + Le(v / 256, n - 1)
  }

  /** The value of little-endian bytes. */
  function FromLe(b: seq<byte>): nat {
    if b == [] then 0 else b[0] + 256 * FromLe(b[1..])
  }

  /** `n` bytes hold a value below `256^n`. */
  lemma {:induction false} FromLeBound(b: seq<byte>)
    ensures FromLe(b) < Pow256(|b|)
    decreases |b|
  {
    if b != [] {
      FromLeBound(b[1..]);
      assert FromLe(b[1..]) <= Pow256(|b| - 1) - 1;
      assert 256 * FromLe(b[1..]) <= 256 * Pow256(|b| - 1) - 256;
    }
  }

  /** A value that fits in `n` bytes is read back from its encoding. */
  lemma {:induction false} FromLeLe(v: nat, n: nat)
    requires v < Pow256(n)
    ensures FromLe(Le(v, n)) == v
  {
    if n > 0 {
      var b := Le(v, n);
      assert b[1..] == Le(v / 256, n - 1);
      FromLeLe(v / 256, n - 1);
    }
  }

  // ---------------------------------------------------------------------
  // The segment
  // ---------------------------------------------------------------------

  type u16 = x: int | 0 <= x < 0x1_0000

  /** `CMsgSegHdr`, Linux's `nlmsghdr`. */
  datatype CMsgSegHdr = CMsgSegHdr(len: u32, type_: u16, flags: u16, sequence: u32, pid: u32)

  /** `size_of::<CMsgSegHdr>()`. */
  const HEADER_LEN: nat := 16

  /** `NLMSG_ALIGN`: segments are padded to multiples of four bytes. */
  const NLMSG_ALIGN: nat := 4

  /** `align_up(NLMSG_ALIGN)`: the least multiple of four that is at least
      `n`. */
  function AlignUp(n: nat): (m: nat)
    ensures n <= m < n + NLMSG_ALIGN && m % NLMSG_ALIGN == 0
  {
    (n + 3) / 4 * 4
  }

  /** The header as `write_val` writes it: its fields in order, each in
      little-endian byte order. */
  function HeaderBytes(h: CMsgSegHdr): (b: seq<byte>)
    ensures |b| == HEADER_LEN
  {
    Le(h.len, 4) + Le(h.type_, 2) + Le(h.flags, 2) + Le(h.sequence, 4) + Le(h.pid, 4)
  }

  /** The header read back from its bytes. */
  function ParseHeader(b: seq<byte>): CMsgSegHdr
    requires |b| == HEADER_LEN
  {
    FromLeBound(b[0..4]);
    FromLeBound(b[4..6]);
    FromLeBound(b[6..8]);
    FromLeBound(b[8..12]);
    FromLeBound(b[12..16]);
    assert Pow256(2) == 0x1_0000 && Pow256(4) == U32_LIMIT;
    CMsgSegHdr(FromLe(b[0..4]), FromLe(b[4..6]), FromLe(b[6..8]), FromLe(b[8..12]), FromLe(b[12..16]))
  }

  /** The fields' bytes lie where `ParseHeader` looks for them. */
  lemma HeaderFields(h: CMsgSegHdr)
    ensures var b := HeaderBytes(h);
            && b[0..4] == Le(h.len, 4) && b[4..6] == Le(h.type_, 2) && b[6..8] == Le(h.flags, 2)
            && b[8..12] == Le(h.sequence, 4) && b[12..16] == Le(h.pid, 4)
  {
  }

  /** Writing a header and reading it back gives the header. */
  lemma HeaderRoundTrip(h: CMsgSegHdr)
    ensures ParseHeader(HeaderBytes(h)) == h
  {
    var b := HeaderBytes(h);
    HeaderFields(h);
    assert Pow256(2) == 0x1_0000 && Pow256(4) == U32_LIMIT;
    FromLeLe(h.len, 4);
    FromLeLe(h.type_, 2);
    FromLeLe(h.flags, 2);
    FromLeLe(h.sequence, 4);
    FromLeLe(h.pid, 4);
  }

  /** An attribute, given by its encoded bytes (attr.rs is not part of this
      model); it is written padded with zero bytes to `NLMSG_ALIGN`. */
  datatype Attr = Attr(bytes: seq<byte>)

  /** `total_len_with_padding`. */
  function AttrPaddedLen(a: Attr): nat {
    AlignUp(|a.bytes|)
  }

  /** What an attribute's `write_to` writes: its bytes, then the padding. */
  function AttrWritten(a: Attr): (b: seq<byte>)
    ensures |b| == AttrPaddedLen(a)
  {
    a.bytes + seq(AttrPaddedLen(a) - |a.bytes|, _ => 0)
  }

  /** `SegmentCommon`, with the body given by the bytes of its C type (so
      `BODY_LEN` is their length). */
  datatype SegmentCommon = SegmentCommon(header: CMsgSegHdr, body: seq<byte>, attrs: seq<Attr>)

  /** `attrs_len`: the padded lengths of the attributes, added up. */
  function AttrsLen(attrs: seq<Attr>): nat {
    if attrs == [] then 0 else AttrPaddedLen(attrs[0]) + AttrsLen(attrs[1..])
  }

  /** The attributes' lengths add up over a concatenation, so the length
      of no attribute is 0 and each attribute adds its padded length. */
  lemma {:induction false} AttrsLenAppend(a: seq<Attr>, b: seq<Attr>)
    ensures AttrsLen(a + b) == AttrsLen(a) + AttrsLen(b)
    ensures AttrsLen([]) == 0
    decreases |a|
  {
    if a == [] {
      assert a + b == b;
    } else {
      assert (a + b)[1..] == a[1..] + b;
      AttrsLenAppend(a[1..], b);
    }
  }

  /** `total_len`: header, body and attributes. */
  function TotalLen(s: SegmentCommon): nat {
    HEADER_LEN + |s.body| + AttrsLen(s.attrs)
  }

  /** `SegmentCommon::new`: the parts as given, except that the header's
      length becomes the total length, cut to 32 bits by `as u32`. */
  function New(header: CMsgSegHdr, body: seq<byte>, attrs: seq<Attr>): (s: SegmentCommon)
    ensures s.body == body && s.attrs == attrs
    ensures s.header == header.(len := TotalLen(s) % U32_LIMIT)
  {
    var res := SegmentCommon(header, body, attrs);
    res.(header := header.(len := TotalLen(res) % U32_LIMIT))
  }

  /** The pieces `write_to` writes, in order: header, body, then each
      attribute in the order of the vector. */
  function Pieces(s: SegmentCommon): (ps: seq<seq<byte>>)
    ensures |ps| == 2 + |s.attrs|
    ensures ps[0] == HeaderBytes(s.header) && ps[1..][0] == s.body && ps[1..][1..] == AttrPieces(s.attrs)
  {
    [HeaderBytes(s.header), s.body] + AttrPieces(s.attrs)
  }

  function AttrPieces(attrs: seq<Attr>): (ps: seq<seq<byte>>)
    ensures |ps| == |attrs|
    ensures forall i :: 0 <= i < |attrs| ==> ps[i] == AttrWritten(attrs[i])
  {
    if attrs == [] then [] else [AttrWritten(attrs[0])] + AttrPieces(attrs[1..])
  }

  function Flatten(ps: seq<seq<byte>>): seq<byte> {
    if ps == [] then [] else ps[0] + Flatten(ps[1..])
  }

  /** The bytes of the attribute pieces are as many as `attrs_len` says. */
  lemma {:induction false} AttrPiecesLen(attrs: seq<Attr>)
    ensures |Flatten(AttrPieces(attrs))| == AttrsLen(attrs)
    decreases |attrs|
  {
    if attrs != [] {
      assert AttrPieces(attrs)[1..] == AttrPieces(attrs[1..]);
      AttrPiecesLen(attrs[1..]);
    }
  }

  /** What a sequence of writes does to a writer with room for `avail`
      bytes: the pieces that fit, in order, and whether all of them did; a
      piece that does not fit is not written, and nothing after it. */
  datatype Written = Written(bytes: seq<byte>, ok: bool)

  function WriteAll(ps: seq<seq<byte>>, avail: nat): (w: Written)
    ensures |w.bytes| <= avail
    ensures w.ok ==> w.bytes == Flatten(ps)
  {
    if ps == [] then Written([], true)
    else if |ps[0]| > avail then Written([], false)
    else
      var rest := WriteAll(ps[1..], avail - |ps[0]|);
      Written(ps[0] + rest.bytes, rest.ok)
  }

  /** Pieces that fit together are all written. */
  lemma {:induction false} WriteAllFits(ps: seq<seq<byte>>, avail: nat)
    requires |Flatten(ps)| <= avail
    ensures WriteAll(ps, avail) == Written(Flatten(ps), true)
    decreases |ps|
  {
    if ps != [] {
      WriteAllFits(ps[1..], avail - |ps[0]|);
    }
  }

  /** A segment made by `new`, whose length fits in 32 bits, is as long as
      the bytes `write_to` writes; so a writer that passes the capacity
      check has room for the whole segment and all of it is written. */
  lemma NewSegmentWrites(header: CMsgSegHdr, body: seq<byte>, attrs: seq<Attr>, avail: nat)
    requires HEADER_LEN + |body| + AttrsLen(attrs) < U32_LIMIT
    requires avail >= AlignUp(New(header, body, attrs).header.len)
    ensures var s := New(header, body, attrs);
            && s.header.len == TotalLen(s) == |Flatten(Pieces(s))|
            && WriteAll(Pieces(s), avail) == Written(Flatten(Pieces(s)), true)
  {
    var s := New(header, body, attrs);
    var ps := Pieces(s);
    AttrPiecesLen(attrs);
    assert Flatten(ps) == HeaderBytes(s.header) + (body + Flatten(AttrPieces(attrs)));
    WriteAllFits(ps, avail);
  }

  // ---------------------------------------------------------------------
  // Writing to user memory
  // ---------------------------------------------------------------------

  /** The user-memory writer (`MultiWrite`): the bytes written so far and
      the room left (`sum_lens`). */
  class Writer {
    var written: seq<byte>
    var avail: nat

    constructor (avail: nat)
      ensures written == [] && this.avail == avail
    {
      written := [];
      this.avail := avail;
    }

    /** One write: EFAULT, writing nothing, when the bytes do not fit. */
    method Write(data: seq<byte>) returns (r: Result<Unit>)
      modifies this
      ensures |data| <= old(avail) ==> r == Ok(Unit) && written == old(written) + data && avail == old(avail) - |data|
      ensures |data| > old(avail) ==> r == Err(EFAULT) && written == old(written) && avail == old(avail)
    {
      if |data| > avail {
        return Err(EFAULT);
      }
      written := written + data;
      avail := avail - |data|;
      r := Ok(Unit);
    }
  }

  /** `write_to`: EFAULT, before anything is written, when the writer has
      less room than the header's length aligned up to `NLMSG_ALIGN`;
      otherwise the header, the body and each attribute in turn, stopping
      with EFAULT at the first that does not fit. */
  method WriteTo(s: SegmentCommon, w: Writer) returns (r: Result<Unit>)
    modifies w
    ensures old(w.avail) < AlignUp(s.header.len) ==>
              r == Err(EFAULT) && w.written == old(w.written) && w.avail == old(w.avail)
    ensures old(w.avail) >= AlignUp(s.header.len) ==>
              var spec := WriteAll(Pieces(s), old(w.avail));
              && w.written == old(w.written) + spec.bytes
              && (r.Ok? <==> spec.ok)
              && (r.Err? ==> r.error == EFAULT)
  {
    if w.avail < AlignUp(s.header.len) {
      return Err(EFAULT);
    }
    r := WritePieces(s, w);
  }

  /** The writes of `write_to` once the room is checked: the header, the
      body, then the attributes. */
  method WritePieces(s: SegmentCommon, w: Writer) returns (r: Result<Unit>)
    modifies w
    ensures var spec := WriteAll(Pieces(s), old(w.avail));
            && w.written == old(w.written) + spec.bytes
            && (r.Ok? <==> spec.ok)
            && (r.Err? ==> r.error == EFAULT)
  {
    // The header's bytes, then the body's, then each attribute's.
    var pieces := Pieces(s);
    ghost var whole := w.written + WriteAll(pieces, w.avail).bytes;
    ghost var ok := WriteAll(pieces, w.avail).ok;
    assert pieces[0..] == pieces;
    PieceStep(pieces, 0, w.avail, w.written, whole, ok);
    r := w.Write(pieces[0]);
    if r.Err? {
      return;
    }
    PieceStep(pieces, 1, w.avail, w.written, whole, ok);
    r := w.Write(pieces[1]);
    if r.Err? {
      return;
    }
    assert pieces[2..] == AttrPieces(s.attrs);
    r := WriteAttrs(s.attrs, w);
  }

  /** One step of the loop over the pieces: what has been written plus what
      the remaining pieces would write is the whole write, before and after
      piece `i` is written, and a piece that does not fit ends it. */
  lemma PieceStep(pieces: seq<seq<byte>>, i: nat, room: nat, written: seq<byte>, whole: seq<byte>, ok: bool)
    requires i < |pieces|
    requires whole == written + WriteAll(pieces[i..], room).bytes && ok == WriteAll(pieces[i..], room).ok
    ensures |pieces[i]| <= room ==>
              var next := WriteAll(pieces[i + 1..], room - |pieces[i]|);
              whole == (written + pieces[i]) + next.bytes && ok == next.ok
    ensures |pieces[i]| > room ==> whole == written && !ok
  {
    assert pieces[i..][0] == pieces[i] && pieces[i..][1..] == pieces[i + 1..];
    if |pieces[i]| <= room {
      var next := WriteAll(pieces[i + 1..], room - |pieces[i]|);
      assert WriteAll(pieces[i..], room) == Written(pieces[i] + next.bytes, next.ok);
      assert written + (pieces[i] + next.bytes) == (written + pieces[i]) + next.bytes;
    }
  }

  /** The loop of `write_to` over the attributes, in vector order. */
  method WriteAttrs(attrs: seq<Attr>, w: Writer) returns (r: Result<Unit>)
    modifies w
    ensures var spec := WriteAll(AttrPieces(attrs), old(w.avail));
            && w.written == old(w.written) + spec.bytes
            && (r.Ok? <==> spec.ok)
            && (r.Err? ==> r.error == EFAULT)
  {
    ghost var pieces := AttrPieces(attrs);
    ghost var whole := w.written + WriteAll(pieces, w.avail).bytes;
    ghost var ok := WriteAll(pieces, w.avail).ok;
    assert pieces[0..] == pieces;
    for i := 0 to |attrs|
      invariant whole == w.written + WriteAll(pieces[i..], w.avail).bytes
      invariant ok == WriteAll(pieces[i..], w.avail).ok
    {
      PieceStep(pieces, i, w.avail, w.written, whole, ok);
      r := w.Write(AttrWritten(attrs[i]));
      if r.Err? {
        return;
      }
    }
    r := Ok(Unit);
  }

  // ---------------------------------------------------------------------
  // Reading from user memory
  // ---------------------------------------------------------------------

  /** What reading a segment does: return, or panic on the `unwrap` of the
      body read. */
  datatype ReadOutcome = Returned(result: Result<SegmentCommon>) | Panicked

  /** `read_from`, given what the body's `read_from` returns (the body and
      the bytes that remain, or an error) and what reading the attributes
      from that many bytes returns (segment bodies and attr.rs are not part
      of this model). The header is kept as given: its length is not
      recomputed, unlike in `new`. */
  function ReadFrom(header: CMsgSegHdr, bodyRead: Result<(seq<byte>, nat)>, readAttrs: nat -> Result<seq<Attr>>)
    : (r: ReadOutcome)
    ensures r == Panicked <==> bodyRead.Err?
    ensures r.Returned? ==> (r.result.Ok? <==> readAttrs(bodyRead.value.1).Ok?)
    ensures r.Returned? && r.result.Ok? ==>
              r.result.value == SegmentCommon(header, bodyRead.value.0, readAttrs(bodyRead.value.1).value)
  {
    if bodyRead.Err? then Panicked
    else
      var (body, remain) := bodyRead.value;
      match readAttrs(remain)
      case Ok(attrs) => Returned(Ok(SegmentCommon(header, body, attrs)))
      case Err(e) => Returned(Err(e))
  }

  /** A segment read back keeps any header length, even one that `new`
      would have replaced. */
  lemma ReadKeepsHeader(header: CMsgSegHdr, body: seq<byte>, remain: nat, attrs: seq<Attr>)
    requires header.len != TotalLen(SegmentCommon(header, body, attrs)) % U32_LIMIT
    ensures var r := ReadFrom(header, Ok((body, remain)), _ => Ok(attrs));
            r == Returned(Ok(SegmentCommon(header, body, attrs))) && r.result.value != New(header, body, attrs)
  {
  }
}
