/** The `/dev/full` device (kernel/src/device/full.rs): reading gives as many
    zero bytes as the reader asks for, writing always fails because the
    device is full, and it is always ready for both. */
module FullDevice {
  import opened Prelude

  datatype DeviceType = CharDevice | BlockDevice | MiscDevice

  /** A device number: major and minor. */
  datatype DeviceId = DeviceId(major: nat, minor: nat)

  /** The readiness events of `IoEvents` that a poll can report. */
  datatype IoEvent = IN | OUT | PRI | ERR | HUP | RDHUP

  /** A window of user memory being written (`VmWriter`, fallible): the
      buffer, the cursor before which it has been filled, and the first
      position of the window, if any, that lies on an unmapped page, where
      every write faults. */
  class VmWriter {
    const buf: array<byte>
    const fault: Option<nat>
    var cursor: nat

    ghost predicate Valid()
      reads this
    {
      cursor <= buf.Length
    }

    constructor (buf: array<byte>, fault: Option<nat>)
      ensures this.buf == buf && this.fault == fault && cursor == 0 && Valid()
    {
      this.buf := buf;
      this.fault := fault;
      cursor := 0;
    }

    /** `avail`: the bytes left before the end of the window. */
    function Avail(): (n: nat)
      reads this
      requires Valid()
      ensures cursor + n == buf.Length
    {
      buf.Length - cursor
    }

    /** Where a write of `n` bytes from `from` stops: at the faulting
        position when it lies among those bytes, after them otherwise. */
    function StopAt(from: nat, n: nat): (stop: nat)
      ensures from <= stop <= from + n
      ensures stop < from + n <==> fault.Some? && from <= fault.value < from + n
      ensures stop < from + n ==> stop == fault.value
    {
      if fault.Some? && from <= fault.value < from + n then fault.value else from + n
    }

    /** `fill_zeros`: `len` is cut down to the room left; the bytes from the
        cursor up to that length, or up to the first faulting position before
        it, become zero and the cursor moves past them; nothing else in the
        buffer changes. The write that hits a page fault is EFAULT; one that
        does not returns the number of bytes set. */
    method FillZeros(len: nat) returns (r: Result<nat>)
      requires Valid()
      modifies this, buf
      ensures Valid()
      ensures var n := if len < old(Avail()) then len else old(Avail());
              var stop := StopAt(old(cursor), n);
              && cursor == stop
              && buf[..] == old(buf[..cursor]) + Zeros(stop - old(cursor)) + old(buf[stop..])
              && (r.Ok? <==> stop == old(cursor) + n)
              && (r.Ok? ==> r.value == n)
              && (r.Err? ==> r.error == EFAULT)
    {
      var n := if len < buf.Length - cursor then len else buf.Length - cursor;
      var start := cursor;
      ghost var orig := buf[..];
      var i := start;
      while i < start + n && fault != Some(i)
        invariant start == old(cursor) && cursor == start && start <= i <= start + n <= buf.Length
        invariant StopAt(start, n) == StopAt(i, start + n - i)
        invariant forall k :: 0 <= k < buf.Length ==> buf[k] == if start <= k < i then 0 else orig[k]
      {
        buf[i] := 0;
        i := i + 1;
      }
      ZeroedRange(orig, buf[..], start, i);
      cursor := i;
      if i < start + n {
        r := Err(EFAULT);
      } else {
        r := Ok(n);
      }
    }
  }

  /** A buffer that agrees with `orig` except on `[from, to)`, where it is
      zero, is `orig` with that range replaced by zeros. */
  lemma ZeroedRange(orig: seq<byte>, b: seq<byte>, from: nat, to: nat)
    requires from <= to <= |orig| == |b|
    requires forall k :: 0 <= k < |b| ==> b[k] == if from <= k < to then 0 else orig[k]
    ensures b == orig[..from] + Zeros(to - from) + orig[to..]
  {
    var z := Zeros(to - from);
    var c := orig[..from] + z + orig[to..];
    assert |c| == |b|;
    forall k | 0 <= k < |b|
      ensures b[k] == c[k]
    {
      if k < from {
      } else if k < to {
        assert c[k] == z[k - from];
      } else {
        assert c[k] == orig[to..][k - to];
      }
    }
  }

  /** The device itself, a value with no state (`struct Full`). */
  class Full {
    constructor ()
    {
    }

    /** `type_`: a character device. */
    function Type(): (t: DeviceType)
      ensures t.CharDevice?
    {
      CharDevice
    }

    /** `id`: major 1, minor 7, as in Linux. */
    function Id(): (id: DeviceId)
      ensures id.major == 1 && id.minor == 7
    {
      DeviceId(1, 7)
    }

    /** `open`: a new handle to the device. */
    method Open() returns (r: Result<Option<Full>>)
      ensures r.Ok? && r.value.Some? && fresh(r.value.value)
    {
      var handle := new Full();
      r := Ok(Some(handle));
    }

    /** `poll`: the requested events that the device always has, reading
        and writing. */
    function Poll(mask: set<IoEvent>): (events: set<IoEvent>)
      ensures forall e :: e in events <==> e in mask && (e == IN || e == OUT)
    {
      {IN, OUT} * mask
    }

    /** `read`: the rest of the reader's window is filled with zeros and its
        size is returned; a page fault in the window stops the filling there
        and is EFAULT. */
    method Read(writer: VmWriter) returns (r: Result<nat>)
      requires writer.Valid()
      modifies writer, writer.buf
      ensures writer.Valid()
      ensures var stop := writer.StopAt(old(writer.cursor), old(writer.Avail()));
              && writer.cursor == stop
              && writer.buf[..] == old(writer.buf[..writer.cursor]) + Zeros(stop - old(writer.cursor)) + old(writer.buf[stop..])
      ensures r.Ok? <==> !(writer.fault.Some? && old(writer.cursor) <= writer.fault.value < writer.buf.Length)
      ensures r.Ok? ==> r.value == old(writer.Avail()) && writer.Avail() == 0
      ensures r.Err? ==> r.error == EFAULT
    {
      var len := writer.Avail();
      var _ :- writer.FillZeros(len);
      r := Ok(len);
    }

    /** `write`: ENOSPC, whatever is written; nothing is consumed. */
    function Write(data: seq<byte>): (r: Result<nat>)
      ensures r == Err(ENOSPC)
    {
      Err(ENOSPC)
    }
  }

  /** Poll answers with the requested events among reading and writing:
      both when both are asked for, and never an error or hang-up. */
  lemma PollReportsReadyOnly(f: Full, mask: set<IoEvent>)
    ensures f.Poll(mask) <= mask && f.Poll(mask) <= {IN, OUT}
    ensures IN in mask ==> IN in f.Poll(mask)
    ensures OUT in mask ==> OUT in f.Poll(mask)
    ensures f.Poll({IN, OUT, ERR, HUP}) == {IN, OUT}
  {
  }

  /** The device is the character device (1, 7) and refuses every write. */
  lemma FullIdentity(f: Full, data: seq<byte>)
    ensures f.Type() == CharDevice && f.Id() == DeviceId(1, 7)
    ensures f.Write(data).Err? && f.Write(data).error == ENOSPC
  {
  }
}
