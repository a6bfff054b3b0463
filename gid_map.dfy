/** The `/proc/[pid]/gid_map` file (kernel/src/fs/procfs/pid/gid_map.rs): one
    line of three numbers, each right-aligned in ten columns, mapping group
    IDs of the process's user namespace to those of its parent. */
module GidMap {
  import opened Prelude
  import opened Decimal

  const FIELD_WIDTH: nat := 10

  /** `u32::MAX`: the count Linux shows for the identity map of the first
      user namespace. */
  const U32_MAX: nat := 0xFFFF_FFFF

  /** The count the source prints. */
  const COUNT_AS_WRITTEN: nat := 429467295

  /** One number in a field of ten columns (`{:>10}`). */
  function Field(n: nat): string {
    PadLeft(ShowNat(n), FIELD_WIDTH)
  }

  /** The line of the file: the first ID inside the namespace, the first ID
      outside it, and how many IDs follow. */
  function MapLine(inside: nat, outside: nat, count: nat): string {
    Field(inside) + Field(outside) + Field(count)
  }

  /** A field read back: the spaces before the number dropped, the digits
      read. */
  function ParseField(s: string): Option<nat> {
    var t := DropSpaces(s);
    if t != [] && AllDigits(t) then Some(DigitsValue(t)) else None
  }

  function DropSpaces(s: string): (t: string)
    ensures |t| <= |s| && t == s[|s| - |t|..]
  {
    if s != [] && s[0] == ' ' then DropSpaces(s[1..]) else s
  }

  /** A number below `10^10` fills its ten columns exactly and reads back
      from them. */
  lemma FieldRoundTrip(n: nat)
    requires n < Pow10(FIELD_WIDTH)
    ensures |Field(n)| == FIELD_WIDTH
    ensures ParseField(Field(n)) == Some(n)
  {
    ShowNatLength(n, FIELD_WIDTH);
    var s := ShowNat(n);
    var f := Field(n);
    DropPadding(f, |f| - |s|);
    ShowNatValue(n);
  }

  /** Dropping the leading spaces of a padded number leaves the number. */
  lemma {:induction false} DropPadding(f: string, k: nat)
    requires k < |f|
    requires forall i :: 0 <= i < k ==> f[i] == ' '
    requires f[k] != ' '
    ensures DropSpaces(f) == f[k..]
    decreases k
  {
    if k > 0 {
      DropPadding(f[1..], k - 1);
    }
  }

  /** The three fields of a line are read back from its three ranges of ten
      columns. */
  lemma MapLineRoundTrip(inside: nat, outside: nat, count: nat)
    requires inside < Pow10(FIELD_WIDTH) && outside < Pow10(FIELD_WIDTH) && count < Pow10(FIELD_WIDTH)
    ensures var line := MapLine(inside, outside, count);
            && |line| == 3 * FIELD_WIDTH
            && ParseField(line[0..10]) == Some(inside)
            && ParseField(line[10..20]) == Some(outside)
            && ParseField(line[20..30]) == Some(count)
  {
    FieldRoundTrip(inside);
    FieldRoundTrip(outside);
    FieldRoundTrip(count);
    ThreeFields(Field(inside), Field(outside), Field(count));
  }

  /** The columns of three ten-column fields side by side. */
  lemma ThreeFields(a: string, b: string, c: string)
    requires |a| == |b| == |c| == FIELD_WIDTH
    ensures var line := a + b + c;
            |line| == 30 && line[0..10] == a && line[10..20] == b && line[20..30] == c
  {
  }

  /** `GidMapFileOps::data` as the source writes it: thirty columns that
      read back as 0, 0 and the count as written. */
  function DataAsWritten(): (d: string)
    ensures |d| == 3 * FIELD_WIDTH
    ensures ParseField(d[0..10]) == Some(0) && ParseField(d[10..20]) == Some(0)
    ensures ParseField(d[20..30]) == Some(COUNT_AS_WRITTEN)
  {
    FieldBounds();
    MapLineRoundTrip(0, 0, COUNT_AS_WRITTEN);
    MapLine(0, 0, COUNT_AS_WRITTEN)
  }

  /** `data` with the count of the identity map over every 32-bit ID:
      thirty columns that read back as 0, 0 and `u32::MAX`. */
  function Data(): (d: string)
    ensures |d| == 3 * FIELD_WIDTH
    ensures ParseField(d[0..10]) == Some(0) && ParseField(d[10..20]) == Some(0)
    ensures ParseField(d[20..30]) == Some(U32_MAX)
  {
    FieldBounds();
    MapLineRoundTrip(0, 0, U32_MAX);
    MapLine(0, 0, U32_MAX)
  }

  /** The powers of ten the field width bounds. */
  lemma FieldBounds()
    ensures Pow10(9) == 1_000_000_000 && Pow10(FIELD_WIDTH) == 10_000_000_000
  {
  }

  /** The count field tells the two lines apart: the corrected count fills
      all ten columns, while the count as written has nine digits and so
      starts with a padding space. */
  lemma CountFieldWidths()
    ensures Data()[20] != ' '
    ensures DataAsWritten()[20] == ' '
  {
    FieldBounds();
    FieldPaddedIffShort(U32_MAX);
    FieldPaddedIffShort(COUNT_AS_WRITTEN);
    assert Data()[20] == Field(U32_MAX)[0];
    assert DataAsWritten()[20] == Field(COUNT_AS_WRITTEN)[0];
  }

  /** The count as written is not `u32::MAX` (a digit 9 is missing), so the
      map covers fewer than a tenth of the IDs it is meant to. */
  lemma CountAsWrittenIsShort()
    ensures var line := DataAsWritten();
            && |line| == 30
            && ParseField(line[20..30]) == Some(COUNT_AS_WRITTEN)
            && COUNT_AS_WRITTEN != U32_MAX && 10 * COUNT_AS_WRITTEN < U32_MAX
  {
    FieldBounds();
    MapLineRoundTrip(0, 0, COUNT_AS_WRITTEN);
  }

  /** A field starts with a space exactly when its number has fewer than
      ten digits, as the count as written has and `u32::MAX` has not. */
  lemma {:induction false} FieldPaddedIffShort(n: nat)
    requires n < Pow10(FIELD_WIDTH)
    ensures Field(n)[0] == ' ' <==> n < Pow10(FIELD_WIDTH - 1)
  {
    ShowNatLength(n, FIELD_WIDTH);
    if n < Pow10(FIELD_WIDTH - 1) {
      ShowNatLength(n, FIELD_WIDTH - 1);
    } else {
      ShowNatLengthAtLeast(n, FIELD_WIDTH);
      assert Field(n) == ShowNat(n);
    }
  }
}
