/** The stack-folding script (generate_flamegraph.py): a GDB log of sampled
    backtraces is cut into captures, one per backtrace, each frame line is
    cleaned down to its function name, and each capture's stack becomes a
    folded line `outermost;...;innermost` counted by how often it occurs. */
module Flamegraph {
  import opened Prelude
  import opened Decimal

  // ---------------------------------------------------------------------
  // Cleaning one frame line
  // ---------------------------------------------------------------------

  /** The characters `str.strip` removes (the ASCII ones; see the README). */
  predicate IsSpace(c: char) {
    c == ' ' || c == '\t' || c == '\n' || c == '\r' || c == '\U{000B}' || c == '\U{000C}'
    || c == '\U{001C}' || c == '\U{001D}' || c == '\U{001E}' || c == '\U{001F}'
  }

  function StripLeft(s: string): (t: string)
    ensures |t| <= |s| && t == s[|s| - |t|..]
    ensures t == [] || !IsSpace(t[0])
  {
    if s != [] && IsSpace(s[0]) then StripLeft(s[1..]) else s
  }

  function StripRight(s: string): (t: string)
    ensures |t| <= |s| && t == s[..|t|]
    ensures t == [] || !IsSpace(t[|t| - 1])
  {
    if s != [] && IsSpace(s[|s| - 1]) then StripRight(s[..|s| - 1]) else s
  }

  /** `str.strip`. */
  function Strip(s: string): string {
    StripRight(StripLeft(s))
  }

  /** The depth once `c` is read from depth `cnt`, before the check
      (`<` raises it), and after it (`>` lowers it). */
  function Raised(c: char, cnt: int): int {
    if c == '<' then cnt + 1 else cnt
  }

  function Lowered(c: char, cnt: int): int {
    if c == '>' then Raised(c, cnt) - 1 else Raised(c, cnt)
  }

  /** The bracket loop as a function: `cnt` is the depth before `s`, and a
      character is kept when the depth is 0 once a `<` has raised it and
      before a `>` lowers it. */
  function CutFrom(s: string, cnt: int): string
    decreases |s|
  {
    if s == [] then []
    else (if Raised(s[0], cnt) == 0 then [s[0]] else []) + CutFrom(s[1..], Lowered(s[0], cnt))
  }

  /** The depth after `s`, from `cnt`. */
  function DepthAfter(s: string, cnt: int): int
    decreases |s|
  {
    if s == [] then cnt else DepthAfter(s[1..], Lowered(s[0], cnt))
  }

  lemma CutStep(s: string, i: nat, cnt: int)
    requires i < |s|
    ensures CutFrom(s[i..], cnt) == (if Raised(s[i], cnt) == 0 then [s[i]] else []) + CutFrom(s[i + 1..], Lowered(s[i], cnt))
  {
    assert s[i..][1..] == s[i + 1..];
  }

  /** The loop that removes everything between `<` and `>`. */
  method CutGeneric(processed: string) returns (cut: string)
    ensures cut == CutFrom(processed, 0)
  {
    cut := "";
    var cnt := 0;
    for i := 0 to |processed|
      invariant cut + CutFrom(processed[i..], cnt) == CutFrom(processed, 0)
    {
      var c := processed[i];
      CutStep(processed, i, cnt);
      ghost var before := cnt;
      if c == '<' {
        cnt := cnt + 1;
      }
      if cnt == 0 {
        cut := cut + [c];
      }
      if c == '>' {
        cnt := cnt - 1;
      }
      assert cnt == Lowered(c, before);
    }
    assert processed[|processed|..] == [];
  }

  /** The depth never drops below zero while `s` is read from `cnt`: every
      `>` closes a `<`. */
  predicate NeverNegative(s: string, cnt: int)
    decreases |s|
  {
    s == [] || (Lowered(s[0], cnt) >= 0 && NeverNegative(s[1..], Lowered(s[0], cnt)))
  }

  /** When every `>` closes a `<`, no `<` survives the cut. */
  lemma {:induction false} CutDropsOpenings(s: string, cnt: int)
    requires cnt >= 0 && NeverNegative(s, cnt)
    ensures '<' !in CutFrom(s, cnt)
    decreases |s|
  {
    if s != [] {
      CutDropsOpenings(s[1..], Lowered(s[0], cnt));
    }
  }

  /** A `>` that closes nothing is kept, the depth goes to -1, and so the
      next `<` is kept too, while the text between them is dropped. */
  lemma StrayClosing(s: string, t: string)
    requires '<' !in s && '>' !in s
    ensures CutFrom(">" + s + "<" + t, 0) == ">" + "<" + CutFrom(t, 0)
  {
    assert (">" + s + "<" + t)[0] == '>';
    assert (">" + s + "<" + t)[1..] == s + ("<" + t);
    CutAppend(s, "<" + t, -1);
    NoOpeningStaysBelow(s, -1);
    assert ("<" + t)[0] == '<' && ("<" + t)[1..] == t;
  }

  lemma {:induction false} NoOpeningStaysBelow(s: string, cnt: int)
    requires '<' !in s && cnt < 0
    ensures CutFrom(s, cnt) == []
    ensures '>' !in s ==> DepthAfter(s, cnt) == cnt
    decreases |s|
  {
    if s != [] {
      assert '<' !in s[1..];
      assert '>' !in s ==> '>' !in s[1..];
      NoOpeningStaysBelow(s[1..], Lowered(s[0], cnt));
    }
  }

  /** Text without angle brackets is kept whole at depth 0, and leaves the
      depth at 0. */
  lemma {:induction false} CutKeepsPlain(s: string)
    requires '<' !in s && '>' !in s
    ensures CutFrom(s, 0) == s && DepthAfter(s, 0) == 0
    decreases |s|
  {
    if s != [] {
      assert '<' !in s[1..] && '>' !in s[1..];
      CutKeepsPlain(s[1..]);
    }
  }

  /** The cut of a concatenation is the cut of each part, the second taken
      from the depth the first ends at. */
  lemma {:induction false} CutAppend(a: string, b: string, cnt: int)
    ensures CutFrom(a + b, cnt) == CutFrom(a, cnt) + CutFrom(b, DepthAfter(a, cnt))
    decreases |a|
  {
    if a == [] {
      assert a + b == b;
    } else {
      var c := a[0];
      var kept := if Raised(c, cnt) == 0 then [c] else [];
      var next := Lowered(c, cnt);
      assert (a + b)[0] == c && (a + b)[1..] == a[1..] + b;
      CutAppend(a[1..], b, next);
      calc {
        CutFrom(a + b, cnt);
        kept + CutFrom(a[1..] + b, next);
        kept + (CutFrom(a[1..], next) + CutFrom(b, DepthAfter(a[1..], next)));
        (kept + CutFrom(a[1..], next)) + CutFrom(b, DepthAfter(a, cnt));
      }
    }
  }

  /** Text read inside brackets: the depth is at least 1 at every
      character, counting a `<` before it and a `>` after it. */
  predicate Inside(s: string, cnt: int)
    decreases |s|
  {
    s == [] || (Raised(s[0], cnt) >= 1 && Inside(s[1..], Lowered(s[0], cnt)))
  }

  lemma {:induction false} CutDropsInside(s: string, cnt: int)
    requires Inside(s, cnt)
    ensures CutFrom(s, cnt) == []
    decreases |s|
  {
    if s != [] {
      CutDropsInside(s[1..], Lowered(s[0], cnt));
    }
  }

  /** A generic argument list, nested ones included, between text without
      brackets disappears and the text around it is kept. */
  lemma GenericsRemoved(a: string, g: string, e: string)
    requires '<' !in a && '>' !in a && '<' !in e && '>' !in e
    requires Inside(g, 0) && DepthAfter(g, 0) == 0
    ensures CutFrom(a + g + e, 0) == a + e
  {
    var ge := g + e;
    assert a + g + e == a + ge;
    CutDropsInside(g, 0);
    CutKeepsPlain(e);
    CutAppend(g, e, 0);
    assert CutFrom(ge, 0) == e;
    CutKeepsPlain(a);
    CutAppend(a, ge, 0);
  }

  /** `<T>` and `<A<B>>` are such lists. */
  lemma GenericLists()
    ensures Inside("<T>", 0) && DepthAfter("<T>", 0) == 0
    ensures Inside("<A<B>>", 0) && DepthAfter("<A<B>>", 0) == 0
  {
    assert "<T>"[1..] == "T>" && "T>"[1..] == ">";
    assert "<A<B>>"[1..] == "A<B>>" && "A<B>>"[1..] == "<B>>";
    assert "<B>>"[1..] == "B>>" && "B>>"[1..] == ">>" && ">>"[1..] == ">";
  }

  /** `re.sub(r'::\{.*?\}', '', s)`: from left to right, every `::{`
      followed by a `}` on the same line is removed up to the first such
      `}`. */
  function RemoveImplBlocks(s: string): string
    decreases |s|
  {
    if |s| < 3 then s
    else if s[..3] == "::{" && '}' in s[3..] && '\n' !in s[3..3 + IndexOf(s[3..], '}')] then
      RemoveImplBlocks(s[3 + IndexOf(s[3..], '}') + 1..])
    else [s[0]] + RemoveImplBlocks(s[1..])
  }

  function IndexOf(s: string, c: char): (i: nat)
    requires c in s
    ensures i < |s| && s[i] == c && c !in s[..i]
  {
    if s[0] == c then 0 else 1 + IndexOf(s[1..], c)
  }

  predicate IsHexDigit(c: char) {
    '0' <= c <= '9' || 'a' <= c <= 'f'
  }

  /** The length of the run of hex digits at the start of `s`. */
  function HexRun(s: string): (n: nat)
    ensures n <= |s| && forall i :: 0 <= i < n ==> IsHexDigit(s[i])
    ensures n < |s| ==> !IsHexDigit(s[n])
  {
    if s != [] && IsHexDigit(s[0]) then 1 + HexRun(s[1..]) else 0
  }

  /** The length of the match of `0x[0-9a-f]+ in` at the start of `s`, if
      there is one: the greedy run cannot give back a digit, since a shorter
      run is followed by a digit and not by the space. */
  function AddressMatch(s: string): (m: Option<nat>)
    ensures m.Some? ==> 6 <= m.value <= |s| && s[m.value - 3..m.value] == " in"
  {
    if |s| >= 2 && s[..2] == "0x" then
      var k := HexRun(s[2..]);
      if k >= 1 && |s| >= 2 + k + 3 && s[2 + k..2 + k + 3] == " in" then Some(2 + k + 3) else None
    else None
  }

  /** `re.sub(r'0x[0-9a-f]+ in', '', s)`. */
  function RemoveAddresses(s: string): string
    decreases |s|
  {
    if s == [] then []
    else
      match AddressMatch(s)
      case Some(n) => RemoveAddresses(s[n..])
      case None => [s[0]] + RemoveAddresses(s[1..])
  }

  /** The whole cleanup of one line, step by step as the script does it. */
  function Clean(line: string): string {
    var processed := CutFrom(Strip(line), 0);
    var processed := RemoveImplBlocks(processed);
    var processed := ReplaceAll(processed, "(...)");
    var processed := ReplaceAll(processed, "()");
    RemoveAddresses(processed)
  }

  /** The length of the run before the first `sep` in `s` (all of `s` when
      there is none). */
  function UpTo(s: string, sep: char): (n: nat)
    ensures n <= |s| && sep !in s[..n]
    ensures n < |s| ==> s[n] == sep
  {
    if s == [] || s[0] == sep then 0 else 1 + UpTo(s[1..], sep)
  }

  lemma {:induction false} UpToPrefix(a: string, t: string, sep: char)
    requires sep !in a && (t == [] || t[0] == sep)
    ensures UpTo(a + t, sep) == |a|
    decreases |a|
  {
    if a != [] {
      assert (a + t)[1..] == a[1..] + t;
      assert sep !in a[1..];
      UpToPrefix(a[1..], t, sep);
    } else {
      assert a + t == t;
    }
  }

  /** `[s for s in processed.split(' ') if s != '']`: the words between
      spaces. */
  function Words(s: string): (ws: seq<string>)
    ensures forall i :: 0 <= i < |ws| ==> ws[i] != [] && ' ' !in ws[i]
    decreases |s|
  {
    if s == [] then []
    else if s[0] == ' ' then Words(s[1..])
    else [s[..UpTo(s, ' ')]] + Words(s[UpTo(s, ' ')..])
  }

  /** Two words with one space between them are split into those words. */
  lemma TwoWords(a: string, b: string)
    requires a != [] && b != [] && ' ' !in a && ' ' !in b
    ensures Words(a + " " + b) == [a, b]
  {
    var s := a + " " + b;
    var rest := " " + b;
    assert s == a + rest;
    UpToPrefix(a, rest, ' ');
    assert s[0] == a[0] && s[..|a|] == a && s[|a|..] == rest;
    assert Words(s) == [a] + Words(rest);
    assert rest[0] == ' ' && rest[1..] == b;
    assert Words(rest) == Words(b);
    UpToPrefix(b, [], ' ');
    assert b + [] == b && b[..|b|] == b && b[|b|..] == [];
    assert Words(b) == [b] + Words([]);
  }

  /** Text the cleanup leaves alone: nothing to strip at either end, no
      angle brackets, braces or parentheses, and no `0x`. */
  predicate Plain(s: string) {
    && (s == [] || (!IsSpace(s[0]) && !IsSpace(s[|s| - 1])))
    && (forall i :: 0 <= i < |s| ==> s[i] != '<' && s[i] != '>' && s[i] != '{' && s[i] != '(')
    && (forall i :: 0 <= i < |s| - 1 ==> !(s[i] == '0' && s[i + 1] == 'x'))
  }

  lemma {:induction false} RemoveImplBlocksAbsent(s: string)
    requires '{' !in s
    ensures RemoveImplBlocks(s) == s
    decreases |s|
  {
    if |s| >= 3 {
      assert s[..3][2] == s[2];
      assert '{' !in s[1..];
      RemoveImplBlocksAbsent(s[1..]);
      assert s == [s[0]] + s[1..];
    }
  }

  lemma {:induction false} RemoveAddressesAbsent(s: string)
    requires forall i :: 0 <= i < |s| - 1 ==> !(s[i] == '0' && s[i + 1] == 'x')
    ensures RemoveAddresses(s) == s
    decreases |s|
  {
    if s != [] {
      if |s| >= 2 {
        assert s[..2][0] == s[0] && s[..2][1] == s[1];
      }
      assert AddressMatch(s).None?;
      assert forall i :: 0 <= i < |s[1..]| - 1 ==> !(s[1..][i] == '0' && s[1..][i + 1] == 'x') by {
        forall i | 0 <= i < |s[1..]| - 1
          ensures !(s[1..][i] == '0' && s[1..][i + 1] == 'x')
        {
          assert s[1..][i] == s[i + 1] && s[1..][i + 1] == s[i + 2];
        }
      }
      RemoveAddressesAbsent(s[1..]);
      assert s == [s[0]] + s[1..];
    }
  }

  /** A plain line comes out of the cleanup unchanged. */
  lemma CleanKeepsPlain(s: string)
    requires Plain(s)
    ensures Clean(s) == s
  {
    assert StripLeft(s) == s;
    assert StripRight(s) == s;
    CutKeepsPlain(s);
    RemoveImplBlocksAbsent(s);
    ReplaceAllAbsent(s, "(...)");
    ReplaceAllAbsent(s, "()");
    RemoveAddressesAbsent(s);
  }

  /** The frame name of a line: its second word after cleanup; a line with
      fewer than two words makes `parts[1]` raise IndexError. */
  function Frame(line: string): Option<string> {
    var parts := Words(Clean(line));
    if |parts| >= 2 then Some(parts[1]) else None
  }

  /** A plain frame line `#<n> <name>` names the frame `name`; a frame line
      of one word has no frame name. */
  lemma FrameOfPlainLine(n: string, name: string)
    requires ' ' !in n && name != [] && ' ' !in name
    requires Plain("#" + n + " " + name)
    ensures Frame("#" + n + " " + name) == Some(name)
  {
    CleanKeepsPlain("#" + n + " " + name);
    assert ' ' !in "#" + n;
    TwoWords("#" + n, name);
  }

  /** The loop body's cleanup of one frame line. */
  method LineFrame(line: string) returns (frame: Option<string>)
    ensures frame == Frame(line)
  {
    var processed := CutGeneric(Strip(line));
    processed := RemoveImplBlocks(processed);
    processed := ReplaceAll(processed, "(...)");
    processed := ReplaceAll(processed, "()");
    processed := RemoveAddresses(processed);
    var parts := Words(processed);
    if |parts| < 2 {
      return None;
    }
    frame := Some(parts[1]);
  }

  // ---------------------------------------------------------------------
  // Captures
  // ---------------------------------------------------------------------

  predicate StartsWith(s: string, p: string) {
    |p| <= |s| && s[..|p|] == p
  }

  /** A frame kept for a capture, with whether its line was frame `#0`,
      which starts a new capture. */
  datatype Entry = Entry(start: bool, frame: string)

  /** The frame lines of the log in order, or None when one of them has no
      frame name (the script stops with IndexError). Only lines starting
      with `#` are frame lines. */
  function Entries(lines: seq<string>): (r: Option<seq<Entry>>)
    decreases |lines|
  {
    if lines == [] then Some([])
    else
      var init := Entries(lines[..|lines| - 1]);
      var line := lines[|lines| - 1];
      if init.None? then None
      else if !StartsWith(line, "#") then init
      else
        match Frame(line)
        case None => None
        case Some(f) => Some(init.value + [Entry(StartsWith(line, "#0"), f)])
  }

  /** Once a frame line without a frame name is met, the log gives none. */
  lemma {:induction false} EntriesStayNone(lines: seq<string>, i: nat)
    requires i <= |lines| && Entries(lines[..i]).None?
    ensures Entries(lines).None?
    decreases |lines| - i
  {
    if i < |lines| {
      assert lines[..i + 1][..i] == lines[..i];
      EntriesStayNone(lines, i + 1);
    } else {
      assert lines[..i] == lines;
    }
  }

  function Concat<T>(groups: seq<seq<T>>): seq<T> {
    if groups == [] then [] else groups[0] + Concat(groups[1..])
  }

  lemma {:induction false} ConcatSnoc<T>(groups: seq<seq<T>>, g: seq<T>)
    ensures Concat(groups + [g]) == Concat(groups) + g
    decreases |groups|
  {
    if groups == [] {
      assert [] + [g] == [g];
    } else {
      assert (groups + [g])[1..] == groups[1..] + [g];
      ConcatSnoc(groups[1..], g);
    }
  }

  /** No frame after the first one of `g` is a `#0` frame. */
  predicate OneStart(g: seq<Entry>) {
    forall j :: 1 <= j < |g| ==> !g[j].start
  }

  /** Captures as the script makes them: none is empty, none holds a `#0`
      frame after its first, and each one after the first begins with one. */
  predicate WellCut(captures: seq<seq<Entry>>) {
    forall k :: 0 <= k < |captures| ==>
      captures[k] != [] && OneStart(captures[k]) && (k >= 1 ==> captures[k][0].start)
  }

  /** How the entries are cut into captures: together they are the entries
      in order, and they are well cut. The cut is thereby unique (see
      `CapturesUnique`). */
  predicate IsCaptures(entries: seq<Entry>, captures: seq<seq<Entry>>) {
    Concat(captures) == entries && WellCut(captures)
  }

  /** The state of the loop after the entries so far: the captures flushed
      and the current one. */
  predicate Splitting(entries: seq<Entry>, captures: seq<seq<Entry>>, current: seq<Entry>) {
    && Concat(captures) + current == entries
    && WellCut(captures)
    && OneStart(current)
    && (captures != [] ==> current != [] && current[0].start)
  }

  /** A `#0` frame flushes a non-empty current capture; every frame is then
      added to the current capture. */
  lemma SplittingPush(entries: seq<Entry>, captures: seq<seq<Entry>>, current: seq<Entry>, e: Entry)
    requires Splitting(entries, captures, current)
    ensures e.start && current != [] ==> Splitting(entries + [e], captures + [current], [e])
    ensures !(e.start && current != []) ==> Splitting(entries + [e], captures, current + [e])
  {
    if e.start && current != [] {
      ConcatSnoc(captures, current);
      assert Concat(captures + [current]) + [e] == entries + [e];
      assert WellCut(captures + [current]) by {
        forall k | 0 <= k < |captures + [current]|
          ensures (captures + [current])[k] != [] && OneStart((captures + [current])[k])
          ensures k >= 1 ==> (captures + [current])[k][0].start
        {
          if k < |captures| {
            assert (captures + [current])[k] == captures[k];
          }
        }
      }
    } else {
      assert Concat(captures) + (current + [e]) == entries + [e];
    }
  }

  /** The last capture is flushed at the end. */
  lemma SplittingDone(entries: seq<Entry>, captures: seq<seq<Entry>>, current: seq<Entry>)
    requires Splitting(entries, captures, current)
    ensures current != [] ==> IsCaptures(entries, captures + [current])
    ensures current == [] ==> IsCaptures(entries, captures)
  {
    if current != [] {
      ConcatSnoc(captures, current);
      assert WellCut(captures + [current]) by {
        forall k | 0 <= k < |captures + [current]|
          ensures (captures + [current])[k] != [] && OneStart((captures + [current])[k])
          ensures k >= 1 ==> (captures + [current])[k][0].start
        {
          if k < |captures| {
            assert (captures + [current])[k] == captures[k];
          }
        }
      }
    } else {
      assert Concat(captures) + current == Concat(captures);
    }
  }

  /** The loop over the lines: lines not starting with `#` are skipped, a
      `#0` line flushes the capture so far when it is not empty, the frame
      name of every frame line is added to the current capture, and the
      last capture is flushed at the end. None when a frame line has no
      frame name. */
  method CollectCaptures(lines: seq<string>) returns (r: Option<seq<seq<Entry>>>)
    ensures r.None? <==> Entries(lines).None?
    ensures r.Some? ==> IsCaptures(Entries(lines).value, r.value)
  {
    var captures: seq<seq<Entry>> := [];
    var current: seq<Entry> := [];
    for i := 0 to |lines|
      invariant Entries(lines[..i]).Some?
      invariant Splitting(Entries(lines[..i]).value, captures, current)
    {
      var line := lines[i];
      assert lines[..i + 1][..i] == lines[..i];
      if !StartsWith(line, "#") {
        continue;
      }
      var start := StartsWith(line, "#0");
      var frame := LineFrame(line);
      if frame.None? {
        EntriesStayNone(lines, i + 1);
        return None;
      }
      SplittingPush(Entries(lines[..i]).value, captures, current, Entry(start, frame.value));
      if start {
        if current != [] {
          captures := captures + [current];
          current := [];
        }
      }
      current := current + [Entry(start, frame.value)];
    }
    assert lines[..|lines|] == lines;
    SplittingDone(Entries(lines).value, captures, current);
    if current != [] {
      captures := captures + [current];
    }
    r := Some(captures);
  }

  /** The captures are determined by the entries. */
  lemma {:induction false} CapturesUnique(entries: seq<Entry>, a: seq<seq<Entry>>, b: seq<seq<Entry>>)
    requires IsCaptures(entries, a) && IsCaptures(entries, b)
    ensures a == b
    decreases |entries|
  {
    if a != [] && b != [] {
      var n := FirstCaptureLen(entries, a);
      var m := FirstCaptureLen(entries, b);
      assert a[0] == entries[..n] == b[0];
      TailIsCaptures(entries, a);
      TailIsCaptures(entries, b);
      CapturesUnique(entries[n..], a[1..], b[1..]);
      assert a == [a[0]] + a[1..] && b == [b[0]] + b[1..];
    }
  }

  /** The first capture runs up to the first `#0` frame after the first
      entry, or to the end. */
  lemma FirstCaptureLen(entries: seq<Entry>, a: seq<seq<Entry>>) returns (n: nat)
    requires IsCaptures(entries, a) && a != []
    ensures n == |a[0]| == NextStart(entries) && a[0] == entries[..n]
  {
    n := |a[0]|;
    assert entries == a[0] + Concat(a[1..]);
    assert entries[..n] == a[0];
    if |a| > 1 {
      assert Concat(a[1..]) == a[1] + Concat(a[2..]);
      assert entries[n] == a[1][0];
    }
    NextStartIs(entries, n);
  }

  /** The position of the first `#0` frame after the first entry, or the
      number of entries when there is none. */
  function NextStart(entries: seq<Entry>): (n: nat)
    ensures n <= |entries|
  {
    if |entries| <= 1 then |entries| else 1 + NextStart1(entries[1..])
  }

  function NextStart1(es: seq<Entry>): (n: nat)
    ensures n <= |es|
  {
    if es == [] || es[0].start then 0 else 1 + NextStart1(es[1..])
  }

  lemma NextStartIs(entries: seq<Entry>, n: nat)
    requires 1 <= n <= |entries|
    requires forall j :: 1 <= j < n ==> !entries[j].start
    requires n < |entries| ==> entries[n].start
    ensures NextStart(entries) == n
  {
    NextStart1Is(entries[1..], n - 1);
  }

  lemma {:induction false} NextStart1Is(es: seq<Entry>, n: nat)
    requires n <= |es|
    requires forall j :: 0 <= j < n ==> !es[j].start
    requires n < |es| ==> es[n].start
    ensures NextStart1(es) == n
    decreases n
  {
    if n > 0 {
      NextStart1Is(es[1..], n - 1);
    }
  }

  lemma TailIsCaptures(entries: seq<Entry>, a: seq<seq<Entry>>)
    requires IsCaptures(entries, a) && a != []
    ensures IsCaptures(entries[|a[0]|..], a[1..])
  {
    assert entries == a[0] + Concat(a[1..]);
    assert entries[|a[0]|..] == Concat(a[1..]);
    forall k | 0 <= k < |a[1..]|
      ensures a[1..][k] != [] && OneStart(a[1..][k]) && (k >= 1 ==> a[1..][k][0].start)
    {
      assert a[1..][k] == a[k + 1];
    }
  }

  // ---------------------------------------------------------------------
  // Folding
  // ---------------------------------------------------------------------

  function Frames(capture: seq<Entry>): (fs: seq<string>)
    ensures |fs| == |capture|
    ensures forall i :: 0 <= i < |capture| ==> fs[i] == capture[i].frame
  {
    if capture == [] then [] else [capture[0].frame] + Frames(capture[1..])
  }

  function Reverse<T>(s: seq<T>): (r: seq<T>)
    ensures |r| == |s| && forall i :: 0 <= i < |s| ==> r[i] == s[|s| - 1 - i]
  {
    if s == [] then [] else Reverse(s[1..]) + [s[0]]
  }

  /** Reversing twice gives the sequence back. */
  lemma ReverseReverse<T>(s: seq<T>)
    ensures Reverse(Reverse(s)) == s
  {
    assert forall i :: 0 <= i < |s| ==> Reverse(Reverse(s))[i] == s[i];
  }

  /** `bt_from_butt`: the frames from the outermost to the innermost. */
  method FromButt(capture: seq<string>) returns (bt: seq<string>)
    ensures bt == Reverse(capture)
  {
    bt := [];
    var i := |capture|;
    while i > 0
      invariant 0 <= i <= |capture|
      invariant |bt| == |capture| - i
      invariant forall j :: 0 <= j < |bt| ==> bt[j] == capture[|capture| - 1 - j]
    {
      i := i - 1;
      bt := bt + [capture[i]];
    }
  }

  /** `';'.join(frames)`. */
  function Join(frames: seq<string>): string {
    if frames == [] then ""
    else if |frames| == 1 then frames[0]
    else frames[0] + ";" + Join(frames[1..])
  }

  /** `s.split(';')` for a non-empty `s`, and no piece for the empty text. */
  function SplitSemicolons(s: string): seq<string>
    decreases |s|
  {
    if s == [] then []
    else if UpTo(s, ';') == |s| then [s]
    else [s[..UpTo(s, ';')]] + SplitSemicolons(s[UpTo(s, ';') + 1..])
  }

  /** Frame names that are non-empty and hold no `;`, as the words of a line
      are non-empty. */
  predicate Separable(frames: seq<string>) {
    forall i :: 0 <= i < |frames| ==> frames[i] != [] && ';' !in frames[i]
  }

  /** The joined key can be split back into its frames. */
  lemma {:induction false} JoinSplitRoundTrip(frames: seq<string>)
    requires Separable(frames)
    ensures SplitSemicolons(Join(frames)) == frames
    decreases |frames|
  {
    if |frames| == 1 {
      UpToPrefix(frames[0], [], ';');
      assert frames[0] + [] == frames[0];
    } else if |frames| > 1 {
      var first, tail := frames[0], frames[1..];
      var rest := ";" + Join(tail);
      var s := first + rest;
      assert Join(frames) == s;
      assert ';' !in first;
      assert Separable(tail);
      UpToPrefix(first, rest, ';');
      assert s[..|first|] == first && s[|first| + 1..] == Join(tail);
      assert SplitSemicolons(s) == [first] + SplitSemicolons(Join(tail));
      JoinSplitRoundTrip(tail);
      assert frames == [first] + tail;
    }
  }

  /** The folded key of a capture: its frames from the outermost (the last
      line of the backtrace) to the innermost, joined with `;`. */
  function Key(capture: seq<Entry>): string {
    Join(Reverse(Frames(capture)))
  }

  /** Two captures share a key only when they have the same frames. */
  lemma KeyDeterminesFrames(c: seq<Entry>, d: seq<Entry>)
    requires Separable(Frames(c)) && Separable(Frames(d))
    requires Key(c) == Key(d)
    ensures Frames(c) == Frames(d)
  {
    JoinSplitRoundTrip(Reverse(Frames(c)));
    JoinSplitRoundTrip(Reverse(Frames(d)));
    ReverseReverse(Frames(c));
    ReverseReverse(Frames(d));
  }

  function Keys(captures: seq<seq<Entry>>): (ks: seq<string>)
    ensures |ks| == |captures|
    ensures forall i :: 0 <= i < |captures| ==> ks[i] == Key(captures[i])
  {
    if captures == [] then [] else [Key(captures[0])] + Keys(captures[1..])
  }

  /** The `folded` dictionary of keys and counts: the keys are those of the
      captures, each counting the captures that have it, so the counts are
      at least one and add up to the number of captures. */
  ghost predicate Tallies(folded: map<string, nat>, keys: seq<string>) {
    && (forall k :: k in folded <==> k in multiset(keys))
    && (forall k :: k in folded ==> folded[k] == multiset(keys)[k])
  }

  /** `folded[key] += 1` when the key is there, `folded[key] = 1` when it
      is not: one more capture with that key is counted. */
  method Tally(folded: map<string, nat>, ghost keys: seq<string>, key: string) returns (next: map<string, nat>)
    requires Tallies(folded, keys)
    ensures Tallies(next, keys + [key])
  {
    assert multiset(keys + [key]) == multiset(keys) + multiset{key};
    if key in folded {
      next := folded[key := folded[key] + 1];
    } else {
      next := folded[key := 1];
    }
  }

  /** The counting loop. */
  method Fold(captures: seq<seq<Entry>>) returns (folded: map<string, nat>)
    ensures Tallies(folded, Keys(captures))
  {
    folded := map[];
    ghost var keys := Keys(captures);
    for i := 0 to |captures|
      invariant Tallies(folded, keys[..i])
    {
      var bt := FromButt(Frames(captures[i]));
      var foldedKey := Join(bt);
      assert keys[..i + 1] == keys[..i] + [foldedKey];
      folded := Tally(folded, keys[..i], foldedKey);
    }
    assert keys[..|captures|] == keys;
  }

  /** `process_stack_trace` on the lines of the log: the folded counts, or
      None when a frame line has no frame name. Reading the log and writing
      `out.folded` are left to the caller. */
  method ProcessStackTrace(lines: seq<string>) returns (r: Option<map<string, nat>>)
    ensures r.None? <==> Entries(lines).None?
    ensures r.Some? ==> exists captures :: IsCaptures(Entries(lines).value, captures) && Tallies(r.value, Keys(captures))
  {
    var captures := CollectCaptures(lines);
    if captures.None? {
      return None;
    }
    var folded := Fold(captures.value);
    r := Some(folded);
  }
}
