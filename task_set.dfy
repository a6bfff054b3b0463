/** The task set of a POSIX process (kernel/src/process/task_set.rs): the
    ordered tasks of the process, slot 0 holding the main thread, and the three
    flags `has_exited_main`, `has_exited_group` and `in_execve`. */
module TaskSets {
  import opened Prelude
  import opened PosixThreads

  /** The outcome of `insert`: the task was appended, or it is handed back. */
  datatype InsertResult = Inserted | Rejected(task: PosixThread)

  class TaskSet {
    var tasks: seq<PosixThread>
    var hasExitedMain: bool
    var hasExitedGroup: bool
    var inExecve: bool

    /** The flags of the two terminal group operations are never both set,
        and the exited main thread keeps its slot. */
    ghost predicate Valid()
      reads this
    {
      && !(hasExitedGroup && inExecve)
      && (hasExitedMain ==> |tasks| >= 1)
    }

    /** `new`: no tasks, no flag set. */
    constructor ()
      ensures Valid()
      ensures tasks == [] && !hasExitedMain && !hasExitedGroup && !inExecve
    {
      tasks := [];
      hasExitedMain := false;
      hasExitedGroup := false;
      inExecve := false;
    }

    /** `main`: the task in slot 0, which no earlier slot can hold. */
    function Main(): (m: PosixThread)
      reads this
      requires |tasks| > 0
      ensures m in tasks && Position(tasks, m) == 0
    {
      tasks[0]
    }

    /** `insert`: refused, with the task handed back and nothing changed, once
        an `exit_group` or an `execve` has begun; otherwise the task is
        appended. */
    method Insert(task: PosixThread) returns (r: InsertResult)
      requires Valid()
      modifies this
      ensures Valid()
      ensures hasExitedMain == old(hasExitedMain) && hasExitedGroup == old(hasExitedGroup)
      ensures inExecve == old(inExecve)
      ensures old(hasExitedGroup || inExecve) ==> r == Rejected(task) && tasks == old(tasks)
      ensures !old(hasExitedGroup || inExecve) ==> r == Inserted && tasks == old(tasks) + [task]
    {
      if hasExitedGroup || inExecve {
        return Rejected(task);
      }
      tasks := tasks + [task];
      r := Inserted;
    }

    /** `remove_exited`: an exited task other than the one in slot 0 is
        swap-removed; the task in slot 0 stays as a placeholder and
        `has_exited_main` is set. The result tells whether the main thread has
        exited and only its placeholder remains. Panics (excluded by the
        requires) when the task is not a member or the main thread exits
        twice. */
    method RemoveExited(task: PosixThread) returns (lastGone: bool)
      requires Valid()
      requires task in tasks
      requires Position(tasks, task) == 0 ==> !hasExitedMain
      modifies this
      ensures Valid()
      ensures hasExitedGroup == old(hasExitedGroup) && inExecve == old(inExecve)
      ensures Position(old(tasks), task) == 0 ==> tasks == old(tasks) && hasExitedMain
      ensures Position(old(tasks), task) > 0 ==>
                tasks == SwapRemove(old(tasks), Position(old(tasks), task))
                && hasExitedMain == old(hasExitedMain)
      ensures lastGone <==> hasExitedMain && |tasks| == 1
    {
      var position := Position(tasks, task);
      if position == 0 {
        hasExitedMain := true;
      } else {
        tasks := SwapRemove(tasks, position);
      }
      lastGone := hasExitedMain && |tasks| == 1;
    }

    /** `set_main`: once the main thread has exited and the caller is the only
        other task, the placeholder is dropped and the caller takes slot 0. */
    method SetMain(caller: PosixThread)
      requires Valid()
      requires |tasks| == 2 && hasExitedMain && tasks[0].exited && tasks[1] == caller
      modifies this
      ensures Valid()
      ensures tasks == [caller] && !hasExitedMain
      ensures hasExitedGroup == old(hasExitedGroup) && inExecve == old(inExecve)
    {
      tasks := SwapRemove(tasks, 0);
      hasExitedMain := false;
    }

    /** `set_exited_group`: asserts that no `execve` is in progress. */
    method SetExitedGroup()
      requires Valid() && !inExecve
      modifies this
      ensures Valid()
      ensures hasExitedGroup && tasks == old(tasks)
      ensures hasExitedMain == old(hasExitedMain) && inExecve == old(inExecve)
    {
      hasExitedGroup := true;
    }

    /** `set_in_execve`: asserts that no `exit_group` has begun. */
    method SetInExecve()
      requires Valid() && !hasExitedGroup
      modifies this
      ensures Valid()
      ensures inExecve && tasks == old(tasks)
      ensures hasExitedMain == old(hasExitedMain) && hasExitedGroup == old(hasExitedGroup)
    {
      inExecve := true;
    }

    /** `reset_in_execve`: clears `in_execve` and nothing else. */
    method ResetInExecve()
      requires Valid()
      modifies this
      ensures Valid()
      ensures !inExecve && tasks == old(tasks)
      ensures hasExitedMain == old(hasExitedMain) && hasExitedGroup == old(hasExitedGroup)
    {
      inExecve := false;
    }
  }

  /** `iter().position(..)`: the first slot holding `t`. */
  function Position<T(==)>(s: seq<T>, t: T): (r: nat)
    requires t in s
    ensures r < |s| && s[r] == t
    ensures forall j :: 0 <= j < r ==> s[j] != t
  {
    if s[0] == t then 0 else 1 + Position(s[1..], t)
  }

  /** `Vec::swap_remove`: the last element takes the place of the removed one. */
  function SwapRemove<T>(s: seq<T>, i: nat): seq<T>
    requires i < |s|
  {
    if i == |s| - 1 then s[..i] else s[..i] + [s[|s| - 1]] + s[i + 1..|s| - 1]
  }

  /** Swap-removing slot `i` removes exactly one copy of `s[i]`, keeps every
      other element, and leaves the slots before `i` in place; in particular a
      non-main removal never touches slot 0. */
  lemma SwapRemoveSpec<T>(s: seq<T>, i: nat)
    requires i < |s|
    ensures |SwapRemove(s, i)| == |s| - 1
    ensures multiset(SwapRemove(s, i)) == multiset(s) - multiset{s[i]}
    ensures forall j :: 0 <= j < i ==> SwapRemove(s, i)[j] == s[j]
  {
    var last := |s| - 1;
    if i == last {
      assert s == s[..i] + [s[i]];
      assert multiset(s) == multiset(s[..i]) + multiset{s[i]};
    } else {
      var front, x, middle, y := s[..i], s[i], s[i + 1..last], s[last];
      assert s == front + [x] + middle + [y];
      assert SwapRemove(s, i) == front + [y] + middle;
      SwapFromBack(front, x, middle, y);
    }
  }

  /** Taking `x` out of `front + [x] + middle + [y]` and moving `y` into its
      slot keeps every other element. */
  lemma SwapFromBack<T>(front: seq<T>, x: T, middle: seq<T>, y: T)
    ensures multiset(front + [y] + middle) == multiset(front + [x] + middle + [y]) - multiset{x}
  {
    assert multiset(front + [x] + middle + [y]) == multiset(front) + multiset{x} + multiset(middle) + multiset{y};
    assert multiset(front + [y] + middle) == multiset(front) + multiset{y} + multiset(middle);
  }

  /** How many slots of the task list hold `u`. */
  function Count(tasks: seq<PosixThread>, u: PosixThread): (n: nat)
    ensures n == 0 <==> u !in tasks
  {
    if tasks == [] then 0 else (if tasks[0] == u then 1 else 0) + Count(tasks[1..], u)
  }

  lemma {:induction false} CountAppend(a: seq<PosixThread>, u: PosixThread, v: PosixThread)
    ensures Count(a + [v], u) == Count(a, u) + (if v == u then 1 else 0)
  {
    if a != [] {
      assert (a + [v])[1..] == a[1..] + [v];
      CountAppend(a[1..], u, v);
    }
  }

  /** A thread that holds one slot is counted once. */
  lemma {:induction false} CountDistinct(tasks: seq<PosixThread>, u: PosixThread)
    requires forall i, j :: 0 <= i < j < |tasks| ==> tasks[i] != tasks[j]
    requires u in tasks
    ensures Count(tasks, u) == 1
  {
    if tasks[0] == u {
      assert u !in tasks[1..];
    } else {
      CountDistinct(tasks[1..], u);
    }
  }

  /** `n` copies of `w`, one after the other. */
  function Repeat<T>(w: seq<T>, n: nat): seq<T> {
    if n == 0 then [] else Repeat(w, n - 1) + w
  }
}
