/** Types shared by every module of the model: error numbers, the kernel's
    `Result`, `Option`, and the fixed-width integers the kernel passes around. */
module Prelude {

  /** The error numbers the modelled code returns. */
  datatype Errno =
    | EPERM | ENOENT | ESRCH | EINTR | EBADF | EAGAIN | EFAULT | EINVAL
    | ENOSPC | ENAMETOOLONG | E2BIG | ENOPROTOOPT | EAFNOSUPPORT
    | EPROTONOSUPPORT | ERESTARTSYS | EACCES | ENOEXEC | ENOMEM

  /** The kernel's `Result<T>`: a value or an error number. */
  datatype Result<+T> = Ok(value: T) | Err(error: Errno) {
    predicate IsFailure() { Err? }
    function PropagateFailure<U>(): Result<U>
      requires Err?
    {
      Err(error)
    }
    function Extract(): T
      requires Ok?
    {
      value
    }
  }

  datatype Option<+T> = None | Some(value: T)

  /** The unit value returned by operations that only succeed or fail. */
  datatype Unit = Unit

  /** What a system call hands back to user space. */
  datatype SyscallReturn = Return(code: int) | NoReturn

  type byte = x: int | 0 <= x < 0x100

  const U32_LIMIT: int := 0x1_0000_0000
  const U64_LIMIT: int := 0x1_0000_0000_0000_0000

  type u32 = x: int | 0 <= x < U32_LIMIT

  /** A user-space virtual address (`usize` on a 64-bit target). */
  type Vaddr = x: int | 0 <= x < U64_LIMIT

  function Pow2(n: nat): (p: nat)
    ensures p >= 1
  {
    if n == 0 then 1 else 2 * Pow2(n - 1)
  }

  /** Whether bit `b` of `x` is set. */
  predicate BitSet(x: nat, b: nat) {
    (x / Pow2(b)) % 2 == 1
  }

  /** `n` zero bytes. */
  function Zeros(n: nat): (z: seq<byte>)
    ensures |z| == n && forall i :: 0 <= i < n ==> z[i] == 0
  {
    seq(n, _ => 0)
  }
}
