/** Values shared by the IO, File and FileTest classes: the exceptions they raise,
    result wrappers for "returns a value or raises", C integer truncation and the
    view a C function has of a Ruby string. */
module Runtime {

  /** The exception classes this code raises (the message texts are not modelled). */
  datatype Exception =
    | ArgumentError        // illegal access mode
    | IOError              // closed stream, failed seek, not opened for writing
    | EOFError             // sysread at end of file
    | SystemCallError      // mrb_sys_fail: a system call reported failure

  /** A Ruby method call that either returns a value or raises. */
  datatype Result<T> = Ok(value: T) | Raise(exc: Exception)

  /** A Ruby method call whose value does not matter: it returns or raises. */
  datatype Outcome = Pass | Fail(exc: Exception)

  /** Ruby's nil-or-value. */
  datatype Option<T> = None | Some(value: T) {
    function GetOr(default: T): T {
      match this
      case Some(v) => v
      case None => default
    }
  }

  newtype byte = x: int | 0 <= x < 0x100

  /** The C `int` that holds descriptors, byte counts and offsets. */
  newtype int32 = x: int | -0x8000_0000 <= x < 0x8000_0000

  /** Storing a wider integer in a C `int`: two's-complement wrap-around. */
  function WrapInt32(x: int): (r: int32)
    ensures (r as int - x) % 0x1_0000_0000 == 0
    ensures -0x8000_0000 <= x < 0x8000_0000 ==> r as int == x
  {
    ((x + 0x8000_0000) % 0x1_0000_0000 - 0x8000_0000) as int32
  }

  /** The string a C function sees through a `const char *`: everything before
      the first NUL (the terminator, or an embedded one). */
  function CStr(s: string): (c: string)
    ensures |c| <= |s| && c == s[..|c|]
    ensures '\0' !in c
    ensures |c| < |s| ==> s[|c|] == '\0'
  {
    if s == [] || s[0] == '\0' then [] else [s[0]] + CStr(s[1..])
  }

  /** `s[i]` as C reads it: the terminating NUL lies just past the end. */
  function CharAt(s: string, i: nat): (ch: char)
    ensures i < |s| ==> ch == s[i]
    ensures i >= |s| ==> ch == '\0'
  {
    if i < |s| then s[i] else '\0'
  }

  /** C reads exactly the characters of `CStr(s)` before meeting a NUL. */
  lemma CharAtCStr(s: string, i: nat)
    requires i <= |CStr(s)|
    ensures i < |CStr(s)| ==> CharAt(s, i) == CStr(s)[i] && CharAt(s, i) != '\0'
    ensures i == |CStr(s)| ==> CharAt(s, i) == '\0'
  {
  }
}
