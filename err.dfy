/** The system error type of `src/err_.rs`: a non-zero error number, the
    translation of a raw system-call return into `Result`, and the lookups
    of an error's name and message in the tables generated at build time. */
module Errors {
  import opened Base
  import Decimal

  /** `Error(NonZeroUsize)`: an error number, never zero. */
  type Error = n: nat | n > 0 witness 1

  /** Error numbers used by the core (Linux values). */
  const ENOENT: Error := 2
  const EINTR: Error := 4
  const EIO: Error := 5
  const EAGAIN: Error := 11
  const ENOMEM: Error := 12
  const EEXIST: Error := 17
  const ENOSYS: Error := 38
  const EOVERFLOW: Error := 75

  datatype Result<T> = Ok(value: T) | Err(error: Error)

  /** A word a system call returns. `isize::MIN` is excluded: negating it
      in `from_sysret` would overflow, and the kernel never returns it. */
  type SysRet = m: int | ISIZE_MIN < m <= ISIZE_MAX

  /** `Error::from_sysret`: a negative return is the negated error number,
      anything else (zero included) is a success with that magnitude. */
  function FromSysret(m: SysRet): (r: Result<nat>)
    ensures r.Err? <==> m < 0
    ensures r.Ok? ==> r.value == m
    ensures r.Err? ==> r.error == -m
  {
    if m < 0 then Err(-m) else Ok(m)
  }

  /** The kernel's side of the convention: an error number `e` is returned
      as `-e`, a success as its magnitude. */
  function ToSysret(r: Result<nat>): (m: int)
  {
    match r
    case Ok(n) => n
    case Err(e) => -(e as int)
  }

  /** `from_sysret` undoes the kernel's encoding of every result it can carry. */
  lemma FromSysretInverts(r: Result<nat>)
    requires r.Ok? ==> r.value <= ISIZE_MAX
    requires r.Err? ==> r.error < -ISIZE_MIN
    ensures ISIZE_MIN < ToSysret(r) <= ISIZE_MAX
    ensures FromSysret(ToSysret(r)) == r
  {
  }

  /** ... and loses nothing: every return word is recovered from its result. */
  lemma ToSysretInverts(m: SysRet)
    ensures ToSysret(FromSysret(m)) == m
  {
  }

  /** `Error::message`: the entry of the message table at the error number,
      or the empty string when the table has no such entry. */
  function Message(messages: seq<seq<Byte>>, e: Error): (r: seq<Byte>)
    ensures e < |messages| ==> r == messages[e]
    ensures e >= |messages| ==> r == []
  {
    if e < |messages| then messages[e] else []
  }

  /** `Debug for Error`: the symbolic name when the name table has one,
      else `Error(<number>)`. */
  function Debug(names: seq<Option<seq<Byte>>>, e: Error): (r: seq<Byte>)
  {
    if e < |names| && names[e].Some? then names[e].value
    else Ascii("Error(") + Decimal.Show(e) + Ascii(")")
  }

  /** A named error prints its name; an unnamed one prints a text from
      which its number can be read back. */
  lemma DebugShowsNameOrNumber(names: seq<Option<seq<Byte>>>, e: Error)
    ensures e < |names| && names[e].Some? ==> Debug(names, e) == names[e].value
    ensures !(e < |names| && names[e].Some?) ==>
      var r := Debug(names, e);
      |r| > 7 && r[..6] == Ascii("Error(") && r[|r| - 1] == ')' as int
      && Decimal.Parse(r[6..|r| - 1], e + 1) == Some(e)
  {
    if !(e < |names| && names[e].Some?) {
      var r := Debug(names, e);
      assert r[6..|r| - 1] == Decimal.Show(e);
      Decimal.ParseShow(e, e + 1);
    }
  }

  /** `From<NonZeroUsize>`: the number is wrapped unchanged. */
  function FromNonZero(n: nat): (e: Error)
    requires n != 0
    ensures e as nat == n
  {
    n
  }

  /** `From<EndOfFile>`: the all-ones word `!0`. */
  function FromEndOfFile(w: Width): (e: Error)
    ensures e == WordLimit(w) - 1
  {
    WordLimit(w) - 1
  }

  /** `From<NoMemory>`. */
  function FromNoMemory(): (e: Error)
    ensures e == ENOMEM
  {
    ENOMEM
  }

  /** `esyscall_!`: the result of `from_sysret` with the success value dropped. */
  function DropValue(r: Result<nat>): (u: Result<()>)
    ensures u.Err? <==> r.Err?
    ensures u.Err? ==> u.error == r.error
  {
    match r
    case Ok(_) => Ok(())
    case Err(e) => Err(e)
  }
}
