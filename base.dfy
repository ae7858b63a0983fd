/** Machine-level vocabulary shared by every module: bytes, fixed-width
    unsigned words, the target word width, and an optional value. */
module Base {

  /** An octet, as a `u8`. */
  type Byte = b: int | 0 <= b < 0x100

  /** A `u64`. */
  type U64 = n: int | 0 <= n < 0x1_0000_0000_0000_0000

  /** Word widths the library is built for (`usize`/`isize` bits). */
  type Width = w: nat | w == 32 || w == 64 witness 64

  /** 2^w: one past the largest `usize` of width `w`. */
  function WordLimit(w: Width): nat
  {
    if w == 32 then 0x1_0000_0000 else 0x1_0000_0000_0000_0000
  }

  /** Bounds of a 64-bit `isize`, the word a system call returns. */
  const ISIZE_MIN: int := -0x8000_0000_0000_0000
  const ISIZE_MAX: int := 0x7fff_ffff_ffff_ffff

  datatype Option<+T> = None | Some(value: T)

  /** Bytes of an ASCII string literal. */
  function Ascii(s: string): (r: seq<Byte>)
    requires forall i :: 0 <= i < |s| ==> s[i] < 128 as char
    ensures |r| == |s|
    ensures forall i :: 0 <= i < |s| ==> r[i] == s[i] as int
  {
    seq(|s|, i requires 0 <= i < |s| => s[i] as int)
  }
}
