/** `src/str.rs`: `OsStr`, a byte string that carries its NUL terminator. */
module OsStrings {
  import opened Base
  import Slices

  const NUL: Byte := 0

  predicate NulTerminated(bs: seq<Byte>) { |bs| > 0 && bs[|bs| - 1] == NUL }

  /** A byte slice whose last byte is NUL. Interior NULs are allowed. */
  type OsStr = bs: seq<Byte> | NulTerminated(bs) witness [NUL]

  /** `OsStr::try_from_bytes`: accepted exactly when the slice ends in NUL. */
  function TryFromBytes(bs: seq<Byte>): (r: Option<OsStr>)
    ensures r.Some? <==> |bs| > 0 && bs[|bs| - 1] == NUL
    ensures r.Some? ==> r.value == bs
  {
    if |bs| == 0 || bs[|bs| - 1] != NUL then None else Some(bs)
  }

  /** `OsStr::from_bytes`: panics (here: may not be called) exactly where
      `try_from_bytes` says `None`. */
  function FromBytes(bs: seq<Byte>): (s: OsStr)
    requires NulTerminated(bs)
    ensures TryFromBytes(bs) == Some(s)
  {
    bs
  }

  /** `OsStr::try_from_mut_bytes`: the same acceptance rule; the string it
      returns is the caller's buffer itself, not a copy. */
  method TryFromMutBytes(bs: array<Byte>) returns (r: Option<array<Byte>>)
    ensures r.Some? <==> bs.Length > 0 && bs[bs.Length - 1] == NUL
    ensures r.Some? ==> r.value == bs
    ensures r == None <==> TryFromBytes(bs[..]) == None
  {
    if bs.Length == 0 || bs[bs.Length - 1] != NUL {
      r := None;
    } else {
      r := Some(bs);
    }
  }

  /** `OsStr::from_mut_bytes`: panics exactly where `try_from_mut_bytes` says `None`. */
  method FromMutBytes(bs: array<Byte>) returns (s: array<Byte>)
    requires NulTerminated(bs[..])
    ensures s == bs && TryFromBytes(s[..]).Some?
  {
    var r := TryFromMutBytes(bs);
    s := r.value;
  }

  /** `Deref`: the bytes before the terminator. */
  function View(s: OsStr): (v: seq<Byte>)
    ensures |v| == |s| - 1
    ensures v + [NUL] == s
  {
    s[..|s| - 1]
  }

  /** A store through `DerefMut` (`&mut self.0[0..l-1]`) at index `i` of
      the view: the index is bounds-checked against the view, so the
      terminator can never be overwritten. */
  method StoreThroughView(a: array<Byte>, i: nat, x: Byte)
    requires NulTerminated(a[..])
    requires i < a.Length - 1
    modifies a
    ensures a[..] == old(a[..])[i := x]
    ensures NulTerminated(a[..])
    ensures View(a[..]) == old(View(a[..]))[i := x]
  {
    a[i] := x;
  }

  /** Offset of the first NUL in `s`, if any. */
  predicate IsNul(b: Byte) { b == NUL }

  function FirstNul(s: seq<Byte>): Option<nat>
  {
    Slices.Position(s, IsNul)
  }

  /** `OsStr::from_mut_ptr`: scan memory from `ptr` to the first NUL; the
      string is everything up to and including it. The caller promises
      there is a NUL at or after `ptr`. */
  method FromMutPtr(mem: seq<Byte>, ptr: nat) returns (s: seq<Byte>)
    requires ptr <= |mem| && exists j :: ptr <= j < |mem| && mem[j] == NUL
    ensures NulTerminated(s)
    ensures forall k :: 0 <= k < |s| - 1 ==> s[k] != NUL
    ensures ptr + |s| <= |mem| && s == mem[ptr..ptr + |s|]
    ensures FirstNul(mem[ptr..]) == Some(|s| - 1)
  {
    ghost var j :| ptr <= j < |mem| && mem[j] == NUL;
    var i := 0;
    while mem[ptr + i] != NUL
      invariant ptr + i <= j
      invariant forall k :: ptr <= k < ptr + i ==> mem[k] != NUL
      decreases j - (ptr + i)
    {
      i := i + 1;
    }
    s := mem[ptr..ptr + i + 1];
    ghost var p := FirstNul(mem[ptr..]);
    assert mem[ptr..][i] == NUL;
    assert p.Some? && p.value <= i;
  }
}
