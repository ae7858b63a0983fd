/** `src/util.rs`: checked narrowing of a `u64` to the target's `usize`. */
module Util {
  import opened Base
  import opened Errors

  /** `n as usize` on a `w`-bit target: keeps the low `w` bits. */
  function AsUsize(w: Width, n: U64): nat
  {
    n % WordLimit(w)
  }

  /** `try_to_usize`: the value itself when the cast keeps it, else `EOVERFLOW`. */
  function TryToUsize(w: Width, n: U64): (r: Result<nat>)
    ensures r.Ok? <==> n < WordLimit(w)
    ensures r.Ok? ==> r.value == n
    ensures r.Err? <==> AsUsize(w, n) != n
    ensures r.Err? ==> r.error == EOVERFLOW
  {
    var m := AsUsize(w, n);
    if m == n then Ok(m) else Err(EOVERFLOW)
  }

  /** On a 64-bit target the conversion never fails. */
  lemma NeverFailsOn64(n: U64)
    ensures TryToUsize(64, n) == Ok(n)
  {
  }
}
