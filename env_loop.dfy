/** `src/env_.rs`: the same environment lookup written as an explicit
    loop with an early return. Proved to agree with `Env` everywhere. */
module EnvLoop {
  import opened Base
  import opened Slices
  import Env
  import Utf8

  /** `Environ::get`, loop version: scan the entries in order, split each
      at its first `=`, and return at the first whose key is `s`. */
  method Get(env: Env.Environ, s: seq<Byte>) returns (r: Option<Option<seq<Byte>>>)
    ensures r == Env.Get(env, s)
  {
    for n := 0 to |env|
      invariant forall j :: 0 <= j < n ==> Env.Key(env[j]) != s
    {
      var xs := env[n];
      var k, v;
      match Position(xs, (b: Byte) => b == Env.EQUALS) {
        case Some(i) =>
          k, v := xs[..i], Some(xs[i..][1..]);
        case None =>
          k, v := xs, None;
      }
      assert k == Env.Key(xs) && v == Env.Value(xs);
      if s == k {
        Env.GetFirstWins(env, s, n);
        return Some(v);
      }
    }
    r := None;
  }

  /** `Environ::get_str`, loop version: the same three-way mapping as in
      `Env`, with a value that is not UTF-8 reading as absent. */
  method GetStr(env: Env.Environ, s: seq<Byte>) returns (r: Option<Option<seq<Byte>>>)
    ensures r == Env.GetStr(env, s)
  {
    var g := Get(env, s);
    match g {
      case None => r := None;
      case Some(None) => r := Some(None);
      case Some(Some(t)) =>
        if Utf8.Valid(t) { r := Some(Some(t)); } else { r := None; }
    }
  }
}
