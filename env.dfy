/** `src/env.rs`: lookup in the process environment, a list of
    `key=value` byte strings, written with iterator combinators. */
module Env {
  import opened Base
  import opened Slices
  import Utf8

  /** One entry, the bytes before its NUL terminator. */
  type Entry = seq<Byte>
  type Environ = seq<Entry>

  const EQUALS: Byte := 0x3D

  /** The key of an entry: the bytes before its first `=`, or the whole
      entry when there is none. */
  function Key(xs: Entry): seq<Byte>
  {
    match Position(xs, (b: Byte) => b == EQUALS)
    case Some(i) => xs[..i]
    case None => xs
  }

  /** The value of an entry: everything after its first `=` (further `=`s
      included), or `None` when it has no `=`. */
  function Value(xs: Entry): Option<seq<Byte>>
  {
    match Position(xs, (b: Byte) => b == EQUALS)
    case Some(i) => Some(xs[i + 1..])
    case None => None
  }

  /** Key and value partition the entry around its first `=`. */
  lemma {:induction false} EntryParts(xs: Entry)
    ensures EQUALS !in Key(xs)
    ensures Value(xs).Some? ==> xs == Key(xs) + [EQUALS] + Value(xs).value
    ensures Value(xs).None? ==> Key(xs) == xs
  {
    var p := Position(xs, (b: Byte) => b == EQUALS);
    if p.Some? {
      assert xs == xs[..p.value] + [xs[p.value]] + xs[p.value + 1..];
      assert forall k :: 0 <= k < p.value ==> xs[..p.value][k] == xs[k];
    }
  }

  /** `try_split_on`: split at the first element satisfying `p` into
      (prefix, that element, suffix). */
  function TrySplitOn<A>(xs: seq<A>, p: A -> bool): (r: Option<(seq<A>, A, seq<A>)>)
    ensures r.Some? ==> r.value.0 + [r.value.1] + r.value.2 == xs
    ensures r.Some? ==> p(r.value.1) && forall k :: 0 <= k < |r.value.0| ==> !p(r.value.0[k])
    ensures r.None? <==> forall k :: 0 <= k < |xs| ==> !p(xs[k])
  {
    match Position(xs, p)
    case None => None
    case Some(i) =>
      assert xs == xs[..i] + [xs[i]] + xs[i + 1..];
      Some((xs[..i], xs[i], xs[i + 1..]))
  }

  /** The closure passed to `find_map`: split the entry and answer when
      its key is `s`. */
  function Match(s: seq<Byte>, xs: Entry): Option<Option<seq<Byte>>>
  {
    var kv := match TrySplitOn(xs, (b: Byte) => b == EQUALS)
              case Some((k, _, v)) => (k, Some(v))
              case None => (xs, None);
    if s == kv.0 then Some(kv.1) else None
  }

  lemma MatchIsKeyValue(s: seq<Byte>, xs: Entry)
    ensures Match(s, xs) == if Key(xs) == s then Some(Value(xs)) else None
  {
  }

  /** `Environ::get`: the value of the first entry whose key is `s`, later
      duplicates ignored; `Some(None)` for a matching entry without `=`;
      `None` when no key matches. */
  function Get(env: Environ, s: seq<Byte>): (r: Option<Option<seq<Byte>>>)
    ensures r.None? <==> forall i :: 0 <= i < |env| ==> Key(env[i]) != s
    ensures r.Some? ==> exists i :: 0 <= i < |env| && Key(env[i]) == s && r.value == Value(env[i])
                           && forall j :: 0 <= j < i ==> Key(env[j]) != s
  {
    forall xs: Entry ensures Match(s, xs) == if Key(xs) == s then Some(Value(xs)) else None {
      MatchIsKeyValue(s, xs);
    }
    FindMap(env, (xs: Entry) => Match(s, xs))
  }

  /** The lookup is determined by the first matching entry alone. */
  lemma {:induction false} GetFirstWins(env: Environ, s: seq<Byte>, i: nat)
    requires i < |env| && Key(env[i]) == s
    requires forall j :: 0 <= j < i ==> Key(env[j]) != s
    ensures Get(env, s) == Some(Value(env[i]))
  {
    var r := Get(env, s);
    var i' :| 0 <= i' < |env| && Key(env[i']) == s && r.value == Value(env[i'])
              && forall j :: 0 <= j < i' ==> Key(env[j]) != s;
    assert i' == i;
  }

  /** `Environ::get_str`: as `get`, but a value that is not well-formed
      UTF-8 reads as absent. */
  function GetStr(env: Environ, s: seq<Byte>): (r: Option<Option<seq<Byte>>>)
    ensures r.Some? ==> r == Get(env, s)
    ensures r.Some? && r.value.Some? ==> Utf8.Valid(r.value.value)
    ensures r.None? <==> Get(env, s).None? || (Get(env, s).value.Some? && !Utf8.Valid(Get(env, s).value.value))
  {
    match Get(env, s)
    case None => None
    case Some(None) => Some(None)
    case Some(Some(t)) => if Utf8.Valid(t) then Some(Some(t)) else None
  }
}
