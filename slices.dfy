/** The slice and iterator searches the library leans on (`position`,
    `find_map`), as recursive functions with their defining properties. */
module Slices {
  import opened Base

  /** `xs.iter().position(p)`: the index of the first element satisfying `p`. */
  function Position<A>(xs: seq<A>, p: A -> bool): (r: Option<nat>)
    ensures r.Some? ==> r.value < |xs| && p(xs[r.value])
    ensures r.Some? ==> forall j :: 0 <= j < r.value ==> !p(xs[j])
    ensures r.None? <==> forall j :: 0 <= j < |xs| ==> !p(xs[j])
  {
    if xs == [] then None
    else if p(xs[0]) then Some(0)
    else
      match Position(xs[1..], p)
      case None => None
      case Some(i) => Some(i + 1)
  }

  /** The first element satisfying `p` is where `Position` stops. */
  lemma PositionIs<A>(xs: seq<A>, p: A -> bool, i: nat)
    requires i < |xs| && p(xs[i])
    requires forall j :: 0 <= j < i ==> !p(xs[j])
    ensures Position(xs, p) == Some(i)
  {
  }

  /** `xs.iter().find_map(f)`: the first `Some` that `f` yields, in order. */
  function FindMap<A, B>(xs: seq<A>, f: A -> Option<B>): (r: Option<B>)
    ensures r.None? <==> forall j :: 0 <= j < |xs| ==> f(xs[j]).None?
    ensures r.Some? ==> exists i :: 0 <= i < |xs| && f(xs[i]) == r
                          && forall j :: 0 <= j < i ==> f(xs[j]).None?
  {
    if xs == [] then None
    else if f(xs[0]).Some? then f(xs[0])
    else
      var r := FindMap(xs[1..], f);
      assert r.Some? ==> exists i :: 0 <= i < |xs| - 1 && f(xs[1..][i]) == r
                           && forall j :: 0 <= j < i ==> f(xs[1..][j]).None?;
      assert r.Some? ==> exists i :: 1 <= i < |xs| && f(xs[i]) == r
                           && forall j :: 0 <= j < i ==> f(xs[j]).None? by {
        if r.Some? {
          var i :| 0 <= i < |xs| - 1 && f(xs[1..][i]) == r
                   && forall j :: 0 <= j < i ==> f(xs[1..][j]).None?;
          assert f(xs[i + 1]) == r;
          assert forall j :: 0 <= j < i + 1 ==> f(xs[j]).None? by {
            forall j | 0 <= j < i + 1 ensures f(xs[j]).None? {
              if j > 0 { assert xs[j] == xs[1..][j - 1]; }
            }
          }
        }
      }
      r
  }
}
