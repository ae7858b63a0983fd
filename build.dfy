/** `build.rs`: the text processing of the build script that generates the
    error and signal tables. The C preprocessor's output is a byte stream;
    what is written to the generated files is a sequence of lines. */
module Build {
  import opened Base
  import Slices
  import Utf8
  import Decimal

  // ---------------------------------------------------------------------
  // `put_opt`

  /** `put_opt(xs, k, x)`: pads with `None`s up to index `k` when `xs` is
      too short, stores `Some(x)` at `k` and returns what was there. */
  method PutOpt<A>(xs: seq<Option<A>>, k: nat, x: A) returns (ys: seq<Option<A>>, prev: Option<A>)
    ensures |ys| == if k < |xs| then |xs| else k + 1
    ensures ys[k] == Some(x)
    ensures prev == if k < |xs| then xs[k] else None
    ensures forall i :: 0 <= i < |xs| && i != k ==> ys[i] == xs[i]
    ensures forall i :: |xs| <= i < |ys| && i != k ==> ys[i] == None
    ensures ys == Put(xs, k, x)
  {
    ys := xs;
    if k >= |ys| {
      for j := |xs| to k + 1
        invariant |ys| == j
        invariant ys[..|xs|] == xs
        invariant forall i :: |xs| <= i < j ==> ys[i] == None
      {
        ys := ys + [None];
      }
    }
    prev := ys[k];
    ys := ys[k := Some(x)];
  }

  /** The table `put_opt` leaves behind, as a value. */
  function Put<A>(xs: seq<Option<A>>, k: nat, x: A): (r: seq<Option<A>>)
    ensures |r| == if k < |xs| then |xs| else k + 1
    ensures r[k] == Some(x)
    ensures forall i :: 0 <= i < |r| && i != k ==> r[i] == if i < |xs| then xs[i] else None
  {
    if k < |xs| then xs[k := Some(x)]
    else xs + seq(k - |xs|, _ => None) + [Some(x)]
  }

  // ---------------------------------------------------------------------
  // `Lines`

  /** The `Lines` iterator: the rest of a stream and the separator test. */
  class Lines<A> {
    var stream: seq<A>
    const isSep: A -> bool

    constructor(s: seq<A>, p: A -> bool)
      ensures stream == s && isSep == p
    {
      stream := s;
      isSep := p;
    }

    /** `Lines::next`: the items before the first separator, which is
        consumed; `None` once no separator is left, dropping the
        unterminated rest. */
    method Next() returns (item: Option<seq<A>>)
      modifies this
      ensures match Slices.Position(old(stream), isSep)
        case Some(i) => item == Some(old(stream)[..i]) && stream == old(stream)[i + 1..]
        case None => item == None && stream == []
    {
      ghost var orig := stream;
      var xs: seq<A> := [];
      while stream != []
        invariant |xs| <= |orig| && xs == orig[..|xs|] && stream == orig[|xs|..]
        invariant forall j :: 0 <= j < |xs| ==> !isSep(orig[j])
        decreases |stream|
      {
        var x := stream[0];
        stream := stream[1..];
        if isSep(x) {
          Slices.PositionIs(orig, isSep, |xs|);
          return Some(xs);
        }
        xs := xs + [x];
      }
      item := None;
    }
  }

  /** Every item the `Lines` iterator yields, in order. */
  function SplitLines<A>(s: seq<A>, p: A -> bool): seq<seq<A>>
    decreases |s|
  {
    match Slices.Position(s, p)
    case None => []
    case Some(i) => [s[..i]] + SplitLines(s[i + 1..], p)
  }

  /** The lines joined back, each followed by the separator `sep`. */
  function Unlines<A>(lines: seq<seq<A>>, sep: A): seq<A>
  {
    if lines == [] then [] else lines[0] + [sep] + Unlines(lines[1..], sep)
  }

  const NEWLINE: Byte := 0x0A

  /** The separator `c_defns` splits on. */
  predicate IsNewline(b: Byte)
  {
    b == NEWLINE
  }

  /** Joining a line onto joined lines. */
  lemma UnlinesCons<A>(l: seq<A>, lines: seq<seq<A>>, sep: A)
    ensures Unlines([l] + lines, sep) == l + [sep] + Unlines(lines, sep)
  {
    assert ([l] + lines)[1..] == lines;
  }

  /** A prefix of the rest after `s[i]` extends to a prefix of `s`. */
  lemma PrefixAfter(s: seq<Byte>, i: nat, u: seq<Byte>)
    requires i < |s| && |u| <= |s| - (i + 1) && s[i + 1..][..|u|] == u
    ensures s[..i + 1 + |u|] == s[..i] + [s[i]] + u
    ensures s[i + 1 + |u|..] == s[i + 1..][|u|..]
  {
    assert s[..i + 1 + |u|] == s[..i] + [s[i]] + s[i + 1..][..|u|];
  }

  /** The stream is its lines, each followed by a newline, then a tail
      without a newline, which is dropped. */
  lemma {:induction false} SplitLinesUnlines(s: seq<Byte>)
    ensures var u := Unlines(SplitLines(s, IsNewline), NEWLINE);
      |u| <= |s| && s[..|u|] == u && NEWLINE !in s[|u|..]
    decreases |s|
  {
    var pos := Slices.Position(s, IsNewline);
    if pos.Some? {
      var i := pos.value;
      var s' := s[i + 1..];
      SplitLinesUnlines(s');
      var lines := SplitLines(s', IsNewline);
      assert SplitLines(s, IsNewline) == [s[..i]] + lines;
      UnlinesCons(s[..i], lines, NEWLINE);
      PrefixAfter(s, i, Unlines(lines, NEWLINE));
    } else {
      assert forall j :: 0 <= j < |s| ==> s[j] != NEWLINE;
    }
  }

  /** No line the splitter yields contains a newline. */
  lemma {:induction false} LinesHaveNoNewline(s: seq<Byte>)
    ensures forall j :: 0 <= j < |SplitLines(s, IsNewline)| ==> NEWLINE !in SplitLines(s, IsNewline)[j]
    decreases |s|
  {
    var pos := Slices.Position(s, IsNewline);
    if pos.Some? {
      var i := pos.value;
      LinesHaveNoNewline(s[i + 1..]);
      var lines := SplitLines(s[i + 1..], IsNewline);
      assert SplitLines(s, IsNewline) == [s[..i]] + lines;
      assert forall j :: 0 <= j < i ==> s[..i][j] == s[j];
    }
  }

  /** What one `Next` leaves: the first line followed by the lines of the
      rest, or no line at all. */
  lemma SplitLinesNext<A>(s: seq<A>, p: A -> bool, item: Option<seq<A>>, rest: seq<A>)
    requires match Slices.Position(s, p)
      case Some(i) => item == Some(s[..i]) && rest == s[i + 1..]
      case None => item == None && rest == []
    ensures item.None? ==> SplitLines(s, p) == []
    ensures item.Some? ==> SplitLines(s, p) == [item.value] + SplitLines(rest, p)
  {
  }

  /** Draining a `Lines` iterator yields `SplitLines` of its stream. */
  method CollectLines<A>(s: seq<A>, p: A -> bool) returns (lines: seq<seq<A>>)
    ensures lines == SplitLines(s, p)
  {
    var it := new Lines(s, p);
    lines := [];
    while true
      invariant lines + SplitLines(it.stream, p) == SplitLines(s, p)
      invariant it.isSep == p
      decreases |it.stream|
    {
      ghost var before := it.stream;
      var item := it.Next();
      SplitLinesNext(before, p, item, it.stream);
      match item {
        case None =>
          assert lines == lines + SplitLines(before, p);
          return;
        case Some(l) =>
          assert lines + SplitLines(before, p) == (lines + [l]) + SplitLines(it.stream, p);
          lines := lines + [l];
      }
    }
  }

  // ---------------------------------------------------------------------
  // `c_defns`

  const SPACE: Byte := 0x20

  predicate IsSpace(b: Byte)
  {
    b == SPACE
  }

  /** A definition: a key and its value text. */
  type Def = (seq<Byte>, seq<Byte>)

  /** `#define `, in ASCII. */
  const DEFINE_PREFIX: seq<Byte> := [0x23, 0x64, 0x65, 0x66, 0x69, 0x6E, 0x65, 0x20]

  /** A line after its `#define `: the key runs up to the first space and
      the value is everything after it; both must be UTF-8. */
  function SplitDefinition(rest: seq<Byte>): (r: Option<Def>)
    ensures SPACE !in rest ==> r.None?
    ensures r.Some? ==> rest == r.value.0 + [SPACE] + r.value.1 && SPACE !in r.value.0
    ensures r.Some? ==> Utf8.Valid(r.value.0) && Utf8.Valid(r.value.1)
  {
    match Slices.Position(rest, IsSpace)
    case None => None
    case Some(k) =>
      var v := rest[k + 1..];
      var key := rest[..k];
      assert rest == key + [SPACE] + v;
      if !Utf8.Valid(v) || !Utf8.Valid(key) then None else Some((key, v))
  }

  /** A line that starts with `pre` and continues with `key`, a space and
      `v` is the concatenation of those. */
  lemma Rejoin(pre: seq<Byte>, l: seq<Byte>, key: seq<Byte>, v: seq<Byte>)
    requires |pre| <= |l| && l[..|pre|] == pre && l[|pre|..] == key + [SPACE] + v
    ensures l == pre + key + [SPACE] + v
  {
    assert l == l[..|pre|] + l[|pre|..];
  }

  /** The converse: the concatenation starts with `pre`, followed by the
      rest. */
  lemma Unjoin(pre: seq<Byte>, key: seq<Byte>, v: seq<Byte>)
    ensures var l := pre + key + [SPACE] + v;
      |pre| <= |l| && l[..|pre|] == pre && l[|pre|..] == key + [SPACE] + v
  {
    var l := pre + key + [SPACE] + v;
    assert l == pre + (key + [SPACE] + v);
  }

  /** The definition on one preprocessor output line: the line must start
      with `#define `, and the rest must split into a key and a value. */
  function ParseDefine(l: seq<Byte>): (r: Option<Def>)
    ensures |l| < 8 || l[..8] != DEFINE_PREFIX || SPACE !in l[8..] ==> r.None?
    ensures r.Some? ==> l == DEFINE_PREFIX + r.value.0 + [SPACE] + r.value.1 && SPACE !in r.value.0
    ensures r.Some? ==> Utf8.Valid(r.value.0) && Utf8.Valid(r.value.1)
  {
    if |l| < 8 || l[..8] != DEFINE_PREFIX then None
    else
      var r := SplitDefinition(l[8..]);
      if r.Some? then Rejoin(DEFINE_PREFIX, l, r.value.0, r.value.1); r else r
  }

  /** A key without spaces, a space and a value split back into the key
      and the value. */
  lemma SplitDefinitionRoundTrip(key: seq<Byte>, v: seq<Byte>)
    requires SPACE !in key && Utf8.Valid(key) && Utf8.Valid(v)
    ensures SplitDefinition(key + [SPACE] + v) == Some((key, v))
  {
    var rest := key + [SPACE] + v;
    assert rest[|key|] == SPACE;
    assert Slices.Position(rest, IsSpace) == Some(|key|);
    assert rest[..|key|] == key && rest[|key| + 1..] == v;
  }

  /** A line written as `#define KEY VALUE`, with a key without spaces and
      both parts UTF-8, parses back to its key and value. */
  lemma ParseDefineRoundTrip(key: seq<Byte>, v: seq<Byte>)
    requires SPACE !in key && Utf8.Valid(key) && Utf8.Valid(v)
    ensures ParseDefine(DEFINE_PREFIX + key + [SPACE] + v) == Some((key, v))
  {
    Unjoin(DEFINE_PREFIX, key, v);
    SplitDefinitionRoundTrip(key, v);
  }

  /** The definitions `c_defns` passes on, in output order. */
  function Defines(lines: seq<seq<Byte>>): seq<Def>
  {
    if lines == [] then []
    else match ParseDefine(lines[0])
      case None => Defines(lines[1..])
      case Some(kv) => [kv] + Defines(lines[1..])
  }

  /** `c_defns` over the preprocessor's output: its lines, filtered and
      split into key and value. */
  method CDefns(output: seq<Byte>) returns (defs: seq<Def>)
    ensures defs == Defines(SplitLines(output, IsNewline))
  {
    var it := new Lines(output, IsNewline);
    defs := [];
    while true
      invariant it.isSep == IsNewline
      invariant defs + Defines(SplitLines(it.stream, IsNewline)) == Defines(SplitLines(output, IsNewline))
      decreases |it.stream|
    {
      ghost var before := it.stream;
      var item := it.Next();
      SplitLinesNext(before, IsNewline, item, it.stream);
      match item {
        case None =>
          assert Defines(SplitLines(before, IsNewline)) == [];
          return;
        case Some(l) =>
          DefinesCons(defs, l, SplitLines(it.stream, IsNewline));
          var d := ParseDefine(l);
          if d.Some? {
            defs := defs + [d.value];
          }
      }
    }
  }

  /** The definitions of a line followed by more lines, after those
      collected so far. */
  lemma DefinesCons(defs: seq<Def>, l: seq<Byte>, rest: seq<seq<Byte>>)
    ensures var d := ParseDefine(l);
      && (d.Some? ==> defs + Defines([l] + rest) == (defs + [d.value]) + Defines(rest))
      && (d.None? ==> defs + Defines([l] + rest) == defs + Defines(rest))
  {
    assert ([l] + rest)[1..] == rest;
    var d := ParseDefine(l);
    if d.Some? {
      assert Defines([l] + rest) == [d.value] + Defines(rest);
      assert defs + ([d.value] + Defines(rest)) == (defs + [d.value]) + Defines(rest);
    }
  }

  // ---------------------------------------------------------------------
  // `go`

  /** `usize::from_str` on the (64-bit) build host accepts values below this. */
  const USIZE_LIMIT: nat := 0x1_0000_0000_0000_0000

  /** What a definition becomes: a number, or an alias of another name. */
  datatype Value = Number(n: nat) | Alias(name: seq<Byte>)

  /** What `go` collects: `es[n]` names number `n`; `xs` lists every
      emitted constant with its value. */
  datatype Tables = Tables(es: seq<Option<seq<Byte>>>, xs: seq<(seq<Byte>, Value)>)

  /** What `go` emits for the definition `e = n`: nothing unless `e != n`
      and `e` passes `p`; a number when `n` is decimal; an alias when `n`
      itself passes `p`; otherwise nothing. */
  function Emit(d: Def, p: seq<Byte> -> bool): (r: Option<Value>)
    ensures r.Some? ==> d.0 != d.1 && p(d.0)
    ensures r.Some? && r.value.Number? ==> Decimal.Parse(d.1, USIZE_LIMIT) == Some(r.value.n)
    ensures r.Some? && r.value.Alias? ==>
              r.value.name == d.1 && p(d.1) && Decimal.Parse(d.1, USIZE_LIMIT).None?
    ensures r.None? <==> d.0 == d.1 || !p(d.0) || (Decimal.Parse(d.1, USIZE_LIMIT).None? && !p(d.1))
  {
    var (e, n) := d;
    if e == n || !p(e) then None
    else match Decimal.Parse(n, USIZE_LIMIT)
      case Some(v) => Some(Number(v))
      case None => if p(n) then Some(Alias(n)) else None
  }

  /** The tables after the definitions `defs`, in order. */
  function GoFold(defs: seq<Def>, p: seq<Byte> -> bool): Tables
  {
    if defs == [] then Tables([], [])
    else Step(GoFold(defs[..|defs| - 1], p), defs[|defs| - 1], p)
  }

  /** The tables after one more definition `d`. */
  function Step(t: Tables, d: Def, p: seq<Byte> -> bool): Tables
  {
    match Emit(d, p)
    case None => t
    case Some(Number(v)) => Tables(Put(t.es, v, d.0), t.xs + [(d.0, Number(v))])
    case Some(Alias(m)) => Tables(t.es, t.xs + [(d.0, Alias(m))])
  }

  /** `Step` along the branches `go` takes. */
  lemma StepCases(t: Tables, d: Def, p: seq<Byte> -> bool)
    ensures d.0 == d.1 || !p(d.0) ==> Step(t, d, p) == t
    ensures var v := Decimal.Parse(d.1, USIZE_LIMIT);
      d.0 != d.1 && p(d.0) && v.Some? ==>
        Step(t, d, p) == Tables(Put(t.es, v.value, d.0), t.xs + [(d.0, Number(v.value))])
    ensures d.0 != d.1 && p(d.0) && Decimal.Parse(d.1, USIZE_LIMIT).None? ==>
      Step(t, d, p) == if p(d.1) then Tables(t.es, t.xs + [(d.0, Alias(d.1))]) else t
  {
  }

  /** `go`: runs `c_defns` over the preprocessor output and collects the
      tables (the lines it writes alongside are not modelled). */
  method Go(output: seq<Byte>, p: seq<Byte> -> bool) returns (es: seq<Option<seq<Byte>>>, xs: seq<(seq<Byte>, Value)>)
    ensures Tables(es, xs) == GoFold(Defines(SplitLines(output, IsNewline)), p)
  {
    var defs := CDefns(output);
    es := [];
    xs := [];
    for i := 0 to |defs|
      invariant Tables(es, xs) == GoFold(defs[..i], p)
    {
      assert defs[..i + 1][..i] == defs[..i];
      assert GoFold(defs[..i + 1], p) == Step(Tables(es, xs), defs[i], p);
      StepCases(Tables(es, xs), defs[i], p);
      var (e, n) := defs[i];
      if e != n && p(e) {
        match Decimal.Parse(n, USIZE_LIMIT) {
          case Some(v) =>
            xs := xs + [(e, Number(v))];
            var prev;
            es, prev := PutOpt(es, v, e);
          case None =>
            if p(n) {
              xs := xs + [(e, Alias(n))];
            }
        }
      }
    }
    assert defs[..|defs|] == defs;
  }

  /** The number definition `d` records, if any. */
  function Numbered(d: Def, p: seq<Byte> -> bool): Option<nat>
  {
    match Emit(d, p)
    case Some(Number(v)) => Some(v)
    case _ => None
  }

  /** The numbers definitions record under the name predicate `p`. */
  function Recorded(p: seq<Byte> -> bool): Def -> Option<nat>
  {
    d => Numbered(d, p)
  }

  /** The name table `put_opt` builds when definition `d` records the
      number `num(d)`, if any, under its key. */
  function NameTable(defs: seq<Def>, num: Def -> Option<nat>): seq<Option<seq<Byte>>>
  {
    if defs == [] then []
    else
      var es := NameTable(defs[..|defs| - 1], num);
      var d := defs[|defs| - 1];
      match num(d)
      case Some(v) => Put(es, v, d.0)
      case None => es
  }

  /** The name table `go` collects is the `put_opt` table of the numbers
      its definitions record. */
  lemma {:induction false} GoFoldNames(defs: seq<Def>, p: seq<Byte> -> bool)
    ensures GoFold(defs, p).es == NameTable(defs, Recorded(p))
  {
    if defs != [] {
      GoFoldNames(defs[..|defs| - 1], p);
    }
  }

  /** The index of the last definition that records number `n`. */
  function LastNumbered(defs: seq<Def>, num: Def -> Option<nat>, n: nat): (r: Option<nat>)
    ensures r.Some? ==> r.value < |defs| && num(defs[r.value]) == Some(n)
    ensures r.Some? ==> forall j :: r.value < j < |defs| ==> num(defs[j]) != Some(n)
    ensures r.None? ==> forall j :: 0 <= j < |defs| ==> num(defs[j]) != Some(n)
  {
    if defs == [] then None
    else if num(defs[|defs| - 1]) == Some(n) then Some(|defs| - 1)
    else
      var r := LastNumbered(defs[..|defs| - 1], num, n);
      assert forall j :: 0 <= j < |defs| - 1 ==> defs[..|defs| - 1][j] == defs[j];
      r
  }

  /** The key of the last definition that records number `n`. */
  function NameOf(defs: seq<Def>, num: Def -> Option<nat>, n: nat): (r: Option<seq<Byte>>)
    ensures r == match LastNumbered(defs, num, n) case Some(i) => Some(defs[i].0) case None => None
  {
    if defs == [] then None
    else if num(defs[|defs| - 1]) == Some(n) then Some(defs[|defs| - 1].0)
    else
      var init := defs[..|defs| - 1];
      var r := NameOf(init, num, n);
      assert match LastNumbered(init, num, n) case Some(i) => init[i] == defs[i] case None => true;
      r
  }

  /** Slot `n` of a `put_opt` table holds the key of the last definition
      recording `n`; the last slot is never empty. */
  lemma {:induction false} TableSlots(defs: seq<Def>, num: Def -> Option<nat>, n: nat)
    ensures Slot(NameTable(defs, num), n, NameOf(defs, num, n))
    ensures var es := NameTable(defs, num); |es| > 0 ==> es[|es| - 1].Some?
  {
    if defs != [] {
      var init := defs[..|defs| - 1];
      var d := defs[|defs| - 1];
      TableSlots(init, num, n);
      match num(d)
      case Some(v) => PutSlot(NameTable(init, num), v, d.0, n, NameOf(init, num, n));
      case None =>
    }
  }

  /** The name table: slot `n` holds the key of the last definition with
      decimal value `n`, and is empty when there is none; the last slot is
      never empty. */
  lemma NamesAreLastNumbered(defs: seq<Def>, p: seq<Byte> -> bool, n: nat)
    ensures Slot(GoFold(defs, p).es, n, NameOf(defs, Recorded(p), n))
    ensures var es := GoFold(defs, p).es; |es| > 0 ==> es[|es| - 1].Some?
  {
    GoFoldNames(defs, p);
    TableSlots(defs, Recorded(p), n);
  }

  /** Slot `n` of a table holds `want`, or is missing or empty when
      `want` is `None`. */
  ghost predicate Slot<A>(es: seq<Option<A>>, n: nat, want: Option<A>)
  {
    match want
    case None => n >= |es| || es[n].None?
    case Some(x) => n < |es| && es[n] == Some(x)
  }

  /** `put_opt` at `v` fills slot `v` and leaves every other slot's
      contents alone; the last slot stays full. */
  lemma PutSlot<A>(xs: seq<Option<A>>, v: nat, x: A, n: nat, want: Option<A>)
    requires Slot(xs, n, want) && (|xs| > 0 ==> xs[|xs| - 1].Some?)
    ensures var ys := Put(xs, v, x);
      Slot(ys, n, if n == v then Some(x) else want) && ys[|ys| - 1].Some?
  {
  }

  /** Every emitted constant's name passes the predicate; an alias names
      another constant that passes it too, and a number is the decimal
      value of its definition. */
  lemma {:induction false} EmittedPass(defs: seq<Def>, p: seq<Byte> -> bool)
    ensures var xs := GoFold(defs, p).xs;
      |xs| <= |defs|
      && forall j :: 0 <= j < |xs| ==>
           && p(xs[j].0)
           && (xs[j].1.Alias? ==> p(xs[j].1.name) && xs[j].1.name != xs[j].0)
           && (xs[j].1.Number? ==> exists i :: 0 <= i < |defs| && defs[i].0 == xs[j].0
                                        && Decimal.Parse(defs[i].1, USIZE_LIMIT) == Some(xs[j].1.n))
  {
    if defs != [] {
      var init := defs[..|defs| - 1];
      EmittedPass(init, p);
      assert forall i :: 0 <= i < |init| ==> init[i] == defs[i];
    }
  }

  // ---------------------------------------------------------------------
  // The name predicates

  /** Error names start with `E`. */
  predicate IsErrorName(s: seq<Byte>)
  {
    |s| > 0 && s[0] == 0x45
  }

  /** An ASCII upper-case letter. */
  predicate IsUpper(b: Byte)
  {
    0x41 <= b <= 0x5A
  }

  /** Signal names start with `SIG` followed by an upper-case letter. */
  predicate IsSignalName(s: seq<Byte>)
  {
    |s| >= 3 && s[..3] == [0x53, 0x49, 0x47] && |s| > 3 && IsUpper(s[3])
  }

  /** Exactly the names `SIG`, then an upper-case letter, then anything,
      are signal names; exactly those starting with `E` are error names. */
  lemma NameShapes(s: seq<Byte>, c: Byte, t: seq<Byte>)
    ensures IsSignalName(Ascii("SIG") + [c] + t) <==> IsUpper(c)
    ensures IsSignalName(s) ==> s == Ascii("SIG") + [s[3]] + s[4..]
    ensures IsErrorName(Ascii("E") + t)
    ensures IsErrorName(s) ==> s == Ascii("E") + s[1..]
  {
    var n := Ascii("SIG") + [c] + t;
    assert n[..3] == Ascii("SIG") && n[3] == c;
    if IsSignalName(s) {
      assert s == s[..3] + [s[3]] + s[4..];
    }
  }

  /** `SIGINT` is a signal name; `SIG_DFL` and `SIG` are not. */
  lemma SignalNameExamples()
    ensures IsSignalName(Ascii("SIGINT"))
    ensures !IsSignalName(Ascii("SIG_DFL")) && !IsSignalName(Ascii("SIG"))
    ensures IsErrorName(Ascii("EAGAIN")) && !IsErrorName(Ascii("SIGINT"))
  {
    assert Ascii("SIGINT")[..3] == Ascii("SIG");
    assert Ascii("SIG_DFL")[3] == 0x5F;
  }

  // ---------------------------------------------------------------------
  // `do_name_array`

  /** `{:?}` of an `Option<String>` naming an identifier. */
  function DebugName(name: Option<seq<Byte>>): seq<Byte>
  {
    match name
    case None => Ascii("None")
    case Some(s) => Ascii("Some(\"") + s + Ascii("\")")
  }

  /** The header line up to the declared length. */
  function HeaderStart(arrayName: seq<Byte>): seq<Byte>
  {
    Ascii("const ") + arrayName + Ascii(": [Option<&'static str>; ")
  }

  /** The end of the header line, after the declared length. */
  function HeaderEnd(): (r: seq<Byte>)
    ensures |r| == 5
  {
    Ascii("] = [")
  }

  /** The element line for one name. */
  function NameLine(name: Option<seq<Byte>>): seq<Byte>
  {
    Ascii("    ") + DebugName(name) + Ascii(",")
  }

  /** The closing line. */
  function Closing(): seq<Byte>
  {
    Ascii("];")
  }

  /** The header line declaring `n` elements. */
  function Header(arrayName: seq<Byte>, n: nat): seq<Byte>
  {
    HeaderStart(arrayName) + Decimal.Show(n) + HeaderEnd()
  }

  /** The lines `do_name_array` writes: a header declaring the array's
      length, one line per name, and the closing line. */
  function DoNameArray(arrayName: seq<Byte>, names: seq<Option<seq<Byte>>>): seq<seq<Byte>>
  {
    [Header(arrayName, |names|)]
    + seq(|names|, i requires 0 <= i < |names| => NameLine(names[i]))
    + [Closing()]
  }

  /** The length declared in the header reads back as the number of names,
      and the array has one element line per name, in order, between the
      header and the closing line. */
  lemma NameArrayLength(arrayName: seq<Byte>, names: seq<Option<seq<Byte>>>)
    requires |names| < USIZE_LIMIT
    ensures var lines := DoNameArray(arrayName, names);
      && |lines| == |names| + 2
      && |HeaderStart(arrayName)| + |HeaderEnd()| <= |lines[0]|
      && lines[0][..|HeaderStart(arrayName)|] == HeaderStart(arrayName)
      && Decimal.Parse(lines[0][|HeaderStart(arrayName)|..|lines[0]| - 5], USIZE_LIMIT) == Some(|names|)
      && (forall i :: 0 <= i < |names| ==> lines[i + 1] == NameLine(names[i]))
      && lines[|names| + 1] == Closing()
  {
    Decimal.ParseShow(|names|, USIZE_LIMIT);
    Middle(HeaderStart(arrayName), Decimal.Show(|names|), HeaderEnd());
  }

  /** The parts of a three-part concatenation sit where expected. */
  lemma Middle(a: seq<Byte>, b: seq<Byte>, c: seq<Byte>)
    ensures var s := a + b + c;
      && |a| + |c| <= |s|
      && s[..|a|] == a
      && s[|a|..|s| - |c|] == b
  {
    var s := a + b + c;
    assert s[..|a|] == a;
    assert s[|a|..|s| - |c|] == b;
  }
}
