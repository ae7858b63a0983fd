/** `src/file.rs`, all but the atomic replacement protocol: permission
    bit arithmetic, the mode truncation of `Stat::from`, directory
    resolution, and temporary-name generation with bounded retry. */
module Files {
  import opened Base
  import opened Errors
  import OsStrings

  // ---------------------------------------------------------------------
  // Permission bits

  /** `FileMode`: the bits SUID|SGID|SVTX|0o777, i.e. 0o7777 (0xFFF). */
  type FileMode = m: bv16 | m & 0xFFF == m
  const MODE_BITS: bv16 := 0xFFF

  /** `FilePermission`: Read = 4, Write = 2, Exec = 1. */
  type Perm = p: bv8 | p & 7 == p
  const READ: Perm := 4
  const WRITE: Perm := 2
  const EXEC: Perm := 1

  /** Which agent a group of three mode bits belongs to. */
  datatype FileModeSection = USR | GRP | OTH

  /** `FileModeSection::pos`: where the section's bits start. */
  function Pos(sect: FileModeSection): nat
  {
    match sect
    case USR => 6
    case GRP => 3
    case OTH => 0
  }

  /** `perm << sect`: the permission bits placed in the section. */
  function Shl(perm: Perm, sect: FileModeSection): (m: FileMode)
    ensures m >> Pos(sect) == perm as bv16
    ensures m & !((7 as bv16) << Pos(sect)) == 0
  {
    ((perm as bv16) << Pos(sect)) & MODE_BITS
  }

  /** `mode >> sect` as written: the section's bits masked with 3, so the
      Read bit never comes back. */
  function Shr(mode: FileMode, sect: FileModeSection): (p: Perm)
    ensures p as bv16 == (mode >> Pos(sect)) & 3
    ensures p & READ == 0
  {
    (((mode >> Pos(sect)) & 3) as bv8) & 7
  }

  /** `mode >> sect` as evidently intended: the section's three bits. */
  function ShrIntended(mode: FileMode, sect: FileModeSection): (p: Perm)
    ensures p as bv16 == (mode >> Pos(sect)) & 7
  {
    ((mode >> Pos(sect)) & 7) as bv8
  }

  /** As written, shifting a permission in and back out keeps only its
      Write and Exec bits ... */
  lemma ShlShrKeepsWriteExec(perm: Perm, sect: FileModeSection)
    ensures Shr(Shl(perm, sect), sect) == perm & (WRITE | EXEC)
  {
  }

  /** ... so Read, shifted in and out again, comes back empty. */
  lemma ShrDropsRead()
    ensures Shl(READ, USR) == 0x100
    ensures Shr(Shl(READ, USR), USR) == 0
  {
  }

  /** With the intended mask the round trip is exact in every section. */
  lemma ShlShrRoundTrip(perm: Perm, sect: FileModeSection)
    ensures ShrIntended(Shl(perm, sect), sect) == perm
  {
  }

  /** The modes the library creates with: 0o600 for files, 0o700 for directories. */
  lemma CreationModes()
    ensures Shl(READ | WRITE, USR) == 0x180
    ensures Shl(READ | WRITE | EXEC, USR) == 0x1C0
  {
  }

  /** The file-type bits of `st_mode` for a regular file (S_IFREG, 0o100000). */
  const S_IFREG: bv32 := 0x8000

  /** `x as u16`: the low 16 bits. */
  function AsU16(x: bv32): bv16
  {
    (x & 0xFFFF) as bv16
  }

  /** `Stat::from`'s `mode`: `st_mode` cast to `u16`, then truncated to
      the mode bits. */
  function StatMode(stMode: bv32): FileMode
  {
    AsU16(stMode) & MODE_BITS
  }

  /** Truncation strips the file type: whatever type bits sit above the
      mode bits in `st_mode`, the mode read back is exactly the file's
      permission bits. */
  lemma StatModeDropsType(fileType: bv32, m: FileMode)
    requires fileType & MODE_BITS as bv32 == 0
    ensures StatMode(fileType | m as bv32) == m
  {
  }

  // ---------------------------------------------------------------------
  // Directories and clobber policy

  /** A file descriptor owned by a `File`. */
  datatype File = File(fd: int)

  /** The "current directory" sentinel of the `*at` calls. */
  const AT_FDCWD: int := -100

  /** `from_opt_dir`: the descriptor that `*at` calls resolve paths against. */
  function FromOptDir(optDir: Option<File>): (fd: int)
    ensures optDir.None? ==> fd == AT_FDCWD
    ensures optDir.Some? ==> fd == optDir.value.fd
  {
    match optDir
    case None => AT_FDCWD
    case Some(dir) => dir.fd
  }

  /** What to do when a file already exists at the target path. */
  datatype Clobber = NoClobber | Clobber | ClobberSavingPerms

  // ---------------------------------------------------------------------
  // Temporary names

  /** `'Z' - '@'` (0x5A - 0x40): the number of letters. */
  const BASE: nat := 26
  const LETTER_A: Byte := 'A' as int

  function Pow(b: nat, k: nat): (r: nat)
    ensures r > 0 || b == 0
  {
    if k == 0 then 1 else b * Pow(b, k - 1)
  }

  /** The bytes `randname` writes: `count` base-26 digits of `n` as the
      letters 'A'..'Z', least significant first. */
  function Letters(n: nat, count: nat): (r: seq<Byte>)
    ensures |r| == count
  {
    if count == 0 then []
    else [LETTER_A + n % BASE] + Letters(n / BASE, count - 1)
  }

  lemma MulLe(d: nat, x: nat, y: nat)
    requires x <= y
    ensures d * x <= d * y
  {
    var k := y - x;
    assert d * y == d * x + d * k;
  }

  lemma MulDistrib(d: nat, x: nat, y: nat)
    ensures d * (x + y) == d * x + d * y
  {
  }

  lemma MulAssoc(x: nat, y: nat, z: nat)
    ensures x * (y * z) == (x * y) * z
  {
  }

  lemma MulStrict(d: nat, x: nat, y: nat)
    ensures x < y ==> d * x + d <= d * y
  {
    if x < y {
      MulDistrib(d, x, 1);
      MulLe(d, x + 1, y);
    }
  }

  lemma DivUnique(a: nat, d: nat, q: nat, r: nat)
    requires d > 0 && r < d && a == d * q + r
    ensures a / d == q
  {
    var q' := a / d;
    assert a == d * q' + a % d;
    MulStrict(d, q', q);
    MulStrict(d, q, q');
  }

  lemma DivDiv(a: nat, b: nat, c: nat)
    requires b > 0 && c > 0
    ensures a / b / c == a / (b * c)
  {
    var q := a / b;
    var q2 := q / c;
    var r1 := a % b;
    var r2 := q % c;
    assert a == b * q + r1;
    assert q == c * q2 + r2;
    MulDistrib(b, c * q2, r2);
    MulAssoc(b, c, q2);
    MulLe(b, r2, c - 1);
    MulDistrib(b, c - 1, 1);
    DivUnique(a, b * c, q2, b * r2 + r1);
  }

  /** Byte `i` is digit `i` of `n` in base 26, and hence a capital letter. */
  lemma {:induction false} LetterAt(n: nat, count: nat, i: nat)
    requires i < count
    ensures Letters(n, count)[i] == LETTER_A + (n / Pow(BASE, i)) % BASE
    ensures 'A' as int <= Letters(n, count)[i] <= 'Z' as int
  {
    if i > 0 {
      LetterAt(n / BASE, count - 1, i - 1);
      DivDiv(n, BASE, Pow(BASE, i - 1));
    }
  }

  /** `randname`: overwrite `bs[lo..hi]` with the letters of the draw `n`. */
  method RandName(bs: array<Byte>, lo: nat, hi: nat, n: U64)
    requires lo <= hi <= bs.Length
    modifies bs
    ensures bs[..] == old(bs[..lo]) + Letters(n, hi - lo) + old(bs[hi..])
  {
    ghost var pre, orig := bs[..lo], bs[..];
    var m: nat := n;
    for p := lo to hi
      invariant m == Shifted(n, p - lo)
      invariant bs[..] == pre + Letters(n, p - lo) + orig[p..]
    {
      ghost var before := bs[..];
      bs[p] := LETTER_A + m % BASE;
      NextLetter(pre, orig, n, p - lo, before, bs[..]);
      m := m / BASE;
    }
    assert orig[hi..] == old(bs[hi..]);
  }

  /** `n` divided by the base `k` times: what `n /= base` leaves after
      `k` letters. */
  function Shifted(n: nat, k: nat): nat
  {
    if k == 0 then n else Shifted(n, k - 1) / BASE
  }

  /** Storing the next letter: the written prefix grows by the next digit
      of `n`. */
  lemma NextLetter(pre: seq<Byte>, orig: seq<Byte>, n: nat, k: nat,
                   before: seq<Byte>, after: seq<Byte>)
    requires |pre| + k < |orig|
    requires before == pre + Letters(n, k) + orig[|pre| + k..]
    requires after == before[|pre| + k := LETTER_A + Shifted(n, k) % BASE]
    ensures after == pre + Letters(n, k + 1) + orig[|pre| + k + 1..]
  {
    LettersSnoc(n, k);
  }

  /** Dividing first and then `k` times is dividing `k + 1` times. */
  lemma {:induction false} ShiftedFirst(n: nat, k: nat)
    ensures Shifted(n / BASE, k) == Shifted(n, k + 1)
  {
    if k > 0 {
      ShiftedFirst(n, k - 1);
    }
  }

  /** Appending one more digit to the letters of `n`. */
  lemma {:induction false} LettersSnoc(n: nat, count: nat)
    ensures Letters(n, count + 1) == Letters(n, count) + [LETTER_A + Shifted(n, count) % BASE]
  {
    if count > 0 {
      LettersSnoc(n / BASE, count - 1);
      ShiftedFirst(n, count - 1);
    }
  }

  /** Number of names `mktemp_helper` tries before giving up. */
  const TRIES: nat := 0x100

  predicate IsEexist<A>(r: Result<A>) { r.Err? && r.error == EEXIST }

  /** The template as attempt `i` presents it: `templ` with its range
      replaced by the letters of the `i`-th draw. */
  function Candidate(templ: seq<Byte>, lo: nat, hi: nat, draw: nat -> U64, i: nat): (t: seq<Byte>)
    requires lo <= hi <= |templ|
    ensures |t| == |templ| && t[..lo] == templ[..lo] && t[hi..] == templ[hi..]
  {
    templ[..lo] + Letters(draw(i), hi - lo) + templ[hi..]
  }

  /** Outcome of `mktemp_helper`: its result, the template it leaves
      behind and the number of times it called `f`. */
  datatype Mktemp<A> = Mktemp(result: Result<A>, templ: seq<Byte>, calls: nat)

  /** `mktemp_helper` from attempt `i` on: rename, call `f`, retry only on
      `EEXIST`, give up with `EEXIST` after `TRIES` attempts. */
  function Attempts<A>(f: seq<Byte> -> Result<A>, templ: seq<Byte>, lo: nat, hi: nat,
                       draw: nat -> U64, i: nat): Mktemp<A>
    requires lo <= hi <= |templ| && i < TRIES
    decreases TRIES - i
  {
    var t := Candidate(templ, lo, hi, draw, i);
    if IsEexist(f(t)) && i + 1 < TRIES then Attempts(f, templ, lo, hi, draw, i + 1)
    else Mktemp(f(t), t, i + 1)
  }

  /** One attempt: the answer to candidate `i` ends the run unless it is
      `EEXIST` with attempts left. */
  lemma AttemptsStep<A>(f: seq<Byte> -> Result<A>, templ: seq<Byte>, lo: nat, hi: nat,
                        draw: nat -> U64, i: nat)
    requires lo <= hi <= |templ| && i < TRIES
    ensures var t := Candidate(templ, lo, hi, draw, i);
      && (!IsEexist(f(t)) ==> Attempts(f, templ, lo, hi, draw, i) == Mktemp(f(t), t, i + 1))
      && (IsEexist(f(t)) && i + 1 < TRIES ==>
            Attempts(f, templ, lo, hi, draw, i) == Attempts(f, templ, lo, hi, draw, i + 1))
      && (IsEexist(f(t)) && i + 1 == TRIES ==> Attempts(f, templ, lo, hi, draw, i) == Mktemp(Err(EEXIST), t, TRIES))
  {
  }

  /** At most `TRIES` calls; the result is `EEXIST` exactly when every
      call said `EEXIST`; otherwise it is, verbatim, the first answer that
      was not `EEXIST`, after `EEXIST` from every earlier call; only the
      range of the template changes. */
  lemma {:induction false} AttemptsSpec<A>(f: seq<Byte> -> Result<A>, templ: seq<Byte>, lo: nat, hi: nat,
                                           draw: nat -> U64, i: nat)
    requires lo <= hi <= |templ| && i < TRIES
    ensures var m := Attempts(f, templ, lo, hi, draw, i);
      && i < m.calls <= TRIES
      && m.templ == Candidate(templ, lo, hi, draw, m.calls - 1)
      && m.result == f(m.templ)
      && (forall j :: i <= j < m.calls - 1 ==> IsEexist(f(Candidate(templ, lo, hi, draw, j))))
      && (IsEexist(m.result) ==> m.calls == TRIES)
      && (IsEexist(m.result) <==> forall j :: i <= j < TRIES ==> IsEexist(f(Candidate(templ, lo, hi, draw, j))))
    decreases TRIES - i
  {
    var t := Candidate(templ, lo, hi, draw, i);
    if IsEexist(f(t)) && i + 1 < TRIES {
      AttemptsSpec(f, templ, lo, hi, draw, i + 1);
    }
  }

  /** Overwriting bytes before `hi` keeps a terminator after it. */
  lemma KeepsTerminator(t: seq<Byte>, t0: seq<Byte>, hi: nat)
    requires hi < |t| == |t0| && t[hi..] == t0[hi..] && OsStrings.NulTerminated(t0)
    ensures OsStrings.NulTerminated(t)
  {
    assert t[|t| - 1] == t[hi..][|t| - 1 - hi];
  }

  /** Renaming a template that agrees with `templ` outside the range gives
      candidate `i`. */
  lemma Renamed(templ: seq<Byte>, before: seq<Byte>, after: seq<Byte>, lo: nat, hi: nat,
                draw: nat -> U64, i: nat)
    requires lo <= hi <= |templ| == |before|
    requires before[..lo] == templ[..lo] && before[hi..] == templ[hi..]
    requires after == before[..lo] + Letters(draw(i), hi - lo) + before[hi..]
    ensures after == Candidate(templ, lo, hi, draw, i)
  {
  }

  /** `mktemp_helper`: try up to `TRIES` fresh names in `templ[lo..hi]`,
      calling `f` on the whole template each time; `draw(i)` is the
      generator's `i`-th value. The template is an `OsStr` and the range
      indexes its view, which stops before the terminator: a range that
      reaches the NUL panics, hence the precondition. */
  method MktempHelper<A>(f: seq<Byte> -> Result<A>, templ: array<Byte>, lo: nat, hi: nat, draw: nat -> U64)
      returns (r: Result<A>)
    requires lo <= hi < templ.Length && OsStrings.NulTerminated(templ[..])
    modifies templ
    ensures var m := Attempts(f, old(templ[..]), lo, hi, draw, 0);
      r == m.result && templ[..] == m.templ && OsStrings.NulTerminated(templ[..])
  {
    ghost var t0 := templ[..];
    for i := 0 to TRIES
      invariant templ[..lo] == t0[..lo] && templ[hi..] == t0[hi..]
      invariant i < TRIES ==> Attempts(f, t0, lo, hi, draw, 0) == Attempts(f, t0, lo, hi, draw, i)
      invariant i == TRIES ==> Attempts(f, t0, lo, hi, draw, 0) == Mktemp(Err(EEXIST), templ[..], TRIES)
    {
      ghost var before := templ[..];
      RandName(templ, lo, hi, draw(i));
      Renamed(t0, before, templ[..], lo, hi, draw, i);
      AttemptsStep(f, t0, lo, hi, draw, i);
      r := f(templ[..]);
      if !IsEexist(r) {
        KeepsTerminator(templ[..], t0, hi);
        return;
      }
    }
    KeepsTerminator(templ[..], t0, hi);
    r := Err(EEXIST);
  }

  // ---------------------------------------------------------------------
  // Opening, and creating a uniquely named file

  /** Open flags (Linux values). */
  const O_RDWR: bv64 := 0x2
  const O_CREAT: bv64 := 0x40
  const O_EXCL: bv64 := 0x80

  /** The arguments of an `openat` system call. */
  datatype OpenCall = OpenCall(dirfd: int, path: seq<Byte>, flags: bv64, mode: Option<FileMode>)

  /** The call `open_at` makes: `O_CREAT` and the mode are passed exactly
      when a creation mode is given. */
  function OpenRequest(optDir: Option<File>, path: seq<Byte>, oMode: bv64, fMode: Option<FileMode>): OpenCall
  {
    match fMode
    case None => OpenCall(FromOptDir(optDir), path, oMode, None)
    case Some(m) => OpenCall(FromOptDir(optDir), path, oMode | O_CREAT, Some(m))
  }

  /** `open_at`: the kernel's reply to the call, as a `File` or an error. */
  function OpenAt(optDir: Option<File>, path: seq<Byte>, oMode: bv64, fMode: Option<FileMode>,
                  kernel: OpenCall -> SysRet): (r: Result<File>)
    ensures r.Ok? <==> kernel(OpenRequest(optDir, path, oMode, fMode)) >= 0
    ensures r.Ok? ==> r.value.fd == kernel(OpenRequest(optDir, path, oMode, fMode))
    ensures r.Err? ==> r.error == -kernel(OpenRequest(optDir, path, oMode, fMode))
  {
    match FromSysret(kernel(OpenRequest(optDir, path, oMode, fMode)))
    case Ok(fd) => Ok(File(fd))
    case Err(e) => Err(e)
  }

  /** The `f` that `mktemp_at` hands to `mktemp_helper`. */
  function TempFileOpener(optDir: Option<File>, flags: bv64, kernel: OpenCall -> SysRet): seq<Byte> -> Result<File>
  {
    path => OpenAt(optDir, path, O_RDWR | flags | O_EXCL, Some(Shl(READ | WRITE, USR)), kernel)
  }

  /** Every name `mktemp_at` tries is opened read-write with `O_CREAT` and
      `O_EXCL` (so only a file this call creates is ever opened), mode 0o600,
      against the directory `opt_dir` resolves to. */
  lemma TempFileRequest(optDir: Option<File>, path: seq<Byte>, flags: bv64)
    ensures var c := OpenRequest(optDir, path, O_RDWR | flags | O_EXCL, Some(Shl(READ | WRITE, USR)));
      && c.flags & (O_CREAT | O_EXCL | O_RDWR) == O_CREAT | O_EXCL | O_RDWR
      && c.mode == Some(0x180)
      && c.dirfd == FromOptDir(optDir) && c.path == path
  {
    CreationModes();
  }

  /** `file::mktemp_at`: `mktemp_helper` over an exclusive create. */
  method MktempAt(optDir: Option<File>, templ: array<Byte>, lo: nat, hi: nat, draw: nat -> U64,
                  flags: bv64, kernel: OpenCall -> SysRet) returns (r: Result<File>)
    requires lo <= hi < templ.Length && OsStrings.NulTerminated(templ[..])
    modifies templ
    ensures var m := Attempts(TempFileOpener(optDir, flags, kernel), old(templ[..]), lo, hi, draw, 0);
      r == m.result && templ[..] == m.templ && OsStrings.NulTerminated(templ[..])
  {
    r := MktempHelper(TempFileOpener(optDir, flags, kernel), templ, lo, hi, draw);
  }
}
