/** `src/dir.rs`: creating directories, and creating a uniquely named one. */
module Dirs {
  import opened Base
  import opened Errors
  import OsStrings
  import opened Files

  /** The arguments of a `mkdirat` system call. */
  datatype MkdirCall = MkdirCall(dirfd: int, path: seq<Byte>, mode: FileMode)

  /** `mkdir_at`: the path is resolved against `opt_dir`, or the current
      directory when it is `None`; the kernel's reply decides the result. */
  function MkdirAt(optDir: Option<File>, path: seq<Byte>, mode: FileMode,
                   kernel: MkdirCall -> SysRet): (r: Result<()>)
    ensures var m := kernel(MkdirCall(FromOptDir(optDir), path, mode));
      (r.Ok? <==> m >= 0) && (r.Err? ==> r.error == -m)
  {
    DropValue(FromSysret(kernel(MkdirCall(FromOptDir(optDir), path, mode))))
  }

  /** The mode `mktemp_at` creates directories with. */
  function TempDirMode(): (m: FileMode)
    ensures m == 0x1C0
  {
    CreationModes();
    Shl(READ | WRITE | EXEC, USR)
  }

  /** The `f` that `dir::mktemp_at` hands to `mktemp_helper`. */
  function TempDirMaker(optDir: Option<File>, kernel: MkdirCall -> SysRet): seq<Byte> -> Result<()>
  {
    path => MkdirAt(optDir, path, TempDirMode(), kernel)
  }

  /** `dir::mktemp_at`: retries only while `mkdir_at` says `EEXIST`, at most
      `TRIES` times, each time asking for mode 0o700 in `opt_dir`'s
      directory; the first other outcome is returned unchanged, and
      `EEXIST` comes back only after all `TRIES` names were taken. */
  lemma TempDirAttempts(optDir: Option<File>, templ: seq<Byte>, lo: nat, hi: nat,
                        draw: nat -> U64, kernel: MkdirCall -> SysRet)
    requires lo <= hi <= |templ|
    ensures var m := Attempts(TempDirMaker(optDir, kernel), templ, lo, hi, draw, 0);
      && 0 < m.calls <= TRIES
      && m.templ == Candidate(templ, lo, hi, draw, m.calls - 1)
      && m.result == MkdirAt(optDir, m.templ, 0x1C0, kernel)
      && (forall j :: 0 <= j < m.calls - 1 ==>
            kernel(MkdirCall(FromOptDir(optDir), Candidate(templ, lo, hi, draw, j), 0x1C0)) == -(EEXIST as int))
      && (IsEexist(m.result) ==> m.calls == TRIES)
      && (IsEexist(m.result) <==>
            forall j :: 0 <= j < TRIES ==>
              kernel(MkdirCall(FromOptDir(optDir), Candidate(templ, lo, hi, draw, j), 0x1C0)) == -(EEXIST as int))
  {
    var f := TempDirMaker(optDir, kernel);
    AttemptsSpec(f, templ, lo, hi, draw, 0);
    forall j | 0 <= j < TRIES
      ensures IsEexist(f(Candidate(templ, lo, hi, draw, j))) <==>
              kernel(MkdirCall(FromOptDir(optDir), Candidate(templ, lo, hi, draw, j), 0x1C0)) == -(EEXIST as int)
    {
    }
    var m := Attempts(f, templ, lo, hi, draw, 0);
    forall j | 0 <= j < m.calls - 1
      ensures kernel(MkdirCall(FromOptDir(optDir), Candidate(templ, lo, hi, draw, j), 0x1C0)) == -(EEXIST as int)
    {
      assert IsEexist(f(Candidate(templ, lo, hi, draw, j)));
    }
  }

  /** `dir::mktemp_at`. */
  method MktempAt(optDir: Option<File>, templ: array<Byte>, lo: nat, hi: nat, draw: nat -> U64,
                  kernel: MkdirCall -> SysRet) returns (r: Result<()>)
    requires lo <= hi < templ.Length && OsStrings.NulTerminated(templ[..])
    modifies templ
    ensures var m := Attempts(TempDirMaker(optDir, kernel), old(templ[..]), lo, hi, draw, 0);
      r == m.result && templ[..] == m.templ && OsStrings.NulTerminated(templ[..])
  {
    r := MktempHelper(TempDirMaker(optDir, kernel), templ, lo, hi, draw);
  }
}
