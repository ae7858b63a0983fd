/** `atomic_write_file_at` in `src/file.rs`: write a file under a fresh
    temporary name, then move it into place in one step.

    The directory `opt_dir` names is a map from names to files. The kernel
    is modelled by that map and a set of faults: each system call the
    protocol makes either does what Linux does to the map or fails with
    the error the fault names. The writer callback is the content it
    writes to the temporary file and the result it returns. */
module AtomicWrite {
  import opened Base
  import opened Errors
  import opened Files
  import OsStrings
  import Slices

  /** A name in the directory: the bytes of a path before its NUL. */
  type Name = seq<Byte>

  /** A regular file: its content and permission bits. */
  datatype Entry = Entry(content: seq<Byte>, mode: FileMode)

  type Dir = map<Name, Entry>

  /** An error code the kernel reports. */
  type Errno = e: nat | 0 < e < 0x1000 witness 1

  /** What the kernel does besides following the directory: whether
      seeding the generator fails, the generator's outputs, and a fault
      per system call (`create` per name) that makes it fail. */
  datatype Kernel = Kernel(
    seed: Option<Error>,
    draw: nat -> U64,
    create: Name -> Option<Errno>,
    stat: Option<Error>,
    chmod: Option<Error>,
    link: Option<Error>,
    rename: Option<Error>,
    unlink: Option<Error>)

  /** The writer callback: what it writes, and what it returns. */
  datatype Writer<T> = Writer(content: seq<Byte>, result: Result<T>)

  /** The outcome of a run: its result and the directory afterwards. */
  datatype Run<T> = Run(result: Result<T>, files: Dir)

  const SPACE: Byte := 0x20

  /** The number of letters in a temporary name. */
  const TEMP_LEN: nat := 12

  /** The descriptor a successful `openat` returns. */
  const TEMP_FD: nat := 3

  /** `[b' '; 13]` with its last byte set to NUL. */
  function Template(): (t: seq<Byte>)
    ensures |t| == TEMP_LEN + 1 && OsStrings.NulTerminated(t)
  {
    seq(TEMP_LEN, _ => SPACE) + [OsStrings.NUL]
  }

  /** The name the kernel sees in a path: the bytes before the first NUL. */
  function PathName(path: seq<Byte>): Name
  {
    match OsStrings.FirstNul(path)
    case None => path
    case Some(i) => path[..i]
  }

  /** The kernel's `openat`: `O_EXCL` creation fails with `EEXIST` on a
      name already present, or with the injected fault. */
  function OpenReply(files: Dir, k: Kernel, call: OpenCall): (r: SysRet)
    ensures r >= 0 ==> PathName(call.path) !in files && k.create(PathName(call.path)).None?
  {
    var name := PathName(call.path);
    if name in files then -(EEXIST as int)
    else match k.create(name)
      case Some(e) => -(e as int)
      case None => TEMP_FD
  }

  function OpenKernel(files: Dir, k: Kernel): OpenCall -> SysRet
  {
    call => OpenReply(files, k, call)
  }

  /** The outcome of `mktemp_at` on the template in `files`. */
  function MakeTemp(optDir: Option<File>, files: Dir, k: Kernel): Mktemp<File>
  {
    Attempts(TempFileOpener(optDir, 0, OpenKernel(files, k)), Template(), 0, TEMP_LEN, k.draw, 0)
  }

  /** A successful `mktemp_at` names a file that was not there: `O_EXCL`. */
  lemma MakeTempFresh(optDir: Option<File>, files: Dir, k: Kernel)
    ensures var m := MakeTemp(optDir, files, k);
      m.result.Ok? ==> PathName(m.templ) !in files && k.create(PathName(m.templ)).None?
  {
    var f := TempFileOpener(optDir, 0, OpenKernel(files, k));
    AttemptsSpec(f, Template(), 0, TEMP_LEN, k.draw, 0);
    var m := MakeTemp(optDir, files, k);
    if m.result.Ok? {
      var call := OpenRequest(optDir, m.templ, O_RDWR | 0 | O_EXCL, Some(Shl(READ | WRITE, USR)));
      assert f(m.templ) == OpenAt(optDir, m.templ, O_RDWR | 0 | O_EXCL, Some(Shl(READ | WRITE, USR)), OpenKernel(files, k));
      assert OpenReply(files, k, call) >= 0;
      assert call.path == m.templ;
    }
  }

  /** `stat_at` on the target: its mode, truncated as `Stat::from` does. */
  function StatTarget(files: Dir, target: Name, k: Kernel): Result<FileMode>
  {
    if k.stat.Some? then Err(k.stat.value)
    else if target in files then Ok(StatMode(S_IFREG | files[target].mode as bv32))
    else Err(ENOENT)
  }

  /** The mode the temporary file is given. */
  function TempMode(files: Dir, target: Name, clobber: Clobber, mode: FileMode, k: Kernel): Result<FileMode>
  {
    match clobber
    case NoClobber => Ok(mode)
    case Clobber => Ok(mode)
    case ClobberSavingPerms =>
      match StatTarget(files, target, k)
      case Ok(m) => Ok(m)
      case Err(e) => if e == ENOENT then Ok(mode) else Err(e)
  }

  /** The drop guard: unlink the temporary name, ignoring any error. */
  function RemoveTemp(files: Dir, temp: Name, k: Kernel): Dir
  {
    if k.unlink.Some? then files else files - {temp}
  }

  /** The commit: `link` under `NoClobber`, after which the guard still
      unlinks the temporary name; `rename` otherwise, after which the guard
      is defused. */
  function Commit<T>(written: Dir, temp: Name, target: Name, clobber: Clobber, v: T, k: Kernel): Run<T>
    requires temp in written
  {
    if clobber == NoClobber then
      if target in written then Run(Err(EEXIST), RemoveTemp(written, temp, k))
      else if k.link.Some? then Run(Err(k.link.value), RemoveTemp(written, temp, k))
      else Run(Ok(v), RemoveTemp(written[target := written[temp]], temp, k))
    else if k.rename.Some? then Run(Err(k.rename.value), RemoveTemp(written, temp, k))
    else Run(Ok(v), (written - {temp})[target := written[temp]])
  }

  /** Everything after `mktemp_at` created `temp` in `files`: choose and
      set the mode, run the writer, commit; the guard unlinks `temp` on
      every early exit. */
  function AfterCreate<T>(files: Dir, temp: Name, target: Name, clobber: Clobber,
                          mode: FileMode, writer: Writer<T>, k: Kernel): Run<T>
  {
    var created := files[temp := Entry([], 0x180)];
    match TempMode(created, target, clobber, mode, k)
    case Err(e) => Run(Err(e), RemoveTemp(created, temp, k))
    case Ok(fm) =>
      if k.chmod.Some? then Run(Err(k.chmod.value), RemoveTemp(created, temp, k))
      else
        var written := created[temp := Entry(writer.content, fm)];
        match writer.result
        case Err(e) => Run(Err(e), RemoveTemp(written, temp, k))
        case Ok(v) => Commit(written, temp, target, clobber, v, k)
  }

  /** The whole protocol: seed the generator, create the temporary file,
      then the rest. */
  function AtomicWriteFileAt<T>(optDir: Option<File>, files: Dir, target: Name, clobber: Clobber,
                                mode: FileMode, writer: Writer<T>, k: Kernel): Run<T>
  {
    if k.seed.Some? then Run(Err(EIO), files)
    else
      var m := MakeTemp(optDir, files, k);
      match m.result
      case Err(e) => Run(Err(e), files)
      case Ok(_) => AfterCreate(files, PathName(m.templ), target, clobber, mode, writer, k)
  }

  /** The mode a successful run gives the target. */
  function ExpectedMode(files: Dir, target: Name, clobber: Clobber, mode: FileMode, k: Kernel): FileMode
  {
    if clobber == ClobberSavingPerms && k.stat.None? && target in files then files[target].mode else mode
  }

  /** The name attempt `i` tries is the twelve letters of the `i`-th draw. */
  lemma CandidateName(draw: nat -> U64, i: nat)
    ensures PathName(Candidate(Template(), 0, TEMP_LEN, draw, i)) == Letters(draw(i), TEMP_LEN)
  {
    var letters := Letters(draw(i), TEMP_LEN);
    var t := Candidate(Template(), 0, TEMP_LEN, draw, i);
    assert t == letters + [OsStrings.NUL];
    forall j | 0 <= j < TEMP_LEN
      ensures !OsStrings.IsNul(t[j])
    {
      LetterAt(draw(i), TEMP_LEN, j);
    }
    Slices.PositionIs(t, OsStrings.IsNul, TEMP_LEN);
    assert t[..TEMP_LEN] == letters;
  }

  /** Twelve capital letters: the shape of every temporary name. */
  predicate TempShaped(n: Name)
  {
    |n| == TEMP_LEN && forall i :: 0 <= i < |n| ==> 'A' as int <= n[i] <= 'Z' as int
  }

  /** The letters of any draw have the shape of a temporary name. */
  lemma LettersShaped(n: nat)
    ensures TempShaped(Letters(n, TEMP_LEN))
  {
    var letters := Letters(n, TEMP_LEN);
    forall i | 0 <= i < TEMP_LEN
      ensures 'A' as int <= letters[i] <= 'Z' as int
    {
      LetterAt(n, TEMP_LEN, i);
    }
  }

  /** A temporary name is twelve capital letters, and was not in the
      directory. */
  lemma TempName(optDir: Option<File>, files: Dir, k: Kernel)
    requires MakeTemp(optDir, files, k).result.Ok?
    ensures var temp := PathName(MakeTemp(optDir, files, k).templ);
      temp !in files && TempShaped(temp)
  {
    var m := MakeTemp(optDir, files, k);
    AttemptsSpec(TempFileOpener(optDir, 0, OpenKernel(files, k)), Template(), 0, TEMP_LEN, k.draw, 0);
    MakeTempFresh(optDir, files, k);
    CandidateName(k.draw, m.calls - 1);
    LettersShaped(k.draw(m.calls - 1));
  }

  /** After creation, a failure removes the temporary file again when
      `unlink` works, and then or when the target is another name, leaves
      the target alone. */
  lemma AfterCreateFailure<T>(files: Dir, temp: Name, target: Name, clobber: Clobber,
                              mode: FileMode, writer: Writer<T>, k: Kernel)
    requires temp !in files
    ensures var run := AfterCreate(files, temp, target, clobber, mode, writer, k);
      run.result.Err? ==>
        && (k.unlink.None? ==> run.files == files)
        && (temp != target || k.unlink.None? ==>
              && (target in run.files <==> target in files)
              && (target in files ==> run.files[target] == files[target]))
  {
    var run := AfterCreate(files, temp, target, clobber, mode, writer, k);
    if run.result.Err? && k.unlink.None? {
      assert files[temp := Entry([], 0x180)] - {temp} == files;
      match TempMode(files[temp := Entry([], 0x180)], target, clobber, mode, k) {
        case Err(_) =>
        case Ok(fm) =>
          assert files[temp := Entry(writer.content, fm)] - {temp} == files;
      }
    }
  }

  /** The mode the temporary file gets, when it gets one, is the mode a
      successful run promises the target. */
  lemma ChosenMode(files: Dir, temp: Name, target: Name, clobber: Clobber, mode: FileMode, k: Kernel)
    requires temp != target
    ensures var fm := TempMode(files[temp := Entry([], 0x180)], target, clobber, mode, k);
      fm.Ok? ==> fm.value == ExpectedMode(files, target, clobber, mode, k)
  {
    if target in files {
      StatModeDropsType(S_IFREG, files[target].mode);
      assert files[temp := Entry([], 0x180)][target] == files[target];
    }
  }

  /** A successful commit of `entry`, written under the fresh name `temp`,
      installs it as the target and leaves every other file alone. */
  lemma CommitSuccess<T>(files: Dir, temp: Name, target: Name, clobber: Clobber, entry: Entry, v: T, k: Kernel)
    requires temp !in files && temp != target
    ensures var run := Commit(files[temp := entry], temp, target, clobber, v, k);
      run.result.Ok? ==>
        && run.result.value == v
        && (clobber == NoClobber ==> target !in files)
        && target in run.files && run.files[target] == entry
        && (forall n :: n in files && n != target ==> n in run.files && run.files[n] == files[n])
        && (k.unlink.None? || clobber != NoClobber ==> run.files == files[target := entry])
  {
    var written := files[temp := entry];
    if clobber == NoClobber {
      if target !in written && k.link.None? && k.unlink.None? {
        assert written[target := entry] - {temp} == files[target := entry];
      }
    } else if k.rename.None? {
      assert (written - {temp})[target := entry] == files[target := entry];
    }
  }

  /** Writing a new entry under `temp` over the freshly created one. */
  lemma Overwrite(files: Dir, temp: Name, e0: Entry, e: Entry)
    ensures files[temp := e0][temp := e] == files[temp := e]
  {
  }

  /** After creation, a success puts the writer's content in the target. */
  lemma AfterCreateSuccess<T>(files: Dir, temp: Name, target: Name, clobber: Clobber,
                              mode: FileMode, writer: Writer<T>, k: Kernel)
    requires temp !in files && temp != target
    ensures var run := AfterCreate(files, temp, target, clobber, mode, writer, k);
      var entry := Entry(writer.content, ExpectedMode(files, target, clobber, mode, k));
      run.result.Ok? ==>
        && writer.result.Ok? && run.result.value == writer.result.value
        && (clobber == NoClobber ==> target !in files)
        && target in run.files && run.files[target] == entry
        && (forall n :: n in files && n != target ==> n in run.files && run.files[n] == files[n])
        && (k.unlink.None? || clobber != NoClobber ==> run.files == files[target := entry])
  {
    var created := files[temp := Entry([], 0x180)];
    var fm := TempMode(created, target, clobber, mode, k);
    ChosenMode(files, temp, target, clobber, mode, k);
    if fm.Ok? && k.chmod.None? && writer.result.Ok? {
      var entry := Entry(writer.content, fm.value);
      Overwrite(files, temp, Entry([], 0x180), entry);
      CommitSuccess(files, temp, target, clobber, entry, writer.result.value, k);
    }
  }

  /** A failed run leaves the directory as it was, provided the drop
      guard's `unlink` works; a seeding failure is `EIO`. */
  lemma FailureLeavesDirectory<T>(optDir: Option<File>, files: Dir, target: Name, clobber: Clobber,
                                  mode: FileMode, writer: Writer<T>, k: Kernel)
    ensures var run := AtomicWriteFileAt(optDir, files, target, clobber, mode, writer, k);
      && (run.result.Err? && k.unlink.None? ==> run.files == files)
      && (k.seed.Some? ==> run.result == Err(EIO))
  {
    var m := MakeTemp(optDir, files, k);
    if k.seed.None? && m.result.Ok? {
      TempName(optDir, files, k);
      AfterCreateFailure(files, PathName(m.templ), target, clobber, mode, writer, k);
    }
  }

  /** A failed run never touches the target, even when the guard's
      `unlink` fails. (The temporary name is twelve capital letters; a
      missing target of that shape could be chosen as the temporary name
      itself, hence the precondition; `TargetIsTempName` covers that
      case.) */
  lemma FailureKeepsTarget<T>(optDir: Option<File>, files: Dir, target: Name, clobber: Clobber,
                              mode: FileMode, writer: Writer<T>, k: Kernel)
    requires target in files || !TempShaped(target)
    ensures var run := AtomicWriteFileAt(optDir, files, target, clobber, mode, writer, k);
      run.result.Err? ==>
        && (target in run.files <==> target in files)
        && (target in files ==> run.files[target] == files[target])
  {
    var m := MakeTemp(optDir, files, k);
    if k.seed.None? && m.result.Ok? {
      TempName(optDir, files, k);
      AfterCreateFailure(files, PathName(m.templ), target, clobber, mode, writer, k);
    }
  }

  /** A successful run returns the writer's value, and leaves the target
      holding exactly what the writer wrote, with the requested mode, or
      under `ClobberSavingPerms` the mode the target had; `NoClobber`
      succeeds only when there was no target. Every other file is as it
      was, and no temporary name survives unless the guard's `unlink`
      fails after a link. */
  lemma SuccessInstallsContent<T>(optDir: Option<File>, files: Dir, target: Name, clobber: Clobber,
                                  mode: FileMode, writer: Writer<T>, k: Kernel)
    requires target in files || !TempShaped(target)
    ensures var run := AtomicWriteFileAt(optDir, files, target, clobber, mode, writer, k);
      var entry := Entry(writer.content, ExpectedMode(files, target, clobber, mode, k));
      run.result.Ok? ==>
        && writer.result.Ok? && run.result.value == writer.result.value
        && (clobber == NoClobber ==> target !in files)
        && target in run.files && run.files[target] == entry
        && (forall n :: n in files && n != target ==> n in run.files && run.files[n] == files[n])
        && (k.unlink.None? || clobber != NoClobber ==> run.files == files[target := entry])
  {
    var m := MakeTemp(optDir, files, k);
    if k.seed.None? && m.result.Ok? {
      TempName(optDir, files, k);
      AfterCreateSuccess(files, PathName(m.templ), target, clobber, mode, writer, k);
    }
  }

  /** When no system call fails, the writer succeeds and a free name is
      found, the run succeeds, except that `NoClobber` fails with `EEXIST`
      when the `link` finds a file at the target: one that was there, or
      the temporary file itself when its name is the target's. */
  lemma SucceedsUnlessSomethingFails<T>(optDir: Option<File>, files: Dir, target: Name, clobber: Clobber,
                                        mode: FileMode, writer: Writer<T>, k: Kernel)
    requires k.seed.None? && MakeTemp(optDir, files, k).result.Ok?
    requires k.stat.None? && k.chmod.None? && k.link.None? && k.rename.None?
    requires writer.result.Ok?
    ensures var temp := PathName(MakeTemp(optDir, files, k).templ);
      AtomicWriteFileAt(optDir, files, target, clobber, mode, writer, k).result ==
        if clobber == NoClobber && (target in files || target == temp) then Err(EEXIST)
        else Ok(writer.result.value)
  {
    TempName(optDir, files, k);
  }

  /** A missing target whose name is the one the temporary file got: the
      run works on the temporary file under the target's own name. The
      `link` finds it, so NoClobber fails with `EEXIST`; a `rename` onto
      itself succeeds, and ClobberSavingPerms reads the temporary file's
      own mode 0o600; a failed run leaves the file behind exactly when
      `unlink` fails. */
  lemma TargetIsTempName<T>(optDir: Option<File>, files: Dir, target: Name, clobber: Clobber,
                            mode: FileMode, writer: Writer<T>, k: Kernel)
    requires k.seed.None? && MakeTemp(optDir, files, k).result.Ok?
    requires target == PathName(MakeTemp(optDir, files, k).templ)
    ensures var run := AtomicWriteFileAt(optDir, files, target, clobber, mode, writer, k);
      && target !in files
      && (run.result.Err? ==> (target in run.files <==> k.unlink.Some?) && (k.unlink.None? ==> run.files == files))
      && (clobber == NoClobber && k.chmod.None? && writer.result.Ok? ==> run.result == Err(EEXIST))
      && (run.result.Ok? ==>
            && clobber != NoClobber && writer.result.Ok? && run.result.value == writer.result.value
            && run.files == files[target := Entry(writer.content,
                                                  if clobber == ClobberSavingPerms && k.stat.None? then 0x180 else mode)])
  {
    TempName(optDir, files, k);
    AfterCreateOnItself(files, target, clobber, mode, writer, k);
  }

  /** `AfterCreate` when the target is the temporary name itself. */
  lemma AfterCreateOnItself<T>(files: Dir, temp: Name, clobber: Clobber,
                               mode: FileMode, writer: Writer<T>, k: Kernel)
    requires temp !in files
    ensures var run := AfterCreate(files, temp, temp, clobber, mode, writer, k);
      && (run.result.Err? ==> (temp in run.files <==> k.unlink.Some?) && (k.unlink.None? ==> run.files == files))
      && (clobber == NoClobber && k.chmod.None? && writer.result.Ok? ==> run.result == Err(EEXIST))
      && (run.result.Ok? ==>
            && clobber != NoClobber && writer.result.Ok? && run.result.value == writer.result.value
            && run.files == files[temp := Entry(writer.content,
                                                if clobber == ClobberSavingPerms && k.stat.None? then 0x180 else mode)])
  {
    AfterCreateFailure(files, temp, temp, clobber, mode, writer, k);
    var created := files[temp := Entry([], 0x180)];
    match TempMode(created, temp, clobber, mode, k) {
      case Err(_) =>
      case Ok(fm) =>
        if clobber == ClobberSavingPerms && k.stat.None? {
          StatModeDropsType(S_IFREG, 0x180);
          assert fm == 0x180;
        }
        var written := created[temp := Entry(writer.content, fm)];
        assert written == files[temp := Entry(writer.content, fm)];
        assert (written - {temp})[temp := written[temp]] == written;
    }
  }

  /** `NoClobber` never replaces an existing target: once the temporary
      file is written, the `link` finds the target and the run fails with
      `EEXIST`, leaving the directory as it was when `unlink` works. */
  lemma NoClobberConflict<T>(optDir: Option<File>, files: Dir, target: Name,
                             mode: FileMode, writer: Writer<T>, k: Kernel)
    requires target in files
    requires k.seed.None? && MakeTemp(optDir, files, k).result.Ok?
    requires k.chmod.None? && writer.result.Ok?
    ensures var run := AtomicWriteFileAt(optDir, files, target, NoClobber, mode, writer, k);
      && run.result == Err(EEXIST)
      && (k.unlink.None? ==> run.files == files)
  {
    TempName(optDir, files, k);
    FailureLeavesDirectory(optDir, files, target, NoClobber, mode, writer, k);
  }

  // ---------------------------------------------------------------------
  // The protocol, step by step

  /** The directory and the kernel acting on it, one system call per method. */
  class FileSystem {
    var files: Dir
    const kernel: Kernel

    constructor(files0: Dir, k: Kernel)
      ensures files == files0 && kernel == k
    {
      files := files0;
      kernel := k;
    }

    /** The file `openat` created: empty, mode 0o600. */
    method Created(name: Name)
      modifies this
      ensures files == old(files)[name := Entry([], 0x180)]
    {
      files := files[name := Entry([], 0x180)];
    }

    /** `stat_at(opt_dir, path, ..)`, reduced to the mode. */
    method StatAt(target: Name) returns (r: Result<FileMode>)
      ensures r == StatTarget(files, target, kernel)
    {
      if kernel.stat.Some? {
        r := Err(kernel.stat.value);
      } else if target in files {
        r := Ok(StatMode(S_IFREG | files[target].mode as bv32));
      } else {
        r := Err(ENOENT);
      }
    }

    /** `File::chmod` on the open temporary file. */
    method Fchmod(name: Name, m: FileMode) returns (r: Result<()>)
      requires name in files
      modifies this
      ensures r.Ok? <==> kernel.chmod.None?
      ensures r.Err? ==> r.error == kernel.chmod.value && files == old(files)
      ensures r.Ok? ==> files == old(files)[name := Entry(old(files)[name].content, m)]
    {
      if kernel.chmod.Some? {
        r := Err(kernel.chmod.value);
      } else {
        files := files[name := Entry(files[name].content, m)];
        r := Ok(());
      }
    }

    /** The writer's output landing in the temporary file. */
    method Write(name: Name, content: seq<Byte>)
      requires name in files
      modifies this
      ensures files == old(files)[name := Entry(content, old(files)[name].mode)]
    {
      files := files[name := Entry(content, files[name].mode)];
    }

    /** `link_at`: a second name for the file; never replaces one. */
    method LinkAt(from: Name, to: Name) returns (r: Result<()>)
      requires from in files
      modifies this
      ensures to in old(files) ==> r == Err(EEXIST) && files == old(files)
      ensures to !in old(files) && kernel.link.Some? ==> r == Err(kernel.link.value) && files == old(files)
      ensures to !in old(files) && kernel.link.None? ==> r == Ok(()) && files == old(files)[to := old(files)[from]]
    {
      if to in files {
        r := Err(EEXIST);
      } else if kernel.link.Some? {
        r := Err(kernel.link.value);
      } else {
        files := files[to := files[from]];
        r := Ok(());
      }
    }

    /** `rename_at`: moves the file over whatever had the new name. */
    method RenameAt(from: Name, to: Name) returns (r: Result<()>)
      requires from in files
      modifies this
      ensures kernel.rename.Some? ==> r == Err(kernel.rename.value) && files == old(files)
      ensures kernel.rename.None? ==> r == Ok(()) && files == (old(files) - {from})[to := old(files)[from]]
    {
      if kernel.rename.Some? {
        r := Err(kernel.rename.value);
      } else {
        files := (files - {from})[to := files[from]];
        r := Ok(());
      }
    }

    /** `unlink_at` from the drop guard, its error ignored. */
    method UnlinkAt(name: Name)
      modifies this
      ensures files == RemoveTemp(old(files), name, kernel)
    {
      if kernel.unlink.None? {
        files := files - {name};
      }
    }
  }

  /** The commit, with the guard still armed; `guard` says whether the
      drop guard is left to run. */
  method CommitMethod<T>(fs: FileSystem, temp: Name, target: Name, clobber: Clobber, v: T)
      returns (r: Result<T>, guard: bool)
    requires temp in fs.files
    modifies fs
    ensures var run := Commit(old(fs.files), temp, target, clobber, v, fs.kernel);
      r == run.result && run.files == (if guard then RemoveTemp(fs.files, temp, fs.kernel) else fs.files)
  {
    guard := true;
    if clobber == NoClobber {
      var l := fs.LinkAt(temp, target);
      r := if l.Ok? then Ok(v) else Err(l.error);
    } else {
      var n := fs.RenameAt(temp, target);
      if n.Ok? {
        guard := false;
        r := Ok(v);
      } else {
        r := Err(n.error);
      }
    }
  }

  /** The mode to give the temporary file. */
  method ChooseMode(fs: FileSystem, target: Name, clobber: Clobber, mode: FileMode) returns (fm: Result<FileMode>)
    ensures fm == TempMode(fs.files, target, clobber, mode, fs.kernel)
  {
    if clobber == ClobberSavingPerms {
      var st := fs.StatAt(target);
      fm := if st.Err? && st.error == ENOENT then Ok(mode) else st;
    } else {
      fm := Ok(mode);
    }
  }

  /** Everything after `mktemp_at` created `temp`, ending with the guard. */
  method AfterCreateMethod<T>(fs: FileSystem, temp: Name, target: Name, clobber: Clobber,
                              mode: FileMode, writer: Writer<T>) returns (r: Result<T>)
    modifies fs
    ensures Run(r, fs.files) == AfterCreate(old(fs.files), temp, target, clobber, mode, writer, fs.kernel)
  {
    ghost var run := AfterCreate(fs.files, temp, target, clobber, mode, writer, fs.kernel);
    fs.Created(temp);
    ghost var created := fs.files;
    var guard := true;
    var fm := ChooseMode(fs, target, clobber, mode);
    if fm.Err? {
      r := Err(fm.error);
      assert run == Run(r, RemoveTemp(created, temp, fs.kernel));
    } else {
      var c := fs.Fchmod(temp, fm.value);
      if c.Err? {
        r := Err(c.error);
        assert run == Run(r, RemoveTemp(created, temp, fs.kernel));
      } else {
        fs.Write(temp, writer.content);
        ghost var written := fs.files;
        assert written == created[temp := Entry(writer.content, fm.value)];
        if writer.result.Err? {
          r := Err(writer.result.error);
          assert run == Run(r, RemoveTemp(written, temp, fs.kernel));
        } else {
          assert run == Commit(written, temp, target, clobber, writer.result.value, fs.kernel);
          r, guard := CommitMethod(fs, temp, target, clobber, writer.result.value);
        }
      }
    }
    if guard {
      fs.UnlinkAt(temp);
    }
  }

  /** `atomic_write_file_at`, step by step: seed, create the temporary
      file in a 13-byte template, then the rest. */
  method AtomicWriteFileAtMethod<T>(fs: FileSystem, optDir: Option<File>, target: Name, clobber: Clobber,
                                    mode: FileMode, writer: Writer<T>) returns (r: Result<T>)
    modifies fs
    ensures Run(r, fs.files) == AtomicWriteFileAt(optDir, old(fs.files), target, clobber, mode, writer, fs.kernel)
  {
    if fs.kernel.seed.Some? {
      return Err(EIO);
    }
    var tp := new Byte[TEMP_LEN + 1](_ => SPACE);
    tp[TEMP_LEN] := OsStrings.NUL;
    assert tp[..] == Template();
    var f := MktempAt(optDir, tp, 0, TEMP_LEN, fs.kernel.draw, 0, OpenKernel(fs.files, fs.kernel));
    if f.Err? {
      return Err(f.error);
    }
    r := AfterCreateMethod(fs, PathName(tp[..]), target, clobber, mode, writer);
  }
}
