# unix.rs core, modelled in Dafny

A Dafny model of the logic of `unix.rs`, a thin Rust wrapper over Linux
system calls, and proofs of what that logic promises. The model covers:

- the error type: turning a raw system-call return into `Result`, the
  `Debug` and `message` lookups, and the `From` conversions;
- `OsStr`, the NUL-terminated byte string: validation, the view without
  the terminator, and the scan for the terminator;
- environment lookup (`Environ::get`, `get_str`), in both versions of the
  source: iterator combinators and an explicit loop;
- filling a buffer from `getrandom`, retrying `EINTR`;
- permission bits (`<<` and `>>` between permissions and modes, the mode
  truncation of `Stat::from`), `open_at`, `mkdir_at` and directory resolution;
- temporary names: `randname`, the bounded retry loop `mktemp_helper`,
  and both `mktemp_at`s;
- atomic file replacement (`atomic_write_file_at`) over a directory with
  fault injection, as a specification and as a step-by-step method with
  its drop guard;
- `mmap` protection bits, return classification and default segment;
- `EpochTime` nanosecond arithmetic and the `sleep_for` precondition;
- the text processing of the build script: `put_opt`, the `Lines`
  splitter, `#define` parsing, the filtering and aliasing in `go`, and the
  declared length of the generated name arrays.

The kernel is never called. Each system call is an oracle: a function from
the call's arguments to its reply (`openat`, `mkdirat`, `mmap`,
`clock_nanosleep`), a script of replies (`getrandom`), or a directory map
with one injectable fault per call (the atomic write). Machine words are
64 bits wide for system-call returns. `try_to_usize` and `mmap` also take
the target width (32 or 64) as a parameter, because that is where the
width changes the result. Text is UTF-8 bytes.

Files: `base.dfy` (bytes, words, `Option`), `slices.dfy` (`position`,
`find_map`), `utf8.dfy`, `decimal.dfy` (`usize` display and `from_str`),
`err.dfy`, `util.dfy`, `str.dfy`, `env.dfy`, `env_loop.dfy`, `random.dfy`,
`file.dfy`, `dir.dfy`, `mem.dfy`, `time.dfy`, `atomic_write.dfy`, `build.dfy`.

## Model

| member | source | states |
|---|---|---|
| Errors.FromSysret | src/err_.rs:22-25 | a negative return is an error whose number is its negation; any other return, zero included, is success with that value |
| Errors.FromSysretInverts | src/err_.rs:22-25 | decoding a result the kernel encoded (`-e` or the value) gives that result back |
| Errors.ToSysretInverts | src/err_.rs:22-25 | every return word is recovered from its decoded result, so decoding loses nothing |
| Errors.Message | src/err_.rs:27-29 | the message is the table entry at the error number, or empty when the table has no such entry |
| Errors.DebugShowsNameOrNumber | src/err_.rs:9-17 | a named error prints its name; otherwise it prints `Error(n)`, and the digits in it parse back to `n` |
| Errors.FromNonZero | src/err_.rs:32-34 | the non-zero number becomes the error unchanged |
| Errors.FromEndOfFile | src/err_.rs:36-38 | end of file becomes the all-ones word `2^w - 1` |
| Errors.FromNoMemory | src/err_.rs:40-42 | out of memory becomes `ENOMEM` |
| Errors.DropValue | src/err_.rs:52-53 | `esyscall_!` fails exactly when `esyscall!` does, with the same error |
| Decimal.Show | src/err_.rs:14 | a number prints as a non-empty string of digits without a leading zero |
| Decimal.ShowValue | src/err_.rs:14 | the printed digits have the number's value |
| Decimal.Parse | build.rs:66 | a parsed value is below the type's limit |
| Decimal.ParseShow | build.rs:66 | parsing a printed number below the limit gives that number back |
| Util.TryToUsize | src/util.rs:3-6 | `Ok(n)` exactly when `n` fits in `w` bits, and `EOVERFLOW` exactly when the cast would change the value |
| Util.NeverFailsOn64 | src/util.rs:3-6 | on a 64-bit target the conversion always succeeds |
| OsStrings.TryFromBytes | src/str.rs:19-22 | accepted exactly when the last byte is NUL, and then the string is the slice itself |
| OsStrings.FromBytes | src/str.rs:9-12 | defined exactly where `try_from_bytes` succeeds, and agrees with it |
| OsStrings.TryFromMutBytes | src/str.rs:24-27 | the same acceptance rule; the result is the caller's buffer itself, not a copy |
| OsStrings.FromMutBytes | src/str.rs:14-17 | defined exactly where `try_from_mut_bytes` succeeds; returns the same buffer |
| OsStrings.View | src/str.rs:45-48 | the view is the string without its terminator, one byte shorter |
| OsStrings.StoreThroughView | src/str.rs:50-52 | a store through the mutable view changes one byte of the view and never the terminator |
| OsStrings.FromMutPtr | src/str.rs:34-39 | the scan stops at the first NUL from `ptr`; the string is the memory up to and including it, with no NUL before it |
| Slices.Position | src/env.rs:42 | the index of the first element satisfying the predicate, or `None` when none does |
| Slices.FindMap | src/env.rs:17 | `None` exactly when the function is `None` on every element; otherwise the value it takes on the first element where it is `Some` |
| Env.EntryParts | src/env.rs:18-20 | key and value split an entry around its first `=`; the key has no `=`; with no `=` the key is the whole entry |
| Env.TrySplitOn | src/env.rs:41-46 | prefix, separator and suffix rebuild the input; the separator is the first element satisfying the predicate; `None` exactly when none does |
| Env.MatchIsKeyValue | src/env.rs:17-22 | the closure answers with the entry's value exactly when the entry's key is the query |
| Env.Get | src/env.rs:16-23 | `None` exactly when no key is the query; otherwise the value of the first entry whose key is the query |
| Env.GetFirstWins | src/env.rs:16-23 | the first matching entry decides the lookup; later duplicates are ignored |
| Env.GetStr | src/env.rs:29-38 | as `get`, but a value that is not UTF-8 reads as absent; a returned value is UTF-8 |
| EnvLoop.Get | src/env_.rs:16-27 | the loop with early return gives the same answer as the combinator version on every environment |
| EnvLoop.GetStr | src/env_.rs:33-42 | the loop version of `get_str` agrees with the combinator version |
| Random.Flags | src/random.rs:58 | the flags are zero exactly when blocking |
| Random.Kind | src/random.rs:59-64 | `ENOSYS` is Unavailable, `EAGAIN` is NotReady, and any other error is Unexpected and carries its code |
| Random.WrittenLength | src/random.rs:57-72 | success means the kernel wrote exactly the rest of the buffer; a failure leaves part of it unwritten |
| Random.CallsAskForRest | src/random.rs:55-58 | every call asks for all that remains at its offset, with the same flags; the first call starts at the initial offset; there is at most one call per reply |
| Random.CallsFollowReplies | src/random.rs:57-71 | each next call's offset is the previous one's advanced by that reply's byte count, so `EINTR` retries in place; every reply before the last call's is a read or `EINTR` |
| Random.FailureIsLastReply | src/random.rs:58-64 | a failure is the kind of the last reply, which is an error other than `EINTR` |
| Random.TryFillBytesGetrandom | src/random.rs:53-73 | the loop returns the specification's result and makes its calls; the buffer holds the kernel's bytes in order, then the bytes not yet overwritten |
| Random.FillBytes | src/random.rs:40 | blocking fill that unwraps, callable only when the run succeeds; the whole buffer is the kernel's bytes |
| Random.TryFillBytes | src/random.rs:44-46 | non-blocking fill; returns the run's result, and on success the whole buffer is the kernel's bytes |
| Files.Shl | src/file.rs:351-357 | the permission's bits land in the section and nowhere else |
| Files.Shr | src/file.rs:359-365 | as written, the section's bits are masked with 3, so Read is never returned |
| Files.ShrIntended | src/file.rs:359-365 | the section's three bits, the evidently intended mask |
| Files.ShlShrKeepsWriteExec | src/file.rs:351-365 | as written, shifting a permission in and out keeps only its Write and Exec bits |
| Files.ShrDropsRead | src/file.rs:363 | counterexample: Read shifted into the user section is 0o400, and shifting it back gives the empty permission |
| Files.ShlShrRoundTrip | src/file.rs:351-365 | with the mask 7, shifting a permission in and back out gives it back for every section |
| Files.CreationModes | src/file.rs:200-205 | (Read or Write) << USR is 0o600 and (Read or Write or Exec) << USR is 0o700 |
| Files.StatModeDropsType | src/file.rs:477 | whatever file-type bits sit above the 0o7777 bits of `st_mode`, the mode read back is exactly the permission bits |
| Files.FromOptDir | src/file.rs:189-194 | no directory means `AT_FDCWD`; otherwise the directory's descriptor |
| Files.LetterAt | src/file.rs:221-228 | byte `i` of a name is the `i`-th base-26 digit of the drawn number, as a letter from A to Z |
| Files.RandName | src/file.rs:221-228 | the loop writes the letters of the drawn number into the range, least significant first, and changes nothing outside it |
| Files.AttemptsSpec | src/file.rs:207-219 | at most 256 calls, and exactly 256 when the result is `EEXIST`; `EEXIST` exactly when every attempt said `EEXIST`; otherwise the first other answer, verbatim, with `EEXIST` from all earlier calls; the template is left holding the last name tried |
| Files.MktempHelper | src/file.rs:207-219 | callable only on a NUL-terminated template whose range ends before the NUL, since the range indexes the string's view and would panic otherwise; the retry loop returns the specification's result, leaves the template the specification names, and the template stays NUL-terminated |
| Files.OpenAt | src/file.rs:111-118 | succeeds exactly when the kernel's reply is non-negative, with that descriptor; otherwise the negated reply is the error |
| Files.TempFileRequest | src/file.rs:200-205 | every attempt opens read-write with `O_CREAT` and `O_EXCL`, mode 0o600, in the given directory |
| Files.MktempAt | src/file.rs:200-205 | `mktemp_at` is `mktemp_helper` over exclusive creation, with the same precondition, result and template |
| Dirs.MkdirAt | src/dir.rs:9-12 | the path is resolved against the directory or `AT_FDCWD`; success exactly when the kernel's reply is non-negative |
| Dirs.TempDirMode | src/dir.rs:21 | temporary directories are created with mode 0o700 |
| Dirs.TempDirAttempts | src/dir.rs:18-23 | at most 256 `mkdir` calls, each asking for 0o700 in the given directory, and exactly 256 when the result is `EEXIST`; every call before the last was answered `EEXIST`; `EEXIST` exactly when all 256 names were taken; else the last call's outcome unchanged; the template holds the last name tried |
| Dirs.MktempAt | src/dir.rs:18-23 | `mktemp_at` is `mktemp_helper` over `mkdir_at`, with the same precondition, result and template |
| Mem.ProtBitsSpec | src/mem.rs:41-52 | each PROT bit is set exactly when the matching permission is; no other bit is set; no permission gives no protection |
| Mem.ProtBitsInjective | src/mem.rs:41-52 | distinct permissions give distinct protections |
| Mem.ProtFrom | src/mem.rs:41-52 | the loop over the (protection, permission) table computes that protection |
| Mem.MmapRequest | src/mem.rs:103-104 | `MAP_FIXED` exactly when a location is given; the protection is the permission's |
| Mem.Classify | src/mem.rs:105-107 | an error exactly when the return lies in the top 4095 words, with code `2^w - r` in 1..4095; else a map at that address with the requested length |
| Mem.ClassifyErrorRoundTrip | src/mem.rs:105-106 | a kernel error `e` below 4096, returned as `-e`, is classified as `e` |
| Mem.ClassifyAgreesWithSysret | src/mem.rs:105-106 | read as a signed word, an error return is the negated code, as `from_sysret` reads it |
| Mem.MapAnon | src/mem.rs:77-89 | anonymous maps pass descriptor -1 and offset 0 |
| Mem.DefaultSegment | src/mem.rs:92-98 | as written, `stat` is always consulted: its error or `EOVERFLOW` wins even over a given segment; otherwise the given segment or the whole file |
| Mem.WholeFileSegment | src/mem.rs:94-97 | with no segment the map covers the whole file from offset 0, and a size that does not fit a `usize` fails with `EOVERFLOW` |
| Mem.EagerDefaultRejectsSegment | src/mem.rs:94-96 | counterexample: on 32 bits, mapping the first page of an 8 GiB file fails with `EOVERFLOW` |
| Mem.LazySegmentSpec | src/mem.rs:92-98 | with a lazy default, a given segment is mapped whatever `stat` says; without one, and wherever the eager version succeeds, both agree |
| Time.NsRoundTrip | src/time.rs:22-28 | the nanosecond conversions are inverse |
| Time.Add | src/time.rs:41-45 | `(t + s)` counts `t`'s nanoseconds plus the span's |
| Time.Sub | src/time.rs:47-51 | `(t - s)` counts `t`'s nanoseconds minus the span's |
| Time.Diff | src/time.rs:53-57 | `t1 - t2` is the span of the difference of the counts |
| Time.LessIsStrictTotalOrder | src/time.rs:10-11 | the ordering is that of the counts: irreflexive, transitive and total |
| Time.AddMonotone | src/time.rs:41-45 | adding a span moves later exactly when the span is positive, and leaves the time alone exactly when it is zero |
| Time.AddSubInverse | src/time.rs:41-57 | adding and subtracting a span undo each other; adding `t - t2` to `t2` gives `t` |
| Time.Clock.AddAssign | src/time.rs:59-62 | `+=` leaves the time `+` would return |
| Time.Clock.SubAssign | src/time.rs:64-67 | `-=` leaves the time `-` would return |
| Time.AddThenSub | src/time.rs:59-67 | `+=` then `-=` of the same span restores the time |
| Time.SleepFor | src/time.rs:75-81 | callable only with a positive span whose whole seconds fit an `i64` (the `assert!` and the "timespan too long" `expect`); completes exactly when the kernel's reply is non-negative, else reports the remaining time |
| Build.Put | build.rs:93-96 | the table after `put_opt`: long enough for slot `k`, which holds the new value; other old slots unchanged, new ones `None` |
| Build.PutOpt | build.rs:93-96 | length kept if `k` is in range, else `k + 1` with new slots `None`; slot `k` holds the new value; the old slot is returned; other slots unchanged |
| Build.Lines.Next | build.rs:104-111 | yields the items before the first separator and consumes it; `None` when no separator is left, dropping the unterminated tail |
| Build.SplitLinesUnlines | build.rs:98-112 | the stream is its lines, each followed by a newline, then a dropped tail without one |
| Build.LinesHaveNoNewline | build.rs:104-111 | no line the splitter yields contains a newline |
| Build.CollectLines | build.rs:120 | draining the iterator yields every line, in order |
| Build.SplitDefinition | build.rs:123-131 | the text after `#define ` is skipped without a space; a split is key, the first space, value, so the key has no space; both parts are UTF-8 |
| Build.SplitDefinitionRoundTrip | build.rs:123-131 | a spaceless UTF-8 key, a space and a UTF-8 value split back into that key and value |
| Build.ParseDefine | build.rs:121-131 | lines without the `#define ` prefix or a space are skipped; a parsed line is prefix, key, space, value; the key has no space; both parts are UTF-8 |
| Build.ParseDefineRoundTrip | build.rs:121-131 | a `#define KEY VALUE` line with a spaceless UTF-8 key and a UTF-8 value parses back to that key and value |
| Build.CDefns | build.rs:114-135 | the definitions passed on are those of the output's complete lines, in order |
| Build.Emit | build.rs:65-82 | nothing unless key and value differ and the key passes the predicate; a decimal value is a number; else a value passing the predicate is an alias; anything else is dropped |
| Build.Go | build.rs:61-85 | the loop builds the tables the specification folds from the definitions |
| Build.GoFoldNames | build.rs:65-84 | the name table `go` collects is the `put_opt` table of the numbers its definitions record, in order |
| Build.LastNumbered | build.rs:74 | the index of a definition recording `n` after which none does; `None` exactly when no definition records `n` |
| Build.NameOf | build.rs:74 | the key of the last definition recording `n`, or `None` when there is none |
| Build.TableSlots | build.rs:93-96 | in a table built by repeated `put_opt`, slot `n` holds the key of the last definition recording `n` and is missing or empty when there is none; the last slot is never empty |
| Build.NamesAreLastNumbered | build.rs:65-84 | slot `n` of the name table holds the key of the last definition with decimal value `n`, and is missing or empty when there is none; the last slot is never empty |
| Build.EmittedPass | build.rs:65-81 | every emitted name passes the predicate; an alias names another passing name; a number is the decimal value of a definition with that key |
| Build.NameShapes | build.rs:17-20 | a name is a signal name exactly when it is `SIG`, an upper-case letter and any rest; a name is an error name exactly when it starts with `E` |
| Build.SignalNameExamples | build.rs:17-20 | SIGINT is a signal name and SIG_DFL and SIG are not; EAGAIN is an error name and SIGINT is not |
| Build.NameArrayLength | build.rs:87-91 | the declared length reads back as the number of names; one element line per name, in order, then the closing line |
| AtomicWrite.MakeTempFresh | src/file.rs:252 | a temporary file is created only under a name that was not in the directory |
| AtomicWrite.CandidateName | src/file.rs:249-252 | the name each attempt tries, read up to the NUL, is the twelve letters of that attempt's draw |
| AtomicWrite.TempName | src/file.rs:249-252 | the temporary name is twelve capital letters and was not in the directory |
| AtomicWrite.LettersShaped | src/file.rs:221-228 | the letters `randname` writes for any draw are all capitals from A to Z |
| AtomicWrite.AfterCreateFailure | src/file.rs:254-278 | after creation, a failure removes the temporary file again when `unlink` works, and then, or whenever the target is another name, leaves the target as it was |
| AtomicWrite.ChosenMode | src/file.rs:261-268 | the mode the temporary file gets is the requested one, except under ClobberSavingPerms with a target `stat` can read, where it is the target's mode |
| AtomicWrite.CommitSuccess | src/file.rs:272-279 | a successful commit installs the written entry as the target and leaves every other file alone; `link` succeeds only without a target |
| AtomicWrite.AfterCreateSuccess | src/file.rs:261-279 | after creation, success puts exactly the writer's content and the chosen mode in the target and changes nothing else |
| AtomicWrite.FailureLeavesDirectory | src/file.rs:243-279 | for every target, a failed run leaves the directory as it was when the guard's `unlink` works; a seeding failure is `EIO` |
| AtomicWrite.FailureKeepsTarget | src/file.rs:243-279 | a failed run never creates, removes or changes the target, even when `unlink` fails |
| AtomicWrite.SuccessInstallsContent | src/file.rs:261-279 | success returns the writer's value; the target holds its content with the requested mode, or the old mode under ClobberSavingPerms; NoClobber succeeds only without a target; no temporary name survives unless `unlink` fails after a link |
| AtomicWrite.SucceedsUnlessSomethingFails | src/file.rs:243-279 | for every target: with no failing call, a writer that succeeds and a free name, the run succeeds, except under NoClobber when the target exists or is the temporary name, where it fails with `EEXIST` |
| AtomicWrite.TargetIsTempName | src/file.rs:249-279 | when the temporary name is the target's: NoClobber fails with `EEXIST`; a success is a Clobber run that renames the file onto itself, with mode 0o600 under ClobberSavingPerms; a failure leaves the file exactly when `unlink` fails |
| AtomicWrite.AfterCreateOnItself | src/file.rs:254-279 | after creation with the temporary name as the target: the same cases as TargetIsTempName, for the steps from `chmod` on |
| AtomicWrite.NoClobberConflict | src/file.rs:272-273 | under NoClobber an existing target is never replaced: once the writer succeeds, the run fails with `EEXIST`, and the directory is as it was when `unlink` works |
| AtomicWrite.FileSystem.StatAt | src/file.rs:157-171 | the stat step reports the target's truncated mode, `ENOENT`, or the injected fault |
| AtomicWrite.FileSystem.Fchmod | src/file.rs:29-33 | chmod sets the temporary file's mode and keeps its content, or fails with no change |
| AtomicWrite.FileSystem.LinkAt | src/file.rs:130-137 | link never replaces an existing name (`EEXIST`); otherwise it adds the new name or fails with no change |
| AtomicWrite.FileSystem.RenameAt | src/file.rs:120-126 | rename moves the file over whatever had the new name, or fails with no change |
| AtomicWrite.FileSystem.UnlinkAt | src/file.rs:254-258 | the guard removes the temporary name, and an `unlink` error changes nothing |
| AtomicWrite.ChooseMode | src/file.rs:261-268 | NoClobber and Clobber use the requested mode; ClobberSavingPerms uses the target's truncated mode, the requested mode on `ENOENT`, and aborts on any other stat error |
| AtomicWrite.CommitMethod | src/file.rs:272-278 | link under NoClobber with the guard left armed; rename otherwise, and only a successful rename defuses the guard |
| AtomicWrite.AfterCreateMethod | src/file.rs:254-279 | the steps after creation, with the guard run on every exit it is armed for, give the specification's run |
| AtomicWrite.AtomicWriteFileAtMethod | src/file.rs:243-280 | the whole protocol, step by step on the directory, gives the specification's result and directory |

## Left out

- System calls themselves (`syscall!`), closing descriptors on drop, `readv`/`writev`, `sync`, `truncate`, `exec`, pipes, `dup` and `munmap`: these are I/O. The kernel appears only as the oracles described above.
- `src/process.rs`, `src/poll.rs`, `src/signal.rs`, `src/args.rs`, `src/err.rs` and `src/lib.rs`: process, polling and signal wrappers, a raw `argv` walk, re-exports and a module list. They hold no logic beyond argument passing.
- `Map`'s `Deref`, `DerefMut` and `Drop`: raw slices and `munmap`.
- `EpochTime::now`, `from_c_timespec`, `from_s_ns` and `sleep_until`: clock system calls and `timespec` conversion.
- Time.SleepFor: the `timespec` the span becomes is not modelled; the kernel sees the span itself. The two panics, a span that is not positive and one whose whole seconds do not fit an `i64`, are preconditions.
- Time.Span: `tempus::Span` is external. It is taken to hold an exact nanosecond count, so `to_ns` and `from_ns` are inverse.
- Time.Add: an `i128` overflow in `+`, `-`, `+=`, `-=` and the difference of two times panics in a build with overflow checks and wraps around in one without them. Neither behaviour is modelled: these operations require the result to fit.
- Random.Kind: the `Unexpected` error carries the error code in place of the message text from `Error::message`.
- Random.TryFillBytesGetrandom: `&mut bs[0]` (src/random.rs:55) panics on an empty buffer before any call, so this method, `FillBytes` and `TryFillBytes` require a non-empty buffer and the empty case is not modelled. The `bs.len() as isize` cast is not modelled (buffers are taken to be shorter than `isize::MAX`); a reply script that runs out before the loop ends, or that claims more bytes than were asked for, is excluded by precondition.
- The build script's process and file work: running `cc -E -dM`, creating the output files, the lines `go` writes, the `strerror`/`strsignal` descriptions and the signal-set byte dumps. These are I/O, foreign calls and raw memory dumps.
- Build.IsSignalName: `is_uppercase` is modelled for ASCII letters only; a non-ASCII upper-case fourth character counts as not upper case.
- Build.DebugName: `{:?}` escaping of quotes and backslashes is not modelled; names are C identifiers and never contain them.
- Build.PutOpt: `k + 1` overflowing a `usize` is not modelled.
- Build.Go: `usize::from_str` is taken on a 64-bit build host.
- Errors.FromSysret: negating `isize::MIN` overflows, so `SysRet` leaves that word out of the returns it accepts.
- The `error_messages` table is read by `message` but never generated by the build script; both name and message tables are parameters.
- AtomicWrite.AtomicWriteFileAt: the writer is one (content, result) pair: its content is stored in the temporary file before its result is checked, so a failing writer's content stays there when `unlink` fails, but partial writes, several writes and the writer reading the file are not modelled. The directory holds only regular files, in one flat map from names to files: the target and the temporary name are taken to be canonical names relative to `opt_dir`, so an absolute path, a path through another directory or another spelling of the same name is not modelled, and a cross-directory `rename` or `link` (`EXDEV`) appears only as an injected fault. Symbolic links, the `umask` applied at creation and other processes changing the directory are not modelled.
- AtomicWrite.FailureKeepsTarget: stated for targets that exist or are not twelve capital letters. A missing target of that shape could itself be chosen as the temporary name; AtomicWrite.TargetIsTempName states what happens then (a failure whose `unlink` fails leaves a file at the target).
- AtomicWrite.SuccessInstallsContent: stated under the same condition. When a missing target is chosen as the temporary name, ClobberSavingPerms gives it mode 0o600 instead of the requested one, as AtomicWrite.TargetIsTempName states.
- The generator seeded from `OsRandom` is a sequence of drawn numbers (`draw`); how `SmallRng` turns the seed into numbers is not modelled.

## Findings

| source | as written | input that shows it | evidently intended | confidence | as-written member | corrected member |
|---|---|---|---|---|---|---|
| src/file.rs:363 | `mode >> sect` masks the section's bits with 3, dropping the Read bit | `(Read << USR) >> USR`: 0o400 shifted back gives the empty permission | mask with 7, so `(p << s) >> s == p` | high; not executed | Files.ShrDropsRead | Files.ShlShrRoundTrip |
| src/mem.rs:94-96 | `seg.unwrap_or(...)` evaluates its default first, so the file is always `stat`ed and its size converted, even when a segment is given | 32-bit target, an 8 GiB file, segment (offset 0, length 4096): `EOVERFLOW` | compute the default only without a segment (`unwrap_or_else`) | medium; not executed | Mem.EagerDefaultRejectsSegment | Mem.LazySegmentSpec |
