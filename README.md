# mruby-ev3rt-io in Dafny

A model of the `IO`, `File` and `FileTest` classes that mruby-ev3rt-io gives an
embedded mruby interpreter on the EV3RT target, whose files live on a FAT volume
reached through a FatFs driver. Each system call becomes a parameter of the
operation that makes it. That covers open(2), read(2), write(2), lseek(2),
close(2), stat(2), lstat(2) and fstat(2). The FatFs calls `f_unlink` and
`f_rename` become methods of a `Volume` object. It holds the volume's entries
as a map, and a fixed set of names that the driver refuses.

- `runtime.dfy` (module `Runtime`) holds the shared values: the exception
  classes raised here, "returns or raises" results, Ruby's nil, the C `int`
  with its wrap-around, and the string a C function sees up to the first NUL.
- `io_mode.dfy` (module `IoMode`) covers access-mode strings. A parser with a
  `while` loop is proved equal to a declarative reference `ModeFlags`. The
  translator from FMODE flags to `O_*` flags is specified bit by bit.
- `io.dfy` (module `Io`) covers the descriptor record `struct mrb_io` and the
  IO object around it. `Handle` is a class whose fields `fd`, `fd2`, `pid`,
  `writable` and `sync` are updated in place. `IoObject` is the Ruby object
  whose data pointer `ptr` initialize replaces. Each state-changing method is
  specified by a function on the record's value (`AfterFinalize`, `AfterClose`,
  `AfterInitialize`), and the lemmas state the lifecycle's properties about
  those functions. The module also covers the system calls sysopen (with its
  single retry), sysread, sysseek, syswrite and sysclose.
- `file_test.dfy` (module `FileTest`) covers `mrb_stat0`'s dispatch on the
  argument's class and the six predicates it decides, over a stat result
  `StatFail | StatOk(kind, size)`.
- `file.dfy` (module `File`) covers basename, `File.unlink`/`File.delete`,
  `File.rename` with its unlink-and-retry fallback, the stubs and
  `File::Constants`.

Two sets of constant values are assumptions, because the headers that define
them are not part of this model:
- The `FMODE_*` values follow mruby-io's `mruby/ext/io.h`: READABLE 1,
  WRITABLE 2, READWRITE = READABLE|WRITABLE, BINMODE 4, APPEND 0x40,
  CREATE 0x80 and TRUNC 0x800.
- The `O_*` values follow newlib's `fcntl.h`: O_RDONLY 0, O_WRONLY 1, O_RDWR 2,
  O_APPEND 8, O_CREAT 0x200 and O_TRUNC 0x400.

`fatfs_dri.h` is not part of this model either. The `Volume` assumes that the
driver returns FatFs's FRESULT negated, so that a failure is negative, as the
`< 0` tests in `src/file.c` expect:
- `f_unlink` fails with FR_NO_FILE when the name is absent.
- `f_rename` fails with FR_NO_FILE when the source is absent.
- `f_rename` fails with FR_EXIST when a different destination exists.
- A rename of a name onto itself depends on the FatFs release, so the
  `Volume` carries a flag for it. Releases from R0.12 on re-register the entry
  and answer FR_OK, which leaves the volume unchanged. Earlier releases answer
  FR_EXIST.
- Either call fails with FR_DENIED on a refused name. Refused names stand for
  every other refusal of the driver: read-only or open files, non-empty
  directories, names in a missing directory, a write-protected or failing
  volume.

If the driver returned FRESULT unchanged, no `< 0` test would ever hold, and
unlink and rename would never raise.

A few of the model's consequences differ from a plain reading of the class
documentation. In each case the model follows the code.
- `exist?` and the other predicates raise IOError on a closed IO object; they
  do not answer false (`src/file_test.c:47-51`).
- `mrb_stat0` on this target accepts IO objects as well as strings. Any other
  argument fails like a failed stat; it does not raise ArgumentError.
- Finalization raises only when the last close it attempted failed
  (`src/io.c:184-196`), not when any close failed.
- Closing an IO on descriptor 0, 1 or 2 neither closes it nor marks it closed,
  so a second close does not raise.
- When the masked access bits match no case, the access part of the native
  flags stays 0, which is O_RDONLY. Mode strings never reach that case: every
  accepted string sets READABLE or WRITABLE.

## Model

| member | source | states |
|---|---|---|
| IoMode.ModestrToFlags | src/io.c:37-73 | the loop's flags equal the reference `ModeFlags` of the C view of the mode string: the base flags of 'r', 'w' or 'a', then BINMODE for a later 'b' and READWRITE for a later '+'; any other character raises ArgumentError |
| IoMode.ModeFlagsAccepts | src/io.c:43-70 | a mode is accepted iff it is one of r/w/a followed only by 'b' and '+'; rejection is always ArgumentError; "" and "r:utf-8" are rejected |
| IoMode.RepeatedSuffixIdempotent | src/io.c:57-70 | appending a 'b' or '+' that is already present does not change the parsed flags |
| IoMode.FlagsToModenum | src/io.c:75-103 | the masked triad selects exactly one of O_RDONLY, O_WRONLY, O_RDWR, or leaves the access part 0; the access part is never O_ACCMODE; O_APPEND, O_TRUNC and O_CREAT are each set iff their FMODE bit is; no other bit is ever set |
| IoMode.BinmodeIgnored | src/io.c:101 | BINMODE has no effect on the native flags |
| IoMode.ModeTable | src/io.c:43-102 | for every accepted mode string: O_RDWR iff '+', O_RDONLY iff "r" without '+', O_WRONLY iff "w"/"a" without '+', O_APPEND iff 'a', O_TRUNC iff 'w', O_CREAT iff not 'r'; WRITABLE iff not 'r' or '+' |
| Io.Handle.Alloc | src/io.c:117-129 | a new record has fd -1, fd2 -1, pid 0, not writable, not sync |
| Io.Handle.Finalize | src/io.c:174-199 | the record's new fields, the descriptors closed and whether it raises are those of `AfterFinalize` on the old record |
| Io.FinalizeClosesOnlyAboveStdio | src/io.c:183-194 | only descriptors above 2 are handed to close, fd before fd2, one call per descriptor above 2; pid, writable and sync never change |
| Io.FinalizeResetsOnlyOnSuccess | src/io.c:183-194 | a descriptor changes iff it was above 2 and its close returned 0, and then it becomes -1 |
| Io.FinalizeLastCloseDecides | src/io.c:177-198 | finalization raises iff noraise is false and the last close attempted failed; a failed fd close followed by a good fd2 close does not raise and leaves fd open |
| Io.FinalizeNoraiseNeverRaises | src/io.c:196-198 | finalization with noraise set never raises |
| Io.FinalizeSettles | src/io.c:183-198 | once every attempted close succeeded, finalizing again closes nothing, cannot raise and changes nothing |
| Io.IoObject.constructor | src/io.c:208-210 | a freshly allocated IO object has no record |
| Io.IoObject.Initialize | src/io.c:135-172 | the new data pointer, outcome and closes are those of `AfterInitialize`; success installs a fresh record, failure keeps the old pointer; the reachable-state invariant is kept |
| Io.InitializeDefaultsToRead | src/io.c:146-148 | a nil mode behaves as "r" |
| Io.InitializeFreshRecord | src/io.c:158-170 | with a valid mode and a clean finalization, the new record is {fd, -1, 0, writable, false}, writable exactly for "w", "a" and any mode with '+' |
| Io.InitializeReleasesPrevious | src/io.c:158-162 | re-initializing closes the previous descriptor first; it succeeds iff that close does, and otherwise raises and keeps the old record |
| Io.ReadModeNotWritable | src/io.c:153-170 | a handle initialized with "r" is not writable; with "w" or "a" it is |
| Io.IoObject.Free | src/io.c:105-113 | the collector's free finalizes the old record without raising and drops the pointer |
| Io.IoObject.Close | src/io.c:357-367 | the new data pointer, outcome and closes are those of `AfterClose`: IOError on a closed stream, else finalization that raises on failure |
| Io.CloseTwiceRaises | src/io.c:357-367 | a clean close of a descriptor above 2 closes it once; a second close, and sync, then raise IOError |
| Io.CloseStdStreamStaysOpen | src/io.c:183-188 | closing a handle on descriptor 0, 1 or 2 closes nothing, succeeds and leaves it open |
| Io.CloseFailureKeepsOpen | src/io.c:183-198 | a failed close raises and leaves the record unchanged |
| Io.TransitionsStayReachable | src/io.c:117-172 | close, initialize and sync= keep fd2 at -1 and pid at 0 |
| Io.IoObject.Closed | src/io.c:369-379 | closed? holds iff fd is negative |
| Io.IoObject.Pid | src/io.c:381-392 | the pid when positive, else nil; nil in every reachable state |
| Io.IoObject.Fileno | src/io.c:394-400 | the descriptor, negative iff closed |
| Io.IoObject.SetSync | src/io.c:416-430 | IOError on a closed stream and nothing changes; else the flag is stored and returned, and no other field changes |
| Io.IoObject.Sync | src/io.c:432-442 | IOError iff closed, else the stored flag; the answer is `SyncValue` of the record, which the sync lemmas are about |
| Io.SyncRoundTrip | src/io.c:416-442 | on an open handle, sync after sync=(b) answers b |
| Io.IoObject.Sysread | src/io.c:264-305 | nil for a negative length; "" for a zero-length read at end of file, EOFError for any other read at end of file, a system error for -1, else exactly the bytes read, never more than maxlen |
| Io.IoObject.Sysseek | src/io.c:307-326 | whence defaults to SEEK_SET; the position lseek returns, stored in a C int, is returned when non-negative and raises IOError otherwise |
| Io.IoObject.Syswrite | src/io.c:328-355 | IOError unless writable; else write's return, unchanged, for the whole string written to fd2 if set, else to fd |
| Io.WriteTargetIsFd | src/io.c:347-351 | in every reachable state syswrite writes to fd |
| Io.ForFd | src/io.c:201-212 | a new, valid IO object holding what initialize makes of no record |
| Io.Sysclose | src/io.c:214-223 | raises a system error iff close returns -1, else returns 0 |
| Io.EffectivePerm | src/io.c:238-240 | a negative permission becomes 0666, any other is kept |
| Io.Sysopen | src/io.c:225-262 | a bad mode raises ArgumentError before any open; otherwise open runs once, or twice with one collection between exactly when the first failed with ENFILE or EMFILE, and the last answer is the descriptor or a system error |
| FileTest.Stat0 | src/file_test.c:33-65 | an IO with fd >= 0 is fstat'ed on fd; an IO without a record or with fd < 0 raises IOError; a String goes to stat (lstat when asked); anything else fails |
| FileTest.Stat | src/file_test.c:67-71 | mrb_stat: an open IO is fstat'ed, an IO without an open descriptor raises IOError, a String goes to stat and never to lstat, anything else fails |
| FileTest.IsDirectory | src/file_test.c:92-110 | raises iff the stat raises; true iff the stat succeeds on a directory |
| FileTest.Exists | src/file_test.c:121-132 | raises iff the stat raises; true iff the stat succeeds |
| FileTest.IsFile | src/file_test.c:142-160 | raises iff the stat raises; true iff the stat succeeds on a regular file |
| FileTest.IsZero | src/file_test.c:170-184 | raises iff the stat raises; true iff the stat succeeds with size 0 |
| FileTest.Size | src/file_test.c:195-207 | the size iff the stat succeeds; a failed stat raises a system error |
| FileTest.SizeOrNil | src/file_test.c:217-231 | raises iff the stat raises; a value only when the stat succeeds, equal to its size and never 0 |
| FileTest.PredicatesImplyExists | src/file_test.c:104-183 | directory?, file? and zero? hold only of what exists; nothing is both a directory and a regular file |
| FileTest.MissingFileAsymmetry | src/file_test.c:195-231 | for a missing file the predicates are false and size? is nil, but size raises |
| FileTest.SizeOrNilAgreesWithSize | src/file_test.c:195-231 | for an existing file size? is size with 0 turned into nil, and zero? says whether size is 0 |
| FileTest.ClosedIoRaises | src/file_test.c:42-53 | every predicate, exist? included, raises IOError on an IO without an open descriptor |
| FileTest.OtherArgumentDoesNotExist | src/file_test.c:55-64 | an argument that is neither IO nor String does not exist, size? is nil and size raises |
| File.LockConstants | src/file.c:34-47 | LOCK_SH 1, LOCK_EX 2, LOCK_NB 4, LOCK_UN 8, distinct single bits; SEPARATOR is "/" |
| File.Umask | src/file.c:53-58 | always 0 |
| File.Getwd | src/file.c:121-137 | always nil |
| File.Gethome | src/file.c:139-143 | always nil |
| File.Strrchr | src/file.c:100 | the index of the last occurrence of the character, none iff it does not occur |
| File.Basename | src/file.c:97-119 | a suffix of the C string that contains no '/' and is either all of it or preceded by a '/' |
| File.BasenameCases | src/file.c:97-106 | a trailing '/' gives ""; a path without '/' is its own basename; basename is idempotent |
| File.Volume.FUnlink | src/file.c:23 | fails iff the name is absent or refused, and then changes nothing; else removes it |
| File.Volume.FRename | src/file.c:88 | fails for a missing source, a refused name or an existing different destination, and for a rename onto itself on releases that answer FR_EXIST, and then changes nothing; else the source's entry moves to the destination |
| File.UnlinkAll | src/file.c:69-75 | the paths removed form a prefix of the argument list, each present, not refused and not named earlier; the volume loses exactly those; the first path not removed was absent, refused or repeated |
| File.Unlink | src/file.c:60-77 | the loop leaves the volume of `UnlinkAll`, returns the argument count when every path was removed, else raises a system error |
| File.UnlinkDistinctPresent | src/file.c:69-76 | distinct present paths that are not refused are all removed and nothing else is |
| File.UnlinkStops | src/file.c:69-74 | a path given twice makes unlink fail; a refused first path stops it before anything is removed |
| File.UnlinkedPathsAreGone | src/file.c:69-76 | after a successful unlink, exist? is false for every path given |
| File.Rename | src/file.c:79-95 | the result, volume and sequence of volume calls are those of `RenameAsWritten`: rename, then unlink and one retry after a failure, the retry skipped when the unlink fails |
| File.RenameReplaces | src/file.c:88-94 | an existing source different from the destination, with neither name refused, is moved onto it, replacing it; the fallback runs iff the destination existed |
| File.RenameRefusedChangesNothing | src/file.c:88-92 | with both names refused, rename raises after the failed unlink and changes nothing |
| File.RenameRetrySkipped | src/file.c:89 | with neither name present, rename raises after two calls and changes nothing |
| File.RenameFailureDeletesDestination | src/file.c:88-92 | a rename with a missing source, or onto itself on releases that answer FR_EXIST, deletes an existing destination and raises |
| File.RenameOntoItself | src/file.c:88-92 | renaming a name onto itself succeeds and changes nothing where the driver re-registers it; where the driver answers FR_EXIST it loses the file and raises |
| File.RenameMissingSourceLosesDestination | src/file.c:88-92 | renaming a missing "a" onto an existing "b" empties the volume, whatever the release |
| File.RenameGuarded | src/file.c:88-94 | corrected rename, which falls back only on FR_EXIST for a different destination: it succeeds iff the source exists, neither name is refused and the rename is not onto itself on a release that refuses that; success moves the source; raising leaves the volume unchanged, on either release |

## Left out

- The POSIX calls are oracles. The real open, read, write, lseek, close and stat calls are not modelled beyond what each call answers.
- `fatfs_dri.h` is not part of this model. The `Volume` return codes are the assumption stated above.
- File.Volume.FUnlink, File.Volume.FRename: the driver is a stand-in with fixed answers, not an oracle. Its only failures are an absent name, an existing destination, a rename onto itself on releases before R0.12, and a refused name. Every other refusal reason is folded into the refused set, and each reports the single code FR_DENIED rather than its own FRESULT. The refused set does not change during a call.
- File.Volume.FRename: the answer to a rename onto the same name is a modelling choice taken as a flag of the volume, FR_OK or FR_EXIST, because the FatFs release on this target is not part of this model.
- File.Volume.FUnlink, File.Volume.FRename: names are compared as exact strings. FAT's case-insensitive matching and path normalization are not modelled, so `unlink("A")` does not remove an entry "a" here.
- The FMODE and `O_*` values are the assumptions stated above. `mruby/ext/io.h` and `fcntl.h` are not part of this model.
- mruby runtime machinery is left out because it is code not shown here:
  - argument marshalling (`mrb_get_args`) and its type errors;
  - `to_s` conversion in syswrite;
  - `mrb_convert_type`;
  - checks for embedded NUL bytes when strings are converted;
  - class and method registration.
  - Paths handed to unlink and rename are used as given.
  - Basename and the mode strings are modelled on the C view, up to the first NUL.
- Garbage collection is modelled only by the count of collections passed to open. Sysopen's retry sees it that way.
- `@buf`, `@pos` and `$/` are set but never read by this code.
- `close_on_exec?` and `close_on_exec=` only raise NotImplementedError.
- `mrblib/kernel.rb` delegates to `File.open`, which is not part of this model.
- Exception messages and errno values beyond the ENFILE/EMFILE distinction are left out.
- `File.umask` is modelled although `mrb_init_file` does not register it, so Ruby code cannot call it.
- The commented-out getcwd body and the unused `struct timeval` are left out.
- Io.IoObject.Sysread: the optional buffer argument is not modelled. The source resizes it to `maxlen` and then to the count read, so its earlier contents never reach the result. The count read(2) answers is stored in the C `int ret` before it is tested, so a count above 2^31 - 1 would wrap; the model takes the count as read answers it.
- Io.IoObject.Closed, Io.IoObject.Pid, Io.IoObject.Fileno, Io.IoObject.Sync, Io.IoObject.SetSync, Io.IoObject.Sysseek and Io.IoObject.Syswrite require an initialized object. In the source, `mrb_get_datatype` would hand them NULL and the C code would dereference it.
- Io.IoObject.Sysread requires the same for any non-negative length. It also requires that read never reports more bytes than asked for.
- Io.Sysopen: the retry is modelled on the errno classification only. The path is passed to open as given.
- FileTest: lstat is reachable only through `mrb_stat0`'s flag. No predicate uses it.

## Findings

| source | as written | input that shows it | evidently intended | confidence | as-written member | corrected member |
|---|---|---|---|---|---|---|
| src/file.c:88-92 | any failure of the first `f_rename` leads to unlinking the destination before the retry, whatever the reason for the failure | `File.rename("a", "b")` on a volume holding "b" but no "a" deletes "b" and then raises; on FatFs releases before R0.12, which answer FR_EXIST to a rename onto the same name, `File.rename("b", "b")` also deletes "b" | fall back to unlink-and-retry only when the rename failed because the destination exists, as CRuby does when it checks for EEXIST/EACCES | medium: depends on the driver's negated FRESULT codes; not executed | File.RenameFailureDeletesDestination | File.RenameGuarded |
