/** The IO class (src/io.c): the descriptor record struct mrb_io, its lifecycle
    (allocate, initialize, finalize or close, closed?) and the unbuffered system
    calls sysopen, sysread, sysseek, syswrite and sysclose. Every system call is a
    function parameter standing for what the operating system answers. */
module Io {
  import opened Runtime
  import opened IoMode

  /** The fields of struct mrb_io as one value. */
  datatype HandleState = HandleState(fd: int32, fd2: int32, pid: int32, writable: bool, sync: bool)

  /** The record mrb_io_alloc hands out: no descriptors, no child, not writable. */
  const ALLOCATED: HandleState := HandleState(-1, -1, 0, false, false)

  /** What this code can reach: nothing here ever stores a second descriptor or a
      child pid, so they keep the values mrb_io_alloc gives them. */
  predicate Reachable(data: Option<HandleState>) {
    data.Some? ==> data.value.fd2 == -1 && data.value.pid == 0
  }

  /** closed? */
  predicate IsClosed(s: HandleState) {
    s.fd < 0
  }

  /** What fptr_finalize leaves behind: the new record, the descriptors handed to
      close(2) in order, and whether it raised. */
  datatype Finalized = Finalized(state: HandleState, attempted: seq<int32>, raised: bool)

  /** fptr_finalize on a record: each descriptor above 2 is closed and reset to -1
      when its close returns 0; the result of the last close attempted decides
      whether it raises (unless `noraise`). */
  function AfterFinalize(s: HandleState, noraise: bool, close: int32 -> int): Finalized {
    var n1 := if s.fd > 2 then close(s.fd) else 0;
    var fd := if s.fd > 2 && n1 == 0 then -1 else s.fd;
    var n := if s.fd2 > 2 then close(s.fd2) else n1;
    var fd2 := if s.fd2 > 2 && n == 0 then -1 else s.fd2;
    Finalized(s.(fd := fd, fd2 := fd2),
              (if s.fd > 2 then [s.fd] else []) + (if s.fd2 > 2 then [s.fd2] else []),
              !noraise && n != 0)
  }

  /** The IO object's data pointer after a call, how the call ended, and the
      descriptors it handed to close(2). */
  datatype Transition = Transition(data: Option<HandleState>, outcome: Outcome, attempted: seq<int32>)

  /** IO#close on the data pointer: a closed stream raises IOError; an open one is
      finalized and raises when finalization does; a missing record is let be. */
  function AfterClose(data: Option<HandleState>, close: int32 -> int): Transition {
    match data
    case None => Transition(None, Pass, [])
    case Some(s) =>
      if s.fd < 0 then Transition(data, Fail(IOError), [])
      else
        var f := AfterFinalize(s, false, close);
        Transition(Some(f.state), if f.raised then Fail(SystemCallError) else Pass, f.attempted)
  }

  /** IO#initialize on the data pointer: a nil mode means "r"; a bad mode raises
      before anything changes; a previous record is finalized (raising) before a
      fresh one replaces it. */
  function AfterInitialize(data: Option<HandleState>, fd: int, mode: Option<string>, close: int32 -> int): Transition {
    var flags := ModeFlags(CStr(mode.GetOr("r")));
    if flags.Raise? then Transition(data, Fail(flags.exc), [])
    else
      var f := if data.Some? then AfterFinalize(data.value, false, close) else Finalized(ALLOCATED, [], false);
      if f.raised then Transition(Some(f.state), Fail(SystemCallError), f.attempted)
      else Transition(Some(ALLOCATED.(fd := WrapInt32(fd), writable := flags.value & FMODE_WRITABLE != 0)),
                      Pass, f.attempted)
  }

  /** IO#sync on a record. */
  function SyncValue(s: HandleState): Result<bool> {
    if s.fd < 0 then Raise(IOError) else Ok(s.sync)
  }

  /** syswrite writes to the second descriptor when there is one. */
  function WriteTarget(s: HandleState): int32 {
    if s.fd2 == -1 then s.fd else s.fd2
  }

  /** What read(2) answers: -1, or the bytes it stored (0 of them at end of file). */
  datatype ReadReply = ReadFailed | ReadBytes(bytes: seq<byte>)

  /** read(2) never stores more than it is asked for. */
  predicate ReadWithin(reply: ReadReply, count: int) {
    reply.ReadBytes? ==> |reply.bytes| <= count
  }

  /** The errno values sysopen tells apart. */
  datatype Errno = ENFILE | EMFILE | OtherErrno

  /** What open(2) answers: a descriptor, or -1 with an errno. */
  datatype OpenReply = OpenFd(fd: int32) | OpenFailed(errno: Errno)

  /** The descriptor table of the process or of the system is full. */
  predicate TooManyFiles(e: Errno) {
    e == ENFILE || e == EMFILE
  }

  /** sysopen's permission argument: a negative (or omitted) one means 0666. */
  function EffectivePerm(perm: int): (p: int)
    ensures p >= 0
    ensures perm >= 0 ==> p == perm
    ensures perm < 0 ==> p == 0x1B6
  {
    if perm < 0 then 0x1B6 else perm
  }

  /** The C struct mrb_io. */
  class Handle {
    var fd: int32
    var fd2: int32
    var pid: int32
    var writable: bool
    var sync: bool

    function State(): HandleState
      reads this
    {
      HandleState(fd, fd2, pid, writable, sync)
    }

    /** mrb_io_alloc. */
    constructor Alloc()
      ensures State() == ALLOCATED
    {
      fd, fd2, pid := -1, -1, 0;
      writable, sync := false, false;
    }

    /** fptr_finalize. */
    method Finalize(noraise: bool, close: int32 -> int) returns (attempted: seq<int32>, raised: bool)
      modifies this
      ensures var f := AfterFinalize(old(State()), noraise, close);
        State() == f.state && attempted == f.attempted && raised == f.raised
    {
      var n := 0;
      attempted := [];
      if fd > 2 {
        attempted := attempted + [fd];
        n := close(fd);
        if n == 0 {
          fd := -1;
        }
      }
      if fd2 > 2 {
        attempted := attempted + [fd2];
        n := close(fd2);
        if n == 0 {
          fd2 := -1;
        }
      }
      raised := !noraise && n != 0;
    }
  }

  /** An IO object; `ptr` is its DATA_PTR, null until initialize has run. */
  class IoObject {
    var ptr: Handle?

    function Data(): Option<HandleState>
      reads this, ptr
    {
      if ptr == null then None else Some(ptr.State())
    }

    predicate Valid()
      reads this, ptr
    {
      Reachable(Data())
    }

    /** A freshly allocated IO object, before initialize. */
    constructor ()
      ensures ptr == null && Valid()
    {
      ptr := null;
    }

    /** mrb_io_initialize. */
    method Initialize(fd: int, mode: Option<string>, close: int32 -> int) returns (r: Outcome, attempted: seq<int32>)
      requires Valid()
      modifies this, ptr
      ensures Valid()
      ensures Transition(Data(), r, attempted) == AfterInitialize(old(Data()), fd, mode, close)
      ensures r.Pass? ==> fresh(ptr)
      ensures r.Fail? ==> ptr == old(ptr)
    {
      var m := if mode.Some? then mode.value else "r";
      var flags := ModestrToFlags(m);
      if flags.Raise? {
        return Fail(flags.exc), [];
      }
      attempted := [];
      if ptr != null {
        var raised;
        attempted, raised := ptr.Finalize(false, close);
        if raised {
          return Fail(SystemCallError), attempted;
        }
      }
      var h := new Handle.Alloc();
      ptr := h;
      h.fd := WrapInt32(fd);
      h.writable := flags.value & FMODE_WRITABLE != 0;
      h.sync := false;
      r := Pass;
    }

    /** mrb_io_free, run when the object is collected: finalize without raising,
        then drop the record. */
    method Free(close: int32 -> int) returns (attempted: seq<int32>)
      requires Valid()
      modifies this, ptr
      ensures ptr == null && Valid()
      ensures old(ptr) == null ==> attempted == []
      ensures old(ptr) != null ==>
        var f := AfterFinalize(old(ptr.State()), true, close);
        old(ptr).State() == f.state && attempted == f.attempted
    {
      attempted := [];
      if ptr != null {
        var raised;
        attempted, raised := ptr.Finalize(true, close);
      }
      ptr := null;
    }

    /** mrb_io_close. */
    method Close(close: int32 -> int) returns (r: Outcome, attempted: seq<int32>)
      requires Valid()
      modifies ptr
      ensures Valid()
      ensures Transition(Data(), r, attempted) == AfterClose(old(Data()), close)
    {
      if ptr != null && ptr.fd < 0 {
        return Fail(IOError), [];
      }
      attempted := [];
      r := Pass;
      if ptr != null {
        var raised;
        attempted, raised := ptr.Finalize(false, close);
        if raised {
          r := Fail(SystemCallError);
        }
      }
    }

    /** mrb_io_closed: closed iff the descriptor is negative. */
    method Closed() returns (b: bool)
      requires ptr != null
      ensures b <==> IsClosed(ptr.State())
    {
      b := !(ptr.fd >= 0);
    }

    /** mrb_io_pid: the child's pid when positive, else nil; in every reachable
        state there is no child, so it is nil. */
    method Pid() returns (r: Option<int32>)
      requires ptr != null
      ensures r.Some? <==> ptr.pid > 0
      ensures r.Some? ==> r.value == ptr.pid
      ensures Valid() ==> r == None
    {
      if ptr.pid > 0 {
        return Some(ptr.pid);
      }
      return None;
    }

    /** mrb_io_fileno: the descriptor, -1 once closed. */
    method Fileno() returns (n: int32)
      requires ptr != null
      ensures n == ptr.fd
      ensures n < 0 <==> IsClosed(ptr.State())
    {
      n := ptr.fd;
    }

    /** mrb_io_set_sync: raises on a closed stream, else stores the flag. */
    method SetSync(b: bool) returns (r: Result<bool>)
      requires Valid() && ptr != null
      modifies ptr
      ensures Valid()
      ensures r == if IsClosed(old(ptr.State())) then Raise(IOError) else Ok(b)
      ensures ptr.State() == if r.Ok? then old(ptr.State()).(sync := b) else old(ptr.State())
    {
      if ptr.fd < 0 {
        return Raise(IOError);
      }
      ptr.sync := b;
      r := Ok(b);
    }

    /** mrb_io_sync. */
    method Sync() returns (r: Result<bool>)
      requires ptr != null
      ensures r.Raise? <==> IsClosed(ptr.State())
      ensures r.Raise? ==> r.exc == IOError
      ensures r.Ok? ==> r.value == ptr.sync
      ensures r == SyncValue(ptr.State())
    {
      if ptr.fd < 0 {
        return Raise(IOError);
      }
      r := Ok(ptr.sync);
    }

    /** mrb_io_sysread: a negative length gives nil without reading; otherwise one
        read(2) of up to `maxlen` bytes, whose answer becomes the string read, ""
        for a zero-length read at end of file, EOFError for any other read at end
        of file, or a system error. */
    method Sysread(maxlen: int, read: (int32, int) -> ReadReply) returns (r: Result<Option<seq<byte>>>)
      requires maxlen >= 0 ==> ptr != null && ReadWithin(read(ptr.fd, maxlen), maxlen)
      ensures maxlen < 0 ==> r == Ok(None)
      ensures maxlen >= 0 && read(ptr.fd, maxlen).ReadFailed? ==> r == Raise(SystemCallError)
      ensures maxlen >= 0 && read(ptr.fd, maxlen) == ReadBytes([]) ==>
        r == if maxlen == 0 then Ok(Some([])) else Raise(EOFError)
      ensures maxlen >= 0 && read(ptr.fd, maxlen).ReadBytes? && read(ptr.fd, maxlen).bytes != [] ==>
        r == Ok(Some(read(ptr.fd, maxlen).bytes))
      ensures r.Ok? && r.value.Some? ==> |r.value.value| <= maxlen
      ensures maxlen == 0 ==> r != Raise(EOFError)
    {
      if maxlen < 0 {
        return Ok(None);
      }
      var reply := read(ptr.fd, maxlen);
      match reply {
        case ReadFailed =>
          r := Raise(SystemCallError);
        case ReadBytes(bytes) =>
          if |bytes| == 0 {
            if maxlen == 0 {
              r := Ok(Some([]));
            } else {
              r := Raise(EOFError);
            }
          } else {
            r := Ok(Some(bytes));
          }
      }
    }

    /** mrb_io_sysseek: a negative (or omitted, -1) whence means SEEK_SET; the
        offset lseek(2) returns is stored in a C int and a negative one raises. */
    method Sysseek(offset: int, whence: int, lseek: (int32, int, int32) -> int) returns (r: Result<int32>)
      requires ptr != null
      ensures var pos := WrapInt32(lseek(ptr.fd, offset, WrapInt32(if whence < 0 then 0 else whence)));
        r == if pos < 0 then Raise(IOError) else Ok(pos)
      ensures r.Ok? ==> r.value >= 0
    {
      var w := if whence < 0 then 0 else whence;
      var pos := WrapInt32(lseek(ptr.fd, offset, WrapInt32(w)));
      if pos < 0 {
        return Raise(IOError);
      }
      r := Ok(pos);
    }

    /** mrb_io_syswrite: IOError unless writable; one write(2) of the whole string
        to the second descriptor if there is one, else to the first, whose return
        value is handed back as it is, failure or short count included. */
    method Syswrite(data: seq<byte>, write: (int32, seq<byte>) -> int) returns (r: Result<int32>)
      requires ptr != null
      ensures !ptr.writable ==> r == Raise(IOError)
      ensures ptr.writable ==> r == Ok(WrapInt32(write(WriteTarget(ptr.State()), data)))
      ensures Valid() && ptr.writable ==> r == Ok(WrapInt32(write(ptr.fd, data)))
    {
      if !ptr.writable {
        return Raise(IOError);
      }
      var fd := if ptr.fd2 == -1 then ptr.fd else ptr.fd2;
      var length := WrapInt32(write(fd, data));
      r := Ok(length);
    }
  }

  /** IO.for_fd: a new IO object, initialized. */
  method ForFd(fd: int, mode: Option<string>, close: int32 -> int) returns (io: IoObject, r: Outcome)
    ensures fresh(io) && io.Valid()
    ensures io.Data() == AfterInitialize(None, fd, mode, close).data
    ensures r == AfterInitialize(None, fd, mode, close).outcome
  {
    io := new IoObject();
    var attempted;
    r, attempted := io.Initialize(fd, mode, close);
  }

  /** IO.sysclose: close(2) on a bare descriptor; only a -1 answer raises. */
  function Sysclose(fd: int, close: int32 -> int): (r: Result<int>)
    ensures r.Raise? <==> close(WrapInt32(fd)) == -1
    ensures r.Raise? ==> r.exc == SystemCallError
    ensures r.Ok? ==> r.value == 0
  {
    if close(WrapInt32(fd)) == -1 then Raise(SystemCallError) else Ok(0)
  }

  /** mrb_io_s_sysopen: parse the mode (default "r"), then open(2) at most twice;
      the second attempt comes only after the first failed with ENFILE or EMFILE,
      and one garbage collection runs before it. `open`'s last argument says how
      many collections have run, since a collection may free descriptors. */
  method Sysopen(path: string, mode: Option<string>, perm: int, open: (string, Modenum, int, nat) -> OpenReply)
    returns (r: Result<int32>, attempts: nat, collections: nat)
    ensures var flags := ModeFlags(CStr(mode.GetOr("r")));
      flags.Raise? ==> r == Raise(ArgumentError) && attempts == 0 && collections == 0
    ensures var flags := ModeFlags(CStr(mode.GetOr("r")));
      flags.Ok? ==>
        var first := open(path, FlagsToModenum(flags.value), EffectivePerm(perm), 0);
        var last := open(path, FlagsToModenum(flags.value), EffectivePerm(perm), if attempts == 2 then 1 else 0);
        && 1 <= attempts <= 2
        && collections == attempts - 1
        && (attempts == 2 <==> first.OpenFailed? && TooManyFiles(first.errno))
        && r == if last.OpenFd? then Ok(last.fd) else Raise(SystemCallError)
  {
    var m := if mode.Some? then mode.value else "r";
    var p := EffectivePerm(perm);
    var flags := ModestrToFlags(m);
    attempts, collections := 0, 0;
    if flags.Raise? {
      return Raise(flags.exc), 0, 0;
    }
    var modenum := FlagsToModenum(flags.value);
    var retry := false;
    while true
      invariant attempts == (if retry then 1 else 0) && collections == attempts
      invariant retry ==> var first := open(path, modenum, p, 0);
        first.OpenFailed? && TooManyFiles(first.errno)
      decreases if retry then 0 else 1
    {
      var reply := open(path, modenum, p, collections);
      attempts := attempts + 1;
      if reply.OpenFailed? {
        if !retry && TooManyFiles(reply.errno) {
          collections := collections + 1;  // mrb_garbage_collect
          retry := true;
          continue;
        }
        return Raise(SystemCallError), attempts, collections;
      }
      return Ok(reply.fd), attempts, collections;
    }
  }

  // ---------------------------------------------------------------------------
  // Properties of the lifecycle

  /** Finalization hands only descriptors above 2 to close(2), never the standard
      streams, and touches no field but the two descriptors. */
  lemma FinalizeClosesOnlyAboveStdio(s: HandleState, noraise: bool, close: int32 -> int)
    ensures var f := AfterFinalize(s, noraise, close);
      && (forall d :: d in f.attempted ==> d > 2)
      && (s.fd > 2 <==> s.fd in f.attempted[..if s.fd > 2 then 1 else 0])
      && (s.fd2 > 2 ==> |f.attempted| > 0 && f.attempted[|f.attempted| - 1] == s.fd2)
      && |f.attempted| == (if s.fd > 2 then 1 else 0) + (if s.fd2 > 2 then 1 else 0)
      && f.state.pid == s.pid && f.state.writable == s.writable && f.state.sync == s.sync
  {
  }

  /** A descriptor changes only by being reset to -1, and that happens exactly
      when it was above 2 and its close returned 0. */
  lemma FinalizeResetsOnlyOnSuccess(s: HandleState, noraise: bool, close: int32 -> int)
    ensures var f := AfterFinalize(s, noraise, close);
      && (f.state.fd != s.fd <==> s.fd > 2 && close(s.fd) == 0)
      && (f.state.fd != s.fd ==> f.state.fd == -1)
      && (f.state.fd2 != s.fd2 <==> s.fd2 > 2 && close(s.fd2) == 0)
      && (f.state.fd2 != s.fd2 ==> f.state.fd2 == -1)
  {
  }

  /** Only the last close attempted decides whether finalization raises: a failed
      close of fd followed by a successful close of fd2 goes unreported, and fd
      stays open. */
  lemma FinalizeLastCloseDecides(s: HandleState, noraise: bool, close: int32 -> int)
    ensures var f := AfterFinalize(s, noraise, close);
      f.raised <==> !noraise && |f.attempted| > 0 && close(f.attempted[|f.attempted| - 1]) != 0
    ensures s.fd > 2 && close(s.fd) != 0 && s.fd2 > 2 && close(s.fd2) == 0 ==>
      var f := AfterFinalize(s, noraise, close);
      !f.raised && f.state.fd == s.fd && !IsClosed(f.state)
  {
  }

  /** Finalization for the garbage collector never raises. */
  lemma FinalizeNoraiseNeverRaises(s: HandleState, close: int32 -> int)
    ensures !AfterFinalize(s, true, close).raised
  {
  }

  /** Once every close it attempted has succeeded, finalizing again closes
      nothing and cannot raise: a descriptor is released at most once. */
  lemma FinalizeSettles(s: HandleState, noraise: bool, close: int32 -> int)
    requires forall d :: d in AfterFinalize(s, noraise, close).attempted ==> close(d) == 0
    ensures var f := AfterFinalize(s, noraise, close);
      var g := AfterFinalize(f.state, noraise, close);
      !f.raised && g.attempted == [] && !g.raised && g.state == f.state
  {
    var f := AfterFinalize(s, noraise, close);
    if s.fd > 2 {
      assert f.attempted[0] == s.fd;
    }
    if s.fd2 > 2 {
      assert f.attempted[|f.attempted| - 1] == s.fd2;
    }
  }

  /** Closing an open handle whose descriptor is above 2 and closes cleanly
      succeeds and leaves it closed; a second close then raises IOError. */
  lemma CloseTwiceRaises(s: HandleState, close: int32 -> int)
    requires Reachable(Some(s)) && s.fd > 2 && close(s.fd) == 0
    ensures var t := AfterClose(Some(s), close);
      && t.outcome == Pass && t.attempted == [s.fd]
      && t.data.Some? && IsClosed(t.data.value)
      && AfterClose(t.data, close).outcome == Fail(IOError)
      && SyncValue(t.data.value) == Raise(IOError)
  {
  }

  /** Closing a handle on descriptor 0, 1 or 2 closes nothing, succeeds and leaves
      it open, so it can be "closed" again and again. */
  lemma CloseStdStreamStaysOpen(s: HandleState, close: int32 -> int)
    requires Reachable(Some(s)) && 0 <= s.fd <= 2
    ensures var t := AfterClose(Some(s), close);
      t == Transition(Some(s), Pass, []) && !IsClosed(s)
  {
  }

  /** A close(2) failure raises and leaves the handle open with its descriptor. */
  lemma CloseFailureKeepsOpen(s: HandleState, close: int32 -> int)
    requires Reachable(Some(s)) && s.fd > 2 && close(s.fd) != 0
    ensures AfterClose(Some(s), close) == Transition(Some(s), Fail(SystemCallError), [s.fd])
  {
  }

  /** Every call keeps the reachable-state invariant. */
  lemma TransitionsStayReachable(data: Option<HandleState>, fd: int, mode: Option<string>, b: bool, close: int32 -> int)
    requires Reachable(data)
    ensures Reachable(AfterClose(data, close).data)
    ensures Reachable(AfterInitialize(data, fd, mode, close).data)
    ensures data.Some? ==> Reachable(Some(data.value.(sync := b)))
  {
  }

  /** A nil mode means "r". */
  lemma InitializeDefaultsToRead(data: Option<HandleState>, fd: int, close: int32 -> int)
    ensures AfterInitialize(data, fd, None, close) == AfterInitialize(data, fd, Some("r"), close)
  {
  }

  /** A well-formed mode on an object with no record, or whose record finalizes
      cleanly, yields the record {fd, -1, 0, writable, false}, writable exactly for
      "w", "a" and any mode with '+'. */
  lemma InitializeFreshRecord(data: Option<HandleState>, fd: int, m: string, close: int32 -> int)
    requires WellFormedMode(CStr(m))
    requires data.Some? ==> !AfterFinalize(data.value, false, close).raised
    ensures var c := CStr(m);
      AfterInitialize(data, fd, Some(m), close)
        == Transition(Some(HandleState(WrapInt32(fd), -1, 0, c[0] != 'r' || '+' in c[1..], false)), Pass,
                      if data.Some? then AfterFinalize(data.value, false, close).attempted else [])
  {
    ModeTable(CStr(m));
  }

  /** Re-initializing an object releases its previous descriptor first; if that
      close fails the call raises and the old descriptor stays in place. */
  lemma InitializeReleasesPrevious(s: HandleState, fd: int, mode: Option<string>, close: int32 -> int)
    requires Reachable(Some(s)) && s.fd > 2
    requires ModeFlags(CStr(mode.GetOr("r"))).Ok?
    ensures var t := AfterInitialize(Some(s), fd, mode, close);
      && t.attempted == [s.fd]
      && (t.outcome == Pass <==> close(s.fd) == 0)
      && (close(s.fd) != 0 ==> t == Transition(Some(s), Fail(SystemCallError), [s.fd]))
  {
  }

  /** A handle initialized with mode "r" is not writable, so syswrite raises
      IOError; with "w" or "a" it is writable. */
  lemma ReadModeNotWritable(fd: int, close: int32 -> int)
    ensures var t := AfterInitialize(None, fd, Some("r"), close);
      t.outcome == Pass && t.data.Some? && !t.data.value.writable
    ensures AfterInitialize(None, fd, Some("w"), close).data.value.writable
    ensures AfterInitialize(None, fd, Some("a"), close).data.value.writable
  {
    assert CStr("r") == "r";
    assert CStr("w") == "w";
    assert CStr("a") == "a";
  }

  /** sync= then sync gives back the flag set, on an open handle. */
  lemma SyncRoundTrip(s: HandleState, b: bool)
    requires !IsClosed(s)
    ensures SyncValue(s.(sync := b)) == Ok(b)
  {
  }

  /** In every reachable state syswrite writes to the first descriptor. */
  lemma WriteTargetIsFd(s: HandleState)
    requires Reachable(Some(s))
    ensures WriteTarget(s) == s.fd
  {
  }
}
