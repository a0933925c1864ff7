/** The FileTest class (src/file_test.c): predicates on a file named by a String
    or designated by an open IO object, decided from one stat(2) or fstat(2)
    answer. */
module FileTest {
  import opened Runtime
  import Io

  datatype FileKind = Directory | RegularFile | OtherKind

  /** What stat(2), lstat(2) or fstat(2) answers: failure (a negative return), or
      the file's type (S_ISDIR / S_ISREG of st_mode) and st_size. */
  datatype StatResult = StatFail | StatOk(kind: FileKind, size: int)

  /** The argument's runtime class as mrb_stat0 tells it apart: an IO (with its
      data pointer), a String, or anything else. */
  datatype Arg = IoArg(data: Option<Io.HandleState>) | StringArg(path: string) | OtherArg

  /** The three system calls mrb_stat0 may make. */
  datatype StatCalls = StatCalls(fstat: int32 -> StatResult, stat: string -> StatResult, lstat: string -> StatResult)

  /** mrb_stat0: an open IO goes to fstat(2) on its descriptor, an IO without an
      open descriptor raises IOError, a String goes to stat(2) (lstat(2) when
      asked), and any other argument fails like a failed call. */
  function Stat0(obj: Arg, doLstat: bool, sys: StatCalls): (r: Result<StatResult>)
    ensures r.Raise? <==> obj.IoArg? && (obj.data.None? || Io.IsClosed(obj.data.value))
    ensures r.Raise? ==> r.exc == IOError
    ensures obj.IoArg? && r.Ok? ==> r.value == sys.fstat(obj.data.value.fd)
    ensures obj.StringArg? ==> r == Ok(if doLstat then sys.lstat(obj.path) else sys.stat(obj.path))
    ensures obj.OtherArg? ==> r == Ok(StatFail)
  {
    match obj
    case IoArg(data) =>
      if data.Some? && data.value.fd >= 0 then Ok(sys.fstat(data.value.fd)) else Raise(IOError)
    case StringArg(path) =>
      Ok(if doLstat then sys.lstat(path) else sys.stat(path))
    case OtherArg =>
      Ok(StatFail)
  }

  /** mrb_stat: the stat(2) flavour every predicate uses; a String is never
      handed to lstat(2). */
  function Stat(obj: Arg, sys: StatCalls): (r: Result<StatResult>)
    ensures r.Raise? <==> obj.IoArg? && (obj.data.None? || Io.IsClosed(obj.data.value))
    ensures r.Raise? ==> r.exc == IOError
    ensures obj.IoArg? && r.Ok? ==> r.value == sys.fstat(obj.data.value.fd)
    ensures obj.StringArg? ==> r == Ok(sys.stat(obj.path))
    ensures obj.OtherArg? ==> r == Ok(StatFail)
  {
    Stat0(obj, false, sys)
  }

  /** directory?: false when the stat fails, else whether it is a directory. */
  function IsDirectory(obj: Arg, sys: StatCalls): (r: Result<bool>)
    ensures r.Raise? <==> Stat(obj, sys).Raise?
    ensures r == Ok(true) <==> Stat(obj, sys).Ok? && Stat(obj, sys).value.StatOk? && Stat(obj, sys).value.kind == Directory
  {
    match Stat(obj, sys)
    case Raise(e) => Raise(e)
    case Ok(StatFail) => Ok(false)
    case Ok(StatOk(kind, _)) => Ok(kind == Directory)
  }

  /** exist? (also registered as exists?): whether the stat succeeds. */
  function Exists(obj: Arg, sys: StatCalls): (r: Result<bool>)
    ensures r.Raise? <==> Stat(obj, sys).Raise?
    ensures r == Ok(true) <==> Stat(obj, sys).Ok? && Stat(obj, sys).value.StatOk?
  {
    match Stat(obj, sys)
    case Raise(e) => Raise(e)
    case Ok(st) => Ok(st.StatOk?)
  }

  /** file?: false when the stat fails, else whether it is a regular file. */
  function IsFile(obj: Arg, sys: StatCalls): (r: Result<bool>)
    ensures r.Raise? <==> Stat(obj, sys).Raise?
    ensures r == Ok(true) <==> Stat(obj, sys).Ok? && Stat(obj, sys).value.StatOk? && Stat(obj, sys).value.kind == RegularFile
  {
    match Stat(obj, sys)
    case Raise(e) => Raise(e)
    case Ok(StatFail) => Ok(false)
    case Ok(StatOk(kind, _)) => Ok(kind == RegularFile)
  }

  /** zero?: false when the stat fails, else whether the size is 0. */
  function IsZero(obj: Arg, sys: StatCalls): (r: Result<bool>)
    ensures r.Raise? <==> Stat(obj, sys).Raise?
    ensures r == Ok(true) <==> Stat(obj, sys).Ok? && Stat(obj, sys).value.StatOk? && Stat(obj, sys).value.size == 0
  {
    match Stat(obj, sys)
    case Raise(e) => Raise(e)
    case Ok(StatFail) => Ok(false)
    case Ok(StatOk(_, size)) => Ok(size == 0)
  }

  /** size: raises a system error when the stat fails, else the size. */
  function Size(obj: Arg, sys: StatCalls): (r: Result<int>)
    ensures Stat(obj, sys).Ok? && Stat(obj, sys).value.StatFail? ==> r == Raise(SystemCallError)
    ensures r.Ok? <==> Stat(obj, sys).Ok? && Stat(obj, sys).value.StatOk?
    ensures r.Ok? ==> r.value == Stat(obj, sys).value.size
  {
    match Stat(obj, sys)
    case Raise(e) => Raise(e)
    case Ok(StatFail) => Raise(SystemCallError)
    case Ok(StatOk(_, size)) => Ok(size)
  }

  /** size?: nil when the stat fails or the size is 0, else the size. */
  function SizeOrNil(obj: Arg, sys: StatCalls): (r: Result<Option<int>>)
    ensures r.Raise? <==> Stat(obj, sys).Raise?
    ensures r.Ok? && r.value.Some? ==> r.value.value != 0
    ensures r.Ok? && r.value.Some? ==> Stat(obj, sys).value.StatOk? && r.value.value == Stat(obj, sys).value.size
  {
    match Stat(obj, sys)
    case Raise(e) => Raise(e)
    case Ok(StatFail) => Ok(None)
    case Ok(StatOk(_, size)) => if size == 0 then Ok(None) else Ok(Some(size))
  }

  // ---------------------------------------------------------------------------
  // How the predicates relate

  /** directory?, file? and zero? hold only of something that exists, and nothing
      is both a directory and a regular file. */
  lemma PredicatesImplyExists(obj: Arg, sys: StatCalls)
    ensures IsDirectory(obj, sys) == Ok(true) ==> Exists(obj, sys) == Ok(true)
    ensures IsFile(obj, sys) == Ok(true) ==> Exists(obj, sys) == Ok(true)
    ensures IsZero(obj, sys) == Ok(true) ==> Exists(obj, sys) == Ok(true)
    ensures !(IsDirectory(obj, sys) == Ok(true) && IsFile(obj, sys) == Ok(true))
  {
  }

  /** The asymmetry of a failed stat: the predicates answer false, size? answers
      nil, but size raises a system error. */
  lemma MissingFileAsymmetry(obj: Arg, sys: StatCalls)
    requires Exists(obj, sys) == Ok(false)
    ensures IsDirectory(obj, sys) == Ok(false) && IsFile(obj, sys) == Ok(false) && IsZero(obj, sys) == Ok(false)
    ensures SizeOrNil(obj, sys) == Ok(None)
    ensures Size(obj, sys) == Raise(SystemCallError)
  {
  }

  /** For something that exists, size? is size with 0 turned into nil, and zero?
      says whether size is 0. */
  lemma SizeOrNilAgreesWithSize(obj: Arg, sys: StatCalls)
    requires Exists(obj, sys) == Ok(true)
    ensures Size(obj, sys).Ok?
    ensures SizeOrNil(obj, sys) == if Size(obj, sys).value == 0 then Ok(None) else Ok(Some(Size(obj, sys).value))
    ensures IsZero(obj, sys) == Ok(Size(obj, sys).value == 0)
  {
  }

  /** An IO object without an open descriptor makes every predicate raise
      IOError, exist? included: it does not answer false. */
  lemma ClosedIoRaises(data: Option<Io.HandleState>, sys: StatCalls)
    requires data.None? || Io.IsClosed(data.value)
    ensures var obj := IoArg(data);
      && Exists(obj, sys) == Raise(IOError) && IsDirectory(obj, sys) == Raise(IOError)
      && IsFile(obj, sys) == Raise(IOError) && IsZero(obj, sys) == Raise(IOError)
      && Size(obj, sys) == Raise(IOError) && SizeOrNil(obj, sys) == Raise(IOError)
  {
  }

  /** An argument that is neither an IO nor a String is reported as missing. */
  lemma OtherArgumentDoesNotExist(sys: StatCalls)
    ensures Exists(OtherArg, sys) == Ok(false) && SizeOrNil(OtherArg, sys) == Ok(None)
    ensures Size(OtherArg, sys) == Raise(SystemCallError)
  {
  }
}
