/** Access-mode strings of IO: parsing "r", "w", "a" with "b" and "+" suffixes into
    FMODE_* flags (src/io.c:37-73), and translating those flags into the native
    open(2) flags (src/io.c:75-103). */
module IoMode {
  import opened Runtime

  /** The FMODE_* flag word (a C `int`). */
  type Fmode = bv32

  // Values of the FMODE_* macros of mruby-io's mruby/ext/io.h; READWRITE is
  // READABLE|WRITABLE there, which decides how the translator's switch behaves.
  const FMODE_READABLE: Fmode := 0x1
  const FMODE_WRITABLE: Fmode := 0x2
  const FMODE_READWRITE: Fmode := FMODE_READABLE | FMODE_WRITABLE
  const FMODE_BINMODE: Fmode := 0x4
  const FMODE_APPEND: Fmode := 0x40
  const FMODE_CREATE: Fmode := 0x80
  const FMODE_TRUNC: Fmode := 0x800

  /** The mask the translator switches on. */
  const FMODE_TRIAD: Fmode := FMODE_READABLE | FMODE_WRITABLE | FMODE_READWRITE

  /** The native open(2) flag word. */
  type Modenum = bv32

  // Values of newlib's fcntl.h, the C library of the EV3RT target.
  const O_RDONLY: Modenum := 0
  const O_WRONLY: Modenum := 1
  const O_RDWR: Modenum := 2
  const O_ACCMODE: Modenum := 3
  const O_APPEND: Modenum := 0x0008
  const O_CREAT: Modenum := 0x0200
  const O_TRUNC: Modenum := 0x0400

  /** A mode string is one of 'r', 'w', 'a' followed by any mix of 'b' and '+'. */
  predicate WellFormedMode(m: string) {
    && |m| > 0
    && (m[0] == 'r' || m[0] == 'w' || m[0] == 'a')
    && forall i :: 1 <= i < |m| ==> m[i] == 'b' || m[i] == '+'
  }

  /** The flags the first character of a mode string stands for. */
  function BaseFlags(c: char): Fmode
    requires c == 'r' || c == 'w' || c == 'a'
  {
    match c
    case 'r' => FMODE_READABLE
    case 'w' => FMODE_WRITABLE | FMODE_CREATE | FMODE_TRUNC
    case 'a' => FMODE_WRITABLE | FMODE_APPEND | FMODE_CREATE
  }

  /** Reference definition of the parser on the characters C sees: the flags are
      the base flags of the first character, BINMODE if some later character is
      'b' and READWRITE if some later character is '+'; anything else is an
      ArgumentError. */
  function ModeFlags(m: string): Result<Fmode> {
    if !WellFormedMode(m) then Raise(ArgumentError)
    else Ok(BaseFlags(m[0])
            | (if 'b' in m[1..] then FMODE_BINMODE else 0)
            | (if '+' in m[1..] then FMODE_READWRITE else 0))
  }

  /** mrb_io_modestr_to_flags: the first character selects the base flags, then a
      loop ORs in one flag per further character until the NUL terminator. */
  method ModestrToFlags(mode: string) returns (r: Result<Fmode>)
    ensures r == ModeFlags(CStr(mode))
  {
    ghost var c := CStr(mode);
    CharAtCStr(mode, 0);
    var flags: Fmode := 0;
    var first := CharAt(mode, 0);
    if first == 'r' {
      flags := flags | FMODE_READABLE;
    } else if first == 'w' {
      flags := flags | FMODE_WRITABLE | FMODE_CREATE | FMODE_TRUNC;
    } else if first == 'a' {
      flags := flags | FMODE_WRITABLE | FMODE_APPEND | FMODE_CREATE;
    } else {
      return Raise(ArgumentError);
    }
    var i := 1;
    CharAtCStr(mode, i);
    while CharAt(mode, i) != '\0'
      invariant 1 <= i <= |c| && c[0] == first
      invariant forall j :: 1 <= j < i ==> c[j] == 'b' || c[j] == '+'
      invariant flags == BaseFlags(first)
                         | (if 'b' in c[1..i] then FMODE_BINMODE else 0)
                         | (if '+' in c[1..i] then FMODE_READWRITE else 0)
      invariant CharAt(mode, i) == '\0' <==> i == |c|
      decreases |c| - i
    {
      var ch := CharAt(mode, i);
      assert ch == c[i];
      assert c[1..i + 1] == c[1..i] + [ch];
      if ch == 'b' {
        flags := flags | FMODE_BINMODE;
      } else if ch == '+' {
        flags := flags | FMODE_READWRITE;
      } else {
        assert !WellFormedMode(c);
        return Raise(ArgumentError);
      }
      i := i + 1;
      CharAtCStr(mode, i);
    }
    assert c[1..i] == c[1..];
    return Ok(flags);
  }

  /** mrb_io_flags_to_modenum. The masked triad selects exactly one access mode;
      when it matches none of READABLE, WRITABLE, READWRITE the access part stays
      0. APPEND, TRUNC and CREATE carry over bit by bit; BINMODE and every other
      FMODE bit are ignored. */
  function FlagsToModenum(flags: Fmode): (n: Modenum)
    ensures n & O_ACCMODE == O_RDONLY <==>
              flags & FMODE_TRIAD == FMODE_READABLE || flags & FMODE_TRIAD == 0
    ensures n & O_ACCMODE == O_WRONLY <==> flags & FMODE_TRIAD == FMODE_WRITABLE
    ensures n & O_ACCMODE == O_RDWR <==> flags & FMODE_TRIAD == FMODE_READWRITE
    ensures n & O_ACCMODE != O_ACCMODE
    ensures (n & O_APPEND != 0) <==> (flags & FMODE_APPEND != 0)
    ensures (n & O_TRUNC != 0) <==> (flags & FMODE_TRUNC != 0)
    ensures (n & O_CREAT != 0) <==> (flags & FMODE_CREATE != 0)
    ensures n & !(O_ACCMODE | O_APPEND | O_TRUNC | O_CREAT) == 0
  {
    var access: Modenum :=
      if flags & FMODE_TRIAD == FMODE_READABLE then O_RDONLY
      else if flags & FMODE_TRIAD == FMODE_WRITABLE then O_WRONLY
      else if flags & FMODE_TRIAD == FMODE_READWRITE then O_RDWR
      else 0;
    access
    | (if flags & FMODE_APPEND != 0 then O_APPEND else 0)
    | (if flags & FMODE_TRUNC != 0 then O_TRUNC else 0)
    | (if flags & FMODE_CREATE != 0 then O_CREAT else 0)
  }

  /** BINMODE never reaches the native flags. */
  lemma BinmodeIgnored(flags: Fmode)
    ensures FlagsToModenum(flags | FMODE_BINMODE) == FlagsToModenum(flags & !FMODE_BINMODE)
  {
  }

  /** Repeating a suffix character changes nothing. */
  lemma RepeatedSuffixIdempotent(m: string, x: char)
    requires |m| > 0 && x in m[1..]
    ensures ModeFlags(m + [x]) == ModeFlags(m)
  {
    var m' := m + [x];
    assert m'[1..] == m[1..] + [x];
    assert forall y :: y in m'[1..] <==> y in m[1..];
    var k :| 1 <= k < |m| && m[k] == x;
    assert forall i :: 0 <= i < |m| ==> m'[i] == m[i];
    assert m'[|m|] == m[k];
    assert WellFormedMode(m') <==> WellFormedMode(m);
  }

  /** The whole mode table: the native flags and the writable bit that each
      accepted mode string produces, as fopen(3) documents them. */
  lemma ModeTable(m: string)
    requires WellFormedMode(m)
    ensures ModeFlags(m).Ok?
    ensures var n := FlagsToModenum(ModeFlags(m).value);
      && (n & O_ACCMODE == O_RDWR <==> '+' in m[1..])
      && (n & O_ACCMODE == O_RDONLY <==> m[0] == 'r' && '+' !in m[1..])
      && (n & O_ACCMODE == O_WRONLY <==> m[0] != 'r' && '+' !in m[1..])
      && (n & O_APPEND != 0 <==> m[0] == 'a')
      && (n & O_TRUNC != 0 <==> m[0] == 'w')
      && (n & O_CREAT != 0 <==> m[0] != 'r')
    ensures (ModeFlags(m).value & FMODE_WRITABLE != 0) <==> (m[0] != 'r' || '+' in m[1..])
  {
  }

  /** Exactly the well-formed mode strings are accepted; the empty string (whose
      first character C reads as the NUL) and a ':' encoding suffix are not. */
  lemma ModeFlagsAccepts(m: string)
    ensures ModeFlags(m).Ok? <==> WellFormedMode(m)
    ensures ModeFlags(m).Raise? ==> ModeFlags(m).exc == ArgumentError
    ensures ModeFlags("").Raise? && ModeFlags("r:utf-8").Raise?
  {
    assert !WellFormedMode("r:utf-8") by { assert "r:utf-8"[1] == ':'; }
  }
}
