/**
 * File access through the UEFI Shell protocol: the NUL-terminated UCS-2
 * path that `wstr` builds, the open modes, and how `shell_read_file` and
 * `shell_write_file` turn the shell's answers into results.  The `uefi` and
 * `fw_uefi` flavours of the library share `wstr` and the mode values.
 */
module UefiFs {
  import opened Common

  /** `EFI_FILE_MODE_READ`, `_WRITE` and `_CREATE` of the UEFI Specification (section 13.5). */
  const FILE_MODE_READ: bv64 := 0x0000_0000_0000_0001
  const FILE_MODE_WRITE: bv64 := 0x0000_0000_0000_0002
  const FILE_MODE_CREATE: bv64 := 0x8000_0000_0000_0000

  /** The mode `shell_read_file` opens with. */
  const READ_MODE: bv64 := FILE_MODE_READ
  /** The mode `shell_write_file` opens with: the three flags added together. */
  const WRITE_MODE: bv64 := FILE_MODE_READ + FILE_MODE_WRITE + FILE_MODE_CREATE

  /**
   * The flags occupy distinct bits, so the u64 addition neither overflows
   * nor differs from or-ing them; the write mode is 0x8000000000000003 and
   * still asks for reading.
   */
  lemma OpenModes()
    ensures WRITE_MODE == 0x8000_0000_0000_0003
    ensures FILE_MODE_READ as int + FILE_MODE_WRITE as int + FILE_MODE_CREATE as int == WRITE_MODE as int
    ensures WRITE_MODE == FILE_MODE_READ | FILE_MODE_WRITE | FILE_MODE_CREATE
    ensures WRITE_MODE & FILE_MODE_READ == READ_MODE
  {
  }

  // ---------------------------------------------------------------------
  // wstr

  /** The code unit `c as u16` gives: the code point modulo 2^16. */
  function Unit(c: char): (u: u16)
    ensures c as int < 0x1_0000 ==> u == c as int
  {
    c as int % 0x1_0000
  }

  /** What `wstr` returns: one truncated code unit per char, then a terminating 0. */
  function Wide(s: string): (w: seq<u16>)
    ensures |w| == |s| + 1 && w[|s|] == 0
    ensures forall i :: 0 <= i < |s| ==> w[i] == Unit(s[i])
  {
    seq(|s|, i requires 0 <= i < |s| => Unit(s[i])) + [0]
  }

  /** `wstr`: push `c as u16` for every char, then push 0. */
  method Wstr(s: string) returns (w: seq<u16>)
    ensures w == Wide(s)
  {
    w := [];
    for i := 0 to |s|
      invariant |w| == i && forall k :: 0 <= k < i ==> w[k] == Unit(s[k])
    {
      w := w + [Unit(s[i])];
    }
    w := w + [0];
  }

  /** How the shell reads a path back: code units up to the first 0, as chars. */
  function Narrow(w: seq<u16>): (s: string)
    ensures |s| <= |w|
  {
    if w == [] || w[0] == 0 then []
    else if 0xD800 <= w[0] < 0xE000 then [0xFFFD as char] + Narrow(w[1..])
    else [w[0] as char] + Narrow(w[1..])
  }

  /** A path of Basic Multilingual Plane characters other than NUL is read back unchanged. */
  lemma {:induction false} NarrowWide(s: string)
    requires forall i :: 0 <= i < |s| ==> 0 < s[i] as int < 0x1_0000
    ensures Narrow(Wide(s)) == s
  {
    if s != [] {
      assert Wide(s)[1..] == Wide(s[1..]);
      NarrowWide(s[1..]);
    }
  }

  /** A NUL inside the path ends it early: the shell sees only the part before it. */
  lemma {:induction false} NarrowStopsAtNul(s: string, t: string)
    requires forall i :: 0 <= i < |s| ==> 0 < s[i] as int < 0x1_0000
    ensures Narrow(Wide(s + [0 as char] + t)) == s
  {
    var u := s + [0 as char] + t;
    if s == [] {
      assert Wide(u)[0] == Unit(u[0]) == 0;
    } else {
      assert u[1..] == s[1..] + [0 as char] + t;
      assert Wide(u)[1..] == Wide(u[1..]);
      assert Wide(u)[0] == Unit(s[0]);
      NarrowStopsAtNul(s[1..], t);
    }
  }

  /** Characters outside the Basic Multilingual Plane collide with ones inside it. */
  lemma WideTruncates()
    ensures Wide("\U{1F600}") == Wide("\U{F600}")
  {
  }

  // ---------------------------------------------------------------------
  // Opening files through the shell (the `uefi` flavour)

  /** What `open_file_by_name` answers: an error, success without a handle, or a handle. */
  datatype OpenResult = OpenFailed | NoHandle | Opened(handle: nat)

  datatype Status = Success | LoadError

  const UNWRAP_PANIC: string := "called `Result::unwrap()` on an `Err` value"

  /**
   * `shell_write_file`: LOAD_ERROR when there is no shell or the open
   * fails either way; a failing write or close panics in `unwrap`;
   * otherwise SUCCESS.  `open` is the shell's answer to the path and mode.
   */
  function ShellWriteFile(shellFound: bool, path: string, open: (seq<u16>, bv64) -> OpenResult,
                          writeOk: bool, closeOk: bool): (r: Outcome<Status>)
    ensures !shellFound ==> r == Returns(LoadError)
    ensures shellFound && !open(Wide(path), WRITE_MODE).Opened? ==> r == Returns(LoadError)
    ensures r == Returns(Success) <==> shellFound && open(Wide(path), WRITE_MODE).Opened? && writeOk && closeOk
  {
    if !shellFound then Returns(LoadError)
    else match open(Wide(path), WRITE_MODE)
      case OpenFailed => Returns(LoadError)
      case NoHandle => Returns(LoadError)
      case Opened(_) =>
        if !writeOk then Panics(UNWRAP_PANIC)
        else if !closeOk then Panics(UNWRAP_PANIC)
        else Returns(Success)
  }

  /**
   * `shell_read_file`: None when there is no shell or the open fails;
   * otherwise the file's contents (size query, read and close each panic
   * in `unwrap` when they fail).
   */
  function ShellReadFile(shellFound: bool, path: string, open: (seq<u16>, bv64) -> OpenResult,
                         contents: Option<seq<u8>>, closeOk: bool): (r: Outcome<Option<seq<u8>>>)
    ensures r == Returns(None) <==> !shellFound || !open(Wide(path), READ_MODE).Opened?
    ensures r.Returns? && r.value.Some? ==> contents.Some? && r.value.value == contents.value
  {
    if !shellFound then Returns(None)
    else match open(Wide(path), READ_MODE)
      case OpenFailed => Returns(None)
      case NoHandle => Returns(None)
      case Opened(_) =>
        if contents.None? then Panics(UNWRAP_PANIC)
        else if !closeOk then Panics(UNWRAP_PANIC)
        else Returns(Some(contents.value))
  }
}
