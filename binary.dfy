/** `isBinaryFile`: a file counts as binary when its first 4096 bytes hold a
    control character, when its extension is on a fixed list, or when it
    cannot be opened or read. */
module Binary {
  import opened Wrappers
  import opened Strings
  import opened Paths
  import opened FileSystem

  /** How many bytes are read for the scan. */
  const BufferSize: nat := 4096

  /** The extensions treated as binary whatever the content. */
  const BinaryExtensions: seq<string> := [
    ".png", ".jpg", ".jpeg", ".gif", ".bmp", ".ico", ".webp",
    ".pdf", ".doc", ".docx", ".xls", ".xlsx", ".ppt", ".pptx",
    ".zip", ".rar", ".7z", ".tar", ".gz", ".bz2",
    ".exe", ".dll", ".so", ".dylib",
    ".mp3", ".mp4", ".avi", ".mov", ".mkv", ".flv"
  ]

  /** A NUL byte, or a byte below 32 other than tab, line feed and carriage
      return. */
  predicate IsControl(b: byte)
  {
    b == 0 || (b < 32 && b !in [9, 10, 13])
  }

  /** `path.extname` of a file name: from its last dot to the end; empty when
      there is no dot, when the dot starts the name, or for `..`. */
  function Extname(name: string): (r: string)
    ensures r == [] || (r[0] == '.' && '.' !in r[1..] && |r| < |name| && EndsWith(name, r))
  {
    match LastDot(name)
    case None => []
    case Some(i) =>
      if i == 0 || name == ".." then []
      else
        assert forall k :: 0 <= k < |name[i..][1..]| ==> name[i..][1..][k] == name[i + 1 + k];
        name[i..]
  }

  /** The index of the last `.` in `s`. */
  function LastDot(s: string): (r: Option<nat>)
    ensures r.Some? ==> r.value < |s| && s[r.value] == '.'
    ensures r.Some? ==> forall k :: r.value < k < |s| ==> s[k] != '.'
    ensures r.None? ==> forall k :: 0 <= k < |s| ==> s[k] != '.'
  {
    if s == [] then None
    else if s[|s| - 1] == '.' then Some(|s| - 1)
    else
      match LastDot(s[..|s| - 1])
      case None => None
      case Some(i) => Some(i)
  }

  /** `toLowerCase` as far as it decides membership in the extension list:
      ASCII capitals and the Kelvin sign (which lowers to `k`) are lowered;
      every other character lowers to something outside ASCII or to itself,
      so it is left unchanged. */
  function Lower(s: string): (r: string)
    ensures |r| == |s|
    ensures forall i :: 0 <= i < |s| ==> r[i] == LowerChar(s[i])
  {
    if s == [] then [] else [LowerChar(s[0])] + Lower(s[1..])
  }

  function LowerChar(c: char): char
  {
    if 'A' <= c <= 'Z' then (c as int + 32) as char
    else if c == '\U{212A}' then 'k'
    else c
  }

  /** The decision for a file called `name` whose read gave `bytes`. */
  function Classify(bytes: Result<seq<byte>>, name: string): bool
  {
    match bytes
    case Err(_) => true
    case Ok(b) =>
      (exists i :: 0 <= i < |b| && i < BufferSize && IsControl(b[i]))
      || Lower(Extname(name)) in BinaryExtensions
  }

  /** `isBinaryFile(filePath)`. */
  function IsBinary(fs: Fs, filePath: Path): bool
  {
    Classify(ReadBytes(fs, filePath), Basename(filePath))
  }

  /** `openSync`, `readSync` of at most `buffer.Length` bytes at offset 0 into
      `buffer`, and `closeSync`. */
  method ReadSync(data: seq<byte>, buffer: array<byte>) returns (bytesRead: nat)
    modifies buffer
    ensures bytesRead == if |data| < buffer.Length then |data| else buffer.Length
    ensures buffer[..bytesRead] == data[..bytesRead]
    ensures buffer[bytesRead..] == old(buffer[bytesRead..])
  {
    bytesRead := if |data| < buffer.Length then |data| else buffer.Length;
    var i := 0;
    while i < bytesRead
      invariant 0 <= i <= bytesRead
      invariant buffer[..i] == data[..i]
      invariant buffer[i..] == old(buffer[i..])
    {
      buffer[i] := data[i];
      assert buffer[..i + 1] == buffer[..i] + [data[i]];
      assert data[..i + 1] == data[..i] + [data[i]];
      i := i + 1;
    }
  }

  /** `isBinaryFile(filePath)`: scans the bytes read, then checks the
      extension; a failed open or read counts as binary. */
  method IsBinaryFile(fs: Fs, filePath: Path) returns (binary: bool)
    ensures binary == IsBinary(fs, filePath)
  {
    var read := ReadBytes(fs, filePath);
    if read.Err? {
      return true;
    }
    var buffer := new byte[BufferSize];
    var bytesRead := ReadSync(read.value, buffer);
    var i := 0;
    while i < bytesRead
      invariant 0 <= i <= bytesRead
      invariant forall j :: 0 <= j < i ==> !IsControl(read.value[j])
    {
      assert buffer[i] == buffer[..bytesRead][i] == read.value[i];
      var b := buffer[i];
      if b == 0 || (b < 32 && b !in [9, 10, 13]) {
        return true;
      }
      i := i + 1;
    }
    var ext := Lower(Extname(Basename(filePath)));
    if ext in BinaryExtensions {
      return true;
    }
    return false;
  }

  // ---------------------------------------------------------------------------
  // Properties
  // ---------------------------------------------------------------------------

  /** Bytes past the first 4096 never change the decision. */
  lemma ClassifyIgnoresTail(b: seq<byte>, rest: seq<byte>, name: string)
    requires |b| >= BufferSize
    ensures Classify(Ok(b + rest), name) == Classify(Ok(b), name)
  {
    assert forall i :: 0 <= i < BufferSize ==> (b + rest)[i] == b[i];
  }

  /** A readable file is binary exactly when a control byte occurs among the
      bytes scanned or its lowered extension is listed; an unreadable one
      always is. */
  lemma IsBinaryMeaning(fs: Fs, p: Path)
    ensures ReadBytes(fs, p).Err? ==> IsBinary(fs, p)
    ensures ReadBytes(fs, p).Ok? ==>
      (IsBinary(fs, p) <==>
        (exists i :: 0 <= i < |ReadBytes(fs, p).value| && i < BufferSize && IsControl(ReadBytes(fs, p).value[i]))
        || Lower(Extname(Basename(p))) in BinaryExtensions)
  {
  }

  /** The name `stem.ext` has extension `.ext` when `ext` has no dot and the
      stem is not empty (and the name is not `..`). */
  lemma ExtnameOf(stem: string, ext: string)
    requires (forall k :: 0 <= k < |ext| ==> ext[k] != '.') && stem != [] && stem + "." + ext != ".."
    ensures Extname(stem + "." + ext) == "." + ext
  {
    var name := stem + "." + ext;
    var i := |stem|;
    assert name[i] == '.' && forall k :: i < k < |name| ==> name[k] == ext[k - i - 1];
    LastDotIs(name, i);
    assert name[i..] == "." + ext;
  }

  lemma LastDotIs(s: string, i: nat)
    requires i < |s| && s[i] == '.' && forall k :: i < k < |s| ==> s[k] != '.'
    ensures LastDot(s) == Some(i)
  {
  }

  /** A name without a dot has no extension. */
  lemma ExtnameNoDot(name: string)
    requires forall k :: 0 <= k < |name| ==> name[k] != '.'
    ensures Extname(name) == []
  {
  }
}
