/** The `getFileExtension` of lib/utils.ts, the slice/lastIndexOf variant. */
module Utils {
  import opened Text

  const TwoTo32: nat := 0x1_0000_0000

  /** `x >>> 0`: the integer taken modulo 2^32, as an unsigned 32-bit value. */
  function ToUint32(x: int): (r: nat)
    ensures r < TwoTo32
    ensures 0 <= x < TwoTo32 ==> r == x
    ensures -0x1_0000_0000 <= x < 0 ==> r == x + TwoTo32
  {
    x % TwoTo32
  }

  /** `s.slice(start)` for a non-negative start: empty once the start is past the end. */
  function SliceFrom(s: string, start: nat): (r: string)
    ensures start <= |s| ==> r == s[start..]
    ensures start >= |s| ==> r == ""
  {
    if start <= |s| then s[start..] else ""
  }

  /**
   * `filename.slice(((filename.lastIndexOf(".") - 1) >>> 0) + 2).toLowerCase()`.
   * With the last dot at index k >= 1 the slice starts at k + 1; with no dot (k = -1)
   * or only a leading one (k = 0) the unsigned wrap-around pushes the start to
   * 2^32 or 2^32 + 1, past the end of any name of at most 2^32 characters. Longer
   * strings, which no JavaScript engine allocates, would wrap the start itself.
   */
  function GetFileExtension(filename: string): (ext: string)
    ensures NoUpper(ext)
    ensures |filename| <= TwoTo32 ==> '.' !in ext
    ensures |filename| <= TwoTo32 && LastIndexOf(filename, '.') >= 1 ==>
      ext == ToLower(filename[LastIndexOf(filename, '.') + 1..])
    ensures |filename| <= TwoTo32 && LastIndexOf(filename, '.') < 1 ==> ext == ""
  {
    var k := LastIndexOf(filename, '.');
    var start := ToUint32(k - 1) + 2;
    var rest := SliceFrom(filename, start);
    assert |filename| <= TwoTo32 ==> start > k;
    assert |filename| <= TwoTo32 ==>
      forall i :: 0 <= i < |rest| ==> rest[i] == filename[start + i] && rest[i] != '.';
    ToLower(rest)
  }

  /** The cases the doc comment and the slice arithmetic single out. */
  lemma ExtensionExamples()
    ensures GetFileExtension("README") == ""
    ensures GetFileExtension(".bashrc") == ""
    ensures GetFileExtension("notes.") == ""
    ensures GetFileExtension("A.PDF") == "pdf"
    ensures GetFileExtension("a.tar.gz") == "gz"
  {
    ExtensionAt("README", -1);
    ExtensionAt(".bashrc", 0);
    TrailingDotExample();
    UpperCaseExample();
    DoubleExtensionExample();
  }

  lemma TrailingDotExample()
    ensures GetFileExtension("notes.") == ""
  {
    ExtensionAt("notes.", 5);
    assert "notes."[6..] == "";
  }

  lemma UpperCaseExample()
    ensures GetFileExtension("A.PDF") == "pdf"
  {
    ExtensionAt("A.PDF", 1);
    assert "A.PDF"[2..] == "PDF";
    LowerPdf();
  }

  lemma LowerPdf()
    ensures ToLower("PDF") == "pdf"
  {
    var r := ToLower("PDF");
    assert r[0] == 'p' && r[1] == 'd' && r[2] == 'f';
  }

  lemma DoubleExtensionExample()
    ensures GetFileExtension("a.tar.gz") == "gz"
  {
    ExtensionAt("a.tar.gz", 5);
    assert "a.tar.gz"[6..] == "gz";
  }

  /** The extension read off a name whose last dot is at `k`. */
  lemma ExtensionAt(filename: string, k: int)
    requires |filename| <= TwoTo32 && -1 <= k < |filename|
    requires k >= 0 ==> filename[k] == '.'
    requires forall j :: k < j < |filename| ==> filename[j] != '.'
    ensures k < 1 ==> GetFileExtension(filename) == ""
    ensures k >= 1 ==> GetFileExtension(filename) == ToLower(filename[k + 1..])
  {
    LastIndexOfIs(filename, '.', k);
  }
}
