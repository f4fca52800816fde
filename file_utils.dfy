/** The pure helpers of lib/file-utils.ts: `getFileExtension` and `parsePageRanges`. */
module FileUtils {
  import opened Wrappers
  import opened Text

  /**
   * `filename.split('.').pop()?.toLowerCase() || ''`: the lower-cased text after
   * the last dot, or the whole lower-cased name when it has no dot.
   */
  function GetFileExtension(filename: string): (ext: string)
    ensures NoUpper(ext) && '.' !in ext
    ensures '.' !in filename ==> ext == ToLower(filename)
    ensures '.' in filename ==> ext == ToLower(filename[LastIndexOf(filename, '.') + 1..])
  {
    var last := LastPart(filename);
    ToLowerKeepsAbsent(last, '.');
    ToLower(last)
  }

  /** `split('.').pop()`: the text after the last dot, or the whole name when it has none. */
  function LastPart(filename: string): (last: string)
    ensures last == filename[LastIndexOf(filename, '.') + 1..]
    ensures '.' !in last
    ensures '.' !in filename ==> last == filename
  {
    var parts := Split(filename, {'.'});
    LastPartOfSplit(filename, '.');
    AfterLastHasNone(filename, '.');
    WholeWhenAbsent(filename, '.');
    parts[|parts| - 1]
  }

  lemma WholeWhenAbsent(s: string, c: char)
    ensures c !in s ==> s[LastIndexOf(s, c) + 1..] == s
  {
    if c !in s {
      assert LastIndexOf(s, c) == -1;
    }
  }

  lemma AfterLastHasNone(s: string, c: char)
    ensures c !in s[LastIndexOf(s, c) + 1..]
  {
    var k := LastIndexOf(s, c);
    var tail := s[k + 1..];
    forall j | 0 <= j < |tail| ensures tail[j] != c {
      assert tail[j] == s[k + 1 + j];
    }
  }

  lemma ExtensionOfNameWithoutDot()
    ensures GetFileExtension("Doc") == "doc"
  {
    var name := "Doc";
    assert '.' !in name;
    var r := ToLower(name);
    assert r[0] == 'd' && r[1] == 'o' && r[2] == 'c';
    ExtensionOfDotless(name);
  }

  lemma ExtensionOfDotless(name: string)
    requires '.' !in name
    ensures GetFileExtension(name) == ToLower(name)
  {
  }

  /** With its last dot at `k`, a name's extension is the lower-cased text after it. */
  lemma ExtensionAfterDot(name: string, k: int)
    requires 0 <= k < |name| && name[k] == '.'
    requires forall j :: k < j < |name| ==> name[j] != '.'
    ensures GetFileExtension(name) == ToLower(name[k + 1..])
  {
    LastIndexOfIs(name, '.', k);
  }

  lemma ExtensionOfLeadingDotName()
    ensures GetFileExtension(".rc") == "rc"
  {
    ExtensionAfterDot(".rc", 0);
    assert ".rc"[1..] == "rc";
    ToLowerIdempotent("rc");
  }

  lemma ExtensionOfUpperCaseName()
    ensures GetFileExtension("A.PDF") == "pdf"
  {
    ExtensionAfterDot("A.PDF", 1);
    assert "A.PDF"[2..] == "PDF";
    var r := ToLower("PDF");
    assert r[0] == 'p' && r[1] == 'd' && r[2] == 'f';
  }

  // ----- parsePageRanges -----

  /**
   * `Number(text)` on the texts this model covers: surrounding whitespace is
   * ignored, an empty text is 0, a run of decimal digits is its value, and
   * anything else is NaN (None).
   */
  function ToNumber(text: string): (n: Option<nat>)
    ensures n.Some? <==> AllDigits(Trim(text))
    ensures Trim(text) == "" ==> n == Some(0)
  {
    var t := Trim(text);
    if AllDigits(t) then Some(DecimalValue(t)) else None
  }

  lemma ToNumberOfDigits(n: nat)
    ensures ToNumber(NatToString(n)) == Some(n)
  {
    var s := NatToString(n);
    TrimOfWordChars(s);
    DecimalOfNatToString(n);
  }

  /** Leading zeros do not change the value of a run of digits. */
  lemma {:induction false} LeadingZeros(zeros: string, digits: string)
    requires forall i :: 0 <= i < |zeros| ==> zeros[i] == '0'
    requires AllDigits(digits)
    ensures AllDigits(zeros + digits) && DecimalValue(zeros + digits) == DecimalValue(digits)
    decreases |zeros| + |digits|
  {
    var s := zeros + digits;
    if digits == [] {
      assert s == zeros;
      if zeros != [] {
        assert s[..|s| - 1] == zeros[..|zeros| - 1];
        LeadingZeros(zeros[..|zeros| - 1], []);
        assert zeros[..|zeros| - 1] + [] == zeros[..|zeros| - 1];
      }
    } else {
      var init := digits[..|digits| - 1];
      assert s[..|s| - 1] == zeros + init;
      assert s[|s| - 1] == digits[|digits| - 1];
      LeadingZeros(zeros, init);
    }
  }

  /**
   * `Number` ignores whitespace around the digits and zeros in front of them:
   * `" 007 "` is 7.
   */
  lemma ToNumberPadded(before: string, zeros: string, n: nat, after: string)
    requires forall i :: 0 <= i < |before| ==> IsSpace(before[i])
    requires forall i :: 0 <= i < |after| ==> IsSpace(after[i])
    requires forall i :: 0 <= i < |zeros| ==> zeros[i] == '0'
    ensures ToNumber(before + zeros + NatToString(n) + after) == Some(n)
  {
    var digits := NatToString(n);
    var core := zeros + digits;
    LeadingZeros(zeros, digits);
    DecimalOfNatToString(n);
    DigitsTrimmed(before, core, after);
    assert before + zeros + digits == before + core;
  }

  /** Digits with whitespace around them read as their value. */
  lemma DigitsTrimmed(before: string, core: string, after: string)
    requires forall i :: 0 <= i < |before| ==> IsSpace(before[i])
    requires forall i :: 0 <= i < |after| ==> IsSpace(after[i])
    requires core != "" && AllDigits(core)
    ensures ToNumber(before + core + after) == Some(DecimalValue(core))
  {
    DigitNotSpace(core[0]);
    DigitNotSpace(core[|core| - 1]);
    TrimPadded(before, core, after);
  }

  lemma DigitNotSpace(c: char)
    requires IsDigit(c)
    ensures !IsSpace(c)
  {
  }

  lemma ToNumberOfPaddedZeros()
    ensures ToNumber(" 007 ") == Some(7)
  {
    var text := " " + "00" + NatToString(7) + " ";
    assert NatToString(7) == "7";
    assert text == " 007 ";
    ToNumberPadded(" ", "00", 7, " ");
  }

  lemma TrimOfWordChars(s: string)
    requires forall i :: 0 <= i < |s| ==> !IsSpace(s[i])
    ensures Trim(s) == s
  {
  }

  predicate InRange(p: int, lo: int, hi: int) { lo <= p <= hi }

  /** The pages between two numbers, both ends included. */
  function PagesBetween(lo: int, hi: int): (pages: set<int>)
    ensures forall p :: p in pages <==> InRange(p, lo, hi)
  {
    set p | lo <= p <= hi && InRange(p, lo, hi)
  }

  /**
   * What a segment with a dash adds, given its dash-separated parts: the first two
   * are the endpoints, and every page between them is added when
   * `1 <= start <= end <= totalPages`, nothing otherwise.
   */
  function RangePages(ends: seq<string>, totalPages: int): (pages: set<int>)
    requires |ends| >= 2
    ensures forall p :: p in pages ==> 1 <= p <= totalPages
  {
    var start, end := ToNumber(ends[0]), ToNumber(ends[1]);
    if start.None? || end.None? then {}
    else if start.value < 1 || end.value > totalPages || start.value > end.value then {}
    else PagesBetween(start.value, end.value)
  }

  /** What a segment without a dash adds: its page, when that is in bounds. */
  function SinglePage(segment: string, totalPages: int): (pages: set<int>)
    ensures forall p :: p in pages ==> 1 <= p <= totalPages
  {
    var page := ToNumber(segment);
    if page.None? || page.value < 1 || page.value > totalPages then {}
    else {page.value}
  }

  /** What one trimmed segment of the range string adds. */
  function SegmentPages(segment: string, totalPages: int): (pages: set<int>)
    ensures forall p :: p in pages ==> 1 <= p <= totalPages
  {
    if '-' in segment then
      SplitOfSeparated(segment, '-');
      RangePages(Split(segment, {'-'}), totalPages)
    else SinglePage(segment, totalPages)
  }

  /** `rangeString.split(',').map(r => r.trim())` */
  function Segments(rangeString: string): (segments: seq<string>)
    ensures |segments| == |Split(rangeString, {','})|
    ensures forall i :: 0 <= i < |segments| ==> segments[i] == Trim(Split(rangeString, {','})[i])
  {
    var parts := Split(rangeString, {','});
    seq(|parts|, i requires 0 <= i < |parts| => Trim(parts[i]))
  }

  /** Some segment of the list contributes page `p`. */
  predicate Contributes(segments: seq<string>, totalPages: int, p: int) {
    exists i :: 0 <= i < |segments| && p in SegmentPages(segments[i], totalPages)
  }

  /** The pages contributed by a list of segments. */
  function PagesOf(segments: seq<string>, totalPages: int): (pages: set<int>)
    ensures forall p :: p in pages <==> Contributes(segments, totalPages, p)
  {
    set p | 1 <= p <= totalPages && Contributes(segments, totalPages, p)
  }

  /** The set of pages a range string denotes; `parsePageRanges` lists it in ascending order. */
  function PageSet(rangeString: string, totalPages: int): set<int>
  {
    if Trim(rangeString) == "" then {} else PagesOf(Segments(rangeString), totalPages)
  }

  lemma ContributesExtended(segments: seq<string>, segment: string, totalPages: int, p: int)
    ensures Contributes(segments + [segment], totalPages, p) <==>
      Contributes(segments, totalPages, p) || p in SegmentPages(segment, totalPages)
  {
    var longer := segments + [segment];
    if Contributes(longer, totalPages, p) {
      var i :| 0 <= i < |longer| && p in SegmentPages(longer[i], totalPages);
      if i < |segments| {
        assert longer[i] == segments[i];
      }
    }
    if Contributes(segments, totalPages, p) {
      var i :| 0 <= i < |segments| && p in SegmentPages(segments[i], totalPages);
      assert longer[i] == segments[i];
    }
    if p in SegmentPages(segment, totalPages) {
      assert longer[|segments|] == segment;
    }
  }

  /** Neither the order of the segments nor their repetition changes the pages. */
  lemma SegmentOrderIrrelevant(xs: seq<string>, ys: seq<string>, totalPages: int)
    requires forall s :: s in xs <==> s in ys
    ensures PagesOf(xs, totalPages) == PagesOf(ys, totalPages)
  {
    forall p ensures Contributes(xs, totalPages, p) <==> Contributes(ys, totalPages, p) {
      if Contributes(xs, totalPages, p) {
        var i :| 0 <= i < |xs| && p in SegmentPages(xs[i], totalPages);
        assert xs[i] in ys;
        var j :| 0 <= j < |ys| && ys[j] == xs[i];
      }
      if Contributes(ys, totalPages, p) {
        var j :| 0 <= j < |ys| && p in SegmentPages(ys[j], totalPages);
        assert ys[j] in xs;
        var i :| 0 <= i < |xs| && xs[i] == ys[j];
      }
    }
  }

  /** Two range strings with the same segments denote the same pages. */
  lemma {:induction false} RangeStringOrderIrrelevant(a: string, b: string, totalPages: int)
    requires forall s :: s in Segments(a) <==> s in Segments(b)
    ensures PageSet(a, totalPages) == PageSet(b, totalPages)
  {
    PageSetIsPagesOfSegments(a, totalPages);
    PageSetIsPagesOfSegments(b, totalPages);
    SegmentOrderIrrelevant(Segments(a), Segments(b), totalPages);
  }

  /** The early return on a blank string changes nothing: its segments are all empty. */
  lemma PageSetIsPagesOfSegments(rangeString: string, totalPages: int)
    ensures PageSet(rangeString, totalPages) == PagesOf(Segments(rangeString), totalPages)
  {
    if Trim(rangeString) == "" {
      var segments := Segments(rangeString);
      forall i | 0 <= i < |segments| ensures SegmentPages(segments[i], totalPages) == {} {
        BlankPartsAreBlank(rangeString, i);
        assert segments[i] == "";
        assert ToNumber("") == Some(0);
      }
    }
  }

  lemma BlankPartsAreBlank(rangeString: string, i: int)
    requires Trim(rangeString) == ""
    requires 0 <= i < |Split(rangeString, {','})|
    ensures Trim(Split(rangeString, {','})[i]) == ""
  {
    SplitOfBlank(rangeString, {','});
    assert AllSpace(Split(rangeString, {','})[i]);
  }

  predicate AllSpace(s: string) { forall i :: 0 <= i < |s| ==> IsSpace(s[i]) }

  /** Splitting text made of whitespace gives parts made of whitespace. */
  lemma {:induction false} SplitOfBlank(s: string, seps: set<char>)
    requires AllSpace(s)
    ensures forall i :: 0 <= i < |Split(s, seps)| ==> AllSpace(Split(s, seps)[i])
    decreases |s|
  {
    if s != "" {
      assert AllSpace(s[1..]) by {
        forall i | 0 <= i < |s| - 1 ensures IsSpace(s[1..][i]) {
          assert s[1..][i] == s[i + 1];
        }
      }
      SplitOfBlank(s[1..], seps);
      var rest := Split(s[1..], seps);
      if s[0] !in seps {
        var first := [s[0]] + rest[0];
        assert AllSpace(rest[0]);
        assert AllSpace(first) by {
          forall j | 0 <= j < |first| ensures IsSpace(first[j]) {
            if j > 0 { assert first[j] == rest[0][j - 1]; }
          }
        }
        assert Split(s, seps) == [first] + rest[1..];
      }
    }
  }

  /** Every page is within the document. */
  lemma PageSetInBounds(rangeString: string, totalPages: int, p: int)
    requires p in PageSet(rangeString, totalPages)
    ensures 1 <= p <= totalPages
  {
    var segments := Segments(rangeString);
    var i :| 0 <= i < |segments| && p in SegmentPages(segments[i], totalPages);
  }

  /** The text `a-b` of two numbers. */
  function RangeText(a: nat, b: nat): string { NatToString(a) + "-" + NatToString(b) }

  lemma {:induction false} RangeTextParts(a: nat, b: nat)
    ensures '-' in RangeText(a, b)
    ensures Split(RangeText(a, b), {'-'}) == [NatToString(a), NatToString(b)]
  {
    var sa, sb := NatToString(a), NatToString(b);
    assert RangeText(a, b) == sa + ['-'] + sb;
    assert RangeText(a, b)[|sa|] == '-';
    assert NoneIn(sa, {'-'}) && NoneIn(sb, {'-'});
    SplitAfterFirst(sa, '-', sb, {'-'});
    SplitWithout(sb, {'-'});
  }

  /**
   * A segment `a-b` with `1 <= a <= b <= totalPages` contributes every page from
   * a to b; with the ends reversed or either end outside the document it
   * contributes nothing at all, rather than the pages that are in bounds.
   */
  lemma {:induction false} RangeSegmentPages(a: nat, b: nat, totalPages: int)
    ensures 1 <= a <= b <= totalPages ==> SegmentPages(RangeText(a, b), totalPages) == PagesBetween(a, b)
    ensures (a > b || a < 1 || b > totalPages) ==> SegmentPages(RangeText(a, b), totalPages) == {}
  {
    RangeTextPages(a, b, totalPages);
    ToNumberOfDigits(a);
    ToNumberOfDigits(b);
    RangePagesOfNumbers([NatToString(a), NatToString(b)], a, b, totalPages);
  }

  lemma RangePagesOfNumbers(ends: seq<string>, a: nat, b: nat, totalPages: int)
    requires |ends| >= 2 && ToNumber(ends[0]) == Some(a) && ToNumber(ends[1]) == Some(b)
    ensures 1 <= a <= b <= totalPages ==> RangePages(ends, totalPages) == PagesBetween(a, b)
    ensures (a > b || a < 1 || b > totalPages) ==> RangePages(ends, totalPages) == {}
  {
    assert RangePages(ends, totalPages) == if a < 1 || b > totalPages || a > b then {} else PagesBetween(a, b);
  }

  lemma RangeTextPages(a: nat, b: nat, totalPages: int)
    ensures SegmentPages(RangeText(a, b), totalPages) == RangePages([NatToString(a), NatToString(b)], totalPages)
  {
    RangeTextParts(a, b);
    SegmentPagesCases(RangeText(a, b), totalPages);
  }

  /** A valid segment `a-b` anywhere in the range string puts every page from a to b in the result. */
  lemma RangeSegmentContributes(rangeString: string, totalPages: int, i: int, a: nat, b: nat)
    requires 0 <= i < |Segments(rangeString)| && Segments(rangeString)[i] == RangeText(a, b)
    requires 1 <= a <= b <= totalPages
    ensures forall p :: a <= p <= b ==> p in PageSet(rangeString, totalPages)
  {
    if Trim(rangeString) == "" {
      BlankPartsAreBlank(rangeString, i);
      assert false;
    }
    RangeSegmentPages(a, b, totalPages);
    var segments := Segments(rangeString);
    forall p | a <= p <= b ensures p in PageSet(rangeString, totalPages) {
      assert p in SegmentPages(segments[i], totalPages);
      assert Contributes(segments, totalPages, p);
    }
  }

  /** A single page inside the document is contributed; one outside is not. */
  lemma {:induction false} SinglePageSegment(n: nat, totalPages: int)
    ensures SegmentPages(NatToString(n), totalPages) == if 1 <= n <= totalPages then {n} else {}
  {
    var s := NatToString(n);
    ToNumberOfDigits(n);
    NoDashInDigits(s);
    SegmentPagesCases(s, totalPages);
  }

  lemma NoDashInDigits(s: string)
    requires AllDigits(s)
    ensures '-' !in s
  {
    forall i | 0 <= i < |s| ensures s[i] != '-' {
      assert IsDigit(s[i]);
    }
  }

  /** Which of the two branches of the loop body a segment takes. */
  lemma SegmentPagesCases(segment: string, totalPages: int)
    ensures '-' !in segment ==> SegmentPages(segment, totalPages) == SinglePage(segment, totalPages)
    ensures '-' in segment ==>
      (|Split(segment, {'-'})| >= 2 && SegmentPages(segment, totalPages) == RangePages(Split(segment, {'-'}), totalPages))
  {
    if '-' in segment {
      SplitOfSeparated(segment, '-');
    }
  }

  /** A segment whose text is not a number, such as `x` or `1x-3`, contributes nothing. */
  lemma NonNumberSegments(totalPages: int)
    ensures SegmentPages("x", totalPages) == {}
    ensures SegmentPages("1x-3", totalPages) == {}
  {
    BadSinglePage("x", 0, totalPages);
    BadStartExample(totalPages);
  }

  lemma BadStartExample(totalPages: int)
    ensures SegmentPages("1x-3", totalPages) == {}
  {
    var start := "1x";
    assert NoneIn(start, {'-'}) && !IsDigit(start[1]);
    BadRangeStart(start, 1, "3", totalPages);
    assert start + ['-'] + "3" == "1x-3";
  }

  /** A segment without a dash holding a character that is no digit contributes nothing. */
  lemma BadSinglePage(segment: string, i: nat, totalPages: int)
    requires '-' !in segment && i < |segment| && !IsDigit(segment[i])
    requires forall j :: 0 <= j < |segment| ==> !IsSpace(segment[j])
    ensures SegmentPages(segment, totalPages) == {}
  {
    NotANumber(segment, i);
    SegmentPagesCases(segment, totalPages);
  }

  /** A dashed segment whose start holds a character that is no digit contributes nothing. */
  lemma BadRangeStart(start: string, i: nat, rest: string, totalPages: int)
    requires NoneIn(start, {'-'}) && i < |start| && !IsDigit(start[i])
    requires forall j :: 0 <= j < |start| ==> !IsSpace(start[j])
    ensures SegmentPages(start + ['-'] + rest, totalPages) == {}
  {
    NotANumber(start, i);
    var segment := start + ['-'] + rest;
    SplitAfterFirst(start, '-', rest, {'-'});
    assert segment[|start|] == '-';
    SegmentPagesCases(segment, totalPages);
  }

  /** A dashed segment whose end holds a character that is no digit contributes nothing, whatever its start. */
  lemma BadRangeEnd(start: string, end: string, i: nat, totalPages: int)
    requires NoneIn(start, {'-'}) && NoneIn(end, {'-'})
    requires i < |end| && !IsDigit(end[i])
    requires forall j :: 0 <= j < |end| ==> !IsSpace(end[j])
    ensures SegmentPages(start + ['-'] + end, totalPages) == {}
  {
    NotANumber(end, i);
    var segment := start + ['-'] + end;
    SplitAfterFirst(start, '-', end, {'-'});
    SplitWithout(end, {'-'});
    assert segment[|start|] == '-';
    SegmentPagesCases(segment, totalPages);
  }

  lemma BadEndLetter(totalPages: int)
    ensures SegmentPages("2-x", totalPages) == {}
  {
    var end := "x";
    assert NoneIn(end, {'-'}) && !IsDigit(end[0]);
    BadRangeEnd("2", end, 0, totalPages);
    assert "2" + ['-'] + end == "2-x";
  }

  lemma BadEndSuffix(totalPages: int)
    ensures SegmentPages("2-3x", totalPages) == {}
  {
    var end := "3x";
    assert NoneIn(end, {'-'}) && !IsDigit(end[1]);
    BadRangeEnd("2", end, 1, totalPages);
    assert "2" + ['-'] + end == "2-3x";
  }

  /** A text with a character that is neither whitespace nor a digit is NaN. */
  lemma NotANumber(text: string, i: nat)
    requires i < |text| && !IsDigit(text[i])
    requires forall j :: 0 <= j < |text| ==> !IsSpace(text[j])
    ensures ToNumber(text) == None
  {
    TrimOfWordChars(text);
  }

  // ----- the imperative routine -----

  predicate Distinct(s: seq<int>) { forall i, j :: 0 <= i < j < |s| ==> s[i] != s[j] }
  predicate NonDecreasing(s: seq<int>) { forall i, j :: 0 <= i < j < |s| ==> s[i] <= s[j] }
  predicate Increasing(s: seq<int>) { forall i, j :: 0 <= i < j < |s| ==> s[i] < s[j] }

  /** One insertion step of the ascending sort. */
  function Insert(sorted: seq<int>, x: int): (r: seq<int>)
    requires NonDecreasing(sorted)
    ensures NonDecreasing(r)
    ensures multiset(r) == multiset(sorted) + multiset{x}
    ensures forall i :: 0 <= i < |r| ==> r[i] == x || r[i] in sorted
  {
    if sorted == [] || x <= sorted[0] then [x] + sorted
    else
      var rest := Insert(sorted[1..], x);
      InsertAfterHead(sorted, x, rest);
      [sorted[0]] + rest
  }

  /** Putting the head in front of the insertion into the tail keeps the order and the elements. */
  lemma InsertAfterHead(sorted: seq<int>, x: int, rest: seq<int>)
    requires NonDecreasing(sorted) && sorted != [] && sorted[0] < x
    requires NonDecreasing(rest)
    requires multiset(rest) == multiset(sorted[1..]) + multiset{x}
    requires forall i :: 0 <= i < |rest| ==> rest[i] == x || rest[i] in sorted[1..]
    ensures NonDecreasing([sorted[0]] + rest)
    ensures multiset([sorted[0]] + rest) == multiset(sorted) + multiset{x}
    ensures forall i :: 0 <= i < |[sorted[0]] + rest| ==> ([sorted[0]] + rest)[i] == x || ([sorted[0]] + rest)[i] in sorted
  {
    assert sorted == [sorted[0]] + sorted[1..];
    var r := [sorted[0]] + rest;
    forall i | 0 <= i < |rest| ensures sorted[0] <= rest[i] {
      if rest[i] != x {
        var j :| 0 <= j < |sorted[1..]| && sorted[1..][j] == rest[i];
        assert sorted[j + 1] == rest[i];
      }
    }
    forall i, j | 0 <= i < j < |r| ensures r[i] <= r[j] {
      if i > 0 {
        assert r[i] == rest[i - 1] && r[j] == rest[j - 1];
      } else {
        assert r[j] == rest[j - 1];
      }
    }
    forall i | 0 <= i < |r| ensures r[i] == x || r[i] in sorted {
      if i > 0 {
        assert r[i] == rest[i - 1];
      }
    }
  }

  /** `sort((a, b) => a - b)`: the same numbers, in ascending order. */
  method SortAscending(s: seq<int>) returns (r: seq<int>)
    ensures NonDecreasing(r)
    ensures multiset(r) == multiset(s)
  {
    r := [];
    var k := 0;
    while k < |s|
      invariant 0 <= k <= |s|
      invariant NonDecreasing(r)
      invariant multiset(r) == multiset(s[..k])
    {
      assert s[..k + 1] == s[..k] + [s[k]];
      r := Insert(r, s[k]);
      k := k + 1;
    }
    assert s[..k] == s;
  }

  lemma {:induction false} DistinctCounts(s: seq<int>, x: int)
    requires Distinct(s)
    ensures multiset(s)[x] <= 1
    decreases |s|
  {
    if s != [] {
      var init := s[..|s| - 1];
      assert s == init + [s[|s| - 1]];
      DistinctCounts(init, x);
      if s[|s| - 1] == x {
        assert x !in init;
      }
    }
  }

  lemma SortedDistinctIsIncreasing(r: seq<int>, s: seq<int>)
    requires NonDecreasing(r) && multiset(r) == multiset(s) && Distinct(s)
    ensures Increasing(r)
  {
    forall i, j | 0 <= i < j < |r| ensures r[i] < r[j] {
      if r[i] == r[j] {
        assert r == r[..i] + [r[i]] + r[i + 1..j] + [r[j]] + r[j + 1..];
        assert multiset(r)[r[i]] >= 2;
        DistinctCounts(s, r[i]);
      }
    }
  }

  /** `if (!pages.includes(p)) pages.push(p)` */
  method PushUnlessPresent(pages: seq<int>, p: int) returns (r: seq<int>)
    requires Distinct(pages)
    ensures Distinct(r)
    ensures r == if p in pages then pages else pages + [p]
    ensures forall q :: q in r <==> q in pages || q == p
  {
    r := pages;
    if p !in pages {
      r := pages + [p];
    }
  }

  /** `for (let i = start; i <= end; i++) if (!pages.includes(i)) pages.push(i)` */
  method PushRange(pages: seq<int>, start: int, end: int) returns (r: seq<int>)
    requires Distinct(pages) && start <= end
    ensures Distinct(r)
    ensures forall q :: q in r <==> q in pages || InRange(q, start, end)
  {
    r := pages;
    var i := start;
    while i <= end
      invariant start <= i <= end + 1
      invariant Distinct(r)
      invariant forall q :: q in r <==> q in pages || InRange(q, start, i - 1)
    {
      r := PushUnlessPresent(r, i);
      i := i + 1;
    }
  }

  /** The body of the loop over the segments: push the pages one segment contributes. */
  method AddSegment(pages: seq<int>, range: string, totalPages: int) returns (r: seq<int>)
    requires Distinct(pages)
    ensures Distinct(r)
    ensures forall q :: q in r <==> q in pages || q in SegmentPages(range, totalPages)
  {
    SegmentPagesCases(range, totalPages);
    r := pages;
    if '-' in range {
      var ends := Split(range, {'-'});
      var start, end := ToNumber(ends[0]), ToNumber(ends[1]);
      if start.Some? && end.Some? && 1 <= start.value && end.value <= totalPages && start.value <= end.value {
        r := PushRange(pages, start.value, end.value);
      }
    } else {
      var pageNum := ToNumber(range);
      if pageNum.Some? && 1 <= pageNum.value <= totalPages {
        r := PushUnlessPresent(pages, pageNum.value);
      }
    }
  }

  /** The loop over the trimmed segments, pushing the pages of each. */
  method AddSegments(ranges: seq<string>, totalPages: int) returns (found: seq<int>)
    ensures Distinct(found)
    ensures forall p :: p in found <==> p in PagesOf(ranges, totalPages)
  {
    found := [];
    var k := 0;
    while k < |ranges|
      invariant 0 <= k <= |ranges|
      invariant Distinct(found)
      invariant forall p :: p in found <==> p in PagesOf(ranges[..k], totalPages)
    {
      found := AddSegment(found, ranges[k], totalPages);
      PagesOfPrefix(ranges, k, totalPages);
      k := k + 1;
    }
    assert ranges[..k] == ranges;
  }

  /**
   * The pages of a range string such as "1-3, 5, 8-10", ascending and without
   * repetition: each segment's pages are pushed unless already present, then the
   * list is sorted.
   */
  method ParsePageRanges(rangeString: string, totalPages: int) returns (pages: seq<int>)
    ensures Increasing(pages)
    ensures forall p :: p in pages <==> p in PageSet(rangeString, totalPages)
    ensures forall i :: 0 <= i < |pages| ==> 1 <= pages[i] <= totalPages
    ensures (forall i :: 0 <= i < |rangeString| ==> IsSpace(rangeString[i])) ==> pages == []
  {
    if Trim(rangeString) == "" {
      return [];
    }
    var found := AddSegments(Segments(rangeString), totalPages);
    pages := SortAscending(found);
    SortedPagesMeetSpec(rangeString, totalPages, found, pages);
  }

  /** One more segment adds exactly its own pages. */
  lemma PagesOfPrefix(segments: seq<string>, k: int, totalPages: int)
    requires 0 <= k < |segments|
    ensures PagesOf(segments[..k + 1], totalPages) == PagesOf(segments[..k], totalPages) + SegmentPages(segments[k], totalPages)
  {
    assert segments[..k + 1] == segments[..k] + [segments[k]];
    forall p ensures Contributes(segments[..k + 1], totalPages, p) <==>
      Contributes(segments[..k], totalPages, p) || p in SegmentPages(segments[k], totalPages)
    {
      ContributesExtended(segments[..k], segments[k], totalPages, p);
    }
  }

  /** Sorting the pushed pages gives the ascending listing of the page set. */
  lemma SortedPagesMeetSpec(rangeString: string, totalPages: int, found: seq<int>, pages: seq<int>)
    requires Trim(rangeString) != ""
    requires Distinct(found)
    requires forall p :: p in found <==> p in PagesOf(Segments(rangeString), totalPages)
    requires NonDecreasing(pages) && multiset(pages) == multiset(found)
    ensures Increasing(pages)
    ensures forall p :: p in pages <==> p in PageSet(rangeString, totalPages)
    ensures forall i :: 0 <= i < |pages| ==> 1 <= pages[i] <= totalPages
    ensures !forall i :: 0 <= i < |rangeString| ==> IsSpace(rangeString[i])
  {
    SortedDistinctIsIncreasing(pages, found);
    assert forall p :: p in pages <==> p in multiset(pages);
    assert forall p :: p in found <==> p in multiset(found);
    forall i | 0 <= i < |pages| ensures 1 <= pages[i] <= totalPages {
      PageSetInBounds(rangeString, totalPages, pages[i]);
    }
  }
}
