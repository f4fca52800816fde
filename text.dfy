/**
 * The JavaScript string built-ins that the modelled code relies on:
 * ASCII `toLowerCase`, `trim`, `split` on single characters, `join`,
 * `lastIndexOf`, and the decimal text of integers (`toString`, `Number`).
 */
module Text {
  import opened Wrappers

  predicate IsUpper(c: char) { 'A' <= c <= 'Z' }
  predicate IsLower(c: char) { 'a' <= c <= 'z' }
  predicate IsDigit(c: char) { '0' <= c <= '9' }

  /** The class `\w` of a JavaScript regular expression without the `u` flag. */
  predicate IsWordChar(c: char) { IsUpper(c) || IsLower(c) || IsDigit(c) || c == '_' }

  /** ECMAScript WhiteSpace and LineTerminator: what `trim` removes and `\s` matches. */
  predicate IsSpace(c: char) {
    || '\t' <= c <= '\r'
    || c == ' '
    || c == '\U{A0}'
    || c == '\U{1680}'
    || '\U{2000}' <= c <= '\U{200A}'
    || c == '\U{2028}' || c == '\U{2029}' || c == '\U{202F}' || c == '\U{205F}'
    || c == '\U{3000}'
    || c == '\U{FEFF}'
  }

  /** The same characters as a set, for `split(/\s+/)`. */
  const WhiteSpace: set<char> := {
    '\t', '\n', '\U{B}', '\U{C}', '\r', ' ', '\U{A0}', '\U{1680}',
    '\U{2000}', '\U{2001}', '\U{2002}', '\U{2003}', '\U{2004}', '\U{2005}', '\U{2006}',
    '\U{2007}', '\U{2008}', '\U{2009}', '\U{200A}',
    '\U{2028}', '\U{2029}', '\U{202F}', '\U{205F}', '\U{3000}', '\U{FEFF}'
  }

  lemma WhiteSpaceIsSpace(c: char)
    ensures c in WhiteSpace <==> IsSpace(c)
  {
  }

  predicate NoUpper(s: string) { forall i :: 0 <= i < |s| ==> !IsUpper(s[i]) }

  /** `toLowerCase` on one character, restricted to the ASCII letters. */
  function LowerChar(c: char): (d: char)
    ensures !IsUpper(d)
    ensures IsUpper(c) ==> IsLower(d) && d as int == c as int + 32
    ensures !IsUpper(c) ==> d == c
  {
    if IsUpper(c) then (c as int + 32) as char else c
  }

  function ToLower(s: string): (r: string)
    ensures |r| == |s| && NoUpper(r)
    ensures forall i :: 0 <= i < |s| ==> r[i] == LowerChar(s[i])
  {
    seq(|s|, i requires 0 <= i < |s| => LowerChar(s[i]))
  }

  /** Lower-casing brings in no character that is not a lower-case letter. */
  lemma ToLowerKeepsAbsent(s: string, c: char)
    requires !IsLower(c) && c !in s
    ensures c !in ToLower(s)
  {
    var r := ToLower(s);
    forall i | 0 <= i < |r| ensures r[i] != c {
      assert r[i] == LowerChar(s[i]);
    }
  }

  lemma ToLowerIdempotent(s: string)
    requires NoUpper(s)
    ensures ToLower(s) == s
  {
  }

  function TrimStart(s: string): (r: string)
    ensures |r| <= |s| && r == s[|s| - |r|..]
    ensures r == "" || !IsSpace(r[0])
    ensures forall i :: 0 <= i < |s| - |r| ==> IsSpace(s[i])
  {
    if s != "" && IsSpace(s[0]) then TrimStart(s[1..]) else s
  }

  function TrimEnd(s: string): (r: string)
    ensures |r| <= |s| && r == s[..|r|]
    ensures r == "" || !IsSpace(r[|r| - 1])
    ensures forall i :: |r| <= i < |s| ==> IsSpace(s[i])
  {
    if s != "" && IsSpace(s[|s| - 1]) then TrimEnd(s[..|s| - 1]) else s
  }

  /** `trim`: drop the leading and trailing whitespace. */
  function Trim(s: string): (r: string)
    ensures r == "" || (!IsSpace(r[0]) && !IsSpace(r[|r| - 1]))
    ensures r == "" <==> forall i :: 0 <= i < |s| ==> IsSpace(s[i])
    ensures exists i, j :: 0 <= i <= j <= |s| && r == s[i..j] && Outside(s, i, j)
  {
    var t := TrimStart(s);
    TrimBlank(s);
    TrimSlice(s, t, TrimEnd(t));
    TrimEnd(t)
  }

  /** Every character of `s` before `i` or from `j` on is whitespace. */
  predicate Outside(s: string, i: int, j: int) {
    forall k :: 0 <= k < |s| && (k < i || j <= k) ==> IsSpace(s[k])
  }

  lemma TrimBlank(s: string)
    ensures TrimEnd(TrimStart(s)) == "" <==> forall i :: 0 <= i < |s| ==> IsSpace(s[i])
  {
    var t := TrimStart(s);
    if t != "" {
      assert !IsSpace(t[0]);
      assert TrimEnd(t) != "";
    }
  }

  lemma TrimSlice(s: string, t: string, r: string)
    requires |t| <= |s| && t == s[|s| - |t|..] && forall k :: 0 <= k < |s| - |t| ==> IsSpace(s[k])
    requires |r| <= |t| && r == t[..|r|] && forall k :: |r| <= k < |t| ==> IsSpace(t[k])
    ensures var i := |s| - |t|; r == s[i..i + |r|] && Outside(s, i, i + |r|)
  {
    var i := |s| - |t|;
    forall k | 0 <= k < |s| && (k < i || i + |r| <= k) ensures IsSpace(s[k]) {
      if k >= i {
        assert s[k] == t[k - i];
      }
    }
  }

  /** Trimming text that is padded with whitespace around a core without whitespace at its ends gives the core. */
  lemma TrimPadded(before: string, core: string, after: string)
    requires forall k :: 0 <= k < |before| ==> IsSpace(before[k])
    requires forall k :: 0 <= k < |after| ==> IsSpace(after[k])
    requires core == "" || (!IsSpace(core[0]) && !IsSpace(core[|core| - 1]))
    ensures Trim(before + core + after) == core
  {
    var s := before + core + after;
    var b, e := |before|, |before| + |core|;
    Padding(before, core, after);
    if core != "" {
      assert s[b] == core[0] && s[e - 1] == core[|core| - 1];
      TrimOfPadding(s, b, e);
    }
  }

  /** Where the pieces of a padded text sit in it. */
  lemma Padding(before: string, core: string, after: string)
    requires forall k :: 0 <= k < |before| ==> IsSpace(before[k])
    requires forall k :: 0 <= k < |after| ==> IsSpace(after[k])
    ensures var s := before + core + after; var b, e := |before|, |before| + |core|;
      s[b..e] == core && Outside(s, b, e)
  {
    var s := before + core + after;
    var b, e := |before|, |before| + |core|;
    forall k | 0 <= k < |s| && (k < b || e <= k) ensures IsSpace(s[k]) {
      if k < b {
        assert s[k] == before[k];
      } else {
        assert s[k] == after[k - e];
      }
    }
    assert s[b..e] == core;
  }

  /** A text that is whitespace outside `[b, e)` and has no whitespace at the ends of that stretch trims to it. */
  lemma TrimOfPadding(s: string, b: int, e: int)
    requires 0 <= b < e <= |s| && !IsSpace(s[b]) && !IsSpace(s[e - 1]) && Outside(s, b, e)
    ensures Trim(s) == s[b..e]
  {
    var r := Trim(s);
    var i, j :| 0 <= i <= j <= |s| && r == s[i..j] && Outside(s, i, j);
    assert r != "" by {
      assert !IsSpace(s[b]);
    }
    assert r[0] == s[i] && r[|r| - 1] == s[j - 1];
    SameStretch(s, i, j, b, e);
  }

  /** Two stretches with whitespace outside them and none at their ends are the same stretch. */
  lemma SameStretch(s: string, i: int, j: int, b: int, e: int)
    requires 0 <= i < j <= |s| && !IsSpace(s[i]) && !IsSpace(s[j - 1]) && Outside(s, i, j)
    requires 0 <= b < e <= |s| && !IsSpace(s[b]) && !IsSpace(s[e - 1]) && Outside(s, b, e)
    ensures i == b && j == e
  {
  }

  predicate NoneIn(s: string, seps: set<char>) {
    forall i :: 0 <= i < |s| ==> s[i] !in seps
  }

  /**
   * `split` with each character of `seps` acting as a separator: the text between
   * consecutive separators, so there is always one part more than separators.
   */
  function Split(s: string, seps: set<char>): (parts: seq<string>)
    ensures |parts| >= 1
    ensures forall i :: 0 <= i < |parts| ==> NoneIn(parts[i], seps)
    decreases |s|
  {
    if s == "" then [""]
    else
      var rest := Split(s[1..], seps);
      if s[0] in seps then [""] + rest
      else [[s[0]] + rest[0]] + rest[1..]
  }

  /** `join` with a one-character separator. */
  function Join(parts: seq<string>, sep: char): string
  {
    if |parts| == 0 then ""
    else if |parts| == 1 then parts[0]
    else parts[0] + [sep] + Join(parts[1..], sep)
  }

  /** Splitting and joining again on the same character gives back the text. */
  lemma {:induction false} JoinSplit(s: string, c: char)
    ensures Join(Split(s, {c}), c) == s
    decreases |s|
  {
    if s != "" {
      var rest := Split(s[1..], {c});
      JoinSplit(s[1..], c);
      if s[0] == c {
        assert Split(s, {c}) == [""] + rest;
        assert ([""] + rest)[1..] == rest;
      } else {
        var parts := Split(s, {c});
        assert parts == [[s[0]] + rest[0]] + rest[1..];
        if |rest| == 1 {
          assert Join(rest, c) == rest[0];
        } else {
          assert parts[1..] == rest[1..];
          assert Join(rest, c) == rest[0] + [c] + Join(rest[1..], c);
        }
      }
    }
  }

  /** A text with no separator is one part. */
  lemma {:induction false} SplitWithout(a: string, seps: set<char>)
    requires NoneIn(a, seps)
    ensures Split(a, seps) == [a]
    decreases |a|
  {
    if a != "" {
      SplitWithout(a[1..], seps);
      assert [a[0]] + a[1..] == a;
    }
  }

  /** The text before the first separator is the first part, and the rest is split on its own. */
  lemma {:induction false} SplitAfterFirst(a: string, c: char, b: string, seps: set<char>)
    requires NoneIn(a, seps) && c in seps
    ensures Split(a + [c] + b, seps) == [a] + Split(b, seps)
    decreases |a|
  {
    var s := a + [c] + b;
    if a == "" {
      assert s[1..] == b;
    } else {
      assert s[1..] == a[1..] + [c] + b;
      SplitAfterFirst(a[1..], c, b, seps);
      assert [a[0]] + a[1..] == a;
    }
  }

  /** The parts of a text without upper-case letters have none either. */
  lemma {:induction false} SplitKeepsNoUpper(s: string, seps: set<char>)
    requires NoUpper(s)
    ensures forall i :: 0 <= i < |Split(s, seps)| ==> NoUpper(Split(s, seps)[i])
    decreases |s|
  {
    if s != "" {
      assert NoUpper(s[1..]) by {
        forall i | 0 <= i < |s| - 1 ensures !IsUpper(s[1..][i]) {
          assert s[1..][i] == s[i + 1];
        }
      }
      SplitKeepsNoUpper(s[1..], seps);
    }
  }

  /** Two separator sets that agree on the characters of a text split it alike. */
  lemma {:induction false} SplitSameSeparators(s: string, seps: set<char>, others: set<char>)
    requires forall i :: 0 <= i < |s| ==> (s[i] in seps <==> s[i] in others)
    ensures Split(s, seps) == Split(s, others)
    decreases |s|
  {
    if s != "" {
      SplitSameSeparators(s[1..], seps, others);
    }
  }

  /** Joining parts that hold no separator and splitting again gives back the parts. */
  lemma {:induction false} SplitJoin(parts: seq<string>, c: char)
    requires |parts| >= 1
    requires forall i :: 0 <= i < |parts| ==> NoneIn(parts[i], {c})
    ensures Split(Join(parts, c), {c}) == parts
    decreases |parts|
  {
    if |parts| == 1 {
      SplitWithout(parts[0], {c});
    } else {
      SplitJoin(parts[1..], c);
      SplitAfterFirst(parts[0], c, Join(parts[1..], c), {c});
      assert [parts[0]] + parts[1..] == parts;
    }
  }

  /** `lastIndexOf` of one character: -1 when it does not occur. */
  function LastIndexOf(s: string, c: char): (k: int)
    ensures -1 <= k < |s|
    ensures k >= 0 ==> s[k] == c
    ensures forall j :: k < j < |s| ==> s[j] != c
  {
    if s == "" then -1
    else if s[|s| - 1] == c then |s| - 1
    else LastIndexOf(s[..|s| - 1], c)
  }

  /** The three properties of `LastIndexOf` pin it down. */
  lemma LastIndexOfIs(s: string, c: char, k: int)
    requires -1 <= k < |s|
    requires k >= 0 ==> s[k] == c
    requires forall j :: k < j < |s| ==> s[j] != c
    ensures LastIndexOf(s, c) == k
  {
  }

  lemma {:induction false} SplitOfSeparated(s: string, c: char)
    requires c in s
    ensures |Split(s, {c})| >= 2
    decreases |s|
  {
    if s[0] != c {
      SplitOfSeparated(s[1..], c);
    }
  }
  /** The last part of a split is the text after the last separator. */
  lemma LastPartOfSplit(s: string, c: char)
    ensures var parts := Split(s, {c});
      parts[|parts| - 1] == s[LastIndexOf(s, c) + 1..]
  {
    LastPartAt(s, c, LastIndexOf(s, c));
  }

  /** The same, for the index `k` of the last separator given directly. */
  lemma {:induction false} LastPartAt(s: string, c: char, k: int)
    requires -1 <= k < |s| && (k >= 0 ==> s[k] == c)
    requires forall j :: k < j < |s| ==> s[j] != c
    ensures var parts := Split(s, {c});
      parts[|parts| - 1] == s[k + 1..]
    decreases |s|
  {
    if k == -1 {
      LastPartWithout(s, c);
    } else if k == 0 {
      LastPartAtStart(s, c);
    } else {
      LastInTail(s, c, k);
      LastPartAt(s[1..], c, k - 1);
      LastPartStep(s, c, k);
    }
  }

  /** Without a separator, the last part is the whole text. */
  lemma LastPartWithout(s: string, c: char)
    requires forall j :: -1 < j < |s| ==> s[j] != c
    ensures var parts := Split(s, {c});
      parts[|parts| - 1] == s[0..]
  {
    assert NoneIn(s, {c});
    SplitWithout(s, {c});
    assert s[0..] == s;
  }

  /** With the only separator first, the last part is everything after it. */
  lemma LastPartAtStart(s: string, c: char)
    requires s != "" && s[0] == c
    requires forall j :: 0 < j < |s| ==> s[j] != c
    ensures var parts := Split(s, {c});
      parts[|parts| - 1] == s[1..]
  {
    var tail := s[1..];
    assert NoneIn(tail, {c}) by {
      forall j | 0 <= j < |tail| ensures tail[j] != c {
        assert tail[j] == s[j + 1];
      }
    }
    SplitWithout(tail, {c});
  }

  /** The last separator at `k` is at `k - 1` in the text without its first character. */
  lemma LastInTail(s: string, c: char, k: int)
    requires 1 <= k < |s| && s[k] == c
    requires forall j :: k < j < |s| ==> s[j] != c
    ensures s[1..][k - 1] == c
    ensures forall j :: k - 1 < j < |s[1..]| ==> s[1..][j] != c
  {
    var tail := s[1..];
    forall j | k - 1 < j < |tail| ensures tail[j] != c {
      assert tail[j] == s[j + 1];
    }
  }

  /** Behind a first character, the last part is the one of the rest once the rest holds a separator. */
  lemma LastPartStep(s: string, c: char, k: int)
    requires 1 <= k < |s| && s[k] == c
    requires var rest := Split(s[1..], {c}); rest[|rest| - 1] == s[1..][k..]
    ensures var parts := Split(s, {c}); parts[|parts| - 1] == s[k + 1..]
  {
    var tail := s[1..];
    assert tail[k - 1] == c;
    SplitOfSeparated(tail, c);
    SplitKeepsLastPart(s, {c});
    assert tail[k..] == s[k + 1..];
  }

  /** Once the rest holds a separator, the first character does not change the last part. */
  lemma SplitKeepsLastPart(s: string, seps: set<char>)
    requires s != "" && |Split(s[1..], seps)| >= 2
    ensures var parts := Split(s, seps); var rest := Split(s[1..], seps);
      parts[|parts| - 1] == rest[|rest| - 1]
  {
    var rest := Split(s[1..], seps);
    if s[0] in seps {
      assert Split(s, seps) == [""] + rest;
    } else {
      assert Split(s, seps) == [[s[0]] + rest[0]] + rest[1..];
    }
  }

  predicate AllDigits(s: string) { forall i :: 0 <= i < |s| ==> IsDigit(s[i]) }

  function DigitChar(d: nat): (c: char)
    requires d < 10
    ensures IsDigit(c) && c as int - '0' as int == d
  {
    ('0' as int + d) as char
  }

  /** The value of a string of decimal digits ("" is 0). */
  function DecimalValue(s: string): nat
    requires AllDigits(s)
  {
    if s == "" then 0
    else 10 * DecimalValue(s[..|s| - 1]) + (s[|s| - 1] as int - '0' as int)
  }

  /** The decimal text of a natural number, as `toString` writes it. */
  function NatToString(n: nat): (s: string)
    ensures s != "" && AllDigits(s)
  {
    if n < 10 then [DigitChar(n)] else NatToString(n / 10) + [DigitChar(n % 10)]
  }

  lemma {:induction false} DecimalOfNatToString(n: nat)
    ensures DecimalValue(NatToString(n)) == n
  {
    if n >= 10 {
      DecimalOfNatToString(n / 10);
      var s := NatToString(n);
      assert s[..|s| - 1] == NatToString(n / 10);
    }
  }

  /** `toString` of an integral JavaScript number. */
  function IntToString(i: int): (s: string)
    ensures s != ""
  {
    if i < 0 then "-" + NatToString(-i) else NatToString(i)
  }

  /** An integer read back from its decimal text, as a receiver would. */
  function ParseInt(s: string): Option<int>
  {
    if s != "" && s[0] == '-' && |s| > 1 && AllDigits(s[1..]) then Some(-(DecimalValue(s[1..]) as int))
    else if s != "" && AllDigits(s) then Some(DecimalValue(s))
    else None
  }

  lemma IntToStringRoundTrip(i: int)
    ensures ParseInt(IntToString(i)) == Some(i)
  {
    if i < 0 {
      DecimalOfNatToString(-i);
      assert IntToString(i)[1..] == NatToString(-i);
    } else {
      DecimalOfNatToString(i);
    }
  }

  /** `toString` of a boolean. */
  function BoolToString(b: bool): string { if b then "true" else "false" }

  function ParseBool(s: string): Option<bool>
  {
    if s == "true" then Some(true) else if s == "false" then Some(false) else None
  }

  lemma BoolToStringRoundTrip(b: bool)
    ensures ParseBool(BoolToString(b)) == Some(b)
  {
  }
}
