/**
 * lib/seo/schemas.ts: `getTranslation`, `extractKeywords` and the metadata that
 * `generatePageSeoMetadata` builds from them. The `lang` argument of
 * `getTranslation` is not read by the source (it always uses the English
 * table), so the model takes the table and the key only.
 */
module SeoSchemas {
  import opened Wrappers
  import opened Text
  import opened TranslationTree
  import I18nConfig
  import LanguageLink
  import Store

  // ----- getTranslation -----

  /** What `getTranslation` answers: the string at the key, or the key itself otherwise. */
  function TranslationOf(tree: Tree, key: string): string
  {
    match Lookup(tree, Split(key, {'.'}))
    case Some(Leaf(text)) => text
    case _ => key
  }

  /** The loop of `getTranslation`, which gives up at the first key it cannot follow. */
  method GetTranslation(tree: Tree, key: string) returns (r: string)
    ensures r == TranslationOf(tree, key)
    ensures Lookup(tree, Split(key, {'.'})) == None ==> r == key
    ensures (forall text :: Lookup(tree, Split(key, {'.'})) != Some(Leaf(text))) ==> r == key
  {
    var keys := Split(key, {'.'});
    var result := tree;
    for i := 0 to |keys|
      invariant Lookup(tree, keys) == Lookup(result, keys[i..])
    {
      var child := Child(result, keys[i]);
      if child.None? {
        return key;
      }
      assert keys[i..][0] == keys[i] && keys[i..][1..] == keys[i + 1..];
      result := child.value;
    }
    assert keys[|keys|..] == [];
    r := if result.Leaf? then result.text else key;
  }

  /**
   * The two lookups agree on a non-empty string and part ways elsewhere: `t` of
   * src/store/store.ts answers the key for an empty string and hands back a
   * subtree as it is, while `getTranslation` keeps the empty string and answers
   * the key for a subtree.
   */
  lemma TranslationVariants(tree: Tree, key: string)
    ensures forall text :: Lookup(tree, Split(key, {'.'})) == Some(Leaf(text)) && text != "" ==>
      TranslationOf(tree, key) == text && Store.Translated(tree, key) == Leaf(text)
    ensures Lookup(tree, Split(key, {'.'})) == Some(Leaf("")) ==>
      TranslationOf(tree, key) == "" && Store.Translated(tree, key) == Leaf(key)
    ensures forall children :: Lookup(tree, Split(key, {'.'})) == Some(Node(children)) ==>
      TranslationOf(tree, key) == key && Store.Translated(tree, key) == Node(children)
    ensures Lookup(tree, Split(key, {'.'})) == None ==>
      TranslationOf(tree, key) == key && Store.Translated(tree, key) == Leaf(key)
  {
  }

  // ----- extractKeywords -----

  const StopWords: seq<string> :=
    ["the", "a", "an", "and", "or", "to", "in", "with", "for", "is", "on", "at", "of", "by"]

  predicate NoSpace(s: string) { forall i :: 0 <= i < |s| ==> !IsSpace(s[i]) }

  /** The characters `replace(/[^\w\s]/g, "")` keeps. */
  predicate Kept(c: char) { IsWordChar(c) || IsSpace(c) }

  /** `replace(/[^\w\s]/g, "")`: keep only word characters and whitespace. */
  function StripPunctuation(s: string): (r: string)
    ensures |r| <= |s|
    ensures forall i :: 0 <= i < |r| ==> Kept(r[i])
    ensures NoUpper(s) ==> NoUpper(r)
    ensures (forall i :: 0 <= i < |s| ==> Kept(s[i])) ==> r == s
  {
    if s == "" then ""
    else (if Kept(s[0]) then [s[0]] else []) + StripPunctuation(s[1..])
  }

  /** Each character is kept or dropped on its own, so the order of what is kept is the order of the text. */
  lemma {:induction false} StripPunctuationConcat(a: string, b: string)
    ensures StripPunctuation(a + b) == StripPunctuation(a) + StripPunctuation(b)
    decreases |a|
  {
    if a == "" {
      assert a + b == b;
    } else {
      var head := if Kept(a[0]) then [a[0]] else "";
      assert StripPunctuation(a + b) == head + StripPunctuation(a[1..] + b) by {
        assert (a + b)[0] == a[0] && (a + b)[1..] == a[1..] + b;
      }
      StripPunctuationConcat(a[1..], b);
      Associative(head, StripPunctuation(a[1..]), StripPunctuation(b));
    }
  }



  lemma Associative<T>(x: seq<T>, y: seq<T>, z: seq<T>)
    ensures x + (y + z) == (x + y) + z
  {
  }

  /** `split(/\s+/)`, cut at every whitespace character; the empty pieces that a run leaves are dropped later with the short words. */
  function SplitOnSpace(s: string): (parts: seq<string>)
    ensures |parts| >= 1
    ensures forall i :: 0 <= i < |parts| ==> NoSpace(parts[i])
  {
    var parts := Split(s, WhiteSpace);
    forall i, k | 0 <= i < |parts| && 0 <= k < |parts[i]| ensures !IsSpace(parts[i][k]) {
      WhiteSpaceIsSpace(parts[i][k]);
    }
    parts
  }

  /** A text without whitespace is one word; otherwise the first word ends at the first whitespace character. */
  lemma SplitOnSpaceWords(a: string, c: char, b: string)
    requires NoSpace(a)
    ensures SplitOnSpace(a) == [a]
    ensures IsSpace(c) ==> SplitOnSpace(a + [c] + b) == [a] + SplitOnSpace(b)
  {
    forall k | 0 <= k < |a| ensures a[k] !in WhiteSpace {
      WhiteSpaceIsSpace(a[k]);
    }
    SplitWithout(a, WhiteSpace);
    WhiteSpaceIsSpace(c);
    if IsSpace(c) {
      SplitAfterFirst(a, c, b, WhiteSpace);
    }
  }

  /** When the only whitespace is the plain space, splitting on whitespace is `split(' ')`. */
  lemma SplitOnSpaceIsSplit(s: string)
    requires forall i :: 0 <= i < |s| ==> IsSpace(s[i]) ==> s[i] == ' '
    ensures SplitOnSpace(s) == Split(s, {' '})
    ensures Join(SplitOnSpace(s), ' ') == s
  {
    forall i | 0 <= i < |s| ensures s[i] in WhiteSpace <==> s[i] in {' '} {
      WhiteSpaceIsSpace(s[i]);
    }
    SplitSameSeparators(s, WhiteSpace, {' '});
    JoinSplit(s, ' ');
  }

  /** Words with no whitespace and no upper-case letter. */
  predicate CleanWords(words: seq<string>) {
    forall i :: 0 <= i < |words| ==> NoSpace(words[i]) && NoUpper(words[i])
  }

  /** `filter(word => word.length > 2)` */
  function LongWords(words: seq<string>): (r: seq<string>)
    ensures forall w :: w in r <==> w in words && |w| > 2
    ensures forall i :: 0 <= i < |r| ==> |r[i]| > 2
    ensures CleanWords(words) ==> CleanWords(r)
  {
    if words == [] then []
    else (if |words[0]| > 2 then [words[0]] else []) + LongWords(words[1..])
  }

  /** The filter keeps the words in their order, repeats included. */
  lemma {:induction false} LongWordsConcat(a: seq<string>, b: seq<string>)
    ensures LongWords(a + b) == LongWords(a) + LongWords(b)
    decreases |a|
  {
    if a == [] {
      assert a + b == b;
    } else {
      var head := if |a[0]| > 2 then [a[0]] else [];
      assert LongWords(a + b) == head + LongWords(a[1..] + b) by {
        assert (a + b)[0] == a[0] && (a + b)[1..] == a[1..] + b;
      }
      LongWordsConcat(a[1..], b);
      Associative(head, LongWords(a[1..]), LongWords(b));
    }
  }


  /** One character is kept exactly when it is a word or whitespace character. */
  lemma StripOne(c: char)
    ensures StripPunctuation([c]) == if Kept(c) then [c] else ""
  {
    assert [c][1..] == "";
  }

  /** One word is kept exactly when it is longer than 2 characters. */
  lemma LongOne(w: string)
    ensures LongWords([w]) == if |w| > 2 then [w] else []
  {
    assert [w][1..] == [];
  }

  /** One word is kept exactly when it is not a stop word. */
  lemma StopOne(w: string)
    ensures WithoutStopWords([w]) == if w !in StopWords then [w] else []
  {
    assert [w][1..] == [];
  }

  /** `filter(word => !stopWords.includes(word))` */
  function WithoutStopWords(words: seq<string>): (r: seq<string>)
    ensures forall w :: w in r <==> w in words && w !in StopWords
    ensures forall i :: 0 <= i < |r| ==> r[i] !in StopWords
    ensures (forall i :: 0 <= i < |words| ==> |words[i]| > 2) ==> forall i :: 0 <= i < |r| ==> |r[i]| > 2
    ensures CleanWords(words) ==> CleanWords(r)
  {
    if words == [] then []
    else (if words[0] !in StopWords then [words[0]] else []) + WithoutStopWords(words[1..])
  }

  /** The filter keeps the words in their order, repeats included. */
  lemma {:induction false} WithoutStopWordsConcat(a: seq<string>, b: seq<string>)
    ensures WithoutStopWords(a + b) == WithoutStopWords(a) + WithoutStopWords(b)
    decreases |a|
  {
    if a == [] {
      assert a + b == b;
    } else {
      var head := if a[0] !in StopWords then [a[0]] else [];
      assert WithoutStopWords(a + b) == head + WithoutStopWords(a[1..] + b) by {
        assert (a + b)[0] == a[0] && (a + b)[1..] == a[1..] + b;
      }
      WithoutStopWordsConcat(a[1..], b);
      Associative(head, WithoutStopWords(a[1..]), WithoutStopWords(b));
    }
  }



  /** The words the bigrams are made from. */
  function FilteredWords(text: string): (words: seq<string>)
    ensures forall i :: 0 <= i < |words| ==> |words[i]| > 2 && words[i] !in StopWords
    ensures CleanWords(words)
  {
    var cleaned := StripPunctuation(ToLower(text));
    WordsOfLowerText(cleaned);
    WithoutStopWords(LongWords(SplitOnSpace(cleaned)))
  }

  lemma WordsOfLowerText(s: string)
    requires NoUpper(s)
    ensures CleanWords(SplitOnSpace(s))
  {
    SplitKeepsNoUpper(s, WhiteSpace);
  }

  /** `${w1} ${w2}` for every pair of neighbouring words. */
  function BigramsOf(words: seq<string>): (bigrams: seq<string>)
    ensures |bigrams| == if |words| < 2 then 0 else |words| - 1
    ensures forall i :: 0 <= i < |bigrams| ==> bigrams[i] == words[i] + " " + words[i + 1]
  {
    if |words| < 2 then []
    else [words[0] + " " + words[1]] + BigramsOf(words[1..])
  }

  /** The bigram loop. */
  method CollectBigrams(words: seq<string>) returns (bigrams: seq<string>)
    ensures bigrams == BigramsOf(words)
  {
    bigrams := [];
    var i := 0;
    while i < |words| - 1
      invariant 0 <= i <= if |words| < 2 then 0 else |words| - 1
      invariant |bigrams| == i
      invariant forall j :: 0 <= j < i ==> bigrams[j] == words[j] + " " + words[j + 1]
    {
      bigrams := bigrams + [words[i] + " " + words[i + 1]];
      i := i + 1;
    }
    var expected := BigramsOf(words);
    assert |bigrams| == |expected|;
    forall j | 0 <= j < |bigrams| ensures bigrams[j] == expected[j] {
      assert bigrams[j] == words[j] + " " + words[j + 1];
    }
  }

  predicate Unique(s: seq<string>) { forall i, j :: 0 <= i < j < |s| ==> s[i] != s[j] }

  /** The distinct elements, in the order of their first occurrence. */
  function Dedup(s: seq<string>): (r: seq<string>)
    ensures Unique(r)
    ensures forall x :: x in r <==> x in s
  {
    if s == [] then []
    else
      var init := Dedup(s[..|s| - 1]);
      assert forall x :: x in s <==> x in s[..|s| - 1] || x == s[|s| - 1];
      if s[|s| - 1] in init then init else init + [s[|s| - 1]]
  }

  /** How often each bigram occurs. */
  function CountMap(bigrams: seq<string>): (counts: map<string, nat>)
    ensures forall b :: b in counts <==> b in bigrams
    ensures forall b :: b in counts ==> counts[b] == multiset(bigrams)[b] && counts[b] >= 1
  {
    map b | b in bigrams :: multiset(bigrams)[b]
  }

  /**
   * The `reduce` that counts the bigrams; the key order it leaves is the
   * insertion order that `Object.keys` reports (a bigram contains a space, so
   * it is never an integer-like key).
   */
  method CountBigrams(bigrams: seq<string>) returns (keys: seq<string>, counts: map<string, nat>)
    ensures keys == Dedup(bigrams)
    ensures counts == CountMap(bigrams)
  {
    keys := [];
    counts := map[];
    for i := 0 to |bigrams|
      invariant Counted(bigrams[..i], keys, counts)
    {
      var b := bigrams[i];
      assert bigrams[..i + 1] == bigrams[..i] + [b];
      if b in counts {
        CountKnown(bigrams[..i], b, keys, counts);
        counts := counts[b := counts[b] + 1];
      } else {
        CountNew(bigrams[..i], b, keys, counts);
        keys := keys + [b];
        counts := counts[b := 1];
      }
    }
    assert bigrams[..|bigrams|] == bigrams;
    CountedIsCountMap(bigrams, keys, counts);
  }

  /** The state of the `reduce` after the bigrams of `prefix`. */
  ghost predicate Counted(prefix: seq<string>, keys: seq<string>, counts: map<string, nat>) {
    && keys == Dedup(prefix)
    && (forall b :: b in counts <==> b in prefix)
    && (forall b :: b in counts ==> counts[b] == multiset(prefix)[b])
  }

  /** One step of the `reduce` on a bigram already counted: one more. */
  lemma CountKnown(prefix: seq<string>, b: string, keys: seq<string>, counts: map<string, nat>)
    requires Counted(prefix, keys, counts) && b in counts
    ensures Counted(prefix + [b], keys, counts[b := counts[b] + 1])
  {
    DedupSnoc(prefix, b);
    CountsAfter(prefix, b, counts);
  }

  /** One step of the `reduce` on a new bigram: a new key with the count 1. */
  lemma CountNew(prefix: seq<string>, b: string, keys: seq<string>, counts: map<string, nat>)
    requires Counted(prefix, keys, counts) && b !in counts
    ensures Counted(prefix + [b], keys + [b], counts[b := 1])
  {
    DedupSnoc(prefix, b);
    CountsAfter(prefix, b, counts);
  }

  lemma DedupSnoc(prefix: seq<string>, b: string)
    ensures Dedup(prefix + [b]) == if b in prefix then Dedup(prefix) else Dedup(prefix) + [b]
  {
    var longer := prefix + [b];
    assert longer[..|longer| - 1] == prefix;
  }

  lemma CountsAfter(prefix: seq<string>, b: string, counts: map<string, nat>)
    requires forall x :: x in counts <==> x in prefix
    requires forall x :: x in counts ==> counts[x] == multiset(prefix)[x]
    ensures var next := if b in counts then counts[b := counts[b] + 1] else counts[b := 1];
      && (forall x :: x in next <==> x in prefix + [b])
      && (forall x :: x in next ==> next[x] == multiset(prefix + [b])[x])
  {
    assert multiset(prefix + [b]) == multiset(prefix) + multiset{b};
    assert forall x :: x in prefix + [b] <==> x in prefix || x == b;
  }

  lemma CountedIsCountMap(bigrams: seq<string>, keys: seq<string>, counts: map<string, nat>)
    requires Counted(bigrams, keys, counts)
    ensures counts == CountMap(bigrams)
  {
  }

  function CountOf(counts: map<string, nat>, key: string): nat {
    if key in counts then counts[key] else 0
  }

  predicate ByCount(s: seq<string>, counts: map<string, nat>) {
    forall i, j :: 0 <= i < j < |s| ==> CountOf(counts, s[i]) >= CountOf(counts, s[j])
  }

  /** After every key counted at least `c`, and before every key counted less. */
  function InsertionPoint(sorted: seq<string>, c: nat, counts: map<string, nat>): (p: nat)
    requires ByCount(sorted, counts)
    ensures p <= |sorted|
    ensures forall i :: 0 <= i < p ==> CountOf(counts, sorted[i]) >= c
    ensures forall i :: p <= i < |sorted| ==> CountOf(counts, sorted[i]) < c
  {
    if sorted == [] || CountOf(counts, sorted[0]) < c then 0
    else 1 + InsertionPoint(sorted[1..], c, counts)
  }

  /** The keys counted exactly `c`, in their order. */
  function WithCount(s: seq<string>, counts: map<string, nat>, c: nat): seq<string>
  {
    if s == [] then []
    else
      var last := if CountOf(counts, s[|s| - 1]) == c then [s[|s| - 1]] else [];
      WithCount(s[..|s| - 1], counts, c) + last
  }

  lemma {:induction false} WithCountAppend(a: seq<string>, b: seq<string>, counts: map<string, nat>, c: nat)
    ensures WithCount(a + b, counts, c) == WithCount(a, counts, c) + WithCount(b, counts, c)
    decreases |b|
  {
    if b == [] {
      assert a + b == a;
    } else {
      var init := b[..|b| - 1];
      assert (a + b)[..|a + b| - 1] == a + init;
      WithCountAppend(a, init, counts, c);
    }
  }

  lemma {:induction false} WithCountNone(s: seq<string>, counts: map<string, nat>, c: nat)
    requires forall i :: 0 <= i < |s| ==> CountOf(counts, s[i]) != c
    ensures WithCount(s, counts, c) == []
    decreases |s|
  {
    if s != [] {
      WithCountNone(s[..|s| - 1], counts, c);
    }
  }

  /**
   * `sort((a, b) => counts[b] - counts[a])`: an insertion sort by falling count
   * that keeps keys with equal counts in their original order, as the stable
   * `Array.prototype.sort` does.
   */
  function SortByCount(keys: seq<string>, counts: map<string, nat>): (sorted: seq<string>)
    ensures multiset(sorted) == multiset(keys)
    ensures ByCount(sorted, counts)
    ensures Unique(keys) ==> Unique(sorted)
    ensures forall c :: WithCount(sorted, counts, c) == WithCount(keys, counts, c)
  {
    if keys == [] then []
    else
      var init := keys[..|keys| - 1];
      var k := keys[|keys| - 1];
      var s := SortByCount(init, counts);
      var p := InsertionPoint(s, CountOf(counts, k), counts);
      assert keys == init + [k];
      InsertKeepsMultiset(s, k, p);
      InsertKeepsByCount(s, k, p, counts);
      InsertKeepsUnique(init, s, k, p);
      InsertKeepsAllTies(init, s, k, p, counts);
      s[..p] + [k] + s[p..]
  }

  lemma InsertKeepsMultiset(s: seq<string>, k: string, p: nat)
    requires p <= |s|
    ensures multiset(s[..p] + [k] + s[p..]) == multiset(s) + multiset{k}
  {
    assert s == s[..p] + s[p..];
  }

  lemma InsertKeepsByCount(s: seq<string>, k: string, p: nat, counts: map<string, nat>)
    requires ByCount(s, counts) && p <= |s|
    requires forall i :: 0 <= i < p ==> CountOf(counts, s[i]) >= CountOf(counts, k)
    requires forall i :: p <= i < |s| ==> CountOf(counts, s[i]) < CountOf(counts, k)
    ensures ByCount(s[..p] + [k] + s[p..], counts)
  {
    var r := s[..p] + [k] + s[p..];
    forall i, j | 0 <= i < j < |r| ensures CountOf(counts, r[i]) >= CountOf(counts, r[j]) {
      if j < p {
        assert r[i] == s[i] && r[j] == s[j];
      } else if j == p {
        assert r[i] == s[i];
      } else if i < p {
        assert r[i] == s[i] && r[j] == s[j - 1];
      } else if i == p {
        assert r[j] == s[j - 1];
      } else {
        assert r[i] == s[i - 1] && r[j] == s[j - 1];
      }
    }
  }

  lemma InsertKeepsUnique(init: seq<string>, s: seq<string>, k: string, p: nat)
    requires multiset(s) == multiset(init) && p <= |s|
    requires Unique(init) ==> Unique(s)
    ensures Unique(init + [k]) ==> Unique(s[..p] + [k] + s[p..])
  {
    if !Unique(init + [k]) {
      return;
    }
    var r := s[..p] + [k] + s[p..];
    assert Unique(init) by {
      forall i, j | 0 <= i < j < |init| ensures init[i] != init[j] {
        assert init[i] == (init + [k])[i] && init[j] == (init + [k])[j];
      }
    }
    assert k !in init by {
      forall i | 0 <= i < |init| ensures init[i] != k {
        assert (init + [k])[i] == init[i] && (init + [k])[|init|] == k;
      }
    }
    assert k !in s by {
      assert k in s ==> k in multiset(init);
    }
    forall i, j | 0 <= i < j < |r| ensures r[i] != r[j] {
      if j < p {
        assert r[i] == s[i] && r[j] == s[j];
      } else if j == p {
        assert r[i] == s[i];
      } else if i < p {
        assert r[i] == s[i] && r[j] == s[j - 1];
      } else if i == p {
        assert r[j] == s[j - 1];
      } else {
        assert r[i] == s[i - 1] && r[j] == s[j - 1];
      }
    }
  }

  lemma InsertKeepsTies(s: seq<string>, k: string, p: nat, counts: map<string, nat>, c: nat)
    requires p <= |s|
    requires forall i :: p <= i < |s| ==> CountOf(counts, s[i]) < CountOf(counts, k)
    ensures WithCount(s[..p] + [k] + s[p..], counts, c) == WithCount(s + [k], counts, c)
  {
    assert s == s[..p] + s[p..];
    InsertBeforeSmaller(s[..p], s[p..], k, counts, c);
  }

  /** Moving `k` in front of keys counted less than it keeps the order of each count class. */
  lemma InsertBeforeSmaller(a: seq<string>, b: seq<string>, k: string, counts: map<string, nat>, c: nat)
    requires forall i :: 0 <= i < |b| ==> CountOf(counts, b[i]) < CountOf(counts, k)
    ensures WithCount(a + [k] + b, counts, c) == WithCount(a + b + [k], counts, c)
  {
    var wa, wb, wk := WithCount(a, counts, c), WithCount(b, counts, c), WithCount([k], counts, c);
    WithCountAppend(a + [k], b, counts, c);
    WithCountAppend(a, [k], counts, c);
    WithCountAppend(a + b, [k], counts, c);
    WithCountAppend(a, b, counts, c);
    assert wk == (if CountOf(counts, k) == c then [k] else []) by {
      assert [k][..0] == [];
    }
    if CountOf(counts, k) == c {
      WithCountNone(b, counts, c);
      assert wb == [];
      assert wa + wk + wb == wa + wb + wk;
    } else {
      assert wk == [];
      assert wa + wk + wb == wa + wb + wk;
    }
  }

  lemma InsertKeepsAllTies(init: seq<string>, s: seq<string>, k: string, p: nat, counts: map<string, nat>)
    requires forall c :: WithCount(s, counts, c) == WithCount(init, counts, c)
    requires p <= |s|
    requires forall i :: p <= i < |s| ==> CountOf(counts, s[i]) < CountOf(counts, k)
    ensures forall c :: WithCount(s[..p] + [k] + s[p..], counts, c) == WithCount(init + [k], counts, c)
  {
    forall c ensures WithCount(s[..p] + [k] + s[p..], counts, c) == WithCount(init + [k], counts, c) {
      InsertKeepsTies(s, k, p, counts, c);
      WithCountAppend(s, [k], counts, c);
      WithCountAppend(init, [k], counts, c);
    }
  }

  /** Counting with the map is counting occurrences in the list. */
  lemma CountOfCountMap(bigrams: seq<string>, x: string)
    ensures CountOf(CountMap(bigrams), x) == multiset(bigrams)[x]
  {
  }

  /** `Object.keys(counts).sort(...).slice(0, 5)`: the five most frequent bigrams. */
  function TopBigrams(bigrams: seq<string>): (top: seq<string>)
  {
    var sorted := SortByCount(Dedup(bigrams), CountMap(bigrams));
    sorted[..if |sorted| < 5 then |sorted| else 5]
  }

  function KeywordsOf(text: string): (keywords: seq<string>)
  {
    TopBigrams(BigramsOf(FilteredWords(text)))
  }

  /** Every element of the sorted keys is a bigram, and every bigram is one of them. */
  lemma SortedKeysAreBigrams(bigrams: seq<string>)
    ensures var sorted := SortByCount(Dedup(bigrams), CountMap(bigrams));
      forall x :: x in sorted <==> x in bigrams
  {
    var keys := Dedup(bigrams);
    var sorted := SortByCount(keys, CountMap(bigrams));
    forall x ensures x in sorted <==> x in bigrams {
      assert x in sorted <==> x in multiset(sorted);
      assert x in keys <==> x in multiset(keys);
    }
  }

  /** At most five distinct bigrams, by non-increasing count. */
  lemma TopBigramsOrdered(bigrams: seq<string>)
    ensures var top := TopBigrams(bigrams);
      && |top| <= 5
      && (forall i :: 0 <= i < |top| ==> top[i] in bigrams)
      && Unique(top)
      && (forall i, j :: 0 <= i < j < |top| ==> multiset(bigrams)[top[i]] >= multiset(bigrams)[top[j]])
  {
    var counts := CountMap(bigrams);
    var sorted := SortByCount(Dedup(bigrams), counts);
    SortedKeysAreBigrams(bigrams);
    FirstFiveOfSorted(sorted, bigrams, TopBigrams(bigrams));
  }

  lemma FirstFiveOfSorted(sorted: seq<string>, bigrams: seq<string>, top: seq<string>)
    requires ByCount(sorted, CountMap(bigrams)) && Unique(sorted)
    requires forall x :: x in sorted ==> x in bigrams
    requires top == sorted[..if |sorted| < 5 then |sorted| else 5]
    ensures |top| <= 5
    ensures forall i :: 0 <= i < |top| ==> top[i] in bigrams
    ensures Unique(top)
    ensures forall i, j :: 0 <= i < j < |top| ==> multiset(bigrams)[top[i]] >= multiset(bigrams)[top[j]]
  {
    assert forall i :: 0 <= i < |top| ==> top[i] == sorted[i];
    forall i | 0 <= i < |top| ensures top[i] in bigrams {
      assert sorted[i] in sorted;
    }
    forall i, j | 0 <= i < j < |top|
      ensures multiset(bigrams)[top[i]] >= multiset(bigrams)[top[j]]
    {
      CountOfCountMap(bigrams, sorted[i]);
      CountOfCountMap(bigrams, sorted[j]);
    }
  }

  /** A bigram left out is no more frequent than the last one kept, and is only left out when five are kept. */
  lemma TopBigramsComplete(bigrams: seq<string>, b: string)
    requires b in bigrams && b !in TopBigrams(bigrams)
    ensures |TopBigrams(bigrams)| == 5
    ensures multiset(bigrams)[b] <= multiset(bigrams)[TopBigrams(bigrams)[4]]
  {
    var sorted := SortByCount(Dedup(bigrams), CountMap(bigrams));
    var top := TopBigrams(bigrams);
    var n := |top|;
    SortedKeysAreBigrams(bigrams);
    var j :| 0 <= j < |sorted| && sorted[j] == b;
    assert j >= n;
    assert top[4] == sorted[4];
    CountOfCountMap(bigrams, sorted[4]);
    CountOfCountMap(bigrams, b);
  }

  lemma TopBigramsOfNone()
    ensures TopBigrams([]) == []
  {
    var sorted := SortByCount(Dedup([]), CountMap([]));
    assert |multiset(sorted)| == 0;
  }

  /** What the keyword list is: at most five distinct bigrams of the text, the most frequent ones first. */
  lemma KeywordsMeaning(text: string)
    ensures var words := FilteredWords(text);
      var bigrams := BigramsOf(words);
      var keywords := KeywordsOf(text);
      && |keywords| <= 5
      && (forall i :: 0 <= i < |keywords| ==> keywords[i] in bigrams)
      && Unique(keywords)
      && (forall i, j :: 0 <= i < j < |keywords| ==>
            multiset(bigrams)[keywords[i]] >= multiset(bigrams)[keywords[j]])
      && (forall b :: b in bigrams && b !in keywords ==>
            |keywords| == 5 && multiset(bigrams)[b] <= multiset(bigrams)[keywords[4]])
      && (|words| < 2 ==> keywords == [])
  {
    KeywordsOfWords(FilteredWords(text));
  }

  /** The same for any list of words. */
  lemma KeywordsOfWords(words: seq<string>)
    ensures var bigrams := BigramsOf(words);
      var keywords := TopBigrams(bigrams);
      && |keywords| <= 5
      && (forall i :: 0 <= i < |keywords| ==> keywords[i] in bigrams)
      && Unique(keywords)
      && (forall i, j :: 0 <= i < j < |keywords| ==>
            multiset(bigrams)[keywords[i]] >= multiset(bigrams)[keywords[j]])
      && (forall b :: b in bigrams && b !in keywords ==>
            |keywords| == 5 && multiset(bigrams)[b] <= multiset(bigrams)[keywords[4]])
      && (|words| < 2 ==> keywords == [])
  {
    var bigrams := BigramsOf(words);
    TopBigramsMeaning(bigrams);
    if |words| < 2 {
      assert bigrams == [];
      TopBigramsOfNone();
    }
  }

  /** The five most frequent bigrams, ordered, and no more frequent one left out. */
  lemma TopBigramsMeaning(bigrams: seq<string>)
    ensures var top := TopBigrams(bigrams);
      && |top| <= 5
      && (forall i :: 0 <= i < |top| ==> top[i] in bigrams)
      && Unique(top)
      && (forall i, j :: 0 <= i < j < |top| ==> multiset(bigrams)[top[i]] >= multiset(bigrams)[top[j]])
      && (forall b :: b in bigrams && b !in top ==> |top| == 5 && multiset(bigrams)[b] <= multiset(bigrams)[top[4]])
  {
    TopBigramsOrdered(bigrams);
    forall b | b in bigrams && b !in TopBigrams(bigrams)
      ensures |TopBigrams(bigrams)| == 5
      ensures multiset(bigrams)[b] <= multiset(bigrams)[TopBigrams(bigrams)[4]]
    {
      TopBigramsComplete(bigrams, b);
    }
  }

  /** `extractKeywords(text)`. */
  method ExtractKeywords(text: string) returns (keywords: seq<string>)
    ensures keywords == KeywordsOf(text)
    ensures |keywords| <= 5 && Unique(keywords)
    ensures forall i :: 0 <= i < |keywords| ==> keywords[i] in BigramsOf(FilteredWords(text))
    ensures |FilteredWords(text)| < 2 ==> keywords == []
  {
    var words := FilteredWords(text);
    var bigrams := CollectBigrams(words);
    var keys, counts := CountBigrams(bigrams);
    var sorted := SortByCount(keys, counts);
    keywords := sorted[..if |sorted| < 5 then |sorted| else 5];
    KeywordsMeaning(text);
  }

  // ----- generatePageSeoMetadata -----

  datatype OpenGraph = OpenGraph(
    title: string, description: string, url: string, siteName: string, locale: string, kind: string)

  datatype Alternates = Alternates(canonical: string, languages: map<string, string>)

  /** The fields of the metadata object that the base object sets. */
  datatype Metadata = Metadata(
    title: string, description: string, keywords: seq<string>,
    openGraph: OpenGraph, alternates: Alternates)

  /** `additionalOptions`: each top-level field it has replaces the base field as a whole. */
  datatype MetadataOverrides = MetadataOverrides(
    title: Option<string>, description: Option<string>, keywords: Option<seq<string>>,
    openGraph: Option<OpenGraph>, alternates: Option<Alternates>)

  const NoOverrides := MetadataOverrides(None, None, None, None, None)

  /** `{ ...base, ...additionalOptions }` */
  function WithOverrides(base: Metadata, overrides: MetadataOverrides): (m: Metadata)
    ensures overrides.title.Some? ==> m.title == overrides.title.value
    ensures overrides.title.None? ==> m.title == base.title
    ensures overrides.description.Some? ==> m.description == overrides.description.value
    ensures overrides.description.None? ==> m.description == base.description
    ensures overrides.keywords.Some? ==> m.keywords == overrides.keywords.value
    ensures overrides.keywords.None? ==> m.keywords == base.keywords
    ensures overrides.openGraph.Some? ==> m.openGraph == overrides.openGraph.value
    ensures overrides.openGraph.None? ==> m.openGraph == base.openGraph
    ensures overrides.alternates.Some? ==> m.alternates == overrides.alternates.value
    ensures overrides.alternates.None? ==> m.alternates == base.alternates
  {
    Metadata(
      overrides.title.GetOr(base.title), overrides.description.GetOr(base.description),
      overrides.keywords.GetOr(base.keywords), overrides.openGraph.GetOr(base.openGraph),
      overrides.alternates.GetOr(base.alternates))
  }

  /** No overrides keep the base, and applying the same overrides twice is applying them once. */
  lemma WithOverridesLaws(base: Metadata, overrides: MetadataOverrides)
    ensures WithOverrides(base, NoOverrides) == base
    ensures WithOverrides(WithOverrides(base, overrides), overrides) == WithOverrides(base, overrides)
  {
  }

  /** `/${code}/${pageName}` */
  function PagePath(code: string, pageName: string): string { "/" + code + "/" + pageName }

  /** `Object.fromEntries(SUPPORTED_LANGUAGES.map(code => [code, `/${code}/${pageName}`]))` */
  function AlternateLanguages(pageName: string): (languages: map<string, string>)
    ensures forall code :: code in languages <==> I18nConfig.IsSupported(code)
    ensures forall code :: code in languages ==> languages[code] == PagePath(code, pageName)
  {
    map code | code in I18nConfig.SupportedLanguages :: PagePath(code, pageName)
  }

  /**
   * Each alternate URL is the link `LanguageLink` makes from `/pageName` for that
   * language, whenever the page name does not itself start like a language segment.
   */
  lemma AlternatesAreLocalizedLinks(pageName: string, code: string)
    requires I18nConfig.IsSupported(code) && !LanguageLink.HasLanguagePrefix("/" + pageName)
    ensures AlternateLanguages(pageName)[code] == LanguageLink.Localize(code, "/" + pageName)
  {
    assert ("/" + pageName)[0] == '/';
    assert PagePath(code, pageName) == "/" + code + "" + ("/" + pageName);
  }

  /** The object built before the overrides, from the looked-up title, description and app name. */
  function BaseMetadata(tree: Tree, lang: string, pageName: string): (m: Metadata)
    ensures m.openGraph.url == m.alternates.canonical == PagePath(lang, pageName)
    ensures I18nConfig.IsSupported(lang) ==>
      lang in m.alternates.languages && m.alternates.languages[lang] == m.alternates.canonical
    ensures m.openGraph.title == m.title && m.openGraph.description == m.description
    ensures m.openGraph.siteName == "ScanPro Client" && m.openGraph.kind == "website"
    ensures m.openGraph.locale == lang
    ensures |m.keywords| <= 5
  {
    var title := TranslationOf(tree, "features." + pageName + ".title");
    var description := TranslationOf(tree, "features." + pageName + ".description");
    var fullTitle := title + " | " + TranslationOf(tree, "common.appName");
    KeywordsMeaning(title + " " + description);
    Metadata(
      fullTitle, description, KeywordsOf(title + " " + description),
      OpenGraph(fullTitle, description, PagePath(lang, pageName), "ScanPro Client", lang, "website"),
      Alternates(PagePath(lang, pageName), AlternateLanguages(pageName)))
  }

  /** `generatePageSeoMetadata(lang, { pageName, additionalOptions })` */
  method GeneratePageSeoMetadata(tree: Tree, lang: string, pageName: string, overrides: MetadataOverrides)
    returns (m: Metadata)
    requires I18nConfig.IsSupported(lang)
    ensures m == WithOverrides(BaseMetadata(tree, lang, pageName), overrides)
    ensures overrides.title.None? ==>
      m.title == TranslationOf(tree, "features." + pageName + ".title") + " | " + TranslationOf(tree, "common.appName")
    ensures overrides.alternates.None? ==>
      m.alternates.canonical == PagePath(lang, pageName) && m.alternates.languages == AlternateLanguages(pageName)
    ensures overrides.openGraph.None? && overrides.alternates.None? ==> m.openGraph.url == m.alternates.canonical
  {
    var title := GetTranslation(tree, "features." + pageName + ".title");
    var description := GetTranslation(tree, "features." + pageName + ".description");
    var appName := GetTranslation(tree, "common.appName");
    var fullTitle := title + " | " + appName;
    var keywords := ExtractKeywords(title + " " + description);
    var base := Metadata(
      fullTitle, description, keywords,
      OpenGraph(fullTitle, description, PagePath(lang, pageName), "ScanPro Client", lang, "website"),
      Alternates(PagePath(lang, pageName), AlternateLanguages(pageName)));
    m := WithOverrides(base, overrides);
  }
}
