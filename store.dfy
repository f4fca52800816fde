/**
 * src/store/store.ts: the language store. `getNestedValue` walks the dot path
 * through the translations, `t` falls back to the key, `setLanguage` only
 * accepts supported codes.
 */
module Store {
  import opened Wrappers
  import opened Text
  import opened TranslationTree
  import I18nConfig

  /** The keys of a dot path, as `path.split('.')` gives them. */
  function PathKeys(path: string): (keys: seq<string>)
    ensures |keys| >= 1
  {
    Split(path, {'.'})
  }

  /** What `getNestedValue` returns: the value at the path, or the path itself when there is none. */
  function NestedValue(tree: Tree, path: string): Tree
  {
    match Lookup(tree, PathKeys(path))
    case Some(value) => value
    case None => Leaf(path)
  }

  /**
   * The loop of `getNestedValue`: `result` is undefined (None) once a key is
   * missing, and the walk stops at the next key.
   */
  method GetNestedValue(tree: Tree, path: string) returns (value: Tree)
    ensures value == NestedValue(tree, path)
  {
    var keys := PathKeys(path);
    var result := Some(tree);
    var i := 0;
    while i < |keys|
      invariant 0 <= i <= |keys|
      invariant result.Some? ==> Lookup(tree, keys) == Lookup(result.value, keys[i..])
      invariant result.None? ==> Lookup(tree, keys) == None
    {
      if result.None? {
        return Leaf(path);
      }
      assert keys[i..][0] == keys[i] && keys[i..][1..] == keys[i + 1..];
      result := Child(result.value, keys[i]);
      i := i + 1;
    }
    value := if result.Some? then result.value else Leaf(path);
  }

  /** A string stored under dot-free keys is what the joined path resolves to. */
  lemma NestedValueOfStoredPath(tree: Tree, keys: seq<string>, text: string)
    requires |keys| >= 1 && forall i :: 0 <= i < |keys| ==> NoneIn(keys[i], {'.'})
    ensures NestedValue(Put(tree, keys, Leaf(text)), Join(keys, '.')) == Leaf(text)
  {
    SplitJoin(keys, '.');
    LookupPut(tree, keys, Leaf(text));
  }

  /** A path that leaves the tree resolves to itself. */
  lemma NestedValueOfMissingPath(tree: Tree, path: string)
    requires Lookup(tree, PathKeys(path)) == None
    ensures NestedValue(tree, path) == Leaf(path)
  {
  }

  /** `t`: the resolved value unless it is falsy (an empty string), then the key. */
  function Translated(tree: Tree, key: string): (r: Tree)
  {
    var value := NestedValue(tree, key);
    if value == Leaf("") then Leaf(key) else value
  }

  /** `t` never answers with an empty string except for the empty key, and keeps every other string. */
  lemma {:induction false} TranslatedFallback(tree: Tree, key: string)
    ensures Translated(tree, key) == Leaf("") ==> key == ""
    ensures Lookup(tree, PathKeys(key)) == None ==> Translated(tree, key) == Leaf(key)
    ensures forall s :: Lookup(tree, PathKeys(key)) == Some(Leaf(s)) && s != "" ==>
      Translated(tree, key) == Leaf(s)
  {
  }

  class LanguageStore {
    var language: string
    const translations: Tree

    ghost predicate Valid()
      reads this
    {
      I18nConfig.IsSupported(language)
    }

    constructor(translations: Tree)
      ensures Valid()
      ensures language == I18nConfig.DefaultLanguage && this.translations == translations
    {
      I18nConfig.DefaultLanguageSupported();
      language := I18nConfig.DefaultLanguage;
      this.translations := translations;
    }

    /** `t(key)`. */
    method T(key: string) returns (r: Tree)
      ensures r == Translated(translations, key)
      ensures r != Leaf("") || key == ""
    {
      r := GetNestedValue(translations, key);
      if r == Leaf("") {
        r := Leaf(key);
      }
    }

    /** `setLanguage(language)`: takes effect only for a supported code. */
    method SetLanguage(l: string)
      requires Valid()
      modifies this
      ensures Valid()
      ensures I18nConfig.IsSupported(l) ==> language == l
      ensures !I18nConfig.IsSupported(l) ==> language == old(language)
    {
      if I18nConfig.IsSupported(l) {
        language := l;
      }
    }
  }
}
