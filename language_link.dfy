/** The href rewrite of the `LanguageLink` component (components/common/language-link.tsx). */
module LanguageLink {
  import opened Text
  import opened I18nConfig

  /** The test `/^\/[a-z]{2}(\/|$)/`: a slash, two lower-case letters, then a slash or the end. */
  predicate HasLanguagePrefix(href: string) {
    && |href| >= 3
    && href[0] == '/'
    && IsLanguageCode(href[1..3])
    && (|href| == 3 || href[3] == '/')
  }

  /**
   * The href the link points to: kept when it already starts with a two-letter
   * segment, otherwise put under `/{language}`, with a slash added between the
   * two when the href does not start with one.
   */
  function Localize(language: string, href: string): (r: string)
    ensures HasLanguagePrefix(href) ==> r == href
    ensures !HasLanguagePrefix(href) ==>
      && |r| == |language| + |href| + (if href != "" && href[0] == '/' then 1 else 2)
      && r[..|language| + 2] == "/" + language + "/"
      && r[|r| - |href|..] == href
    ensures IsLanguageCode(language) ==> HasLanguagePrefix(r)
  {
    if HasLanguagePrefix(href) then href
    else "/" + language + (if href != "" && href[0] == '/' then "" else "/") + href
  }

  /** Localizing twice with a two-letter language is localizing once. */
  lemma LocalizeIdempotent(language: string, href: string)
    requires IsLanguageCode(language)
    ensures Localize(language, Localize(language, href)) == Localize(language, href)
  {
  }

  /** Every language the store can hold is a two-letter code, so its links are stable. */
  lemma {:induction false} LocalizeIdempotentForSupported(language: string, href: string)
    requires IsSupported(language)
    ensures HasLanguagePrefix(Localize(language, href))
    ensures Localize(language, Localize(language, href)) == Localize(language, href)
  {
    SupportedLanguagesWellFormed();
    var i :| 0 <= i < |SupportedLanguages| && SupportedLanguages[i] == language;
    assert IsLanguageCode(SupportedLanguages[i]);
    LocalizeIdempotent(language, href);
  }

  /** Any two-letter first segment is kept, whether or not it names a supported language. */
  lemma UnsupportedPrefixKept()
    ensures !IsSupported("go")
    ensures Localize("en", "/go/x") == "/go/x"
  {
    assert HasLanguagePrefix("/go/x");
  }

  lemma PathsArePrefixed()
    ensures Localize("fr", "/pricing") == "/fr/pricing"
    ensures Localize("fr", "pricing") == "/fr/pricing"
    ensures Localize("fr", "") == "/fr/"
    ensures Localize("fr", "/english") == "/fr/english"
  {
    assert "/pricing"[3] != '/' && "/english"[3] != '/';
    RootedPathPrefixed("fr", "/pricing");
    assert "/fr" + "/pricing" == "/fr/pricing";
    RelativePathPrefixed("fr", "pricing");
    assert "/fr/" + "pricing" == "/fr/pricing";
    RelativePathPrefixed("fr", "");
    RootedPathPrefixed("fr", "/english");
    assert "/fr" + "/english" == "/fr/english";
  }

  lemma RootedPathPrefixed(language: string, href: string)
    requires |href| > 3 && href[0] == '/' && href[3] != '/'
    ensures Localize(language, href) == "/" + language + href
  {
  }

  lemma RelativePathPrefixed(language: string, href: string)
    requires href == "" || href[0] != '/'
    ensures Localize(language, href) == "/" + language + "/" + href
  {
  }
}
