/** The supported interface languages and their native names (src/i18n/config.ts). */
module I18nConfig {
  import opened Text

  const SupportedLanguages: seq<string> :=
    ["en", "es", "fr", "de", "it", "pt", "zh", "ja", "ko", "ru", "ar", "hi", "tr", "id"]

  const DefaultLanguage: string := "en"

  /** What the `Language` type admits: a member of the supported list. */
  predicate IsSupported(language: string) { language in SupportedLanguages }

  /** Two lower-case ASCII letters, the form of every supported code. */
  predicate IsLanguageCode(s: string) { |s| == 2 && IsLower(s[0]) && IsLower(s[1]) }

  /** The table inside `getLanguageName`. */
  const LanguageNames: map<string, string> := map[
    "en" := "English",
    "es" := "Español",
    "fr" := "Français",
    "de" := "Deutsch",
    "it" := "Italiano",
    "pt" := "Português",
    "zh" := "中文",
    "ja" := "日本語",
    "ko" := "한국어",
    "ru" := "Русский",
    "ar" := "العربية",
    "hi" := "हिन्दी",
    "tr" := "Türkçe",
    "id" := "Bahasa Indonesia"
  ]

  /** The table covers exactly the supported codes, and no name is empty. */
  lemma LanguageNamesCoverSupported()
    ensures forall l :: l in LanguageNames <==> IsSupported(l)
    ensures forall l :: l in LanguageNames ==> LanguageNames[l] != ""
  {
  }

  /**
   * `names[locale] || locale`: the native name of a supported code, and the
   * locale text itself for anything the table lacks.
   */
  function GetLanguageName(locale: string): (name: string)
    ensures IsSupported(locale) ==> name == LanguageNames[locale] && name != ""
    ensures !IsSupported(locale) ==> name == locale
  {
    LanguageNamesCoverSupported();
    if locale in LanguageNames && LanguageNames[locale] != "" then LanguageNames[locale] else locale
  }

  /** Fourteen codes, pairwise distinct, each two lower-case ASCII letters. */
  lemma SupportedLanguagesWellFormed()
    ensures |SupportedLanguages| == 14
    ensures forall i, j :: 0 <= i < j < |SupportedLanguages| ==> SupportedLanguages[i] != SupportedLanguages[j]
    ensures forall i :: 0 <= i < |SupportedLanguages| ==> IsLanguageCode(SupportedLanguages[i])
  {
  }

  lemma DefaultLanguageSupported()
    ensures DefaultLanguage == "en" && IsSupported(DefaultLanguage) && IsLanguageCode(DefaultLanguage)
  {
  }
}
