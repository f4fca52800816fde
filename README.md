# scanpro-client: verified model of the client-side logic

scanpro-client is a web front end for a remote PDF service. This model covers what the client decides before anything reaches the network:

- the page-range parser and the two file-extension readers;
- the upload validation schemas (size ceiling, extension allow-lists, per-form refinements);
- the multipart forms that each API adapter builds;
- the upload progress percentage and the `{ success, data, error }` response envelope;
- the translation store with its guarded `setLanguage`;
- the SEO keyword extraction, translation fallback and canonical and alternate URLs;
- the language configuration and the localized-link rewrite.

Every module states the promise its source makes and proves it.

The modules follow the source files:

| module | file |
|---|---|
| `Utils` | lib/utils.ts (`getFileExtension`, slice/`lastIndexOf` variant) |
| `FileUtils` | lib/file-utils.ts (`getFileExtension`, split/pop variant; `parsePageRanges`) |
| `FileValidations` | lib/validations/file-validations.ts |
| `ApiClient` | lib/api-client.ts |
| `Store` | src/store/store.ts |
| `SeoSchemas` | lib/seo/schemas.ts |
| `I18nConfig` | src/i18n/config.ts |
| `LanguageLink` | components/common/language-link.tsx (the href rule only) |

Helper modules:

- `Wrappers`: `Option`, standing for `undefined`.
- `Text`: the JavaScript string built-ins the code uses, which are ASCII `toLowerCase`, `trim`, `split` on characters, `lastIndexOf`, and the decimal `toString`/`Number`.
- `WebFile`: a `File` as its name and size.
- `TranslationTree`: the nested translation object, `Leaf(text) | Node(children)`.
- `Json`: `JSON.stringify` on integers, strings, arrays and objects, with the parser-side reading it is proved against.

The source's imperative routines are methods with loops:

- `parsePageRanges` and its `includes`/`push` steps;
- `getNestedValue` and the loop of `getTranslation`;
- the bigram loop and the counting `reduce` of `extractKeywords`;
- the `forEach` loops of `mergeFiles` and `addPageNumbers`;
- the language store, a class with a mutable `language` field.

Each method is proved against a specification function, and the properties of that function are proved as lemmas.

The HTTP transport is a parameter of `UploadFile` and `CheckSplitStatus`: a function from a request to its progress events and outcome. An adapter method returns the `Request` (endpoint and form) that it hands to `uploadFile`. A form is checked by reading it back the way a multipart receiver does: the first field of a name, then the decimal, boolean or JSON text parsed back.

Where the two `getFileExtension` variants disagree, both are modelled. The validators use the lib/utils.ts one, and `FileValidations.BareNamesRejected` shows the difference on `pdf` and `.pdf`.

## Model

| member | source | states |
|---|---|---|
| Text.ToLower | lib/utils.ts:16 | same length, no upper-case letter, and each character is the ASCII lower-case of the input's |
| Text.Trim | lib/file-utils.ts:44 | the result is a slice of the input with only white space outside it, has no white space at either end, and is empty exactly when the input is all white space |
| Text.TrimPadded | lib/file-utils.ts:44 | white space around a core that has none at its ends trims to exactly that core |
| Text.Split | lib/file-utils.ts:47 | at least one part, and no part contains a separator |
| Text.JoinSplit | lib/file-utils.ts:47 | joining the parts of `split(c)` with `c` gives back the original string |
| Text.SplitJoin | lib/file-utils.ts:47 | splitting a join of separator-free parts gives back those parts |
| Text.SplitWithout | lib/file-utils.ts:47 | a text without a separator is a single part |
| Text.SplitAfterFirst | lib/file-utils.ts:47 | the text before the first separator is the first part, and the rest is split on its own |
| Text.SplitSameSeparators | lib/seo/schemas.ts:30 | separator sets that agree on a text's characters split it alike |
| Text.LastIndexOf | lib/utils.ts:16 | the index of the last occurrence, or -1; nothing after it is the character |
| Text.LastPartOfSplit | lib/file-utils.ts:5 | the last part of `split(c)` is the text after the last `c` (the whole string when there is none) |
| Text.DecimalOfNatToString | lib/file-utils.ts:52 | the decimal text of `n` reads back as `n` |
| Text.IntToStringRoundTrip | lib/api-client.ts:192 | `toString` of an integer is parsed back to the same integer |
| Text.BoolToStringRoundTrip | lib/api-client.ts:259 | `"true"`/`"false"` are parsed back to the same boolean |
| Utils.ToUint32 | lib/utils.ts:16 | `>>> 0`: below 2^32, identity on non-negative values below 2^32, adds 2^32 to negative values down to -2^32 |
| Utils.SliceFrom | lib/utils.ts:16 | `slice(start)`: the suffix from `start`, or `""` past the end |
| Utils.GetFileExtension | lib/utils.ts:13-16 | lower-case and dot-free; the lower-cased text after the last dot when that dot is at index 1 or later, `""` when there is no dot or only a leading one |
| Utils.ExtensionAt | lib/utils.ts:16 | with the last dot at `k`: `""` for `k < 1`, otherwise the lower-cased suffix after `k` |
| Utils.ExtensionExamples | lib/utils.ts:13-16 | `README`, `.bashrc` and `notes.` give `""`; `A.PDF` gives `pdf`; `a.tar.gz` gives `gz` |
| FileUtils.GetFileExtension | lib/file-utils.ts:5 | lower-case and dot-free; the lower-cased text after the last dot, or the whole lower-cased name when there is no dot |
| FileUtils.LastPart | lib/file-utils.ts:5 | `split('.').pop()` is the dot-free text after the last dot, or the whole name |
| FileUtils.ExtensionOfDotless | lib/file-utils.ts:5 | a dot-free name gives its own lower-case form |
| FileUtils.ExtensionAfterDot | lib/file-utils.ts:5 | a dot at `k` with none after it gives the lower-cased suffix after `k`, even for `k == 0` |
| FileUtils.ExtensionOfNameWithoutDot | lib/file-utils.ts:5 | `Doc` gives `doc`, where lib/utils.ts gives `""` |
| FileUtils.ExtensionOfLeadingDotName | lib/file-utils.ts:5 | `.rc` gives `rc` |
| FileUtils.ExtensionOfUpperCaseName | lib/file-utils.ts:5 | `A.PDF` gives `pdf` |
| FileUtils.ToNumber | lib/file-utils.ts:62 | `Number(range)` is a number exactly when the trimmed text is all decimal digits, and blank text is 0 |
| FileUtils.LeadingZeros | lib/file-utils.ts:52 | zeros in front of digits do not change their value |
| FileUtils.ToNumberPadded | lib/file-utils.ts:52 | white space around the digits and leading zeros are ignored: `n` padded that way reads as `n` |
| FileUtils.ToNumberOfPaddedZeros | lib/file-utils.ts:52 | `" 007 "` reads as 7 |
| FileUtils.ToNumberOfDigits | lib/file-utils.ts:52 | the decimal text of `n` reads as `n` |
| FileUtils.NotANumber | lib/file-utils.ts:64 | a space-free text with a non-digit reads as NaN |
| FileUtils.PagesBetween | lib/file-utils.ts:57-59 | exactly the pages from `lo` to `hi` inclusive |
| FileUtils.RangePages | lib/file-utils.ts:52-59 | the pages an `a-b` segment adds all lie within `1..totalPages` |
| FileUtils.SinglePage | lib/file-utils.ts:62-67 | the page a single-number segment adds lies within `1..totalPages` |
| FileUtils.SegmentPages | lib/file-utils.ts:50-67 | the pages any segment adds lie within `1..totalPages` |
| FileUtils.SegmentPagesCases | lib/file-utils.ts:50 | a segment without `-` is read as a single page; one with `-` is read as a range of its first two dash-separated parts |
| FileUtils.Segments | lib/file-utils.ts:47 | one trimmed segment per comma-separated part, in order |
| FileUtils.PagesOf | lib/file-utils.ts:49-69 | a page is selected exactly when some segment adds it |
| FileUtils.SegmentOrderIrrelevant | lib/file-utils.ts:71 | segment lists with the same members select the same pages, whatever their order or repetition |
| FileUtils.RangeStringOrderIrrelevant | lib/file-utils.ts:47-71 | range strings whose segments are the same select the same set of pages |
| FileUtils.PageSetIsPagesOfSegments | lib/file-utils.ts:44-69 | the selected pages are those of the trimmed segments (none for a blank string) |
| FileUtils.BlankPartsAreBlank | lib/file-utils.ts:44 | every comma part of a blank string trims to `""` |
| FileUtils.PageSetInBounds | lib/file-utils.ts:55 | every selected page lies within `1..totalPages` |
| FileUtils.RangeSegmentPages | lib/file-utils.ts:54-59 | `a-b` adds exactly `a..b` when `1 <= a <= b <= totalPages`, and nothing, not a clipped range, otherwise |
| FileUtils.RangeSegmentContributes | lib/file-utils.ts:57-59 | a valid `a-b` segment puts every page `a..b` into the result |
| FileUtils.SinglePageSegment | lib/file-utils.ts:62-67 | a number `n` adds `{n}` when in bounds and nothing otherwise |
| FileUtils.NonNumberSegments | lib/file-utils.ts:54 | `x` and `1x-3` add nothing |
| FileUtils.BadSinglePage | lib/file-utils.ts:64 | a dash-free segment with a non-digit adds nothing |
| FileUtils.BadRangeStart | lib/file-utils.ts:54 | a range whose start has a non-digit adds nothing |
| FileUtils.BadRangeEnd | lib/file-utils.ts:54 | a range whose end has a non-digit adds nothing, whatever its start |
| FileUtils.BadEndLetter | lib/file-utils.ts:54 | `2-x` adds nothing |
| FileUtils.BadEndSuffix | lib/file-utils.ts:54 | `2-3x` adds nothing |
| FileUtils.Insert | lib/file-utils.ts:71 | inserting into a sorted list keeps it sorted and adds exactly that one element |
| FileUtils.SortAscending | lib/file-utils.ts:71 | `sort((a, b) => a - b)`: sorted ascending and a permutation of the input |
| FileUtils.SortedDistinctIsIncreasing | lib/file-utils.ts:71 | sorting a duplicate-free list gives a strictly increasing one |
| FileUtils.PushUnlessPresent | lib/file-utils.ts:67 | `if (!pages.includes(p)) pages.push(p)`: appends only a missing page and keeps the list duplicate-free |
| FileUtils.PushRange | lib/file-utils.ts:57-59 | the inner loop adds exactly the pages `start..end` and keeps the list duplicate-free |
| FileUtils.AddSegment | lib/file-utils.ts:50-68 | one iteration of the segment loop adds exactly the segment's pages |
| FileUtils.AddSegments | lib/file-utils.ts:49-69 | the loop collects, without duplicates, exactly the pages some segment selects |
| FileUtils.PagesOfPrefix | lib/file-utils.ts:49 | a segment's pages are added to those of the segments before it |
| FileUtils.ParsePageRanges | lib/file-utils.ts:43-72 | the result is strictly increasing, holds exactly the selected pages, each within `1..totalPages`, and is `[]` for a blank string |
| FileUtils.SortedPagesMeetSpec | lib/file-utils.ts:69-71 | the sorted collection is strictly increasing and has exactly the selected pages |
| FileValidations.ExtensionListsWellFormed | lib/validations/file-validations.ts:9-13 | every allow-list entry is non-empty, lower-case and dot-free |
| FileValidations.ExtensionKindsDisjoint | lib/validations/file-validations.ts:9-11 | no extension is both PDF and image, PDF and document, or image and document |
| FileValidations.OutputsAreInputs | lib/validations/file-validations.ts:12-13 | every conversion output is also a conversion input |
| FileValidations.InputKinds | lib/validations/file-validations.ts:12 | an extension is a conversion input exactly when it is a PDF, document or image extension |
| FileValidations.FileSizeBoundary | lib/validations/file-validations.ts:6-18 | the ceiling is 10485760 bytes inclusive: exactly that passes, one more fails |
| FileValidations.HasExtensionIn | lib/validations/file-validations.ts:20-38 | a file passes exactly when it has a dot after index 0 and the lower-cased text after its last dot is listed |
| FileValidations.IsValidPdfFile | lib/validations/file-validations.ts:20-23 | the same, for the PDF list |
| FileValidations.IsValidImageFile | lib/validations/file-validations.ts:25-28 | the same, for the image list |
| FileValidations.IsValidDocumentFile | lib/validations/file-validations.ts:30-33 | the same, for the document list |
| FileValidations.IsValidConversionInput | lib/validations/file-validations.ts:35-38 | a conversion input is exactly a valid PDF, document or image file |
| FileValidations.PdfByExtension | lib/validations/file-validations.ts:20-23 | a file is a PDF exactly when `getFileExtension` reads `pdf` |
| FileValidations.UpperCasePdfAccepted | lib/validations/file-validations.ts:20-23 | `A.PDF` is a valid PDF |
| FileValidations.PdfAfterLastDot | lib/validations/file-validations.ts:20-23 | a name whose text after its last (non-leading) dot folds to `pdf` is accepted |
| FileValidations.OtherAfterLastDot | lib/validations/file-validations.ts:20-23 | a name whose text after its last (non-leading) dot folds to anything else is rejected |
| FileValidations.LastDotDecides | lib/validations/file-validations.ts:20-23 | `a.b.Pdf` is accepted and `a.pdf.b` is rejected |
| FileValidations.UndottedNamesRejected | lib/validations/file-validations.ts:20-38 | a name without a dot, or whose only dot leads, fails every extension check |
| FileValidations.BareNamesRejected | lib/validations/file-validations.ts:20-23 | `pdf` and `.pdf` are not PDFs here, although the split/pop reader gives `pdf` for both |
| FileValidations.Resolved | lib/validations/file-validations.ts:129 | a bounded numeric field: the given value, or the default when absent, and always within the bounds |
| FileValidations.ResolvedChoice | lib/validations/file-validations.ts:95 | an enum field with a default: the given value, or the default when absent, and always an allowed choice |
| FileValidations.ConversionAcceptsEveryKind | lib/validations/file-validations.ts:74-84 | a PDF, document or image file within the ceiling, with a listed output format, passes the conversion schema |
| FileValidations.CompressQuality | lib/validations/file-validations.ts:95 | the quality is the given one, or `medium`, and is always `low`, `medium` or `high` |
| FileValidations.MergeNeedsTwoFiles | lib/validations/file-validations.ts:101-103 | fewer than two files are rejected |
| FileValidations.MergeRejectsOneBadFile | lib/validations/file-validations.ts:104-115 | one file that is too big or not a PDF rejects the whole merge |
| FileValidations.MergeAcceptsReordered | lib/validations/file-validations.ts:98-116 | the merge verdict does not depend on the order of the files |
| FileValidations.ResolveSplit | lib/validations/file-validations.ts:127-129 | method defaults to `range` and `everyNPages` to 1; the method is listed and `everyNPages >= 1` |
| FileValidations.RotateAngle | lib/validations/file-validations.ts:141 | the angle is the given one, or 90 |
| FileValidations.ResolveWatermark | lib/validations/file-validations.ts:154-162 | each field is the given value or its default (`text`, `center`, 50, 0, 24, `#000000`, `Arial`); opacity is in 1..100 and font size in 8..72 |
| FileValidations.WatermarkBounds | lib/validations/file-validations.ts:157 | opacity 1 and 100 pass, 0 and 101 fail, and an absent opacity passes |
| FileValidations.ProtectPasswordsMatch | lib/validations/file-validations.ts:174-182 | differing passwords are rejected; an accepted form has a non-empty password equal to its confirmation |
| FileValidations.ProtectPermissions | lib/validations/file-validations.ts:176-178 | each permission is the given flag, and each absent flag defaults to true on its own |
| FileValidations.ResolvePageNumbers | lib/validations/file-validations.ts:205-216 | each field is the given value or its default (`numeric`, `bottom-center`, 1, `Helvetica`, 12, `#000000`, 40, 30, false); start >= 1, font size in 8..72, margins >= 0 |
| FileValidations.PageNumberBounds | lib/validations/file-validations.ts:207-214 | start 0, font size 7 or 73, and a negative margin are each rejected |
| I18nConfig.SupportedLanguagesWellFormed | src/i18n/config.ts:2-17 | exactly 14 codes, pairwise distinct, each two lower-case ASCII letters |
| I18nConfig.DefaultLanguageSupported | src/i18n/config.ts:21 | the default language is `en` and is supported |
| I18nConfig.LanguageNamesCoverSupported | src/i18n/config.ts:24-39 | the name table covers exactly the supported codes, with no empty name |
| I18nConfig.GetLanguageName | src/i18n/config.ts:23-42 | a supported code gives its native name; anything else gives the locale itself |
| LanguageLink.Localize | components/common/language-link.tsx:13-16 | an href with a two-letter first segment is kept; otherwise it becomes `/{language}` + href, with a `/` inserted unless the href starts with one; for a two-letter language the result always has the prefix |
| LanguageLink.LocalizeIdempotent | components/common/language-link.tsx:14-15 | for a two-letter language, localizing twice is localizing once |
| LanguageLink.LocalizeIdempotentForSupported | components/common/language-link.tsx:14-15 | for every supported language the result has a language prefix, and localizing is idempotent |
| LanguageLink.UnsupportedPrefixKept | components/common/language-link.tsx:14 | `/go/x` is kept although `go` is not supported |
| LanguageLink.RootedPathPrefixed | components/common/language-link.tsx:15 | an href starting with `/` that has no two-letter first segment becomes `/{language}{href}` |
| LanguageLink.RelativePathPrefixed | components/common/language-link.tsx:15 | an href not starting with `/` becomes `/{language}/{href}` |
| LanguageLink.PathsArePrefixed | components/common/language-link.tsx:13-16 | `/pricing` and `pricing` both give `/fr/pricing`, `""` gives `/fr/`, and `/english` gives `/fr/english` |
| TranslationTree.Child | src/store/store.ts:22 | the child exists exactly when the node is an object holding the key |
| TranslationTree.LookupAppend | src/store/store.ts:18-23 | following `a + b` is following `a` and then `b` |
| TranslationTree.LookupPut | src/store/store.ts:14-26 | a value stored at a path is found at that path |
| TranslationTree.LookupPutElsewhere | src/store/store.ts:14-26 | storing under one top-level key leaves paths under another unchanged |
| Store.PathKeys | src/store/store.ts:15 | `path.split('.')` has at least one key |
| Store.GetNestedValue | src/store/store.ts:14-26 | the loop returns the value at the dot path, or the path itself once a key is missing |
| Store.NestedValueOfStoredPath | src/store/store.ts:14-26 | a text stored under dot-free keys is what their dot-joined path resolves to |
| Store.NestedValueOfMissingPath | src/store/store.ts:19-25 | a path that leaves the tree resolves to itself |
| Store.TranslatedFallback | src/store/store.ts:32-35 | `t` gives `""` only for the empty key, gives the key for a missing path, and keeps every non-empty text |
| Store.LanguageStore.constructor | src/store/store.ts:31 | the store starts in the default language, which is supported |
| Store.LanguageStore.T | src/store/store.ts:32-35 | `t(key)` is the resolved value, or the key when that value is `""` |
| Store.LanguageStore.SetLanguage | src/store/store.ts:36-40 | a supported code becomes the language; anything else leaves it unchanged; the language stays supported |
| Json.EscapeChar | lib/api-client.ts:313 | an ordinary character is written as itself; a quote, a backslash or a control character as an escape starting with a backslash; and no control character is written |
| Json.UnescapeEscape | lib/api-client.ts:313 | a JSON string literal's body is read back as exactly the string written |
| Json.EscapeHasNoBareQuote | lib/api-client.ts:313 | every quote inside an escaped body is preceded by a backslash |
| Json.Numbers | lib/api-client.ts:195 | an integer list becomes a JSON array of those numbers, in order |
| Json.IntArrayRoundTrip | lib/api-client.ts:157 | `JSON.stringify` of an integer list is read back as the same list |
| Json.StringifyExamples | lib/api-client.ts:195 | `[1,2,3]`, `[]` and an escaped quote are written as `JSON.stringify` writes them |
| SeoSchemas.GetTranslation | lib/seo/schemas.ts:9-25 | the loop gives the text at the key's path, and the key when a segment is missing or the value is not a text |
| SeoSchemas.TranslationVariants | lib/seo/schemas.ts:9-25 | `getTranslation` and the store's `t` agree on non-empty texts and missing paths, and differ on `""` (kept here) and on subtrees (kept by `t`) |
| SeoSchemas.StripPunctuation | lib/seo/schemas.ts:30 | `replace(/[^\w\s]/g, "")` leaves only word and space characters, keeps lower case, and is the identity on text already of that form |
| SeoSchemas.StripPunctuationConcat | lib/seo/schemas.ts:30 | the text is cleaned character by character: cleaning a concatenation is concatenating the cleaned parts, so order and repeats are kept |
| SeoSchemas.StripOne | lib/seo/schemas.ts:30 | one character is kept exactly when it is a word or white-space character |
| SeoSchemas.SplitOnSpace | lib/seo/schemas.ts:30 | `split(/\s+/)` gives at least one piece, and no piece has white space |
| SeoSchemas.SplitOnSpaceWords | lib/seo/schemas.ts:30 | text without white space is one word, and otherwise the first word ends at the first white-space character, the rest being split on its own |
| SeoSchemas.SplitOnSpaceIsSplit | lib/seo/schemas.ts:30 | on text whose only white space is ` `, this splitting is the plain `split(' ')`, and joining the words with ` ` gives the text back |
| SeoSchemas.WordsOfLowerText | lib/seo/schemas.ts:30 | the words of lower-case text are lower-case and free of white space |
| SeoSchemas.LongWords | lib/seo/schemas.ts:30 | keeps exactly the words longer than 2 characters |
| SeoSchemas.LongWordsConcat | lib/seo/schemas.ts:30 | the filter works word by word, keeping order and repeats: filtering a concatenation is concatenating the filtered parts |
| SeoSchemas.LongOne | lib/seo/schemas.ts:30 | one word is kept exactly when it is longer than 2 characters |
| SeoSchemas.WithoutStopWords | lib/seo/schemas.ts:33-38 | keeps exactly the words that are not stop words |
| SeoSchemas.WithoutStopWordsConcat | lib/seo/schemas.ts:33-38 | the same word-by-word law for the stop-word filter |
| SeoSchemas.StopOne | lib/seo/schemas.ts:33-38 | one word is kept exactly when it is not a stop word |
| SeoSchemas.FilteredWords | lib/seo/schemas.ts:30-38 | every filtered word is longer than 2 characters, not a stop word, lower-case and free of white space |
| SeoSchemas.BigramsOf | lib/seo/schemas.ts:41-44 | one bigram per adjacent pair, `w[i] + " " + w[i+1]`, and none for fewer than two words |
| SeoSchemas.CollectBigrams | lib/seo/schemas.ts:41-44 | the push loop builds exactly those bigrams |
| SeoSchemas.Dedup | lib/seo/schemas.ts:53 | `Object.keys` order: each bigram once, in first-seen order |
| SeoSchemas.CountMap | lib/seo/schemas.ts:47-50 | the counts hold exactly the bigrams seen, each with its number of occurrences |
| SeoSchemas.CountBigrams | lib/seo/schemas.ts:47-50 | the `reduce` builds those counts and the keys in first-seen order |
| SeoSchemas.CountKnown | lib/seo/schemas.ts:48 | counting a bigram already seen increments its count and keeps the keys |
| SeoSchemas.CountNew | lib/seo/schemas.ts:48 | counting a new bigram gives it count 1 and appends it to the keys |
| SeoSchemas.CountOfCountMap | lib/seo/schemas.ts:47-50 | the count of any text is its number of occurrences |
| SeoSchemas.InsertionPoint | lib/seo/schemas.ts:54 | the place a key goes is after every key with a count at least as large and before the smaller ones |
| SeoSchemas.SortByCount | lib/seo/schemas.ts:53-54 | a permutation of the keys ordered by non-increasing count that keeps keys with equal counts in their original order, as a stable sort does |
| SeoSchemas.SortedKeysAreBigrams | lib/seo/schemas.ts:53-54 | the sorted keys are exactly the bigrams |
| SeoSchemas.TopBigramsOrdered | lib/seo/schemas.ts:53-55 | at most 5, distinct, each a bigram, in non-increasing count |
| SeoSchemas.TopBigramsComplete | lib/seo/schemas.ts:55 | a bigram left out implies five were taken, none with a smaller count than it |
| SeoSchemas.TopBigramsMeaning | lib/seo/schemas.ts:47-55 | the top bigrams are at most 5, distinct, ordered by count, and no bigram left out outranks them |
| SeoSchemas.TopBigramsOfNone | lib/seo/schemas.ts:42 | no bigrams give no keywords |
| SeoSchemas.KeywordsOfWords | lib/seo/schemas.ts:41-55 | for a word list: the same guarantees, and `[]` for fewer than two words |
| SeoSchemas.KeywordsMeaning | lib/seo/schemas.ts:28-56 | the keywords of a text are at most 5 distinct bigrams of its filtered words, by non-increasing count, with none left out that outranks them, and `[]` below two words |
| SeoSchemas.ExtractKeywords | lib/seo/schemas.ts:28-56 | the imperative pipeline gives those keywords |
| SeoSchemas.WithOverrides | lib/seo/schemas.ts:107-110 | every field that is present in the overrides replaces the base field; the others are kept |
| SeoSchemas.WithOverridesLaws | lib/seo/schemas.ts:107-110 | no overrides keep the base, and applying the same overrides twice is applying them once |
| SeoSchemas.AlternateLanguages | lib/seo/schemas.ts:97-102 | the map has exactly the supported codes, each mapped to `/{code}/{pageName}` |
| SeoSchemas.AlternatesAreLocalizedLinks | lib/seo/schemas.ts:96-102 | each alternate URL is the page path localized to that code |
| SeoSchemas.BaseMetadata | lib/seo/schemas.ts:66-104 | canonical and openGraph URL are both `/{lang}/{pageName}`, the own language's alternate is the canonical URL, the openGraph title, description, site name, type and locale are as set, and there are at most 5 keywords |
| SeoSchemas.GeneratePageSeoMetadata | lib/seo/schemas.ts:59-111 | the base metadata with the overrides applied; without overrides the title is `title + " \| " + appName` and the URLs are the page paths |
| ApiClient.Fields | lib/api-client.ts:113-128 | a conditional `append` sequence yields no more fields than it has steps |
| ApiClient.FieldsOfEntries | lib/api-client.ts:113-128 | every field comes from a defined entry with the same name and value; no defined entry gives no field, and all defined gives one field per entry |
| ApiClient.AppendDefined | lib/api-client.ts:118-128 | appending the defined entries one at a time extends the form by exactly those entries, in order |
| ApiClient.ConvertReadBack | lib/api-client.ts:113-128 | the convert form reads back the file and both formats; `ocr` and `quality` exactly when defined; `password` exactly when non-empty |
| ApiClient.FileFields | lib/api-client.ts:152-154 | one `files` field per file, in input order |
| ApiClient.FilesOfFileFields | lib/api-client.ts:152-154 | reading all `files` fields back gives the files in order |
| ApiClient.OptionEntries | lib/api-client.ts:397-401 | one entry per option, in key order, carrying the stringified value exactly when it is defined |
| ApiClient.PageNumberOptionReadBack | lib/api-client.ts:395-401 | each page-number option reads back as its text when defined and is absent otherwise |
| ApiClient.WatermarkBlocksSeparate | lib/api-client.ts:218-238 | the text, image and common watermark blocks use disjoint field names |
| ApiClient.Progress | lib/api-client.ts:63 | `Math.round(loaded*100/total)`: the nearest integer, half rounded up; within 0..100 when `loaded <= total`, 100 at completion, 0 at the start |
| ApiClient.ProgressMonotone | lib/api-client.ts:60-66 | more bytes loaded never report a smaller percentage |
| ApiClient.ProgressReports | lib/api-client.ts:60-66 | at most one report per event; no report when no total is known; one per event when every total is known; every report is `Progress` of an event with a known total |
| ApiClient.ProgressReportsConcat | lib/api-client.ts:60-66 | reports come in event order: the reports of two runs of events are the first run's followed by the second's |
| ApiClient.ProgressReportOfOne | lib/api-client.ts:62-64 | one event reports its percentage exactly when its total is non-zero |
| ApiClient.SteadyUploadReports | lib/api-client.ts:60-66 | for non-decreasing events of a known total, every event is reported, each within 0..100, and the reports never decrease |
| ApiClient.Intercepted | lib/api-client.ts:35-42 | the interceptor rejects with the server's error text, or `Unknown error occurred` when there is none |
| ApiClient.Envelope | lib/api-client.ts:70-79 | success with the body and no error on delivery; failure with no data and the error text, or the fallback when that text is empty |
| ApiClient.UploadFile | lib/api-client.ts:47-81 | the response is the envelope of the transport's outcome with fallback `Something went wrong`, and progress is reported only when a callback is given |
| ApiClient.InterceptedFailureMessage | lib/api-client.ts:37-78 | after the interceptor, a failed upload carries the server text or `Unknown error occurred`; an error without text gets `Something went wrong` |
| ApiClient.SplitStatusPath | lib/api-client.ts:409 | the status path is `/pdf/split/status?id=` followed by the job id itself |
| ApiClient.CheckSplitStatus | lib/api-client.ts:407-421 | the envelope of the GET outcome with fallback `Failed to check job status`, and a failure always carries a message |
| ApiClient.EnvelopesDiffer | lib/api-client.ts:74-79 | the two envelopes agree on a delivery and on an error with text; for an error with empty text each uses its own fallback |
| ApiClient.ApiClient.constructor | lib/api-client.ts:22-30 | the API key is the environment's or `""`; the base URL is the environment's or `https://scanpro.cc/api` |
| ApiClient.ApiClient.Headers | lib/api-client.ts:26-29 | the headers carry the multipart content type and the API key |
| ApiClient.ApiClient.ConvertFile | lib/api-client.ts:106-131 | `/convert` form: the file and both formats; `ocr`/`quality` exactly when defined; `password` exactly when non-empty |
| ApiClient.ApiClient.CompressFile | lib/api-client.ts:133-143 | `/compress` form with the file and the quality |
| ApiClient.ApiClient.MergeFiles | lib/api-client.ts:145-161 | `/merge` form: one `files` field per file in order, then `order` as JSON exactly when its length equals the number of files, read back unchanged |
| ApiClient.ApiClient.SplitFile | lib/api-client.ts:163-182 | `/pdf/split` form: file and method; `pageRanges` only for `range` with non-empty ranges; `everyNPages` only for `every` with a non-zero count |
| ApiClient.ApiClient.RotatePdf | lib/api-client.ts:184-199 | `/rotate` form: file and angle always; `pages` as JSON only when the list is non-empty |
| ApiClient.ApiClient.AddWatermark | lib/api-client.ts:201-241 | `/pdf/watermark` form: file and type; the text fields only for type `text` with non-empty text; image and scale only for type `image` with an image; empty or zero common options omitted |
| ApiClient.ApiClient.ProtectPdf | lib/api-client.ts:243-270 | `/pdf/protect` form: file and password; each permission exactly when defined, so `false` is sent |
| ApiClient.ApiClient.UnlockPdf | lib/api-client.ts:272-285 | `/pdf/unlock` form: file; password only when non-empty |
| ApiClient.ApiClient.SignPdf | lib/api-client.ts:287-321 | `/pdf/sign` form: file, elements and pages as JSON; `performOcr` exactly when defined |
| ApiClient.ApiClient.PerformOcr | lib/api-client.ts:323-335 | `/pdf/ocr` form: file, language (default `eng`) and output format (default `searchablePdf`) |
| ApiClient.ApiClient.FileWithText | lib/api-client.ts:342-346 | a form of the file and one named text field, both read back |
| ApiClient.ApiClient.EditPdf | lib/api-client.ts:337-347 | `/pdf/edit` form: file and the edits as JSON |
| ApiClient.ApiClient.RedactPdf | lib/api-client.ts:349-362 | `/pdf/redact` form: file and the redactions as JSON |
| ApiClient.ApiClient.RepairPdf | lib/api-client.ts:364-374 | `/pdf/repair` form: file and the repair mode (default `standard`) |
| ApiClient.ApiClient.AddPageNumbers | lib/api-client.ts:376-404 | `/pdf/pagenumber` form: the file, then one field per defined option in key order |

## Left out

- I/O: the HTTP transport, axios, and the environment variables are parameters. `downloadFile` (Blob, object URLs, DOM anchors) is not modelled.
- The `status` field of `ApiError` is not modelled, because no caller of `uploadFile` or `checkSplitStatus` returns it.
- The interceptor's pass-through of successful responses is not modelled either; only the rejection message it builds is.
- `baseURL` joining with the endpoint is not modelled: requests carry the endpoint path only.
- Floating point is not modelled:
  - Numbers are integers, so `Math.round` of a fraction is computed exactly on integers.
  - `toString` of a number is the decimal text of an integer.
  - `formatFileSize` and the other float helpers of lib/utils.ts and lib/file-utils.ts are not modelled.
- `Number()` is not fully modelled: only trimmed decimal-digit text is a number, and everything else is NaN. Hex, exponents, fractions and signs are left out. Blank text is 0, as in JavaScript.
- Unicode is not modelled:
  - `toLowerCase` folds ASCII letters only.
  - `\w` is ASCII word characters.
  - `\s` and `trim` use the ECMAScript white-space set.
- SeoSchemas.SplitOnSpace: `split(/\s+/)` is modelled as splitting at every white-space character. The extra empty pieces this makes are removed by the length filter, so the filtered words are the same.
- Utils.GetFileExtension: its contract holds for names of at most 2^32 characters, because `>>> 0` wraps past that. JavaScript strings are shorter.
- The FileValidations `isValid*` functions carry the same length condition, because they call `getFileExtension`.
- FileValidations: of the Zod schemas, only the refinement rules and defaults are modelled. The schema machinery, its error messages and `instanceof File` are not.
- The size messages say "less than 10MB" while the check accepts exactly 10 MiB. The model follows the check.
- Store: zustand, `persist` and localStorage are not modelled; the store is a class with a `language` field.
- Store: the translation table is a parameter, not the English table.
- Store: indexing a JavaScript string or a prototype property along a path is not modelled, because a string has no children in the tree.
- I18nConfig.GetLanguageName: a string outside the `Language` type that names a prototype property, such as `"constructor"`, makes `names[locale] || locale` answer that property; the model answers the locale itself for every string outside the table.
- SeoSchemas.GetTranslation: the `lang` argument is unused by the source and is not a parameter.
- SeoSchemas: `Metadata` holds only the fields `generatePageSeoMetadata` sets. An override replaces a whole field, as a spread does. An override key that is present but explicitly `undefined` (`{ title: undefined }`) clears the field in the source; in the model `None` means the key is absent, so that case is not modelled.
- `generateStructuredData` is a constant object and is not modelled.
- The convert page's restriction of output formats by input kind lives in a UI page. It is not part of this model.
- `cn`, `generateId`, `isMobileDevice`, `formatDate` and `delay` are not modelled: they use class names, randomness, the browser, locales and timers.
