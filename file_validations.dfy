/**
 * lib/validations/file-validations.ts: the size ceiling, the extension allow-lists,
 * the `isValid*` predicates built on the slice/lastIndexOf `getFileExtension`, and
 * the refinements of each form schema as plain predicates over the form's fields.
 * An absent optional field is `None`; `Resolve*` fill in the schema's defaults.
 */
module FileValidations {
  import opened Wrappers
  import opened Text
  import opened WebFile
  import Utils
  import FileUtils

  const MaxFileSize: nat := 10 * 1024 * 1024

  const PdfExtensions: seq<string> := ["pdf"]
  const ImageExtensions: seq<string> := ["jpg", "jpeg", "png", "gif", "webp"]
  const DocumentExtensions: seq<string> :=
    ["doc", "docx", "xls", "xlsx", "ppt", "pptx", "rtf", "txt", "html"]
  const ConversionInputs: seq<string> := PdfExtensions + DocumentExtensions + ImageExtensions
  const ConversionOutputs: seq<string> :=
    ["pdf", "docx", "xlsx", "pptx", "rtf", "txt", "html", "jpg", "jpeg", "png"]

  /** Every allow-list entry is a non-empty, dot-free, lower-case extension. */
  predicate WellFormedExtensions(list: seq<string>) {
    forall i :: 0 <= i < |list| ==> list[i] != "" && NoUpper(list[i]) && '.' !in list[i]
  }

  lemma ExtensionListsWellFormed()
    ensures WellFormedExtensions(PdfExtensions) && WellFormedExtensions(ImageExtensions)
    ensures WellFormedExtensions(DocumentExtensions) && WellFormedExtensions(ConversionInputs)
    ensures WellFormedExtensions(ConversionOutputs)
  {
    DocumentExtensionsWellFormed();
    ConversionOutputsWellFormed();
    forall i | 0 <= i < |ConversionInputs|
      ensures ConversionInputs[i] in PdfExtensions + DocumentExtensions + ImageExtensions
    {
    }
  }

  lemma DocumentExtensionsWellFormed()
    ensures WellFormedExtensions(DocumentExtensions)
  {
  }

  lemma ConversionOutputsWellFormed()
    ensures WellFormedExtensions(ConversionOutputs)
  {
  }

  /** No extension belongs to two of the three kinds. */
  lemma ExtensionKindsDisjoint(ext: string)
    ensures !(ext in PdfExtensions && ext in ImageExtensions)
    ensures !(ext in PdfExtensions && ext in DocumentExtensions)
    ensures !(ext in ImageExtensions && ext in DocumentExtensions)
  {
  }

  /** Every output format can be converted from, too. */
  lemma OutputsAreInputs()
    ensures forall i :: 0 <= i < |ConversionOutputs| ==> ConversionOutputs[i] in ConversionInputs
  {
  }

  /** The extension of `name` as the slice arithmetic reads it, for names a browser can hold. */
  predicate DottedExtensionIn(name: string, list: seq<string>)
    requires |name| <= Utils.TwoTo32
  {
    var k := LastIndexOf(name, '.');
    k >= 1 && ToLower(name[k + 1..]) in list
  }

  function IsValidFileSize(file: File): bool {
    file.size <= MaxFileSize
  }

  /** The ceiling is 10 MiB, inclusive: exactly the maximum passes, one byte more fails. */
  lemma FileSizeBoundary(name: string)
    ensures MaxFileSize == 10485760
    ensures IsValidFileSize(File(name, 10485760))
    ensures !IsValidFileSize(File(name, 10485761))
    ensures forall size: nat :: IsValidFileSize(File(name, size)) <==> size <= 10485760
  {
  }

  /** Whether the extension `getFileExtension` reads from the name is in `list`. */
  function HasExtensionIn(file: File, list: seq<string>): (ok: bool)
    requires WellFormedExtensions(list)
    ensures |file.name| <= Utils.TwoTo32 ==> (ok <==> DottedExtensionIn(file.name, list))
  {
    var ext := Utils.GetFileExtension(file.name);
    assert |file.name| <= Utils.TwoTo32 && LastIndexOf(file.name, '.') < 1 ==> ext !in list;
    ext in list
  }

  function IsValidPdfFile(file: File): (ok: bool)
    ensures |file.name| <= Utils.TwoTo32 ==> (ok <==> DottedExtensionIn(file.name, PdfExtensions))
  {
    HasExtensionIn(file, PdfExtensions)
  }

  function IsValidImageFile(file: File): (ok: bool)
    ensures |file.name| <= Utils.TwoTo32 ==> (ok <==> DottedExtensionIn(file.name, ImageExtensions))
  {
    HasExtensionIn(file, ImageExtensions)
  }

  function IsValidDocumentFile(file: File): (ok: bool)
    ensures |file.name| <= Utils.TwoTo32 ==> (ok <==> DottedExtensionIn(file.name, DocumentExtensions))
  {
    HasExtensionIn(file, DocumentExtensions)
  }

  /** A conversion input is exactly a PDF, a document or an image. */
  function IsValidConversionInput(file: File): (ok: bool)
    ensures ok <==> IsValidPdfFile(file) || IsValidDocumentFile(file) || IsValidImageFile(file)
  {
    ExtensionListsWellFormed();
    InputKinds(Utils.GetFileExtension(file.name));
    HasExtensionIn(file, ConversionInputs)
  }

  /** The conversion inputs are the three kinds of extension together. */
  lemma InputKinds(ext: string)
    ensures ext in ConversionInputs <==>
      ext in PdfExtensions || ext in DocumentExtensions || ext in ImageExtensions
  {
  }

  /** The validators see the case-folded extension, so an upper-case name is accepted. */
  lemma UpperCasePdfAccepted(size: nat)
    ensures IsValidPdfFile(File("A.PDF", size))
  {
    Utils.ExtensionExamples();
  }

  lemma LastDotDecides(size: nat)
    ensures IsValidPdfFile(File("a.b.Pdf", size))
    ensures !IsValidPdfFile(File("a.pdf.b", size))
  {
    LastDotPdf(size);
    LastDotOther(size);
  }

  lemma LastDotPdf(size: nat)
    ensures IsValidPdfFile(File("a.b.Pdf", size))
  {
    assert "a.b.Pdf"[4..] == "Pdf";
    MixedCasePdf();
    PdfAfterLastDot("a.b.Pdf", 3, size);
  }

  lemma LastDotOther(size: nat)
    ensures !IsValidPdfFile(File("a.pdf.b", size))
  {
    assert "a.pdf.b"[6..] == "b";
    ToLowerIdempotent("b");
    OtherAfterLastDot("a.pdf.b", 5, size);
  }

  lemma MixedCasePdf()
    ensures ToLower("Pdf") == "pdf"
  {
    var r := ToLower("Pdf");
    assert r[0] == 'p' && r[1] == 'd' && r[2] == 'f';
  }

  /** What follows the last dot decides, once it folds to `pdf`. */
  lemma PdfAfterLastDot(name: string, k: nat, size: nat)
    requires 1 <= k < |name| <= Utils.TwoTo32 && name[k] == '.'
    requires forall j :: k < j < |name| ==> name[j] != '.'
    requires ToLower(name[k + 1..]) == "pdf"
    ensures IsValidPdfFile(File(name, size))
  {
    PdfByExtension(File(name, size));
    Utils.ExtensionAt(name, k);
  }

  /** What follows the last dot decides, once it folds to anything else. */
  lemma OtherAfterLastDot(name: string, k: nat, size: nat)
    requires 1 <= k < |name| <= Utils.TwoTo32 && name[k] == '.'
    requires forall j :: k < j < |name| ==> name[j] != '.'
    requires ToLower(name[k + 1..]) != "pdf"
    ensures !IsValidPdfFile(File(name, size))
  {
    PdfByExtension(File(name, size));
    Utils.ExtensionAt(name, k);
  }

  lemma PdfByExtension(file: File)
    ensures IsValidPdfFile(file) <==> Utils.GetFileExtension(file.name) == "pdf"
  {
  }

  /**
   * The validators read the extension the slice/lastIndexOf way, so a file named
   * just `pdf`, or `.pdf`, is not a PDF, although the split/pop variant of
   * lib/file-utils.ts would report the extension `pdf` for both.
   */
  lemma BareNamesRejected(size: nat)
    ensures !IsValidPdfFile(File("pdf", size)) && FileUtils.GetFileExtension("pdf") == "pdf"
    ensures !IsValidPdfFile(File(".pdf", size)) && FileUtils.GetFileExtension(".pdf") == "pdf"
  {
    LastIndexOfIs("pdf", '.', -1);
    LastIndexOfIs(".pdf", '.', 0);
    UndottedNamesRejected(File("pdf", size));
    UndottedNamesRejected(File(".pdf", size));
    SplitExtensionOfPdfNames();
  }

  lemma SplitExtensionOfPdfNames()
    ensures FileUtils.GetFileExtension("pdf") == "pdf"
    ensures FileUtils.GetFileExtension(".pdf") == "pdf"
  {
    SplitExtensionOfBareName();
    SplitExtensionOfDotName();
  }

  lemma SplitExtensionOfBareName()
    ensures FileUtils.GetFileExtension("pdf") == "pdf"
  {
    FileUtils.ExtensionOfDotless("pdf");
    ToLowerIdempotent("pdf");
  }

  lemma SplitExtensionOfDotName()
    ensures FileUtils.GetFileExtension(".pdf") == "pdf"
  {
    FileUtils.ExtensionAfterDot(".pdf", 0);
    assert ".pdf"[1..] == "pdf";
    ToLowerIdempotent("pdf");
  }

  /** A name without a dot, or whose only dot leads, passes none of the extension checks. */
  lemma UndottedNamesRejected(file: File)
    requires |file.name| <= Utils.TwoTo32 && LastIndexOf(file.name, '.') < 1
    ensures !IsValidPdfFile(file) && !IsValidImageFile(file)
    ensures !IsValidDocumentFile(file) && !IsValidConversionInput(file)
  {
  }

  // ----- schema refinements -----

  /** The size refinement and then the type refinement that every file field carries. */
  predicate AcceptsPdf(file: File) { IsValidFileSize(file) && IsValidPdfFile(file) }

  /** An optional enum field: absent, or one of the allowed values. */
  predicate OptionIn(value: Option<string>, allowed: seq<string>) {
    value.None? || value.value in allowed
  }

  /** An optional number field with an inclusive lower bound and, when given, an upper one. */
  predicate WithinBounds(value: Option<int>, lo: int, hi: Option<int>) {
    value.None? || (lo <= value.value && (hi.Some? ==> value.value <= hi.value))
  }

  /** An absent field takes the default and a present one is kept; either way it stays in bounds. */
  function Resolved(value: Option<int>, lo: int, hi: Option<int>, default: int): (r: int)
    requires WithinBounds(value, lo, hi)
    requires lo <= default && (hi.Some? ==> default <= hi.value)
    ensures lo <= r && (hi.Some? ==> r <= hi.value)
    ensures value.Some? ==> r == value.value
    ensures value.None? ==> r == default
  {
    value.GetOr(default)
  }

  /** The same for an enum field. */
  function ResolvedChoice(value: Option<string>, allowed: seq<string>, default: string): (r: string)
    requires OptionIn(value, allowed) && default in allowed
    ensures r in allowed
    ensures value.Some? ==> r == value.value
    ensures value.None? ==> r == default
  {
    value.GetOr(default)
  }

  // PdfFileSchema, ImageFileSchema, DocumentFileSchema
  predicate PdfFileAccepts(file: File) { AcceptsPdf(file) }
  predicate ImageFileAccepts(file: File) { IsValidFileSize(file) && IsValidImageFile(file) }
  predicate DocumentFileAccepts(file: File) { IsValidFileSize(file) && IsValidDocumentFile(file) }

  // ConversionInputSchema
  datatype ConversionForm = ConversionForm(file: File, outputFormat: string)

  predicate ConversionAccepts(form: ConversionForm) {
    IsValidFileSize(form.file) && IsValidConversionInput(form.file)
    && form.outputFormat in ConversionOutputs
  }

  /** Converting to the format a file already has is accepted whenever that format is an output. */
  lemma ConversionAcceptsEveryKind(form: ConversionForm)
    requires IsValidFileSize(form.file) && form.outputFormat in ConversionOutputs
    requires IsValidPdfFile(form.file) || IsValidDocumentFile(form.file) || IsValidImageFile(form.file)
    ensures ConversionAccepts(form)
  {
  }

  // CompressFormSchema
  const Qualities: seq<string> := ["low", "medium", "high"]

  datatype CompressForm = CompressForm(file: File, quality: Option<string>)

  predicate CompressAccepts(form: CompressForm) {
    AcceptsPdf(form.file) && OptionIn(form.quality, Qualities)
  }

  function CompressQuality(form: CompressForm): (quality: string)
    requires CompressAccepts(form)
    ensures quality in Qualities
    ensures quality == (if form.quality.Some? then form.quality.value else "medium")
  {
    ResolvedChoice(form.quality, Qualities, "medium")
  }

  // MergeFormSchema
  predicate MergeAccepts(files: seq<File>) {
    |files| >= 2 && (forall i :: 0 <= i < |files| ==> IsValidFileSize(files[i]))
    && (forall i :: 0 <= i < |files| ==> IsValidPdfFile(files[i]))
  }

  /** Fewer than two files never merge, whatever the files. */
  lemma MergeNeedsTwoFiles(files: seq<File>)
    requires |files| < 2
    ensures !MergeAccepts(files)
  {
  }

  /** One oversized or non-PDF file anywhere rejects the whole list. */
  lemma MergeRejectsOneBadFile(files: seq<File>, i: int)
    requires 0 <= i < |files| && !AcceptsPdf(files[i])
    ensures !MergeAccepts(files)
  {
  }

  /** Acceptance depends only on which files are chosen, not on their order. */
  lemma {:induction false} MergeAcceptsReordered(files: seq<File>, reordered: seq<File>)
    requires multiset(files) == multiset(reordered)
    ensures MergeAccepts(files) == MergeAccepts(reordered)
  {
    assert |files| == |multiset(files)| == |reordered|;
    forall i | 0 <= i < |reordered| ensures reordered[i] in files {
      assert reordered[i] in multiset(reordered);
    }
    forall i | 0 <= i < |files| ensures files[i] in reordered {
      assert files[i] in multiset(files);
    }
    if MergeAccepts(files) {
      forall i | 0 <= i < |reordered| ensures AcceptsPdf(reordered[i]) {
        var j :| 0 <= j < |files| && files[j] == reordered[i];
      }
    }
    if MergeAccepts(reordered) {
      forall i | 0 <= i < |files| ensures AcceptsPdf(files[i]) {
        var j :| 0 <= j < |reordered| && reordered[j] == files[i];
      }
    }
  }

  // SplitFormSchema
  const SplitMethods: seq<string> := ["range", "extract", "every"]

  datatype SplitForm =
    SplitForm(file: File, splitMethod: Option<string>, pageRanges: Option<string>, everyNPages: Option<int>)

  datatype SplitOptions = SplitOptions(splitMethod: string, pageRanges: Option<string>, everyNPages: int)

  predicate SplitAccepts(form: SplitForm) {
    AcceptsPdf(form.file) && OptionIn(form.splitMethod, SplitMethods)
    && WithinBounds(form.everyNPages, 1, None)
  }

  function ResolveSplit(form: SplitForm): (options: SplitOptions)
    requires SplitAccepts(form)
    ensures options.splitMethod in SplitMethods && options.everyNPages >= 1
    ensures options.splitMethod == form.splitMethod.GetOr("range")
    ensures options.everyNPages == form.everyNPages.GetOr(1)
    ensures options.pageRanges == form.pageRanges
  {
    SplitOptions(
      ResolvedChoice(form.splitMethod, SplitMethods, "range"),
      form.pageRanges,
      Resolved(form.everyNPages, 1, None, 1))
  }

  // RotateFormSchema
  datatype RotateForm = RotateForm(file: File, angle: Option<int>, pages: Option<seq<int>>)

  predicate RotateAccepts(form: RotateForm) {
    AcceptsPdf(form.file)
    && (form.pages.Some? ==> forall i :: 0 <= i < |form.pages.value| ==> form.pages.value[i] >= 1)
  }

  /** The angle defaults to a quarter turn. */
  function RotateAngle(form: RotateForm): (angle: int)
    ensures form.angle.None? ==> angle == 90
    ensures form.angle.Some? ==> angle == form.angle.value
  {
    form.angle.GetOr(90)
  }

  // WatermarkFormSchema
  const WatermarkTypes: seq<string> := ["text", "image"]

  datatype WatermarkForm = WatermarkForm(
    file: File, watermarkType: Option<string>, text: Option<string>, position: Option<string>,
    opacity: Option<int>, rotation: Option<int>, fontSize: Option<int>,
    color: Option<string>, fontFamily: Option<string>, pages: Option<string>)

  datatype WatermarkOptions = WatermarkOptions(
    watermarkType: string, text: Option<string>, position: string, opacity: int, rotation: int,
    fontSize: int, color: string, fontFamily: string, pages: Option<string>)

  predicate WatermarkAccepts(form: WatermarkForm) {
    AcceptsPdf(form.file) && OptionIn(form.watermarkType, WatermarkTypes)
    && WithinBounds(form.opacity, 1, Some(100)) && WithinBounds(form.fontSize, 8, Some(72))
  }

  function ResolveWatermark(form: WatermarkForm): (options: WatermarkOptions)
    requires WatermarkAccepts(form)
    ensures options.watermarkType in WatermarkTypes
    ensures 1 <= options.opacity <= 100 && 8 <= options.fontSize <= 72
    ensures options.watermarkType == form.watermarkType.GetOr("text")
    ensures options.opacity == form.opacity.GetOr(50) && options.fontSize == form.fontSize.GetOr(24)
    ensures options.position == form.position.GetOr("center")
    ensures options.rotation == form.rotation.GetOr(0)
    ensures options.color == form.color.GetOr("#000000")
    ensures options.fontFamily == form.fontFamily.GetOr("Arial")
    ensures options.text == form.text && options.pages == form.pages
  {
    WatermarkOptions(
      ResolvedChoice(form.watermarkType, WatermarkTypes, "text"), form.text,
      form.position.GetOr("center"),
      Resolved(form.opacity, 1, Some(100), 50), form.rotation.GetOr(0),
      Resolved(form.fontSize, 8, Some(72), 24),
      form.color.GetOr("#000000"), form.fontFamily.GetOr("Arial"), form.pages)
  }

  /** The numeric bounds are inclusive at both ends and nothing outside them passes. */
  lemma WatermarkBounds(form: WatermarkForm)
    requires AcceptsPdf(form.file) && form.watermarkType.None? && form.fontSize.None?
    ensures form.opacity == Some(1) || form.opacity == Some(100) ==> WatermarkAccepts(form)
    ensures form.opacity == Some(0) || form.opacity == Some(101) ==> !WatermarkAccepts(form)
    ensures form.opacity.None? ==> WatermarkAccepts(form)
  {
  }

  // ProtectFormSchema
  datatype ProtectForm = ProtectForm(
    file: File, password: string, confirmPassword: string,
    allowPrinting: Option<bool>, allowCopying: Option<bool>, allowEditing: Option<bool>)

  predicate ProtectAccepts(form: ProtectForm) {
    AcceptsPdf(form.file) && |form.password| >= 1 && |form.confirmPassword| >= 1
    && form.password == form.confirmPassword
  }

  /** Mismatched passwords are always rejected, and an accepted form has one non-empty password. */
  lemma ProtectPasswordsMatch(form: ProtectForm)
    ensures form.password != form.confirmPassword ==> !ProtectAccepts(form)
    ensures ProtectAccepts(form) ==> form.password != "" && form.confirmPassword == form.password
  {
  }

  /** Every permission defaults to granted. */
  function ProtectPermissions(form: ProtectForm): (allowed: (bool, bool, bool))
    ensures form.allowPrinting.None? ==> allowed.0
    ensures form.allowCopying.None? ==> allowed.1
    ensures form.allowEditing.None? ==> allowed.2
    ensures form.allowPrinting.Some? ==> allowed.0 == form.allowPrinting.value
    ensures form.allowCopying.Some? ==> allowed.1 == form.allowCopying.value
    ensures form.allowEditing.Some? ==> allowed.2 == form.allowEditing.value
  {
    (form.allowPrinting.GetOr(true), form.allowCopying.GetOr(true), form.allowEditing.GetOr(true))
  }

  // UnlockFormSchema: the password is optional, so only the file is refined.
  datatype UnlockForm = UnlockForm(file: File, password: Option<string>)

  predicate UnlockAccepts(form: UnlockForm) { AcceptsPdf(form.file) }

  // PageNumberFormSchema
  const PageNumberFormats: seq<string> := ["numeric", "roman", "alphabetic"]

  datatype PageNumberForm = PageNumberForm(
    file: File, format: Option<string>, position: Option<string>, startNumber: Option<int>,
    fontFamily: Option<string>, fontSize: Option<int>, color: Option<string>,
    prefix: Option<string>, suffix: Option<string>, marginX: Option<int>, marginY: Option<int>,
    skipFirstPage: Option<bool>, selectedPages: Option<string>)

  datatype PageNumberOptions = PageNumberOptions(
    format: string, position: string, startNumber: int, fontFamily: string, fontSize: int,
    color: string, prefix: Option<string>, suffix: Option<string>, marginX: int, marginY: int,
    skipFirstPage: bool, selectedPages: Option<string>)

  predicate PageNumberAccepts(form: PageNumberForm) {
    AcceptsPdf(form.file) && OptionIn(form.format, PageNumberFormats)
    && WithinBounds(form.startNumber, 1, None) && WithinBounds(form.fontSize, 8, Some(72))
    && WithinBounds(form.marginX, 0, None) && WithinBounds(form.marginY, 0, None)
  }

  function ResolvePageNumbers(form: PageNumberForm): (options: PageNumberOptions)
    requires PageNumberAccepts(form)
    ensures options.format in PageNumberFormats
    ensures options.startNumber >= 1 && 8 <= options.fontSize <= 72
    ensures options.marginX >= 0 && options.marginY >= 0
    ensures options.format == form.format.GetOr("numeric")
    ensures options.position == form.position.GetOr("bottom-center")
    ensures options.startNumber == form.startNumber.GetOr(1)
    ensures options.fontFamily == form.fontFamily.GetOr("Helvetica")
    ensures options.fontSize == form.fontSize.GetOr(12)
    ensures options.color == form.color.GetOr("#000000")
    ensures options.marginX == form.marginX.GetOr(40) && options.marginY == form.marginY.GetOr(30)
    ensures options.skipFirstPage == form.skipFirstPage.GetOr(false)
    ensures options.prefix == form.prefix && options.suffix == form.suffix
    ensures options.selectedPages == form.selectedPages
  {
    PageNumberOptions(
      ResolvedChoice(form.format, PageNumberFormats, "numeric"),
      form.position.GetOr("bottom-center"),
      Resolved(form.startNumber, 1, None, 1),
      form.fontFamily.GetOr("Helvetica"),
      Resolved(form.fontSize, 8, Some(72), 12),
      form.color.GetOr("#000000"), form.prefix, form.suffix,
      Resolved(form.marginX, 0, None, 40), Resolved(form.marginY, 0, None, 30),
      form.skipFirstPage.GetOr(false), form.selectedPages)
  }

  /** A negative margin, a start below 1 or a font size outside [8, 72] is rejected. */
  lemma PageNumberBounds(form: PageNumberForm)
    ensures form.startNumber == Some(0) ==> !PageNumberAccepts(form)
    ensures form.fontSize == Some(7) || form.fontSize == Some(73) ==> !PageNumberAccepts(form)
    ensures form.marginX == Some(-1) || form.marginY == Some(-1) ==> !PageNumberAccepts(form)
  {
  }
}
