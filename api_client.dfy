/**
 * lib/api-client.ts: the multipart forms each adapter builds, the upload
 * progress percentage, and the `{ success, data, error }` envelopes of
 * `uploadFile` and `checkSplitStatus`. The HTTP transport is a parameter:
 * for a request it yields the upload progress events and an outcome.
 * Numbers are integers, so `toString` is the decimal text.
 */
module ApiClient {
  import opened Wrappers
  import opened Text
  import opened WebFile
  import opened Json

  // ----- FormData -----

  datatype FormValue = StringValue(text: string) | FileValue(file: File)

  /** The `(name, value)` pairs of a `FormData`, in the order they were appended. */
  type FormData = seq<(string, FormValue)>

  /** The route posted to (relative to the base URL) and the form posted. */
  datatype Request = Request(endpoint: string, form: FormData)

  /** JavaScript truthiness of an optional string and of an optional number. */
  predicate TruthyText(value: Option<string>) { value.Some? && value.value != "" }
  predicate TruthyNumber(value: Option<int>) { value.Some? && value.value != 0 }

  /** An optional field: `text` is appended only when `condition` holds. */
  function TextIf(condition: bool, text: string): Option<FormValue>
  {
    if condition then Some(StringValue(text)) else None
  }

  /** An optional number field, sent as its `toString`. */
  function NumberIf(condition: bool, n: int): Option<FormValue>
  {
    TextIf(condition, IntToString(n))
  }

  /** An optional list of integers, sent as its `JSON.stringify`. */
  function NumbersIf(condition: bool, xs: seq<int>): Option<FormValue>
  {
    TextIf(condition, Stringify(Numbers(xs)))
  }

  /** An optional boolean, sent as `'true'` or `'false'` when it is defined. */
  function FlagField(flag: Option<bool>): Option<FormValue>
  {
    TextIf(flag.Some?, BoolToString(flag.GetOr(false)))
  }

  /** The fields appended for the defined entries, in entry order. */
  function Fields(entries: seq<(string, Option<FormValue>)>): (fields: FormData)
    ensures |fields| <= |entries|
  {
    if entries == [] then []
    else Field(entries[0]) + Fields(entries[1..])
  }

  /** Every field comes from a defined entry; all undefined gives none, all defined gives one per entry. */
  lemma {:induction false} FieldsOfEntries(entries: seq<(string, Option<FormValue>)>)
    ensures (forall i :: 0 <= i < |entries| ==> entries[i].1.None?) ==> Fields(entries) == []
    ensures (forall i :: 0 <= i < |entries| ==> entries[i].1.Some?) ==> |Fields(entries)| == |entries|
    ensures forall f :: f in Fields(entries) ==> (f.0, Some(f.1)) in entries
    decreases |entries|
  {
    if entries != [] {
      var rest := entries[1..];
      FieldsOfEntries(rest);
      assert forall e :: e in rest ==> e in entries;
      assert Fields(entries) == Field(entries[0]) + Fields(rest);
      if entries[0].1.Some? {
        assert Field(entries[0]) == [(entries[0].0, entries[0].1.value)];
      }
    }
  }

  function Field(entry: (string, Option<FormValue>)): FormData
  {
    if entry.1.Some? then [(entry.0, entry.1.value)] else []
  }

  lemma {:induction false} FieldsSnoc(entries: seq<(string, Option<FormValue>)>, entry: (string, Option<FormValue>))
    ensures Fields(entries + [entry]) == Fields(entries) + Field(entry)
    decreases |entries|
  {
    if entries == [] {
      assert [entry][1..] == [];
    } else {
      assert (entries + [entry])[1..] == entries[1..] + [entry];
      FieldsSnoc(entries[1..], entry);
    }
  }

  /** The `if (value !== undefined) formData.append(key, value)` steps of a builder. */
  method AppendDefined(form: FormData, entries: seq<(string, Option<FormValue>)>) returns (result: FormData)
    ensures result == form + Fields(entries)
  {
    result := form;
    for i := 0 to |entries|
      invariant result == form + Fields(entries[..i])
    {
      if entries[i].1.Some? {
        result := result + [(entries[i].0, entries[i].1.value)];
      }
      FieldsSnoc(entries[..i], entries[i]);
      assert entries[..i + 1] == entries[..i] + [entries[i]];
    }
    assert entries[..|entries|] == entries;
  }

  /** `FormData.get(name)`: the first value appended under `name`. */
  function FirstNamed(form: FormData, name: string): Option<FormValue>
  {
    if form == [] then None
    else if form[0].0 == name then Some(form[0].1)
    else FirstNamed(form[1..], name)
  }

  lemma {:induction false} FirstNamedAppend(a: FormData, b: FormData, name: string)
    ensures FirstNamed(a + b, name) == if FirstNamed(a, name).Some? then FirstNamed(a, name) else FirstNamed(b, name)
    decreases |a|
  {
    if a == [] {
      assert a + b == b;
    } else {
      assert (a + b)[1..] == a[1..] + b;
      FirstNamedAppend(a[1..], b, name);
    }
  }

  lemma {:induction false} FirstNamedMissing(form: FormData, name: string)
    requires forall i :: 0 <= i < |form| ==> form[i].0 != name
    ensures FirstNamed(form, name) == None
    decreases |form|
  {
    if form != [] {
      FirstNamedMissing(form[1..], name);
    }
  }

  lemma {:induction false} FieldsMissing(entries: seq<(string, Option<FormValue>)>, name: string)
    requires forall j :: 0 <= j < |entries| ==> entries[j].0 != name
    ensures FirstNamed(Fields(entries), name) == None
    decreases |entries|
  {
    if entries != [] {
      FieldsMissing(entries[1..], name);
      FirstNamedAppend(Field(entries[0]), Fields(entries[1..]), name);
    }
  }

  /** A receiver reading the field of an entry whose name no other entry uses gets that entry's value. */
  lemma {:induction false} FirstNamedOfFields(entries: seq<(string, Option<FormValue>)>, i: nat)
    requires i < |entries|
    requires forall j :: 0 <= j < |entries| && j != i ==> entries[j].0 != entries[i].0
    ensures FirstNamed(Fields(entries), entries[i].0) == entries[i].1
    decreases |entries|
  {
    var name := entries[i].0;
    var rest := entries[1..];
    FirstNamedAppend(Field(entries[0]), Fields(rest), name);
    if i == 0 {
      FieldsMissing(rest, name);
    } else {
      FirstNamedOfFields(rest, i - 1);
    }
  }

  /** The same behind a prefix of required fields that does not use the name. */
  lemma FirstNamedOfDefined(base: FormData, entries: seq<(string, Option<FormValue>)>, i: nat)
    requires i < |entries|
    requires forall k :: 0 <= k < |base| ==> base[k].0 != entries[i].0
    requires forall j :: 0 <= j < |entries| && j != i ==> entries[j].0 != entries[i].0
    ensures FirstNamed(base + Fields(entries), entries[i].0) == entries[i].1
  {
    FirstNamedAppend(base, Fields(entries), entries[i].0);
    FirstNamedMissing(base, entries[i].0);
    FirstNamedOfFields(entries, i);
  }

  /** The same behind any prefix in which the name does not occur. */
  lemma FirstNamedAfter(before: FormData, entries: seq<(string, Option<FormValue>)>, i: nat)
    requires i < |entries| && FirstNamed(before, entries[i].0) == None
    requires forall j :: 0 <= j < |entries| && j != i ==> entries[j].0 != entries[i].0
    ensures FirstNamed(before + Fields(entries), entries[i].0) == entries[i].1
  {
    FirstNamedAppend(before, Fields(entries), entries[i].0);
    FirstNamedOfFields(entries, i);
  }

  /** A required field stays the first value of its name whatever is appended after it. */
  lemma FirstNamedOfBase(base: FormData, rest: FormData, name: string)
    requires FirstNamed(base, name).Some?
    ensures FirstNamed(base + rest, name) == FirstNamed(base, name)
  {
    FirstNamedAppend(base, rest, name);
  }

  /** What a receiver reads from a field: its text, a boolean, an integer, a list of integers. */
  function ReadText(form: FormData, name: string): Option<string>
  {
    match FirstNamed(form, name)
    case Some(StringValue(text)) => Some(text)
    case _ => None
  }

  function ReadFlag(form: FormData, name: string): Option<bool>
  {
    match ReadText(form, name)
    case Some(text) => ParseBool(text)
    case None => None
  }

  function ReadNumber(form: FormData, name: string): Option<int>
  {
    match ReadText(form, name)
    case Some(text) => ParseInt(text)
    case None => None
  }

  function ReadNumbers(form: FormData, name: string): Option<seq<int>>
  {
    match ReadText(form, name)
    case Some(text) => ParseIntArray(text)
    case None => None
  }

  /** Each kind of field is read back as what was given, or as absent. */
  lemma ReadTextBack(form: FormData, name: string, c: bool, t: string)
    requires FirstNamed(form, name) == TextIf(c, t)
    ensures ReadText(form, name) == if c then Some(t) else None
  {
  }

  lemma ReadNumberBack(form: FormData, name: string, c: bool, n: int)
    requires FirstNamed(form, name) == NumberIf(c, n)
    ensures ReadNumber(form, name) == if c then Some(n) else None
  {
    IntToStringRoundTrip(n);
  }

  lemma ReadNumbersBack(form: FormData, name: string, c: bool, xs: seq<int>)
    requires FirstNamed(form, name) == NumbersIf(c, xs)
    ensures ReadNumbers(form, name) == if c then Some(xs) else None
  {
    IntArrayRoundTrip(xs);
  }

  lemma ReadFlagBack(form: FormData, name: string, f: Option<bool>)
    requires FirstNamed(form, name) == FlagField(f)
    ensures ReadFlag(form, name) == f
  {
    BoolToStringRoundTrip(f.GetOr(false));
  }

  /** `FormData.getAll(name)` for file fields. */
  function FilesNamed(form: FormData, name: string): seq<File>
  {
    if form == [] then []
    else
      var first := if form[0].0 == name && form[0].1.FileValue? then [form[0].1.file] else [];
      first + FilesNamed(form[1..], name)
  }

  // ----- progress -----

  /**
   * `Math.round((loaded * 100) / total)` for non-negative integers: the
   * percentage rounded half up, which integer division computes exactly.
   */
  function Progress(loaded: nat, total: nat): (percent: nat)
    requires total > 0
    ensures 2 * total * percent <= 200 * loaded + total < 2 * total * (percent + 1)
    ensures loaded <= total ==> percent <= 100
    ensures loaded == total ==> percent == 100
    ensures loaded == 0 ==> percent == 0
  {
    var p := (200 * loaded + total) / (2 * total);
    RoundedBounds(loaded, total, p);
    p
  }

  lemma RoundedBounds(loaded: nat, total: nat, p: nat)
    requires total > 0 && p == (200 * loaded + total) / (2 * total)
    ensures 2 * total * p <= 200 * loaded + total < 2 * total * (p + 1)
    ensures loaded <= total ==> p <= 100
    ensures loaded == total ==> p == 100
    ensures loaded == 0 ==> p == 0
  {
    var d := 2 * total;
    var n := 200 * loaded + total;
    assert d * p <= n < d * p + d;
    assert d * (p + 1) == d * p + d;
    if loaded <= total {
      assert n < d * 101;
      if p >= 101 {
        MulMonotone(d, 101, p);
      }
    }
    if loaded == total {
      assert d * 100 <= n < d * 101;
      if p < 100 {
        MulMonotone(d, p + 1, 100);
      }
    }
    if loaded == 0 && p >= 1 {
      MulMonotone(d, 1, p);
    }
  }

  lemma {:induction false} MulMonotone(d: nat, p: nat, q: nat)
    requires p <= q
    ensures d * p <= d * q
    decreases q - p
  {
    if p < q {
      MulMonotone(d, p, q - 1);
      assert d * q == d * (q - 1) + d;
    }
  }

  /** More bytes sent never lowers the percentage. */
  lemma ProgressMonotone(a: nat, b: nat, total: nat)
    requires total > 0 && a <= b
    ensures Progress(a, total) <= Progress(b, total)
  {
    var pa := Progress(a, total);
    var pb := Progress(b, total);
    if pa > pb {
      MulMonotone(2 * total, pb + 1, pa);
    }
  }

  /** One `onUploadProgress` event; a `total` of 0 stands for an unknown total. */
  datatype ProgressEvent = ProgressEvent(loaded: nat, total: nat)

  /** The percentages handed to `onProgress`: one per event whose total is known. */
  function ProgressReports(events: seq<ProgressEvent>): (reports: seq<nat>)
    ensures |reports| <= |events|
    ensures (forall i :: 0 <= i < |events| ==> events[i].total == 0) ==> reports == []
    ensures (forall i :: 0 <= i < |events| ==> events[i].total > 0) ==> |reports| == |events|
    ensures forall r :: r in reports ==>
      exists i :: 0 <= i < |events| && events[i].total > 0 && r == Progress(events[i].loaded, events[i].total)
  {
    if events == [] then []
    else
      var e := events[0];
      (if e.total > 0 then [Progress(e.loaded, e.total)] else []) + ProgressReports(events[1..])
  }

  /** The reports of two runs of events, one after the other, are the first run's followed by the second's. */
  lemma {:induction false} ProgressReportsConcat(first: seq<ProgressEvent>, second: seq<ProgressEvent>)
    ensures ProgressReports(first + second) == ProgressReports(first) + ProgressReports(second)
    decreases |first|
  {
    if first != [] {
      var e := first[0];
      var head := if e.total > 0 then [Progress(e.loaded, e.total)] else [];
      assert (first + second)[0] == e;
      assert (first + second)[1..] == first[1..] + second;
      ProgressReportsConcat(first[1..], second);
      assert ProgressReports(first + second) == head + ProgressReports(first[1..] + second);
      assert ProgressReports(first) == head + ProgressReports(first[1..]);
    } else {
      assert first + second == second;
    }
  }

  /** One event reports its percentage exactly when its total is known. */
  lemma ProgressReportOfOne(e: ProgressEvent)
    ensures ProgressReports([e]) == if e.total > 0 then [Progress(e.loaded, e.total)] else []
  {
    assert [e][1..] == [];
  }

  /** Events of one upload, with a known total and a growing count of bytes sent. */
  predicate SteadyUpload(events: seq<ProgressEvent>, total: nat) {
    && total > 0
    && (forall i :: 0 <= i < |events| ==> events[i].total == total && events[i].loaded <= total)
    && (forall i, j :: 0 <= i < j < |events| ==> events[i].loaded <= events[j].loaded)
  }

  /** Such an upload reports one rising percentage per event, each between 0 and 100. */
  lemma {:induction false} SteadyUploadReports(events: seq<ProgressEvent>, total: nat)
    requires SteadyUpload(events, total)
    ensures |ProgressReports(events)| == |events|
    ensures forall i :: 0 <= i < |events| ==> ProgressReports(events)[i] == Progress(events[i].loaded, total)
    ensures forall i :: 0 <= i < |events| ==> ProgressReports(events)[i] <= 100
    ensures forall i, j :: 0 <= i < j < |events| ==> ProgressReports(events)[i] <= ProgressReports(events)[j]
    decreases |events|
  {
    if events != [] {
      var rest := events[1..];
      assert SteadyUpload(rest, total) by {
        forall i, j | 0 <= i < j < |rest| ensures rest[i].loaded <= rest[j].loaded {
          assert rest[i] == events[i + 1] && rest[j] == events[j + 1];
        }
      }
      SteadyUploadReports(rest, total);
      var reports := ProgressReports(events);
      assert reports == [Progress(events[0].loaded, total)] + ProgressReports(rest);
      forall i, j | 0 <= i < j < |events| ensures reports[i] <= reports[j] {
        ProgressMonotone(events[i].loaded, events[j].loaded, total);
      }
    }
  }

  // ----- envelopes -----

  /**
   * What a request can end in: the response body, or a rejection carrying the
   * `error` property of what was thrown (None when it has none).
   */
  datatype Outcome = Delivered(data: Json) | Rejected(error: Option<string>)

  /** What the transport reports for a request. */
  datatype Transfer = Transfer(events: seq<ProgressEvent>, outcome: Outcome)

  datatype ApiResponse = ApiResponse(success: bool, data: Option<Json>, error: Option<string>)

  /** The response interceptor: the server's `error` text, or its own fallback. */
  function Intercepted(serverError: Option<string>): (rejection: Outcome)
    ensures rejection.Rejected? && TruthyText(rejection.error)
    ensures TruthyText(serverError) ==> rejection.error == serverError
    ensures !TruthyText(serverError) ==> rejection.error == Some("Unknown error occurred")
  {
    Rejected(Some(if TruthyText(serverError) then serverError.value else "Unknown error occurred"))
  }

  /** The `try`/`catch` of `uploadFile` and `checkSplitStatus`, with the caller's fallback message. */
  function Envelope(outcome: Outcome, fallback: string): (response: ApiResponse)
    requires fallback != ""
    ensures response.success <==> outcome.Delivered?
    ensures outcome.Delivered? ==> response.data == Some(outcome.data) && response.error == None
    ensures outcome.Rejected? ==> response.data == None && TruthyText(response.error)
    ensures outcome.Rejected? && TruthyText(outcome.error) ==> response.error == outcome.error
    ensures outcome.Rejected? && !TruthyText(outcome.error) ==> response.error == Some(fallback)
  {
    match outcome
    case Delivered(data) => ApiResponse(true, Some(data), None)
    case Rejected(error) => ApiResponse(false, None, Some(if TruthyText(error) then error.value else fallback))
  }

  /** What `uploadFile` resolves to, and the percentages it reported on the way. */
  datatype Upload = Upload(response: ApiResponse, reports: seq<nat>)

  /** `uploadFile(endpoint, formData, { onProgress })`: it never rejects. */
  function UploadFile(send: Request -> Transfer, request: Request, onProgress: bool): (upload: Upload)
    ensures var transfer := send(request);
      && upload.response == Envelope(transfer.outcome, "Something went wrong")
      && upload.reports == (if onProgress then ProgressReports(transfer.events) else [])
  {
    var transfer := send(request);
    Upload(Envelope(transfer.outcome, "Something went wrong"), if onProgress then ProgressReports(transfer.events) else [])
  }

  /**
   * Every HTTP failure passes the interceptor first, which always sets a
   * message, so the `'Something went wrong'` fallback only shows for a
   * rejection that did not come from the interceptor.
   */
  lemma InterceptedFailureMessage(serverError: Option<string>)
    ensures Envelope(Intercepted(serverError), "Something went wrong").error ==
      Some(if TruthyText(serverError) then serverError.value else "Unknown error occurred")
    ensures Envelope(Rejected(None), "Something went wrong").error == Some("Something went wrong")
  {
  }

  /** The job-status route; the id is put in the query string as it is. */
  function SplitStatusPath(jobId: string): (path: string)
    ensures |path| == 21 + |jobId|
    ensures path[..21] == "/pdf/split/status?id=" && path[21..] == jobId
  {
    "/pdf/split/status?id=" + jobId
  }

  /** `checkSplitStatus(jobId)`, with the GET as a parameter. */
  function CheckSplitStatus(get: string -> Outcome, jobId: string): (response: ApiResponse)
    ensures response == Envelope(get(SplitStatusPath(jobId)), "Failed to check job status")
    ensures !response.success ==> TruthyText(response.error)
  {
    Envelope(get(SplitStatusPath(jobId)), "Failed to check job status")
  }

  /** The two envelopes differ only in the fallback message. */
  lemma EnvelopesDiffer(outcome: Outcome)
    ensures outcome.Delivered? || TruthyText(outcome.error) ==>
      Envelope(outcome, "Something went wrong") == Envelope(outcome, "Failed to check job status")
    ensures outcome == Rejected(Some("")) ==>
      Envelope(outcome, "Something went wrong").error == Some("Something went wrong")
      && Envelope(outcome, "Failed to check job status").error == Some("Failed to check job status")
  {
  }

  // ----- request builders -----

  /** The options `addPageNumbers` passes through, and their `toString`. */
  datatype OptionValue = TextOption(text: string) | NumberOption(number: int) | FlagOption(flag: bool)

  function OptionText(value: OptionValue): string
  {
    match value
    case TextOption(text) => text
    case NumberOption(number) => IntToString(number)
    case FlagOption(flag) => BoolToString(flag)
  }

  /** `Object.entries(options)` as form entries: an undefined option is skipped. */
  function OptionEntries(options: seq<(string, Option<OptionValue>)>): (entries: seq<(string, Option<FormValue>)>)
    ensures |entries| == |options|
    ensures forall i :: 0 <= i < |options| ==> entries[i].0 == options[i].0
    ensures forall i :: 0 <= i < |options| ==>
      entries[i].1 == (if options[i].1.Some? then Some(StringValue(OptionText(options[i].1.value))) else None)
  {
    seq(|options|, i requires 0 <= i < |options| =>
      (options[i].0, if options[i].1.Some? then Some(StringValue(OptionText(options[i].1.value))) else None))
  }

  datatype Permissions = Permissions(allowPrinting: Option<bool>, allowCopying: Option<bool>, allowEditing: Option<bool>)

  /** The options `addWatermark` reads. */
  datatype WatermarkOptions = WatermarkOptions(
    text: Option<string>, watermarkImage: Option<File>, position: Option<string>,
    opacity: Option<int>, rotation: Option<int>, scale: Option<int>, textColor: Option<string>,
    fontSize: Option<int>, fontFamily: Option<string>, pages: Option<string>)

  /** The text options travel only with a text watermark that has text. */
  predicate TextWatermark(watermarkType: string, o: WatermarkOptions) {
    watermarkType == "text" && TruthyText(o.text)
  }

  /** The image options travel only with an image watermark that has an image. */
  predicate ImageWatermark(watermarkType: string, o: WatermarkOptions) {
    watermarkType == "image" && o.watermarkImage.Some?
  }

  /** The three blocks of `addWatermark`: the text options, the image options, the common ones. */
  function WatermarkTextEntries(watermarkType: string, o: WatermarkOptions): seq<(string, Option<FormValue>)>
  {
    var text := TextWatermark(watermarkType, o);
    [("text", TextIf(text, o.text.GetOr(""))),
     ("textColor", TextIf(text && TruthyText(o.textColor), o.textColor.GetOr(""))),
     ("fontSize", NumberIf(text && TruthyNumber(o.fontSize), o.fontSize.GetOr(0))),
     ("fontFamily", TextIf(text && TruthyText(o.fontFamily), o.fontFamily.GetOr("")))]
  }

  function WatermarkImageEntries(watermarkType: string, o: WatermarkOptions): seq<(string, Option<FormValue>)>
  {
    var image := ImageWatermark(watermarkType, o);
    [("watermarkImage", if image then Some(FileValue(o.watermarkImage.value)) else None),
     ("scale", NumberIf(image && TruthyNumber(o.scale), o.scale.GetOr(0)))]
  }

  function WatermarkCommonEntries(o: WatermarkOptions): seq<(string, Option<FormValue>)>
  {
    [("position", TextIf(TruthyText(o.position), o.position.GetOr(""))),
     ("opacity", NumberIf(TruthyNumber(o.opacity), o.opacity.GetOr(0))),
     ("rotation", NumberIf(TruthyNumber(o.rotation), o.rotation.GetOr(0))),
     ("pages", TextIf(TruthyText(o.pages), o.pages.GetOr("")))]
  }

  /** The whole watermark form. */
  function WatermarkForm(file: File, watermarkType: string, o: WatermarkOptions): FormData
  {
    [("file", FileValue(file)), ("watermarkType", StringValue(watermarkType))]
      + Fields(WatermarkTextEntries(watermarkType, o))
      + Fields(WatermarkImageEntries(watermarkType, o))
      + Fields(WatermarkCommonEntries(o))
  }

  function ConvertEntries(file: File, inputFormat: string, outputFormat: string,
                          ocr: Option<bool>, quality: Option<int>, password: Option<string>): seq<(string, Option<FormValue>)>
  {
    [("file", Some(FileValue(file))), ("inputFormat", TextIf(true, inputFormat)), ("outputFormat", TextIf(true, outputFormat)),
     ("ocr", FlagField(ocr)), ("quality", NumberIf(quality.Some?, quality.GetOr(0))),
     ("password", TextIf(TruthyText(password), password.GetOr("")))]
  }

  /** Each option `convertFile` appends is read back from the form as it was given. */
  lemma ConvertReadBack(file: File, inputFormat: string, outputFormat: string,
                        ocr: Option<bool>, quality: Option<int>, password: Option<string>)
    ensures var form := Fields(ConvertEntries(file, inputFormat, outputFormat, ocr, quality, password));
      && FirstNamed(form, "file") == Some(FileValue(file))
      && ReadText(form, "inputFormat") == Some(inputFormat)
      && ReadText(form, "outputFormat") == Some(outputFormat)
      && ReadFlag(form, "ocr") == ocr
      && ReadNumber(form, "quality") == quality
      && ReadText(form, "password") == if TruthyText(password) then password else None
  {
    var entries := ConvertEntries(file, inputFormat, outputFormat, ocr, quality, password);
    var form := Fields(entries);
    FirstNamedOfFields(entries, 0);
    FirstNamedOfFields(entries, 1);
    FirstNamedOfFields(entries, 2);
    FirstNamedOfFields(entries, 3);
    FirstNamedOfFields(entries, 4);
    FirstNamedOfFields(entries, 5);
    ReadTextBack(form, "inputFormat", true, inputFormat);
    ReadTextBack(form, "outputFormat", true, outputFormat);
    ReadFlagBack(form, "ocr", ocr);
    ReadNumberBack(form, "quality", quality.Some?, quality.GetOr(0));
    ReadTextBack(form, "password", TruthyText(password), password.GetOr(""));
  }

  function CompressEntries(file: File, quality: string): seq<(string, Option<FormValue>)>
  {
    [("file", Some(FileValue(file))), ("quality", TextIf(true, quality))]
  }

  /** `mergeFiles` sends the order only when it has one entry per file. */
  predicate OrderSent(files: seq<File>, order: Option<seq<int>>) {
    order.Some? && |order.value| == |files|
  }

  /** One field named `name` per file, in order, as a `forEach` of `append` gives them. */
  function FileFields(name: string, files: seq<File>): (form: FormData)
    ensures |form| == |files|
    ensures forall i :: 0 <= i < |files| ==> form[i] == (name, FileValue(files[i]))
  {
    seq(|files|, i requires 0 <= i < |files| => (name, FileValue(files[i])))
  }

  function SplitEntries(file: File, splitMethod: string, pageRanges: Option<string>, everyNPages: Option<int>)
    : seq<(string, Option<FormValue>)>
  {
    [("file", Some(FileValue(file))), ("splitMethod", TextIf(true, splitMethod)),
     ("pageRanges", TextIf(splitMethod == "range" && TruthyText(pageRanges), pageRanges.GetOr(""))),
     ("everyNPages", NumberIf(splitMethod == "every" && TruthyNumber(everyNPages), everyNPages.GetOr(0)))]
  }

  function RotateEntries(file: File, angle: int, pages: Option<seq<int>>): seq<(string, Option<FormValue>)>
  {
    [("file", Some(FileValue(file))), ("angle", NumberIf(true, angle)),
     ("pages", NumbersIf(pages.Some? && |pages.value| > 0, pages.GetOr([])))]
  }

  /** The permissions given, each undefined when no permissions object is passed. */
  function Granted(permissions: Option<Permissions>): Permissions
  {
    permissions.GetOr(Permissions(None, None, None))
  }

  function ProtectEntries(file: File, password: string, permissions: Option<Permissions>)
    : seq<(string, Option<FormValue>)>
  {
    var granted := Granted(permissions);
    [("file", Some(FileValue(file))), ("password", TextIf(true, password)),
     ("allowPrinting", FlagField(granted.allowPrinting)),
     ("allowCopying", FlagField(granted.allowCopying)),
     ("allowEditing", FlagField(granted.allowEditing))]
  }

  function UnlockEntries(file: File, password: Option<string>): seq<(string, Option<FormValue>)>
  {
    [("file", Some(FileValue(file))), ("password", TextIf(TruthyText(password), password.GetOr("")))]
  }

  function SignEntries(file: File, elements: Json, pages: Json, performOcr: Option<bool>)
    : seq<(string, Option<FormValue>)>
  {
    [("file", Some(FileValue(file))), ("elements", TextIf(true, Stringify(elements))),
     ("pages", TextIf(true, Stringify(pages))), ("performOcr", FlagField(performOcr))]
  }

  /** A builder whose second field is one required text. */
  function FileAndText(file: File, name: string, text: string): seq<(string, Option<FormValue>)>
  {
    [("file", Some(FileValue(file))), (name, TextIf(true, text))]
  }

  function OcrEntries(file: File, language: Option<string>, outputFormat: Option<string>)
    : seq<(string, Option<FormValue>)>
  {
    [("file", Some(FileValue(file))), ("language", TextIf(true, language.GetOr("eng"))),
     ("outputFormat", TextIf(true, outputFormat.GetOr("searchablePdf")))]
  }

  class ApiClient {
    const apiKey: string
    const baseUrl: string

    /** The key and base URL come from the environment, with their defaults. */
    constructor(envApiKey: Option<string>, envApiUrl: Option<string>)
      ensures apiKey == (if TruthyText(envApiKey) then envApiKey.value else "")
      ensures baseUrl == (if TruthyText(envApiUrl) then envApiUrl.value else "https://scanpro.cc/api")
    {
      apiKey := if TruthyText(envApiKey) then envApiKey.value else "";
      baseUrl := if TruthyText(envApiUrl) then envApiUrl.value else "https://scanpro.cc/api";
    }

    /** The headers every request carries. */
    function Headers(): (headers: seq<(string, string)>)
      ensures ("x-api-key", apiKey) in headers && ("Content-Type", "multipart/form-data") in headers
    {
      [("Content-Type", "multipart/form-data"), ("x-api-key", apiKey)]
    }

    method ConvertFile(file: File, inputFormat: string, outputFormat: string,
                       ocr: Option<bool>, quality: Option<int>, password: Option<string>)
      returns (request: Request)
      ensures request == Request("/convert", Fields(ConvertEntries(file, inputFormat, outputFormat, ocr, quality, password)))
      ensures FirstNamed(request.form, "file") == Some(FileValue(file))
      ensures ReadText(request.form, "inputFormat") == Some(inputFormat)
      ensures ReadText(request.form, "outputFormat") == Some(outputFormat)
      ensures ReadFlag(request.form, "ocr") == ocr
      ensures ReadNumber(request.form, "quality") == quality
      ensures ReadText(request.form, "password") == if TruthyText(password) then password else None
    {
      var entries := ConvertEntries(file, inputFormat, outputFormat, ocr, quality, password);
      var form := AppendDefined([], entries);
      assert [] + Fields(entries) == Fields(entries);
      ConvertReadBack(file, inputFormat, outputFormat, ocr, quality, password);
      request := Request("/convert", form);
    }

    method CompressFile(file: File, quality: string) returns (request: Request)
      ensures request == Request("/compress", Fields(CompressEntries(file, quality)))
      ensures FirstNamed(request.form, "file") == Some(FileValue(file))
      ensures ReadText(request.form, "quality") == Some(quality)
    {
      var entries := CompressEntries(file, quality);
      var form := AppendDefined([], entries);
      assert [] + Fields(entries) == Fields(entries);
      FirstNamedOfFields(entries, 0);
      FirstNamedOfFields(entries, 1);
      ReadTextBack(form, "quality", true, quality);
      request := Request("/compress", form);
    }

    /** One `files` field per file, in order, then the order list when it has one entry per file. */
    method MergeFiles(files: seq<File>, order: Option<seq<int>>) returns (request: Request)
      ensures request.endpoint == "/merge"
      ensures request.form == FileFields("files", files)
        + Fields([("order", NumbersIf(OrderSent(files, order), order.GetOr([])))])
      ensures FilesNamed(request.form, "files") == files
      ensures ReadNumbers(request.form, "order") == if OrderSent(files, order) then order else None
    {
      var form: FormData := [];
      for i := 0 to |files|
        invariant form == FileFields("files", files[..i])
      {
        assert FileFields("files", files[..i + 1]) == form + [("files", FileValue(files[i]))];
        form := form + [("files", FileValue(files[i]))];
      }
      assert files[..|files|] == files;
      var entries := [("order", NumbersIf(OrderSent(files, order), order.GetOr([])))];
      var fileFields := form;
      form := AppendDefined(form, entries);
      FirstNamedOfDefined(fileFields, entries, 0);
      ReadNumbersBack(form, "order", OrderSent(files, order), order.GetOr([]));
      FilesNamedAppend(fileFields, Fields(entries), "files");
      FilesOfFileFields(files);
      assert Fields(entries) == Field(entries[0]) + Fields([]);
      request := Request("/merge", form);
    }

    method SplitFile(file: File, splitMethod: string, pageRanges: Option<string>, everyNPages: Option<int>)
      returns (request: Request)
      ensures request == Request("/pdf/split", Fields(SplitEntries(file, splitMethod, pageRanges, everyNPages)))
      ensures FirstNamed(request.form, "file") == Some(FileValue(file))
      ensures ReadText(request.form, "splitMethod") == Some(splitMethod)
      ensures ReadText(request.form, "pageRanges") ==
        if splitMethod == "range" && TruthyText(pageRanges) then pageRanges else None
      ensures ReadNumber(request.form, "everyNPages") ==
        if splitMethod == "every" && TruthyNumber(everyNPages) then everyNPages else None
    {
      var entries := SplitEntries(file, splitMethod, pageRanges, everyNPages);
      var form := AppendDefined([], entries);
      assert [] + Fields(entries) == Fields(entries);
      FirstNamedOfFields(entries, 0);
      FirstNamedOfFields(entries, 1);
      FirstNamedOfFields(entries, 2);
      FirstNamedOfFields(entries, 3);
      ReadTextBack(form, "splitMethod", true, splitMethod);
      ReadTextBack(form, "pageRanges", splitMethod == "range" && TruthyText(pageRanges), pageRanges.GetOr(""));
      ReadNumberBack(form, "everyNPages", splitMethod == "every" && TruthyNumber(everyNPages), everyNPages.GetOr(0));
      request := Request("/pdf/split", form);
    }

    method RotatePdf(file: File, angle: int, pages: Option<seq<int>>) returns (request: Request)
      ensures request == Request("/rotate", Fields(RotateEntries(file, angle, pages)))
      ensures FirstNamed(request.form, "file") == Some(FileValue(file))
      ensures ReadNumber(request.form, "angle") == Some(angle)
      ensures ReadNumbers(request.form, "pages") == if pages.Some? && |pages.value| > 0 then pages else None
    {
      var entries := RotateEntries(file, angle, pages);
      var form := AppendDefined([], entries);
      assert [] + Fields(entries) == Fields(entries);
      FirstNamedOfFields(entries, 0);
      FirstNamedOfFields(entries, 1);
      FirstNamedOfFields(entries, 2);
      ReadNumberBack(form, "angle", true, angle);
      ReadNumbersBack(form, "pages", pages.Some? && |pages.value| > 0, pages.GetOr([]));
      request := Request("/rotate", form);
    }

    /**
     * The text options travel only with a text watermark that has text, the
     * image options only with an image watermark that has an image; the rest
     * whenever they are truthy.
     */
    method AddWatermark(file: File, watermarkType: string, options: WatermarkOptions) returns (request: Request)
      ensures request == Request("/pdf/watermark", WatermarkForm(file, watermarkType, options))
      ensures FirstNamed(request.form, "file") == Some(FileValue(file))
      ensures ReadText(request.form, "watermarkType") == Some(watermarkType)
      ensures WatermarkTextReadBack(request.form, watermarkType, options)
      ensures WatermarkImageReadBack(request.form, watermarkType, options)
      ensures WatermarkCommonReadBack(request.form, options)
    {
      var base := [("file", FileValue(file)), ("watermarkType", StringValue(watermarkType))];
      var withText := AppendDefined(base, WatermarkTextEntries(watermarkType, options));
      var withImage := AppendDefined(withText, WatermarkImageEntries(watermarkType, options));
      var form := AppendDefined(withImage, WatermarkCommonEntries(options));
      FirstNamedOfBase(base, Fields(WatermarkTextEntries(watermarkType, options)), "file");
      FirstNamedOfBase(withText, Fields(WatermarkImageEntries(watermarkType, options)), "file");
      FirstNamedOfBase(withImage, Fields(WatermarkCommonEntries(options)), "file");
      FirstNamedOfBase(base, Fields(WatermarkTextEntries(watermarkType, options)), "watermarkType");
      FirstNamedOfBase(withText, Fields(WatermarkImageEntries(watermarkType, options)), "watermarkType");
      FirstNamedOfBase(withImage, Fields(WatermarkCommonEntries(options)), "watermarkType");
      var textFields := Fields(WatermarkTextEntries(watermarkType, options));
      var imageFields := Fields(WatermarkImageEntries(watermarkType, options));
      var commonFields := Fields(WatermarkCommonEntries(options));
      WatermarkBlocksSeparate(file, watermarkType, options);
      MissingAppend(imageFields, commonFields, TextNames);
      Regroup(base, textFields, imageFields, commonFields);
      WatermarkTextFields(base, imageFields + commonFields, watermarkType, options);
      MissingAppend(base, textFields, ImageNames);
      WatermarkImageFields(withText, commonFields, watermarkType, options);
      MissingAppend(base, textFields, CommonNames);
      MissingAppend(withText, imageFields, CommonNames);
      WatermarkCommonFields(withImage, options);
      request := Request("/pdf/watermark", form);
    }

    method ProtectPdf(file: File, password: string, permissions: Option<Permissions>) returns (request: Request)
      ensures request == Request("/pdf/protect", Fields(ProtectEntries(file, password, permissions)))
      ensures FirstNamed(request.form, "file") == Some(FileValue(file))
      ensures ReadText(request.form, "password") == Some(password)
      ensures ReadFlag(request.form, "allowPrinting") == Granted(permissions).allowPrinting
      ensures ReadFlag(request.form, "allowCopying") == Granted(permissions).allowCopying
      ensures ReadFlag(request.form, "allowEditing") == Granted(permissions).allowEditing
    {
      var entries := ProtectEntries(file, password, permissions);
      var form := AppendDefined([], entries);
      assert [] + Fields(entries) == Fields(entries);
      FirstNamedOfFields(entries, 0);
      FirstNamedOfFields(entries, 1);
      FirstNamedOfFields(entries, 2);
      FirstNamedOfFields(entries, 3);
      FirstNamedOfFields(entries, 4);
      ReadTextBack(form, "password", true, password);
      ReadFlagBack(form, "allowPrinting", Granted(permissions).allowPrinting);
      ReadFlagBack(form, "allowCopying", Granted(permissions).allowCopying);
      ReadFlagBack(form, "allowEditing", Granted(permissions).allowEditing);
      request := Request("/pdf/protect", form);
    }

    method UnlockPdf(file: File, password: Option<string>) returns (request: Request)
      ensures request == Request("/pdf/unlock", Fields(UnlockEntries(file, password)))
      ensures FirstNamed(request.form, "file") == Some(FileValue(file))
      ensures ReadText(request.form, "password") == if TruthyText(password) then password else None
    {
      var entries := UnlockEntries(file, password);
      var form := AppendDefined([], entries);
      assert [] + Fields(entries) == Fields(entries);
      FirstNamedOfFields(entries, 0);
      FirstNamedOfFields(entries, 1);
      ReadTextBack(form, "password", TruthyText(password), password.GetOr(""));
      request := Request("/pdf/unlock", form);
    }

    method SignPdf(file: File, elements: Json, pages: Json, performOcr: Option<bool>) returns (request: Request)
      ensures request == Request("/pdf/sign", Fields(SignEntries(file, elements, pages, performOcr)))
      ensures FirstNamed(request.form, "file") == Some(FileValue(file))
      ensures ReadText(request.form, "elements") == Some(Stringify(elements))
      ensures ReadText(request.form, "pages") == Some(Stringify(pages))
      ensures ReadFlag(request.form, "performOcr") == performOcr
    {
      var entries := SignEntries(file, elements, pages, performOcr);
      var form := AppendDefined([], entries);
      assert [] + Fields(entries) == Fields(entries);
      FirstNamedOfFields(entries, 0);
      FirstNamedOfFields(entries, 1);
      FirstNamedOfFields(entries, 2);
      FirstNamedOfFields(entries, 3);
      ReadTextBack(form, "elements", true, Stringify(elements));
      ReadTextBack(form, "pages", true, Stringify(pages));
      ReadFlagBack(form, "performOcr", performOcr);
      request := Request("/pdf/sign", form);
    }

    /** `language` and `outputFormat` default to `'eng'` and `'searchablePdf'` when not given. */
    method PerformOcr(file: File, language: Option<string>, outputFormat: Option<string>) returns (request: Request)
      ensures request == Request("/pdf/ocr", Fields(OcrEntries(file, language, outputFormat)))
      ensures FirstNamed(request.form, "file") == Some(FileValue(file))
      ensures ReadText(request.form, "language") == Some(language.GetOr("eng"))
      ensures ReadText(request.form, "outputFormat") == Some(outputFormat.GetOr("searchablePdf"))
    {
      var entries := OcrEntries(file, language, outputFormat);
      var form := AppendDefined([], entries);
      assert [] + Fields(entries) == Fields(entries);
      FirstNamedOfFields(entries, 0);
      FirstNamedOfFields(entries, 1);
      FirstNamedOfFields(entries, 2);
      ReadTextBack(form, "language", true, language.GetOr("eng"));
      ReadTextBack(form, "outputFormat", true, outputFormat.GetOr("searchablePdf"));
      request := Request("/pdf/ocr", form);
    }

    /** The file and one required text field, shared by `editPdf`, `redactPdf` and `repairPdf`. */
    method FileWithText(endpoint: string, file: File, name: string, text: string) returns (request: Request)
      requires name != "file"
      ensures request == Request(endpoint, Fields(FileAndText(file, name, text)))
      ensures FirstNamed(request.form, "file") == Some(FileValue(file))
      ensures ReadText(request.form, name) == Some(text)
    {
      var entries := FileAndText(file, name, text);
      var form := AppendDefined([], entries);
      assert [] + Fields(entries) == Fields(entries);
      FirstNamedOfFields(entries, 0);
      FirstNamedOfFields(entries, 1);
      ReadTextBack(form, name, true, text);
      request := Request(endpoint, form);
    }

    method EditPdf(file: File, edits: Json) returns (request: Request)
      ensures request == Request("/pdf/edit", Fields(FileAndText(file, "edits", Stringify(edits))))
      ensures FirstNamed(request.form, "file") == Some(FileValue(file))
      ensures ReadText(request.form, "edits") == Some(Stringify(edits))
    {
      request := FileWithText("/pdf/edit", file, "edits", Stringify(edits));
    }

    method RedactPdf(file: File, redactions: Json) returns (request: Request)
      ensures request == Request("/pdf/redact", Fields(FileAndText(file, "redactions", Stringify(redactions))))
      ensures FirstNamed(request.form, "file") == Some(FileValue(file))
      ensures ReadText(request.form, "redactions") == Some(Stringify(redactions))
    {
      request := FileWithText("/pdf/redact", file, "redactions", Stringify(redactions));
    }

    /** `repairMode` defaults to `'standard'` when not given. */
    method RepairPdf(file: File, repairMode: Option<string>) returns (request: Request)
      ensures request == Request("/pdf/repair", Fields(FileAndText(file, "repairMode", repairMode.GetOr("standard"))))
      ensures FirstNamed(request.form, "file") == Some(FileValue(file))
      ensures ReadText(request.form, "repairMode") == Some(repairMode.GetOr("standard"))
    {
      request := FileWithText("/pdf/repair", file, "repairMode", repairMode.GetOr("standard"));
    }

    /** Every defined option is appended under its own key, as its `toString`, in the options' order. */
    method AddPageNumbers(file: File, options: seq<(string, Option<OptionValue>)>) returns (request: Request)
      ensures request.endpoint == "/pdf/pagenumber"
      ensures request.form == [("file", FileValue(file))] + Fields(OptionEntries(options))
      ensures FirstNamed(request.form, "file") == Some(FileValue(file))
    {
      var form := AppendDefined([("file", FileValue(file))], OptionEntries(options));
      FirstNamedOfBase([("file", FileValue(file))], Fields(OptionEntries(options)), "file");
      request := Request("/pdf/pagenumber", form);
    }
  }

  /** What a receiver reads from the optional watermark fields: the text options, */
  ghost predicate WatermarkTextReadBack(form: FormData, watermarkType: string, o: WatermarkOptions) {
    var text := TextWatermark(watermarkType, o);
    && ReadText(form, "text") == (if text then o.text else None)
    && ReadText(form, "textColor") == (if text && TruthyText(o.textColor) then o.textColor else None)
    && ReadNumber(form, "fontSize") == (if text && TruthyNumber(o.fontSize) then o.fontSize else None)
    && ReadText(form, "fontFamily") == (if text && TruthyText(o.fontFamily) then o.fontFamily else None)
  }

  /** the image options, */
  ghost predicate WatermarkImageReadBack(form: FormData, watermarkType: string, o: WatermarkOptions) {
    var image := ImageWatermark(watermarkType, o);
    && FirstNamed(form, "watermarkImage") == (if image then Some(FileValue(o.watermarkImage.value)) else None)
    && ReadNumber(form, "scale") == (if image && TruthyNumber(o.scale) then o.scale else None)
  }

  /** and the options of both kinds. */
  ghost predicate WatermarkCommonReadBack(form: FormData, o: WatermarkOptions) {
    && ReadText(form, "position") == (if TruthyText(o.position) then o.position else None)
    && ReadNumber(form, "opacity") == (if TruthyNumber(o.opacity) then o.opacity else None)
    && ReadNumber(form, "rotation") == (if TruthyNumber(o.rotation) then o.rotation else None)
    && ReadText(form, "pages") == (if TruthyText(o.pages) then o.pages else None)
  }

  /** An entry of one block is read back when nothing before or after the block uses its name. */
  lemma FirstNamedInBlock(before: FormData, entries: seq<(string, Option<FormValue>)>, after: FormData, i: nat)
    requires i < |entries|
    requires FirstNamed(before, entries[i].0) == None && FirstNamed(after, entries[i].0) == None
    requires forall j :: 0 <= j < |entries| && j != i ==> entries[j].0 != entries[i].0
    ensures FirstNamed(before + Fields(entries) + after, entries[i].0) == entries[i].1
  {
    var name := entries[i].0;
    assert before + Fields(entries) + after == before + (Fields(entries) + after);
    FirstNamedAppend(before, Fields(entries) + after, name);
    FirstNamedAppend(Fields(entries), after, name);
    FirstNamedOfFields(entries, i);
  }

  lemma Regroup(a: FormData, b: FormData, c: FormData, d: FormData)
    ensures a + b + c + d == a + b + (c + d)
  {
  }

  /** None of `names` occurs in the form. */
  ghost predicate Missing(form: FormData, names: set<string>) {
    forall name :: name in names ==> FirstNamed(form, name) == None
  }

  lemma MissingAppend(a: FormData, b: FormData, names: set<string>)
    requires Missing(a, names) && Missing(b, names)
    ensures Missing(a + b, names)
  {
    forall name | name in names ensures FirstNamed(a + b, name) == None {
      FirstNamedAppend(a, b, name);
    }
  }

  lemma MissingFromFields(entries: seq<(string, Option<FormValue>)>, names: set<string>)
    requires forall j :: 0 <= j < |entries| ==> entries[j].0 !in names
    ensures Missing(Fields(entries), names)
  {
    forall name | name in names ensures FirstNamed(Fields(entries), name) == None {
      FieldsMissing(entries, name);
    }
  }

  const TextNames: set<string> := {"text", "textColor", "fontSize", "fontFamily"}
  const ImageNames: set<string> := {"watermarkImage", "scale"}
  const CommonNames: set<string> := {"position", "opacity", "rotation", "pages"}

  lemma WatermarkTextFields(before: FormData, after: FormData, watermarkType: string, o: WatermarkOptions)
    requires Missing(before, TextNames) && Missing(after, TextNames)
    ensures WatermarkTextReadBack(before + Fields(WatermarkTextEntries(watermarkType, o)) + after, watermarkType, o)
  {
    var entries := WatermarkTextEntries(watermarkType, o);
    var form := before + Fields(entries) + after;
    var text := TextWatermark(watermarkType, o);
    FirstNamedInBlock(before, entries, after, 0);
    ReadTextBack(form, "text", text, o.text.GetOr(""));
    FirstNamedInBlock(before, entries, after, 1);
    ReadTextBack(form, "textColor", text && TruthyText(o.textColor), o.textColor.GetOr(""));
    FirstNamedInBlock(before, entries, after, 2);
    ReadNumberBack(form, "fontSize", text && TruthyNumber(o.fontSize), o.fontSize.GetOr(0));
    FirstNamedInBlock(before, entries, after, 3);
    ReadTextBack(form, "fontFamily", text && TruthyText(o.fontFamily), o.fontFamily.GetOr(""));
  }

  lemma WatermarkImageFields(before: FormData, after: FormData, watermarkType: string, o: WatermarkOptions)
    requires Missing(before, ImageNames) && Missing(after, ImageNames)
    ensures WatermarkImageReadBack(before + Fields(WatermarkImageEntries(watermarkType, o)) + after, watermarkType, o)
  {
    var entries := WatermarkImageEntries(watermarkType, o);
    var form := before + Fields(entries) + after;
    var image := ImageWatermark(watermarkType, o);
    FirstNamedInBlock(before, entries, after, 0);
    FirstNamedInBlock(before, entries, after, 1);
    ReadNumberBack(form, "scale", image && TruthyNumber(o.scale), o.scale.GetOr(0));
  }

  lemma WatermarkCommonFields(before: FormData, o: WatermarkOptions)
    requires Missing(before, CommonNames)
    ensures WatermarkCommonReadBack(before + Fields(WatermarkCommonEntries(o)), o)
  {
    var entries := WatermarkCommonEntries(o);
    var form := before + Fields(entries);
    FirstNamedAfter(before, entries, 0);
    ReadTextBack(form, "position", TruthyText(o.position), o.position.GetOr(""));
    FirstNamedAfter(before, entries, 1);
    ReadNumberBack(form, "opacity", TruthyNumber(o.opacity), o.opacity.GetOr(0));
    FirstNamedAfter(before, entries, 2);
    ReadNumberBack(form, "rotation", TruthyNumber(o.rotation), o.rotation.GetOr(0));
    FirstNamedAfter(before, entries, 3);
    ReadTextBack(form, "pages", TruthyText(o.pages), o.pages.GetOr(""));
  }

  /** Each block's names occur nowhere else in the watermark form. */
  lemma WatermarkBlocksSeparate(file: File, watermarkType: string, o: WatermarkOptions)
    ensures Missing([("file", FileValue(file)), ("watermarkType", StringValue(watermarkType))], TextNames + ImageNames + CommonNames)
    ensures Missing(Fields(WatermarkTextEntries(watermarkType, o)), ImageNames + CommonNames)
    ensures Missing(Fields(WatermarkImageEntries(watermarkType, o)), TextNames + CommonNames)
    ensures Missing(Fields(WatermarkCommonEntries(o)), TextNames + ImageNames)
  {
    RequiredWatermarkFields(file, watermarkType);
    MissingFromFields(WatermarkTextEntries(watermarkType, o), ImageNames + CommonNames);
    MissingFromFields(WatermarkImageEntries(watermarkType, o), TextNames + CommonNames);
    MissingFromFields(WatermarkCommonEntries(o), TextNames + ImageNames);
  }

  lemma RequiredWatermarkFields(file: File, watermarkType: string)
    ensures Missing([("file", FileValue(file)), ("watermarkType", StringValue(watermarkType))], TextNames + ImageNames + CommonNames)
  {
    var base := [("file", FileValue(file)), ("watermarkType", StringValue(watermarkType))];
    forall name | name in TextNames + ImageNames + CommonNames ensures FirstNamed(base, name) == None {
      FirstNamedMissing(base, name);
    }
  }

  /**
   * A receiver reading an option of `addPageNumbers` whose key is used once and
   * is not `file` gets its `toString`, or nothing when it was undefined.
   */
  lemma PageNumberOptionReadBack(file: File, options: seq<(string, Option<OptionValue>)>, i: nat)
    requires i < |options| && options[i].0 != "file"
    requires forall j :: 0 <= j < |options| && j != i ==> options[j].0 != options[i].0
    ensures ReadText([("file", FileValue(file))] + Fields(OptionEntries(options)), options[i].0) ==
      if options[i].1.Some? then Some(OptionText(options[i].1.value)) else None
  {
    var entries := OptionEntries(options);
    FirstNamedOfDefined([("file", FileValue(file))], entries, i);
  }

  lemma {:induction false} FilesNamedAppend(a: FormData, b: FormData, name: string)
    ensures FilesNamed(a + b, name) == FilesNamed(a, name) + FilesNamed(b, name)
    decreases |a|
  {
    if a == [] {
      assert a + b == b;
    } else {
      assert (a + b)[1..] == a[1..] + b;
      FilesNamedAppend(a[1..], b, name);
    }
  }

  /** `getAll` on the merge fields gives the files back in order. */
  lemma {:induction false} FilesOfFileFields(files: seq<File>)
    ensures FilesNamed(FileFields("files", files), "files") == files
    decreases |files|
  {
    if files != [] {
      FilesOfFileFields(files[1..]);
      assert FileFields("files", files)[1..] == FileFields("files", files[1..]);
      assert [files[0]] + files[1..] == files;
    }
  }
}
