/** `SqlToSlackApiFileOperator`: the policy for an empty query result, the
    choice of file writer from the file name's format, and the choice of Slack
    upload method. The query, the file and the upload are left out; the
    outcome says which of them would happen. */
module SqlToSlack {
  import opened Wrappers
  import opened Strings

  /** The three accepted values of `action_on_empty_df`. */
  datatype EmptyDfAction = Send | Skip | Fail

  /** The spelling of each action in the operator's arguments. */
  function ActionName(a: EmptyDfAction): string
  {
    match a
    case Send => "send"
    case Skip => "skip"
    case Fail => "error"
  }

  datatype SlackError =
    | InvalidActionOnEmptyDf(given: Option<string>)
    | EmptyResult
    | UnexpectedFileFormat(format: string)

  /** `__init__`'s check of `action_on_empty_df`: a missing or empty value, or
      any other word than `send`, `skip` or `error`, is refused. */
  function ParseActionOnEmptyDf(value: Option<string>): (r: Result<EmptyDfAction, SlackError>)
    ensures r.Success? <==> value.Some? && value.value in ["send", "skip", "error"]
    ensures r.Success? ==> ActionName(r.value) == value.value
    ensures r.Failure? ==> r.error == InvalidActionOnEmptyDf(value)
  {
    if value.None? || value.value == "" then Failure(InvalidActionOnEmptyDf(value))
    else if value.value == "send" then Success(Send)
    else if value.value == "skip" then Success(Skip)
    else if value.value == "error" then Success(Fail)
    else Failure(InvalidActionOnEmptyDf(value))
  }

  /** Every action is accepted under its own name, so parsing and naming are
      inverse to each other. */
  lemma ActionNameRoundTrip(a: EmptyDfAction)
    ensures ParseActionOnEmptyDf(Some(ActionName(a))) == Success(a)
  {
  }

  /** The pandas writer used for the result. */
  datatype Writer = CsvWriter | JsonWriter | HtmlWriter

  /** The Slack hook method the file is uploaded with. */
  datatype UploadMethod = SendFile | SendFileV1ToV2

  /** `_method_resolver`: `v1` selects `send_file`, anything else the v2 path. */
  function MethodResolver(version: string): UploadMethod
  {
    if version == "v1" then SendFile else SendFileV1ToV2
  }

  /** The writer for the upper-cased format. */
  function WriterFor(format: string): (r: Option<Writer>)
    ensures r == Some(CsvWriter) <==> Upper(format) == "CSV"
    ensures r == Some(JsonWriter) <==> Upper(format) == "JSON"
    ensures r == Some(HtmlWriter) <==> Upper(format) == "HTML"
    ensures r.None? <==> Upper(format) !in ["CSV", "JSON", "HTML"]
  {
    var f := Upper(format);
    if f == "CSV" then Some(CsvWriter)
    else if f == "JSON" then Some(JsonWriter)
    else if f == "HTML" then Some(HtmlWriter)
    else None
  }

  /** How `execute` ends. */
  datatype Outcome =
    | Skipped
    | Failed(error: SlackError)
    | Uploaded(writer: Writer, via: UploadMethod)

  /** `execute`, given whether the query result is empty and the format parsed
      from the file name: the empty-result policy is applied first, then the
      writer is chosen (an unknown format fails before any upload), then the
      upload method. */
  function Execute(action: EmptyDfAction, isEmpty: bool, format: string, methodVersion: string): (r: Outcome)
    ensures r == Skipped <==> isEmpty && action == Skip
    ensures r == Failed(EmptyResult) <==> isEmpty && action == Fail
    ensures r.Failed? && r.error.UnexpectedFileFormat? <==> (!isEmpty || action == Send) && WriterFor(format).None?
    ensures r.Failed? && r.error.UnexpectedFileFormat? ==> r.error.format == Upper(format)
    ensures r.Uploaded? <==> (!isEmpty || action == Send) && WriterFor(format).Some?
    ensures r.Uploaded? ==> Some(r.writer) == WriterFor(format) && r.via == MethodResolver(methodVersion)
    ensures r.Uploaded? ==> (r.via == SendFile <==> methodVersion == "v1")
  {
    if isEmpty && action == Skip then Skipped
    else if isEmpty && action == Fail then Failed(EmptyResult)
    else
      assert !isEmpty || action == Send;
      match WriterFor(format)
      case None => Failed(UnexpectedFileFormat(Upper(format)))
      case Some(w) => Uploaded(w, MethodResolver(methodVersion))
  }

  /** A non-empty result is handled the same under every policy, and `send`
      handles an empty result like a non-empty one. */
  lemma PolicyOnlyMattersWhenEmpty(a: EmptyDfAction, b: EmptyDfAction, format: string, methodVersion: string)
    ensures Execute(a, false, format, methodVersion) == Execute(b, false, format, methodVersion)
    ensures Execute(Send, true, format, methodVersion) == Execute(a, false, format, methodVersion)
  {
  }

  /** The format name is compared without regard to case. */
  lemma ExecuteIgnoresFormatCase(action: EmptyDfAction, isEmpty: bool, format: string, methodVersion: string)
    ensures Execute(action, isEmpty, Lower(format), methodVersion) == Execute(action, isEmpty, format, methodVersion)
  {
    CaseFolding(format);
  }

  /** The method version decides only how the file is uploaded: the outcome
      is otherwise the same, and only `v1` tells apart from any other value. */
  lemma MethodVersionOnlyChoosesUpload(action: EmptyDfAction, isEmpty: bool, format: string, a: string, b: string)
    ensures Execute(action, isEmpty, format, a).Uploaded? == Execute(action, isEmpty, format, b).Uploaded?
    ensures !Execute(action, isEmpty, format, a).Uploaded? ==> Execute(action, isEmpty, format, a) == Execute(action, isEmpty, format, b)
    ensures Execute(action, isEmpty, format, a).Uploaded? ==>
      && Execute(action, isEmpty, format, a).writer == Execute(action, isEmpty, format, b).writer
      && (Execute(action, isEmpty, format, a).via == Execute(action, isEmpty, format, b).via <==> (a == "v1" <==> b == "v1"))
  {
  }
}
