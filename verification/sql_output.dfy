/** The result handling of `DatabricksSqlOperator`: which results are
    returned, and which writer (if any) the last statement's rows go to. The
    writing itself is left out; only the branch taken is modelled. */
module DatabricksSqlOutput {
  import opened Wrappers
  import opened Strings

  /** The file writer chosen for the last statement's rows. */
  datatype Writer = CsvFile | JsonFile | JsonLinesFile

  datatype OutputError =
    | MissingOutputFormat
    | NoDescriptions          // `descriptions[-1]` on an empty list
    | NoResults               // `results[-1]` on an empty list
    | MissingDescription
    | UnsupportedOutputFormat(format: string)

  /** What `_process_output` returns, and the file it wrote on the way. */
  datatype Processed<D, R> = Processed(written: Option<Writer>, rows: seq<(Option<D>, R)>)

  /** `list(zip(a, b))`: pairs up to the shorter list. */
  function Zip<A, B>(a: seq<A>, b: seq<B>): (r: seq<(A, B)>)
    ensures |r| == if |a| < |b| then |a| else |b|
    ensures forall i :: 0 <= i < |r| ==> r[i] == (a[i], b[i])
  {
    if |a| == 0 || |b| == 0 then [] else [(a[0], b[0])] + Zip(a[1..], b[1..])
  }

  /** `_should_run_output_processing`. */
  function ShouldRunOutputProcessing(doXcomPush: bool, outputPath: Option<string>): bool
  {
    doXcomPush || Truthy(outputPath)
  }

  /** The writer for a format name, compared case-insensitively. */
  function WriterFor(format: string): (r: Option<Writer>)
    ensures r == Some(CsvFile) <==> Lower(format) == "csv"
    ensures r == Some(JsonFile) <==> Lower(format) == "json"
    ensures r == Some(JsonLinesFile) <==> Lower(format) == "jsonl"
    ensures r.None? <==> Lower(format) !in ["csv", "json", "jsonl"]
  {
    var f := Lower(format);
    if f == "csv" then Some(CsvFile)
    else if f == "json" then Some(JsonFile)
    else if f == "jsonl" then Some(JsonLinesFile)
    else None
  }

  /** Two names that agree up to case select the same writer. */
  lemma WriterForIgnoresCase(a: string, b: string)
    requires Upper(a) == Upper(b)
    ensures WriterFor(a) == WriterFor(b)
  {
    CaseFolding(a);
    CaseFolding(b);
  }

  /** `_process_output`: without an output path the statements' descriptions
      and results are returned paired up; with one, the last statement's rows
      go to the file writer of the output format, after which the same pairs
      are returned. */
  function ProcessOutput<D, R>(outputPath: Option<string>, outputFormat: string,
                               results: seq<R>, descriptions: seq<Option<D>>): (r: Result<Processed<D, R>, OutputError>)
    ensures r.Success? ==> r.value.rows == Zip(descriptions, results)
    ensures !Truthy(outputPath) <==> r == Success(Processed(None, Zip(descriptions, results)))
    ensures r.Success? && r.value.written.Some? ==> r.value.written == WriterFor(outputFormat)
    ensures Truthy(outputPath) ==>
      && (outputFormat == "" ==> r == Failure(MissingOutputFormat))
      && (outputFormat != "" && |descriptions| == 0 ==> r == Failure(NoDescriptions))
      && (outputFormat != "" && |descriptions| > 0 && |results| == 0 ==> r == Failure(NoResults))
      && (outputFormat != "" && |descriptions| > 0 && |results| > 0 && descriptions[|descriptions| - 1].None? ==>
            r == Failure(MissingDescription))
      && (outputFormat != "" && |descriptions| > 0 && |results| > 0 && descriptions[|descriptions| - 1].Some? ==>
            (r.Success? <==> WriterFor(outputFormat).Some?))
      && ((&& outputFormat != "" && |descriptions| > 0 && |results| > 0
           && descriptions[|descriptions| - 1].Some? && WriterFor(outputFormat).None?)
            ==> r == Failure(UnsupportedOutputFormat(outputFormat)))
    ensures r.Failure? && r.error.UnsupportedOutputFormat? ==> r.error.format == outputFormat
  {
    if !Truthy(outputPath) then Success(Processed(None, Zip(descriptions, results)))
    else if outputFormat == "" then Failure(MissingOutputFormat)
    else if |descriptions| == 0 then Failure(NoDescriptions)
    else if |results| == 0 then Failure(NoResults)
    else if descriptions[|descriptions| - 1].None? then Failure(MissingDescription)
    else
      match WriterFor(outputFormat)
      case None => Failure(UnsupportedOutputFormat(outputFormat))
      case Some(w) => Success(Processed(Some(w), Zip(descriptions, results)))
  }

  /** Processing is skipped only when it would change nothing: with results
      pushed it always runs, and without them it runs exactly when
      `_process_output` would do more than pair descriptions with results. */
  lemma OutputProcessingWhenNeeded<D, R>(outputPath: Option<string>, outputFormat: string,
                                         results: seq<R>, descriptions: seq<Option<D>>)
    ensures ShouldRunOutputProcessing(true, outputPath)
    ensures ShouldRunOutputProcessing(false, outputPath)
      <==> ProcessOutput(outputPath, outputFormat, results, descriptions) != Success(Processed(None, Zip(descriptions, results)))
  {
  }

  /** Only the last statement's description and results decide whether a
      file is written, which writer writes it, and which error is raised;
      when the earlier descriptions and results pair up one to one, they
      only put their pairs in front of the returned ones. */
  lemma OnlyLastStatementDecides<D, R>(outputPath: Option<string>, outputFormat: string,
                                                         r0: seq<R>, results: seq<R>,
                                                         d0: seq<Option<D>>, descriptions: seq<Option<D>>)
    requires |results| > 0 && |descriptions| > 0
    ensures var all := ProcessOutput(outputPath, outputFormat, r0 + results, d0 + descriptions);
            var last := ProcessOutput(outputPath, outputFormat, results, descriptions);
            && all.Success? == last.Success?
            && (all.Failure? ==> all.error == last.error)
            && (all.Success? ==> all.value.written == last.value.written)
            && (all.Success? && |d0| == |r0| ==> all.value.rows == Zip(d0, r0) + last.value.rows)
  {
    assert (d0 + descriptions)[|d0 + descriptions| - 1] == descriptions[|descriptions| - 1];
    EarlierPairsComeFirst(outputPath, outputFormat, r0, results, d0, descriptions);
  }

  lemma EarlierPairsComeFirst<D, R>(outputPath: Option<string>, outputFormat: string,
                                    r0: seq<R>, results: seq<R>,
                                    d0: seq<Option<D>>, descriptions: seq<Option<D>>)
    ensures var all := ProcessOutput(outputPath, outputFormat, r0 + results, d0 + descriptions);
            var last := ProcessOutput(outputPath, outputFormat, results, descriptions);
            all.Success? && last.Success? && |d0| == |r0| ==> all.value.rows == Zip(d0, r0) + last.value.rows
  {
    if |d0| == |r0| {
      ZipAppend(d0, descriptions, r0, results);
    }
  }

  /** Zipping lists of equal length and then zipping what follows them is
      zipping the concatenations. */
  lemma {:induction false} ZipAppend<A, B>(a0: seq<A>, a: seq<A>, b0: seq<B>, b: seq<B>)
    requires |a0| == |b0|
    ensures Zip(a0 + a, b0 + b) == Zip(a0, b0) + Zip(a, b)
    decreases |a0|
  {
    if |a0| == 0 {
      assert a0 + a == a && b0 + b == b;
    } else {
      assert (a0 + a)[1..] == a0[1..] + a;
      assert (b0 + b)[1..] == b0[1..] + b;
      ZipAppend(a0[1..], a, b0[1..], b);
    }
  }
}
