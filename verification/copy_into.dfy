/** `DatabricksCopyIntoOperator`: validation of its configuration and the
    assembly of the `COPY INTO` statement it runs. The escaper of the
    Databricks SQL connector is kept abstract: it is a parameter, and nothing is
    assumed about what it returns. */
module CopyInto {
  import opened Wrappers
  import opened Strings
  import opened OrderedDict

  /** The file formats the operator accepts, spelled exactly as here. */
  const ApprovedFormats: seq<string> := ["CSV", "JSON", "AVRO", "ORC", "PARQUET", "TEXT", "BINARYFILE"]

  /** `ParamEscaper.escape_item`, applied to a string (`item`) and to the list
      of files (`items`). */
  datatype Escaper = Escaper(item: string -> string, items: seq<string> -> string)

  /** The `validate` argument: a `bool`, an `int`, `None`, or a value of any
      other type. A Python `bool` is also an `int`; the bool case is a
      constructor of its own because the operator checks it first. */
  datatype Validate = Unset | Flag(on: bool) | Rows(n: int) | OtherType

  datatype CopyIntoError =
    | BothFilesAndPattern
    | EmptyTableName
    | EmptyFileLocation
    | UnsupportedFileFormat(format: string)
    | NegativeValidateRows(rows: int)
    | BadValidateType

  /** The constructor's arguments that shape the statement. */
  datatype CopyIntoArgs = CopyIntoArgs(
    tableName: string,
    fileLocation: string,
    fileFormat: string,
    files: Option<seq<string>>,
    pattern: Option<string>,
    expressionList: Option<string>,
    credential: Option<Dict<string, string>>,
    storageCredential: Option<string>,
    encryption: Option<Dict<string, string>>,
    formatOptions: Option<Dict<string, string>>,
    forceCopy: Option<bool>,
    copyOptions: Option<Dict<string, string>>,
    validate: Validate)

  /** A constructed operator: the arguments it was built from, which passed
      validation, and the copy options with `force_copy` folded in. The
      statement reads the folded copy options, never `args.copyOptions`. */
  datatype CopyIntoOperator = CopyIntoOperator(args: CopyIntoArgs, copyOptions: Dict<string, string>)

  function BoolText(b: bool): string
  {
    if b then "true" else "false"
  }

  /** `copy_options or {}`. */
  function OrEmpty(d: Option<Dict<string, string>>): Dict<string, string>
  {
    d.GetOr([])
  }

  /** The copy options after `force_copy` is folded in: with a flag, the
      `force` entry holds "true" or "false" whatever the caller put there; no
      other entry changes, and the key order is kept. */
  function ForcedCopyOptions(copyOptions: Option<Dict<string, string>>, forceCopy: Option<bool>): (r: Dict<string, string>)
    ensures forceCopy.None? ==> r == OrEmpty(copyOptions)
    ensures forceCopy.Some? ==> Get(r, "force") == Some(BoolText(forceCopy.value))
    ensures forall k :: k != "force" ==> Get(r, k) == Get(OrEmpty(copyOptions), k)
  {
    match forceCopy
    case None => OrEmpty(copyOptions)
    case Some(b) =>
      PutGet(OrEmpty(copyOptions), "force", BoolText(b));
      Put(OrEmpty(copyOptions), "force", BoolText(b))
  }

  /** Folding `force_copy` in keeps the caller's keys, in order and unique,
      adding `force` at the end only when it was missing. */
  lemma ForcedCopyOptionsKeys(copyOptions: Option<Dict<string, string>>, forceCopy: Option<bool>)
    ensures Keys(OrEmpty(copyOptions)) <= Keys(ForcedCopyOptions(copyOptions, forceCopy))
    ensures UniqueKeys(OrEmpty(copyOptions)) ==> UniqueKeys(ForcedCopyOptions(copyOptions, forceCopy))
  {
    var base := OrEmpty(copyOptions);
    if forceCopy.Some? {
      var kv := ("force", BoolText(forceCopy.value));
      PutKeys(base, kv.0, kv.1);
      if kv.0 !in Keys(base) {
        assert Keys(base + [kv]) == Keys(base) + [kv.0];
      }
      if UniqueKeys(base) {
        PutUnique(base, kv.0, kv.1);
      }
    }
  }

  /** `__init__`: the checks run in this order and the first that fails raises. */
  function NewCopyInto(args: CopyIntoArgs): (r: Result<CopyIntoOperator, CopyIntoError>)
    ensures r.Success? <==>
      && !(args.files.Some? && args.pattern.Some?)
      && args.tableName != ""
      && args.fileLocation != ""
      && args.fileFormat in ApprovedFormats
    ensures args.files.Some? && args.pattern.Some? ==> r == Failure(BothFilesAndPattern)
    ensures !(args.files.Some? && args.pattern.Some?) && args.tableName == "" ==> r == Failure(EmptyTableName)
    ensures !(args.files.Some? && args.pattern.Some?) && args.tableName != "" && args.fileLocation == ""
      ==> r == Failure(EmptyFileLocation)
    ensures (&& !(args.files.Some? && args.pattern.Some?)
             && args.tableName != ""
             && args.fileLocation != ""
             && args.fileFormat !in ApprovedFormats)
      ==> r == Failure(UnsupportedFileFormat(args.fileFormat))
    ensures r.Success? ==> r.value == CopyIntoOperator(args, ForcedCopyOptions(args.copyOptions, args.forceCopy))
  {
    if args.files.Some? && args.pattern.Some? then Failure(BothFilesAndPattern)
    else if args.tableName == "" then Failure(EmptyTableName)
    else if args.fileLocation == "" then Failure(EmptyFileLocation)
    else if args.fileFormat !in ApprovedFormats then Failure(UnsupportedFileFormat(args.fileFormat))
    else Success(CopyIntoOperator(args, ForcedCopyOptions(args.copyOptions, args.forceCopy)))
  }

  // ---------------------------------------------------------------------
  // Option blocks

  /** One `key = value` pair; the key is escaped only on request. */
  function RenderPair(esc: string -> string, escapeKey: bool, kv: (string, string)): string
  {
    (if escapeKey then esc(kv.0) else kv.0) + " = " + esc(kv.1)
  }

  function RenderPairs(esc: string -> string, escapeKey: bool, opts: Dict<string, string>): (r: seq<string>)
    ensures |r| == |opts|
    ensures forall i :: 0 <= i < |opts| ==> r[i] == RenderPair(esc, escapeKey, opts[i])
  {
    if |opts| == 0 then [] else [RenderPair(esc, escapeKey, opts[0])] + RenderPairs(esc, escapeKey, opts[1..])
  }

  /** `_generate_options`: nothing for a missing or empty dict, otherwise
      `NAME (k = v, ...)` with the pairs in dict order. */
  function GenerateOptions(name: string, esc: string -> string, opts: Option<Dict<string, string>>, escapeKey: bool): (r: string)
    ensures r == "" <==> opts.None? || |opts.value| == 0
    ensures r != "" ==> name + " (" <= r && r[|r| - 1] == ')'
  {
    if opts.None? || |opts.value| == 0 then ""
    else name + " (" + Join(RenderPairs(esc, escapeKey, opts.value), ", ") + ")"
  }

  /** A block with one option holds just that pair. */
  lemma GenerateOptionsSingle(name: string, esc: string -> string, kv: (string, string), escapeKey: bool)
    ensures GenerateOptions(name, esc, Some([kv]), escapeKey) == name + " (" + RenderPair(esc, escapeKey, kv) + ")"
  {
  }

  /** One more option adds `, k = v` just before the closing parenthesis;
      with `GenerateOptionsSingle` this fixes every block. */
  lemma GenerateOptionsSnoc(name: string, esc: string -> string, opts: Dict<string, string>, kv: (string, string), escapeKey: bool)
    requires |opts| > 0
    ensures var before := GenerateOptions(name, esc, Some(opts), escapeKey);
            GenerateOptions(name, esc, Some(opts + [kv]), escapeKey)
              == before[..|before| - 1] + ", " + RenderPair(esc, escapeKey, kv) + ")"
  {
    var ps := RenderPairs(esc, escapeKey, opts);
    var p := RenderPair(esc, escapeKey, kv);
    RenderPairsSnoc(esc, escapeKey, opts, kv);
    JoinSnoc(ps, p, ", ");
    ClosedPrefix(name + " (" + Join(ps, ", "));
    assert name + " (" + (Join(ps, ", ") + ", " + p) + ")" == name + " (" + Join(ps, ", ") + ", " + p + ")";
  }

  lemma RenderPairsSnoc(esc: string -> string, escapeKey: bool, opts: Dict<string, string>, kv: (string, string))
    ensures RenderPairs(esc, escapeKey, opts + [kv]) == RenderPairs(esc, escapeKey, opts) + [RenderPair(esc, escapeKey, kv)]
  {
    var r := RenderPairs(esc, escapeKey, opts + [kv]);
    var q := RenderPairs(esc, escapeKey, opts) + [RenderPair(esc, escapeKey, kv)];
    assert |r| == |q|;
    forall i | 0 <= i < |r|
      ensures r[i] == q[i]
    {
      assert (opts + [kv])[i] == if i < |opts| then opts[i] else kv;
    }
  }

  lemma ClosedPrefix(a: string)
    ensures var b := a + ")"; b[..|b| - 1] == a
  {
    var b := a + ")";
    assert b[..|b| - 1] == a;
  }

  // ---------------------------------------------------------------------
  // Clauses of the statement. Each clause is a plain definition; what it
  // contributes is stated about the finished statement further down.

  /** ` WITH (<credential> <encryption>)` after the source location, when an
      encryption or a credential dict was given; keys are not escaped. */
  function WithClause(op: CopyIntoOperator, esc: Escaper): string
  {
    if op.args.encryption.Some? || op.args.credential.Some? then
      var encryption := if op.args.encryption.Some? then GenerateOptions("ENCRYPTION", esc.item, op.args.encryption, false) else "";
      var credential := if op.args.credential.Some? then GenerateOptions("CREDENTIAL", esc.item, op.args.credential, false) else "";
      " WITH (" + credential + " " + encryption + ")"
    else ""
  }

  /** The `FROM` source: the escaped file location with its `WITH` clause,
      wrapped in a `SELECT` when an expression list is given. */
  function Location(op: CopyIntoOperator, esc: Escaper): string
  {
    var location := esc.item(op.args.fileLocation) + WithClause(op, esc);
    if op.args.expressionList.Some? then "(SELECT " + op.args.expressionList.value + " FROM " + location + ")"
    else location
  }

  /** The `PATTERN` line, else the `FILES` line, else nothing. */
  function FilesOrPattern(op: CopyIntoOperator, esc: Escaper): string
  {
    if op.args.pattern.Some? then "PATTERN = " + esc.item(op.args.pattern.value) + "\n"
    else if op.args.files.Some? then "FILES = " + esc.items(op.args.files.value) + "\n"
    else ""
  }

  /** The `validate` values the statement builder accepts: anything but a
      negative row count or a value of another type. */
  predicate ValidateAccepted(v: Validate)
  {
    !(v.Rows? && v.n < 0) && !v.OtherType?
  }

  /** The `VALIDATE` line: `ALL` for `True`, `n ROWS` for an integer `n >= 0`
      (zero included), nothing for `False` or `None`; a negative integer or any
      other type is an error. */
  function ValidationClause(v: Validate): (r: Result<string, CopyIntoError>)
    ensures v == Unset || v == Flag(false) ==> r == Success("")
    ensures v == Flag(true) ==> r == Success("VALIDATE ALL\n")
    ensures v.Rows? && v.n >= 0 ==> r == Success("VALIDATE " + NatToString(v.n) + " ROWS\n")
    ensures v.Rows? && v.n < 0 ==> r == Failure(NegativeValidateRows(v.n))
    ensures v.OtherType? ==> r == Failure(BadValidateType)
  {
    match v
    case Unset => Success("")
    case Flag(on) => Success(if on then "VALIDATE ALL\n" else "")
    case Rows(n) =>
      if n < 0 then Failure(NegativeValidateRows(n))
      else Success("VALIDATE " + NatToString(n) + " ROWS\n")
    case OtherType => Failure(BadValidateType)
  }

  /** The row count in a `VALIDATE n ROWS` line reads back as `n`. */
  lemma ValidationRowsReadBack(n: nat)
    ensures var line := ValidationClause(Rows(n)).value;
            var digits := line[|"VALIDATE "|..|line| - |" ROWS\n"|];
            && line == "VALIDATE " + digits + " ROWS\n"
            && (forall i :: 0 <= i < |digits| ==> IsDigit(digits[i]))
            && |digits| > 0
            && ParseNat(digits) == n
  {
    var line := ValidationClause(Rows(n)).value;
    assert line[|"VALIDATE "|..|line| - |" ROWS\n"|] == NatToString(n);
    ParseNatToString(n);
  }

  /** ` WITH (CREDENTIAL <sc>)` after the table name for a non-empty storage
      credential; the credential is not escaped. */
  function StorageCredentialClause(sc: Option<string>): string
  {
    if Truthy(sc) then " WITH (CREDENTIAL " + sc.value + ")" else ""
  }

  /** The three fixed lines: target table, source, file format. */
  function Header(op: CopyIntoOperator, esc: Escaper): string
  {
    "COPY INTO " + HeaderMiddle(op, esc) + op.args.fileFormat
  }

  /** The header between `COPY INTO ` and the format name. */
  function HeaderMiddle(op: CopyIntoOperator, esc: Escaper): string
  {
    op.args.tableName + StorageCredentialClause(op.args.storageCredential)
      + "\nFROM " + Location(op, esc)
      + "\nFILEFORMAT = "
  }

  /** The `FORMAT_OPTIONS` block; its keys are escaped. */
  function FormatOptionsBlock(op: CopyIntoOperator, esc: Escaper): string
  {
    GenerateOptions("FORMAT_OPTIONS", esc.item, op.args.formatOptions, true)
  }

  /** The `COPY_OPTIONS` block; its keys are escaped. */
  function CopyOptionsBlock(op: CopyIntoOperator, esc: Escaper): string
  {
    GenerateOptions("COPY_OPTIONS", esc.item, Some(op.copyOptions), true)
  }

  /** The optional lines before the copy options, in statement order:
      validation, files or pattern, format options. */
  function LeadingLines(op: CopyIntoOperator, esc: Escaper, validation: string): string
  {
    validation + FilesOrPattern(op, esc) + FormatOptionsBlock(op, esc) + "\n"
  }

  /** Everything after the header before stripping. */
  function Trailer(op: CopyIntoOperator, esc: Escaper, validation: string): string
  {
    "\n" + (LeadingLines(op, esc, validation) + CopyOptionsBlock(op, esc)) + "\n\n"
  }

  /** `_create_sql_query`: the statement text, stripped of surrounding
      whitespace, or the error of the `validate` argument. */
  function CreateSqlQuery(op: CopyIntoOperator, esc: Escaper): (r: Result<string, CopyIntoError>)
    ensures r.Failure? <==> !ValidateAccepted(op.args.validate)
    ensures r.Failure? ==> r.error == ValidationClause(op.args.validate).error
    ensures r.Success? ==> Stripped(r.value)
    ensures r.Success? && op.args.fileFormat in ApprovedFormats ==> Header(op, esc) <= r.value
  {
    var validation :- ValidationClause(op.args.validate);
    var h := Header(op, esc);
    var t := Trailer(op, esc, validation);
    StripIsStripped(h + t);
    assert op.args.fileFormat in ApprovedFormats ==> h <= Strip(h + t) by {
      if op.args.fileFormat in ApprovedFormats {
        HeaderStripped(op, esc);
        StripKeepsPrefix(h, t);
      }
    }
    Success(Strip(h + t))
  }

  lemma ApprovedFormatStripped(f: string)
    requires f in ApprovedFormats
    ensures |f| > 0 && !IsSpace(f[|f| - 1])
  {
  }

  /** A string framed by non-whitespace ends is stripped. */
  lemma FramedIsStripped(a: string, b: string, c: string)
    requires |a| > 0 && !IsSpace(a[0])
    requires |c| > 0 && !IsSpace(c[|c| - 1])
    ensures |a + b + c| > 0 && Stripped(a + b + c)
  {
    assert (a + b + c)[0] == a[0];
    assert (a + b + c)[|a + b + c| - 1] == c[|c| - 1];
  }

  /** The header starts with `C` and ends with the last letter of an approved
      format, so stripping cannot touch it. */
  lemma HeaderStripped(op: CopyIntoOperator, esc: Escaper)
    requires op.args.fileFormat in ApprovedFormats
    ensures |Header(op, esc)| > 0 && Stripped(Header(op, esc))
  {
    ApprovedFormatStripped(op.args.fileFormat);
    FramedIsStripped("COPY INTO ", HeaderMiddle(op, esc), op.args.fileFormat);
  }

  // ---------------------------------------------------------------------
  // The finished statement

  /** The statement is the header followed by the rest of the template with
      its trailing whitespace removed; this fixes the text in every case. */
  lemma StatementTail(op: CopyIntoOperator, esc: Escaper)
    requires op.args.fileFormat in ApprovedFormats
    requires ValidateAccepted(op.args.validate)
    ensures var validation := ValidationClause(op.args.validate).value;
            CreateSqlQuery(op, esc).value == Header(op, esc) + TrimEnd(Trailer(op, esc, validation))
  {
    var validation := ValidationClause(op.args.validate).value;
    HeaderStripped(op, esc);
    StripAfterStripped(Header(op, esc), Trailer(op, esc, validation));
  }

  lemma WithClauseText(op: CopyIntoOperator, esc: Escaper)
    ensures var a := op.args;
            WithClause(op, esc) == if a.encryption.Some? || a.credential.Some?
                                   then " WITH (" + GenerateOptions("CREDENTIAL", esc.item, a.credential, false)
                                        + " " + GenerateOptions("ENCRYPTION", esc.item, a.encryption, false) + ")"
                                   else ""
  {
    var a := op.args;
    assert a.encryption.None? ==> GenerateOptions("ENCRYPTION", esc.item, a.encryption, false) == "";
    assert a.credential.None? ==> GenerateOptions("CREDENTIAL", esc.item, a.credential, false) == "";
  }

  /** The three header lines, spelled out in the operator's arguments: the
      target with its storage credential, the source with its `WITH` clause
      and optional `SELECT`, and the file format. */
  lemma StatementHeader(op: CopyIntoOperator, esc: Escaper)
    requires op.args.fileFormat in ApprovedFormats
    requires ValidateAccepted(op.args.validate)
    ensures var a := op.args;
            var target := a.tableName + (if Truthy(a.storageCredential)
                                         then " WITH (CREDENTIAL " + a.storageCredential.value + ")"
                                         else "");
            var with := if a.encryption.Some? || a.credential.Some?
                        then " WITH (" + GenerateOptions("CREDENTIAL", esc.item, a.credential, false)
                             + " " + GenerateOptions("ENCRYPTION", esc.item, a.encryption, false) + ")"
                        else "";
            var source := if a.expressionList.Some?
                          then "(SELECT " + a.expressionList.value + " FROM " + (esc.item(a.fileLocation) + with) + ")"
                          else esc.item(a.fileLocation) + with;
            "COPY INTO " + (target + "\nFROM " + source + "\nFILEFORMAT = ") + a.fileFormat <= CreateSqlQuery(op, esc).value
  {
    WithClauseText(op, esc);
  }

  // The trailer after right-stripping, case by case. These speak about the
  // trailer alone, so that the statement lemmas below only substitute.

  lemma TrimmedTrailerWithCopyOptions(op: CopyIntoOperator, esc: Escaper, validation: string)
    requires |op.copyOptions| > 0
    ensures TrimEnd(Trailer(op, esc, validation)) == "\n" + (LeadingLines(op, esc, validation) + CopyOptionsBlock(op, esc))
  {
    var m := "\n" + (LeadingLines(op, esc, validation) + CopyOptionsBlock(op, esc));
    assert m[|m| - 1] == ')';
    TrimEndSpaces(m, "\n\n");
  }

  lemma TrimmedTrailerWithFormatOptions(op: CopyIntoOperator, esc: Escaper, validation: string)
    requires op.copyOptions == []
    requires op.args.formatOptions.Some? && |op.args.formatOptions.value| > 0
    ensures TrimEnd(Trailer(op, esc, validation)) == "\n" + (validation + FilesOrPattern(op, esc) + FormatOptionsBlock(op, esc))
  {
    LayoutFormatLast(validation + FilesOrPattern(op, esc), FormatOptionsBlock(op, esc), CopyOptionsBlock(op, esc));
  }

  lemma TrimmedTrailerWithPatternOrFiles(op: CopyIntoOperator, esc: Escaper, validation: string)
    requires op.copyOptions == []
    requires op.args.formatOptions.None? || op.args.formatOptions == Some([])
    ensures op.args.pattern.Some? ==>
      TrimEnd(Trailer(op, esc, validation)) == TrimEnd("\n" + validation + "PATTERN = " + esc.item(op.args.pattern.value))
    ensures op.args.pattern.None? && op.args.files.Some? ==>
      TrimEnd(Trailer(op, esc, validation)) == TrimEnd("\n" + validation + "FILES = " + esc.items(op.args.files.value))
  {
    var front := validation + FilesOrPattern(op, esc);
    if op.args.pattern.Some? {
      LayoutLineLast(front, FormatOptionsBlock(op, esc), CopyOptionsBlock(op, esc),
                     validation, FilesOrPattern(op, esc), "PATTERN = ", esc.item(op.args.pattern.value));
    } else if op.args.files.Some? {
      LayoutLineLast(front, FormatOptionsBlock(op, esc), CopyOptionsBlock(op, esc),
                     validation, FilesOrPattern(op, esc), "FILES = ", esc.items(op.args.files.value));
    }
  }

  lemma TrimmedTrailerWithValidation(op: CopyIntoOperator, esc: Escaper, v: Validate)
    requires op.copyOptions == []
    requires op.args.formatOptions.None? || op.args.formatOptions == Some([])
    requires op.args.pattern.None? && op.args.files.None?
    requires v == Flag(true) || (v.Rows? && v.n >= 0)
    ensures v == Flag(true) ==> TrimEnd(Trailer(op, esc, ValidationClause(v).value)) == "\nVALIDATE ALL"
    ensures v.Rows? ==>
      TrimEnd(Trailer(op, esc, ValidationClause(v).value)) == "\nVALIDATE " + NatToString(v.n) + " ROWS"
  {
    var validation := ValidationClause(v).value;
    var line := if v.Rows? then "\nVALIDATE " + NatToString(v.n) + " ROWS" else "\nVALIDATE ALL";
    ValidationLineText(v);
    assert FilesOrPattern(op, esc) == "";
    assert validation + FilesOrPattern(op, esc) == validation;
    LayoutLastLine(validation + FilesOrPattern(op, esc), FormatOptionsBlock(op, esc), CopyOptionsBlock(op, esc), line);
  }

  /** The `VALIDATE` line without its newline, after the line break that
      precedes it. */
  lemma ValidationLineText(v: Validate)
    requires v == Flag(true) || (v.Rows? && v.n >= 0)
    ensures var line := if v.Rows? then "\nVALIDATE " + NatToString(v.n) + " ROWS" else "\nVALIDATE ALL";
            && |line| > 0 && line[0] == '\n' && !IsSpace(line[|line| - 1])
            && line[1..] + "\n" == ValidationClause(v).value
  {
    var line := if v.Rows? then "\nVALIDATE " + NatToString(v.n) + " ROWS" else "\nVALIDATE ALL";
    assert line[|line| - 1] == 'S' || line[|line| - 1] == 'L';
    if v.Rows? {
      assert line[1..] == "VALIDATE " + NatToString(v.n) + " ROWS";
    }
  }

  lemma TrimmedTrailerEmpty(op: CopyIntoOperator, esc: Escaper)
    requires op.copyOptions == []
    requires op.args.formatOptions.None? || op.args.formatOptions == Some([])
    requires op.args.pattern.None? && op.args.files.None?
    ensures TrimEnd(Trailer(op, esc, "")) == ""
  {
    LayoutEmpty("" + FilesOrPattern(op, esc), FormatOptionsBlock(op, esc), CopyOptionsBlock(op, esc));
  }

  // The same facts over plain strings: `front` is the validation and the
  // files-or-pattern lines, `fmt` and `copy` the two option blocks.

  lemma LayoutFormatLast(front: string, fmt: string, copy: string)
    requires |fmt| > 0 && fmt[|fmt| - 1] == ')' && copy == ""
    ensures TrimEnd("\n" + (front + fmt + "\n" + copy) + "\n\n") == "\n" + (front + fmt)
  {
    var m := "\n" + (front + fmt);
    assert "\n" + (front + fmt + "\n" + copy) + "\n\n" == m + "\n\n\n";
    assert m[|m| - 1] == ')';
    TrimEndSpaces(m, "\n\n\n");
  }

  lemma LayoutLineLast(front: string, fmt: string, copy: string, first: string, rest: string, key: string, value: string)
    requires fmt == "" && copy == ""
    requires front == first + rest && rest == key + value + "\n"
    ensures TrimEnd("\n" + (front + fmt + "\n" + copy) + "\n\n") == TrimEnd("\n" + first + key + value)
  {
    var m := "\n" + first + key + value;
    assert "\n" + (front + fmt + "\n" + copy) + "\n\n" == m + "\n\n\n\n";
    assert AllSpace("\n\n\n\n");
    TrimEndDropsSpaces(m, "\n\n\n\n");
  }

  lemma LayoutLastLine(front: string, fmt: string, copy: string, line: string)
    requires fmt == "" && copy == ""
    requires |line| > 0 && line[0] == '\n' && !IsSpace(line[|line| - 1])
    requires front == line[1..] + "\n"
    ensures TrimEnd("\n" + (front + fmt + "\n" + copy) + "\n\n") == line
  {
    assert "\n" + (front + fmt + "\n" + copy) + "\n\n" == line + "\n\n\n\n";
    TrimEndSpaces(line, "\n\n\n\n");
  }

  lemma LayoutEmpty(front: string, fmt: string, copy: string)
    requires front == "" && fmt == "" && copy == ""
    ensures TrimEnd("\n" + (front + fmt + "\n" + copy) + "\n\n") == ""
  {
    assert "\n" + (front + fmt + "\n" + copy) + "\n\n" == [] + "\n\n\n\n";
    TrimEndSpaces([], "\n\n\n\n");
  }

  /** With copy options present the statement ends with their block, and
      stripping only removes the trailing blank lines: the statement is the
      header and the optional lines, in that order. */
  lemma StatementLayout(op: CopyIntoOperator, esc: Escaper)
    requires op.args.fileFormat in ApprovedFormats
    requires ValidateAccepted(op.args.validate)
    requires |op.copyOptions| > 0
    ensures var validation := ValidationClause(op.args.validate).value;
            CreateSqlQuery(op, esc).value
              == Header(op, esc) + "\n" + (LeadingLines(op, esc, validation) + CopyOptionsBlock(op, esc))
  {
    StatementTail(op, esc);
    TrimmedTrailerWithCopyOptions(op, esc, ValidationClause(op.args.validate).value);
  }

  /** Without format options a blank line precedes the copy options. */
  lemma BlankLineBeforeCopyOptions(op: CopyIntoOperator, esc: Escaper)
    requires op.args.fileFormat in ApprovedFormats
    requires ValidateAccepted(op.args.validate)
    requires |op.copyOptions| > 0
    requires op.args.formatOptions.None? || op.args.formatOptions == Some([])
    ensures EndsWith(CreateSqlQuery(op, esc).value, "\n\n" + CopyOptionsBlock(op, esc))
  {
    var validation := ValidationClause(op.args.validate).value;
    StatementLayout(op, esc);
    BlankLineInLayout(Header(op, esc), validation + FilesOrPattern(op, esc), CopyOptionsBlock(op, esc));
  }

  /** The layout with an empty format-options line: the lines before it end
      in a newline, so the copy options follow a blank line. */
  lemma BlankLineInLayout(h: string, front: string, block: string)
    requires |front| == 0 || front[|front| - 1] == '\n'
    ensures EndsWith(h + "\n" + (front + "" + "\n" + block), "\n\n" + block)
  {
    var last := "\n\n" + block;
    assert EndsWith(last, last);
    if front == "" {
      assert h + "\n" + (front + "" + "\n" + block) == h + last;
      EndsWithAfter(h, last, last);
    } else {
      var before := h + "\n" + front[..|front| - 1];
      assert front == front[..|front| - 1] + "\n";
      assert h + "\n" + (front + "" + "\n" + block) == before + last;
      EndsWithAfter(before, last, last);
    }
  }

  /** Without copy options but with format options, the statement ends with
      the format-options block. */
  lemma FormatOptionsCloseStatement(op: CopyIntoOperator, esc: Escaper)
    requires op.args.fileFormat in ApprovedFormats
    requires ValidateAccepted(op.args.validate)
    requires op.copyOptions == []
    requires op.args.formatOptions.Some? && |op.args.formatOptions.value| > 0
    ensures var validation := ValidationClause(op.args.validate).value;
            CreateSqlQuery(op, esc).value
              == Header(op, esc) + "\n" + (validation + FilesOrPattern(op, esc) + FormatOptionsBlock(op, esc))
  {
    StatementTail(op, esc);
    TrimmedTrailerWithFormatOptions(op, esc, ValidationClause(op.args.validate).value);
  }

  /** With only a `PATTERN` or `FILES` line after the header (and the
      `VALIDATE` line, if any), the statement ends with that line, right-stripped;
      only here does the end depend on what the escaper returns. */
  lemma PatternOrFilesCloseStatement(op: CopyIntoOperator, esc: Escaper)
    requires op.args.fileFormat in ApprovedFormats
    requires ValidateAccepted(op.args.validate)
    requires op.copyOptions == []
    requires op.args.formatOptions.None? || op.args.formatOptions == Some([])
    ensures var validation := ValidationClause(op.args.validate).value;
            && (op.args.pattern.Some? ==>
                  CreateSqlQuery(op, esc).value
                    == Header(op, esc) + TrimEnd("\n" + validation + "PATTERN = " + esc.item(op.args.pattern.value)))
            && (op.args.pattern.None? && op.args.files.Some? ==>
                  CreateSqlQuery(op, esc).value
                    == Header(op, esc) + TrimEnd("\n" + validation + "FILES = " + esc.items(op.args.files.value)))
  {
    StatementTail(op, esc);
    TrimmedTrailerWithPatternOrFiles(op, esc, ValidationClause(op.args.validate).value);
  }

  /** With nothing after the `VALIDATE` line, the statement ends with it. */
  lemma ValidationClosesStatement(op: CopyIntoOperator, esc: Escaper)
    requires op.args.fileFormat in ApprovedFormats
    requires ValidateAccepted(op.args.validate)
    requires op.copyOptions == []
    requires op.args.formatOptions.None? || op.args.formatOptions == Some([])
    requires op.args.pattern.None? && op.args.files.None?
    ensures op.args.validate == Flag(true) ==> CreateSqlQuery(op, esc).value == Header(op, esc) + "\nVALIDATE ALL"
    ensures op.args.validate.Rows? ==>
      CreateSqlQuery(op, esc).value == Header(op, esc) + ("\nVALIDATE " + NatToString(op.args.validate.n) + " ROWS")
  {
    StatementTail(op, esc);
    if op.args.validate == Flag(true) || op.args.validate.Rows? {
      TrimmedTrailerWithValidation(op, esc, op.args.validate);
    }
  }

  /** Without any optional clause the statement is the header alone. */
  lemma MinimalStatement(op: CopyIntoOperator, esc: Escaper)
    requires op.args.fileFormat in ApprovedFormats
    requires op.args.validate == Unset || op.args.validate == Flag(false)
    requires op.args.pattern.None? && op.args.files.None?
    requires op.args.formatOptions.None? || op.args.formatOptions == Some([])
    requires op.copyOptions == []
    ensures CreateSqlQuery(op, esc) == Success(Header(op, esc))
  {
    var h := Header(op, esc);
    assert ValidationClause(op.args.validate).value == "";
    StatementTail(op, esc);
    TrimmedTrailerEmpty(op, esc);
    assert CreateSqlQuery(op, esc).value == h + [];
    assert h + [] == h;
  }

  /** A file list given beside a pattern does not change the statement. */
  lemma PatternOverridesFiles(op: CopyIntoOperator, esc: Escaper)
    requires op.args.pattern.Some?
    ensures CreateSqlQuery(op, esc) == CreateSqlQuery(op.(args := op.args.(files := None)), esc)
  {
    var op' := op.(args := op.args.(files := None));
    assert FilesOrPattern(op, esc) == FilesOrPattern(op', esc);
    assert Header(op, esc) == Header(op', esc);
  }

  /** An empty storage credential is the same as none. */
  lemma EmptyStorageCredentialIsNone(op: CopyIntoOperator, esc: Escaper)
    ensures CreateSqlQuery(op.(args := op.args.(storageCredential := Some(""))), esc)
         == CreateSqlQuery(op.(args := op.args.(storageCredential := None)), esc)
  {
    var a := op.(args := op.args.(storageCredential := Some("")));
    var b := op.(args := op.args.(storageCredential := None));
    assert Location(a, esc) == Location(b, esc);
    assert Header(a, esc) == Header(b, esc);
    assert FilesOrPattern(a, esc) == FilesOrPattern(b, esc);
  }

  /** An operator that construction accepted yields, whenever its `validate`
      argument is accepted, a statement that begins with its header. */
  lemma ConstructedStatementStartsWithHeader(args: CopyIntoArgs, esc: Escaper)
    requires NewCopyInto(args).Success?
    requires ValidateAccepted(args.validate)
    ensures Header(NewCopyInto(args).value, esc) <= CreateSqlQuery(NewCopyInto(args).value, esc).value
  {
  }

  // ---------------------------------------------------------------------
  // Where the forced copy option ends up

  /** A block whose last option is `kv` ends with that pair. */
  lemma BlockEndsWithLastOption(name: string, esc: string -> string, base: Dict<string, string>, kv: (string, string), escapeKey: bool)
    ensures EndsWith(GenerateOptions(name, esc, Some(base + [kv]), escapeKey), RenderPair(esc, escapeKey, kv) + ")")
  {
    var last := RenderPair(esc, escapeKey, kv) + ")";
    assert EndsWith(last, last);
    if |base| == 0 {
      assert base + [kv] == [kv];
      GenerateOptionsSingle(name, esc, kv, escapeKey);
      assert name + " (" + RenderPair(esc, escapeKey, kv) + ")" == (name + " (") + last;
      EndsWithAfter(name + " (", last, last);
    } else {
      GenerateOptionsSnoc(name, esc, base, kv, escapeKey);
      var before := GenerateOptions(name, esc, Some(base), escapeKey);
      var front := before[..|before| - 1] + ", ";
      assert front + RenderPair(esc, escapeKey, kv) + ")" == front + last;
      EndsWithAfter(front, last, last);
    }
  }

  /** Whatever the copy-options block ends with, the statement ends with. */
  lemma StatementEndsLikeCopyOptions(op: CopyIntoOperator, esc: Escaper, last: string)
    requires op.args.fileFormat in ApprovedFormats
    requires ValidateAccepted(op.args.validate)
    requires |op.copyOptions| > 0
    requires EndsWith(CopyOptionsBlock(op, esc), last)
    ensures EndsWith(CreateSqlQuery(op, esc).value, last)
  {
    StatementLayout(op, esc);
    EndsWithLayout(CreateSqlQuery(op, esc).value, Header(op, esc),
                   LeadingLines(op, esc, ValidationClause(op.args.validate).value), CopyOptionsBlock(op, esc), last);
  }

  /** A layout ending in a block ends like that block. */
  lemma EndsWithLayout(v: string, h: string, lead: string, block: string, last: string)
    requires v == h + "\n" + (lead + block)
    requires EndsWith(block, last)
    ensures EndsWith(v, last)
  {
    EndsWithAfter(h + "\n" + lead, block, last);
    assert h + "\n" + (lead + block) == (h + "\n" + lead) + block;
  }

  /** Folding `force_copy` into options without `force` yields a block that
      ends with the `force` pair. */
  lemma ForcedBlockEndsWithForce(copyOptions: Option<Dict<string, string>>, force: bool, esc: string -> string)
    requires "force" !in Keys(OrEmpty(copyOptions))
    ensures |ForcedCopyOptions(copyOptions, Some(force))| > 0
    ensures EndsWith(GenerateOptions("COPY_OPTIONS", esc, Some(ForcedCopyOptions(copyOptions, Some(force))), true),
                     RenderPair(esc, true, ("force", BoolText(force))) + ")")
  {
    PutAbsent(OrEmpty(copyOptions), "force", BoolText(force));
    BlockEndsWithLastOption("COPY_OPTIONS", esc, OrEmpty(copyOptions), ("force", BoolText(force)), true);
  }

  /** When `force_copy` is given and the caller's copy options have no
      `force` key, the statement of the constructed operator closes with the
      `force` pair as its last copy option. */
  lemma ForceCopyClosesStatement(args: CopyIntoArgs, force: bool, esc: Escaper)
    requires NewCopyInto(args).Success?
    requires args.forceCopy == Some(force)
    requires "force" !in Keys(OrEmpty(args.copyOptions))
    requires ValidateAccepted(args.validate)
    ensures EndsWith(CreateSqlQuery(NewCopyInto(args).value, esc).value,
                     RenderPair(esc.item, true, ("force", BoolText(force))) + ")")
  {
    ForcedBlockEndsWithForce(args.copyOptions, force, esc.item);
    StatementEndsLikeCopyOptions(NewCopyInto(args).value, esc, RenderPair(esc.item, true, ("force", BoolText(force))) + ")");
  }
}
