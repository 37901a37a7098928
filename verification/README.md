# COPY INTO and SQL-to-Slack operators, modelled in Dafny

This project models the decision logic of two Apache Airflow provider operators:

- **`DatabricksCopyIntoOperator`** (Databricks provider):
  - how the constructor validates its arguments;
  - how `force_copy` is folded into the copy options;
  - how `_generate_options` renders a `NAME (k = v, ...)` option block;
  - how `_create_sql_query` assembles and strips the `COPY INTO` statement, including the `validate` rules;
  - how the target table name is split into catalog, schema and table and completed with the hook's defaults for the lineage dataset name.
- **`DatabricksSqlOperator`** (same file): the branches of `_should_run_output_processing` and `_process_output`. These decide whether results are written to a file, which writer is used, and which error is raised.
- **`SqlToSlackApiFileOperator`** (Slack provider):
  - how the constructor checks `action_on_empty_df`;
  - how `execute` dispatches on an empty result and on the file format;
  - how `_method_resolver` picks the Slack upload method.

The model is pure. Every operation is a function over immutable datatypes. An error becomes a `Failure` value of a `Result`, in the order the source raises it. The Slack `execute` is the exception: it ends in an `Outcome`, where a raised error is `Failed(...)` and the skip exception is `Skipped`.

The modules are:

| module | file | contents |
|---|---|---|
| `Wrappers` | `wrappers.dfy` | `Option` and `Result` |
| `Strings` | `strings.dfy` | the string operations of Python the operators rely on |
| `OrderedDict` | `ordered_dict.dfy` | a Python `dict` as an insertion-ordered list of entries |
| `CopyInto` | `copy_into.dfy` | constructor, option blocks, clauses and the statement |
| `CopyIntoLineage` | `lineage.dfy` | splitting and qualifying the target table name |
| `DatabricksSqlOutput` | `sql_output.dfy` | `_process_output` and `_should_run_output_processing` |
| `SqlToSlack` | `sql_to_slack.dfy` | the Slack operator |

The Python string operations in `Strings` are:

- `str.split` on one character;
- `', '.join`;
- `str.strip`, using the code points of `str.isspace`;
- `lower`/`upper`;
- decimal formatting of a natural number.

Modelling choices that follow the source:

- The `validate` argument is a datatype with four cases: `None`, a `bool`, an `int`, or any other type.
  - The `bool` case is its own constructor because the operator checks `isinstance(..., bool)` before `int`.
  - `VALIDATE 0 ROWS` is accepted. Only a negative count is refused.
- `ParamEscaper.escape_item` is a parameter, `Escaper`, and no property of it is assumed. The properties of the statement hold for every escaper.
- A Python `dict` keeps insertion order. `d[k] = v` replaces an existing entry where it stands and otherwise appends. `OrderedDict.Put` does exactly this.
- A missing or empty `output_path`, `output_format` or `storage_credential` counts as false, as Python's truthiness does.
  - The output format is a plain string, and the empty string stands for both `None` and `""`.

## Model

| member | source | states |
|---|---|---|
| `CopyInto.NewCopyInto` | providers/databricks/src/airflow/providers/databricks/operators/databricks_sql.py:250-279 | Construction succeeds exactly when these hold: not both `files` and `pattern`, a non-empty table name, a non-empty file location, and an approved format. The checks run in that order and the first that fails decides the error; an unsupported format is reported by name. On success every argument is kept unchanged, and the copy options are the caller's with `force_copy` folded in. |
| `CopyInto.ForcedCopyOptions` | providers/databricks/src/airflow/providers/databricks/operators/databricks_sql.py:274-279 | Without `force_copy`, the copy options are the caller's dict or an empty one. With it, the `force` key maps to `"true"`/`"false"` and every other key keeps its value. |
| `CopyInto.ForcedCopyOptionsKeys` | providers/databricks/src/airflow/providers/databricks/operators/databricks_sql.py:274-279 | Folding in `force_copy` keeps the caller's keys as a prefix, in order. It also keeps the keys unique. |
| `CopyInto.GenerateOptions` | providers/databricks/src/airflow/providers/databricks/operators/databricks_sql.py:299-314 | The block is empty exactly when the dict is missing or empty. Otherwise it starts with `NAME (` and ends with `)`. |
| `CopyInto.GenerateOptionsSingle` | providers/databricks/src/airflow/providers/databricks/operators/databricks_sql.py:307-312 | A one-entry dict renders as `NAME (k = v)`. The key is escaped only on request. |
| `CopyInto.GenerateOptionsSnoc` | providers/databricks/src/airflow/providers/databricks/operators/databricks_sql.py:307-312 | One more entry in the dict inserts `, k = v` just before the closing parenthesis. Together with the single-entry case this fixes the text of every block, in dict order. |
| `CopyInto.BlockEndsWithLastOption` | providers/databricks/src/airflow/providers/databricks/operators/databricks_sql.py:307-312 | A block ends with its last entry's pair followed by `)`, whether or not keys are escaped. |
| `CopyInto.ValidationClause` | providers/databricks/src/airflow/providers/databricks/operators/databricks_sql.py:340-352 | It gives `VALIDATE ALL` for `True` and nothing for `False`/`None`. For `n >= 0` it gives `VALIDATE n ROWS`. A negative count is an error carrying the count, and any other type is a type error. |
| `CopyInto.ValidationRowsReadBack` | providers/databricks/src/airflow/providers/databricks/operators/databricks_sql.py:350 | The row count in the `VALIDATE` line is a non-empty run of digits that parses back to the given count. |
| `CopyInto.CreateSqlQuery` | providers/databricks/src/airflow/providers/databricks/operators/databricks_sql.py:316-359 | It fails exactly for a negative row count or a `validate` of another type, with that error. Otherwise the statement has no leading or trailing whitespace and, for an approved format, begins with the whole three-line header. |
| `CopyInto.HeaderStripped` | providers/databricks/src/airflow/providers/databricks/operators/databricks_sql.py:354-356 | The `COPY INTO` / `FROM` / `FILEFORMAT` header is non-empty and has no surrounding whitespace, so the final strip cannot cut into it. |
| `CopyInto.StatementHeader` | providers/databricks/src/airflow/providers/databricks/operators/databricks_sql.py:318-359 | The finished statement begins with the header spelled out in the arguments. First comes the table name, followed by ` WITH (CREDENTIAL <sc>)` exactly when the storage credential is non-empty; that credential is not escaped. Then comes the `FROM` source: the escaped location, followed by ` WITH (<credential block> <encryption block>)` exactly when an encryption or a credential dict is given, even an empty one, with unescaped keys. With an expression list the source is wrapped as `(SELECT <expressions> FROM ...)`. The file format follows on the third line. |
| `CopyInto.StatementTail` | providers/databricks/src/airflow/providers/databricks/operators/databricks_sql.py:354-359 | The statement is the header followed by the rest of the template with its trailing whitespace removed. Stripping never touches the header. |
| `CopyInto.StatementLayout` | providers/databricks/src/airflow/providers/databricks/operators/databricks_sql.py:354-359 | With copy options present, the statement is exactly the header, a newline, then the optional lines in this order: validation, files or pattern, format options, copy options. Only the trailing newlines are stripped. |
| `CopyInto.BlankLineBeforeCopyOptions` | providers/databricks/src/airflow/providers/databricks/operators/databricks_sql.py:335-336 | With copy options and without format options, a blank line comes before the copy-options block, where the empty format line stands. |
| `CopyInto.FormatOptionsCloseStatement` | providers/databricks/src/airflow/providers/databricks/operators/databricks_sql.py:335-359 | Without copy options but with format options, the statement is the header, then the validation, files-or-pattern and format-options lines, and it ends with the format block. |
| `CopyInto.PatternOrFilesCloseStatement` | providers/databricks/src/airflow/providers/databricks/operators/databricks_sql.py:330-359 | Without either options block, the statement is the header followed by the `PATTERN = ...` line, or else the `FILES = ...` line, after the optional `VALIDATE` line. That last line is right-stripped as a whole: when the escaped text is blank, the strip reaches into `PATTERN = ` or `FILES = ` itself. |
| `CopyInto.ValidationClosesStatement` | providers/databricks/src/airflow/providers/databricks/operators/databricks_sql.py:340-359 | With nothing after the `VALIDATE` line, the statement is the header followed by `VALIDATE ALL` or `VALIDATE n ROWS`. |
| `CopyInto.MinimalStatement` | providers/databricks/src/airflow/providers/databricks/operators/databricks_sql.py:354-359 | When no validation, files, pattern, format options or copy options are given, the statement is the header alone. |
| `CopyInto.PatternOverridesFiles` | providers/databricks/src/airflow/providers/databricks/operators/databricks_sql.py:330-334 | When a pattern is given, a file list given beside it does not change the statement. |
| `CopyInto.EmptyStorageCredentialIsNone` | providers/databricks/src/airflow/providers/databricks/operators/databricks_sql.py:337-339 | An empty storage credential gives the same statement as none. |
| `CopyInto.ConstructedStatementStartsWithHeader` | providers/databricks/src/airflow/providers/databricks/operators/databricks_sql.py:250-359 | For an operator the constructor accepted, every statement it builds begins with its header, with no further assumption on the format. |
| `CopyInto.StatementEndsLikeCopyOptions` | providers/databricks/src/airflow/providers/databricks/operators/databricks_sql.py:336-359 | With copy options present, the statement ends the way the copy-options block ends. |
| `CopyInto.ForcedBlockEndsWithForce` | providers/databricks/src/airflow/providers/databricks/operators/databricks_sql.py:278-279 | If the caller's copy options have no `force` key, folding in `force_copy` gives a non-empty block whose last pair is `force`. |
| `CopyInto.ForceCopyClosesStatement` | providers/databricks/src/airflow/providers/databricks/operators/databricks_sql.py:274-279 | If `force_copy` is given to an accepted constructor call and the caller's copy options have no `force` key, the statement ends with the escaped `force` pair and `)`. |
| `CopyIntoLineage.SplitTableName` | providers/databricks/src/airflow/providers/databricks/operators/databricks_sql.py:402-411 | Two dots give a catalog, schema and table. One dot gives a schema and table. Any other count leaves the whole name as the table. The parts contain no dot and joined with dots give back the name. |
| `CopyIntoLineage.FullyQualifiedName` | providers/databricks/src/airflow/providers/databricks/operators/databricks_sql.py:413-422 | The table is prefixed by the schema (or the default schema) and then the catalog (or the hook's catalog). Each prefix is added only when it is non-empty, which gives four cases. |
| `CopyIntoLineage.ThreePartNameIsKept` | providers/databricks/src/airflow/providers/databricks/operators/databricks_sql.py:402-422 | A `catalog.schema.table` name with non-empty parts is its own fully qualified name, whatever the defaults are. |
| `CopyIntoLineage.TwoPartNameGainsCatalog` | providers/databricks/src/airflow/providers/databricks/operators/databricks_sql.py:402-422 | A `schema.table` name with a non-empty schema gains only the hook's catalog, and only if the catalog is non-empty. |
| `CopyIntoLineage.OtherNameIsTable` | providers/databricks/src/airflow/providers/databricks/operators/databricks_sql.py:408-422 | A name with no dot or with three or more dots is the table. Without defaults it stays unchanged. |
| `DatabricksSqlOutput.Zip` | providers/databricks/src/airflow/providers/databricks/operators/databricks_sql.py:133 | `zip` pairs the lists position by position, up to the shorter length. |
| `DatabricksSqlOutput.ZipAppend` | providers/databricks/src/airflow/providers/databricks/operators/databricks_sql.py:133 | Zipping two concatenations whose front parts are equally long zips the front parts and then the rest. |
| `DatabricksSqlOutput.WriterFor` | providers/databricks/src/airflow/providers/databricks/operators/databricks_sql.py:142-165 | `csv`, `json` and `jsonl` select their writers after lower-casing. Every other format has no writer. |
| `DatabricksSqlOutput.WriterForIgnoresCase` | providers/databricks/src/airflow/providers/databricks/operators/databricks_sql.py:142-159 | Two format names that agree up to case select the same writer. |
| `DatabricksSqlOutput.ProcessOutput` | providers/databricks/src/airflow/providers/databricks/operators/databricks_sql.py:131-166 | Without an output path, nothing is written and the pairs are returned. With a path, these raise in order: a missing format, no descriptions, no results, and a missing last description. After that it succeeds exactly when the format has a writer, and otherwise fails with the unsupported format by name. Whenever it succeeds it returns the zipped pairs. |
| `DatabricksSqlOutput.OutputProcessingWhenNeeded` | providers/databricks/src/airflow/providers/databricks/operators/databricks_sql.py:128-135 | With XCom push on, output processing always runs. Without it, processing runs exactly when `_process_output` would do more than pair descriptions with results, so skipping it loses nothing. |
| `DatabricksSqlOutput.OnlyLastStatementDecides` | providers/databricks/src/airflow/providers/databricks/operators/databricks_sql.py:133-166 | Only the last statement's description and results decide whether `_process_output` fails, which error it raises, and which writer writes the file. When the earlier descriptions and results are equally many, the returned list is their pairs followed by the last statement's pairs. |
| `SqlToSlack.ParseActionOnEmptyDf` | providers/slack/src/airflow/providers/slack/transfers/sql_to_slack.py:110-112 | Only `send`, `skip` and `error` are accepted, and each is parsed to the action of that name. Anything else, including a missing or empty value, is refused and reported with the given value. |
| `SqlToSlack.ActionNameRoundTrip` | providers/slack/src/airflow/providers/slack/transfers/sql_to_slack.py:110-112 | Every action is accepted under its own name. |
| `SqlToSlack.WriterFor` | providers/slack/src/airflow/providers/slack/transfers/sql_to_slack.py:154-163 | `CSV`, `JSON` and `HTML` select their writers after upper-casing. Every other format has none. |
| `SqlToSlack.Execute` | providers/slack/src/airflow/providers/slack/transfers/sql_to_slack.py:145-165 | An empty result is skipped under `skip` and fails under `error`. Otherwise, an unknown format fails with the upper-cased format, and a known one is uploaded with its writer. The upload uses `send_file` exactly when the method version is `v1`, and `send_file_v1_to_v2` otherwise. |
| `SqlToSlack.MethodVersionOnlyChoosesUpload` | providers/slack/src/airflow/providers/slack/transfers/sql_to_slack.py:125-129 | The method version decides only how the file is uploaded. Two versions give the same outcome and writer, and the same upload method exactly when both or neither is `v1`. |
| `SqlToSlack.PolicyOnlyMattersWhenEmpty` | providers/slack/src/airflow/providers/slack/transfers/sql_to_slack.py:147-153 | A non-empty result is handled the same under every policy. Under `send`, an empty result is handled like a non-empty one. |
| `SqlToSlack.ExecuteIgnoresFormatCase` | providers/slack/src/airflow/providers/slack/transfers/sql_to_slack.py:145-163 | The outcome does not depend on the case of the format name. |
| `OrderedDict.PutGet` | providers/databricks/src/airflow/providers/databricks/operators/databricks_sql.py:279 | After `d[k] = v`, `k` maps to `v` and every other key keeps its value. |
| `OrderedDict.PutKeys` | providers/databricks/src/airflow/providers/databricks/operators/databricks_sql.py:279 | `d[k] = v` keeps the key order. A present key stays where it is, and a new key is appended as the last entry. |
| `OrderedDict.PutUnique` | providers/databricks/src/airflow/providers/databricks/operators/databricks_sql.py:279 | `d[k] = v` keeps the keys unique. |
| `Strings.JoinSplit` | providers/databricks/src/airflow/providers/databricks/operators/databricks_sql.py:402 | Joining the parts of `split(".")` with the separator gives back the string. |
| `Strings.SplitJoin` | providers/databricks/src/airflow/providers/databricks/operators/databricks_sql.py:402 | Splitting a join of separator-free parts gives back the parts. |
| `Strings.SplitCount` | providers/databricks/src/airflow/providers/databricks/operators/databricks_sql.py:402-403 | `split` yields one more part than there are separators. |
| `Strings.StripIsStripped` | providers/databricks/src/airflow/providers/databricks/operators/databricks_sql.py:359 | `strip()` leaves no whitespace at either end. |
| `Strings.StripFrame` | providers/databricks/src/airflow/providers/databricks/operators/databricks_sql.py:359 | `strip()` removes exactly the whitespace around a text with non-whitespace ends. |
| `Strings.StripKeepsPrefix` | providers/databricks/src/airflow/providers/databricks/operators/databricks_sql.py:359 | `strip()` cannot cut into a leading text that has no surrounding whitespace. |
| `Strings.CaseFolding` | providers/slack/src/airflow/providers/slack/transfers/sql_to_slack.py:145 | Upper-casing after lower-casing is the same as upper-casing, and the other way round. |
| `Strings.ParseNatToString` | providers/databricks/src/airflow/providers/databricks/operators/databricks_sql.py:350 | The decimal text of a natural number parses back to that number. |
| `Strings.NatToString` | providers/databricks/src/airflow/providers/databricks/operators/databricks_sql.py:350 | The decimal text of a natural number is non-empty, all digits, and has no leading zero. |

## Left out

- Hook and connection handling is not modelled: building `DatabricksSqlHook`, `get_db_hook`/`_get_hook`, `DatabricksSqlHook.run` in `execute`, `on_kill`, and `SlackHook`. These are I/O. The constructors' connection arguments (`databricks_conn_id`, `http_path`, `sql_endpoint_name`, `session_configuration`, `http_headers`, `client_parameters`, `catalog`, `schema`, the Slack connection settings) therefore do not appear.
- The hook's OpenLineage default schema and its catalog are parameters of `CopyIntoLineage.FullyQualifiedName`. They are not read from a hook.
- `_build_input_openlineage_dataset` (URL parsing of the file location) and the OpenLineage facets and `Dataset` objects are not modelled. Only the output dataset name is.
- The `try`/`except` around the lineage name is not modelled. No step of the modelled name computation raises.
- The file writes of `_process_output` are not modelled: the CSV header and `csv_params` handling, and JSON/JSONL serialisation. `ProcessOutput` records which writer would be used.
- The field-name extraction `field[0]` of the last description is left out. An empty field there would raise an error that the model does not report.
- The Slack operator's query (`_get_query_results`), pandas writers, `NamedTemporaryFile`, and upload call are not modelled. `parse_filename` is not part of this model: its parsed format is an input to `SqlToSlack.Execute`, as is whether the result is empty.
- The `!= "send"` re-check inside `execute` cannot fire once the constructor has accepted the action. The model's three-valued action has no room for it.
- `ParamEscaper` is not part of this model. Its output is an arbitrary function of the escaped text.
- `Strings.Lower` and `Strings.Upper` map only ASCII letters. Python's `lower()`/`upper()` also map non-ASCII letters, which the model does not cover.
- The constructor mutates the caller's non-empty `copy_options` dict in place when `force_copy` is set, because it reuses that dict; an empty dict is replaced by a fresh one. The model is purely functional and does not show that aliasing.
- Template rendering of `template_fields` and the Airflow base-operator machinery are not modelled.
