# Vocabulary preparation engine and sandbox naming, modelled in Dafny

This project models the part of the data steward that prepares OMOP
vocabulary files for loading into the data warehouse
(`data_steward/vocabulary.py`), and the sandbox naming helpers
(`data_steward/sandbox.py`). It proves properties of that model.

- **Dates** (`dates.dfy`). `format_date_str` keeps a `YYYY-MM-DD` value,
  rewrites an eight-digit value as `YYYY-MM-DD`, and rejects everything
  else. Both regular expressions are modelled as Python applies them with
  `re.match`. Their `$` also matches before a final "\n".
- **RowTransform** (`transform.dfy`). `_transform_csv` is a method over two
  output streams. It finds the date columns from the header and writes the
  header first. Each data record is then either written normalised or
  reported on the error stream. The record is updated in place, so an
  error message shows the date fields before the failing one already
  normalised. Messages carry no terminator.
- **FileTransform** (`paths.dfy`). `transform_file` and `transform_files`
  are modelled with POSIX `os.path.basename` and `os.path.join`. They
  derive the output path and the error path. The batch runs in listing
  order and stops at the first file without a header record.
- **Augment** (`augment.dfy`). `_vocab_id_match`, `get_aou_vocabulary_row`,
  `append_vocabulary` and `append_concepts` are modelled here.
  `VOCABULARY_UPDATES` is an object whose templates are stamped in place.
  Files are the lines their iteration yields. The output file is a stream
  with one write per line.
- **Locate** (`locate.dfy`). `add_aou_vocabs` finds the files by their
  lower-cased name without extension, and the last match wins. It fails
  before writing when a file is missing, checking the concept file first.
  It augments the concept file before the vocabulary file.
- **Sandbox** (`sandbox.dfy`). `get_sandbox_dataset_id` and
  `get_sandbox_table_name` are modelled. `check_and_create_sandbox_dataset`
  is a method on a project object holding the set of dataset ids.
- **Base** (`base.dfy`). Shared pieces: `Option`/`Result`, the append-only
  `Stream`, `str.join`, substring containment, and Python's line iteration
  of a text (`SplitLines`).

Two behaviours of the code are worth stating outright:

- When several entries of the input directory have the same table name,
  `add_aou_vocabs` keeps the last one in listing order
  (`data_steward/vocabulary.py:217-223`; `Locate.LastMatch`,
  `Locate.FindTables`).
- The record in the message of a diverted record shows the date fields
  before the failing one already rewritten, because the record is updated
  in place (`data_steward/vocabulary.py:57-63`;
  `RowTransform.ApplyDatesDiverted`).

## Model

| member | source | states |
|---|---|---|
| Dates.FormatDateStr | data_steward/vocabulary.py:20-40 | succeeds exactly when the value matches the `YYYY-MM-DD` or the eight-digit pattern (either may be followed by one final "\n"); any result matches the `YYYY-MM-DD` pattern; a failure carries the rejected value |
| Dates.CanonicalUnchanged | data_steward/vocabulary.py:33-34 | a `YYYY-MM-DD` value comes back unchanged |
| Dates.RawReformatted | data_steward/vocabulary.py:35-37 | an eight-digit `d`, also when followed by one final "\n", becomes `d[0:4]-d[4:6]-d[6:8]`, which is in `YYYY-MM-DD` form |
| Dates.SlashDateRejected | data_steward/vocabulary.py:38-39 | `"2020/01/01"` raises the "Cannot parse value … as date" error |
| Dates.Idempotent | data_steward/vocabulary.py:33-40 | normalising a normalised value changes nothing |
| Dates.ResultCanonical | data_steward/vocabulary.py:20-37 | every result is ten characters in `YYYY-MM-DD` form, except an input that was such a value plus "\n", which passes through unchanged |
| RowTransform.DateIndexesExact | data_steward/vocabulary.py:48-51 | a position is a date index iff it is a header position whose name ends in `_date`; the indexes are strictly increasing |
| RowTransform.FindDateIndexes | data_steward/vocabulary.py:48-51 | the header scan loop computes exactly those date indexes |
| RowTransform.ApplyDates | data_steward/vocabulary.py:57-62 | the record keeps its length, and a field at no date index is never changed, whether the record is written or diverted |
| RowTransform.ApplyDatesWritten | data_steward/vocabulary.py:57-60 | a record is written iff every date index is within the record and its field normalises; the written record has exactly its date fields normalised and every other field unchanged |
| RowTransform.ApplyDatesDiverted | data_steward/vocabulary.py:57-63 | a diverted record stops at the first failing date index; the message gives that failure's reason (index out of range, or the unparseable value) and shows the earlier date fields already normalised |
| RowTransform.NormalizeRecord | data_steward/vocabulary.py:58-59 | the in-place field loop produces the outcome `ApplyDates` specifies |
| RowTransform.ErrorMessage | data_steward/vocabulary.py:62 | the message starts with "Error " and the exception text, and ends with the closing bracket of the record's list form, with no terminator after it |
| RowTransform.RenderRow | data_steward/vocabulary.py:52-55 | a written row starts with its first field and ends with the line terminator |
| RowTransform.TransformRecord | data_steward/vocabulary.py:57-63 | one record adds one rendered row to the output or one message to the error stream, never both |
| RowTransform.TransformCsv | data_steward/vocabulary.py:43-63 | with no records nothing is written and the call fails; otherwise the output is the unchanged header row followed by the surviving records in order, and the error stream holds one message per diverted record in order |
| RowTransform.RowsConserved | data_steward/vocabulary.py:56-63 | rows written plus error messages equals data rows read |
| RowTransform.SurvivorAt | data_steward/vocabulary.py:56-60 | a written record appears in the output, normalised, right after the survivors that precede it |
| RowTransform.SurvivorsKeepOrder | data_steward/vocabulary.py:56-60 | of two written records, the earlier input record is the earlier output row |
| RowTransform.NoDateColumnsPassThrough | data_steward/vocabulary.py:48-60 | without date columns every record is written as read and no message is written |
| FileTransform.Basename | data_steward/vocabulary.py:73 | the base name holds no "/" and is a suffix of the path |
| FileTransform.BasenameIsLastComponent | data_steward/vocabulary.py:73 | a path longer than its base name has a "/" right before it, so the base name is the whole last component |
| FileTransform.PathJoin | data_steward/vocabulary.py:74-76 | joining onto the empty path gives the second part itself |
| FileTransform.PathJoinShape | data_steward/vocabulary.py:74-76 | an absolute second part replaces the first; a relative one ends the joined path, which starts with the first part and has a "/" right before the second part when the first is not empty |
| FileTransform.BasenameOfJoin | data_steward/vocabulary.py:74-76 | joining a name without "/" onto any directory keeps that name as the base name |
| FileTransform.ErrorPathLonger | data_steward/vocabulary.py:73-76 | the error path is longer than the output path |
| FileTransform.TransformPathsSound | data_steward/vocabulary.py:73-76 | the output and error files keep the input's name; the error directory is named `errors`; the error path is longer than the output path, so the two files differ |
| FileTransform.TransformFileAccounts | data_steward/vocabulary.py:83-87 | a transformed file starts with its header row, and its further rows plus its error messages account for every data record |
| FileTransform.TransformFile | data_steward/vocabulary.py:66-87 | transforming a file writes to the derived output and error paths exactly what the transform specifies, and fails when the file has no header record |
| FileTransform.TransformFiles | data_steward/vocabulary.py:90-100 | files are transformed in listing order; the batch completes iff no file is empty, and otherwise stops at the first empty file |
| FileTransform.BatchKeepsNames | data_steward/vocabulary.py:97-100 | each listed entry is written under the output directory, and under its `errors` subdirectory, with its own name |
| Augment.VocabIdMatch | data_steward/vocabulary.py:126-136 | returns the first reserved id, in the mapping's order, that occurs in the text; returns none iff no reserved id occurs |
| Augment.ConflictIffSomeIdOccurs | data_steward/vocabulary.py:149-152 | with no empty reserved id, a line is dropped iff some reserved id occurs in it |
| Augment.CopyUnlessConflict | data_steward/vocabulary.py:149-158 | the copy loop writes exactly the lines that are not conflicts (with no empty reserved id: the lines without a reserved id), in order, and warns once per other line, naming the id found |
| Augment.LinesConserved | data_steward/vocabulary.py:149-158 | every input line is either copied or warned about |
| Augment.KeptMembership | data_steward/vocabulary.py:189-198 | a line is copied iff it is an input line and not a conflict |
| Augment.KeptAppend | data_steward/vocabulary.py:189-198 | filtering distributes over concatenation, so copied lines keep their order |
| Augment.KeptIdempotent | data_steward/vocabulary.py:189-198 | filtering the copied lines again drops nothing |
| Augment.KeptFreeOfReservedIds | data_steward/vocabulary.py:149-158 | with no empty reserved id, no copied line contains any reserved id |
| Augment.Stamp | data_steward/vocabulary.py:122 | the stamped template has the version at index -2 and every other field unchanged |
| Augment.StampIdempotent | data_steward/vocabulary.py:121-122 | stamping twice with one version is stamping once |
| Augment.VocabularyUpdates.RowFor | data_steward/vocabulary.py:112-123 | the id's template is overwritten by its stamped form, the other templates are kept, and the row is the stamped template joined by the delimiter |
| Augment.AppendVocabulary | data_steward/vocabulary.py:177-202 | the output is the copied lines, then the general row with "\n", then the custom row without; both templates are left stamped |
| Augment.AppendConcepts | data_steward/vocabulary.py:139-174 | the output is the copied lines, then the custom-concept lines without the first when there is a header; a header claimed for an empty custom file fails after the copied lines |
| Augment.ConceptBlock | data_steward/vocabulary.py:168-174 | the appended block is the custom-concept file less exactly its first line when it has a header, and all of it otherwise |
| Augment.RenderedRowNamesItself | data_steward/vocabulary.py:119-123 | a row rendered from a five-field template whose first field is its id, with no "\n" in the fields, the version or the delimiter, holds no "\n" and contains that id |
| Augment.RenderedRowIsConflict | data_steward/vocabulary.py:185-192 | with no empty reserved id, the row's id among the reserved ids, a five-field template whose first field is that id, and no "\n" in the fields, the version or the delimiter, an appended row (with anything after it) is a conflict line for any later run |
| Augment.StampedRowsSame | data_steward/vocabulary.py:119-123 | rows rendered from templates already stamped with the same version are the same rows |
| Augment.TerminatedReRead | data_steward/vocabulary.py:189-202 | for five-field templates that start with their ids, no "\n" in the fields, the version or the delimiter, and every input line ending in "\n", reading the output back gives the copied lines, the general row with its "\n", and the custom row |
| Augment.ReRunOutput | data_steward/vocabulary.py:185-202 | with no empty reserved id, the custom id reserved, self-named five-field templates and no "\n" in the fields, the version or the delimiter, a second run over copied lines, one conflict line and the custom row, with the stamped templates and the same version, writes what the first run wrote |
| Augment.VocabularyFixedPoint | data_steward/vocabulary.py:177-202 | re-running the vocabulary augmentation on the text of its own output, with the stamped templates and the same version, writes the same lines again. This holds when no reserved id is empty, both reserved ids are in the mapping, each of their templates has five fields, starts with its own id and holds no "\n", the version and the delimiter hold no "\n", and every input line ends in "\n" |
| Augment.GeneralRowGlued | data_steward/vocabulary.py:198-201 | when the last copied line has no terminator, the general row follows its last character directly instead of starting a line |
| Augment.GluedReRead | data_steward/vocabulary.py:198-202 | for self-named five-field templates, no "\n" in the fields, the version or the delimiter, every earlier input line ending in "\n", and a last input line that is kept and has no "\n", reading the output back gives the earlier copied lines, then that line with the general row glued on as one line, then the custom row |
| Augment.UnterminatedLastLineLost | data_steward/vocabulary.py:189-202 | under the same conditions as the re-run above, except that the last input line is a kept line without "\n", the second run loses that line: it writes what the first run writes for the input without it |
| Locate.Lower | data_steward/vocabulary.py:218 | lower-casing keeps the length and lower-cases each ASCII letter |
| Locate.LowerIdempotent | data_steward/vocabulary.py:218 | lower-casing twice is lower-casing once |
| Locate.TableName | data_steward/vocabulary.py:218 | the table name is a prefix of the lower-cased name with no upper-case letter; what is cut off starts with a dot and holds no other dot |
| Locate.TableNameIgnoresCase | data_steward/vocabulary.py:216-218 | names differing only in letter case have the same table name |
| Locate.SplitExtRoot | data_steward/vocabulary.py:218 | the root is a prefix of the path; what is cut off starts with a dot and holds no other dot and no "/" |
| Locate.SplitExtOfRootAndExtension | data_steward/vocabulary.py:218 | for a root and an extension without "/", an extension without ".", and a root with a non-dot character, `root.ext` is cut back to `root` |
| Locate.ExtensionStripped | data_steward/vocabulary.py:218-222 | a name whose lower-cased form is `root.ext`, with no "/" in the root or the extension, no "." in the extension and a non-dot character in the root, has table name `root` |
| Locate.LastMatch | data_steward/vocabulary.py:217-223 | the found path is none iff no entry has the table name, and otherwise is the last such entry joined onto the directory |
| Locate.LastMatchWins | data_steward/vocabulary.py:217-223 | a matching entry followed by no other match is the one found |
| Locate.FindTables | data_steward/vocabulary.py:213-223 | the search loop finds the last concept entry and the last vocabulary entry |
| Locate.Locate | data_steward/vocabulary.py:224-227 | fails with the concept error iff there is no concept entry, and with the vocabulary error iff there is a concept entry but no vocabulary entry; the error message is "CONCEPT.csv was not found in " or "VOCABULARY.csv was not found in " followed by the directory |
| Locate.AugmentedKeepsName | data_steward/vocabulary.py:229-233 | each augmented file keeps its listed name under the output directory |
| Locate.AddAouVocabs | data_steward/vocabulary.py:205-234 | a missing file fails before any write and leaves the templates untouched; otherwise the concept file is augmented and then the vocabulary file, each to its derived output path |
| Locate.AugmentLocated | data_steward/vocabulary.py:229-234 | the concept file is augmented first; the vocabulary file is written only when that succeeded |
| Sandbox.SandboxDatasetId | data_steward/sandbox.py:29-36 | the sandbox id is the dataset id followed by `_sandbox` |
| Sandbox.SandboxDatasetIdInjective | data_steward/sandbox.py:35-36 | different datasets have different sandbox ids |
| Sandbox.Sanitize | data_steward/sandbox.py:48-49 | keeps the length; each word character is kept and each other character becomes `_` |
| Sandbox.SanitizeIdempotent | data_steward/sandbox.py:48-49 | sanitising twice is sanitising once |
| Sandbox.SandboxTableName | data_steward/sandbox.py:39-49 | the table name is the dataset id, `_`, and a rule part as long as the rule name, made only of word characters, with every word character of the rule name kept in place and every other character replaced by `_` |
| Sandbox.WordRuleNameVerbatim | data_steward/sandbox.py:47-49 | a rule name made only of word characters appears verbatim |
| Sandbox.Project.CreateSandboxDataset | data_steward/sandbox.py:9-26 | adds the sandbox id to the datasets and returns it |
| Sandbox.Project.CheckAndCreateSandboxDataset | data_steward/sandbox.py:52-66 | always returns the sandbox id; creates it iff it was absent; leaves the datasets unchanged when it was present; the sandbox is present afterwards |

## Left out

- File system access is not modelled. That covers `open`, `os.makedirs` and the `OSError` it swallows, `os.listdir`, `seek` and `readline`. Directory listings and file contents are inputs, and written files are streams.
- The empty output and error files that `transform_file` creates before the transform fails on an empty input are not modelled. The model returns no result for such a file.
- The `csv` reader and writer quoting and escaping are not modelled. A record arrives split into fields and is written as its fields joined by the delimiter plus the line terminator.
- `RowTransform.ListRepr` uses single quotes and no escaping. Python's `repr` switches to double quotes for a value holding a single quote, and escapes backslashes and control characters.
- `\d`, `\W` and `str.lower` are modelled on ASCII only. Python applies them to all of Unicode.
- `DELIMITER` and `LINE_TERMINATOR` are parameters. The contents of `VOCABULARY_UPDATES` are constructor arguments. These constants live in `common.py`, which is not part of this model.
- The values "concept", "vocabulary", "errors", "AoU_General" and "AoU_Custom" come from the same constants file. They follow the file names and comments in `vocabulary.py`.
- `hash_dir` and `get_aou_vocab_version` are not modelled. The version is a parameter, and both rows use the same value, where the code hashes the directory once per row.
- Reading a file back is modelled as iterating an `io.StringIO` over its text (`SplitLines`), which splits after each "\n" only. Iterating a file opened with `open(path, 'r')` also ends a line at "\r" and at "\r\n" and translates both to "\n". The re-run lemmas therefore describe texts without "\r".
- `csv.Sniffer().has_header` is not modelled. Its verdict is a parameter.
- Augment.AppendConcepts: on an empty custom-concept file the header heuristic itself raises in the code. The model takes the verdict as given and fails only when the verdict is "header".
- Augment.VocabularyUpdates.RowFor: requires the id to have a template with at least two fields. The code raises `TypeError` or `IndexError` otherwise, and its callers only pass the two reserved ids.
- Warnings are modelled as the reserved id each one names. The `ERROR_APPENDING` text and `logging` are not modelled.
- The default `sys.stderr` error stream of `_transform_csv` is not modelled, because `transform_file` always passes its error file.
- The `__main__` command line is not modelled.
- The BigQuery calls `list_datasets` and `create_dataset` are modelled only as their effect on the set of dataset ids. The friendly name and description given to a new sandbox are not modelled.
- FileTransform.TransformFile: reads the original contents of the input even when its output or error path names that same file (an output directory equal to the input directory). The code opens the output with 'w' first, which empties the input, so its header read then fails.
- FileTransform.TransformFiles: reads the original contents even when an output path names an input file, as for `TransformFile`. It also requires every entry to have contents, which rules out an entry that cannot be opened, such as a directory; in the code that open error stops the batch.
- Locate.AddAouVocabs: reads the original concept and vocabulary rows even when an output path names the input file (an output directory equal to the input directory). The code opens the output with 'w' first, which empties the input, so its original rows are lost.
- Locate.AugmentLocated: reads the original rows even when an output path names the input file, as for `AddAouVocabs`.
- Sandbox.Project.CreateSandboxDataset: requires the sandbox to be absent. `create_dataset` with `overwrite_existing` false on an existing dataset is not modelled, because the only caller checks first.
