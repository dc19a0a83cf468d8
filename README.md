# Fixture data loader: a Dafny model

This project models the loader core of the OpenERP scenario test suite's
fixture steps (`features/steps/load.py`): the steps that load test data into
the store before a behaviour-driven scenario runs.

- **Tabular import** (`impl_load_cvs_into_model`), module `CsvImport`. The
  header row is split into mapped field names (`head`) and the indices of its
  empty cells (`skip`). Each data row loses the cells at `skip` indices. Then
  every value in an `id` or `…/id` column that holds no `.` is moved into the
  `scenario` namespace. The result is one bulk-load request. This part is
  imperative Dafny: `SplitHeader`, `FilterRows`, `RewriteLine` and
  `RewriteIds` are methods with loops, and the method `ImportCsv` runs them
  in the step's order. Each is proved against the
  specification functions `SkippedColumns`, `Kept`, `RewrittenRow`,
  `RewriteAll` and `ImportSpec`, and the lemmas state the properties of
  those functions.
- **Locale-aware import** (`impl_model_csv_import_with_locale`), module
  `LocaleImport`. It sends the raw header and every row with a `lang` option,
  with no column skipping and no identifier rewrite. It fails exactly when the
  store reports no created id. The failure text lists every reported message,
  one `- ` line each.
- **Field evaluation in the YAML interpreter** (`YamlInterpreter._eval_field`),
  module `YamlField`. The column is looked up in the model's own columns
  first, then in the third component of its `_inherit_fields` entry. A
  many2one column with a mapping becomes a search on the related model, with
  one `(k, '=', v)` term per entry. On any other column, an `!image` value
  becomes image processing of its path. Everything else goes to the base
  interpreter. This includes an image value on a many2one column, because the
  image test is an `elif` of the many2one test.
- **Asset path** (`_fileopen`), module `DataPath`. The path segments are the
  feature file's segments before its first `features` segment, then `data`,
  then the file name. Without a `features` segment, `list.index` fails. The
  locale step computes the same segments inline
  (`features/steps/load.py:129-131`).
- `PyStrings` models the Python string operations these steps use: `split`
  and `join` on one separator character, and `endswith`. `Wrappers` holds
  `Option` and `Result`.

Exceptions are modelled as values:
- `IndexOutOfRange` for `line[pos]` past the end of a row;
- `NoFeaturesSegment` for `list.index`;
- `KeyError(message)` for a missing field;
- `Fail(message)` for the locale step's `Exception`.

The store, the file system and the base interpreter are not called. Each
result names the call that would be made (`LoadCall`, `LocaleLoadCall`,
`Search`, `ProcessImage`, `Delegate`), with its arguments.

Four points where the code does something a reader might not expect:
- Cells past the header's width are kept in a filtered row, not dropped.
- A data row too short to reach an identifier column makes the whole import
  fail (`IndexError`), so not every malformed row reaches the store.
- The locale variant keeps empty header cells as field names and does not
  rewrite identifiers.
- An image value on a many2one column is not processed as an image.

## Model

| member | source | states |
|---|---|---|
| `CsvImport.IndicesWhere` | features/steps/load.py:87-96 | exactly the indices of the cells passing the test, each once, in ascending order (used for `skip` and for `rewrite`) |
| `CsvImport.SplitHeader` | features/steps/load.py:85-91 | the header loop builds `skip` = the indices of the empty cells and `head` = the header's cells with those indices dropped |
| `CsvImport.HeaderAccounting` | features/steps/load.py:85-91 | `head` holds exactly the non-empty header cells in header order (the column mapping is ascending); `skip` holds exactly the indices of the empty cells, ascending; every header index is in exactly one of `skip` and the column mapping, and the two sizes add up to the header's width |
| `CsvImport.KeptIndicesSpec` | features/steps/load.py:95 | the kept indices are the indices below the row's length that are not in `skip`, in ascending order |
| `CsvImport.KeptAt` | features/steps/load.py:95 | cell `k` of a filtered row is the source row's cell at the `k`-th kept index |
| `CsvImport.FilterRows` | features/steps/load.py:92-95 | one filtered row per data row, in order, each equal to the row with its `skip` cells dropped |
| `CsvImport.IdColumnMapped` | features/steps/load.py:88-96 | an `id` or `…/id` column name is never empty, so such a column is never skipped |
| `CsvImport.RewriteValue` | features/steps/load.py:100-101 | the rewritten value always contains `.`; a value with `.` is unchanged; a value without one becomes `scenario.` + value |
| `CsvImport.RewriteLine` | features/steps/load.py:99-101 | the inner loop succeeds exactly when every rewrite position lies inside the row, and then yields the row with exactly those positions rewritten |
| `CsvImport.RewriteIds` | features/steps/load.py:97-101 | the nested loops give the rewrite of every row, or `IndexOutOfRange` when some row is too short |
| `CsvImport.RewriteRowIdempotent` | features/steps/load.py:100-101 | rewriting a row twice gives the same row as rewriting it once |
| `CsvImport.RewriteAllIdempotent` | features/steps/load.py:97-101 | running the rewrite on its own output changes nothing |
| `CsvImport.RowFitsIff` | features/steps/load.py:92-101 | a filtered row reaches every rewrite position exactly when the source row reaches every identifier column of the header |
| `CsvImport.ImportSucceedsIff` | features/steps/load.py:92-102 | the import reaches `load` exactly when every data row reaches every identifier column of the header |
| `CsvImport.MappedCell` | features/steps/load.py:92-101 | submitted cell `k` maps to header column `c`: field `k` is `header[c]`, and the cell is the row's cell `c`, rewritten exactly when `header[c]` is an identifier column |
| `CsvImport.ExtraCell` | features/steps/load.py:92-95 | a submitted cell past the mapped fields is the row's cell at the same offset past the header's width, unchanged |
| `CsvImport.ImportRows` | features/steps/load.py:82-102 | the load call names the model, submits `head` as the fields, and submits one row per data row, each filtered and then rewritten |
| `CsvImport.ImportIdempotent` | features/steps/load.py:85-102 | importing the submitted fields and rows again submits the same call |
| `CsvImport.ImportExample` | features/steps/load.py:82-102 | header `name,,partner_id/id` with row `Alice,x,42` submits fields `name, partner_id/id` and row `Alice, scenario.42` |
| `CsvImport.ImportCsv` | features/steps/load.py:82-102 | the step's header loop, row loop, rewrite positions and nested rewrite loops together compute `ImportSpec` |
| `DataPath.IndexOf` | features/steps/load.py:74 | `list.index`: a position holding the element, with no earlier one |
| `DataPath.DataSegments` | features/steps/load.py:72-75 | fails exactly when no segment is `features`; otherwise the segments before the first `features` segment, then `data`, then the file name |
| `DataPath.AssetBesideFeatures` | features/steps/load.py:73-75 | a feature file at `root/features/…` resolves a name to `root/data/<name>` |
| `DataPath.SameTreeSameAsset` | features/steps/load.py:73-75 | all feature files under one `features` directory resolve a name to the same asset |
| `PyStrings.Split` | features/steps/load.py:73 | `str.split` gives at least one piece, and no piece contains the separator |
| `PyStrings.JoinSplit` | features/steps/load.py:73 | joining the pieces of a split with the separator gives back the string |
| `PyStrings.SplitJoin` | features/steps/load.py:140 | splitting a join of separator-free pieces gives back the pieces |
| `LocaleImport.LocaleLoad` | features/steps/load.py:135-138 | the request names the model and the language, sends every header cell as a field (as many as the plain importer maps and skips together) and every row as read, with no error path; `LocaleKeepsEmptyColumns` and `LocaleKeepsBareIds` state how it differs from the plain importer |
| `LocaleImport.CheckResult` | features/steps/load.py:139-143 | the step fails exactly when the store returned no ids, and then with the headline and the joined message lines |
| `LocaleImport.FailureLines` | features/steps/load.py:139-143 | the lines of the failure text are the headline, then one `- ` line per message; with no message, an empty last line |
| `LocaleImport.FailureExample` | features/steps/load.py:139-143 | no ids and the message `line 2: invalid code` fail with `- line 2: invalid code` as the second line |
| `LocaleImport.LocaleKeepsEmptyColumns` | features/steps/load.py:135-138 | with an empty header cell, the locale variant submits more field names than the plain importer |
| `LocaleImport.LocaleKeepsBareIds` | features/steps/load.py:135-138 | a bare value in an identifier column goes to the store unchanged from the locale variant, and as `scenario.` + value from the plain importer |
| `YamlField.LookupColumn` | features/steps/load.py:44-50 | a column is found exactly when the field is among the own or the inherited fields |
| `YamlField.OwnColumnShadowsInherited` | features/steps/load.py:44-47 | an own column decides the result, whatever the inherited entry for the same field says; only the model passed on to the base interpreter differs |
| `YamlField.InheritedLikeOwn` | features/steps/load.py:44-47 | a field found only among the inherited fields evaluates as if the model declared that entry's column itself; only the model passed on to the base interpreter differs |
| `YamlField.Domain` | features/steps/load.py:53 | the domain has one term per mapping entry |
| `YamlField.EvalField` | features/steps/load.py:38-62 | `KeyError` exactly when the field is in neither table; a search on `_obj` with the mapping's domain exactly for a many2one column with a mapping; image processing of the path exactly for a non-many2one column with an image; otherwise delegation with the same model, field, expression, view info and default flag, and a missing parent as `{}` |
| `YamlField.ToMapEntries` | features/steps/load.py:52-53 | a mapping's entries are recovered from its iteration sequence, with one key per entry |
| `YamlField.DomainMatchesDict` | features/steps/load.py:52-54 | the domain's terms are exactly the `(k, '=', v)` for the entries `k: v`, each once |
| `YamlField.DomainOrderIrrelevant` | features/steps/load.py:53 | two iteration orders of the same mapping give the same domain up to order |
| `YamlField.EvalFieldIsGuardedChain` | features/steps/load.py:51-62 | on every input, evaluation equals the handler chain search-criteria, then image-on-a-non-many2one-column, then pass-through |
| `YamlField.PlainChainDiffersOnManyToOneImage` | features/steps/load.py:51-57 | the chain whose image handler takes every image differs from the code exactly for an image on a many2one column: the code delegates, that chain processes the image |
| `YamlField.SearchExample` | features/steps/load.py:51-54 | `partner_id: {name: Alice}` on a many2one to `res.partner` searches `res.partner` for `[("name", "=", "Alice")]` |

## Left out

- CSV tokenizing (`csv.reader`, `features/steps/load.py:83-84,134,155`) is library code. The header and the data rows are inputs.
- `data.next()` on a file with no first record raises `StopIteration` (`features/steps/load.py:87,135`). The header is an input of type `Row`, so a missing header cannot be expressed; an empty file is not modelled.
- File access is I/O: `os.path.exists`, `open` and reading bytes (`features/steps/load.py:36,77-78,133-134`). The `assert os.path.exists(path)` failure is not modelled.
- `os.path.join` (`features/steps/load.py:76`) depends on the operating system, so the model stops at the segment list. The `str(x)` conversion of each segment (`features/steps/load.py:75`) is taken as the identity.
- `_fileopen`'s `mode` argument and the `.csv`/`.yml` suffixes the steps add to the file name are not modelled; they are only passed on.
- Base64 encoding and the file read in `process_image` (`features/steps/load.py:35-36`) are foreign calls. `ProcessImage(path)` names the call, and `DataPath.DataSegments` gives the asset's segments.
- The YAML parser is outside the model. So are the global `!image` constructor registration (`features/steps/load.py:28-33`), the `Image` tag class and its `__str__` (`features/steps/load.py:12-19`), and the base `openerp.tools.YamlInterpreter`. A tagged scalar appears as `Expr.Image(path)`; the base interpreter's handling appears as a `Delegate` result.
- The store calls are the opaque ORM: `search`, `load`, `create`, `do` (`features/steps/load.py:54,102,138,149,166`). The model returns the request that would be sent; the store's answer to the locale load is an input (`LoadResult`).
- Registry, cursor, version branch, `autocommit` and `close` (`features/steps/load.py:105-124`) are transaction plumbing. So is `yaml_import` with its fresh `idref` (`features/steps/load.py:65-69`).
- The asynchronous import step (`features/steps/load.py:146-166`) only builds a constant options dict and calls a background job service.
- The UTF-8 decoding of the locale rows (`features/steps/load.py:136-137`) is taken as the identity on already-decoded strings. Behave's `@step` registration is test-runner glue.
- YamlField.EvalField: the `KeyError` text uses the model's name where Python formats the model object with `%s`; that object's `__str__` is not part of this model.
- LocaleImport.CheckResult: the store's `ids` is a sequence, so a `False` answer is represented by an empty sequence (both are falsy). Each message is taken as its `%s` rendering.
- YamlField.DomainOrderIrrelevant: the iteration order of a Python 2 dict is unspecified. A mapping is therefore modelled as its sequence of entries in some iteration order, and the domain is stated up to that order.
