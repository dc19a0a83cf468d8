/**
 * The locale-aware CSV import (`impl_model_csv_import_with_locale`): the
 * raw header and every data row go to the bulk loader together with a
 * `lang` option, and the step fails, listing every message the store
 * reported, when the store created no record.
 */
module LocaleImport {
  import PyStrings
  import CsvImport

  /** The bulk loader's answer: ids of the created records and its messages. */
  datatype LoadResult = LoadResult(ids: seq<int>, messages: seq<string>)

  /** The request of this variant: header and rows as read, plus the language. */
  datatype LocaleLoadCall = LocaleLoadCall(model: string, fields: seq<string>, rows: seq<seq<string>>, lang: string)

  /** `Exception(...)` raised by the step, or none. */
  datatype Outcome = Pass | Fail(message: string)

  /**
   * The load request: no column is skipped and no identifier is rewritten,
   * so every header column the plain importer maps or skips is a field
   * here, and the request is made whatever the rows' lengths.
   */
  function LocaleLoad(modelName: string, header: seq<string>, data: seq<seq<string>>, lang: string): (call: LocaleLoadCall)
    ensures call.model == modelName && call.lang == lang
    ensures |call.fields| == |header| == |CsvImport.ColumnMapping(header)| + |CsvImport.SkippedColumns(header)|
    ensures forall i :: 0 <= i < |header| ==> call.fields[i] == header[i]
    ensures |call.rows| == |data| && forall r :: 0 <= r < |data| ==> call.rows[r] == data[r]
  {
    CsvImport.HeaderCount(header);
    LocaleLoadCall(modelName, header, data, lang)
  }

  /** Each reported message as one `- ` line. */
  function Bullets(messages: seq<string>): seq<string>
  {
    seq(|messages|, i requires 0 <= i < |messages| => "- " + messages[i])
  }

  /** The first line of the failure text. */
  function Headline(csvfile: string, modelName: string): string
  {
    "Failed to load file '" + csvfile + "' in '" + modelName + "'. Details:"
  }

  /** The failure text: the headline, then the message lines joined by newlines. */
  function FailureMessage(csvfile: string, modelName: string, messages: seq<string>): string
  {
    Headline(csvfile, modelName) + "\n" + PyStrings.Join('\n', Bullets(messages))
  }

  /** The check after the load: it fails exactly when no id came back. */
  function CheckResult(csvfile: string, modelName: string, result: LoadResult): (o: Outcome)
    ensures o.Fail? <==> |result.ids| == 0
    ensures o.Fail? ==> o.message == FailureMessage(csvfile, modelName, result.messages)
  {
    if |result.ids| == 0 then Fail(FailureMessage(csvfile, modelName, result.messages)) else Pass
  }

  /**
   * Read line by line, the failure text is the headline followed by one
   * `- ` line per reported message, in order; with no message it ends in
   * an empty line.
   */
  lemma {:induction false} FailureLines(csvfile: string, modelName: string, messages: seq<string>)
    requires '\n' !in csvfile && '\n' !in modelName
    requires forall i :: 0 <= i < |messages| ==> '\n' !in messages[i]
    ensures PyStrings.Split(FailureMessage(csvfile, modelName, messages), '\n')
         == [Headline(csvfile, modelName)] + (if messages == [] then [""] else Bullets(messages))
  {
    var head := Headline(csvfile, modelName);
    var lines := Bullets(messages);
    var body := PyStrings.Join('\n', lines);
    assert '\n' !in head by {
      assert head == "Failed to load file '" + csvfile + "' in '" + modelName + "'. Details:";
      assert '\n' !in "Failed to load file '" && '\n' !in "' in '" && '\n' !in "'. Details:";
    }
    forall i | 0 <= i < |lines| ensures '\n' !in lines[i] {
      assert lines[i] == "- " + messages[i];
      assert '\n' !in "- ";
    }
    if messages == [] {
      assert body == "";
      assert PyStrings.Split(body, '\n') == [""];
    } else {
      PyStrings.SplitJoin(lines, '\n');
    }
    var rest := "\n" + body;
    assert rest[0] == '\n' && rest[1..] == body;
    assert PyStrings.Split(rest, '\n') == [""] + PyStrings.Split(body, '\n');
    PyStrings.SplitPrefix(head, rest, '\n');
    assert head + rest == FailureMessage(csvfile, modelName, messages);
    assert head + "" == head;
  }

  /** A load that created nothing and reported one problem fails, naming it on its own line. */
  lemma FailureExample()
    ensures var o := CheckResult("bad.csv", "res.partner", LoadResult([], ["line 2: invalid code"]));
            o.Fail? && PyStrings.Split(o.message, '\n') == [Headline("bad.csv", "res.partner"), "- " + "line 2: invalid code"]
  {
    var messages := ["line 2: invalid code"];
    assert '\n' !in messages[0];
    assert '\n' !in "bad.csv" && '\n' !in "res.partner";
    FailureLines("bad.csv", "res.partner", messages);
    assert Bullets(messages) == ["- " + messages[0]];
  }

  /**
   * Unlike the plain importer, this variant submits empty header cells as
   * field names: with an empty header cell the two requests name different
   * fields.
   */
  lemma LocaleKeepsEmptyColumns(modelName: string, header: seq<string>, data: seq<seq<string>>, lang: string)
    requires "" in header
    requires CsvImport.ImportSpec(modelName, header, data).Ok?
    ensures |CsvImport.ImportSpec(modelName, header, data).value.fields| < |LocaleLoad(modelName, header, data, lang).fields|
  {
    CsvImport.HeaderAccounting(header);
    CsvImport.ImportRows(modelName, header, data);
    var i :| 0 <= i < |header| && header[i] == "";
    assert i in CsvImport.SkippedColumns(header);
  }

  /**
   * Unlike the plain importer, this variant sends a bare identifier as it
   * is: where the plain importer submits `scenario.<v>` for the value in an
   * identifier column, this one submits `<v>` in that column.
   */
  lemma LocaleKeepsBareIds(modelName: string, header: seq<string>, data: seq<seq<string>>, lang: string, r: nat, k: nat)
    requires CsvImport.ImportSpec(modelName, header, data).Ok?
    requires r < |data|
    requires k < |CsvImport.ImportSpec(modelName, header, data).value.fields|
    requires k < |CsvImport.ImportSpec(modelName, header, data).value.rows[r]|
    ensures var plain := CsvImport.ImportSpec(modelName, header, data).value;
            var locale := LocaleLoad(modelName, header, data, lang);
            k < |CsvImport.ColumnMapping(header)| &&
            var c := CsvImport.ColumnMapping(header)[k];
            c < |header| && c < |locale.rows[r]| && locale.fields[c] == plain.fields[k] &&
            (CsvImport.IsIdColumn(header[c]) && '.' !in data[r][c] ==>
               locale.rows[r][c] == data[r][c] && plain.rows[r][k] == CsvImport.Namespace + "." + data[r][c])
  {
    CsvImport.ImportRows(modelName, header, data);
    var skip := CsvImport.SkippedColumns(header);
    assert CsvImport.FilterAll(data, skip)[r] == CsvImport.Kept(data[r], skip);
    CsvImport.MappedCell(header, data[r], k);
  }
}
