/**
 * The tabular importer (`impl_load_cvs_into_model`): the header row is split
 * into mapped field names and unmapped (empty) columns, every data row loses
 * its unmapped cells, and every bare value of an identifier column is moved
 * into the `scenario` namespace before the rows go to the store's bulk
 * loader. The CSV tokenizer and the loader itself are outside the model:
 * the header and the data rows are inputs, the load call is the output.
 */
module CsvImport {
  import opened Wrappers
  import PyStrings

  type Row = seq<string>

  /** The namespace bare identifiers are moved into. */
  const Namespace := "scenario"

  /** `line[pos]` past the end of a row: Python's `IndexError`. */
  datatype ImportError = IndexOutOfRange

  /** The single bulk-load request the importer sends to the store. */
  datatype LoadCall = LoadCall(model: string, fields: Row, rows: seq<Row>)

  predicate Ascending(ix: seq<nat>)
  {
    forall a, b :: 0 <= a < b < |ix| ==> ix[a] < ix[b]
  }

  /** An empty header cell names no field: its column is skipped. */
  predicate IsUnmapped(cell: string)
  {
    cell == ""
  }

  /** A field holding external identifiers: `id` or `<relation>/id`. */
  predicate IsIdColumn(name: string)
  {
    name == "id" || PyStrings.EndsWith(name, "/id")
  }

  /** Ascending indices of the cells of `s` that satisfy `p`. */
  function IndicesWhere(s: Row, p: string -> bool): (ix: seq<nat>)
    ensures Ascending(ix)
    ensures forall j :: 0 <= j < |ix| ==> ix[j] < |s| && p(s[ix[j]])
    ensures forall i :: 0 <= i < |s| && p(s[i]) ==> i in ix
  {
    if |s| == 0 then []
    else
      var n := |s| - 1;
      var prefix := IndicesWhere(s[..n], p);
      assert forall j :: 0 <= j < |prefix| ==> s[..n][prefix[j]] == s[prefix[j]];
      assert forall i :: 0 <= i < n ==> s[..n][i] == s[i];
      prefix + (if p(s[n]) then [n] else [])
  }

  /** The `skip` list: ascending indices of the empty header cells. */
  function SkippedColumns(header: Row): (skip: seq<nat>)
  {
    IndicesWhere(header, IsUnmapped)
  }

  /** The positions of `head` whose values get the namespace prefix. */
  function RewritePositions(head: Row): (rw: seq<nat>)
  {
    IndicesWhere(head, IsIdColumn)
  }

  /** The cells of `row` whose index is not in `skip`, in their order. */
  function Kept(row: Row, skip: seq<nat>): Row
  {
    if |row| == 0 then []
    else
      var n := |row| - 1;
      Kept(row[..n], skip) + (if n in skip then [] else [row[n]])
  }

  /** The source indices of the cells `Kept` keeps from a row of length `n`. */
  function KeptIndices(n: nat, skip: seq<nat>): seq<nat>
  {
    if n == 0 then [] else KeptIndices(n - 1, skip) + (if n - 1 in skip then [] else [n - 1])
  }

  /** The kept indices are, in ascending order, the indices below `n` not in `skip`. */
  lemma {:induction false} KeptIndicesSpec(n: nat, skip: seq<nat>)
    ensures Ascending(KeptIndices(n, skip))
    ensures forall j :: 0 <= j < |KeptIndices(n, skip)| ==> KeptIndices(n, skip)[j] < n && KeptIndices(n, skip)[j] !in skip
    ensures forall i :: 0 <= i < n && i !in skip ==> i in KeptIndices(n, skip)
  {
    if n > 0 {
      KeptIndicesSpec(n - 1, skip);
    }
  }

  /** The column mapping: the header index each submitted field comes from. */
  function ColumnMapping(header: Row): seq<nat>
  {
    KeptIndices(|header|, SkippedColumns(header))
  }

  /** A bare identifier is moved into the namespace; a qualified one is kept. */
  function RewriteValue(v: string): (r: string)
    ensures '.' in r
    ensures '.' in v ==> r == v
    ensures '.' !in v ==> r == Namespace + "." + v
  {
    if '.' in v then v
    else
      var r := Namespace + "." + v;
      assert r[|Namespace|] == '.';
      r
  }

  /** Every rewrite position lies inside the row. */
  predicate Fits(line: Row, rw: seq<nat>)
  {
    forall j :: 0 <= j < |rw| ==> rw[j] < |line|
  }

  /** `line` with the value at every rewrite position rewritten. */
  function RewrittenRow(line: Row, rw: seq<nat>): Row
  {
    seq(|line|, i requires 0 <= i < |line| => if i in rw then RewriteValue(line[i]) else line[i])
  }

  /** The rewrite over all rows: it fails when some row is too short. */
  function RewriteAll(values: seq<Row>, rw: seq<nat>): Result<seq<Row>, ImportError>
  {
    if forall r :: 0 <= r < |values| ==> Fits(values[r], rw)
    then Ok(seq(|values|, r requires 0 <= r < |values| => RewrittenRow(values[r], rw)))
    else Err(IndexOutOfRange)
  }

  /** Every data row with its skipped cells dropped. */
  function FilterAll(data: seq<Row>, skip: seq<nat>): seq<Row>
  {
    seq(|data|, r requires 0 <= r < |data| => Kept(data[r], skip))
  }

  /** What the importer sends to the store for a header and its data rows. */
  function ImportSpec(modelName: string, header: Row, data: seq<Row>): Result<LoadCall, ImportError>
  {
    var skip := SkippedColumns(header);
    var head := Kept(header, skip);
    var values := FilterAll(data, skip);
    match RewriteAll(values, RewritePositions(head))
    case Ok(rows) => Ok(LoadCall(modelName, head, rows))
    case Err(e) => Err(e)
  }

  // ---------------------------------------------------------------------
  // Facts about keeping cells

  /** `Kept` only looks at the members of `skip` below the row's length. */
  lemma {:induction false} KeptAgree(row: Row, s1: seq<nat>, s2: seq<nat>)
    requires forall i :: 0 <= i < |row| ==> (i in s1 <==> i in s2)
    ensures Kept(row, s1) == Kept(row, s2)
  {
    if |row| > 0 {
      KeptAgree(row[..|row| - 1], s1, s2);
    }
  }

  /** `KeptIndices` only looks at the members of `skip` below `n`. */
  lemma {:induction false} KeptIndicesAgree(n: nat, s1: seq<nat>, s2: seq<nat>)
    requires forall i :: 0 <= i < n ==> (i in s1 <==> i in s2)
    ensures KeptIndices(n, s1) == KeptIndices(n, s2)
  {
    if n > 0 {
      KeptIndicesAgree(n - 1, s1, s2);
    }
  }

  /** Cell `k` of a filtered row is the row's cell at the `k`-th kept index. */
  lemma {:induction false} KeptAt(row: Row, skip: seq<nat>)
    ensures |Kept(row, skip)| == |KeptIndices(|row|, skip)|
    ensures forall k :: 0 <= k < |Kept(row, skip)| ==>
      KeptIndices(|row|, skip)[k] < |row| && Kept(row, skip)[k] == row[KeptIndices(|row|, skip)[k]]
  {
    KeptIndicesSpec(|row|, skip);
    if |row| > 0 {
      var n := |row| - 1;
      KeptAt(row[..n], skip);
      assert forall i :: 0 <= i < n ==> row[..n][i] == row[i];
    }
  }

  /** Kept indices of a shorter row are a prefix of those of a longer one. */
  lemma {:induction false} KeptIndicesPrefix(n: nat, m: nat, skip: seq<nat>)
    requires n <= m
    ensures |KeptIndices(n, skip)| <= |KeptIndices(m, skip)|
    ensures KeptIndices(n, skip) == KeptIndices(m, skip)[..|KeptIndices(n, skip)|]
  {
    if n < m {
      KeptIndicesPrefix(n, m - 1, skip);
      var kn, km1 := KeptIndices(n, skip), KeptIndices(m - 1, skip);
      var km := km1 + (if m - 1 in skip then [] else [m - 1]);
      assert KeptIndices(m, skip) == km;
      assert km[..|kn|] == km1[..|kn|];
    }
  }

  /** Past the last skipped column every index is kept. */
  lemma {:induction false} KeptIndicesBeyond(n: nat, m: nat, skip: seq<nat>)
    requires n <= m
    requires forall j :: 0 <= j < |skip| ==> skip[j] < n
    ensures KeptIndices(m, skip) == KeptIndices(n, skip) + seq(m - n, i => n + i)
  {
    if n < m {
      KeptIndicesBeyond(n, m - 1, skip);
      assert m - 1 !in skip;
      assert KeptIndices(m, skip) == KeptIndices(m - 1, skip) + [m - 1];
      assert seq(m - 1 - n, i => n + i) + [m - 1] == seq(m - n, i => n + i);
    }
  }

  /**
   * Position `p` of the mapping of width `m` is kept from a row of length
   * `n` exactly when the column it maps lies inside that row.
   */
  lemma KeptPositionInside(n: nat, m: nat, skip: seq<nat>, p: nat)
    requires p < |KeptIndices(m, skip)|
    ensures p < |KeptIndices(n, skip)| <==> KeptIndices(m, skip)[p] < n
    ensures p < |KeptIndices(n, skip)| ==> KeptIndices(n, skip)[p] == KeptIndices(m, skip)[p]
  {
    var km, kn := KeptIndices(m, skip), KeptIndices(n, skip);
    if n <= m {
      KeptIndicesPrefix(n, m, skip);
      if km[p] < n {
        var c := km[p];
        assert c in kn;
        var q :| 0 <= q < |kn| && kn[q] == c;
        assert km[q] == c;
      }
    } else {
      KeptIndicesPrefix(m, n, skip);
    }
  }

  // ---------------------------------------------------------------------
  // The header split

  /**
   * The header split accounts for every header index once: the skipped
   * indices are exactly the empty cells, the mapped indices exactly the
   * others, and the field names are the non-empty cells in header order.
   */
  lemma {:induction false} HeaderAccounting(header: Row)
    ensures var skip := SkippedColumns(header);
            var head := Kept(header, skip);
            var mapping := ColumnMapping(header);
            |head| == |mapping| && |head| + |skip| == |header| &&
            Ascending(mapping) && Ascending(skip) &&
            (forall k :: 0 <= k < |head| ==> mapping[k] < |header| && head[k] == header[mapping[k]] && head[k] != "") &&
            (forall i :: 0 <= i < |header| ==> (i in skip <==> header[i] == "") && (i in mapping <==> header[i] != ""))
  {
    var skip := SkippedColumns(header);
    KeptAt(header, skip);
    KeptIndicesSpec(|header|, skip);
    HeaderCount(header);
  }

  /** Mapped and skipped columns together number the header's cells. */
  lemma {:induction false} HeaderCount(header: Row)
    ensures |ColumnMapping(header)| + |SkippedColumns(header)| == |header|
  {
    if |header| > 0 {
      var n := |header| - 1;
      var prefix := header[..n];
      HeaderCount(prefix);
      var skip, skipPre := SkippedColumns(header), SkippedColumns(prefix);
      assert forall i :: 0 <= i < n ==> prefix[i] == header[i];
      assert forall i :: 0 <= i < n ==> (i in skip <==> i in skipPre);
      KeptIndicesAgree(n, skip, skipPre);
      assert n in skip <==> header[n] == "";
    }
  }

  // ---------------------------------------------------------------------
  // The identifier rewrite

  /** Rewriting twice gives what rewriting once gave. */
  lemma RewriteRowIdempotent(line: Row, rw: seq<nat>)
    ensures RewrittenRow(RewrittenRow(line, rw), rw) == RewrittenRow(line, rw)
  {
  }

  /**
   * The rewrite is idempotent over all rows: rewritten rows are as long as
   * before, so they still fit, and every rewritten value already holds `.`.
   */
  lemma RewriteAllIdempotent(values: seq<Row>, rw: seq<nat>)
    requires RewriteAll(values, rw).Ok?
    ensures RewriteAll(RewriteAll(values, rw).value, rw) == RewriteAll(values, rw)
  {
    var once := RewriteAll(values, rw).value;
    forall r | 0 <= r < |values| ensures Fits(once[r], rw) && RewrittenRow(once[r], rw) == once[r] {
      RewriteRowIdempotent(values[r], rw);
      assert |once[r]| == |values[r]|;
    }
    assert seq(|once|, r requires 0 <= r < |once| => RewrittenRow(once[r], rw)) == once;
  }

  /** Adding one position to the rewritten set rewrites one more cell. */
  lemma RewriteOneMore(line: Row, rw: seq<nat>, j: nat)
    requires j < |rw| && rw[j] < |line|
    ensures var before := RewrittenRow(line, rw[..j]);
            RewrittenRow(line, rw[..j + 1]) == before[rw[j] := RewriteValue(before[rw[j]])]
  {
    assert rw[..j + 1] == rw[..j] + [rw[j]];
  }

  // ---------------------------------------------------------------------
  // What the importer submits

  /** An identifier column has a non-empty name, so it is always mapped. */
  lemma IdColumnMapped(name: string)
    requires IsIdColumn(name)
    ensures !IsUnmapped(name)
  {
    if name != "id" {
      assert |name| >= 3;
    }
  }

  /**
   * A filtered row reaches every rewrite position exactly when the source
   * row reaches every identifier column of the header.
   */
  lemma RowFitsIff(header: Row, row: Row)
    ensures var skip := SkippedColumns(header);
            Fits(Kept(row, skip), RewritePositions(Kept(header, skip))) <==>
            forall c :: 0 <= c < |header| && IsIdColumn(header[c]) ==> c < |row|
  {
    var skip := SkippedColumns(header);
    var head := Kept(header, skip);
    var mapping := ColumnMapping(header);
    var kept := Kept(row, skip);
    var rw := RewritePositions(head);
    HeaderAccounting(header);
    KeptAt(row, skip);
    if forall c :: 0 <= c < |header| && IsIdColumn(header[c]) ==> c < |row| {
      forall j | 0 <= j < |rw| ensures rw[j] < |kept| {
        KeptPositionInside(|row|, |header|, skip, rw[j]);
      }
    }
    if Fits(kept, rw) {
      forall c | 0 <= c < |header| && IsIdColumn(header[c]) ensures c < |row| {
        IdColumnMapped(header[c]);
        assert c in mapping;
        var p :| 0 <= p < |mapping| && mapping[p] == c;
        assert head[p] == header[c];
        assert p in rw;
        KeptPositionInside(|row|, |header|, skip, p);
      }
    }
  }

  /**
   * The import goes through exactly when every data row reaches every
   * identifier column of the header; otherwise `line[pos]` fails.
   */
  lemma ImportSucceedsIff(modelName: string, header: Row, data: seq<Row>)
    ensures ImportSpec(modelName, header, data).Ok? <==>
      forall r, c :: 0 <= r < |data| && 0 <= c < |header| && IsIdColumn(header[c]) ==> c < |data[r]|
  {
    var skip := SkippedColumns(header);
    var values := FilterAll(data, skip);
    var rw := RewritePositions(Kept(header, skip));
    forall r | 0 <= r < |data|
      ensures Fits(values[r], rw) <==> forall c :: 0 <= c < |header| && IsIdColumn(header[c]) ==> c < |data[r]|
    {
      RowFitsIff(header, data[r]);
    }
  }

  /**
   * A submitted cell in a mapped position `k`: the data row's cell in the
   * `k`-th mapped column, rewritten exactly when that column is an
   * identifier column.
   */
  lemma MappedCell(header: Row, row: Row, k: nat)
    requires k < |Kept(header, SkippedColumns(header))|
    requires k < |Kept(row, SkippedColumns(header))|
    ensures var skip := SkippedColumns(header);
            var head := Kept(header, skip);
            k < |ColumnMapping(header)| &&
            var c := ColumnMapping(header)[k];
            c < |header| && c < |row| && head[k] == header[c] &&
            RewrittenRow(Kept(row, skip), RewritePositions(head))[k] ==
              (if IsIdColumn(header[c]) then RewriteValue(row[c]) else row[c])
  {
    var skip := SkippedColumns(header);
    var head := Kept(header, skip);
    HeaderAccounting(header);
    KeptAt(row, skip);
    KeptPositionInside(|row|, |header|, skip, k);
    assert IsIdColumn(head[k]) <==> k in RewritePositions(head);
  }

  /**
   * A submitted cell past the mapped fields: one of the row's cells beyond
   * the header's width, passed on as it is.
   */
  lemma ExtraCell(header: Row, row: Row, k: nat)
    requires |Kept(header, SkippedColumns(header))| <= k < |Kept(row, SkippedColumns(header))|
    ensures var skip := SkippedColumns(header);
            var head := Kept(header, skip);
            var c := |header| + (k - |head|);
            c < |row| && RewrittenRow(Kept(row, skip), RewritePositions(head))[k] == row[c]
  {
    var skip := SkippedColumns(header);
    var head := Kept(header, skip);
    var kept := Kept(row, skip);
    KeptAt(header, skip);
    KeptAt(row, skip);
    if |row| <= |header| {
      KeptIndicesPrefix(|row|, |header|, skip);
    } else {
      KeptIndicesBeyond(|header|, |row|, skip);
      var kr := KeptIndices(|row|, skip);
      assert kr[k] == |header| + (k - |head|);
      assert kept[k] == row[kr[k]];
      var rw := RewritePositions(head);
      assert k !in rw;
      assert RewrittenRow(kept, rw)[k] == kept[k];
    }
  }

  /** The submitted rows are the data rows, each filtered and then rewritten. */
  lemma ImportRows(modelName: string, header: Row, data: seq<Row>)
    requires ImportSpec(modelName, header, data).Ok?
    ensures var skip := SkippedColumns(header);
            var call := ImportSpec(modelName, header, data).value;
            call.model == modelName && call.fields == Kept(header, skip) && |call.rows| == |data| &&
            forall r :: 0 <= r < |data| ==> call.rows[r] == RewrittenRow(Kept(data[r], skip), RewritePositions(call.fields))
  {
  }

  /**
   * Importing what the importer submitted, with the submitted field names
   * as the header, submits the same call again: no column is empty any
   * more and every identifier is already qualified.
   */
  lemma ImportIdempotent(modelName: string, header: Row, data: seq<Row>)
    requires ImportSpec(modelName, header, data).Ok?
    ensures var call := ImportSpec(modelName, header, data).value;
            ImportSpec(modelName, call.fields, call.rows) == Ok(call)
  {
    var skip := SkippedColumns(header);
    var head := Kept(header, skip);
    var values := FilterAll(data, skip);
    var rw := RewritePositions(head);
    var call := ImportSpec(modelName, header, data).value;
    HeaderAccounting(header);
    assert call.fields == head;
    var skip2 := SkippedColumns(head);
    NoneUnmapped(head);
    KeptAgree(head, [], skip2);
    KeptNothing(head);
    forall q | 0 <= q < |call.rows| ensures Kept(call.rows[q], skip2) == call.rows[q] {
      KeptNothing(call.rows[q]);
    }
    var values2 := FilterAll(call.rows, skip2);
    assert values2 == call.rows;
    assert Kept(head, skip2) == head;
    assert call.rows == RewriteAll(values, rw).value;
    RewriteAllIdempotent(values, rw);
    assert RewriteAll(values2, RewritePositions(Kept(head, skip2))) == Ok(call.rows);
    ImportRows(modelName, header, data);
    assert call == LoadCall(modelName, head, call.rows);
  }

  /** A header without empty cells skips nothing. */
  lemma {:induction false} NoneUnmapped(header: Row)
    requires forall k :: 0 <= k < |header| ==> header[k] != ""
    ensures SkippedColumns(header) == []
  {
    if |header| > 0 {
      NoneUnmapped(header[..|header| - 1]);
    }
  }

  /** With nothing to skip, a row is kept whole. */
  lemma {:induction false} KeptNothing(row: Row)
    ensures Kept(row, []) == row
  {
    if |row| > 0 {
      KeptNothing(row[..|row| - 1]);
    }
  }

  /** The example header: column 1 is unmapped, column 2 is an identifier column. */
  lemma ExampleHeader()
    ensures SkippedColumns(["name", "", "partner_id/id"]) == [1]
    ensures Kept(["name", "", "partner_id/id"], [1]) == ["name", "partner_id/id"]
    ensures RewritePositions(["name", "partner_id/id"]) == [1]
  {
    var header: Row := ["name", "", "partner_id/id"];
    assert header[..2] == ["name", ""];
    assert header[..2][..1] == ["name"];
    assert IndicesWhere(header[..2][..1][..0], IsUnmapped) == [];
    assert IndicesWhere(header[..2][..1], IsUnmapped) == [];
    assert IndicesWhere(header[..2], IsUnmapped) == [1];
    assert Kept(header[..2][..1][..0], [1]) == [];
    assert Kept(header[..2][..1], [1]) == ["name"];
    assert Kept(header[..2], [1]) == ["name"];
    var head: Row := ["name", "partner_id/id"];
    assert head[..1] == ["name"];
    assert PyStrings.EndsWith("partner_id/id", "/id");
    assert !PyStrings.EndsWith("name", "/id");
    assert IndicesWhere(head[..1][..0], IsIdColumn) == [];
    assert IndicesWhere(head[..1], IsIdColumn) == [];
  }

  /**
   * A header with an unmapped column and a relational identifier column:
   * the unmapped cell is dropped and the bare identifier is qualified.
   */
  lemma ImportExample()
    ensures ImportSpec("res.partner", ["name", "", "partner_id/id"], [["Alice", "x", "42"]])
         == Ok(LoadCall("res.partner", ["name", "partner_id/id"], [["Alice", "scenario.42"]]))
  {
    ExampleHeader();
    ExampleRow();
    var header: Row := ["name", "", "partner_id/id"];
    var skip := SkippedColumns(header);
    var head := Kept(header, skip);
    assert FilterAll([["Alice", "x", "42"]], skip) == [["Alice", "42"]];
    assert RewriteAll(FilterAll([["Alice", "x", "42"]], skip), RewritePositions(head)) == Ok([["Alice", "scenario.42"]]);
  }

  /** The example's data row: the unmapped cell goes, the identifier is qualified. */
  lemma ExampleRow()
    ensures FilterAll([["Alice", "x", "42"]], [1]) == [["Alice", "42"]]
    ensures RewriteAll([["Alice", "42"]], [1]) == Ok([["Alice", "scenario.42"]])
  {
    var row: Row := ["Alice", "x", "42"];
    assert row[..2] == ["Alice", "x"];
    assert row[..2][..1] == ["Alice"];
    assert Kept(row[..2][..1][..0], [1]) == [];
    assert Kept(row[..2][..1], [1]) == ["Alice"];
    assert Kept(row[..2], [1]) == ["Alice"];
    assert Kept(row, [1]) == ["Alice", "42"];
    assert FilterAll([row], [1]) == [["Alice", "42"]];
    assert '.' !in "42";
    assert RewriteValue("42") == "scenario.42";
    assert RewrittenRow(["Alice", "42"], [1]) == ["Alice", "scenario.42"];
    assert Fits(["Alice", "42"], [1]);
    var once := RewriteAll([["Alice", "42"]], [1]).value;
    assert |once| == 1 && once[0] == ["Alice", "scenario.42"];
    assert once == [["Alice", "scenario.42"]];
  }

  // ---------------------------------------------------------------------
  // The importer

  /**
   * The header loop: empty cells go to `skip` by index, the other cells to
   * `head` by name.
   */
  method SplitHeader(header: Row) returns (head: Row, skip: seq<nat>)
    ensures skip == SkippedColumns(header)
    ensures head == Kept(header, skip)
  {
    head, skip := [], [];
    for index := 0 to |header|
      invariant skip == IndicesWhere(header[..index], IsUnmapped)
      invariant head == Kept(header[..index], skip)
    {
      assert header[..index + 1][..index] == header[..index];
      if header[index] != "" {
        head := head + [header[index]];
      } else {
        KeptAgree(header[..index], skip, skip + [index]);
        skip := skip + [index];
      }
    }
    assert header[..|header|] == header;
  }

  /** The row loop: each data row with its skipped cells dropped. */
  method FilterRows(data: seq<Row>, skip: seq<nat>) returns (values: seq<Row>)
    ensures |values| == |data|
    ensures forall r :: 0 <= r < |data| ==> values[r] == Kept(data[r], skip)
  {
    values := [];
    for r := 0 to |data|
      invariant |values| == r
      invariant forall q :: 0 <= q < r ==> values[q] == Kept(data[q], skip)
    {
      values := values + [Kept(data[r], skip)];
    }
  }

  /** The inner rewrite loop over one row; `IndexOutOfRange` if it is too short. */
  method RewriteLine(line: Row, rw: seq<nat>) returns (res: Result<Row, ImportError>)
    ensures res.Ok? <==> Fits(line, rw)
    ensures res.Ok? ==> res.value == RewrittenRow(line, rw)
  {
    var cur := line;
    for j := 0 to |rw|
      invariant Fits(line, rw[..j])
      invariant cur == RewrittenRow(line, rw[..j])
    {
      var pos := rw[j];
      if pos >= |cur| {
        return Err(IndexOutOfRange);
      }
      RewriteOneMore(line, rw, j);
      if '.' !in cur[pos] {
        cur := cur[pos := Namespace + "." + cur[pos]];
      }
    }
    assert rw[..|rw|] == rw;
    return Ok(cur);
  }

  /** The outer rewrite loop: every row in turn, stopping at the first error. */
  method RewriteIds(values: seq<Row>, rw: seq<nat>) returns (res: Result<seq<Row>, ImportError>)
    ensures res == RewriteAll(values, rw)
  {
    var rows := values;
    if |rw| > 0 {
      for r := 0 to |rows|
        invariant |rows| == |values|
        invariant forall q :: 0 <= q < r ==> Fits(values[q], rw) && rows[q] == RewrittenRow(values[q], rw)
        invariant forall q :: r <= q < |rows| ==> rows[q] == values[q]
      {
        var line := RewriteLine(rows[r], rw);
        if line.Err? {
          assert !Fits(values[r], rw);
          assert !(forall q :: 0 <= q < |values| ==> Fits(values[q], rw));
          return Err(IndexOutOfRange);
        }
        rows := rows[r := line.value];
      }
    } else {
      forall r | 0 <= r < |values| ensures RewrittenRow(values[r], rw) == values[r] { }
    }
    assert rows == seq(|values|, r requires 0 <= r < |values| => RewrittenRow(values[r], rw));
    return Ok(rows);
  }

  /** `impl_load_cvs_into_model` from the parsed header and data rows to the load call. */
  method ImportCsv(modelName: string, header: Row, data: seq<Row>) returns (res: Result<LoadCall, ImportError>)
    ensures res == ImportSpec(modelName, header, data)
  {
    var head, skip := SplitHeader(header);
    var values := FilterRows(data, skip);
    assert values == FilterAll(data, skip);
    var rewritten := RewriteIds(values, RewritePositions(head));
    match rewritten {
      case Ok(rows) => res := Ok(LoadCall(modelName, head, rows));
      case Err(e) => res := Err(e);
    }
  }
}
