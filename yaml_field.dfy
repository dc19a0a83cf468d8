/**
 * Field evaluation in the structured-fixture interpreter
 * (`YamlInterpreter._eval_field`): the field's column is looked up in the
 * model's own columns and then in its inherited fields, and the value
 * expression is either turned into a search on the related model, turned
 * into image processing of a tagged path, or handed to the base
 * interpreter. The search, the image bytes and the base interpreter stay
 * outside: the result says which of them is called, and with what.
 */
module YamlField {
  import opened Wrappers

  /** A fixture value, as far as field evaluation tells values apart. */
  datatype Expr =
    | Scalar(text: string)                 // any value the base interpreter handles
    | Dict(items: seq<(string, Expr)>)     // a mapping, in its iteration order
    | Image(path: string)                  // a scalar tagged `!image`

  /** A column's metadata: its `_type` and, for relations, its `_obj`. */
  datatype Column = Column(ctype: string, relation: string)

  /** An `_inherit_fields` entry; its third component is the column. */
  datatype InheritedField = InheritedField(parentModel: string, parentField: string, column: Column, originalParent: string)

  /** The schema of a model: its own columns and the columns it inherits. */
  datatype Schema = Schema(name: string, columns: map<string, Column>, inheritFields: map<string, InheritedField>)

  /** One `(field, operator, value)` term of a search domain. */
  datatype Criterion = Criterion(field: string, op: string, value: Expr)

  /** What evaluating a field does. */
  datatype FieldResult =
    | Search(model: string, domain: seq<Criterion>)
    | ProcessImage(path: string)
    | Delegate(schema: Schema, field: string, expression: Expr, viewInfo: Expr, parent: map<string, Expr>, useDefault: bool)
    | KeyError(message: string)

  const ManyToOne := "many2one"

  /** The two-tier lookup: own columns first, then inherited ones. */
  function LookupColumn(schema: Schema, field: string): (r: Option<Column>)
    ensures r.Some? <==> field in schema.columns || field in schema.inheritFields
  {
    if field in schema.columns then Some(schema.columns[field])
    else if field in schema.inheritFields then Some(schema.inheritFields[field].column)
    else None
  }

  /** The search domain of a mapping: one equality term per entry, in iteration order. */
  function Domain(items: seq<(string, Expr)>): (d: seq<Criterion>)
    ensures |d| == |items|
  {
    seq(|items|, i requires 0 <= i < |items| => Criterion(items[i].0, "=", items[i].1))
  }

  function NotFoundMessage(schema: Schema, field: string): string
  {
    "Object '" + schema.name + "' does not contain field '" + field + "'"
  }

  /**
   * `_eval_field`: a many2one column with a mapping searches the related
   * model; otherwise an image-tagged value is processed as an image; every
   * other case goes to the base interpreter, with a missing parent read as
   * an empty mapping.
   */
  function EvalField(schema: Schema, field: string, expression: Expr, viewInfo: Expr,
                     parent: Option<map<string, Expr>>, useDefault: bool): (r: FieldResult)
    ensures r.KeyError? <==> field !in schema.columns && field !in schema.inheritFields
    ensures r.KeyError? ==> r.message == NotFoundMessage(schema, field)
    ensures r.Search? <==> LookupColumn(schema, field).Some? && LookupColumn(schema, field).value.ctype == ManyToOne && expression.Dict?
    ensures r.Search? ==> r.model == LookupColumn(schema, field).value.relation && r.domain == Domain(expression.items)
    ensures r.ProcessImage? <==> LookupColumn(schema, field).Some? && LookupColumn(schema, field).value.ctype != ManyToOne && expression.Image?
    ensures r.ProcessImage? ==> r.path == expression.path
    ensures r.Delegate? ==> r.schema == schema && r.field == field && r.expression == expression && r.viewInfo == viewInfo &&
                            r.parent == (if parent.Some? then parent.value else map[]) && r.useDefault == useDefault
  {
    var p := if parent.Some? then parent.value else map[];
    match LookupColumn(schema, field)
    case None => KeyError(NotFoundMessage(schema, field))
    case Some(column) =>
      if column.ctype == ManyToOne then
        if expression.Dict? then Search(column.relation, Domain(expression.items))
        else Delegate(schema, field, expression, viewInfo, p, useDefault)
      else if expression.Image? then ProcessImage(expression.path)
      else Delegate(schema, field, expression, viewInfo, p, useDefault)
  }

  // ---------------------------------------------------------------------
  // The schema lookup

  /**
   * Two results that agree except for the model handed to the base
   * interpreter along with a delegated field.
   */
  predicate AgreeUpToModel(a: FieldResult, b: FieldResult)
  {
    if a.Delegate? then b.Delegate? && a.(schema := b.schema) == b else a == b
  }

  /**
   * A field the model declares itself is evaluated the same whether or not
   * it is also inherited, and whatever the inherited entry says (only the
   * model passed on to the base interpreter differs).
   */
  lemma OwnColumnShadowsInherited(schema: Schema, field: string, entry: InheritedField, expression: Expr,
                                  viewInfo: Expr, parent: Option<map<string, Expr>>, useDefault: bool)
    requires field in schema.columns
    ensures AgreeUpToModel(EvalField(schema.(inheritFields := schema.inheritFields[field := entry]), field, expression, viewInfo, parent, useDefault),
                           EvalField(schema, field, expression, viewInfo, parent, useDefault))
  {
  }

  /**
   * A field found only among the inherited fields is evaluated exactly as
   * if the model declared the same column itself (only the model passed on
   * to the base interpreter differs).
   */
  lemma InheritedLikeOwn(name: string, columns: map<string, Column>, inherited: map<string, InheritedField>,
                         field: string, entry: InheritedField, expression: Expr, viewInfo: Expr,
                         parent: Option<map<string, Expr>>, useDefault: bool)
    requires field !in columns
    ensures AgreeUpToModel(EvalField(Schema(name, columns, inherited[field := entry]), field, expression, viewInfo, parent, useDefault),
                           EvalField(Schema(name, columns[field := entry.column], inherited), field, expression, viewInfo, parent, useDefault))
  {
  }

  // ---------------------------------------------------------------------
  // The search domain

  predicate DistinctKeys(items: seq<(string, Expr)>)
  {
    forall i, j :: 0 <= i < j < |items| ==> items[i].0 != items[j].0
  }

  /** The mapping a sequence of entries denotes. */
  function ToMap(items: seq<(string, Expr)>): map<string, Expr>
  {
    if |items| == 0 then map[]
    else ToMap(items[..|items| - 1])[items[|items| - 1].0 := items[|items| - 1].1]
  }

  /** With distinct keys, the mapping holds every entry and nothing else. */
  lemma {:induction false} ToMapEntries(items: seq<(string, Expr)>)
    requires DistinctKeys(items)
    ensures forall i :: 0 <= i < |items| ==> items[i].0 in ToMap(items) && ToMap(items)[items[i].0] == items[i].1
    ensures forall k :: k in ToMap(items) ==> exists i :: 0 <= i < |items| && items[i].0 == k
    ensures |ToMap(items)| == |items|
  {
    if |items| > 0 {
      var n := |items| - 1;
      var prefix := items[..n];
      assert forall i :: 0 <= i < n ==> prefix[i] == items[i];
      ToMapEntries(prefix);
      assert items[n].0 !in ToMap(prefix);
    }
  }

  /**
   * The domain of a mapping with distinct keys has exactly one
   * `(k, '=', v)` term per entry `k: v` and no term twice.
   */
  lemma DomainMatchesDict(items: seq<(string, Expr)>)
    requires DistinctKeys(items)
    ensures var m := ToMap(items);
            var d := Domain(items);
            (set c | c in d) == (set k | k in m :: Criterion(k, "=", m[k])) &&
            |d| == |m| &&
            forall i, j :: 0 <= i < j < |d| ==> d[i] != d[j]
  {
    ToMapEntries(items);
    var m := ToMap(items);
    var d := Domain(items);
    forall c | c in d ensures c in (set k | k in m :: Criterion(k, "=", m[k])) {
      var i :| 0 <= i < |d| && d[i] == c;
      assert c == Criterion(items[i].0, "=", m[items[i].0]);
    }
    forall k | k in m ensures Criterion(k, "=", m[k]) in d {
      var i :| 0 <= i < |items| && items[i].0 == k;
      assert d[i] == Criterion(k, "=", m[k]);
    }
  }

  /** A sequence without repetitions holds each of its elements once. */
  lemma {:induction false} DistinctCounts<T>(s: seq<T>)
    requires forall i, j :: 0 <= i < j < |s| ==> s[i] != s[j]
    ensures forall x :: multiset(s)[x] == if x in s then 1 else 0
  {
    if |s| > 0 {
      var n := |s| - 1;
      DistinctCounts(s[..n]);
      assert s == s[..n] + [s[n]];
      assert multiset(s) == multiset(s[..n]) + multiset{s[n]};
      assert s[n] !in s[..n];
      forall x ensures multiset(s)[x] == if x in s then 1 else 0 {
        assert x in s <==> x in s[..n] || x == s[n];
      }
    }
  }

  /**
   * The iteration order of the mapping does not matter: two orders of the
   * same entries give the same domain up to order.
   */
  lemma DomainOrderIrrelevant(a: seq<(string, Expr)>, b: seq<(string, Expr)>)
    requires DistinctKeys(a) && DistinctKeys(b)
    requires ToMap(a) == ToMap(b)
    ensures multiset(Domain(a)) == multiset(Domain(b))
  {
    DomainMatchesDict(a);
    DomainMatchesDict(b);
    var da, db := Domain(a), Domain(b);
    var sa, sb := set x | x in da, set x | x in db;
    assert sa == sb;
    forall c ensures c in da <==> c in db {
      if c in da { assert c in sa; }
      if c in db { assert c in sb; }
    }
    DistinctCounts(da);
    DistinctCounts(db);
    assert forall c :: multiset(da)[c] == multiset(db)[c];
  }

  // ---------------------------------------------------------------------
  // The dispatch order

  /** The handlers of field evaluation, as an ordered chain. */
  datatype Strategy = SearchCriteria | TaggedAsset | GuardedAsset | PassThrough

  /** When each handler takes the value. */
  predicate Applies(s: Strategy, column: Column, expression: Expr)
  {
    match s
    case SearchCriteria => column.ctype == ManyToOne && expression.Dict?
    case TaggedAsset => expression.Image?
    case GuardedAsset => column.ctype != ManyToOne && expression.Image?
    case PassThrough => true
  }

  /** What each handler does with a value it takes. */
  function Handle(s: Strategy, schema: Schema, column: Column, field: string, expression: Expr, viewInfo: Expr,
                  parent: map<string, Expr>, useDefault: bool): FieldResult
  {
    match s
    case SearchCriteria => if expression.Dict? then Search(column.relation, Domain(expression.items)) else Delegate(schema, field, expression, viewInfo, parent, useDefault)
    case TaggedAsset => if expression.Image? then ProcessImage(expression.path) else Delegate(schema, field, expression, viewInfo, parent, useDefault)
    case GuardedAsset => if expression.Image? then ProcessImage(expression.path) else Delegate(schema, field, expression, viewInfo, parent, useDefault)
    case PassThrough => Delegate(schema, field, expression, viewInfo, parent, useDefault)
  }

  /** The first handler of the chain that takes the value; the base interpreter if none does. */
  function RunChain(chain: seq<Strategy>, schema: Schema, column: Column, field: string, expression: Expr, viewInfo: Expr,
                    parent: map<string, Expr>, useDefault: bool): FieldResult
  {
    if |chain| == 0 then Delegate(schema, field, expression, viewInfo, parent, useDefault)
    else if Applies(chain[0], column, expression) then Handle(chain[0], schema, column, field, expression, viewInfo, parent, useDefault)
    else RunChain(chain[1..], schema, column, field, expression, viewInfo, parent, useDefault)
  }

  /** Field evaluation as a lookup followed by a chain of handlers. */
  function ChainEval(chain: seq<Strategy>, schema: Schema, field: string, expression: Expr, viewInfo: Expr,
                     parent: Option<map<string, Expr>>, useDefault: bool): FieldResult
  {
    var p := if parent.Some? then parent.value else map[];
    match LookupColumn(schema, field)
    case None => KeyError(NotFoundMessage(schema, field))
    case Some(column) => RunChain(chain, schema, column, field, expression, viewInfo, p, useDefault)
  }

  /**
   * The source's `if`/`elif` order is the chain search-criteria,
   * asset-on-a-non-many2one-column, pass-through, on every input.
   */
  lemma EvalFieldIsGuardedChain(schema: Schema, field: string, expression: Expr, viewInfo: Expr,
                                parent: Option<map<string, Expr>>, useDefault: bool)
    ensures EvalField(schema, field, expression, viewInfo, parent, useDefault)
         == ChainEval([SearchCriteria, GuardedAsset, PassThrough], schema, field, expression, viewInfo, parent, useDefault)
  {
    var chain := [SearchCriteria, GuardedAsset, PassThrough];
    var p := if parent.Some? then parent.value else map[];
    match LookupColumn(schema, field) {
      case None =>
      case Some(column) =>
        assert chain[1..] == [GuardedAsset, PassThrough];
        assert chain[1..][1..] == [PassThrough];
        assert RunChain(chain[1..][1..], schema, column, field, expression, viewInfo, p, useDefault)
            == Delegate(schema, field, expression, viewInfo, p, useDefault);
        assert RunChain(chain[1..], schema, column, field, expression, viewInfo, p, useDefault)
            == if Applies(GuardedAsset, column, expression) then Handle(GuardedAsset, schema, column, field, expression, viewInfo, p, useDefault)
               else Delegate(schema, field, expression, viewInfo, p, useDefault);
        assert RunChain(chain, schema, column, field, expression, viewInfo, p, useDefault)
            == if Applies(SearchCriteria, column, expression) then Handle(SearchCriteria, schema, column, field, expression, viewInfo, p, useDefault)
               else RunChain(chain[1..], schema, column, field, expression, viewInfo, p, useDefault);
    }
  }

  /**
   * The plain chain search-criteria, asset, pass-through, with the asset
   * handler taking every image, differs from the source exactly on an
   * image value for a many2one column: the source hands that to the base
   * interpreter, the plain chain would process the image.
   */
  lemma PlainChainDiffersOnManyToOneImage(schema: Schema, field: string, expression: Expr, viewInfo: Expr,
                                          parent: Option<map<string, Expr>>, useDefault: bool)
    ensures var source := EvalField(schema, field, expression, viewInfo, parent, useDefault);
            var plain := ChainEval([SearchCriteria, TaggedAsset, PassThrough], schema, field, expression, viewInfo, parent, useDefault);
            var column := LookupColumn(schema, field);
            (source != plain <==> column.Some? && column.value.ctype == ManyToOne && expression.Image?) &&
            (source != plain ==> source.Delegate? && plain == ProcessImage(expression.path))
  {
    var chain := [SearchCriteria, TaggedAsset, PassThrough];
    var p := if parent.Some? then parent.value else map[];
    match LookupColumn(schema, field) {
      case None =>
      case Some(column) =>
        assert chain[1..] == [TaggedAsset, PassThrough];
        assert chain[1..][1..] == [PassThrough];
        assert RunChain(chain[1..][1..], schema, column, field, expression, viewInfo, p, useDefault)
            == Delegate(schema, field, expression, viewInfo, p, useDefault);
        assert RunChain(chain[1..], schema, column, field, expression, viewInfo, p, useDefault)
            == if Applies(TaggedAsset, column, expression) then Handle(TaggedAsset, schema, column, field, expression, viewInfo, p, useDefault)
               else Delegate(schema, field, expression, viewInfo, p, useDefault);
        assert RunChain(chain, schema, column, field, expression, viewInfo, p, useDefault)
            == if Applies(SearchCriteria, column, expression) then Handle(SearchCriteria, schema, column, field, expression, viewInfo, p, useDefault)
               else RunChain(chain[1..], schema, column, field, expression, viewInfo, p, useDefault);
    }
  }

  /** A many2one field given search criteria searches its related model. */
  lemma SearchExample(schema: Schema)
    requires schema.columns == map["partner_id" := Column(ManyToOne, "res.partner")]
    ensures EvalField(schema, "partner_id", Dict([("name", Scalar("Alice"))]), Scalar("False"), None, true)
         == Search("res.partner", [Criterion("name", "=", Scalar("Alice"))])
  {
    assert Domain([("name", Scalar("Alice"))]) == [Criterion("name", "=", Scalar("Alice"))];
  }
}
