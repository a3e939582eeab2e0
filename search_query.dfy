/** The search-query builder: a filter selection becomes SQL text plus an
    ordered list of named, typed parameters. Every value the user chose travels
    in a parameter; the text is assembled from fixed fragments only. */
module SearchQuery {
  import opened Wrappers
  import opened Text
  import opened PyInt

  /** What the user picked: a free-text keyword and four lists of filter values.
      Years are taken as text and converted with `int()`; the app's own year
      picker offers integers, which `int()` returns unchanged (`ParseShow`). */
  datatype Selection = Selection(
    keyword: string,
    ministries: seq<string>,
    categories: seq<string>,
    subCategories: seq<string>,
    years: seq<string>)

  /** The query-parameter types the builder uses. */
  datatype SqlType = String | Int64

  datatype Value = Str(s: string) | Int(n: int)

  /** A named parameter: an array bound for `IN UNNEST(@name)`, or a scalar. */
  datatype Param =
    | Array(name: string, typ: SqlType, values: seq<Value>)
    | Scalar(name: string, typ: SqlType, value: Value)

  /** The finished query and the parameters it is run with. */
  datatype Search = Search(query: string, params: seq<Param>)

  /** `int()` rejected this year value. */
  datatype BuildError = NotAnInteger(text: string)

  /** The filter dimensions, one clause each, in the order they are added. */
  datatype Filter = Ministries | Categories | SubCategories | Years | Keyword

  function Rank(f: Filter): nat {
    match f
    case Ministries => 0
    case Categories => 1
    case SubCategories => 2
    case Years => 3
    case Keyword => 4
  }

  /** The selected columns, as the query lists them on two lines. */
  const FirstColumns: seq<string> := ["file_id", "title", "ministry", "fiscal_year_start", "category"]
  const MoreColumns: seq<string> := ["sub_category", "file_page", "source_url", "content_text"]

  /** The `SELECT ... FROM` text, line breaks and indentation included;
      `table` is the configured table path. */
  function BaseQuery(table: string): string {
    "\n        SELECT \n            " + Join(", ", FirstColumns) + ", \n            "
    + Join(", ", MoreColumns) + "\n        FROM `" + table + "`\n    "
  }

  const OrderSuffix: string := " ORDER BY ministry, category, fiscal_year_start LIMIT 1000"

  function ParamName(f: Filter): string {
    match f
    case Ministries => "ministries"
    case Categories => "categories"
    case SubCategories => "sub_categories"
    case Years => "years"
    case Keyword => "keyword"
  }

  /** `@name`, the placeholder for the parameter of `f`. */
  function Placeholder(f: Filter): string {
    "@" + ParamName(f)
  }

  /** The column a list dimension is matched against. The keyword clause
      tests two columns and is written out in `Condition`. */
  function Column(f: Filter): string
    requires f != Keyword
  {
    match f
    case Ministries => "ministry"
    case Categories => "category"
    case SubCategories => "sub_category"
    case Years => "fiscal_year_start"
  }

  /** The clause text of dimension `f`. */
  function Condition(f: Filter): string {
    if f == Keyword then
      "(LOWER(title) LIKE " + Placeholder(f) + " OR LOWER(content_text) LIKE " + Placeholder(f) + ")"
    else
      Column(f) + " IN UNNEST(" + Placeholder(f) + ")"
  }

  /** A dimension takes part when its list (or the keyword) is not empty. */
  predicate IsActive(sel: Selection, f: Filter) {
    match f
    case Ministries => |sel.ministries| > 0
    case Categories => |sel.categories| > 0
    case SubCategories => |sel.subCategories| > 0
    case Years => |sel.years| > 0
    case Keyword => |sel.keyword| > 0
  }

  /** `xs.append(x)` when `b` holds: one step of the builder. */
  function AddIf<T>(xs: seq<T>, b: bool, x: T): seq<T> {
    if b then xs + [x] else xs
  }

  /** `g` of every dimension the selection uses, in the fixed dimension order. */
  function Collect<T>(sel: Selection, g: Filter -> T): seq<T> {
    var afterMinistries := AddIf([], IsActive(sel, Ministries), g(Ministries));
    var afterCategories := AddIf(afterMinistries, IsActive(sel, Categories), g(Categories));
    var afterSubCategories := AddIf(afterCategories, IsActive(sel, SubCategories), g(SubCategories));
    var afterYears := AddIf(afterSubCategories, IsActive(sel, Years), g(Years));
    AddIf(afterYears, IsActive(sel, Keyword), g(Keyword))
  }

  lemma CollectSteps<T>(sel: Selection, g: Filter -> T)
    ensures Collect(sel, g) ==
      AddIf(AddIf(AddIf(AddIf(AddIf([],
        IsActive(sel, Ministries), g(Ministries)),
        IsActive(sel, Categories), g(Categories)),
        IsActive(sel, SubCategories), g(SubCategories)),
        IsActive(sel, Years), g(Years)),
        IsActive(sel, Keyword), g(Keyword))
  {
  }

  /** The dimensions the selection uses, in order. */
  function ActiveFilters(sel: Selection): seq<Filter> {
    Collect(sel, Identity)
  }

  function Identity(f: Filter): Filter {
    f
  }

  /** The clause text of each descriptor, in order. */
  function ConditionsOf(clauses: seq<Filter>): seq<string> {
    seq(|clauses|, i requires 0 <= i < |clauses| => Condition(clauses[i]))
  }

  /** The WHERE clauses, one per dimension used. */
  function Conditions(sel: Selection): seq<string> {
    ConditionsOf(ActiveFilters(sel))
  }

  function Strings(xs: seq<string>): seq<Value> {
    seq(|xs|, i requires 0 <= i < |xs| => Str(xs[i]))
  }

  function Ints(xs: seq<int>): seq<Value> {
    seq(|xs|, i requires 0 <= i < |xs| => Int(xs[i]))
  }

  /** The LIKE pattern bound for the keyword, as the program builds it. */
  function KeywordPattern(keyword: string): string {
    "%" + Lower(keyword) + "%"
  }

  /** The parameter bound for dimension `f`; `years` are the converted years. */
  function Binding(f: Filter, sel: Selection, years: seq<int>): Param {
    match f
    case Ministries => Array("ministries", String, Strings(sel.ministries))
    case Categories => Array("categories", String, Strings(sel.categories))
    case SubCategories => Array("sub_categories", String, Strings(sel.subCategories))
    case Years => Array("years", Int64, Ints(years))
    case Keyword => Scalar("keyword", String, Str(KeywordPattern(sel.keyword)))
  }

  /** The parameters, one per dimension used; `years` are the converted years. */
  function Bindings(sel: Selection, years: seq<int>): seq<Param> {
    Collect(sel, BindingFor(sel, years))
  }

  function BindingFor(sel: Selection, years: seq<int>): Filter -> Param {
    f => Binding(f, sel, years)
  }

  /** The base query, the clauses joined with AND if there are any, and the
      fixed ordering and row limit. */
  function QueryText(table: string, conditions: seq<string>): string {
    (if |conditions| > 0 then BaseQuery(table) + (" WHERE " + Join(" AND ", conditions)) else BaseQuery(table))
    + OrderSuffix
  }

  /** `[int(y) for y in ys]`: fails on the first value `int()` rejects. */
  function ParseYears(ys: seq<string>): Result<seq<int>, BuildError> {
    if |ys| == 0 then Ok([])
    else
      match ParseYears(ys[..|ys| - 1])
      case Err(e) => Err(e)
      case Ok(ns) =>
        match ParseInt(ys[|ys| - 1])
        case None => Err(NotAnInteger(ys[|ys| - 1]))
        case Some(n) => Ok(ns + [n])
  }

  /** What the builder produces for a selection. */
  function SearchFor(table: string, sel: Selection): Result<Search, BuildError> {
    match ParseYears(sel.years)
    case Err(e) => Err(e)
    case Ok(years) => Ok(Search(QueryText(table, Conditions(sel)), Bindings(sel, years)))
  }

  /** Once a prefix of the years fails to convert, the whole list fails the same way. */
  lemma {:induction false} ParseYearsFailurePersists(ys: seq<string>, j: nat)
    requires j <= |ys|
    requires ParseYears(ys[..j]).Err?
    ensures ParseYears(ys) == ParseYears(ys[..j])
  {
    if j < |ys| {
      var front := ys[..|ys| - 1];
      assert front[..j] == ys[..j];
      ParseYearsFailurePersists(front, j);
    } else {
      assert ys[..j] == ys;
    }
  }

  /** The year conversion succeeds iff every value is an integer, and then
      keeps the length and the order of the values. */
  lemma {:induction false} ParseYearsOk(ys: seq<string>)
    ensures ParseYears(ys).Ok? <==> forall i :: 0 <= i < |ys| ==> ParseInt(ys[i]).Some?
    ensures ParseYears(ys).Ok? ==>
      && |ParseYears(ys).value| == |ys|
      && forall i :: 0 <= i < |ys| ==> ParseInt(ys[i]) == Some(ParseYears(ys).value[i])
  {
    if |ys| > 0 {
      var front := ys[..|ys| - 1];
      ParseYearsOk(front);
      assert forall i :: 0 <= i < |front| ==> front[i] == ys[i];
      if ParseYears(front).Ok? && ParseInt(ys[|ys| - 1]).Some? {
        var ns := ParseYears(front).value;
        assert ParseYears(ys).value == ns + [ParseInt(ys[|ys| - 1]).value];
      }
    }
  }

  /** When the conversion fails, it names the first value that is not an integer. */
  lemma {:induction false} ParseYearsErr(ys: seq<string>)
    requires ParseYears(ys).Err?
    ensures exists k ::
              && 0 <= k < |ys|
              && ParseInt(ys[k]).None?
              && ParseYears(ys).error == NotAnInteger(ys[k])
              && forall j :: 0 <= j < k ==> ParseInt(ys[j]).Some?
  {
    var front := ys[..|ys| - 1];
    assert forall i :: 0 <= i < |front| ==> front[i] == ys[i];
    if ParseYears(front).Err? {
      ParseYearsErr(front);
      var k :| 0 <= k < |front| && ParseInt(front[k]).None? && ParseYears(front).error == NotAnInteger(front[k])
        && forall j :: 0 <= j < k ==> ParseInt(front[j]).Some?;
      assert ParseInt(ys[k]).None?;
    } else {
      ParseYearsOk(front);
      assert ParseInt(ys[|ys| - 1]).None?;
    }
  }

  /** `run_search` up to the point where the query is handed to the database:
      the query text and its parameters, or the year value `int()` rejected. */
  method BuildSearch(table: string, sel: Selection) returns (r: Result<Search, BuildError>)
    ensures r == SearchFor(table, sel)
  {
    var clauses := BuildClauses(sel);
    if clauses.Err? {
      return Err(clauses.error);
    }
    var (active, params) := clauses.value;
    var query := AssembleQuery(table, active);
    r := Ok(Search(query, params));
  }

  /** The clauses and their parameters, appended one selected dimension at a
      time in the fixed order; fails if a year is not an integer. Each clause
      is kept as its dimension and turned into text when the query is put
      together. */
  method BuildClauses(sel: Selection) returns (r: Result<(seq<Filter>, seq<Param>), BuildError>)
    ensures ParseYears(sel.years).Err? ==> r == Err(ParseYears(sel.years).error)
    ensures ParseYears(sel.years).Ok? ==>
      r == Ok((ActiveFilters(sel), Bindings(sel, ParseYears(sel.years).value)))
  {
    var clauses: seq<Filter> := [];
    var params: seq<Param> := [];
    clauses, params := AppendIf(clauses, params, IsActive(sel, Ministries),
      Ministries, Array("ministries", String, Strings(sel.ministries)));
    clauses, params := AppendIf(clauses, params, IsActive(sel, Categories),
      Categories, Array("categories", String, Strings(sel.categories)));
    clauses, params := AppendIf(clauses, params, IsActive(sel, SubCategories),
      SubCategories, Array("sub_categories", String, Strings(sel.subCategories)));
    var years: seq<int> := [];
    if |sel.years| > 0 {
      var converted := IntYears(sel.years);
      if converted.Err? {
        return Err(converted.error);
      }
      years := converted.value;
    }
    clauses, params := AppendIf(clauses, params, IsActive(sel, Years),
      Years, Array("years", Int64, Ints(years)));
    clauses, params := AppendIf(clauses, params, IsActive(sel, Keyword),
      Keyword, Scalar("keyword", String, Str("%" + Lower(sel.keyword) + "%")));
    assert ParseYears(sel.years) == Ok(years);
    CollectSteps(sel, Identity);
    CollectSteps(sel, BindingFor(sel, years));
    r := Ok((clauses, params));
  }

  /** One `if` block of the builder: when the dimension is selected, append its
      clause and its parameter. */
  method AppendIf(clauses: seq<Filter>, params: seq<Param>, selected: bool, clause: Filter, param: Param)
    returns (clauses': seq<Filter>, params': seq<Param>)
    ensures clauses' == AddIf(clauses, selected, clause)
    ensures params' == AddIf(params, selected, param)
  {
    clauses', params' := clauses, params;
    if selected {
      clauses' := clauses' + [clause];
      params' := params' + [param];
    }
  }

  /** The base query, then the clauses joined with AND when there are any,
      then the fixed ordering and row limit. */
  method AssembleQuery(table: string, clauses: seq<Filter>) returns (query: string)
    ensures query == QueryText(table, ConditionsOf(clauses))
  {
    var conditions := ConditionsOf(clauses);
    if |conditions| > 0 {
      query := BaseQuery(table) + (" WHERE " + Join(" AND ", conditions));
    } else {
      query := BaseQuery(table);
    }
    query := query + OrderSuffix;
  }

  /** `[int(y) for y in ys]`, one value at a time. */
  method IntYears(ys: seq<string>) returns (r: Result<seq<int>, BuildError>)
    ensures r == ParseYears(ys)
  {
    var out: seq<int> := [];
    var i := 0;
    while i < |ys|
      invariant 0 <= i <= |ys|
      invariant ParseYears(ys[..i]) == Ok(out)
    {
      var n := ParseInt(ys[i]);
      assert ys[..i + 1][..i] == ys[..i];
      if n.None? {
        ParseYearsFailurePersists(ys, i + 1);
        return Err(NotAnInteger(ys[i]));
      }
      out := out + [n.value];
      i := i + 1;
    }
    assert ys[..i] == ys;
    r := Ok(out);
  }
}
