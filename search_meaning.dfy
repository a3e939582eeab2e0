/** What a built search selects: the WHERE clauses read against a catalog row
    with the bound parameters, compared with the intended reading of a
    selection (each used list contains the row's value, and the keyword occurs
    in the lowered title or content). */
module SearchMeaning {
  import opened Wrappers
  import opened Text
  import opened SqlLike
  import opened Catalog
  import opened SearchQuery
  import opened SearchProperties

  /** The parameter the database binds to `@name`: the first one so named. */
  function Lookup(params: seq<Param>, name: string): (r: Option<Param>)
    ensures r.Some? ==> r.value in params && r.value.name == name
    ensures r.None? <==> forall i :: 0 <= i < |params| ==> params[i].name != name
  {
    if |params| == 0 then None
    else if params[0].name == name then Some(params[0])
    else
      var rest := Lookup(params[1..], name);
      assert forall i :: 1 <= i < |params| ==> params[1..][i - 1] == params[i];
      rest
  }

  /** With distinct names, every parameter is found under its own name. */
  lemma {:induction false} LookupDistinct(params: seq<Param>, i: nat)
    requires i < |params|
    requires forall j, k :: 0 <= j < k < |params| ==> params[j].name != params[k].name
    ensures Lookup(params, params[i].name) == Some(params[i])
  {
    if i > 0 {
      assert params[0].name != params[i].name;
      assert params[1..][i - 1] == params[i];
      LookupDistinct(params[1..], i - 1);
    }
  }

  /** `x IN UNNEST(@name)`: the array bound to `@name` contains `x`. */
  predicate InArrayParam(x: Value, params: seq<Param>, name: string) {
    match Lookup(params, name)
    case Some(Array(_, _, vs)) => x in vs
    case _ => false
  }

  /** The LIKE test of the keyword clause on one lowered column. */
  predicate KeywordLike(text: string, params: seq<Param>) {
    match Lookup(params, ParamName(Keyword))
    case Some(Scalar(_, _, Str(p))) => Like(Lower(text), p)
    case _ => false
  }

  /** What the clause text `Condition(f)` says about a row under the bound
      parameters. */
  predicate ClauseHolds(f: Filter, params: seq<Param>, row: Row) {
    match f
    case Ministries => InArrayParam(Str(row.ministry), params, ParamName(Ministries))
    case Categories => InArrayParam(Str(row.category), params, ParamName(Categories))
    case SubCategories => InArrayParam(Str(row.subCategory), params, ParamName(SubCategories))
    case Years => InArrayParam(Int(row.fiscalYearStart), params, ParamName(Years))
    case Keyword => KeywordLike(row.title, params) || KeywordLike(row.contentText, params)
  }

  /** The row passes the WHERE clause: every clause, joined by AND, holds. */
  predicate QueryAccepts(clauses: seq<Filter>, params: seq<Param>, row: Row) {
    forall i :: 0 <= i < |clauses| ==> ClauseHolds(clauses[i], params, row)
  }

  /** The intended reading of one used dimension. */
  predicate DimensionSelected(f: Filter, sel: Selection, years: seq<int>, row: Row) {
    match f
    case Ministries => row.ministry in sel.ministries
    case Categories => row.category in sel.categories
    case SubCategories => row.subCategory in sel.subCategories
    case Years => row.fiscalYearStart in years
    case Keyword =>
      IsSubstring(Lower(sel.keyword), Lower(row.title))
      || IsSubstring(Lower(sel.keyword), Lower(row.contentText))
  }

  /** The rows a selection is meant to find: every used dimension agrees. */
  predicate Selected(sel: Selection, years: seq<int>, row: Row) {
    forall f :: IsActive(sel, f) ==> DimensionSelected(f, sel, years, row)
  }

  /** A keyword with none of LIKE's special characters `%`, `_`, `\`. */
  predicate IsLiteralKeyword(keyword: string) {
    forall i :: 0 <= i < |keyword| ==> !IsLikeMeta(keyword[i])
  }

  lemma StrIn(x: string, xs: seq<string>)
    ensures Str(x) in Strings(xs) <==> x in xs
  {
    if x in xs {
      var i :| 0 <= i < |xs| && xs[i] == x;
      assert Strings(xs)[i] == Str(x);
    }
  }

  lemma IntIn(x: int, xs: seq<int>)
    ensures Int(x) in Ints(xs) <==> x in xs
  {
    if x in xs {
      var i :| 0 <= i < |xs| && xs[i] == x;
      assert Ints(xs)[i] == Int(x);
    }
  }

  lemma LowerKeepsLiteral(keyword: string)
    requires IsLiteralKeyword(keyword)
    ensures IsLiteralKeyword(Lower(keyword))
  {
  }

  /** A pattern `%k%` with no special character in `k` matches exactly the
      texts that contain `k`. */
  lemma LiteralPatternIsSubstring(text: string, k: string)
    requires IsLiteralKeyword(k)
    ensures Like(text, "%" + k + "%") <==> IsSubstring(k, text)
  {
    assert Escape(k) == k;
    EscapedSubstringPattern(text, k);
  }

  /** A used dimension's parameter is the one `@name` finds. */
  lemma BoundParam(sel: Selection, years: seq<int>, f: Filter)
    requires IsActive(sel, f)
    ensures Lookup(Bindings(sel, years), ParamName(f)) == Some(Binding(f, sel, years))
  {
    var ps := Bindings(sel, years);
    var fs := ActiveFilters(sel);
    BindingsIndexed(sel, years);
    BindingsDistinctNames(sel, years);
    ActiveFiltersMembers(sel);
    assert f in fs;
    var i :| 0 <= i < |fs| && fs[i] == f;
    BindingName(f, sel, years);
    LookupDistinct(ps, i);
  }

  lemma KeywordClauseMeaning(sel: Selection, years: seq<int>, row: Row)
    requires IsActive(sel, Keyword)
    requires IsLiteralKeyword(sel.keyword)
    ensures ClauseHolds(Keyword, Bindings(sel, years), row) <==> DimensionSelected(Keyword, sel, years, row)
  {
    BoundParam(sel, years, Keyword);
    LowerKeepsLiteral(sel.keyword);
    LiteralPatternIsSubstring(Lower(row.title), Lower(sel.keyword));
    LiteralPatternIsSubstring(Lower(row.contentText), Lower(sel.keyword));
  }

  /** Under the builder's parameters, a used dimension's clause holds exactly
      when the row agrees with that dimension of the selection: membership
      for a list, whatever the keyword; a substring test for a keyword free
      of LIKE's special characters. */
  lemma ClauseMeaning(sel: Selection, years: seq<int>, f: Filter, row: Row)
    requires IsActive(sel, f)
    requires f == Keyword ==> IsLiteralKeyword(sel.keyword)
    ensures ClauseHolds(f, Bindings(sel, years), row) <==> DimensionSelected(f, sel, years, row)
  {
    if f == Keyword {
      KeywordClauseMeaning(sel, years, row);
    } else {
      BoundParam(sel, years, f);
      match f
      case Ministries => StrIn(row.ministry, sel.ministries);
      case Categories => StrIn(row.category, sel.categories);
      case SubCategories => StrIn(row.subCategory, sel.subCategories);
      case Years => IntIn(row.fiscalYearStart, years);
    }
  }

  /** The builder's parameters make the clauses accept exactly the rows the
      selection means. */
  lemma BindingsMeanSelection(sel: Selection, years: seq<int>, row: Row)
    requires IsLiteralKeyword(sel.keyword)
    ensures QueryAccepts(ActiveFilters(sel), Bindings(sel, years), row) <==> Selected(sel, years, row)
  {
    var ps := Bindings(sel, years);
    var fs := ActiveFilters(sel);
    ActiveFiltersMembers(sel);
    if QueryAccepts(fs, ps, row) {
      forall f | IsActive(sel, f)
        ensures DimensionSelected(f, sel, years, row)
      {
        assert f in fs;
        var i :| 0 <= i < |fs| && fs[i] == f;
        assert ClauseHolds(fs[i], ps, row);
        ClauseMeaning(sel, years, f, row);
      }
    }
    if Selected(sel, years, row) {
      forall i | 0 <= i < |fs|
        ensures ClauseHolds(fs[i], ps, row)
      {
        assert fs[i] in fs;
        ClauseMeaning(sel, years, fs[i], row);
      }
    }
  }

  /** The built search finds exactly the rows the selection means, for every
      keyword free of LIKE's special characters. */
  lemma QueryMeansSelection(table: string, sel: Selection, row: Row)
    requires SearchFor(table, sel).Ok?
    requires IsLiteralKeyword(sel.keyword)
    ensures QueryAccepts(ActiveFilters(sel), SearchFor(table, sel).value.params, row)
            <==> Selected(sel, ParseYears(sel.years).value, row)
  {
    SearchForParts(table, sel);
    BindingsMeanSelection(sel, ParseYears(sel.years).value, row);
  }

  /** With nothing selected, the search accepts every row, as meant. */
  lemma EmptySelectionSelectsEveryRow(table: string, row: Row)
    ensures SearchFor(table, EmptySelection()).Ok?
    ensures QueryAccepts(ActiveFilters(EmptySelection()), SearchFor(table, EmptySelection()).value.params, row)
    ensures Selected(EmptySelection(), [], row)
  {
    EmptySelectionQuery(table);
    ActiveFiltersMembers(EmptySelection());
    assert ActiveFilters(EmptySelection()) == [];
  }

  /** The written pattern for the keyword `_` matches the text `x`, which
      does not contain `_`. */
  lemma UnderscorePatternMatchesAnyCharacter()
    ensures Like(Lower("x"), KeywordPattern("_"))
    ensures !IsSubstring(Lower("_"), Lower("x"))
  {
    assert Lower("_") == "_";
    assert Lower("x") == "x";
    assert KeywordPattern("_") == "%_%";
    assert Like("", "%") by {
      assert "%"[1..] == "";
    }
    assert Like("x", "_%") by {
      assert "_%"[1..] == "%";
      assert "x"[1..] == "";
    }
    assert Like("x", "%_%") by {
      assert "%_%"[1..] == "_%";
    }
    forall i | 0 <= i <= 1
      ensures !IsPrefix("_", "x"[i..])
    {
    }
  }

  /** A selection with only a keyword has the keyword clause alone. */
  lemma KeywordOnlyClauses(sel: Selection)
    requires sel.ministries == [] && sel.categories == [] && sel.subCategories == [] && sel.years == []
    requires |sel.keyword| > 0
    ensures ActiveFilters(sel) == [Keyword]
  {
    CollectSteps(sel, Identity);
  }

  /** As written, the keyword `_` reaches LIKE unescaped: the search for it
      accepts a row whose title is `x` and whose content is empty, although
      neither contains `_`. */
  lemma UnderscoreKeywordMatchesAnyCharacter(table: string)
    ensures var sel := Selection("_", [], [], [], []);
            var row := Row("f1", "x", "m", 2021, "c", "s", 1, "u", "");
            && SearchFor(table, sel).Ok?
            && QueryAccepts(ActiveFilters(sel), SearchFor(table, sel).value.params, row)
            && !Selected(sel, [], row)
  {
    var sel := Selection("_", [], [], [], []);
    var row := Row("f1", "x", "m", 2021, "c", "s", 1, "u", "");
    assert ParseYears(sel.years) == Ok([]);
    var ps := Bindings(sel, []);
    assert SearchFor(table, sel) == Ok(Search(QueryText(table, Conditions(sel)), ps));
    KeywordOnlyClauses(sel);
    BoundParam(sel, [], Keyword);
    UnderscorePatternMatchesAnyCharacter();
    assert KeywordLike(row.title, ps);
    assert ClauseHolds(Keyword, ps, row);
    assert QueryAccepts([Keyword], ps, row);
    assert !IsSubstring(Lower("_"), Lower(""));
    assert !DimensionSelected(Keyword, sel, [], row);
  }

  /** The keyword pattern with LIKE's special characters escaped. */
  function EscapedKeywordPattern(keyword: string): string {
    "%" + Escape(Lower(keyword)) + "%"
  }

  /** With the escaped pattern, the keyword clause holds exactly when the
      lowered keyword occurs in the lowered title or content, for every
      keyword. */
  lemma EscapedKeywordMeansSubstring(keyword: string, row: Row)
    ensures Like(Lower(row.title), EscapedKeywordPattern(keyword))
            || Like(Lower(row.contentText), EscapedKeywordPattern(keyword))
            <==> IsSubstring(Lower(keyword), Lower(row.title))
                 || IsSubstring(Lower(keyword), Lower(row.contentText))
  {
    EscapedSubstringPattern(Lower(row.title), Lower(keyword));
    EscapedSubstringPattern(Lower(row.contentText), Lower(keyword));
  }

  /** The escaped pattern equals the written one whenever the keyword has no
      special character, so the correction changes nothing else. */
  lemma EscapedAgreesOnLiteralKeywords(keyword: string)
    requires IsLiteralKeyword(keyword)
    ensures EscapedKeywordPattern(keyword) == KeywordPattern(keyword)
  {
    LowerKeepsLiteral(keyword);
  }
}
