/** What the search-query builder guarantees: the shape of the query text,
    one parameter per clause in the fixed order, user values only in
    parameters, and the conversion of the years. */
module SearchProperties {
  import opened Wrappers
  import opened Text
  import opened PyInt
  import opened SearchQuery

  /** The selection with no keyword and no filter values. */
  function EmptySelection(): Selection {
    Selection("", [], [], [], [])
  }

  /** The dimensions in strictly increasing dimension order. */
  predicate InFilterOrder(fs: seq<Filter>) {
    forall i, j :: 0 <= i < j < |fs| ==> Rank(fs[i]) < Rank(fs[j])
  }

  /** A parameter whose values all have its declared type. */
  predicate WellTyped(p: Param) {
    match p
    case Array(_, String, vs) => forall i :: 0 <= i < |vs| ==> vs[i].Str?
    case Array(_, Int64, vs) => forall i :: 0 <= i < |vs| ==> vs[i].Int?
    case Scalar(_, String, v) => v.Str?
    case Scalar(_, Int64, v) => v.Int?
  }

  // The list of selected dimensions

  lemma AddIfMembers<T>(xs: seq<T>, b: bool, x: T, y: T)
    ensures y in AddIf(xs, b, x) <==> y in xs || (b && y == x)
  {
  }

  /** A dimension is in the clause list exactly when the selection uses it. */
  lemma ActiveFiltersMembers(sel: Selection)
    ensures forall f :: f in ActiveFilters(sel) <==> IsActive(sel, f)
  {
    CollectSteps(sel, Identity);
    var fs0: seq<Filter> := [];
    var fs1 := AddIf(fs0, IsActive(sel, Ministries), Ministries);
    var fs2 := AddIf(fs1, IsActive(sel, Categories), Categories);
    var fs3 := AddIf(fs2, IsActive(sel, SubCategories), SubCategories);
    var fs4 := AddIf(fs3, IsActive(sel, Years), Years);
    assert ActiveFilters(sel) == AddIf(fs4, IsActive(sel, Keyword), Keyword);
    forall f
      ensures f in ActiveFilters(sel) <==> IsActive(sel, f)
    {
      AddIfMembers(fs0, IsActive(sel, Ministries), Ministries, f);
      AddIfMembers(fs1, IsActive(sel, Categories), Categories, f);
      AddIfMembers(fs2, IsActive(sel, SubCategories), SubCategories, f);
      AddIfMembers(fs3, IsActive(sel, Years), Years, f);
      AddIfMembers(fs4, IsActive(sel, Keyword), Keyword, f);
    }
  }

  lemma AddIfOrdered(fs: seq<Filter>, b: bool, f: Filter)
    requires InFilterOrder(fs)
    requires forall i :: 0 <= i < |fs| ==> Rank(fs[i]) < Rank(f)
    ensures InFilterOrder(AddIf(fs, b, f))
    ensures forall i :: 0 <= i < |AddIf(fs, b, f)| ==> Rank(AddIf(fs, b, f)[i]) <= Rank(f)
  {
  }

  /** The clauses come in the fixed order ministries, categories,
      sub-categories, years, keyword. */
  lemma ActiveFiltersOrdered(sel: Selection)
    ensures InFilterOrder(ActiveFilters(sel))
  {
    CollectSteps(sel, Identity);
    var fs0: seq<Filter> := [];
    AddIfOrdered(fs0, IsActive(sel, Ministries), Ministries);
    var fs1 := AddIf(fs0, IsActive(sel, Ministries), Ministries);
    AddIfOrdered(fs1, IsActive(sel, Categories), Categories);
    var fs2 := AddIf(fs1, IsActive(sel, Categories), Categories);
    AddIfOrdered(fs2, IsActive(sel, SubCategories), SubCategories);
    var fs3 := AddIf(fs2, IsActive(sel, SubCategories), SubCategories);
    AddIfOrdered(fs3, IsActive(sel, Years), Years);
    var fs4 := AddIf(fs3, IsActive(sel, Years), Years);
    AddIfOrdered(fs4, IsActive(sel, Keyword), Keyword);
    assert ActiveFilters(sel) == AddIf(fs4, IsActive(sel, Keyword), Keyword);
  }

  lemma AddIfIndexed<T>(xs: seq<T>, fs: seq<Filter>, b: bool, f: Filter, g: Filter -> T)
    requires |xs| == |fs| && forall i :: 0 <= i < |fs| ==> xs[i] == g(fs[i])
    ensures |AddIf(xs, b, g(f))| == |AddIf(fs, b, f)|
    ensures forall i :: 0 <= i < |AddIf(fs, b, f)| ==> AddIf(xs, b, g(f))[i] == g(AddIf(fs, b, f)[i])
  {
  }

  /** Collecting any function of the dimensions gives that function of each
      selected dimension, position by position. */
  lemma CollectIndexed<T>(sel: Selection, g: Filter -> T)
    ensures |Collect(sel, g)| == |ActiveFilters(sel)|
    ensures forall i :: 0 <= i < |ActiveFilters(sel)| ==> Collect(sel, g)[i] == g(ActiveFilters(sel)[i])
  {
    CollectSteps(sel, g);
    CollectSteps(sel, Identity);
    var xs0: seq<T>, fs0: seq<Filter> := [], [];
    AddIfIndexed(xs0, fs0, IsActive(sel, Ministries), Ministries, g);
    var xs1, fs1 := AddIf(xs0, IsActive(sel, Ministries), g(Ministries)), AddIf(fs0, IsActive(sel, Ministries), Ministries);
    AddIfIndexed(xs1, fs1, IsActive(sel, Categories), Categories, g);
    var xs2, fs2 := AddIf(xs1, IsActive(sel, Categories), g(Categories)), AddIf(fs1, IsActive(sel, Categories), Categories);
    AddIfIndexed(xs2, fs2, IsActive(sel, SubCategories), SubCategories, g);
    var xs3, fs3 := AddIf(xs2, IsActive(sel, SubCategories), g(SubCategories)), AddIf(fs2, IsActive(sel, SubCategories), SubCategories);
    AddIfIndexed(xs3, fs3, IsActive(sel, Years), Years, g);
    var xs4, fs4 := AddIf(xs3, IsActive(sel, Years), g(Years)), AddIf(fs3, IsActive(sel, Years), Years);
    AddIfIndexed(xs4, fs4, IsActive(sel, Keyword), Keyword, g);
    assert ActiveFilters(sel) == AddIf(fs4, IsActive(sel, Keyword), Keyword);
  }

  /** Which clauses appear depends only on which dimensions are used. */
  lemma ActiveFiltersFollowPattern(sel1: Selection, sel2: Selection)
    requires forall f :: IsActive(sel1, f) == IsActive(sel2, f)
    ensures ActiveFilters(sel1) == ActiveFilters(sel2)
  {
    CollectSteps(sel1, Identity);
    CollectSteps(sel2, Identity);
    assert IsActive(sel1, Ministries) == IsActive(sel2, Ministries);
    assert IsActive(sel1, Categories) == IsActive(sel2, Categories);
    assert IsActive(sel1, SubCategories) == IsActive(sel2, SubCategories);
    assert IsActive(sel1, Years) == IsActive(sel2, Years);
    assert IsActive(sel1, Keyword) == IsActive(sel2, Keyword);
  }

  // The parameters

  lemma BindingName(f: Filter, sel: Selection, years: seq<int>)
    ensures Binding(f, sel, years).name == ParamName(f)
  {
  }

  lemma ParamNameInjective(f: Filter, g: Filter)
    requires ParamName(f) == ParamName(g)
    ensures f == g
  {
  }

  lemma ParamNamesDiffer(f: Filter, g: Filter)
    requires f != g
    ensures ParamName(f) != ParamName(g)
  {
  }

  lemma BindingWellTyped(f: Filter, sel: Selection, years: seq<int>)
    ensures WellTyped(Binding(f, sel, years))
  {
  }

  /** The i-th parameter is the binding of the i-th clause's dimension. */
  lemma BindingsIndexed(sel: Selection, years: seq<int>)
    ensures |Bindings(sel, years)| == |ActiveFilters(sel)|
    ensures forall i :: 0 <= i < |ActiveFilters(sel)| ==>
      Bindings(sel, years)[i] == Binding(ActiveFilters(sel)[i], sel, years)
  {
    CollectIndexed(sel, BindingFor(sel, years));
  }

  /** A parameter named after `f` exists exactly when `f` is used, and it is
      the binding of `f`. */
  lemma BindingsForDimension(sel: Selection, years: seq<int>, f: Filter)
    ensures (exists i :: 0 <= i < |Bindings(sel, years)| && Bindings(sel, years)[i].name == ParamName(f))
            <==> IsActive(sel, f)
    ensures forall i :: 0 <= i < |Bindings(sel, years)| && Bindings(sel, years)[i].name == ParamName(f) ==>
              Bindings(sel, years)[i] == Binding(f, sel, years)
  {
    var ps := Bindings(sel, years);
    var fs := ActiveFilters(sel);
    BindingsIndexed(sel, years);
    ActiveFiltersMembers(sel);
    forall i | 0 <= i < |ps| && ps[i].name == ParamName(f)
      ensures fs[i] == f && ps[i] == Binding(f, sel, years)
    {
      BindingName(fs[i], sel, years);
      ParamNameInjective(fs[i], f);
    }
    if IsActive(sel, f) {
      assert f in fs;
      var i :| 0 <= i < |fs| && fs[i] == f;
      BindingName(f, sel, years);
      assert ps[i].name == ParamName(f);
    }
  }

  /** No two parameters share a name. */
  lemma BindingsDistinctNames(sel: Selection, years: seq<int>)
    ensures forall i, j :: 0 <= i < j < |Bindings(sel, years)| ==>
      Bindings(sel, years)[i].name != Bindings(sel, years)[j].name
  {
    var ps := Bindings(sel, years);
    var fs := ActiveFilters(sel);
    BindingsIndexed(sel, years);
    ActiveFiltersOrdered(sel);
    forall i, j | 0 <= i < j < |ps|
      ensures ps[i].name != ps[j].name
    {
      BindingName(fs[i], sel, years);
      BindingName(fs[j], sel, years);
      assert Rank(fs[i]) < Rank(fs[j]);
      ParamNamesDiffer(fs[i], fs[j]);
    }
  }

  // The built search

  lemma SearchForParts(table: string, sel: Selection)
    requires SearchFor(table, sel).Ok?
    ensures SearchFor(table, sel).value.query == QueryText(table, Conditions(sel))
    ensures SearchFor(table, sel).value.params == Bindings(sel, ParseYears(sel.years).value)
  {
  }

  /** With nothing selected the query is the base query followed by the
      ordering and limit, with no WHERE clause and no parameters. */
  lemma EmptySelectionQuery(table: string)
    ensures SearchFor(table, EmptySelection()) == Ok(Search(BaseQuery(table) + OrderSuffix, []))
  {
    var sel := EmptySelection();
    assert ParseYears(sel.years) == Ok([]);
    CollectSteps(sel, Identity);
    CollectSteps(sel, BindingFor(sel, []));
    assert ActiveFilters(sel) == [];
    assert Bindings(sel, []) == [];
    assert |Conditions(sel)| == 0;
    assert QueryText(table, Conditions(sel)) == BaseQuery(table) + OrderSuffix;
  }

  /** The query has no WHERE clause and no parameters exactly when no
      dimension is selected. */
  lemma NoFilterIffPlainQuery(table: string, sel: Selection)
    requires SearchFor(table, sel).Ok?
    ensures SearchFor(table, sel).value.query == BaseQuery(table) + OrderSuffix
            <==> forall f :: !IsActive(sel, f)
    ensures SearchFor(table, sel).value.params == [] <==> forall f :: !IsActive(sel, f)
  {
    var s := SearchFor(table, sel).value;
    var fs := ActiveFilters(sel);
    SearchForParts(table, sel);
    BindingsIndexed(sel, ParseYears(sel.years).value);
    ActiveFiltersMembers(sel);
    if |fs| == 0 {
      forall f
        ensures !IsActive(sel, f)
      {
        assert f !in fs;
      }
    } else {
      assert fs[0] in fs;
      var middle := " WHERE " + Join(" AND ", Conditions(sel));
      assert s.query == BaseQuery(table) + middle + OrderSuffix;
      assert |s.query| > |BaseQuery(table) + OrderSuffix|;
    }
  }

  /** Every query starts with the base query and ends with the ordering and
      row limit; when clauses exist, the text between is ` WHERE ` and the
      clauses joined by ` AND `, so each clause appears in the query. */
  lemma QueryFrame(table: string, sel: Selection)
    requires SearchFor(table, sel).Ok?
    ensures IsPrefix(BaseQuery(table), SearchFor(table, sel).value.query)
    ensures IsSuffix(OrderSuffix, SearchFor(table, sel).value.query)
    ensures |Conditions(sel)| > 0 ==>
      SearchFor(table, sel).value.query
      == BaseQuery(table) + (" WHERE " + Join(" AND ", Conditions(sel))) + OrderSuffix
    ensures forall i :: 0 <= i < |Conditions(sel)| ==>
      IsSubstring(Conditions(sel)[i], SearchFor(table, sel).value.query)
  {
    var q := SearchFor(table, sel).value.query;
    var base := BaseQuery(table);
    var cs := Conditions(sel);
    SearchForParts(table, sel);
    if |cs| > 0 {
      var middle := " WHERE " + Join(" AND ", cs);
      assert q == base + middle + OrderSuffix;
      FramedBy(base, middle, OrderSuffix);
      forall i | 0 <= i < |cs|
        ensures IsSubstring(cs[i], q)
      {
        JoinContainsParts(" AND ", cs, i);
        SubstringAfter(cs[i], " WHERE ", Join(" AND ", cs));
        SubstringAfter(cs[i], base, middle);
        SubstringBefore(cs[i], base + middle, OrderSuffix);
      }
    } else {
      assert q == base + OrderSuffix;
      PrefixOfConcat(base, OrderSuffix);
      SuffixOfConcat(base, OrderSuffix);
    }
  }

  /** Each clause text names its own parameter with an `@` placeholder. */
  lemma PlaceholderInCondition(f: Filter)
    ensures IsSubstring(Placeholder(f), Condition(f))
  {
    var p := Placeholder(f);
    SubstringSelf(p);
    if f == Keyword {
      var head := "(LOWER(title) LIKE ";
      var middle := " OR LOWER(content_text) LIKE ";
      SubstringAfter(p, head, p);
      SubstringBefore(p, head + p, middle);
      SubstringBefore(p, head + p + middle, p);
      SubstringBefore(p, head + p + middle + p, ")");
    } else {
      var head := Column(f) + " IN UNNEST(";
      SubstringAfter(p, head, p);
      SubstringBefore(p, head + p, ")");
    }
  }

  /** One parameter per clause, in the same order, and the i-th clause refers
      to the i-th parameter by its name. */
  lemma ParamsPairWithConditions(table: string, sel: Selection)
    requires SearchFor(table, sel).Ok?
    ensures |SearchFor(table, sel).value.params| == |Conditions(sel)|
    ensures forall i :: 0 <= i < |Conditions(sel)| ==>
      IsSubstring("@" + SearchFor(table, sel).value.params[i].name, Conditions(sel)[i])
  {
    var s := SearchFor(table, sel).value;
    var years := ParseYears(sel.years).value;
    var fs := ActiveFilters(sel);
    SearchForParts(table, sel);
    BindingsIndexed(sel, years);
    forall i | 0 <= i < |fs|
      ensures IsSubstring("@" + s.params[i].name, Conditions(sel)[i])
    {
      BindingName(fs[i], sel, years);
      PlaceholderInCondition(fs[i]);
      assert Conditions(sel)[i] == Condition(fs[i]);
    }
  }

  /** No two parameters of a built search share a name. */
  lemma ParamNamesDistinct(table: string, sel: Selection)
    requires SearchFor(table, sel).Ok?
    ensures forall i, j :: 0 <= i < j < |SearchFor(table, sel).value.params| ==>
      SearchFor(table, sel).value.params[i].name != SearchFor(table, sel).value.params[j].name
  {
    SearchForParts(table, sel);
    BindingsDistinctNames(sel, ParseYears(sel.years).value);
  }

  /** A parameter named after dimension `f` exists exactly when the selection
      uses `f`, and it carries the selection's own values: the chosen lists
      unchanged, the converted years as INT64, the keyword as `%keyword%`. */
  lemma ParamForDimension(table: string, sel: Selection, f: Filter)
    requires SearchFor(table, sel).Ok?
    ensures (exists i :: 0 <= i < |SearchFor(table, sel).value.params|
               && SearchFor(table, sel).value.params[i].name == ParamName(f))
            <==> IsActive(sel, f)
    ensures forall i ::
              (0 <= i < |SearchFor(table, sel).value.params|
               && SearchFor(table, sel).value.params[i].name == ParamName(f)) ==>
              SearchFor(table, sel).value.params[i] == Binding(f, sel, ParseYears(sel.years).value)
  {
    SearchForParts(table, sel);
    BindingsForDimension(sel, ParseYears(sel.years).value, f);
  }

  /** Every parameter's values have the parameter's declared type. */
  lemma ParamsWellTyped(table: string, sel: Selection)
    requires SearchFor(table, sel).Ok?
    ensures forall i :: 0 <= i < |SearchFor(table, sel).value.params| ==>
      WellTyped(SearchFor(table, sel).value.params[i])
  {
    var s := SearchFor(table, sel).value;
    var years := ParseYears(sel.years).value;
    var fs := ActiveFilters(sel);
    SearchForParts(table, sel);
    BindingsIndexed(sel, years);
    forall i | 0 <= i < |s.params|
      ensures WellTyped(s.params[i])
    {
      BindingWellTyped(fs[i], sel, years);
    }
  }

  /** The query text depends only on which dimensions are selected, never on
      the chosen values or the keyword itself. */
  lemma QueryIgnoresValues(table: string, sel1: Selection, sel2: Selection)
    requires forall f :: IsActive(sel1, f) == IsActive(sel2, f)
    requires SearchFor(table, sel1).Ok? && SearchFor(table, sel2).Ok?
    ensures SearchFor(table, sel1).value.query == SearchFor(table, sel2).value.query
  {
    SearchForParts(table, sel1);
    SearchForParts(table, sel2);
    ActiveFiltersFollowPattern(sel1, sel2);
  }

  /** The build fails exactly when some year value is not an integer, and it
      then names the first such value. */
  lemma SearchFailsOnNonIntegerYear(table: string, sel: Selection)
    ensures SearchFor(table, sel).Err?
            <==> exists i :: 0 <= i < |sel.years| && ParseInt(sel.years[i]).None?
    ensures SearchFor(table, sel).Err? ==>
      exists k ::
        && 0 <= k < |sel.years|
        && SearchFor(table, sel).error == NotAnInteger(sel.years[k])
        && ParseInt(sel.years[k]).None?
        && forall j :: 0 <= j < k ==> ParseInt(sel.years[j]).Some?
  {
    ParseYearsOk(sel.years);
    if ParseYears(sel.years).Err? {
      ParseYearsErr(sel.years);
    }
  }

  /** The years are bound as an INT64 array of the converted values, same
      length and order as the selection. */
  lemma YearsBoundAsIntegers(table: string, sel: Selection, i: nat)
    requires SearchFor(table, sel).Ok?
    requires i < |SearchFor(table, sel).value.params|
    requires SearchFor(table, sel).value.params[i].name == ParamName(Years)
    ensures SearchFor(table, sel).value.params[i].Array?
    ensures SearchFor(table, sel).value.params[i].typ == Int64
    ensures |SearchFor(table, sel).value.params[i].values| == |sel.years|
    ensures forall k :: 0 <= k < |sel.years| ==>
      && ParseInt(sel.years[k]).Some?
      && SearchFor(table, sel).value.params[i].values[k] == Int(ParseInt(sel.years[k]).value)
  {
    var years := ParseYears(sel.years).value;
    SearchForParts(table, sel);
    BindingsForDimension(sel, years, Years);
    ParseYearsOk(sel.years);
  }
}
