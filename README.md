# Ministry document search: verified model of the query builder

This project is a Dafny model of the logic in `app.py` of a small Streamlit
app. The app searches a BigQuery catalog of government documents, one row per
page. The model covers three parts of that file.

- **The search-query builder** of `run_search`. A selection is a keyword plus
  lists of ministries, categories, sub-categories and fiscal years. The
  builder turns it into SQL text and an ordered list of named, typed query
  parameters:
  - It starts from a fixed `SELECT … FROM` text.
  - For each non-empty filter, in a fixed order, it appends one clause and one
    parameter.
  - It joins the clauses with ` AND ` after ` WHERE `.
  - It always appends ` ORDER BY ministry, category, fiscal_year_start LIMIT 1000`.
  - Years go through Python's `int()` and are bound as `INT64`.
  - The keyword is lowercased, wrapped as `%keyword%`, and tested with `LIKE`
    against the lowercased title and content.
- **The credential check** `check_credentials`, and the login form's guard
  that turns away an empty user id or password before any lookup.
- **The result counts** shown after a search: pages are result rows, files
  are distinct `file_id` values.

## How the model is organised

- `search_query.dfy` (`SearchQuery`) holds the builder. `SearchQuery.BuildSearch`,
  `SearchQuery.BuildClauses`, `SearchQuery.AppendIf`, `SearchQuery.AssembleQuery`
  and `SearchQuery.IntYears` are methods that mirror the Python steps: the
  appends, the `int()` conversion loop, and the `+=` on the final query. Each
  method is proved equal to a specification function:
  - `SearchQuery.SearchFor` for the whole build;
  - `SearchQuery.Collect` for the appends;
  - `SearchQuery.QueryText` for the query text;
  - `SearchQuery.ParseYears` for the year conversion.

  Inside the builder each clause is kept as its dimension (`Filter`). It
  becomes its text (`SearchQuery.Condition`) when the query is put together.
  In the source each clause text is a fixed string per dimension, so the
  resulting query text is the same.
- `search_properties.dfy` (`SearchProperties`) proves what the builder
  promises:
  - the shape of the query;
  - one parameter per clause, in the fixed order;
  - the placeholders;
  - the parameter types;
  - the years;
  - that the text does not depend on the chosen values.
- `search_meaning.dfy` (`SearchMeaning`) reads the WHERE clause against a
  catalog row and compares it with the intended meaning of a selection.
- `py_int.dfy` (`PyInt`) models `int()` on text. `sql_like.dfy` (`SqlLike`)
  models SQL `LIKE`. `text.dfy` (`Text`) models `str.lower`, `str.join` and
  `in`.
- `auth.dfy` (`Auth`) holds the credential check and the login guard.
- `result_stats.dfy` (`ResultStats`) holds the result counts.
- `catalog.dfy` (`Catalog`) defines the catalog row. `wrappers.dfy` defines
  `Option` and `Result`.

The configured table path `project.dataset.table` is read from the app's
secrets. Here it is the parameter `table`.

The app searches one table. The keyword is one string; it is not split into
tokens. The filters are lists and are bound unchanged, with order and
duplicates kept. A year value that is not an integer makes `int()` raise
`ValueError` outside the `try` that guards query execution, so the search
stops there. The model returns this as `Err(NotAnInteger(value))`, naming the
first value `int()` rejects.

## Model

| member | source | states |
|---|---|---|
| SearchQuery.BuildSearch | app.py:158-197 | the built query text and parameters are exactly `SearchFor(table, sel)`, or the error naming the first year `int()` rejects |
| SearchQuery.BuildClauses | app.py:165-189 | the clause list is the used dimensions in the order ministries, categories, sub_categories, years, keyword; the parameter list is their bindings; a non-integer year fails the build |
| SearchQuery.AppendIf | app.py:169-171 | one `if` block: clause and parameter are appended exactly when the filter is non-empty, otherwise both lists are unchanged |
| SearchQuery.AssembleQuery | app.py:192-197 | the query is the base text, then ` WHERE ` and the clause texts joined by ` AND ` when there are any, then the ORDER BY / LIMIT suffix |
| SearchQuery.IntYears | app.py:183 | `[int(y) for y in years]` converts one value at a time and stops at the first failure, agreeing with `ParseYears` |
| SearchQuery.ParseYearsOk | app.py:183 | the conversion succeeds iff every year value is an integer text, and then keeps length and order, each result being `int()` of its value |
| SearchQuery.ParseYearsErr | app.py:183 | a failed conversion names the first value that is not an integer; all earlier values were integers |
| PyInt.ParseShow | app.py:183 | `int(str(n)) == n` for every integer of at most 4300 digits; a longer decimal text is rejected |
| PyInt.LongDigitRunFails | app.py:183 | `int()` rejects a run of more than 4300 digits, signed or not (the default `sys.int_info.default_max_str_digits`) |
| PyInt.YearTextParses | app.py:183 | `int("2021") == 2021` |
| PyInt.PaddedYearTextParses | app.py:183 | surrounding whitespace is ignored: `int(" 2022\n") == 2022` |
| PyInt.GroupedYearTextParses | app.py:183 | underscores between digits are ignored: `int("2_021") == 2021` |
| PyInt.NonIntegerTextFails | app.py:183 | `int()` rejects `"abc"`, `""` and `"20__21"` |
| PyInt.SeparatorIsNotStripped | app.py:183 | `int()` does not strip the separators 0x1c and 0x1f: `"\x1c2021"` and `"2021\x1f"` are rejected |
| Text.Lower | app.py:189 | `keyword.lower()` keeps the length and lowers each ASCII letter |
| Text.JoinContainsParts | app.py:193 | every clause occurs in `" AND ".join(clauses)` |
| SqlLike.LikeEscaped | app.py:189 | an escaped text in a LIKE pattern matches only itself, literally |
| SqlLike.LikeLeadingPercent | app.py:189 | a leading `%` lets the rest of the pattern match any suffix of the text |
| SqlLike.EscapedSubstringPattern | app.py:189 | `%k%` with `k` escaped matches exactly the texts containing `k` |
| SearchProperties.ActiveFiltersMembers | app.py:169-189 | a dimension gets a clause exactly when its list (or the keyword) is non-empty |
| SearchProperties.ActiveFiltersOrdered | app.py:169-189 | clauses come in the strict order ministries, categories, sub_categories, years, keyword |
| SearchProperties.CollectIndexed | app.py:169-189 | whatever is appended per dimension lines up position by position with the clause list |
| SearchProperties.BindingsIndexed | app.py:169-189 | the i-th parameter is the binding of the i-th clause's dimension |
| SearchProperties.BindingsDistinctNames | app.py:169-189 | no two parameters share a name |
| SearchProperties.BindingsForDimension | app.py:169-189 | a parameter named for a dimension exists iff that dimension is used, and it is that dimension's binding |
| SearchProperties.EmptySelectionQuery | app.py:165-166 | with nothing selected the query is the base text plus the suffix, with no WHERE and no parameters |
| SearchProperties.NoFilterIffPlainQuery | app.py:192-197 | the query has no WHERE clause, and the parameter list is empty, exactly when no filter is used |
| SearchProperties.QueryFrame | app.py:158-197 | every query starts with the base text and ends with ` ORDER BY ministry, category, fiscal_year_start LIMIT 1000`; with clauses it is base + ` WHERE ` + join + suffix, and each clause occurs in it |
| SearchProperties.PlaceholderInCondition | app.py:170-188 | each clause text contains `@` followed by its own parameter's name |
| SearchProperties.ParamsPairWithConditions | app.py:169-189 | there are as many parameters as clauses, and the i-th clause refers to the i-th parameter by name |
| SearchProperties.ParamNamesDistinct | app.py:169-189 | the built search binds each name once |
| SearchProperties.ParamForDimension | app.py:170-189 | the built search has a parameter for a dimension iff the dimension is used: the chosen list unchanged as STRING, the converted years as INT64, the keyword as `%lower(keyword)%` |
| SearchProperties.ParamsWellTyped | app.py:171-189 | every parameter's values have its declared type (STRING or INT64) |
| SearchProperties.QueryIgnoresValues | app.py:169-197 | the query text depends only on which filters are used, never on the chosen values or the keyword: user values travel only in parameters |
| SearchProperties.SearchFailsOnNonIntegerYear | app.py:181-185 | the build fails iff some year value is not an integer, and it then names the first such value |
| SearchProperties.YearsBoundAsIntegers | app.py:181-185 | the years parameter is an INT64 array with one integer per selected year, in order, each `int()` of its value |
| SearchMeaning.Lookup | app.py:169-189 | the parameter found for a name carries that name; none is found iff no parameter has it |
| SearchMeaning.LookupDistinct | app.py:169-189 | with distinct names, each parameter is found under its own name |
| SearchMeaning.BoundParam | app.py:169-189 | the placeholder of a used dimension resolves to that dimension's binding |
| SearchMeaning.LiteralPatternIsSubstring | app.py:188-189 | `%k%` matches exactly the texts containing `k` when `k` has no `%`, `_` or `\` |
| SearchMeaning.KeywordClauseMeaning | app.py:187-189 | the keyword clause holds iff the lowered keyword occurs in the lowered title or the lowered content (keywords without LIKE special characters) |
| SearchMeaning.ClauseMeaning | app.py:169-189 | each used clause holds iff the row agrees with that filter: its value is in the chosen list, or it contains the keyword (for the keyword clause, keywords without `%`, `_` or `\`; the list clauses for every keyword) |
| SearchMeaning.BindingsMeanSelection | app.py:169-193 | the clauses joined by AND accept exactly the rows the selection means (keywords without `%`, `_` or `\`) |
| SearchMeaning.QueryMeansSelection | app.py:158-197 | the built search accepts exactly the rows whose ministry, category, sub-category and year are in the chosen lists and that contain the keyword |
| SearchMeaning.EmptySelectionSelectsEveryRow | app.py:165-197 | with nothing selected the search accepts every row, as meant |
| SearchMeaning.UnderscorePatternMatchesAnyCharacter | app.py:189 | the written pattern for keyword `_` matches `x`, which does not contain `_` |
| SearchMeaning.UnderscoreKeywordMatchesAnyCharacter | app.py:187-189 | as written, the search for keyword `_` accepts a row with title `x` and empty content, which the selection does not mean |
| SearchMeaning.KeywordOnlyClauses | app.py:169-189 | a selection with only a keyword yields the keyword clause alone |
| SearchMeaning.EscapedKeywordMeansSubstring | app.py:189 | with the keyword escaped, the keyword clause holds iff the lowered keyword occurs in the lowered title or content, for every keyword |
| SearchMeaning.EscapedAgreesOnLiteralKeywords | app.py:189 | escaping changes the pattern only for keywords with `%`, `_` or `\` |
| Auth.MatchingRows | app.py:71 | the rows kept by the two-column filter all match, and there are some iff some row of the sheet matches |
| Auth.CheckCredentials | app.py:65-77 | an empty sheet fails; the check succeeds iff some row has `id` equal to the user id and `pw` equal to the password, a missing column failing like no match |
| Auth.SubmitLogin | app.py:90-104 | an empty user id or password is turned away before any lookup; otherwise the login is accepted iff the credential check succeeds |
| Auth.AcceptedUserIsListed | app.py:71-73 | an accepted login names a sheet row whose `id` is the user id |
| Auth.NumericPasswordNeverMatches | app.py:71 | a password cell the sheet library read as a number never equals a typed password |
| Auth.MoreRecordsKeepAccess | app.py:71-73 | adding rows to the sheet never revokes a login |
| ResultStats.FileCountBound | app.py:307-308 | `file_count <= page_count`, with equality iff every page comes from a different file |
| ResultStats.NonEmptyResultHasAFile | app.py:306-308 | a non-empty result comes from at least one file |

## Left out

- The Streamlit UI and session state are not modelled: forms, sidebar, spinners, `st.rerun` and the error messages. They are presentation only.
- Client construction and secret loading (`get_gspread_client`, `get_bigquery_client`) are foreign-library calls. The table path is the parameter `table`.
- Running the query, fetching the sheet, `load_metadata` and `log_search_to_bigquery` are I/O. The model covers the data handed to the database and the sheet rows it gets back.
- `run_search`'s `try` around query execution (app.py:202-207), which returns an empty frame on a database error, belongs to execution. It is not modelled.
- The meaning of `ORDER BY … LIMIT 1000` (ordering and truncation of the rows) is not modelled. `SearchMeaning.QueryAccepts` reads the WHERE clause only. The suffix text itself is modelled and proved present.
- SQL NULL is not modelled: catalog rows have no missing fields.
- `SearchMeaning.QueryMeansSelection` holds only for keywords without `%`, `_` or `\`, because the source does not escape them (see Findings).
- `SearchQuery.Selection.years` are text. In app.py they are integers from the `fiscal_year_start` metadata column (app.py:279-282, 304), which `int()` returns unchanged; `PyInt.ParseShow` states the same for their decimal text. So the failure path is reached only by text input.
- `SearchQuery.IntYears`: only ASCII digits and whitespace are modelled for `int()`, because Unicode digits and spaces need Unicode tables. The digit limit is fixed at Python's default of 4300; changing it with `sys.set_int_max_str_digits` or `PYTHONINTMAXSTRDIGITS` is interpreter configuration and is not modelled. The years are not checked against the INT64 range, because BigQuery would reject such a value at execution.
- `PyInt.Show`: `str(n)` does not raise for more than 4300 digits, as Python 3.11 onwards does; it exists only to state `PyInt.ParseShow`, which gives the `int()` side of that limit.
- `Text.Lower` lowers ASCII letters only, because Unicode case mapping needs Unicode tables.
- `SqlLike.Like` treats a lone trailing backslash in a pattern as matching nothing, whereas BigQuery reports an error.
- `Auth.CheckCredentials`:
  - Cells are text or integers. Floats and the library's numericising of cell text are not modelled.
  - Failures other than a missing column (network, permissions) also end in `False` in the source. They are I/O and are not modelled.

## Findings

| source | as written | input that shows it | evidently intended | confidence | as-written member | corrected member |
|---|---|---|---|---|---|---|
| app.py:189 | the keyword goes into the LIKE pattern unescaped, as `%` + lower(keyword) + `%` | keyword `_` with no other filter, and a row with title `x` and empty content: the search accepts the row although neither column contains `_` | `%`, `_` and `\` in the keyword match themselves, so the clause is a case-insensitive substring test | medium; not executed | SearchMeaning.UnderscoreKeywordMatchesAnyCharacter | SearchMeaning.EscapedKeywordMeansSubstring |

The builder (`SearchQuery.BuildSearch`) keeps the pattern as the source writes
it. The corrected pattern `SearchMeaning.EscapedKeywordPattern` is proved to
give the substring meaning for every keyword. It is also proved equal to the
written pattern on every keyword without special characters
(`SearchMeaning.EscapedAgreesOnLiteralKeywords`).
