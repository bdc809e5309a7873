# Search-query generator, modelled in Dafny

The search-query generator reads a CSV file of terms. Each column is a
*group* of terms. Per-group settings decide three things: whether terms are
quoted, which boolean operator links the group to the next one, and which
operator joins the terms inside the group. From these the generator builds
boolean search strings such as `(blue OR red) AND ("large")`. It builds
either one combined query, or one query per distinct value of a chosen
*main* column, with the other columns acting as a shared filter in front of
it. The queries are then written to a text file, and a summary row
describes the run.

This project models the pure core of that pipeline and proves what it
computes.

- `Strings` models `str.strip()`, over an explicit Unicode-whitespace
  predicate. It also models `sep.join`, `"".join`, and Python's code-point
  order on `str`.
- `Sorting` models `sorted()` on a set of strings.
- `Formatter` models `clean_term` and `format_group`.
- `Assembler` models `build_query` and `build_queries_by_main_group`. The
  ordered `Dict[str, Set[str]]` is a sequence of (name, terms) pairs. The
  settings dictionary is a map to a `Logic` record.
- `Loader` models the grouping fold of `read_terms_grouped`, over records
  given as maps. It also models the comprehension of `read_csv_terms`.
- `Writer` models the text that `_write_queries_txt` writes. The block text
  of `write_queries` in `sqg/sqg.py` (lines 162-167) is the same code.
- `Metadata` models the computed fields of the `write_summary_metadata`
  row.
- `Scenarios` works the docstring example of `build_query` and a per-value
  fan-out from the general lemmas.

Errors are values, not exceptions:

- A `KeyError` on missing settings becomes `MissingLogic(name)`, where
  `name` is the first column whose settings are looked up and absent.
- The `ValueError` for an unknown main column becomes `MainGroupNotFound`.
- The `TypeError` that `sorted()` raises when it compares a `None` label
  with a string label becomes `UnorderableLabels`.

The code sorts the terms of every group and parenthesises every clause,
singletons included. So the docstring example of `build_query` really
produces `(blue OR red) AND ("large")`, not the documented
`'(red OR blue) AND "large"'`. The model follows the code, and
`Scenarios.DocstringExample` proves the actual output.

## Model

| member | source | states |
|---|---|---|
| Strings.Strip | sqg/sqg.py:18 | the result has no leading or trailing whitespace, and it is empty exactly when the input is all whitespace |
| Strings.StripCharacterization | sqg/sqg.py:18 | stripping returns the one infix whose surroundings are all whitespace and which has no whitespace at its ends |
| Strings.StripPadding | sqg/sqg.py:18 | whitespace added around a string does not change what it strips to |
| Strings.StripIdempotent | sqg/sqg.py:18 | stripping twice is the same as stripping once |
| Strings.LessTotal | sqg/sqg.py:33 | any two distinct strings are ordered one way or the other under code-point order |
| Strings.LessTransitive | sqg/sqg.py:33 | code-point order is transitive |
| Strings.LessIrreflexive | sqg/sqg.py:33 | no string sorts before itself |
| Sorting.Least | sqg/sqg.py:93 | the member it picks is in the set and sorts before every other member |
| Sorting.Sorted | sqg/sqg.py:33 | `sorted(set)` lists exactly the set's members, each once, in strictly ascending order |
| Sorting.SortedUnique | sqg/sqg.py:33 | every strictly ascending listing of a set is `sorted` of it, so the order depends only on the set's contents and not on insertion order |
| Sorting.SortedSingleton | sqg/sqg.py:109 | a one-value set sorts to that value alone |
| Formatter.CleanTerm | sqg/sqg.py:16-21 | the empty term gives ""; the result is "" exactly for the empty term or for an all-whitespace term without quoting; the result never has outer whitespace; an inner space always forces quotes; with quoting on, the result is the stripped term in double quotes |
| Formatter.CleanTermPadding | sqg/sqg.py:18-21 | surrounding whitespace never changes the cleaned form of a non-empty term, so it never forces quoting |
| Formatter.CleanTermQuotingRule | sqg/sqg.py:19-21 | a space in the stripped term forces quotes; otherwise, without quoting, the stripped term is returned unchanged |
| Formatter.CleanTermOfStripped | sqg/sqg.py:19-21 | an already-stripped term is quoted exactly when quoting is on or it contains a space, and is otherwise returned as is |
| Formatter.CleanTermBlank | sqg/sqg.py:16-21 | "" stays "", because the emptiness test comes before stripping; a single space becomes `""` (two quote characters) with quoting and "" without |
| Formatter.CleanTermNewYork | sqg/sqg.py:19-20 | a term with an inner space is quoted even when quoting is off |
| Formatter.CleanTermTab | sqg/sqg.py:19 | only the ASCII space forces quoting; an inner tab does not |
| Formatter.NonEmptyTerms | sqg/sqg.py:33 | the `if term` filter keeps exactly the non-empty terms and preserves ascending order |
| Formatter.FormatGroup | sqg/sqg.py:33-34 | the clause is "" exactly when the set has no non-empty term; otherwise it is bracketed by parentheses |
| Formatter.FormatGroupListing | sqg/sqg.py:33-34 | for the ascending listing of the non-empty terms, the clause is "(" + the cleaned terms joined by " op " + ")", or "" when there are none |
| Formatter.FormatGroupIgnoresEmpty | sqg/sqg.py:33 | an empty-string term contributes nothing to the clause |
| Formatter.FormatGroupSingleton | sqg/sqg.py:33-34 | a one-value clause is "(" + cleaned value + ")", whatever the operator, and "" for the empty value |
| Formatter.FormatGroupPair | sqg/sqg.py:33-34 | two terms appear in ascending order, whatever order the set was built in |
| Formatter.FormatGroupSortsTerms | sqg/sqg.py:33-34 | `{"red", "blue"}` formats as `(blue OR red)` |
| Assembler.FirstMissing | sqg/sqg.py:57-63 | no column is reported exactly when every column has settings; a reported column has none and is one of the columns |
| Assembler.NonEmptyGroups | sqg/sqg.py:54 | the kept columns all have terms |
| Assembler.NonEmptyGroupsMembers | sqg/sqg.py:54 | a column is kept exactly when it is present and has terms |
| Assembler.NonEmptyGroupsAppend | sqg/sqg.py:54 | filtering distributes over concatenation, so column order is preserved |
| Assembler.StaticGroups | sqg/sqg.py:92 | every filter column has terms and is not the main column |
| Assembler.StaticGroupsMembers | sqg/sqg.py:92 | a column is a filter column exactly when it is present, is not the main column and has terms |
| Assembler.StaticGroupsAppend | sqg/sqg.py:92 | the filter columns distribute over concatenation, so they keep their column order |
| Assembler.Lookup | sqg/sqg.py:88-93 | the main column is found exactly when its name is present, and the terms returned are that column's |
| Assembler.JoinLinks | sqg/sqg.py:98-112 | joining the "clause op" parts and a last part with single spaces gives each column's clause, a space, its operator and a space, then the last part |
| Assembler.ChainIsJoin | sqg/sqg.py:57-68 | the space-joined parts of `build_query` read as the chain of links followed by the last bare clause |
| Assembler.Combine | sqg/sqg.py:57-68 | over the kept columns, fails exactly when one lacks settings, naming a column without settings; otherwise gives the chain |
| Assembler.BuildQuery | sqg/sqg.py:54-68 | fails exactly when some non-empty column lacks settings, naming such a column; otherwise it is the chain of the non-empty columns in column order |
| Assembler.BuildQuerySkipsEmptyGroup | sqg/sqg.py:54 | inserting a column with no terms anywhere leaves the result unchanged, even when that column has no settings |
| Assembler.LinksAgree | sqg/sqg.py:98-104 | the chain reads only the settings of the columns it lists |
| Assembler.FirstMissingKeys | sqg/sqg.py:58 | which column is reported missing depends only on which names have settings |
| Assembler.CombineIgnoresLastOperator | sqg/sqg.py:62-66 | changing the last column's operator does not change the chain |
| Assembler.BuildQueryIgnoresLastOperator | sqg/sqg.py:62-66 | the operator of the last non-empty column is never read |
| Assembler.BuildQuerySingle | sqg/sqg.py:54-68 | one non-empty column gives just its clause |
| Assembler.BuildQueryAllEmpty | sqg/sqg.py:54-68 | no non-empty column gives "", whatever the settings |
| Assembler.NonEmptyGroupsAllEmpty | sqg/sqg.py:54 | all-empty columns are all dropped |
| Assembler.NonEmptyGroupsAllNonEmpty | sqg/sqg.py:54 | no column is dropped when all have terms |
| Assembler.QueryText | sqg/sqg.py:96-112 | a per-value query is the filter prefix followed by the clause of the one value |
| Assembler.QueriesFor | sqg/sqg.py:95-112 | one query per value, in the given order, each labelled by its value, with the same prefix |
| Assembler.FirstMissingThenMain | sqg/sqg.py:98-108 | settings are looked up for the filter columns and then the main column; nothing is missing exactly when all of them have settings |
| Assembler.FanOut | sqg/sqg.py:91-114 | an empty main column gives no queries even with settings missing; otherwise fails exactly when a filter or the main column lacks settings; succeeds with one query per main value, labels strictly ascending and drawn from the main column, each text the shared prefix plus that value's clause |
| Assembler.BuildQueriesByMainGroup | sqg/sqg.py:88-114 | fails with MainGroupNotFound exactly when the main column is absent; otherwise as FanOut, over the non-empty columns other than the main one, in column order |
| Assembler.CombinedWithValue | sqg/sqg.py:54-68 | the combined query of non-empty filter columns followed by a one-value main column is the filter prefix plus that value's clause |
| Assembler.WithValueShape | sqg/sqg.py:54-68 | such columns are all kept and configured, and their chain is the filter prefix plus the value's clause |
| Assembler.BuildQueryAllConfigured | sqg/sqg.py:54-68 | with no empty column and every column configured, the combined query is the chain of all columns |
| Assembler.ByMainGroupIsCombined | sqg/sqg.py:91-112 | every per-value query equals `build_query` over the filter columns plus the main column cut down to that value |
| Scenarios.DocstringExample | sqg/sqg.py:47-52 | the docstring input gives `(blue OR red) AND ("large")` |
| Scenarios.SizeClause | sqg/sqg.py:33-34 | a quoted singleton clause keeps its parentheses: `("large")` |
| Scenarios.FanOutPair | sqg/sqg.py:93-112 | with no filter columns, two main values give two single-clause queries in ascending order |
| Scenarios.FanOutExample | sqg/sqg.py:88-114 | a fruit column `{apple, banana}` gives the queries `(apple)` and `(banana)`, in that order |
| Loader.AddRow | sqg/input_output.py:49-52 | one record adds exactly its non-blank stripped cells to their columns, creates the columns it fills and removes nothing |
| Loader.ReadTermsGrouped | sqg/input_output.py:45-54 | a column is present exactly when some record has a non-blank cell in it; its terms are exactly the stripped non-blank cells of that column; no present column is empty |
| Loader.ReadTermsGroupedGrows | sqg/input_output.py:48-52 | reading more records only adds, so the result is a pointwise superset |
| Loader.ColumnTerms | sqg/sqg.py:139-142 | every header is a key, holding exactly the stripped non-blank cells of that column |
| Loader.ReadersAgree | sqg/input_output.py:48-54 | the two readers agree on every column that has a term; `read_csv_terms` keeps a blank column with no terms where the fold leaves it out |
| Writer.QueryLeTotal | sqg/input_output.py:89 | (label, text) pairs whose labels are of one kind are always comparable |
| Writer.QueryLeTransitive | sqg/input_output.py:89 | the pair order is transitive |
| Writer.QueryLeAntisymmetric | sqg/input_output.py:89 | pairs ordered both ways are equal |
| Writer.Insert | sqg/input_output.py:89 | inserting into an ordered list keeps it ordered and adds exactly the one entry |
| Writer.SortQueries | sqg/input_output.py:89 | `sorted(queries)` is an ordered permutation of its input |
| Writer.OrderedUnique | sqg/input_output.py:89 | two ordered lists with the same entries are equal |
| Writer.UniformEntries | sqg/input_output.py:89 | whether the labels can be compared depends only on the entries |
| Writer.RenderQueries | sqg/input_output.py:88-93 | fails exactly when `None` and string labels are mixed; otherwise the text is the blocks of an ordered permutation of the queries |
| Writer.RenderListsSorted | sqg/input_output.py:89-93 | the text is the blocks of THE ordered permutation of the queries |
| Writer.RenderOrderIndependent | sqg/input_output.py:89 | the file's contents do not depend on the order in which the queries were generated |
| Writer.BlockBreaks | sqg/input_output.py:90-93 | a block of single-line parts has two line breaks, three with the header |
| Writer.RenderBreaks | sqg/input_output.py:89-93 | a file of single-line queries has two line breaks per query, three with headers |
| Metadata.TermsTotalAppend | sqg/sqg.py:198 | the term total is additive over columns |
| Metadata.TermsTotalZero | sqg/sqg.py:198 | the total is zero exactly when every column is empty |
| Metadata.TermsTotalAtLeastCount | sqg/sqg.py:197-198 | when every column has a term, the term total is at least the column count; `read_terms_grouped` guarantees that, but `read_csv_terms` keeps blank columns with no terms |
| Metadata.Listed | sqg/sqg.py:199-203 | lists exactly the columns other than the main column, in order |
| Metadata.ListedAppend | sqg/sqg.py:199-203 | listing distributes over concatenation, so the listed columns keep their column order |
| Metadata.SummaryOf | sqg/sqg.py:193-204 | fails exactly when a listed column lacks settings, naming such a column; otherwise gives the label, the column count, the term total, and the "; "-joined `name:op/internal` entries of the listed columns |
| Metadata.SummaryIgnoresMainLogic | sqg/sqg.py:199-203 | the main column's own settings are never read |
| Metadata.SummaryOfMainOnly | sqg/sqg.py:193-204 | with the main column the only column, the settings field is empty |

## Left out

- `cli.py` is not part of this model. It holds interactive prompting,
  argument parsing, printing and the run identifier, which uses the clock,
  randomness and SHA-1.
- File access is not modelled, and the records are given as input. This
  covers the encoding fallback loop, `csv.Sniffer` dialect detection and
  `csv.DictReader` parsing (`read_csv_with_autodetect`, `read_csv_terms`).
  Malformed records are not modelled either: every cell is a string. In
  the source, a short record holds `None` for its missing cells, which
  crashes both readers with `AttributeError` on `.strip()`: at
  `sqg/input_output.py` line 50 and at `sqg/sqg.py` line 140. An
  over-long record holds a list of its extra cells under the `None` key.
  That crashes only `read_terms_grouped`, which strips every value of the
  record. `read_csv_terms` reads only the header columns, so it drops the
  extra cells silently.
- Opening, writing and appending files is not modelled. Neither are the
  `os.path.exists` header check, `csv.DictWriter` and `_write_metadata_csv`.
  The model returns the strings that would be written.
- The summary row's identifier, input path, timestamp and query count are
  copied through and are not modelled; the timestamp comes from the clock.
- Exception classes and message texts are replaced by the `Error` and
  `RenderError` values.
- Operators are an enumeration of `AND`, `OR` and `NOT`, which are the only
  values the command line offers. Arbitrary operator strings are not
  modelled.
- The settings record always carries `quote` and `operator`. A settings
  dictionary that lacks one of those keys is not modelled; only a column
  with no settings at all is.
- Loader.ColumnTerms: the header order of the resulting dictionary is not
  modelled, because the result is a map. In the source that order becomes
  the column order of every query.
- Loader.ReadTermsGrouped: the order of keys in the resulting dictionary
  (first-fill order) is not modelled, because the result is a map.
- Writer.SortQueries: it uses insertion sort, which Python's sort is not.
  `OrderedUnique` shows that the result is the same.
- Writer.RenderQueries: the model fails whenever `None` and string labels
  are mixed. This assumes that `sorted()` compares every adjacent pair of
  its result, which a correct comparison sort must do.
