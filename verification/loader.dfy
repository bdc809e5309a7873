/** The grouping fold of `read_terms_grouped` in `sqg/input_output.py`: every
    CSV record, as a column-to-cell mapping, adds its stripped non-blank
    cells to the term set of their column. File access, encoding fallback
    and dialect sniffing are not part of this model; the records are given. */
module Loader {
  import opened Strings

  /** One CSV record as `csv.DictReader` yields it: column name to cell text. */
  type Row = map<string, string>

  /** Column name to the set of distinct terms seen in it. */
  type Grouped = map<string, set<string>>

  /** The term a cell contributes to its column: its stripped text, unless
      that is empty. */
  predicate Contributes(row: Row, col: string, t: string) {
    col in row && t != "" && Strip(row[col]) == t
  }

  /** Some record contributes `t` to column `col`. */
  predicate Seen(rows: seq<Row>, col: string, t: string) {
    exists i :: 0 <= i < |rows| && Contributes(rows[i], col, t)
  }

  /** Some record has a non-blank cell in column `col`. */
  predicate Filled(rows: seq<Row>, col: string) {
    exists i :: 0 <= i < |rows| && col in rows[i] && Strip(rows[i][col]) != ""
  }

  /** The columns in which `row` has a non-blank cell. */
  function FilledColumns(row: Row): set<string> {
    set c | c in row && Strip(row[c]) != ""
  }

  /** The inner loop over one record: `group_terms.setdefault(key,
      set()).add(value)` for each non-blank stripped cell. The updates of
      distinct columns commute, so the resulting mapping does not depend on
      the order in which the record's columns are visited. */
  function AddRow(acc: Grouped, row: Row): (r: Grouped)
    ensures r.Keys == acc.Keys + FilledColumns(row)
    ensures forall c :: c in acc ==> acc[c] <= r[c]
    ensures forall c, t :: c in r ==>
      (t in r[c] <==> (c in acc && t in acc[c]) || Contributes(row, c, t))
  {
    map c | c in acc.Keys + FilledColumns(row) ::
      (if c in acc then acc[c] else {})
      + (if c in row && Strip(row[c]) != "" then {Strip(row[c])} else {})
  }

  /** What the fold has computed after reading `rows`. */
  ghost predicate Summarises(r: Grouped, rows: seq<Row>) {
    && (forall c :: c in r <==> Filled(rows, c))
    && (forall c, t :: c in r ==> (t in r[c] <==> Seen(rows, c, t)))
    && (forall c :: c in r ==> r[c] != {})
  }

  /** `read_terms_grouped` once the records are read: the outer loop over
      the records, in file order. */
  function ReadTermsGrouped(rows: seq<Row>): (r: Grouped)
    // a column is present exactly when some record has a non-blank cell in
    // it, and its terms are exactly the stripped non-blank cells of it
    ensures Summarises(r, rows)
  {
    if |rows| == 0 then map[]
    else
      var front := rows[..|rows| - 1];
      var last := rows[|rows| - 1];
      assert rows == front + [last];
      AddRowStep(ReadTermsGrouped(front), front, last);
      AddRow(ReadTermsGrouped(front), last)
  }

  /** One more record keeps the summary exact. */
  lemma AddRowStep(acc: Grouped, front: seq<Row>, last: Row)
    requires Summarises(acc, front)
    ensures Summarises(AddRow(acc, last), front + [last])
  {
    var r := AddRow(acc, last);
    var rows := front + [last];
    SeenSnoc(front, last);
    forall c | c in r ensures r[c] != {} {
      if c in acc {
        assert acc[c] <= r[c];
      } else {
        assert Strip(last[c]) in r[c];
      }
    }
  }

  /** Facts about one more record at the end of the list. */
  lemma SeenSnoc(front: seq<Row>, last: Row)
    ensures forall c :: Filled(front + [last], c) <==> Filled(front, c) || c in FilledColumns(last)
    ensures forall c, t :: Seen(front + [last], c, t) <==> Seen(front, c, t) || Contributes(last, c, t)
  {
    var rows := front + [last];
    assert rows[|front|] == last;
    forall c | Filled(rows, c) ensures Filled(front, c) || c in FilledColumns(last) {
      var i :| 0 <= i < |rows| && c in rows[i] && Strip(rows[i][c]) != "";
      if i < |front| { assert rows[i] == front[i]; }
    }
    forall c | Filled(front, c) ensures Filled(rows, c) {
      var i :| 0 <= i < |front| && c in front[i] && Strip(front[i][c]) != "";
      assert rows[i] == front[i];
    }
    forall c, t | Seen(rows, c, t) ensures Seen(front, c, t) || Contributes(last, c, t) {
      var i :| 0 <= i < |rows| && Contributes(rows[i], c, t);
      if i < |front| { assert rows[i] == front[i]; }
    }
    forall c, t | Seen(front, c, t) ensures Seen(rows, c, t) {
      var i :| 0 <= i < |front| && Contributes(front[i], c, t);
      assert rows[i] == front[i];
    }
  }

  /** Later records only add: the columns and terms found in a prefix of the
      records are all still there after the rest is read. */
  lemma {:induction false} ReadTermsGroupedGrows(rows: seq<Row>, more: seq<Row>)
    ensures var a, b := ReadTermsGrouped(rows), ReadTermsGrouped(rows + more);
      forall c :: c in a ==> c in b && a[c] <= b[c]
    decreases |more|
  {
    if |more| > 0 {
      var front := more[..|more| - 1];
      ReadTermsGroupedGrows(rows, front);
      assert rows + more == (rows + front) + [more[|more| - 1]];
      assert (rows + more)[..|rows + more| - 1] == rows + front;
    } else {
      assert rows + more == rows;
    }
  }

  /** The reading of `read_csv_terms` (`sqg/sqg.py`): one entry per header
      name, holding the stripped non-blank cells of that column. Every record
      has every header as a key, as `csv.DictReader` guarantees. */
  function ColumnTerms(fieldnames: seq<string>, rows: seq<Row>): (r: Grouped)
    requires forall i, c :: 0 <= i < |rows| && c in fieldnames ==> c in rows[i]
    ensures r.Keys == set c | c in fieldnames
    ensures forall c, t :: c in r ==> (t in r[c] <==> Seen(rows, c, t))
  {
    map c | c in fieldnames ::
      set i | 0 <= i < |rows| && Strip(rows[i][c]) != "" :: Strip(rows[i][c])
  }

  /** The two readers agree on every column that has a term; `read_csv_terms`
      also keeps the header of a column whose cells are all blank, with no
      terms, where `read_terms_grouped` leaves the column out. */
  lemma ReadersAgree(fieldnames: seq<string>, rows: seq<Row>, c: string)
    requires forall i, c :: 0 <= i < |rows| && c in fieldnames ==> c in rows[i]
    requires c in fieldnames
    ensures var grouped, columns := ReadTermsGrouped(rows), ColumnTerms(fieldnames, rows);
      && (c in grouped ==> grouped[c] == columns[c])
      && (c !in grouped <==> columns[c] == {})
  {
    var grouped, columns := ReadTermsGrouped(rows), ColumnTerms(fieldnames, rows);
    if c in grouped {
      SameTerms(grouped[c], columns[c], rows, c);
    } else {
      NothingSeen(columns[c], rows, c);
    }
  }

  lemma SameTerms(a: set<string>, b: set<string>, rows: seq<Row>, c: string)
    requires forall t :: t in a <==> Seen(rows, c, t)
    requires forall t :: t in b <==> Seen(rows, c, t)
    ensures a == b
  {
  }

  lemma NothingSeen(a: set<string>, rows: seq<Row>, c: string)
    requires forall t :: t in a <==> Seen(rows, c, t)
    requires !Filled(rows, c)
    ensures a == {}
  {
    SeenFilled(rows, c);
  }

  /** A column that received a term has a non-blank cell. */
  lemma SeenFilled(rows: seq<Row>, c: string)
    ensures forall t :: Seen(rows, c, t) ==> Filled(rows, c)
  {
    forall t | Seen(rows, c, t) ensures Filled(rows, c) {
      var i :| 0 <= i < |rows| && Contributes(rows[i], c, t);
    }
  }
}
