/** The term formatter of `sqg/sqg.py`: `clean_term` quotes or strips one
    term, `format_group` turns a set of terms into one parenthesised,
    operator-joined clause. */
module Formatter {
  import opened Strings
  import opened Sorting

  /** The boolean connectives the configuration prompt accepts. */
  datatype Operator = And | Or | Not {
    function Keyword(): string {
      match this
      case And => "AND"
      case Or => "OR"
      case Not => "NOT"
    }

    /** `' {} '.format(op)`: the text placed between two terms of a group. */
    function Separator(): string {
      " " + Keyword() + " "
    }
  }

  /** `f'"{t}"'`: no escaping of quote characters inside `t`. */
  function Quoted(t: string): string {
    "\"" + t + "\""
  }

  /** `clean_term(term, quote)`. */
  function CleanTerm(term: string, quote: bool): (r: string)
    ensures term == "" ==> r == ""
    ensures r == "" <==> term == "" || (AllSpace(term) && !quote)
    ensures IsStripped(r)
    // a term that still contains a space after stripping is always quoted
    ensures term != "" && ' ' in Strip(term) ==> r == Quoted(Strip(term))
    ensures quote && term != "" ==> r == Quoted(Strip(term))
  {
    if term == "" then ""
    else
      var t := Strip(term);
      if quote || ' ' in t then Quoted(t) else t
  }

  /** Whitespace around a non-empty term is dropped before the quoting test,
      so padding never forces quotes. */
  lemma CleanTermPadding(a: string, t: string, b: string, quote: bool)
    requires AllSpace(a) && AllSpace(b) && t != ""
    ensures CleanTerm(a + t + b, quote) == CleanTerm(t, quote)
  {
    StripPadding(a, t, b);
  }

  /** Only the ASCII space decides quoting; a term without it is passed
      through stripped but unquoted when `quote` is off. */
  lemma CleanTermQuotingRule(term: string, quote: bool)
    requires term != ""
    ensures ' ' in Strip(term) ==> CleanTerm(term, quote) == Quoted(Strip(term))
    ensures ' ' !in Strip(term) && !quote ==> CleanTerm(term, quote) == Strip(term)
  {
  }

  /** On an already stripped term `clean_term` only decides the quoting. */
  lemma CleanTermOfStripped(t: string, quote: bool)
    requires t != "" && IsStripped(t)
    ensures !quote && ' ' !in t ==> CleanTerm(t, quote) == t
    ensures quote || ' ' in t ==> CleanTerm(t, quote) == Quoted(t)
  {
    StripOfStripped(t);
  }

  /** The emptiness test happens before stripping: a blank term is quoted to
      `""` when `quote` is set, while the empty term stays empty. */
  lemma CleanTermBlank()
    ensures CleanTerm("", true) == ""
    ensures CleanTerm(" ", true) == "\"\""
    ensures CleanTerm(" ", false) == ""
  {
    assert AllSpace(" ");
  }

  /** `"New York"` is quoted although `quote` is off. */
  lemma CleanTermNewYork()
    ensures CleanTerm("New York", false) == "\"New York\""
  {
    var t := "New York";
    assert t[3] == ' ';
    assert IsStripped(t);
    CleanTermOfStripped(t, false);
  }

  /** A tab is whitespace for stripping but does not force quotes. */
  lemma CleanTermTab()
    ensures CleanTerm("a\tb", false) == "a\tb"
  {
    var t := "a\tb";
    assert IsStripped(t);
    assert ' ' !in t by {
      assert forall k :: 0 <= k < |t| ==> t[k] != ' ';
    }
    CleanTermOfStripped(t, false);
  }

  /** `[t for t in xs if t]`. */
  function NonEmptyTerms(xs: seq<string>): (r: seq<string>)
    ensures forall t :: t in r <==> t in xs && t != ""
    ensures Increasing(xs) ==> Increasing(r)
  {
    if |xs| == 0 then []
    else if xs[0] == "" then NonEmptyTerms(xs[1..])
    else
      var rest := NonEmptyTerms(xs[1..]);
      assert Increasing(xs) ==> Increasing([xs[0]] + rest) by {
        if Increasing(xs) {
          forall y | y in rest ensures Less(xs[0], y) {
            var k :| 0 <= k < |xs[1..]| && xs[1..][k] == y;
            assert xs[k + 1] == y;
          }
          IncreasingCons(xs[0], rest);
        }
      }
      [xs[0]] + rest
  }

  lemma IncreasingCons(x: string, ys: seq<string>)
    requires Increasing(ys)
    requires forall y :: y in ys ==> Less(x, y)
    ensures Increasing([x] + ys)
  {
    var zs := [x] + ys;
    forall i, j | 0 <= i < j < |zs| ensures Less(zs[i], zs[j]) {
      if i == 0 {
        assert zs[j] == ys[j - 1];
      } else {
        assert zs[i] == ys[i - 1] && zs[j] == ys[j - 1];
      }
    }
  }

  /** `[clean_term(t, quote) for t in xs]`. */
  function CleanAll(xs: seq<string>, quote: bool): (r: seq<string>)
    ensures |r| == |xs|
    ensures forall i :: 0 <= i < |xs| ==> r[i] == CleanTerm(xs[i], quote)
  {
    seq(|xs|, i requires 0 <= i < |xs| => CleanTerm(xs[i], quote))
  }

  /** `format_group(terms, quote, op)`. */
  function FormatGroup(terms: set<string>, quote: bool, op: Operator): (r: string)
    ensures r == "" <==> terms <= {""}
    ensures r != "" ==> r[0] == '(' && r[|r| - 1] == ')'
  {
    var formatted := CleanAll(NonEmptyTerms(Sorted(terms)), quote);
    assert formatted == [] <==> terms <= {""} by {
      if formatted != [] {
        assert NonEmptyTerms(Sorted(terms))[0] in terms;
      }
    }
    if formatted == [] then "" else "(" + Join(op.Separator(), formatted) + ")"
  }

  /** The clause lists the cleaned non-empty terms in ascending order of the
      raw strings: any ascending listing of them gives the same clause, so
      the result depends only on the set's contents. */
  lemma FormatGroupListing(terms: set<string>, quote: bool, op: Operator, xs: seq<string>)
    requires Increasing(xs)
    requires forall x :: x in xs <==> x in terms && x != ""
    ensures xs == [] ==> FormatGroup(terms, quote, op) == ""
    ensures xs != [] ==>
      FormatGroup(terms, quote, op) == "(" + Join(op.Separator(), CleanAll(xs, quote)) + ")"
  {
    var ys := NonEmptyTerms(Sorted(terms));
    var s := set x | x in terms && x != "";
    SortedUnique(xs, s);
    SortedUnique(ys, s);
  }

  /** The empty string in a term set contributes nothing to the clause. */
  lemma FormatGroupIgnoresEmpty(terms: set<string>, quote: bool, op: Operator)
    ensures FormatGroup(terms, quote, op) == FormatGroup(terms - {""}, quote, op)
  {
    var xs := Sorted(terms - {""});
    FormatGroupListing(terms, quote, op, xs);
    FormatGroupListing(terms - {""}, quote, op, xs);
  }

  /** A one-term group is parenthesised and the operator does not appear. */
  lemma FormatGroupSingleton(v: string, quote: bool, op: Operator)
    ensures v == "" ==> FormatGroup({v}, quote, op) == ""
    ensures v != "" ==> FormatGroup({v}, quote, op) == "(" + CleanTerm(v, quote) + ")"
  {
    if v != "" {
      FormatGroupListing({v}, quote, op, [v]);
    }
  }

  lemma CleanTermPlainWords()
    ensures CleanTerm("blue", false) == "blue"
    ensures CleanTerm("red", false) == "red"
  {
    var b, r := "blue", "red";
    assert IsStripped(b) && IsStripped(r);
    assert ' ' !in b by {
      assert forall k :: 0 <= k < |b| ==> b[k] != ' ';
    }
    assert ' ' !in r by {
      assert forall k :: 0 <= k < |r| ==> r[k] != ' ';
    }
    CleanTermOfStripped(b, false);
    CleanTermOfStripped(r, false);
  }

  /** Two terms are listed in ascending order whichever way the set was
      written, joined by the group's own operator. */
  lemma FormatGroupPair(a: string, b: string, quote: bool, op: Operator)
    requires a != "" && Less(a, b)
    ensures FormatGroup({b, a}, quote, op)
         == "(" + CleanTerm(a, quote) + op.Separator() + CleanTerm(b, quote) + ")"
  {
    var xs := [a, b];
    PairListing(a, b);
    FormatGroupListing({b, a}, quote, op, xs);
    var ca, cb := CleanTerm(a, quote), CleanTerm(b, quote);
    CleanPair(a, b, quote);
    JoinPair(op.Separator(), ca, cb);
    Regroup("(", ca, op.Separator(), cb, ")");
  }

  /** `[a, b]` is the ascending listing of the non-empty members of `{b, a}`. */
  lemma PairListing(a: string, b: string)
    requires a != "" && Less(a, b)
    ensures Increasing([a, b])
    ensures forall x :: x in [a, b] <==> x in {b, a} && x != ""
  {
    assert b != "";
  }

  lemma CleanPair(a: string, b: string, quote: bool)
    ensures CleanAll([a, b], quote) == [CleanTerm(a, quote), CleanTerm(b, quote)]
  {
  }

  lemma JoinPair(sep: string, x: string, y: string)
    ensures Join(sep, [x, y]) == x + sep + y
  {
    assert [x, y][1..] == [y];
  }

  /** `{"red", "blue"}` is listed as `blue` before `red`. */
  lemma FormatGroupSortsTerms()
    ensures FormatGroup({"red", "blue"}, false, Or) == "(blue OR red)"
  {
    assert Less("blue", "red");
    FormatGroupPair("blue", "red", false, Or);
    CleanTermPlainWords();
    BlueOrRedText();
  }

  lemma BlueOrRedText()
    ensures "(" + "blue" + Or.Separator() + "red" + ")" == "(blue OR red)"
  {
  }
}
