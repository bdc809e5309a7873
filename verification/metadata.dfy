/** The computed columns of the summary row that `write_summary_metadata`
    (`sqg/sqg.py`) appends to the metadata file. The identifier, the input
    path, the timestamp and the query count are copied through unchanged and
    are not part of this model; neither is the CSV file itself. */
module Metadata {
  import opened Wrappers
  import opened Strings
  import opened Assembler

  /** The computed fields of one summary row. */
  datatype Summary = Summary(mainGroup: string, groupCount: nat, termsTotal: nat, groupLogic: string)

  /** `main_group or "(combined)"`: no main column, or an empty name, is
      reported as the combined query. */
  function MainGroupLabel(mainGroup: Option<string>): (r: string)
    ensures mainGroup.Some? && mainGroup.value != "" ==> r == mainGroup.value
    ensures mainGroup.None? || mainGroup.value == "" ==> r == "(combined)"
  {
    match mainGroup
    case Some(g) => if g != "" then g else "(combined)"
    case None => "(combined)"
  }

  /** `sum(len(terms) for terms in group_terms.values())`. */
  function TermsTotal(groups: seq<Group>): nat
  {
    if |groups| == 0 then 0 else |groups[0].1| + TermsTotal(groups[1..])
  }

  lemma {:induction false} TermsTotalAppend(a: seq<Group>, b: seq<Group>)
    ensures TermsTotal(a + b) == TermsTotal(a) + TermsTotal(b)
  {
    if |a| > 0 {
      assert (a + b)[1..] == a[1..] + b;
      TermsTotalAppend(a[1..], b);
    } else {
      assert a + b == b;
    }
  }

  /** The total is zero exactly when every column is empty. */
  lemma {:induction false} TermsTotalZero(groups: seq<Group>)
    ensures TermsTotal(groups) == 0 <==> forall i :: 0 <= i < |groups| ==> groups[i].1 == {}
  {
    if |groups| > 0 {
      TermsTotalZero(groups[1..]);
      forall i | 0 < i < |groups| ensures groups[i] == groups[1..][i - 1] {
      }
    }
  }

  /** Columns as `read_terms_grouped` produces them each hold at least one
      term, so the total is at least the number of columns. `read_csv_terms`
      keeps blank columns with no terms, for which this does not hold. */
  lemma {:induction false} TermsTotalAtLeastCount(groups: seq<Group>)
    requires forall i :: 0 <= i < |groups| ==> groups[i].1 != {}
    ensures TermsTotal(groups) >= |groups|
  {
    if |groups| > 0 {
      assert |groups[0].1| >= 1 by {
        var t :| t in groups[0].1;
      }
      TermsTotalAtLeastCount(groups[1..]);
    }
  }

  /** The columns listed in the `group_logic` field: all but the main one,
      in column order (`for g in group_terms if g != main_group`). */
  function Listed(groups: seq<Group>, mainGroup: Option<string>): (r: seq<Group>)
    ensures |r| <= |groups|
    ensures forall g :: g in r <==> g in groups && Some(g.0) != mainGroup
  {
    if |groups| == 0 then []
    else
      var rest := Listed(groups[1..], mainGroup);
      assert forall g :: g in groups <==> g == groups[0] || g in groups[1..];
      if Some(groups[0].0) != mainGroup then [groups[0]] + rest else rest
  }

  /** Listing distributes over concatenation: the listed columns keep
      their column order. */
  lemma {:induction false} ListedAppend(a: seq<Group>, b: seq<Group>, mainGroup: Option<string>)
    ensures Listed(a + b, mainGroup) == Listed(a, mainGroup) + Listed(b, mainGroup)
  {
    if |a| > 0 {
      assert (a + b)[1..] == a[1..] + b;
      ListedAppend(a[1..], b, mainGroup);
    } else {
      assert a + b == b;
    }
  }

  /** `f"{g}:{operator}/{internal_operator}"`, the internal operator
      defaulting to OR. */
  function LogicEntry(name: string, l: Logic): string {
    name + ":" + l.operator.Keyword() + "/" + l.Internal().Keyword()
  }

  function LogicEntries(items: seq<Group>, logic: map<string, Logic>): (r: seq<string>)
    requires Configured(items, logic)
    ensures |r| == |items|
    ensures forall i :: 0 <= i < |items| ==> r[i] == LogicEntry(items[i].0, logic[items[i].0])
  {
    seq(|items|, i requires 0 <= i < |items| => LogicEntry(items[i].0, logic[items[i].0]))
  }

  /** The computed fields of `data_row`; a listed column without settings
      raises the `KeyError` that the generator inside `"; ".join` hits first. */
  function SummaryOf(mainGroup: Option<string>, groups: seq<Group>, logic: map<string, Logic>)
    : (r: Result<Summary, Error>)
    ensures r.Failure? <==> exists i :: 0 <= i < |groups| && Some(groups[i].0) != mainGroup && groups[i].0 !in logic
    ensures r.Failure? ==>
      && r.error.MissingLogic? && r.error.group !in logic && Some(r.error.group) != mainGroup
      && HasName(groups, r.error.group)
    ensures r.Success? ==>
      && r.value.mainGroup == MainGroupLabel(mainGroup)
      && r.value.groupCount == |groups|
      && r.value.termsTotal == TermsTotal(groups)
      && Configured(Listed(groups, mainGroup), logic)
      && r.value.groupLogic == Join("; ", LogicEntries(Listed(groups, mainGroup), logic))
  {
    var listed := Listed(groups, mainGroup);
    ListedMissing(groups, mainGroup, logic);
    match FirstMissing(listed, logic)
    case Some(name) =>
      ListedName(groups, mainGroup, name);
      Failure(MissingLogic(name))
    case None =>
      Success(Summary(MainGroupLabel(mainGroup), |groups|, TermsTotal(groups),
                      Join("; ", LogicEntries(listed, logic))))
  }

  lemma ListedMissing(groups: seq<Group>, mainGroup: Option<string>, logic: map<string, Logic>)
    ensures !Configured(Listed(groups, mainGroup), logic)
        <==> exists i :: 0 <= i < |groups| && Some(groups[i].0) != mainGroup && groups[i].0 !in logic
  {
    var listed := Listed(groups, mainGroup);
    if !Configured(listed, logic) {
      var k :| 0 <= k < |listed| && listed[k].0 !in logic;
      assert listed[k] in groups;
    }
    if exists i :: 0 <= i < |groups| && Some(groups[i].0) != mainGroup && groups[i].0 !in logic {
      var i :| 0 <= i < |groups| && Some(groups[i].0) != mainGroup && groups[i].0 !in logic;
      assert groups[i] in listed;
    }
  }

  lemma ListedName(groups: seq<Group>, mainGroup: Option<string>, name: string)
    ensures HasName(Listed(groups, mainGroup), name) ==> HasName(groups, name) && Some(name) != mainGroup
  {
    var listed := Listed(groups, mainGroup);
    if HasName(listed, name) {
      var k :| 0 <= k < |listed| && listed[k].0 == name;
      assert listed[k] in groups;
    }
  }

  /** The main column's own settings are never read: changing or removing
      them leaves the summary row unchanged. */
  lemma SummaryIgnoresMainLogic(main: string, groups: seq<Group>, logic: map<string, Logic>,
                                other: map<string, Logic>)
    requires forall name :: name != main ==> (name in logic <==> name in other)
    requires forall name :: name != main && name in logic ==> logic[name] == other[name]
    ensures SummaryOf(Some(main), groups, logic) == SummaryOf(Some(main), groups, other)
  {
    var listed := Listed(groups, Some(main));
    forall i | 0 <= i < |listed| ensures listed[i].0 != main {
      assert listed[i] in listed;
    }
    FirstMissingKeys(listed, logic, other);
    if Configured(listed, logic) {
      assert LogicEntries(listed, logic) == LogicEntries(listed, other);
    }
  }

  /** With the main column the only column, nothing is listed. */
  lemma SummaryOfMainOnly(main: string, terms: set<string>, logic: map<string, Logic>)
    ensures SummaryOf(Some(main), [(main, terms)], logic)
         == Success(Summary(MainGroupLabel(Some(main)), 1, |terms|, ""))
  {
    var groups: seq<Group> := [(main, terms)];
    assert Listed(groups, Some(main)) == [] by {
      assert groups[1..] == [];
    }
    assert TermsTotal(groups) == |terms| by {
      assert groups[1..] == [];
    }
  }
}
