/** The query assembler of `sqg/sqg.py`: `build_query` chains the clauses of
    all non-empty columns into one combined query, and
    `build_queries_by_main_group` fans out one query per value of a chosen
    column, the other columns acting as a shared filter placed before it.

    The ordered `Dict[str, Set[str]]` of columns is a sequence of
    (name, terms) pairs in column order; the settings dictionary is a map from
    column name to a `Logic` record. */
module Assembler {
  import opened Wrappers
  import opened Strings
  import opened Sorting
  import opened Formatter

  /** One column's settings: `{"quote", "operator", "internal_operator"}`,
      the last of which may be absent. */
  datatype Logic = Logic(quote: bool, operator: Operator, internalOperator: Option<Operator>) {

    /** `.get("internal_operator", "OR")` */
    function Internal(): (op: Operator)
      ensures internalOperator.None? ==> op == Or
      ensures internalOperator.Some? ==> op == internalOperator.value
    {
      internalOperator.GetOr(Or)
    }
  }

  /** A column: its header and its set of terms. */
  type Group = (string, set<string>)

  /** The two ways assembly fails: a `KeyError` on the settings of a column,
      and the `ValueError` for an unknown main column. */
  datatype Error = MissingLogic(group: string) | MainGroupNotFound(group: string)

  /** A generated query and the main-column value it was built for (absent
      for the combined query). */
  datatype Query = Query(mainValue: Option<string>, text: string)

  /** Every column of `groups` has settings. */
  predicate Configured(groups: seq<Group>, logic: map<string, Logic>) {
    forall i :: 0 <= i < |groups| ==> groups[i].0 in logic
  }

  /** Some column of `groups` is called `name`. */
  predicate HasName(groups: seq<Group>, name: string) {
    exists i :: 0 <= i < |groups| && groups[i].0 == name
  }

  /** The first column, in order, whose settings are looked up and missing:
      the `KeyError` the loops raise. */
  function FirstMissing(groups: seq<Group>, logic: map<string, Logic>): (r: Option<string>)
    ensures r.None? <==> Configured(groups, logic)
    ensures r.Some? ==> r.value !in logic && HasName(groups, r.value)
  {
    if |groups| == 0 then None
    else if groups[0].0 !in logic then Some(groups[0].0)
    else
      var r := FirstMissing(groups[1..], logic);
      assert Configured(groups[1..], logic) ==> Configured(groups, logic) by {
        if Configured(groups[1..], logic) {
          forall i | 0 <= i < |groups| ensures groups[i].0 in logic {
            if i > 0 { assert groups[i] == groups[1..][i - 1]; }
          }
        }
      }
      assert r.Some? ==> HasName(groups, r.value) by {
        if r.Some? {
          var k :| 0 <= k < |groups[1..]| && groups[1..][k].0 == r.value;
          assert groups[k + 1].0 == r.value;
        }
      }
      r
  }

  /** `[(g, t) for g, t in groups if t]`: the columns that have terms. */
  function NonEmptyGroups(groups: seq<Group>): (r: seq<Group>)
    ensures forall i :: 0 <= i < |r| ==> r[i].1 != {}
  {
    if |groups| == 0 then []
    else if groups[0].1 == {} then NonEmptyGroups(groups[1..])
    else [groups[0]] + NonEmptyGroups(groups[1..])
  }

  /** The columns kept are exactly those with terms. */
  lemma {:induction false} NonEmptyGroupsMembers(groups: seq<Group>)
    ensures forall g :: g in NonEmptyGroups(groups) <==> g in groups && g.1 != {}
  {
    if |groups| > 0 {
      NonEmptyGroupsMembers(groups[1..]);
      assert groups == [groups[0]] + groups[1..];
    }
  }

  lemma {:induction false} NonEmptyGroupsAppend(a: seq<Group>, b: seq<Group>)
    ensures NonEmptyGroups(a + b) == NonEmptyGroups(a) + NonEmptyGroups(b)
  {
    if |a| > 0 {
      assert (a + b)[1..] == a[1..] + b;
      NonEmptyGroupsAppend(a[1..], b);
    } else {
      assert a + b == b;
    }
  }

  /** `[(g, t) for g, t in groups if g != main and t]`: the shared filter
      columns of the per-value queries. */
  function StaticGroups(groups: seq<Group>, main: string): (r: seq<Group>)
    ensures forall i :: 0 <= i < |r| ==> r[i].1 != {} && r[i].0 != main
  {
    if |groups| == 0 then []
    else if groups[0].0 == main || groups[0].1 == {} then StaticGroups(groups[1..], main)
    else [groups[0]] + StaticGroups(groups[1..], main)
  }

  /** The filter columns are exactly the non-empty columns other than `main`. */
  lemma {:induction false} StaticGroupsMembers(groups: seq<Group>, main: string)
    ensures forall g :: g in StaticGroups(groups, main) <==> g in groups && g.0 != main && g.1 != {}
  {
    if |groups| > 0 {
      StaticGroupsMembers(groups[1..], main);
      assert groups == [groups[0]] + groups[1..];
    }
  }

  /** Filtering distributes over concatenation: the filter columns keep
      their column order. */
  lemma {:induction false} StaticGroupsAppend(a: seq<Group>, b: seq<Group>, main: string)
    ensures StaticGroups(a + b, main) == StaticGroups(a, main) + StaticGroups(b, main)
  {
    if |a| > 0 {
      assert (a + b)[1..] == a[1..] + b;
      StaticGroupsAppend(a[1..], b, main);
    } else {
      assert a + b == b;
    }
  }

  /** `group_terms[main_group]`. */
  function Lookup(groups: seq<Group>, name: string): (r: Option<set<string>>)
    ensures r.None? <==> !HasName(groups, name)
    ensures r.Some? ==> (name, r.value) in groups
  {
    if |groups| == 0 then None
    else if groups[0].0 == name then Some(groups[0].1)
    else
      var r := Lookup(groups[1..], name);
      assert HasName(groups, name) ==> HasName(groups[1..], name) by {
        if HasName(groups, name) {
          var k :| 0 <= k < |groups| && groups[k].0 == name;
          assert groups[1..][k - 1].0 == name;
        }
      }
      assert r.Some? ==> HasName(groups, name) by {
        if r.Some? {
          var k :| 0 <= k < |groups[1..]| && groups[1..][k].0 == name;
          assert groups[k + 1].0 == name;
        }
      }
      r
  }

  /** `format_group(terms, quote, internal_op)` with the column's settings. */
  function Clause(g: Group, l: Logic): string {
    FormatGroup(g.1, l.quote, l.Internal())
  }

  /** `f"{group_str} {op}"` for each column of `items`. */
  function WithOperators(items: seq<Group>, logic: map<string, Logic>): (r: seq<string>)
    requires Configured(items, logic)
    ensures |r| == |items|
  {
    if |items| == 0 then []
    else
      var l := logic[items[0].0];
      [Clause(items[0], l) + " " + l.operator.Keyword()] + WithOperators(items[1..], logic)
  }

  /** The parts `build_query` joins: every clause but the last carries its
      column's operator. */
  function Parts(items: seq<Group>, logic: map<string, Logic>): (r: seq<string>)
    requires Configured(items, logic)
    ensures |r| == |items|
  {
    if |items| == 0 then []
    else
      var n := |items| - 1;
      WithOperators(items[..n], logic) + [Clause(items[n], logic[items[n].0])]
  }

  /** Reference reading of a chain of clauses: each column contributes its
      clause followed by its operator and a space. */
  function Links(items: seq<Group>, logic: map<string, Logic>): string
    requires Configured(items, logic)
  {
    if |items| == 0 then ""
    else
      var l := logic[items[0].0];
      Clause(items[0], l) + " " + l.operator.Keyword() + " " + Links(items[1..], logic)
  }

  /** What the combined query says: the links of all non-empty columns but
      the last, then the last column's bare clause. */
  function Chain(items: seq<Group>, logic: map<string, Logic>): string
    requires Configured(items, logic)
  {
    if |items| == 0 then ""
    else
      var n := |items| - 1;
      Links(items[..n], logic) + Clause(items[n], logic[items[n].0])
  }

  lemma Assoc(x: string, y: string, z: string)
    ensures x + (y + z) == (x + y) + z
  {
  }

  /** Joining "clause op" parts with single spaces, then a last part, is the
      chain of links followed by that part. */
  lemma {:induction false} JoinLinks(items: seq<Group>, logic: map<string, Logic>, last: string)
    requires Configured(items, logic)
    ensures Join(" ", WithOperators(items, logic) + [last]) == Links(items, logic) + last
  {
    if |items| > 0 {
      var l := logic[items[0].0];
      var p := Clause(items[0], l) + " " + l.operator.Keyword();
      var rest := WithOperators(items[1..], logic) + [last];
      var tail := Links(items[1..], logic);
      assert WithOperators(items, logic) + [last] == [p] + rest;
      assert ([p] + rest)[1..] == rest;
      assert Join(" ", [p] + rest) == p + " " + Join(" ", rest);
      JoinLinks(items[1..], logic, last);
      assert Links(items, logic) == (p + " ") + tail;
      Assoc(p + " ", tail, last);
    } else {
      assert WithOperators(items, logic) + [last] == [last];
    }
  }

  /** The parts joined by single spaces read as the chain. */
  lemma ChainIsJoin(items: seq<Group>, logic: map<string, Logic>)
    requires Configured(items, logic)
    ensures Join(" ", Parts(items, logic)) == Chain(items, logic)
  {
    if |items| > 0 {
      var n := |items| - 1;
      JoinLinks(items[..n], logic, Clause(items[n], logic[items[n].0]));
    }
  }

  /** The loop of `build_query` over the non-empty columns. */
  function Combine(items: seq<Group>, logic: map<string, Logic>): (r: Result<string, Error>)
    ensures r.Failure? <==> !Configured(items, logic)
    ensures r.Failure? ==> r.error.MissingLogic? && r.error.group !in logic && HasName(items, r.error.group)
    ensures r.Success? ==> Configured(items, logic) && r.value == Chain(items, logic)
  {
    match FirstMissing(items, logic)
    case Some(name) => Failure(MissingLogic(name))
    case None =>
      ChainIsJoin(items, logic);
      Success(Join(" ", Parts(items, logic)))
  }

  /** `build_query(group_terms, group_logic)`. */
  function BuildQuery(groups: seq<Group>, logic: map<string, Logic>): (r: Result<string, Error>)
    ensures r.Failure? <==> exists i :: 0 <= i < |groups| && groups[i].1 != {} && groups[i].0 !in logic
    ensures r.Failure? ==> r.error.MissingLogic? && r.error.group !in logic
    ensures r.Failure? ==> exists i :: 0 <= i < |groups| && groups[i].1 != {} && groups[i].0 == r.error.group
    ensures r.Success? ==> Configured(NonEmptyGroups(groups), logic)
                           && r.value == Chain(NonEmptyGroups(groups), logic)
  {
    var items := NonEmptyGroups(groups);
    NonEmptyConfigured(groups, logic);
    var r := Combine(items, logic);
    NonEmptyNamed(groups, if r.Failure? then r.error.group else "");
    r
  }

  lemma NonEmptyConfigured(groups: seq<Group>, logic: map<string, Logic>)
    ensures Configured(NonEmptyGroups(groups), logic)
        <==> forall i :: 0 <= i < |groups| && groups[i].1 != {} ==> groups[i].0 in logic
  {
    var items := NonEmptyGroups(groups);
    NonEmptyGroupsMembers(groups);
    if Configured(items, logic) {
      forall i | 0 <= i < |groups| && groups[i].1 != {} ensures groups[i].0 in logic {
        var k :| 0 <= k < |items| && items[k] == groups[i];
      }
    } else {
      var k :| 0 <= k < |items| && items[k].0 !in logic;
      assert items[k] in groups;
    }
  }

  lemma NonEmptyNamed(groups: seq<Group>, name: string)
    ensures HasName(NonEmptyGroups(groups), name)
        ==> exists i :: 0 <= i < |groups| && groups[i].1 != {} && groups[i].0 == name
  {
    var items := NonEmptyGroups(groups);
    NonEmptyGroupsMembers(groups);
    if HasName(items, name) {
      var k :| 0 <= k < |items| && items[k].0 == name;
      assert items[k] in groups;
    }
  }

  /** The per-value query: the shared filter columns, each with its operator,
      then the main column's clause for the single value `v`. */
  function QueryText(statics: seq<Group>, logic: map<string, Logic>, mainLogic: Logic, v: string): (r: string)
    requires Configured(statics, logic)
    ensures r == Links(statics, logic) + FormatGroup({v}, mainLogic.quote, mainLogic.Internal())
  {
    var mainClause := FormatGroup({v}, mainLogic.quote, mainLogic.Internal());
    JoinLinks(statics, logic, mainClause);
    Join(" ", WithOperators(statics, logic) + [mainClause])
  }

  /** The loop over the sorted main values. */
  function QueriesFor(statics: seq<Group>, logic: map<string, Logic>, mainLogic: Logic, values: seq<string>): (r: seq<Query>)
    requires Configured(statics, logic)
    ensures |r| == |values|
    ensures forall i :: 0 <= i < |r| ==> r[i].mainValue == Some(values[i])
    ensures forall i :: 0 <= i < |r| ==>
      r[i].text == Links(statics, logic) + FormatGroup({values[i]}, mainLogic.quote, mainLogic.Internal())
  {
    seq(|values|, i requires 0 <= i < |values| =>
      Query(Some(values[i]), QueryText(statics, logic, mainLogic, values[i])))
  }

  /** Settings are looked up for the filter columns in order, then for the
      main column. */
  lemma FirstMissingThenMain(statics: seq<Group>, main: string, mainTerms: set<string>, logic: map<string, Logic>)
    ensures var m := FirstMissing(statics + [(main, mainTerms)], logic);
            && (m.None? <==> Configured(statics, logic) && main in logic)
            && (m.Some? ==> m.value == main || HasName(statics, m.value))
  {
    var checked := statics + [(main, mainTerms)];
    var m := FirstMissing(checked, logic);
    if m.Some? {
      var k :| 0 <= k < |checked| && checked[k].0 == m.value;
      if k < |statics| { assert statics[k].0 == m.value; }
    }
    if Configured(statics, logic) && main in logic {
      forall i | 0 <= i < |checked| ensures checked[i].0 in logic {
        if i < |statics| { assert checked[i] == statics[i]; }
      }
    }
    if Configured(checked, logic) {
      forall i | 0 <= i < |statics| ensures statics[i].0 in logic {
        assert checked[i] == statics[i];
      }
      assert checked[|statics|].0 == main;
    }
  }

  /** The body of `build_queries_by_main_group` once the main column's terms
      are known. Settings are read inside the loop over the main values, so
      an empty main column yields no queries even when settings are missing. */
  function FanOut(statics: seq<Group>, main: string, mainTerms: set<string>, logic: map<string, Logic>)
    : (r: Result<seq<Query>, Error>)
    ensures mainTerms == {} ==> r == Success([])
    ensures r.Success? <==> mainTerms == {} || (Configured(statics, logic) && main in logic)
    ensures r.Failure? ==>
      && r.error.MissingLogic? && r.error.group !in logic
      && (r.error.group == main || HasName(statics, r.error.group))
    ensures r.Success? ==> |r.value| == |mainTerms|
    ensures r.Success? ==> forall i :: 0 <= i < |r.value| ==>
      r.value[i].mainValue.Some? && r.value[i].mainValue.value in mainTerms
    ensures r.Success? ==> forall i, j :: 0 <= i < j < |r.value| ==>
      r.value[i].mainValue.Some? && r.value[j].mainValue.Some?
      && Less(r.value[i].mainValue.value, r.value[j].mainValue.value)
    ensures r.Success? && r.value != [] ==>
      && main in logic
      && Configured(statics, logic)
      && forall i :: 0 <= i < |r.value| ==>
           r.value[i].mainValue.Some?
           && r.value[i].text == Links(statics, logic)
                                 + FormatGroup({r.value[i].mainValue.value}, logic[main].quote, logic[main].Internal())
  {
    var values := Sorted(mainTerms);
    if values == [] then Success([])
    else
      FirstMissingThenMain(statics, main, mainTerms, logic);
      match FirstMissing(statics + [(main, mainTerms)], logic)
      case Some(name) => Failure(MissingLogic(name))
      case None => Success(QueriesFor(statics, logic, logic[main], values))
  }

  /** `build_queries_by_main_group(group_terms, group_logic, main_group)`. */
  function BuildQueriesByMainGroup(groups: seq<Group>, logic: map<string, Logic>, main: string)
    : (r: Result<seq<Query>, Error>)
    ensures r == Failure(MainGroupNotFound(main)) <==> !HasName(groups, main)
    ensures HasName(groups, main) && Lookup(groups, main).value == {} ==> r == Success([])
    ensures r.Success? <==>
      && HasName(groups, main)
      && (Lookup(groups, main).value == {}
          || (Configured(StaticGroups(groups, main), logic) && main in logic))
    ensures r.Failure? && r.error.MissingLogic? ==>
      && r.error.group !in logic
      && (r.error.group == main || HasName(StaticGroups(groups, main), r.error.group))
    // one query per distinct main value, labelled in ascending order
    ensures r.Success? ==> |r.value| == |Lookup(groups, main).value|
    ensures r.Success? ==> forall i :: 0 <= i < |r.value| ==>
      r.value[i].mainValue.Some? && r.value[i].mainValue.value in Lookup(groups, main).value
    ensures r.Success? ==> forall i, j :: 0 <= i < j < |r.value| ==>
      r.value[i].mainValue.Some? && r.value[j].mainValue.Some?
      && Less(r.value[i].mainValue.value, r.value[j].mainValue.value)
    // every query is the same filter prefix followed by its own value's clause
    ensures r.Success? && r.value != [] ==>
      && main in logic
      && Configured(StaticGroups(groups, main), logic)
      && forall i :: 0 <= i < |r.value| ==>
           r.value[i].mainValue.Some?
           && r.value[i].text == Links(StaticGroups(groups, main), logic)
                                 + FormatGroup({r.value[i].mainValue.value}, logic[main].quote, logic[main].Internal())
  {
    match Lookup(groups, main)
    case None => Failure(MainGroupNotFound(main))
    case Some(mainTerms) => FanOut(StaticGroups(groups, main), main, mainTerms, logic)
  }

  /** A column with no terms contributes nothing, not even an operator, and
      needs no settings: inserting one anywhere leaves the combined query
      unchanged. */
  lemma BuildQuerySkipsEmptyGroup(groups: seq<Group>, i: nat, name: string, logic: map<string, Logic>)
    requires i <= |groups|
    ensures BuildQuery(groups[..i] + [(name, {})] + groups[i..], logic) == BuildQuery(groups, logic)
  {
    var empty: seq<Group> := [(name, {})];
    assert NonEmptyGroups(empty) == [] by {
      assert empty[1..] == [];
    }
    NonEmptyGroupsAppend(groups[..i] + empty, groups[i..]);
    NonEmptyGroupsAppend(groups[..i], empty);
    NonEmptyGroupsAppend(groups[..i], groups[i..]);
    assert groups[..i] + groups[i..] == groups;
    assert NonEmptyGroups(groups[..i]) + [] == NonEmptyGroups(groups[..i]);
  }

  /** The chain only reads the settings of the columns it lists. */
  lemma {:induction false} LinksAgree(items: seq<Group>, l1: map<string, Logic>, l2: map<string, Logic>)
    requires Configured(items, l1) && Configured(items, l2)
    requires forall i :: 0 <= i < |items| ==> l1[items[i].0] == l2[items[i].0]
    ensures Links(items, l1) == Links(items, l2)
  {
    if |items| > 0 {
      LinksAgree(items[1..], l1, l2);
    }
  }

  /** Which setting is missing depends only on which names have settings. */
  lemma {:induction false} FirstMissingKeys(items: seq<Group>, l1: map<string, Logic>, l2: map<string, Logic>)
    requires forall i :: 0 <= i < |items| ==> (items[i].0 in l1 <==> items[i].0 in l2)
    ensures FirstMissing(items, l1) == FirstMissing(items, l2)
  {
    if |items| > 0 {
      FirstMissingKeys(items[1..], l1, l2);
    }
  }

  lemma CombineIgnoresLastOperator(front: seq<Group>, g: Group, logic: map<string, Logic>, op: Operator)
    requires g.0 in logic && !HasName(front, g.0)
    ensures Combine(front + [g], logic)
         == Combine(front + [g], logic[g.0 := logic[g.0].(operator := op)])
  {
    var other := logic[g.0 := logic[g.0].(operator := op)];
    var items := front + [g];
    FirstMissingKeys(items, logic, other);
    if Configured(items, logic) {
      assert Configured(items, other);
      assert items[..|items| - 1] == front;
      assert Configured(front, logic) && Configured(front, other) by {
        forall i | 0 <= i < |front| ensures front[i].0 in logic {
          assert items[i] == front[i];
        }
      }
      forall i | 0 <= i < |front| ensures logic[front[i].0] == other[front[i].0] {
        assert front[i].0 != g.0;
      }
      LinksAgree(front, logic, other);
    }
  }

  /** The operator of the last non-empty column is never read. */
  lemma BuildQueryIgnoresLastOperator(front: seq<Group>, name: string, terms: set<string>,
                                      logic: map<string, Logic>, op: Operator)
    requires terms != {} && name in logic && !HasName(front, name)
    ensures BuildQuery(front + [(name, terms)], logic)
         == BuildQuery(front + [(name, terms)], logic[name := logic[name].(operator := op)])
  {
    var g: Group := (name, terms);
    NonEmptyGroupsAppend(front, [g]);
    assert NonEmptyGroups([g]) == [g] by {
      assert [g][1..] == [];
    }
    NonEmptyGroupsMembers(front);
    var kept := NonEmptyGroups(front);
    forall k | 0 <= k < |kept| ensures kept[k].0 != name {
      assert kept[k] in front;
    }
    CombineIgnoresLastOperator(kept, g, logic, op);
  }

  /** One non-empty column gives just its clause. */
  lemma BuildQuerySingle(name: string, terms: set<string>, logic: map<string, Logic>)
    requires terms != {} && name in logic
    ensures BuildQuery([(name, terms)], logic)
         == Success(FormatGroup(terms, logic[name].quote, logic[name].Internal()))
  {
    var gs: seq<Group> := [(name, terms)];
    NonEmptyGroupsAllNonEmpty(gs);
    BuildQueryAllConfigured(gs, logic);
    assert gs[..0] == [];
  }

  /** No non-empty column gives the empty query, whatever the settings. */
  lemma BuildQueryAllEmpty(groups: seq<Group>, logic: map<string, Logic>)
    requires forall i :: 0 <= i < |groups| ==> groups[i].1 == {}
    ensures BuildQuery(groups, logic) == Success("")
  {
    NonEmptyGroupsAllEmpty(groups);
  }

  lemma {:induction false} NonEmptyGroupsAllEmpty(groups: seq<Group>)
    requires forall i :: 0 <= i < |groups| ==> groups[i].1 == {}
    ensures NonEmptyGroups(groups) == []
  {
    if |groups| > 0 {
      NonEmptyGroupsAllEmpty(groups[1..]);
    }
  }

  /** The combined query of non-empty filter columns followed by a one-value
      main column is the filter prefix followed by that value's clause. */
  lemma CombinedWithValue(statics: seq<Group>, main: string, v: string, logic: map<string, Logic>)
    requires forall i :: 0 <= i < |statics| ==> statics[i].1 != {}
    requires Configured(statics, logic) && main in logic
    ensures BuildQuery(statics + [(main, {v})], logic)
         == Success(Links(statics, logic) + FormatGroup({v}, logic[main].quote, logic[main].Internal()))
  {
    var gs := statics + [(main, {v})];
    WithValueShape(statics, main, v, logic);
    BuildQueryAllConfigured(gs, logic);
  }

  lemma WithValueShape(statics: seq<Group>, main: string, v: string, logic: map<string, Logic>)
    requires forall i :: 0 <= i < |statics| ==> statics[i].1 != {}
    requires Configured(statics, logic) && main in logic
    ensures var gs := statics + [(main, {v})];
      && NonEmptyGroups(gs) == gs
      && Configured(gs, logic)
      && Chain(gs, logic) == Links(statics, logic) + FormatGroup({v}, logic[main].quote, logic[main].Internal())
  {
    var gs := statics + [(main, {v})];
    NonEmptyGroupsAllNonEmpty(gs);
    assert Configured(gs, logic) by {
      forall i | 0 <= i < |gs| ensures gs[i].0 in logic {
        if i < |statics| { assert gs[i] == statics[i]; }
      }
    }
    assert gs[..|gs| - 1] == statics;
  }

  /** With no empty column and every column configured, the combined query
      is the chain of all columns. */
  lemma BuildQueryAllConfigured(groups: seq<Group>, logic: map<string, Logic>)
    requires NonEmptyGroups(groups) == groups && Configured(groups, logic)
    ensures BuildQuery(groups, logic) == Success(Chain(groups, logic))
  {
    assert Combine(groups, logic).Success?;
  }

  /** Each per-value query is the combined query of the shared filter
      columns followed by a main column reduced to that one value. */
  lemma ByMainGroupIsCombined(groups: seq<Group>, logic: map<string, Logic>, main: string, i: nat)
    requires BuildQueriesByMainGroup(groups, logic, main).Success?
    requires i < |BuildQueriesByMainGroup(groups, logic, main).value|
    ensures var q := BuildQueriesByMainGroup(groups, logic, main).value[i];
            q.mainValue.Some?
            && BuildQuery(StaticGroups(groups, main) + [(main, {q.mainValue.value})], logic) == Success(q.text)
  {
    var q := BuildQueriesByMainGroup(groups, logic, main).value[i];
    CombinedWithValue(StaticGroups(groups, main), main, q.mainValue.value, logic);
  }

  lemma {:induction false} NonEmptyGroupsAllNonEmpty(groups: seq<Group>)
    requires forall i :: 0 <= i < |groups| ==> groups[i].1 != {}
    ensures NonEmptyGroups(groups) == groups
  {
    if |groups| > 0 {
      NonEmptyGroupsAllNonEmpty(groups[1..]);
    }
  }
}
