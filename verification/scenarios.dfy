/** Worked inputs for the assembler, proved from the general lemmas: the
    combined query of the `build_query` docstring and a per-value fan-out. */
module Scenarios {
  import opened Wrappers
  import opened Strings
  import opened Sorting
  import opened Formatter
  import opened Assembler

  function DocstringGroups(): seq<Group> {
    [("color", {"red", "blue"}), ("size", {"large"})]
  }

  function DocstringLogic(): map<string, Logic> {
    map["color" := Logic(false, And, None), "size" := Logic(true, And, None)]
  }

  lemma CleanTermWord(t: string, quote: bool)
    requires t != "" && IsStripped(t) && ' ' !in t
    ensures CleanTerm(t, quote) == if quote then Quoted(t) else t
  {
    CleanTermOfStripped(t, quote);
  }

  lemma SizeClause()
    ensures FormatGroup({"large"}, true, Or) == "(\"large\")"
  {
    LargeWord();
    CleanTermWord("large", true);
    FormatGroupSingleton("large", true, Or);
  }

  lemma LargeWord()
    ensures IsStripped("large") && ' ' !in "large"
  {
    assert forall k :: 0 <= k < |"large"| ==> "large"[k] != ' ';
  }

  lemma LinksOfOne(g: Group, logic: map<string, Logic>)
    requires g.0 in logic
    ensures Configured([g], logic)
    ensures Links([g], logic) == Clause(g, logic[g.0]) + " " + logic[g.0].operator.Keyword() + " "
  {
    assert Links([g], logic) == Clause(g, logic[g.0]) + " " + logic[g.0].operator.Keyword() + " " + "";
  }

  /** Two configured groups: first clause, its operator, second clause. */
  lemma ChainOfTwo(g1: Group, g2: Group, logic: map<string, Logic>)
    requires g1.0 in logic && g2.0 in logic
    ensures Configured([g1, g2], logic)
    ensures Chain([g1, g2], logic)
         == Clause(g1, logic[g1.0]) + " " + logic[g1.0].operator.Keyword() + " " + Clause(g2, logic[g2.0])
  {
    assert [g1, g2][..1] == [g1];
    LinksOfOne(g1, logic);
  }

  lemma DocstringChain()
    ensures Configured(DocstringGroups(), DocstringLogic())
    ensures Chain(DocstringGroups(), DocstringLogic()) == "(blue OR red) AND (\"large\")"
  {
    var groups, logic := DocstringGroups(), DocstringLogic();
    var color, size := logic["color"], logic["size"];
    ChainOfTwo(groups[0], groups[1], logic);
    assert Clause(groups[0], color) == "(blue OR red)" by {
      assert color.Internal() == Or;
      FormatGroupSortsTerms();
    }
    assert Clause(groups[1], size) == "(\"large\")" by {
      assert size.Internal() == Or;
      SizeClause();
    }
    assert color.operator.Keyword() == "AND";
    DocstringText();
  }

  lemma DocstringText()
    ensures "(blue OR red)" + " " + "AND" + " " + "(\"large\")" == "(blue OR red) AND (\"large\")"
  {
  }

  /** The docstring promises `(red OR blue) AND "large"`; the code sorts the
      terms and parenthesises every clause, singletons included. */
  lemma DocstringExample()
    ensures BuildQuery(DocstringGroups(), DocstringLogic())
         == Success("(blue OR red) AND (\"large\")")
  {
    NonEmptyGroupsAllNonEmpty(DocstringGroups());
    DocstringChain();
  }

  function FruitGroups(): seq<Group> {
    [("fruit", {"apple", "banana"})]
  }

  function FruitLogic(): map<string, Logic> {
    map["fruit" := Logic(false, Or, None)]
  }

  lemma FruitColumn()
    ensures HasName(FruitGroups(), "fruit")
    ensures Lookup(FruitGroups(), "fruit") == Some({"apple", "banana"})
    ensures StaticGroups(FruitGroups(), "fruit") == []
  {
    assert FruitGroups()[0].0 == "fruit";
  }

  lemma WordClause(t: string)
    requires t != "" && IsStripped(t) && ' ' !in t
    ensures FormatGroup({t}, false, Or) == "(" + t + ")"
  {
    CleanTermWord(t, false);
    FormatGroupSingleton(t, false, Or);
  }

  lemma AppleClause()
    ensures FormatGroup({"apple"}, false, Or) == "(apple)"
  {
    assert IsStripped("apple") && ' ' !in "apple" by {
      assert forall k :: 0 <= k < |"apple"| ==> "apple"[k] != ' ';
    }
    WordClause("apple");
  }

  lemma BananaClause()
    ensures FormatGroup({"banana"}, false, Or) == "(banana)"
  {
    assert IsStripped("banana") && ' ' !in "banana" by {
      assert forall k :: 0 <= k < |"banana"| ==> "banana"[k] != ' ';
    }
    WordClause("banana");
  }

  lemma FanOutPairShape(main: string, a: string, b: string, logic: map<string, Logic>)
    requires main in logic && Less(a, b)
    ensures var r := FanOut([], main, {a, b}, logic); var l := logic[main];
      && r.Success? && |r.value| == 2
      && r.value[0] == Query(Some(a), FormatGroup({a}, l.quote, l.Internal()))
      && r.value[1] == Query(Some(b), FormatGroup({b}, l.quote, l.Internal()))
  {
    assert Less(a, b) && a in {a, b};
    SortedUnique([a, b], {a, b});
    assert Configured([], logic) && Links([], logic) == "";
    var qs := QueriesFor([], logic, logic[main], [a, b]);
    assert FirstMissing([] + [(main, {a, b})], logic).None?;
    assert FanOut([], main, {a, b}, logic) == Success(qs);
  }

  /** With no filter columns, two main values give two single-clause
      queries in ascending order. */
  lemma FanOutPair(main: string, a: string, b: string, logic: map<string, Logic>)
    requires main in logic && Less(a, b)
    ensures var l := logic[main];
      FanOut([], main, {a, b}, logic)
      == Success([Query(Some(a), FormatGroup({a}, l.quote, l.Internal())),
                  Query(Some(b), FormatGroup({b}, l.quote, l.Internal()))])
  {
    var l := logic[main];
    FanOutPairShape(main, a, b, logic);
    TwoQueries(FanOut([], main, {a, b}, logic),
               Query(Some(a), FormatGroup({a}, l.quote, l.Internal())),
               Query(Some(b), FormatGroup({b}, l.quote, l.Internal())));
  }

  lemma TwoQueries(r: Result<seq<Query>, Error>, x: Query, y: Query)
    requires r.Success? && |r.value| == 2 && r.value[0] == x && r.value[1] == y
    ensures r == Success([x, y])
  {
    assert r.value == [x, y];
  }

  /** One query per fruit, in ascending order, each a singleton clause. */
  lemma FanOutExample()
    ensures BuildQueriesByMainGroup(FruitGroups(), FruitLogic(), "fruit")
         == Success([Query(Some("apple"), "(apple)"), Query(Some("banana"), "(banana)")])
  {
    FruitColumn();
    assert Less("apple", "banana");
    FanOutPair("fruit", "apple", "banana", FruitLogic());
    AppleClause();
    BananaClause();
  }
}
