/** The text `_write_queries_txt` (`sqg/input_output.py`) and the
    `write_queries` block of `sqg/sqg.py` would write, returned instead of
    written. */
module Writer {
  import opened Wrappers
  import opened Strings
  import opened Assembler

  /** `sorted()` cannot compare a `None` label with a string label. */
  datatype RenderError = UnorderableLabels

  /** All labels are strings, or all are `None`: the lists `sorted()` can order. */
  predicate Uniform(qs: seq<Query>) {
    forall i, j :: 0 <= i < |qs| && 0 <= j < |qs| ==> qs[i].mainValue.Some? == qs[j].mainValue.Some?
  }

  /** Python's `<=` on two `(label, text)` tuples of the same kind: labels
      first, the query text breaking ties. */
  predicate QueryLe(a: Query, b: Query) {
    if a.mainValue != b.mainValue then
      a.mainValue.Some? && b.mainValue.Some? && Less(a.mainValue.value, b.mainValue.value)
    else !Less(b.text, a.text)
  }

  predicate Ordered(qs: seq<Query>) {
    forall i, j :: 0 <= i < j < |qs| ==> QueryLe(qs[i], qs[j])
  }

  lemma QueryLeTotal(a: Query, b: Query)
    requires a.mainValue.Some? == b.mainValue.Some?
    ensures QueryLe(a, b) || QueryLe(b, a)
  {
    if a.mainValue != b.mainValue {
      LessTotal(a.mainValue.value, b.mainValue.value);
    } else if Less(b.text, a.text) {
      LessAsymmetric(b.text, a.text);
    }
  }

  lemma QueryLeTransitive(a: Query, b: Query, c: Query)
    requires QueryLe(a, b) && QueryLe(b, c)
    ensures QueryLe(a, c)
  {
    if a.mainValue == b.mainValue && b.mainValue == c.mainValue {
      if Less(c.text, a.text) {
        LessTotal(b.text, a.text);
        if b.text != a.text { LessTransitive(c.text, a.text, b.text); }
      }
    } else if a.mainValue != b.mainValue && b.mainValue != c.mainValue {
      LessTransitive(a.mainValue.value, b.mainValue.value, c.mainValue.value);
      LessIrreflexive(a.mainValue.value);
    }
  }

  lemma QueryLeAntisymmetric(a: Query, b: Query)
    requires QueryLe(a, b) && QueryLe(b, a)
    ensures a == b
  {
    if a.mainValue != b.mainValue {
      LessAsymmetric(a.mainValue.value, b.mainValue.value);
    } else {
      LessTotal(a.text, b.text);
    }
  }

  /** Places `q` before the first entry it does not follow. */
  function Insert(q: Query, qs: seq<Query>): (r: seq<Query>)
    requires Ordered(qs)
    requires forall i :: 0 <= i < |qs| ==> qs[i].mainValue.Some? == q.mainValue.Some?
    ensures multiset(r) == multiset(qs) + multiset{q}
    ensures Ordered(r)
  {
    if |qs| == 0 then [q]
    else if QueryLe(q, qs[0]) then
      InsertFront(q, qs);
      [q] + qs
    else
      QueryLeTotal(q, qs[0]);
      var rest := Insert(q, qs[1..]);
      InsertBehind(qs[0], q, qs[1..], rest);
      assert qs == [qs[0]] + qs[1..];
      [qs[0]] + rest
  }

  lemma InsertFront(q: Query, qs: seq<Query>)
    requires Ordered(qs) && |qs| > 0 && QueryLe(q, qs[0])
    ensures Ordered([q] + qs)
  {
    var r := [q] + qs;
    forall i, j | 0 <= i < j < |r| ensures QueryLe(r[i], r[j]) {
      if i == 0 && j > 1 {
        QueryLeTransitive(q, qs[0], qs[j - 1]);
      }
    }
  }

  lemma InsertBehind(x: Query, q: Query, tail: seq<Query>, rest: seq<Query>)
    requires Ordered([x] + tail) && QueryLe(x, q)
    requires Ordered(rest) && multiset(rest) == multiset(tail) + multiset{q}
    ensures Ordered([x] + rest)
  {
    var r := [x] + rest;
    forall i, j | 0 <= i < j < |r| ensures QueryLe(r[i], r[j]) {
      if i == 0 {
        var y := rest[j - 1];
        assert r[0] == x && r[j] == y;
        assert ([x] + tail)[0] == x;
        assert y in multiset(rest);
        if y != q {
          assert y in multiset(tail);
          var k :| 0 <= k < |tail| && tail[k] == y;
          assert ([x] + tail)[k + 1] == y;
        }
      } else {
        assert r[i] == rest[i - 1] && r[j] == rest[j - 1];
      }
    }
  }

  /** `sorted(queries)` for a list whose labels are all of one kind. */
  function SortQueries(qs: seq<Query>): (r: seq<Query>)
    requires Uniform(qs)
    ensures multiset(r) == multiset(qs)
    ensures Ordered(r)
  {
    if |qs| == 0 then []
    else
      UniformTail(qs);
      var sortedTail := SortQueries(qs[1..]);
      SameKind(qs, sortedTail);
      assert qs == [qs[0]] + qs[1..];
      Insert(qs[0], sortedTail)
  }

  lemma UniformTail(qs: seq<Query>)
    requires Uniform(qs) && |qs| > 0
    ensures Uniform(qs[1..])
  {
    var tail := qs[1..];
    forall i, j | 0 <= i < |tail| && 0 <= j < |tail|
      ensures tail[i].mainValue.Some? == tail[j].mainValue.Some?
    {
      assert tail[i] == qs[i + 1] && tail[j] == qs[j + 1];
    }
  }

  /** A rearrangement of the tail has the head's kind of label throughout. */
  lemma SameKind(qs: seq<Query>, sortedTail: seq<Query>)
    requires Uniform(qs) && |qs| > 0
    requires multiset(sortedTail) == multiset(qs[1..])
    ensures forall i :: 0 <= i < |sortedTail| ==> sortedTail[i].mainValue.Some? == qs[0].mainValue.Some?
  {
    var tail := qs[1..];
    forall i | 0 <= i < |sortedTail|
      ensures sortedTail[i].mainValue.Some? == qs[0].mainValue.Some?
    {
      assert sortedTail[i] in multiset(tail);
      var k :| 0 <= k < |tail| && tail[k] == sortedTail[i];
      assert qs[k + 1] == sortedTail[i];
    }
  }

  /** Two ordered lists with the same entries are the same list: what
      `sorted()` returns depends only on the entries, not on their order. */
  lemma {:induction false} OrderedUnique(xs: seq<Query>, ys: seq<Query>)
    requires Ordered(xs) && Ordered(ys) && multiset(xs) == multiset(ys)
    ensures xs == ys
  {
    if |xs| > 0 {
      assert |ys| == |xs| by {
        assert |multiset(xs)| == |xs| && |multiset(ys)| == |ys|;
      }
      OrderedHeads(xs, ys);
      MultisetTails(xs, ys);
      OrderedTail(xs);
      OrderedTail(ys);
      OrderedUnique(xs[1..], ys[1..]);
      assert xs == [xs[0]] + xs[1..] && ys == [ys[0]] + ys[1..];
    } else {
      assert |multiset(ys)| == 0;
    }
  }

  lemma MultisetTails(xs: seq<Query>, ys: seq<Query>)
    requires |xs| > 0 && |ys| > 0 && xs[0] == ys[0] && multiset(xs) == multiset(ys)
    ensures multiset(xs[1..]) == multiset(ys[1..])
  {
    assert xs == [xs[0]] + xs[1..];
    assert ys == [ys[0]] + ys[1..];
    assert multiset(xs) == multiset{xs[0]} + multiset(xs[1..]);
    assert multiset(ys) == multiset{xs[0]} + multiset(ys[1..]);
    assert multiset(xs[1..]) == multiset(xs) - multiset{xs[0]};
    assert multiset(ys[1..]) == multiset(ys) - multiset{xs[0]};
  }

  lemma OrderedTail(xs: seq<Query>)
    requires Ordered(xs) && |xs| > 0
    ensures Ordered(xs[1..])
  {
    forall i, j | 0 <= i < j < |xs[1..]| ensures QueryLe(xs[1..][i], xs[1..][j]) {
      assert xs[1..][i] == xs[i + 1] && xs[1..][j] == xs[j + 1];
    }
  }

  lemma OrderedHeads(xs: seq<Query>, ys: seq<Query>)
    requires Ordered(xs) && Ordered(ys) && multiset(xs) == multiset(ys)
    requires |xs| > 0 && |ys| > 0
    ensures xs[0] == ys[0]
  {
    assert ys[0] in multiset(xs);
    var i :| 0 <= i < |xs| && xs[i] == ys[0];
    assert xs[0] in multiset(ys);
    var j :| 0 <= j < |ys| && ys[j] == xs[0];
    LessIrreflexive(xs[0].text);
    LessIrreflexive(ys[0].text);
    assert QueryLe(xs[0], xs[i]) by { if i > 0 { assert QueryLe(xs[0], xs[i]); } }
    assert QueryLe(ys[0], ys[j]) by { if j > 0 { assert QueryLe(ys[0], ys[j]); } }
    QueryLeAntisymmetric(xs[0], ys[0]);
  }

  /** `f"{val}"`: a missing label prints as `None`. */
  function LabelText(value: Option<string>): string {
    match value
    case None => "None"
    case Some(v) => v
  }

  /** One block of the output file; `if main_group:` treats an empty name
      like no name. */
  function Block(q: Query, mainGroup: Option<string>): (r: string)
    ensures mainGroup.Some? && mainGroup.value != "" ==>
      r == "-- " + mainGroup.value + ": " + LabelText(q.mainValue) + " --\n" + q.text + "\n\n"
    ensures mainGroup.None? || mainGroup.value == "" ==> r == q.text + "\n\n"
  {
    if mainGroup.Some? && mainGroup.value != "" then
      "-- " + mainGroup.value + ": " + LabelText(q.mainValue) + " --\n" + q.text + "\n\n"
    else q.text + "\n\n"
  }

  function Blocks(qs: seq<Query>, mainGroup: Option<string>): (r: seq<string>)
    ensures |r| == |qs|
    ensures forall i :: 0 <= i < |qs| ==> r[i] == Block(qs[i], mainGroup)
  {
    seq(|qs|, i requires 0 <= i < |qs| => Block(qs[i], mainGroup))
  }

  /** `_write_queries_txt(queries, path, main_group)`: the file's contents. */
  function RenderQueries(qs: seq<Query>, mainGroup: Option<string>): (r: Result<string, RenderError>)
    ensures r.Failure? <==> !Uniform(qs)
    ensures r.Success? ==> exists sorted ::
      && Ordered(sorted) && multiset(sorted) == multiset(qs)
      && r.value == Concat(Blocks(sorted, mainGroup))
  {
    if Uniform(qs) then Success(Concat(Blocks(SortQueries(qs), mainGroup)))
    else Failure(UnorderableLabels)
  }

  /** Whether `sorted()` succeeds depends only on the entries. */
  lemma UniformEntries(xs: seq<Query>, ys: seq<Query>)
    requires multiset(xs) == multiset(ys)
    ensures Uniform(xs) <==> Uniform(ys)
  {
    forall a, b | a in ys && b in ys && Uniform(xs) ensures a.mainValue.Some? == b.mainValue.Some? {
      assert a in multiset(xs) && b in multiset(xs);
      var i :| 0 <= i < |xs| && xs[i] == a;
      var j :| 0 <= j < |xs| && xs[j] == b;
    }
    forall a, b | a in xs && b in xs && Uniform(ys) ensures a.mainValue.Some? == b.mainValue.Some? {
      assert a in multiset(ys) && b in multiset(ys);
      var i :| 0 <= i < |ys| && ys[i] == a;
      var j :| 0 <= j < |ys| && ys[j] == b;
    }
    if Uniform(xs) {
      forall i, j | 0 <= i < |ys| && 0 <= j < |ys| ensures ys[i].mainValue.Some? == ys[j].mainValue.Some? {
        assert ys[i] in ys && ys[j] in ys;
      }
    }
    if Uniform(ys) {
      forall i, j | 0 <= i < |xs| && 0 <= j < |xs| ensures xs[i].mainValue.Some? == xs[j].mainValue.Some? {
        assert xs[i] in xs && xs[j] in xs;
      }
    }
  }

  /** The file's contents do not depend on the order in which the queries
      were generated. */
  lemma RenderOrderIndependent(xs: seq<Query>, ys: seq<Query>, mainGroup: Option<string>)
    requires multiset(xs) == multiset(ys)
    ensures RenderQueries(xs, mainGroup) == RenderQueries(ys, mainGroup)
  {
    UniformEntries(xs, ys);
    if Uniform(xs) {
      OrderedUnique(SortQueries(xs), SortQueries(ys));
    }
  }

  /** The file lists every query exactly once, in `sorted()` order. */
  lemma RenderListsSorted(qs: seq<Query>, mainGroup: Option<string>, sorted: seq<Query>)
    requires Ordered(sorted) && multiset(sorted) == multiset(qs)
    requires Uniform(qs)
    ensures RenderQueries(qs, mainGroup) == Success(Concat(Blocks(sorted, mainGroup)))
  {
    OrderedUnique(sorted, SortQueries(qs));
  }

  /** The header line is written exactly when a non-empty main column name is given. */
  predicate Labelled(mainGroup: Option<string>) {
    mainGroup.Some? && mainGroup.value != ""
  }

  /** Nothing written into a block contains a line break of its own. */
  predicate SingleLine(q: Query, mainGroup: Option<string>) {
    && '\n' !in q.text
    && (Labelled(mainGroup) ==> '\n' !in mainGroup.value && '\n' !in LabelText(q.mainValue))
  }

  lemma HeaderBreaks()
    ensures Count('\n', "-- ") == 0 && Count('\n', ": ") == 0
    ensures Count('\n', " --\n") == 1 && Count('\n', "\n\n") == 2
  {
  }

  /** Each block is its lines followed by a blank line: two line breaks,
      three with the header. */
  lemma BlockBreaks(q: Query, mainGroup: Option<string>)
    requires SingleLine(q, mainGroup)
    ensures Count('\n', Block(q, mainGroup)) == if Labelled(mainGroup) then 3 else 2
  {
    HeaderBreaks();
    CountAbsent('\n', q.text);
    CountAppend('\n', q.text, "\n\n");
    if Labelled(mainGroup) {
      var g, v := mainGroup.value, LabelText(q.mainValue);
      CountAbsent('\n', g);
      CountAbsent('\n', v);
      CountAppend('\n', "-- ", g);
      CountAppend('\n', "-- " + g, ": ");
      CountAppend('\n', "-- " + g + ": ", v);
      CountAppend('\n', "-- " + g + ": " + v, " --\n");
      CountAppend('\n', "-- " + g + ": " + v + " --\n", q.text + "\n\n");
      assert Block(q, mainGroup) == ("-- " + g + ": " + v + " --\n") + (q.text + "\n\n");
    }
  }

  lemma {:induction false} ConcatBreaks(xs: seq<string>, k: nat)
    requires forall i :: 0 <= i < |xs| ==> Count('\n', xs[i]) == k
    ensures Count('\n', Concat(xs)) == k * |xs|
  {
    if |xs| > 0 {
      var tail := xs[1..];
      forall i | 0 <= i < |tail| ensures Count('\n', tail[i]) == k {
        assert tail[i] == xs[i + 1];
      }
      ConcatBreaks(tail, k);
      CountAppend('\n', xs[0], Concat(tail));
      assert k * |xs| == k + k * |tail| by {
        assert |xs| == 1 + |tail|;
      }
    }
  }

  /** A file of single-line queries has two line breaks per query, three
      with headers. */
  lemma RenderBreaks(qs: seq<Query>, mainGroup: Option<string>)
    requires forall i :: 0 <= i < |qs| ==> SingleLine(qs[i], mainGroup)
    ensures RenderQueries(qs, mainGroup).Success? ==>
      Count('\n', RenderQueries(qs, mainGroup).value) == (if Labelled(mainGroup) then 3 else 2) * |qs|
  {
    if Uniform(qs) {
      var sorted := SortQueries(qs);
      var blocks := Blocks(sorted, mainGroup);
      forall i | 0 <= i < |blocks| ensures Count('\n', blocks[i]) == if Labelled(mainGroup) then 3 else 2 {
        assert sorted[i] in multiset(qs);
        var k :| 0 <= k < |qs| && qs[k] == sorted[i];
        BlockBreaks(sorted[i], mainGroup);
      }
      ConcatBreaks(blocks, if Labelled(mainGroup) then 3 else 2);
      assert |sorted| == |qs| by {
        assert |multiset(sorted)| == |multiset(qs)|;
      }
    }
  }
}
