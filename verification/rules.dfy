/** `find_file_renaming_rules`: the rules implied by editing a listing in
    place, one per line whose text changed. */
module RenamingRules {
  import opened Wrappers
  import opened SeqUtil
  import opened TextLines
  import opened Base

  /** A rename for every position where `olds` and `news` differ, in line
      order; unchanged lines give nothing. */
  function ZipRules(olds: seq<string>, news: seq<string>): (rules: seq<Rename>)
    requires |olds| == |news|
    ensures |rules| <= |olds|
    ensures forall k :: 0 <= k < |rules| ==> rules[k].source != rules[k].dest && rules[k].tmp == None
  {
    if olds == [] then []
    else
      var rest := ZipRules(olds[1..], news[1..]);
      if olds[0] == news[0] then rest else [Rename.New(olds[0], news[0])] + rest
  }

  /** Rules from the old and the new text of the listing. Identical texts
      ("found no changes") and texts with different line counts ("found
      invalid changes") both give no rules. */
  function FindRenamingRules(before: string, after: string): (rules: seq<Rename>)
    ensures before == after ==> rules == []
    ensures |Lines(before)| != |Lines(after)| ==> rules == []
    ensures |rules| <= |Lines(before)|
    ensures forall k :: 0 <= k < |rules| ==> rules[k].source != rules[k].dest && rules[k].tmp == None
  {
    if before == after then []
    else if |Lines(before)| != |Lines(after)| then []
    else ZipRules(Lines(before), Lines(after))
  }

  /** `pos` lists, in increasing order, exactly the positions where the two
      line lists differ. */
  ghost predicate ChangedPositions(pos: seq<nat>, olds: seq<string>, news: seq<string>)
    requires |olds| == |news|
  {
    && IncreasingBelow(pos, |olds|)
    && (forall i :: 0 <= i < |olds| ==> (olds[i] != news[i] <==> i in pos))
  }

  /** `rules` renames `olds[pos[k]]` to `news[pos[k]]` for the k-th changed
      position, and nothing else. */
  ghost predicate RulesAt(rules: seq<Rename>, pos: seq<nat>, olds: seq<string>, news: seq<string>)
    requires |olds| == |news|
    requires IncreasingBelow(pos, |olds|)
  {
    && |rules| == |pos|
    && (forall k :: 0 <= k < |rules| ==> rules[k] == Rename(olds[pos[k]], news[pos[k]], None))
  }

  /** The rename every line pair would ask for if it had changed. */
  function Pairs(olds: seq<string>, news: seq<string>): seq<Rename>
    requires |olds| == |news|
  {
    seq(|olds|, i requires 0 <= i < |olds| => Rename(olds[i], news[i], None))
  }

  /** The first line pair contributes its rule, if any, ahead of the rest. */
  lemma ZipRulesUnfold(olds: seq<string>, news: seq<string>)
    requires |olds| == |news| > 0
    ensures ZipRules(olds, news)
            == (if olds[0] == news[0] then [] else [Rename(olds[0], news[0], None)]) + ZipRules(olds[1..], news[1..])
  {
  }

  /** Positions kept from the tail, moved one place up, plus position 0
      when the first lines differ, are the changed positions of the whole. */
  lemma ChangedPositionsCons(olds: seq<string>, news: seq<string>, pos': seq<nat>, pos: seq<nat>)
    requires |olds| == |news| > 0
    requires ChangedPositions(pos', olds[1..], news[1..])
    requires IncreasingBelow(pos, |olds|)
    requires 0 in pos <==> olds[0] != news[0]
    requires forall i :: 0 <= i < |olds| - 1 ==> (i + 1 in pos <==> i in pos')
    ensures ChangedPositions(pos, olds, news)
  {
    forall i | 1 <= i < |olds|
      ensures olds[i] != news[i] <==> i in pos
    {
      assert olds[i] == olds[1..][i - 1] && news[i] == news[1..][i - 1];
      assert i - 1 + 1 == i;
    }
  }

  lemma {:induction false} ZipRulesPositions(olds: seq<string>, news: seq<string>) returns (pos: seq<nat>)
    requires |olds| == |news|
    ensures ChangedPositions(pos, olds, news)
    ensures RulesAt(ZipRules(olds, news), pos, olds, news)
  {
    if olds == [] {
      pos := [];
    } else {
      var all := Pairs(olds, news);
      var rest := ZipRules(olds[1..], news[1..]);
      var pos' := ZipRulesPositions(olds[1..], news[1..]);
      assert all[1..] == Pairs(olds[1..], news[1..]);
      assert SelectsAt(rest, all[1..], pos');
      pos := SelectsCons(all, rest, pos', olds[0] != news[0]);
      ZipRulesUnfold(olds, news);
      ChangedPositionsCons(olds, news, pos', pos);
    }
  }

  /** Two equal line lists give no rules. */
  lemma {:induction false} ZipRulesSame(ls: seq<string>)
    ensures ZipRules(ls, ls) == []
  {
    if ls != [] {
      ZipRulesSame(ls[1..]);
    }
  }

  /** With equal line counts, the rules are exactly one per changed line,
      `source` the old line and `dest` the new one, in line order. */
  lemma DerivedRulesAreChangedLines(before: string, after: string) returns (pos: seq<nat>)
    requires |Lines(before)| == |Lines(after)|
    ensures ChangedPositions(pos, Lines(before), Lines(after))
    ensures RulesAt(FindRenamingRules(before, after), pos, Lines(before), Lines(after))
  {
    pos := ZipRulesPositions(Lines(before), Lines(after));
    if before == after {
      ZipRulesSame(Lines(before));
    }
  }

  /** The lines of `l + "\n" + m` for two non-empty lines without breaks
      or a final `'\r'`. */
  lemma TwoLines(l: string, m: string)
    requires l != [] && '\n' !in l && !EndsWithCr(l)
    requires m != [] && '\n' !in m
    ensures Lines(l + "\n" + m) == [l, m]
  {
    LinesCons(l, m);
    LinesSingle(m);
  }

  /** Rules of two texts of the same line count are the rules of their
      lines, paired up. */
  lemma RulesOfLines(before: string, after: string, olds: seq<string>, news: seq<string>)
    requires before != after
    requires Lines(before) == olds && Lines(after) == news && |olds| == |news|
    ensures FindRenamingRules(before, after) == ZipRules(olds, news)
  {
  }

  /** The rules of two two-line listings. */
  lemma ZipRulesOfTwo(a: string, b: string, c: string, d: string)
    ensures ZipRules([a, b], [c, d])
            == (if a == c then [] else [Rename(a, c, None)]) + (if b == d then [] else [Rename(b, d, None)])
  {
    ZipRulesUnfold([a, b], [c, d]);
    assert [a, b][1..] == [b] && [c, d][1..] == [d];
    ZipRulesUnfold([b], [d]);
    assert ZipRules([b][1..], [d][1..]) == [];
  }

  lemma UnitTestOneLine()
    ensures FindRenamingRules("a", "b") == [Rename("a", "b", None)]
  {
    LinesSingle("a");
    LinesSingle("b");
    RulesOfLines("a", "b", ["a"], ["b"]);
    ZipRulesUnfold(["a"], ["b"]);
    assert ZipRules(["a"][1..], ["b"][1..]) == [];
  }

  lemma UnitTestTwoLines()
    ensures FindRenamingRules("a\nb", "b\nc") == [Rename("a", "b", None), Rename("b", "c", None)]
  {
    assert "a\nb" == "a" + "\n" + "b";
    assert "b\nc" == "b" + "\n" + "c";
    TwoLines("a", "b");
    TwoLines("b", "c");
    RulesOfLines("a\nb", "b\nc", ["a", "b"], ["b", "c"]);
    ZipRulesOfTwo("a", "b", "b", "c");
  }

  lemma UnitTestLineAdded()
    ensures FindRenamingRules("a", "b\nc") == []
  {
    LinesSingle("a");
    assert "b\nc" == "b" + "\n" + "c";
    TwoLines("b", "c");
  }

  lemma UnitTestOneOfTwoLines()
    ensures FindRenamingRules("a\nb", "a\nc") == [Rename("b", "c", None)]
  {
    assert "a\nb" == "a" + "\n" + "b";
    assert "a\nc" == "a" + "\n" + "c";
    TwoLines("a", "b");
    TwoLines("a", "c");
    RulesOfLines("a\nb", "a\nc", ["a", "b"], ["a", "c"]);
    ZipRulesOfTwo("a", "b", "a", "c");
  }

  /** The four cases of the repository's unit test, with the rules spelled
      out rather than only counted. */
  lemma UnitTestCases()
    ensures FindRenamingRules("a", "b") == [Rename("a", "b", None)]
    ensures FindRenamingRules("a\nb", "b\nc") == [Rename("a", "b", None), Rename("b", "c", None)]
    ensures FindRenamingRules("a", "b\nc") == []
    ensures FindRenamingRules("a\nb", "a\nc") == [Rename("b", "c", None)]
  {
    UnitTestOneLine();
    UnitTestTwoLines();
    UnitTestLineAdded();
    UnitTestOneOfTwoLines();
  }

  /** Texts can differ and still give no rules: a final line ending and a
      `'\r'` before a line ending are not part of any line. */
  lemma LineEndingsAreNotChanges()
    ensures FindRenamingRules("a", "a\n") == []
    ensures FindRenamingRules("a\r\nb", "a\nb") == []
  {
    LinesCons("a", "");
    LinesCons("a\r", "b");
    LinesCons("a", "b");
    assert "a\n" == "a" + "\n" + "";
    assert "a\r\nb" == "a\r" + "\n" + "b";
    assert "a\nb" == "a" + "\n" + "b";
    assert Lines("b") == ["b"];
    assert StripCr("a\r") == "a";
    ZipRulesSame(["a", "b"]);
  }
}
