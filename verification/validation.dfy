/** The sanity check that opens `apply_file_renaming_rules`: a batch whose
    sources, or whose destinations, are not all different is rejected whole. */
module Validation {
  import opened Wrappers
  import opened SeqUtil
  import opened Base

  datatype ValidationError = DuplicateSources | DuplicateDests

  /** Sources are collected into a set and its size compared with the
      number of rules, then the same for destinations; the source check
      comes first. */
  function Validate(rules: seq<Rename>): (o: Outcome<ValidationError>)
    ensures o == Pass <==> NoDuplicates(Sources(rules)) && NoDuplicates(Dests(rules))
    ensures o == Fail(DuplicateSources) <==> !NoDuplicates(Sources(rules))
    ensures o == Fail(DuplicateDests) <==> NoDuplicates(Sources(rules)) && !NoDuplicates(Dests(rules))
  {
    SetSizeIffDistinct(Sources(rules));
    SetSizeIffDistinct(Dests(rules));
    if |ToSet(Sources(rules))| != |rules| then Fail(DuplicateSources)
    else if |ToSet(Dests(rules))| != |rules| then Fail(DuplicateDests)
    else Pass
  }

  /** Two rules with one source, two with one destination, and a batch
      with neither. */
  lemma ValidationExamples()
    ensures Validate([Rename("a", "x", None), Rename("a", "y", None)]) == Fail(DuplicateSources)
    ensures Validate([Rename("a", "z", None), Rename("b", "z", None)]) == Fail(DuplicateDests)
    ensures Validate([Rename("a", "x", None), Rename("b", "y", None)]) == Pass
    ensures Validate([Rename("a", "z", None), Rename("a", "z", None)]) == Fail(DuplicateSources)
  {
    var r := [Rename("a", "x", None), Rename("b", "y", None)];
    assert Sources(r)[0] != Sources(r)[1];
    assert Dests(r)[0] != Dests(r)[1];
    var s := [Rename("a", "x", None), Rename("a", "y", None)];
    assert Sources(s)[0] == Sources(s)[1];
    var d := [Rename("a", "z", None), Rename("b", "z", None)];
    assert Sources(d)[0] != Sources(d)[1];
    assert Dests(d)[0] == Dests(d)[1];
    var b := [Rename("a", "z", None), Rename("a", "z", None)];
    assert Sources(b)[0] == Sources(b)[1];
  }
}
