/** Facts about sequences that the rule checks and the pass lemmas share. */
module SeqUtil {

  /** No element occurs twice. */
  ghost predicate NoDuplicates<T>(s: seq<T>)
  {
    forall i, j :: 0 <= i < j < |s| ==> s[i] != s[j]
  }

  /** The elements of `s` collected into a set, as a `HashSet` collects them. */
  function ToSet<T>(s: seq<T>): set<T>
  {
    set x | x in s
  }

  /** Strictly increasing positions, all below `bound`. */
  ghost predicate IncreasingBelow(pos: seq<nat>, bound: nat)
  {
    && (forall k :: 0 <= k < |pos| ==> pos[k] < bound)
    && (forall k, l :: 0 <= k < l < |pos| ==> pos[k] < pos[l])
  }

  /** A sequence without repeats is its head followed by a tail without
      repeats that does not hold the head, and the other way round. */
  lemma NoDuplicatesCons<T>(s: seq<T>)
    requires s != []
    ensures NoDuplicates(s) <==> s[0] !in s[1..] && NoDuplicates(s[1..])
  {
    var tail := s[1..];
    if s[0] in tail {
      var j :| 0 <= j < |tail| && tail[j] == s[0];
      assert s[0] == s[j + 1];
    }
    if !NoDuplicates(tail) {
      var i, j :| 0 <= i < j < |tail| && tail[i] == tail[j];
      assert s[i + 1] == s[j + 1];
    }
    if s[0] !in tail && NoDuplicates(tail) {
      forall i, j | 0 <= i < j < |s|
        ensures s[i] != s[j]
      {
        assert s[j] == tail[j - 1];
        if i > 0 {
          assert s[i] == tail[i - 1];
        }
      }
    }
  }

  /** Collecting a sequence into a set never gains elements, and it keeps
      every one exactly when no element is repeated. */
  lemma {:induction false} SetSizeIffDistinct<T>(s: seq<T>)
    ensures |ToSet(s)| <= |s|
    ensures |ToSet(s)| == |s| <==> NoDuplicates(s)
  {
    if s == [] {
      assert ToSet(s) == {};
    } else {
      var tail := s[1..];
      SetSizeIffDistinct(tail);
      NoDuplicatesCons(s);
      assert ToSet(s) == {s[0]} + ToSet(tail) by {
        assert s == [s[0]] + tail;
      }
      if s[0] in tail {
        assert ToSet(s) == ToSet(tail);
      } else {
        assert |ToSet(s)| == |ToSet(tail)| + 1;
      }
    }
  }

  /** Every position moved one place up. */
  lemma Shift(pos: seq<nat>, bound: nat) returns (shifted: seq<nat>)
    requires IncreasingBelow(pos, bound)
    ensures IncreasingBelow(shifted, bound + 1)
    ensures |shifted| == |pos|
    ensures forall k :: 0 <= k < |pos| ==> shifted[k] == pos[k] + 1
    ensures 0 !in shifted
    ensures forall i :: 0 <= i < bound ==> (i + 1 in shifted <==> i in pos)
  {
    shifted := seq(|pos|, k requires 0 <= k < |pos| => pos[k] + 1);
    forall i | 0 <= i < bound
      ensures i + 1 in shifted <==> i in pos
    {
      if i in pos {
        var k :| 0 <= k < |pos| && pos[k] == i;
        assert shifted[k] == i + 1;
      }
    }
  }

  /** `ys` is the subsequence of `xs` at the increasing positions `pos`. */
  ghost predicate SelectsAt<T>(ys: seq<T>, xs: seq<T>, pos: seq<nat>)
  {
    && IncreasingBelow(pos, |xs|)
    && |ys| == |pos|
    && (forall k :: 0 <= k < |ys| ==> ys[k] == xs[pos[k]])
  }

  /** A selection from `xs`, given a selection from its tail and whether the
      head is kept. */
  lemma SelectsCons<T>(xs: seq<T>, ys': seq<T>, pos': seq<nat>, keep: bool) returns (pos: seq<nat>)
    requires xs != []
    requires SelectsAt(ys', xs[1..], pos')
    ensures SelectsAt((if keep then [xs[0]] else []) + ys', xs, pos)
    ensures 0 in pos <==> keep
    ensures forall i :: 0 <= i < |xs| - 1 ==> (i + 1 in pos <==> i in pos')
  {
    var shifted := Shift(pos', |xs| - 1);
    if keep {
      pos := [0] + shifted;
      assert IncreasingBelow(pos, |xs|) by {
        forall k, l | 0 <= k < l < |pos|
          ensures pos[k] < pos[l]
        {
          assert pos[l] == shifted[l - 1];
          if k > 0 {
            assert pos[k] == shifted[k - 1];
          }
        }
      }
      var ys := [xs[0]] + ys';
      forall k | 1 <= k < |ys|
        ensures ys[k] == xs[pos[k]]
      {
        assert ys[k] == ys'[k - 1];
        assert pos[k] == pos'[k - 1] + 1;
      }
    } else {
      pos := shifted;
      assert [] + ys' == ys';
      forall k | 0 <= k < |ys'|
        ensures ys'[k] == xs[pos[k]]
      {
        assert pos[k] == pos'[k] + 1;
      }
    }
  }
}
