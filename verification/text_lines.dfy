/** Rust's `str::lines` and `[String]::join("\n")` on `string` values.

    `lines` cuts the text after every `'\n'`, removes that `'\n'` and then
    at most one `'\r'` in front of it, and yields no empty final line after
    a trailing line ending; an empty text has no lines at all. A `'\r'` at
    the very end of an unterminated last line is kept. */
module TextLines {

  /** Index of the first `'\n'` in `s`, or `|s|` when there is none. */
  function LineEnd(s: string): (i: nat)
    ensures i <= |s|
    ensures i < |s| ==> s[i] == '\n'
    ensures forall j :: 0 <= j < i ==> s[j] != '\n'
  {
    if s == [] || s[0] == '\n' then 0 else 1 + LineEnd(s[1..])
  }

  predicate EndsWithCr(l: string)
  {
    |l| > 0 && l[|l| - 1] == '\r'
  }

  /** A terminated line loses one `'\r'` in front of its `'\n'`. */
  function StripCr(l: string): string
  {
    if EndsWithCr(l) then l[..|l| - 1] else l
  }

  /** The lines of `s`, as Rust's `str::lines` yields them. */
  function Lines(s: string): (ls: seq<string>)
    ensures forall k :: 0 <= k < |ls| ==> '\n' !in ls[k]
    ensures |ls| <= |s|
    ensures s != [] <==> ls != []
    decreases |s|
  {
    if s == [] then []
    else
      var i := LineEnd(s);
      if i == |s| then [s]
      else [StripCr(s[..i])] + Lines(s[i + 1..])
  }

  /** Number of occurrences of `c` in `s`. */
  function Count(s: string, c: char): nat
  {
    if s == [] then 0 else (if s[0] == c then 1 else 0) + Count(s[1..], c)
  }

  /** The lines joined by `'\n'`, as `Vec<String>::join("\n")` does. */
  function Join(ls: seq<string>): (s: string)
    ensures |ls| > 0 ==> ls[0] <= s
    ensures |ls| > 0 && (forall k :: 0 <= k < |ls| ==> '\n' !in ls[k]) ==> Count(s, '\n') == |ls| - 1
  {
    if ls == [] then []
    else if |ls| == 1 then
      CountNone(ls[0], '\n');
      ls[0]
    else
      var rest := Join(ls[1..]);
      CountSplit(ls[0] + "\n", rest, '\n');
      CountSplit(ls[0], "\n", '\n');
      CountNone(ls[0], '\n');
      assert (ls[0] + "\n" + rest)[..|ls[0]|] == ls[0];
      ls[0] + "\n" + rest
  }

  /** A list of lines that `Lines` gives back unchanged after `Join`: no line
      holds a line break, no line but the last ends in `'\r'`, and the last
      line is not empty. */
  ghost predicate Listing(ls: seq<string>)
  {
    && (forall k :: 0 <= k < |ls| ==> '\n' !in ls[k])
    && (forall k :: 0 <= k < |ls| - 1 ==> !EndsWithCr(ls[k]))
    && (|ls| > 0 ==> ls[|ls| - 1] != [])
  }

  lemma {:induction false} CountSplit(a: string, b: string, c: char)
    ensures Count(a + b, c) == Count(a, c) + Count(b, c)
  {
    if a == [] {
      assert a + b == b;
    } else {
      assert (a + b)[1..] == a[1..] + b;
      CountSplit(a[1..], b, c);
    }
  }

  lemma {:induction false} CountNone(s: string, c: char)
    ensures c !in s ==> Count(s, c) == 0
  {
    if s != [] {
      CountNone(s[1..], c);
    }
  }

  /** A terminated line without breaks of its own adds one `'\n'`. */
  lemma CountLine(l: string, rest: string)
    requires '\n' !in l
    ensures Count(l + "\n" + rest, '\n') == 1 + Count(rest, '\n')
  {
    assert l + "\n" + rest == l + ("\n" + rest);
    CountSplit(l, "\n" + rest, '\n');
    CountSplit("\n", rest, '\n');
    CountNone(l, '\n');
  }

  /** 1 when `s` ends in an unterminated line, else 0. */
  function OpenTail(s: string): nat
  {
    if s != [] && s[|s| - 1] != '\n' then 1 else 0
  }

  lemma OpenTailCons(l: string, rest: string)
    ensures OpenTail(l + "\n" + rest) == OpenTail(rest)
  {
    var s := l + "\n" + rest;
    if rest != [] {
      assert s[|s| - 1] == rest[|rest| - 1];
    }
  }

  /** Text is cut into one line per `'\n'`, plus one more when the text does
      not end with a line ending. */
  lemma {:induction false} LinesCount(s: string)
    ensures |Lines(s)| == Count(s, '\n') + OpenTail(s)
    decreases |s|
  {
    if s != [] {
      var i := LineEnd(s);
      if i == |s| {
        CountNone(s, '\n');
        LinesSingle(s);
      } else {
        var l, rest := s[..i], s[i + 1..];
        assert s == l + "\n" + rest;
        CountLine(l, rest);
        LinesCons(l, rest);
        OpenTailCons(l, rest);
        LinesCount(rest);
      }
    }
  }

  /** A non-empty text without a line break is one line. */
  lemma LinesSingle(l: string)
    requires l != [] && '\n' !in l
    ensures Lines(l) == [l]
  {
    assert LineEnd(l) == |l|;
  }

  /** The tail of a listing of two or more lines is a listing, and its head
      is a line that splitting keeps as it is. */
  lemma ListingTail(ls: seq<string>)
    requires |ls| > 1 && Listing(ls)
    ensures Listing(ls[1..])
    ensures '\n' !in ls[0] && StripCr(ls[0]) == ls[0]
  {
    var tail := ls[1..];
    assert forall k :: 0 <= k < |tail| ==> tail[k] == ls[k + 1];
  }

  /** Splitting a joined listing gives the listing back. */
  lemma {:induction false} LinesOfJoin(ls: seq<string>)
    requires Listing(ls)
    ensures Lines(Join(ls)) == ls
  {
    if |ls| == 1 {
      LinesSingle(ls[0]);
    } else if |ls| > 1 {
      var l, tail := ls[0], ls[1..];
      ListingTail(ls);
      LinesOfJoin(tail);
      assert Join(ls) == l + "\n" + Join(tail) by {
        JoinCons(l, tail);
        assert ls == [l] + tail;
      }
      LinesCons(l, Join(tail));
      assert ls == [l] + tail;
    }
  }

  /** `s` without its final `'\n'`, if it has one. */
  function DropFinalNewline(s: string): string
  {
    if s != [] && s[|s| - 1] == '\n' then s[..|s| - 1] else s
  }

  lemma DropFinalNewlineCons(l: string, rest: string)
    requires rest != []
    ensures DropFinalNewline(l + "\n" + rest) == l + "\n" + DropFinalNewline(rest)
  {
    var s := l + "\n" + rest;
    assert s[|s| - 1] == rest[|rest| - 1];
    if rest[|rest| - 1] == '\n' {
      assert s[..|s| - 1] == l + "\n" + rest[..|rest| - 1];
    }
  }

  lemma JoinCons(l: string, ls: seq<string>)
    requires ls != []
    ensures Join([l] + ls) == l + "\n" + Join(ls)
  {
    assert ([l] + ls)[1..] == ls;
  }

  /** A text that starts with a terminated line `l`. */
  lemma LinesCons(l: string, rest: string)
    requires '\n' !in l
    ensures Lines(l + "\n" + rest) == [StripCr(l)] + Lines(rest)
  {
    var s := l + "\n" + rest;
    assert LineEnd(s) == |l| by {
      assert forall j :: 0 <= j < |l| ==> s[j] == l[j];
      assert s[|l|] == '\n';
    }
    assert s[..|l|] == l;
    assert s[|l| + 1..] == rest;
  }

  /** Joining the lines of a text without `'\r'` gives the text back, short
      of a final line ending. */
  lemma {:induction false} JoinOfLines(s: string)
    requires '\r' !in s
    ensures Join(Lines(s)) == DropFinalNewline(s)
    decreases |s|
  {
    if s != [] {
      var i := LineEnd(s);
      if i < |s| {
        var l, rest := s[..i], s[i + 1..];
        assert s == l + "\n" + rest;
        assert !EndsWithCr(l) by {
          assert forall j :: 0 <= j < |l| ==> l[j] == s[j];
        }
        LinesCons(l, rest);
        if rest == [] {
          assert DropFinalNewline(s) == l;
        } else {
          assert '\r' !in rest by {
            assert forall j :: 0 <= j < |rest| ==> rest[j] == s[i + 1 + j];
          }
          JoinOfLines(rest);
          JoinCons(l, Lines(rest));
          DropFinalNewlineCons(l, rest);
        }
      }
    }
  }
}
