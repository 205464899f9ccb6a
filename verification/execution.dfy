/** `apply_file_renaming_rules`: validate the batch, try every rule
    directly in order, and hand the rules that met a naming conflict to the
    conflict resolver. The resolver (cycle breaking through temporary names)
    has no behaviour in the repository yet, so it is a parameter here. */
module Execution {
  import opened Wrappers
  import opened SeqUtil
  import opened Base
  import opened Validation
  import opened FileSystem

  /** The rules left over by the direct pass (`remained`), and the
      filesystem after it. */
  datatype DirectResult = DirectResult(pending: seq<Rename>, fs: Fs)

  /** The direct pass: each rule is applied in order to the filesystem the
      rules before it left behind; a rule that met a conflict is kept as
      pending, and a rule whose rename failed is dropped. */
  function DirectPass(rules: seq<Rename>, fs: Fs, refused: Refusals): (d: DirectResult)
    ensures |d.pending| <= |rules|
    ensures forall r :: r in d.pending ==> r in rules
  {
    if rules == [] then DirectResult([], fs)
    else
      var a := Apply(rules[0], fs, refused);
      var rest := DirectPass(rules[1..], a.fs, refused);
      if a.result == Success(false) then DirectResult([rules[0]] + rest.pending, rest.fs)
      else rest
  }

  /** The filesystem rule `i` meets during the direct pass. */
  ghost function Before(rules: seq<Rename>, fs: Fs, refused: Refusals, i: nat): Fs
    requires i <= |rules|
  {
    DirectPass(rules[..i], fs, refused).fs
  }

  /** Later rules meet the filesystem that the first rule left. */
  lemma BeforeTail(rules: seq<Rename>, fs: Fs, refused: Refusals, i: nat)
    requires 1 <= i <= |rules|
    ensures Before(rules, fs, refused, i)
            == Before(rules[1..], Apply(rules[0], fs, refused).fs, refused, i - 1)
  {
    assert rules[..i][0] == rules[0];
    assert rules[..i][1..] == rules[1..][..i - 1];
  }

  /** Which rules of a batch meet a conflict, given those of its tail. */
  lemma ConflictsCons(rules: seq<Rename>, fs: Fs, refused: Refusals, pos': seq<nat>, pos: seq<nat>)
    requires rules != []
    requires var fs1 := Apply(rules[0], fs, refused).fs;
             forall i :: 0 <= i < |rules| - 1 ==>
               (i in pos' <==> Apply(rules[1..][i], Before(rules[1..], fs1, refused, i), refused).result == Success(false))
    requires forall i :: 0 <= i < |rules| - 1 ==> (i + 1 in pos <==> i in pos')
    requires 0 in pos <==> Apply(rules[0], fs, refused).result == Success(false)
    ensures forall i :: 0 <= i < |rules| ==>
              (i in pos <==> Apply(rules[i], Before(rules, fs, refused, i), refused).result == Success(false))
  {
    assert Before(rules, fs, refused, 0) == fs;
    var fs1 := Apply(rules[0], fs, refused).fs;
    forall i | 1 <= i < |rules|
      ensures i in pos <==> Apply(rules[i], Before(rules, fs, refused, i), refused).result == Success(false)
    {
      BeforeTail(rules, fs, refused, i);
      assert rules[i] == rules[1..][i - 1];
      assert i - 1 + 1 == i;
    }
  }

  /** The pending rules are exactly the rules whose `apply` returned
      `Ok(false)` when their turn came, kept in the order of the batch. */
  lemma {:induction false} PendingAreConflicts(rules: seq<Rename>, fs: Fs, refused: Refusals)
    returns (pos: seq<nat>)
    ensures SelectsAt(DirectPass(rules, fs, refused).pending, rules, pos)
    ensures forall i :: 0 <= i < |rules| ==>
              (i in pos <==> Apply(rules[i], Before(rules, fs, refused, i), refused).result == Success(false))
  {
    if rules == [] {
      pos := [];
    } else {
      var a := Apply(rules[0], fs, refused);
      var first := a.result == Success(false);
      var rest := DirectPass(rules[1..], a.fs, refused);
      var pos' := PendingAreConflicts(rules[1..], a.fs, refused);
      pos := SelectsCons(rules, rest.pending, pos', first);
      assert DirectPass(rules, fs, refused).pending == (if first then [rules[0]] else []) + rest.pending;
      ConflictsCons(rules, fs, refused, pos', pos);
    }
  }

  /** Running two batches one after the other is running them as one. */
  lemma {:induction false} DirectPassAppend(xs: seq<Rename>, ys: seq<Rename>, fs: Fs, refused: Refusals)
    ensures var mid := DirectPass(xs, fs, refused);
            var last := DirectPass(ys, mid.fs, refused);
            DirectPass(xs + ys, fs, refused) == DirectResult(mid.pending + last.pending, last.fs)
  {
    if xs == [] {
      assert xs + ys == ys;
    } else {
      assert (xs + ys)[0] == xs[0];
      assert (xs + ys)[1..] == xs[1..] + ys;
      DirectPassAppend(xs[1..], ys, Apply(xs[0], fs, refused).fs, refused);
    }
  }

  /** A rule whose rename fails neither becomes pending nor stops the pass:
      the batch ends as if the rule were not there. */
  lemma FailedRuleIsDropped(rules: seq<Rename>, fs: Fs, refused: Refusals, i: nat)
    requires i < |rules|
    requires Apply(rules[i], Before(rules, fs, refused, i), refused).result.Failure?
    ensures DirectPass(rules, fs, refused) == DirectPass(rules[..i] + rules[i + 1..], fs, refused)
  {
    var mid := DirectPass(rules[..i], fs, refused);
    assert rules == rules[..i] + ([rules[i]] + rules[i + 1..]);
    DirectPassAppend(rules[..i], [rules[i]] + rules[i + 1..], fs, refused);
    DirectPassAppend(rules[..i], rules[i + 1..], fs, refused);
    assert ([rules[i]] + rules[i + 1..])[1..] == rules[i + 1..];
  }

  /** The direct pass neither overwrites nor loses an entry. */
  lemma {:induction false} DirectPassConserves(rules: seq<Rename>, fs: Fs, refused: Refusals)
    ensures |DirectPass(rules, fs, refused).fs| == |fs|
    ensures DirectPass(rules, fs, refused).fs.Values == fs.Values
  {
    if rules != [] {
      ApplyConserves(rules[0], fs, refused);
      DirectPassConserves(rules[1..], Apply(rules[0], fs, refused).fs, refused);
    }
  }

  /** `p` is neither the source nor the destination of any rule. */
  ghost predicate Untouched(rules: seq<Rename>, p: Path)
  {
    forall k :: 0 <= k < |rules| ==> p != rules[k].source && p != rules[k].dest
  }

  /** A path no rule names is left alone. */
  lemma {:induction false} DirectPassFrame(rules: seq<Rename>, fs: Fs, refused: Refusals, p: Path)
    requires Untouched(rules, p)
    ensures Lookup(DirectPass(rules, fs, refused).fs, p) == Lookup(fs, p)
  {
    if rules != [] {
      DirectPassFrame(rules[1..], Apply(rules[0], fs, refused).fs, refused, p);
    }
  }

  /** The batch has no naming conflict at all: every source exists, no
      destination exists or is the source of another rule, no two rules share
      a source or a destination, and no move is refused. */
  ghost predicate ConflictFree(rules: seq<Rename>, fs: Fs, refused: Refusals)
  {
    && (forall j, k :: 0 <= j < k < |rules| ==> rules[j].source != rules[k].source)
    && (forall j, k :: 0 <= j < k < |rules| ==> rules[j].dest != rules[k].dest)
    && (forall j, k :: 0 <= j < |rules| && 0 <= k < |rules| ==> rules[j].dest != rules[k].source)
    && (forall k :: 0 <= k < |rules| ==> rules[k].source in fs && rules[k].dest !in fs)
    && (forall k :: 0 <= k < |rules| ==> (rules[k].source, rules[k].dest) !in refused)
  }

  /** Without conflicts the direct pass does the whole batch: nothing is
      pending and every entry ends up under its new name. */
  lemma {:induction false} ConflictFreeBatchCompletes(rules: seq<Rename>, fs: Fs, refused: Refusals)
    requires ConflictFree(rules, fs, refused)
    ensures DirectPass(rules, fs, refused).pending == []
    ensures forall k :: 0 <= k < |rules| ==>
              && Lookup(DirectPass(rules, fs, refused).fs, rules[k].dest) == Some(fs[rules[k].source])
              && rules[k].source !in DirectPass(rules, fs, refused).fs
  {
    if rules != [] {
      var r, tail := rules[0], rules[1..];
      var fs1 := Apply(r, fs, refused).fs;
      assert MovedEntry(fs, fs1, r.source, r.dest);
      assert ConflictFree(tail, fs1, refused) by {
        forall k | 0 <= k < |tail|
          ensures tail[k].source in fs1 && tail[k].dest !in fs1
        {
          assert tail[k] == rules[k + 1];
          assert Lookup(fs1, tail[k].source) == Lookup(fs, tail[k].source);
          assert Lookup(fs1, tail[k].dest) == Lookup(fs, tail[k].dest);
        }
      }
      ConflictFreeBatchCompletes(tail, fs1, refused);
      var final := DirectPass(tail, fs1, refused).fs;
      assert Untouched(tail, r.source) && Untouched(tail, r.dest) by {
        forall k | 0 <= k < |tail|
          ensures r.source != tail[k].source && r.source != tail[k].dest
          ensures r.dest != tail[k].source && r.dest != tail[k].dest
        {
          assert tail[k] == rules[k + 1];
        }
      }
      DirectPassFrame(tail, fs1, refused, r.source);
      DirectPassFrame(tail, fs1, refused, r.dest);
      forall k | 1 <= k < |rules|
        ensures Lookup(final, rules[k].dest) == Some(fs[rules[k].source])
        ensures rules[k].source !in final
      {
        assert rules[k] == tail[k - 1];
        assert Lookup(fs1, rules[k].source) == Lookup(fs, rules[k].source);
      }
    }
  }

  /** When every destination is already taken, every rule is pending and
      nothing moves. */
  lemma {:induction false} AllDestsTakenDefersAll(rules: seq<Rename>, fs: Fs, refused: Refusals)
    requires forall k :: 0 <= k < |rules| ==> rules[k].dest in fs
    ensures DirectPass(rules, fs, refused) == DirectResult(rules, fs)
  {
    if rules != [] {
      AllDestsTakenDefersAll(rules[1..], fs, refused);
      assert rules == [rules[0]] + rules[1..];
    }
  }

  /** Running a batch again after it went through defers every rule: their
      destinations now exist. */
  lemma RerunDefersAll(rules: seq<Rename>, fs: Fs, refused: Refusals)
    requires ConflictFree(rules, fs, refused)
    ensures var after := DirectPass(rules, fs, refused).fs;
            DirectPass(rules, after, refused) == DirectResult(rules, after)
  {
    ConflictFreeBatchCompletes(rules, fs, refused);
    AllDestsTakenDefersAll(rules, DirectPass(rules, fs, refused).fs, refused);
  }

  /** Swapping two existing names cannot be done directly: both rules are
      pending and both entries stay where they were. */
  lemma SwapIsPending(a: Path, b: Path, fs: Fs, refused: Refusals)
    requires a in fs && b in fs
    ensures var rules := [Rename.New(a, b), Rename.New(b, a)];
            DirectPass(rules, fs, refused) == DirectResult(rules, fs)
  {
    AllDestsTakenDefersAll([Rename.New(a, b), Rename.New(b, a)], fs, refused);
  }

  /** Whether a chain of renames goes through directly depends on the order
      of the batch: `a -> b, b -> c` leaves `a -> b` pending, while
      `b -> c, a -> b` completes. */
  lemma ChainOrderMatters(a: Path, b: Path, c: Path, fs: Fs, refused: Refusals)
    requires a in fs && b in fs && c !in fs
    requires a != b && b != c && a != c
    requires (a, b) !in refused && (b, c) !in refused
    ensures DirectPass([Rename.New(a, b), Rename.New(b, c)], fs, refused).pending == [Rename.New(a, b)]
    ensures DirectPass([Rename.New(b, c), Rename.New(a, b)], fs, refused).pending == []
  {
    var fs1 := Apply(Rename.New(b, c), fs, refused).fs;
    assert MovedEntry(fs, fs1, b, c);
    assert Lookup(fs1, a) == Lookup(fs, a);
    assert DirectPass([Rename.New(a, b)], fs1, refused).pending == [];
  }

  datatype Error = Invalid(reason: ValidationError) | Unresolved(message: string)

  /** How a batch ended, and the filesystem it left. */
  datatype Run = Run(result: Outcome<Error>, fs: Fs)

  /** The conflict resolver, given the filesystem after the direct pass and
      the pending rules. */
  type Resolver = (Fs, seq<Rename>) -> Run

  /** `apply_file_renaming_rules`: an invalid batch is rejected before any
      rename; otherwise the direct pass runs and the resolver is consulted
      only when some rule is pending. */
  function ApplyFileRenamingRules(rules: seq<Rename>, fs: Fs, refused: Refusals, resolve: Resolver): (run: Run)
    ensures !NoDuplicates(Sources(rules)) ==> run == Run(Fail(Invalid(DuplicateSources)), fs)
    ensures NoDuplicates(Sources(rules)) && !NoDuplicates(Dests(rules)) ==>
              run == Run(Fail(Invalid(DuplicateDests)), fs)
    ensures NoDuplicates(Sources(rules)) && NoDuplicates(Dests(rules)) ==>
              var d := DirectPass(rules, fs, refused);
              run == (if d.pending == [] then Run(Pass, d.fs) else resolve(d.fs, d.pending))
  {
    match Validate(rules)
    case Fail(e) => Run(Fail(Invalid(e)), fs)
    case Pass =>
      var d := DirectPass(rules, fs, refused);
      if d.pending != [] then resolve(d.fs, d.pending) else Run(Pass, d.fs)
  }

  /** The resolver is never consulted for a batch without pending rules:
      any two resolvers give the same run. */
  lemma ResolverOnlyForPending(rules: seq<Rename>, fs: Fs, refused: Refusals, r1: Resolver, r2: Resolver)
    requires Validate(rules).Fail? || DirectPass(rules, fs, refused).pending == []
    ensures ApplyFileRenamingRules(rules, fs, refused, r1) == ApplyFileRenamingRules(rules, fs, refused, r2)
  {
  }

  /** An empty batch is valid, succeeds, and changes nothing. */
  lemma EmptyBatchSucceeds(fs: Fs, refused: Refusals, resolve: Resolver)
    ensures ApplyFileRenamingRules([], fs, refused, resolve) == Run(Pass, fs)
  {
    assert NoDuplicates(Sources([]));
  }

  /** A conflict-free batch succeeds without the resolver and moves every
      entry to its new name. */
  lemma ConflictFreeBatchSucceeds(rules: seq<Rename>, fs: Fs, refused: Refusals, resolve: Resolver)
    requires ConflictFree(rules, fs, refused)
    ensures var run := ApplyFileRenamingRules(rules, fs, refused, resolve);
            && run.result == Pass
            && forall k :: 0 <= k < |rules| ==> Lookup(run.fs, rules[k].dest) == Some(fs[rules[k].source])
  {
    ConflictFreeBatchCompletes(rules, fs, refused);
  }
}
