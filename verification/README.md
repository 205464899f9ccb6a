# interactive-rename: rename engine model

This project models the rename engine of `interactive-rename`, a tool that
lets a user rename a batch of files by editing a listing of their paths in
a text editor. The engine has three steps:

- **Rule derivation** (`find_file_renaming_rules`). It compares the listing
  before and after the edit, line by line. It returns one `Rename{source, dest}`
  for every line whose text changed. It returns nothing when the texts are
  identical or when their line counts differ.
- **Batch validation** (the sanity check in `apply_file_renaming_rules`).
  A batch in which two rules share a source, or two rules share a
  destination, is rejected before any file is touched. The source check
  comes first.
- **Direct pass** (`Rename::apply` and the `filter_map` loop). Each rule is
  tried in order against an abstract filesystem, a `map<Path, Content>`.
  If the destination exists, the rule is a naming conflict: it becomes
  pending and nothing moves. Otherwise the entry at the source moves to the
  destination. The pending rules go to the conflict resolver, and only when
  there is at least one.

Modules:

- `Wrappers`: the `Option`, `Result` and `Outcome` types.
- `SeqUtil`: duplicate-freedom, set size, and subsequence positions.
- `TextLines`: Rust's `str::lines` and `join("\n")`.
- `Base`: the `Rename` datatype.
- `RenamingRules`: rule derivation.
- `Validation`: batch validation.
- `FileSystem`: `Rename::apply`.
- `Execution`: the direct pass and `apply_file_renaming_rules`.
- `Session`: `enter_main` as derive-then-apply.

`Lines` follows the current Rust definition of `str::lines`. Text is cut
after each `'\n'`, and one `'\r'` in front of that `'\n'` is removed. A
trailing line ending adds no empty line, and an empty text has no lines. A
`'\r'` at the end of an unterminated last line is kept.

A failed rename does not abort the batch: `r.apply().ok()?`
(src/lib.rs:131) turns it into "skip this rule"; the rule is neither pending
nor fatal, and the batch ends as it would without that rule
(`Execution.FailedRuleIsDropped`).

## Model

| member | source | states |
|---|---|---|
| TextLines.Lines | src/lib.rs:159-165 | No line holds a `'\n'`. There are never more lines than characters. A text has lines exactly when it is non-empty. |
| TextLines.LinesCount | src/lib.rs:159 | The line count that derivation compares is the number of `'\n'`s, plus one when the text is non-empty and does not end with `'\n'`. |
| TextLines.Join | src/lib.rs:207 | The joined text starts with the first path. When no path holds a line break, n paths give exactly n-1 `'\n'`. Where the breaks sit is pinned down by `TextLines.LinesOfJoin`, which splits a listing's join back into its paths. |
| TextLines.LinesOfJoin | src/lib.rs:207-211 | Splitting the joined listing gives back the selected paths, when no path holds a line break, no path but the last ends in `'\r'`, and the last path is non-empty. |
| TextLines.JoinOfLines | src/lib.rs:164-165 | For a text without `'\r'`, joining its lines gives the text back, minus one final `'\n'`: splitting loses nothing else. |
| Base.Rename.New | src/lib.rs:23-28 | A new rule has the given source and dest, and no temporary name. |
| RenamingRules.ZipRules | src/lib.rs:166-171 | Pairing lines gives at most one rule per line pair. Every rule has `source != dest` and no temporary name. |
| RenamingRules.FindRenamingRules | src/lib.rs:154-174 | Identical texts give no rules. Texts with different line counts give no rules. Otherwise there are at most as many rules as lines, each with `source != dest` and `tmp == None`. |
| RenamingRules.ZipRulesPositions | src/lib.rs:164-173 | Rule k renames old line p_k to new line p_k. The p_k are increasing and are exactly the positions where the lines differ. |
| RenamingRules.DerivedRulesAreChangedLines | src/lib.rs:154-174 | With equal line counts, there is one rule per differing line, in line order. Its source is the old line and its dest the new line. Identical lines give nothing. |
| RenamingRules.UnitTestCases | src/lib.rs:179-198 | The four cases of the unit test give `[a→b]`, `[a→b, b→c]`, `[]` and `[b→c]`. |
| RenamingRules.LineEndingsAreNotChanges | src/lib.rs:155-165 | Some texts differ but have equal lines, such as an added final newline or CRLF instead of LF. They give no rules. |
| SeqUtil.SetSizeIffDistinct | src/lib.rs:117-118 | Collecting into a set never grows a sequence. The set has as many elements as the sequence exactly when no element repeats. |
| Validation.Validate | src/lib.rs:115-126 | A batch passes exactly when its sources and its dests are each duplicate-free. A repeated source gives the source error even when a dest also repeats. A repeated dest gives the dest error only when the sources are distinct. |
| Validation.ValidationExamples | src/lib.rs:115-126 | `[a→x, a→y]` gives the source error. `[a→z, b→z]` gives the dest error. `[a→z, a→z]` gives the source error. `[a→x, b→y]` passes. |
| FileSystem.Apply | src/lib.rs:88-99 | If the dest exists: returns `Ok(false)`, filesystem unchanged. If the source is missing: not-found error, filesystem unchanged. If the move is refused: error, filesystem unchanged. Otherwise: returns `Ok(true)`, the dest holds the source's entry, the source is gone, and every other path is unchanged. |
| FileSystem.ApplyConserves | src/lib.rs:88-99 | A rename keeps the number of entries and the set of contents. Nothing is overwritten or lost. |
| FileSystem.ApplyUndo | src/lib.rs:95 | Renaming `dest` back to `source` after a successful rename restores the filesystem exactly. |
| Execution.DirectPass | src/lib.rs:128-138 | The pending list is no longer than the batch, and every pending rule is a rule of the batch. |
| Execution.PendingAreConflicts | src/lib.rs:128-138 | The pending list is the subsequence of the batch, in order, of exactly those rules whose `apply` returned `Ok(false)` against the filesystem the earlier rules left. |
| Execution.DirectPassAppend | src/lib.rs:128-138 | The pass over `xs + ys` is the pass over `xs` followed by the pass over `ys`, and the pending lists concatenate. |
| Execution.FailedRuleIsDropped | src/lib.rs:131 | A rule whose rename errors at its turn changes nothing. The pass ends exactly as if that rule were removed from the batch. |
| Execution.DirectPassConserves | src/lib.rs:128-138 | The pass keeps the number of entries and the set of contents. |
| Execution.DirectPassFrame | src/lib.rs:128-138 | A path that no rule names as source or dest is unchanged. |
| Execution.ConflictFreeBatchCompletes | src/lib.rs:128-138 | Take a batch with distinct sources and dests, existing sources, absent dests that are no rule's source, and no refused move. Nothing is pending, each dest holds its source's original entry, and each source is gone. |
| Execution.AllDestsTakenDefersAll | src/lib.rs:88-93 | When every dest exists, the pending list is the whole batch and the filesystem is unchanged. |
| Execution.RerunDefersAll | src/lib.rs:128-138 | Re-running a completed conflict-free batch makes every rule pending and moves nothing. |
| Execution.SwapIsPending | src/lib.rs:128-144 | The swap `[a→b, b→a]` with both names present leaves both rules pending and the filesystem unchanged. |
| Execution.ChainOrderMatters | src/lib.rs:128-138 | With `a` and `b` present and `c` absent: `[a→b, b→c]` leaves `a→b` pending, while `[b→c, a→b]` leaves nothing pending. |
| Execution.ApplyFileRenamingRules | src/lib.rs:113-147 | A duplicate source fails with the source error and the filesystem unchanged. Otherwise a duplicate dest fails with the dest error and the filesystem unchanged. A valid batch succeeds after the direct pass when nothing is pending. When some rule is pending, the result is the resolver's result on the pending list. |
| Execution.ResolverOnlyForPending | src/lib.rs:140-146 | When validation fails, or nothing is pending, any two resolvers give the same result: the resolver is not consulted. |
| Execution.EmptyBatchSucceeds | src/lib.rs:113-147 | An empty batch validates, succeeds, and leaves the filesystem unchanged. |
| Execution.ConflictFreeBatchSucceeds | src/lib.rs:113-147 | A conflict-free batch succeeds, and every dest ends up holding its source's original entry. |
| Session.RenameSession | src/lib.rs:207-214 | An edit that changes nothing succeeds and leaves the filesystem unchanged. |
| Session.SessionRulesFollowEdits | src/lib.rs:202-211 | For a listing of selected paths and an edit that keeps the line count, there is one rule per edited line, from the selected path to the edited line, in selection order. |
| Session.LineCountChangeRenamesNothing | src/lib.rs:159-162 | An edit that adds or removes lines succeeds and renames nothing. |

## Left out

- `interactive_edit`: it writes a temporary file, reads `EDITOR` and runs a subprocess. Its result is the `edited` parameter of `Session.RenameSession`.
- `find::find_files`: it is the skim fuzzy-finder UI, a foreign library. Its result is the `files` parameter of `Session.RenameSession`.
- `resolve_renaming_conflicts`, `Rename::apply_stage1` and `Rename::apply_stage2`: they have no behaviour yet (`todo!()` and empty bodies). The resolver is an uninterpreted `Resolver` parameter, and the staged temporary-name protocol is not modelled.
- `Display` for `Rename`, and the `info!`, `error!` and `println!` messages: they only produce output. The "no changes" and "invalid changes" cases show up only as an empty rule list.
- `std::fs::rename` and `Path::exists`: they become a map from path to content. Permissions, cross-device moves and similar failures are the caller-supplied `refused` set of moves, which is fixed for the whole batch. A failed rename changes nothing, as an atomic rename does.
- Directory hierarchy: paths are flat, independent keys. Renaming a directory does not move the paths beneath it, and whether a path exists does not depend on its parent. The pass lemmas (`Execution.DirectPassFrame`, `Execution.ConflictFreeBatchCompletes` and the others) describe a real filesystem only when no rule's path lies under another rule's path. For example, with `d` and `d/x` present, the model completes `[d→e, d/x→d/y]`, while the program's second rename fails because `d/x` has moved with `d`.
- `PathBuf` equality: `PathBuf` compares by path components (`a/` equals `a`), but the model compares paths as plain strings. Validation and the filesystem therefore distinguish paths that Rust would treat as equal.
- TextLines.Join: its own contract gives the first path as a prefix and the number of line breaks, but does not place the breaks between consecutive paths. `TextLines.LinesOfJoin` gives the paths back from the joined text.
- Filesystem name matching: the map models a case-sensitive filesystem without symbolic links, where a path exists only under its exact string. On a case-insensitive volume, `Path::exists` finds `a` when asked for `A`. So the program leaves `[a→A]` pending and hands it to the unimplemented resolver, while the model moves the entry. `Path::exists` also follows symbolic links and is false for a dangling one, so `std::fs::rename` can replace such a link. The statements that nothing is overwritten or lost (`FileSystem.ApplyConserves`, `Execution.DirectPassConserves`) hold only for this map model.
- Execution.DirectPass: its own contract only bounds the pending list. `Execution.PendingAreConflicts` states exactly which rules are pending, and `Execution.DirectPassConserves` and `Execution.DirectPassFrame` state what happens to the filesystem.
- Session.RenameSession: its own contract covers only the unchanged edit. Edits that keep the line count are covered by `Session.SessionRulesFollowEdits`, and edits that change it by `Session.LineCountChangeRenamesNothing`.
- Rust's `lines` result type: it yields `&str` slices of UTF-8 text. The model works on `seq<char>` and does no encoding.
